/**
  Authenticated packing changes the sender's keys, and unpacking an encrypted message the receiver's
  (packages/utils/src/did-utils.ts): the managed key objects are converted to X25519 in place, and an in-memory store
  hands out the objects it holds.
 */
module DidCommConversion {
  import opened Results
  import opened DidCommWire
  import opened DidCommPacking
  import opened DidCommRoundTrip

  // ---------------------------------------------------------------- the conversion in place

  class ManagedKey {
    const kid: string
    var key: PublicKey

    constructor (kid: string, key: PublicKey)
      ensures this.kid == kid && this.key == key
    {
      this.kid, this.key := kid, key;
    }

    function Value(): Key
      reads this
    {
      Key(kid, key)
    }
  }

  function Values(keys: seq<ManagedKey>): (r: seq<Key>)
    reads keys
    ensures |r| == |keys| && forall i | 0 <= i < |keys| :: r[i] == keys[i].Value()
  {
    seq(|keys|, i requires 0 <= i < |keys| reads keys => keys[i].Value())
  }

  /** The keys after the conversion: Ed25519 keys have become X25519 keys, the others are as before. */
  function Converted(keys: seq<Key>): (r: seq<Key>)
    ensures |r| == |keys| && forall i | 0 <= i < |keys| :: r[i] == Key(keys[i].kid, ToX25519(keys[i].key))
  {
    seq(|keys|, i requires 0 <= i < |keys| => Key(keys[i].kid, ToX25519(keys[i].key)))
  }

  /** `convertIdentifierEncryptionKeys`: what it returns are the very objects it has changed. */
  method ConvertIdentifierEncryptionKeys(keys: seq<ManagedKey>) returns (usable: seq<ManagedKey>)
    modifies keys
    ensures Values(keys) == Converted(old(Values(keys)))
    ensures Values(usable) == EncryptionKeys(old(Values(keys)))
    ensures forall k | k in usable :: k in keys
  {
    hide EncryptionKeys;
    usable := [];
    ghost var before := Values(keys);
    NoKeys();
    for i := 0 to |keys|
      invariant forall k | k in keys :: k.key == if k in keys[..i] then ToX25519(old(k.key)) else old(k.key)
      invariant forall k | k in usable :: k in keys && k.key.curve == "X25519"
      invariant Values(usable) == EncryptionKeys(before[..i])
    {
      var key := keys[i];
      assert keys[..i + 1] == keys[..i] + [key] && before[..i + 1] == before[..i] + [before[i]];
      EncryptionKeysSnoc(before[..i], before[i]);
      ghost var soFar := Values(usable);
      if key.key.curve == "Ed25519" {
        key.key := ToX25519(key.key);
      }
      assert key.key == ToX25519(old(key.key)) && Values(usable) == soFar;
      if key.key.curve == "X25519" {
        usable := usable + [key];
        assert Values(usable) == soFar + [key.Value()];
      }
    }
    assert before[..|keys|] == before;
  }

  lemma NoKeys()
    ensures EncryptionKeys([]) == []
  {
  }

  lemma {:induction false} EncryptionKeysSnoc(keys: seq<Key>, key: Key)
    ensures EncryptionKeys(keys + [key]) == EncryptionKeys(keys)
            + if ToX25519(key.key).curve == "X25519" then [Key(key.kid, ToX25519(key.key))] else []
  {
    if keys == [] {
      assert [] + [key] == [key] && [key][1..] == [];
    } else {
      var all := keys + [key];
      assert all[1..] == keys[1..] + [key] && all[0] == keys[0];
      EncryptionKeysSnoc(keys[1..], key);
      var k := ToX25519(keys[0].key);
      var head := if k.curve == "X25519" then [Key(keys[0].kid, k)] else [];
      assert EncryptionKeys(keys) == head + EncryptionKeys(keys[1..]);
      assert EncryptionKeys(all) == head + EncryptionKeys(all[1..]);
    }
  }

  // ---------------------------------------------------------------- what it does to later messages

  /** The agent after one of its identifiers has been mapped to key agreement keys. */
  function AfterEncrypting(agent: Agent, did: string): Agent
    requires did in agent.identifiers
  {
    var identifier := agent.identifiers[did];
    agent.(identifiers := agent.identifiers[did := identifier.(keys := Converted(identifier.keys))])
  }

  /** Converting again changes nothing more, so encryption and decryption are not affected. */
  lemma {:induction false} EncryptionKeysStay(keys: seq<Key>)
    ensures EncryptionKeys(Converted(keys)) == EncryptionKeys(keys)
    ensures Converted(Converted(keys)) == Converted(keys)
  {
    if keys != [] {
      EncryptionKeysStay(keys[1..]);
      assert Converted(keys)[1..] == Converted(keys[1..]);
    }
  }

  /** The encryption a later message gets is the one it would have got. */
  lemma EncryptingAgainIsSame(agent: Agent, did: string, net: Resolver, args: PackArgs, nonce: nat)
    requires did in agent.identifiers
    ensures PackedJwe(AfterEncrypting(agent, did), net, args, nonce) == PackedJwe(agent, net, args, nonce)
  {
    EncryptionKeysStay(agent.identifiers[did].keys);
    hide EncryptionKeys, Converted, AllRecipients, EncrypterFor, MatchKeys, CreateJwe, SelectKey;
  }

  predicate Lasting(k: DocKey) {
    k.key.curve != "Ed25519"
  }

  function LastingKeys(keys: seq<DocKey>): (r: seq<DocKey>)
    ensures forall k :: k in r <==> k in keys && Lasting(k)
  {
    if keys == [] then [] else (if Lasting(keys[0]) then [keys[0]] else []) + LastingKeys(keys[1..])
  }

  /** No method of the section is an X25519 key, which could not sign. */
  predicate Signing(methods: seq<VerificationMethod>) {
    forall m | m in methods :: m.key.curve != "X25519"
  }

  lemma {:induction false} FindConverted(keys: seq<Key>, key: PublicKey)
    requires key.curve != "X25519"
    ensures FindByPublicKey(Converted(keys), key) == if key.curve == "Ed25519" then None else FindByPublicKey(keys, key)
  {
    if keys != [] {
      FindConverted(keys[1..], key);
      assert Converted(keys)[1..] == Converted(keys[1..]);
    }
  }

  lemma {:induction false} MatchConverted(methods: seq<VerificationMethod>, keys: seq<Key>)
    requires Signing(methods)
    ensures MatchKeys(methods, Converted(keys)) == LastingKeys(MatchKeys(methods, keys))
  {
    if methods != [] {
      assert methods[0] in methods && forall m | m in methods[1..] :: m in methods;
      MatchConverted(methods[1..], keys);
      FindConverted(keys, methods[0].key);
      FindByPublicKeyFinds(keys, methods[0].key);
      var found, rest := FindByPublicKey(keys, methods[0].key), MatchKeys(methods[1..], keys);
      if found.Some? {
        assert ([DocKey(found.value.kid, found.value.key, methods[0])] + rest)[1..] == rest;
      } else {
        assert [] + rest == rest;
      }
    }
  }

  /** Signing finds no key exactly when none of the sender's keys matches its document. */
  lemma NoKeyToSign(agent: Agent, did: string, net: Resolver, args: PackArgs)
    requires did in agent.identifiers && did != "" && args.message.from == Some(did)
    requires AuthenticationKeys(net, agent.identifiers[did]).Ok?
    ensures PackedJws(agent, net, args) == Err(KeyNotFound)
            <==> AuthenticationKeys(net, agent.identifiers[did]).value == []
  {
    SelectKeyMeaning(AuthenticationKeys(net, agent.identifiers[did]).value, args.keyRef);
    hide SelectKey, AuthenticationKeys, SigningAlg;
  }

  lemma KeysAfterEncrypting(agent: Agent, did: string, net: Resolver)
    requires did in agent.identifiers && AuthenticationKeys(net, agent.identifiers[did]).Ok?
    requires Signing(Resolve(net, agent.identifiers[did].did).value.authentication)
    ensures AuthenticationKeys(net, AfterEncrypting(agent, did).identifiers[did])
            == Ok(LastingKeys(AuthenticationKeys(net, agent.identifiers[did]).value))
  {
    hide MatchKeys, LastingKeys, Signing, Resolve;
    MatchConverted(Resolve(net, agent.identifiers[did].did).value.authentication, agent.identifiers[did].keys);
  }

  /**
    After an identifier's keys were converted, by packing as its authenticated sender or by unpacking as a receiver,
    its signed messages can use those of its keys only that are not Ed25519 keys. One all of whose matching keys are
    Ed25519 keys can no longer sign.
   */
  lemma SigningAfterEncrypting(agent: Agent, did: string, net: Resolver, args: PackArgs)
    requires did in agent.identifiers && did != "" && args.message.from == Some(did)
    requires AuthenticationKeys(net, agent.identifiers[did]).Ok?
    requires Signing(Resolve(net, agent.identifiers[did].did).value.authentication)
    ensures var keys := AuthenticationKeys(net, agent.identifiers[did]).value;
      && AuthenticationKeys(net, AfterEncrypting(agent, did).identifiers[did]) == Ok(LastingKeys(keys))
      && (PackedJws(AfterEncrypting(agent, did), net, args) == Err(KeyNotFound)
          <==> forall k | k in keys :: !Lasting(k))
  {
    hide AuthenticationKeys, PackedJws, Signing, LastingKeys;
    KeysAfterEncrypting(agent, did, net);
    NoKeyToSign(AfterEncrypting(agent, did), did, net, args);
    var lasting := LastingKeys(AuthenticationKeys(net, agent.identifiers[did]).value);
    assert lasting != [] ==> lasting[0] in lasting;
  }
}
