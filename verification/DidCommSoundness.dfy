/** What is packed for whom, and what an accepted message is, for every message and whoever made it. */
module DidCommSoundness {
  import opened Results
  import opened Strings
  import opened DidCommWire
  import opened DidCommPacking
  import opened DidCommRoundTrip

  // ---------------------------------------------------------------- recipients

  /** The DID's document lists the key for key agreement, usable for encryption and, if ids are given, asked for. */
  ghost predicate Offers(net: Resolver, url: string, kids: Option<seq<string>>, r: RecipientKey) {
    && DidOf(url).Some? && DidOf(url).value in net
    && exists m | m in net[DidOf(url).value].keyAgreement :: OfferedBy(m, kids, r)
  }

  predicate OfferedBy(m: VerificationMethod, kids: Option<seq<string>>, r: RecipientKey) {
    && r.kid == m.id
    && (m.key.curve == "Ed25519" || m.key.curve == "X25519")
    && r.key == PublicKey("X25519", m.key.secret)
    && (kids == None || r.kid in kids.value)
  }

  lemma {:induction false} OfferedMethods(methods: seq<VerificationMethod>, kids: Option<seq<string>>)
    ensures forall r :: r in SupportedRecipients(WantedMethods(Normalized(methods), kids)) <==>
              exists m | m in methods :: OfferedBy(m, kids, r)
  {
    if methods != [] {
      OfferedMethods(methods[1..], kids);
      var all, rest := Normalized(methods), Normalized(methods[1..]);
      assert all[1..] == rest && all[0] == methods[0].(key := ToX25519(methods[0].key));
      var wanted, others := WantedMethods(all, kids), WantedMethods(rest, kids);
      if Wanted(all[0].id, kids) {
        assert wanted[0] == all[0] && wanted[1..] == others;
      } else {
        assert wanted == others;
      }
      forall r ensures r in SupportedRecipients(wanted) <==>
                         OfferedBy(methods[0], kids, r) || r in SupportedRecipients(others)
      {
      }
      hide SupportedRecipients, WantedMethods, OfferedBy, Wanted;
      assert methods == [methods[0]] + methods[1..];
    }
  }

  ghost predicate OffersSome(net: Resolver, url: string, kids: Option<seq<string>>) {
    exists r :: Offers(net, url, kids, r)
  }

  /** One DID gives its offered keys, or an error if it has none. */
  lemma RecipientsOfMeaning(net: Resolver, url: string, kids: Option<seq<string>>)
    ensures RecipientsOf(net, url, kids).Ok? <==> OffersSome(net, url, kids)
    ensures RecipientsOf(net, url, kids).Ok? ==>
      forall r :: r in RecipientsOf(net, url, kids).value <==> Offers(net, url, kids, r)
  {
    if DidOf(url).Some? && DidOf(url).value in net {
      var methods := net[DidOf(url).value].keyAgreement;
      OfferedMethods(methods, kids);
      hide OfferedBy, Normalized;
      var keys := WantedMethods(Normalized(methods), kids);
      var recipients := SupportedRecipients(keys);
      forall r ensures r in recipients <==> Offers(net, url, kids, r) {}
      if recipients != [] { assert recipients[0] in recipients; }
    }
  }

  /**
    The recipients of a message are exactly the keys its DIDs offer. There is an error exactly when one of the DIDs
    offers none.
   */
  lemma {:induction false} RecipientsMeaning(net: Resolver, dids: seq<string>, kids: Option<seq<string>>)
    ensures AllRecipients(net, dids, kids).Ok? <==> forall url | url in dids :: OffersSome(net, url, kids)
    ensures AllRecipients(net, dids, kids).Ok? ==>
      forall r :: r in AllRecipients(net, dids, kids).value <==> exists url | url in dids :: Offers(net, url, kids, r)
  {
    hide Offers, RecipientsOf, OffersSome;
    if dids != [] {
      var front, last := dids[..|dids| - 1], dids[|dids| - 1];
      assert dids == front + [last];
      RecipientsMeaning(net, front, kids);
      RecipientsOfMeaning(net, last, kids);
      forall r
        ensures (exists url | url in dids :: Offers(net, url, kids, r)) <==>
                  Offers(net, last, kids, r) || exists url | url in front :: Offers(net, url, kids, r)
      {
      }
    }
  }

  /** In the order of the DIDs: the keys for a longer list are those for its parts, one after the other. */
  lemma {:induction false} RecipientsInOrder(net: Resolver, a: seq<string>, b: seq<string>, kids: Option<seq<string>>)
    requires AllRecipients(net, a, kids).Ok? && AllRecipients(net, b, kids).Ok?
    ensures AllRecipients(net, a + b, kids)
            == Ok(AllRecipients(net, a, kids).value + AllRecipients(net, b, kids).value)
    ensures |b| == 1 ==> AllRecipients(net, b, kids) == RecipientsOf(net, b[0], kids)
  {
    hide RecipientsOf;
    if b == [] {
      assert a + b == a;
      var of_a := AllRecipients(net, a, kids).value;
      assert of_a + [] == of_a;
    } else {
      var last := |b| - 1;
      assert (a + b)[..|a + b| - 1] == a + b[..last];
      RecipientsInPrefix(net, b, last, kids);
      RecipientsInOrder(net, a, b[..last], kids);
      var of_a, front, back := AllRecipients(net, a, kids).value, AllRecipients(net, b[..last], kids).value,
                               RecipientsOf(net, b[last], kids).value;
      assert (of_a + front) + back == of_a + (front + back);
      if last == 0 { assert b[..0] == [] && [] + back == back; }
    }
  }

  lemma RecipientsInPrefix(net: Resolver, b: seq<string>, last: nat, kids: Option<seq<string>>)
    requires last + 1 == |b| && AllRecipients(net, b, kids).Ok?
    ensures AllRecipients(net, b[..last], kids).Ok? && RecipientsOf(net, b[last], kids).Ok?
    ensures AllRecipients(net, b, kids)
            == Ok(AllRecipients(net, b[..last], kids).value + RecipientsOf(net, b[last], kids).value)
    ensures AllRecipients(net, [], kids) == Ok([])
  {
    hide RecipientsOf;
  }

  /** The encryption round trip, by documents: whoever holds an offered key of any addressee reads the message. */
  lemma HoldersRead(sender: Agent, net: Resolver, args: PackArgs, nonce: nat, receiver: Agent)
    requires WellFormed(net)
    requires StoreKeyed(sender) && KmsConsistent(sender)
    requires StoreKeyed(receiver) && KmsBacked(receiver)
    requires PackedJwe(sender, net, args, nonce).Ok?
    ensures UnpackedMessage(receiver, net, PackedJwe(sender, net, args, nonce).value) ==
            if exists url, r :: url in args.message.to + args.bcc && Offers(net, url, args.recipientKids, r)
                                && Holds(receiver, r)
            then Ok(Unpacked(args.message, args.packing)) else Err(Undecryptable)
  {
    JweRoundTrip(sender, net, args, nonce, receiver);
    JweOpensExactly(sender, net, args, nonce, receiver);
    hide *;
    RecipientsMeaning(net, args.message.to + args.bcc, args.recipientKids);
  }

  // ---------------------------------------------------------------- algorithms

  /** Which combinations of packing, `enc` and `alg` there is an encrypter for, and what it does. */
  lemma EncrypterForMeaning(packing: string, enc: string, alg: string)
    ensures EncrypterFor(packing, enc, alg).Some? <==>
      && enc in {"A256GCM", "A256CBC-HS512", "XC20P"}
      && (EndsWith(alg, "+XC20PKW") || EndsWith(alg, "+A256KW"))
      && ((packing == "authcrypt" && StartsWith(alg, "ECDH-1PU"))
          || (packing == "anoncrypt" && StartsWith(alg, "ECDH-ES")))
    ensures EncrypterFor(packing, enc, alg).Some? ==>
      var suite := EncrypterFor(packing, enc, alg).value;
      && (enc == "A256GCM" <==> suite.content == A256Gcm) && (enc == "XC20P" <==> suite.content == Xc20p)
      && (packing == "authcrypt" <==> suite.kek == Ecdh1Pu)
      && (EndsWith(alg, "+XC20PKW") <==> suite.wrap == Xc20pKw)
  {
    assert alg == "" ==> !EndsWith(alg, "+XC20PKW") && !EndsWith(alg, "+A256KW");
  }

  /** The names of the four algorithms, and that asking for one by its name gets it. */
  lemma NamedAlgorithm(suite: Suite)
    ensures AlgName(suite) ==
      if suite.kek == EcdhEs then (if suite.wrap == A256Kw then "ECDH-ES+A256KW" else "ECDH-ES+XC20PKW")
      else if suite.wrap == A256Kw then "ECDH-1PU+A256KW" else "ECDH-1PU+XC20PKW"
    ensures EncName(suite.content) ==
      if suite.content == A256Gcm then "A256GCM" else if suite.content == Xc20p then "XC20P" else "A256CBC-HS512"
    ensures var packing := if suite.kek == Ecdh1Pu then "authcrypt" else "anoncrypt";
      EncrypterFor(packing, EncName(suite.content), AlgName(suite)) == Some(suite)
  {
    var name := AlgName(suite);
    assert name[..|name| - |if suite.wrap == A256Kw then "+A256KW" else "+XC20PKW"|]
           == if suite.kek == EcdhEs then "ECDH-ES" else "ECDH-1PU";
    match suite.wrap {
      case A256Kw =>
        assert name[|name| - 7..] == "+A256KW";
        assert name[|name| - 8..][0] != '+';
      case Xc20pKw =>
        assert name[|name| - 8..] == "+XC20PKW";
    }
  }

  /** What the header of a packed message says: the algorithms asked for, or the defaults. */
  lemma HeaderMeaning(sender: Agent, net: Resolver, args: PackArgs, nonce: nat)
    requires PackedJwe(sender, net, args, nonce).Ok?
    ensures var w := PackedJwe(sender, net, args, nonce).value;
      && w.JweObject? && w.ciphertext.text == args.message && w.ciphertext.aad == w.protectedHeader
      && w.protectedHeader.typ == Some("application/didcomm-encrypted+json")
      && w.protectedHeader.enc == Some(if args.enc.Some? then args.enc.value else "A256GCM")
      && (args.alg == None ==>
            w.protectedHeader.alg == Some(if args.packing == "authcrypt" then "ECDH-1PU+A256KW" else "ECDH-ES+A256KW"))
      && (forall suite: Suite | args.alg == Some(AlgName(suite)) :: w.protectedHeader.alg == Some(AlgName(suite)))
      && (w.protectedHeader.skid.Some? <==> args.packing == "authcrypt")
      && w.protectedHeader.epk == Some(EphemeralKey("X25519", PublicKey("X25519", Ephemeral(nonce))))
  {
    var suite := PackedWith(sender, net, args, nonce);
    NamedAlgorithm(suite);
    hide *;
    var enc, alg := if args.enc.Some? then args.enc.value else "A256GCM", RequestedAlg(args);
    EncrypterForMeaning(args.packing, enc, alg);
    forall other: Suite | alg == AlgName(other) ensures AlgName(suite) == AlgName(other) {
      AlgEnds(other);
      NamedAlgorithm(other);
    }
    if args.alg == None {
      NamedAlgorithm(Suite(if args.packing == "authcrypt" then Ecdh1Pu else EcdhEs, A256Kw, suite.content));
    }
    RequestedAlgIs(args);
  }

  function RequestedAlg(args: PackArgs): string {
    GetOr(args.alg, DefaultAlg(args.packing))
  }

  lemma RequestedAlgIs(args: PackArgs)
    ensures args.alg == None ==>
      RequestedAlg(args) == if args.packing == "authcrypt" then "ECDH-1PU+A256KW" else "ECDH-ES+A256KW"
    ensures args.alg.Some? ==> RequestedAlg(args) == args.alg.value
  {
  }

  lemma PackedWith(sender: Agent, net: Resolver, args: PackArgs, nonce: nat) returns (suite: Suite)
    requires PackedJwe(sender, net, args, nonce).Ok?
    ensures EncrypterFor(args.packing, if args.enc.Some? then args.enc.value else "A256GCM", RequestedAlg(args))
            == Some(suite)
    ensures var w := PackedJwe(sender, net, args, nonce).value;
      && w.JweObject? && w.ciphertext.text == args.message && w.ciphertext.aad == w.protectedHeader
      && w.protectedHeader.typ == Some("application/didcomm-encrypted+json")
      && w.protectedHeader.enc == Some(EncName(suite.content)) && w.protectedHeader.alg == Some(AlgName(suite))
      && (w.protectedHeader.skid.Some? <==> args.packing == "authcrypt")
      && w.protectedHeader.epk == Some(EphemeralKey("X25519", PublicKey("X25519", Ephemeral(nonce))))
  {
    hide AllRecipients, SenderKey, EncrypterFor, AlgName, EncName, DefaultAlg, RecipientEntries;
    suite := EncrypterFor(args.packing, GetOr(args.enc, "A256GCM"), RequestedAlg(args)).value;
  }

  lemma AlgEnds(suite: Suite)
    ensures EndsWith(AlgName(suite), "+XC20PKW") <==> suite.wrap == Xc20pKw
    ensures StartsWith(AlgName(suite), "ECDH-1PU") <==> suite.kek == Ecdh1Pu
    ensures StartsWith(AlgName(suite), "ECDH-ES") <==> suite.kek == EcdhEs
  {
    var name := AlgName(suite);
    match suite.wrap {
      case A256Kw => assert name[|name| - 8..][0] != '+';
      case Xc20pKw => assert name[|name| - 8..] == "+XC20PKW";
    }
    assert name[5] == if suite.kek == EcdhEs then 'E' else '1';
  }

  // ---------------------------------------------------------------- the four packings

  /** Which packing is which: encrypted, signed, or the message itself with its media type. */
  lemma PackedIs(agent: Agent, net: Resolver, args: PackArgs, nonce: nat)
    ensures var r := Packed(agent, net, args, nonce);
      && (args.packing == "authcrypt" || args.packing == "anoncrypt" ==> r == PackedJwe(agent, net, args, nonce))
      && (args.packing == "jws" ==> r == PackedJws(agent, net, args))
      && (args.packing == "none" ==>
            r == Ok(PlainObject(args.message.(typ := Some("application/didcomm-plain+json")))))
      && (args.packing !in {"authcrypt", "anoncrypt", "jws", "none"} ==> r == Err(NotImplemented))
  {
    hide PackedJwe, PackedJws;
    assert |"authcrypt"| == |"anoncrypt"| == 9 && |"none"| == 4 && |"jws"| == 3;
  }

  // ---------------------------------------------------------------- choosing a decrypter

  /**
    For which headers there is a decrypter: with an X25519 ephemeral key, a known content cipher, and an `alg` that ends
    in a known wrapping. It is authenticated exactly when the sender's key is known and `alg` names that agreement.
   */
  lemma DecrypterMeaning(header: Header, senderKey: Option<PublicKey>)
    ensures var choice := DecrypterFor(header, senderKey);
      && (choice.decrypter.Some? <==>
            && header.epk.Some? && header.epk.value.crv == "X25519"
            && header.enc in {Some("A256GCM"), Some("A256CBC-HS512"), Some("XC20P")}
            && header.alg.Some? && (EndsWith(header.alg.value, "+A256KW") || EndsWith(header.alg.value, "+XC20PKW")))
      && (choice.decrypter.Some? ==>
            && var suite := choice.decrypter.value.suite;
               && var authenticated := senderKey.Some? && Includes(header.alg.value, "ECDH-1PU");
                  && choice.packing == (if authenticated then "authcrypt" else "anoncrypt")
                  && choice.decrypter.value.sender == (if authenticated then senderKey else None)
                  && suite.kek == (if authenticated then Ecdh1Pu else EcdhEs)
                  && suite.wrap == (if EndsWith(header.alg.value, "+A256KW") then A256Kw else Xc20pKw)
                  && header.enc == Some(EncName(suite.content)))
  {
    hide Includes, EndsWith;
  }

  // ---------------------------------------------------------------- accepted signatures

  /** The signature is by a key that the message's sender lists for authentication, over this message and header. */
  ghost predicate SignedBySender(net: Resolver, header: Header, payload: Message, signature: Signature) {
    && header.kid.Some? && DidOf(header.kid.value).Some? && DidOf(header.kid.value) == payload.from
    && payload.from.value in net
    && (exists m | m in net[payload.from.value].authentication :: m.id == header.kid.value && m.key == signature.key)
    && signature.payload == payload && signature.protectedHeader == header && header.alg == Some(signature.alg)
  }

  lemma VerifiedIff(net: Resolver, header: Header, payload: Message, signature: Signature)
    requires WellFormed(net)
    ensures VerifiedJws(net, Some(header), payload, Some(signature)) == Ok(Unpacked(payload, "jws"))
            <==> SignedBySender(net, header, payload, signature)
    ensures forall u ::
      VerifiedJws(net, Some(header), payload, Some(signature)) == Ok(u) ==> u == Unpacked(payload, "jws")
  {
    if header.kid.Some? && DidOf(header.kid.value).Some? && DidOf(header.kid.value) == payload.from {
      BareDid(header.kid.value);
      var did := DidOf(header.kid.value).value;
      if did in net {
        var methods := net[did].authentication;
        if m :| m in methods && m.id == header.kid.value {
          var i :| 0 <= i < |methods| && methods[i] == m;
          FindMethodFinds(methods, i);
          assert forall n | n in methods && n.id == m.id :: n == m;
        } else {
          MethodMissing(methods, header.kid.value);
        }
      }
    }
  }

  lemma {:induction false} MethodMissing(methods: seq<VerificationMethod>, id: string)
    requires forall m | m in methods :: m.id != id
    ensures FindMethod(methods, id) == None
  {
    if methods != [] {
      MethodMissing(methods[1..], id);
    }
  }

  /** A message with one signature is accepted as signed exactly when its sender signed it. */
  lemma FlatSignatureIff(receiver: Agent, net: Resolver, header: Header, payload: Message, signature: Signature,
                         m: Message)
    requires WellFormed(net)
    ensures UnpackedMessage(receiver, net, FlatJwsObject(header, payload, signature)) == Ok(Unpacked(m, "jws")) <==>
            header.typ == Some("application/didcomm-signed+json") && m == payload
            && SignedBySender(net, header, payload, signature)
  {
    VerifiedIff(net, header, payload, signature);
    hide UnpackedJwe, VerifiedJws, SignedBySender;
    assert SIGNED != ENCRYPTED by { assert |SIGNED| != |ENCRYPTED|; }
  }

  /** Of several signatures only the first is looked at. */
  lemma GeneralSignatureIff(receiver: Agent, net: Resolver, payload: Message, signatures: seq<SignatureEntry>,
                            m: Message)
    requires WellFormed(net)
    ensures UnpackedMessage(receiver, net, GeneralJwsObject(payload, signatures)) == Ok(Unpacked(m, "jws")) <==>
            && signatures != [] && signatures[0].protectedHeader.Some? && signatures[0].signature.Some?
            && m == payload
            && SignedBySender(net, signatures[0].protectedHeader.value, payload, signatures[0].signature.value)
  {
    if signatures != [] && signatures[0].protectedHeader.Some? && signatures[0].signature.Some? {
      VerifiedIff(net, signatures[0].protectedHeader.value, payload, signatures[0].signature.value);
    }
    hide UnpackedJwe, SignedBySender, FindMethod;
  }

  /** When a message can be signed: by a managed key of another curve than X25519 that the sender's document lists. */
  lemma SigningMeaning(sender: Agent, net: Resolver, args: PackArgs)
    requires PackedJws(sender, net, args).Ok?
    ensures var w := PackedJws(sender, net, args).value;
      && w.FlatJwsObject? && w.payload == args.message && w.signature.payload == args.message
      && w.signature.protectedHeader == w.protectedHeader
      && w.protectedHeader.typ == Some("application/didcomm-signed+json")
      && (w.signature.key.curve == "Ed25519" || w.signature.key.curve == "Secp256k1")
      && w.protectedHeader.alg == Some(if w.signature.key.curve == "Ed25519" then "EdDSA" else "ES256K")
      && w.signature.alg == w.protectedHeader.alg.value
      && args.message.from.Some? && args.message.from.value in sender.identifiers
      && var identifier := sender.identifiers[args.message.from.value];
         && Resolve(net, identifier.did).Ok?
         && exists m, k :: m in Resolve(net, identifier.did).value.authentication && k in identifier.keys
              && m.key == k.key && w.protectedHeader.kid == Some(m.id) && k.kid in sender.kms
              && w.signature.key == PublicKey(k.key.curve, sender.kms[k.kid])
  {
    var identifier := sender.identifiers[args.message.from.value];
    var keys := AuthenticationKeys(net, identifier).value;
    SelectKeyMeaning(keys, args.keyRef);
    MatchedKeys(Resolve(net, identifier.did).value.authentication, identifier.keys);
    var key := SelectKey(keys, args.keyRef).value;
    assert key in keys && Key(key.kid, key.key) in identifier.keys && key.vm.key == key.key;
    hide MatchKeys, SelectKey;
  }

  // ---------------------------------------------------------------- managed keys and documents

  /** The method has the public key of a managed key. */
  predicate Manages(keys: seq<Key>, m: VerificationMethod) {
    exists k | k in keys :: k.key == m.key
  }

  function ManagedMethods(methods: seq<VerificationMethod>, keys: seq<Key>): seq<VerificationMethod> {
    if methods == [] then []
    else (if Manages(keys, methods[0]) then [methods[0]] else []) + ManagedMethods(methods[1..], keys)
  }

  function MethodsOf(keys: seq<DocKey>): (r: seq<VerificationMethod>)
    ensures |r| == |keys| && forall i | 0 <= i < |r| :: r[i] == keys[i].vm
  {
    seq(|keys|, i requires 0 <= i < |keys| => keys[i].vm)
  }

  /** The methods matched are those with a managed key, in the document's order. */
  lemma {:induction false} MatchedInOrder(methods: seq<VerificationMethod>, keys: seq<Key>)
    ensures MethodsOf(MatchKeys(methods, keys)) == ManagedMethods(methods, keys)
  {
    if methods != [] {
      MatchedInOrder(methods[1..], keys);
      var rest := MatchKeys(methods[1..], keys);
      MatchKeysFirst(methods, keys);
      assert ManagedMethods(methods, keys)
             == (if Manages(keys, methods[0]) then [methods[0]] else []) + ManagedMethods(methods[1..], keys);
      hide MatchKeys, Manages, ManagedMethods;
      if Manages(keys, methods[0]) {
        assert MethodsOf(MatchKeys(methods, keys)) == [methods[0]] + MethodsOf(rest);
      }
    }
  }

  /** The first method is matched exactly when its public key is that of a managed key. */
  lemma MatchKeysFirst(methods: seq<VerificationMethod>, keys: seq<Key>)
    requires methods != []
    ensures var all, rest := MatchKeys(methods, keys), MatchKeys(methods[1..], keys);
      if Manages(keys, methods[0]) then all != [] && all[0].vm == methods[0] && all[1..] == rest else all == rest
  {
    FindByPublicKeyFinds(keys, methods[0].key);
  }

  lemma {:induction false} ManagedMethodsAre(methods: seq<VerificationMethod>, keys: seq<Key>)
    ensures forall m :: m in ManagedMethods(methods, keys) <==> m in methods && Manages(keys, m)
  {
    hide Manages;
    if methods != [] {
      ManagedMethodsAre(methods[1..], keys);
      assert methods == [methods[0]] + methods[1..];
    }
  }

  /** A managed key of the sender that its document lists for key agreement. */
  ghost predicate CanAgree(net: Resolver, identifier: Identifier, m: VerificationMethod, k: Key) {
    && Resolve(net, identifier.did).Ok?
    && m in Resolve(net, identifier.did).value.keyAgreement && k in identifier.keys
    && ToX25519(m.key) == ToX25519(k.key) && ToX25519(k.key).curve == "X25519"
  }

  /** The keys a sender's identifier can encrypt with, as matched to its document. */
  function Matched(net: Resolver, identifier: Identifier): seq<DocKey>
    requires Resolve(net, identifier.did).Ok?
  {
    MatchKeys(Normalized(Resolve(net, identifier.did).value.keyAgreement), EncryptionKeys(identifier.keys))
  }

  /** A matched key is one of the sender's that its document lists. */
  lemma MatchedAgrees(net: Resolver, identifier: Identifier, key: DocKey) returns (m: VerificationMethod, k: Key)
    requires Resolve(net, identifier.did).Ok? && key in Matched(net, identifier)
    ensures CanAgree(net, identifier, m, k) && key.vm.id == m.id && key.kid == k.kid && key.key == ToX25519(k.key)
  {
    var methods, keys := Resolve(net, identifier.did).value.keyAgreement, EncryptionKeys(identifier.keys);
    MatchedKeys(Normalized(methods), keys);
    EncryptionKeysOf(identifier.keys);
    hide EncryptionKeys, MatchKeys;
    assert key.vm in Normalized(methods) && Key(key.kid, key.key) in keys;
    var i :| 0 <= i < |methods| && Normalized(methods)[i] == key.vm;
    m := methods[i];
    k :| k in identifier.keys && k.kid == key.kid && ToX25519(k.key) == key.key;
  }

  lemma AgreeingIsMatchedIn(net: Resolver, identifier: Identifier, m: VerificationMethod, k: Key)
    requires CanAgree(net, identifier, m, k)
    ensures Resolve(net, identifier.did).Ok? && Matched(net, identifier) != []
  {
    var methods := Resolve(net, identifier.did).value.keyAgreement;
    var i :| 0 <= i < |methods| && methods[i] == m;
    AgreeingIsMatched(methods, identifier.keys, i, k);
  }

  /** The sender's key is one of those matched, and there is one if any was. */
  lemma SenderKeyAmong(agent: Agent, net: Resolver, args: PackArgs)
    ensures SenderKey(agent, net, args).Ok? <==>
      && args.message.from.Some? && args.message.from.value != "" && args.message.from.value in agent.identifiers
      && Resolve(net, agent.identifiers[args.message.from.value].did).Ok?
      && Matched(net, agent.identifiers[args.message.from.value]) != []
    ensures SenderKey(agent, net, args).Ok? ==>
      SenderKey(agent, net, args).value in Matched(net, agent.identifiers[args.message.from.value])
  {
    hide MatchKeys, Normalized, EncryptionKeys, SelectKey, Resolve;
    if args.message.from.Some? && args.message.from.value != "" && args.message.from.value in agent.identifiers {
      var identifier := agent.identifiers[args.message.from.value];
      if Resolve(net, identifier.did).Ok? {
        SelectKeyMeaning(Matched(net, identifier), args.keyRef);
      }
    }
  }

  /** Who can pack as an authenticated sender, and as which of its keys. */
  lemma SenderKeyMeaning(agent: Agent, net: Resolver, args: PackArgs)
    ensures SenderKey(agent, net, args).Ok? <==>
      && args.message.from.Some? && args.message.from.value != "" && args.message.from.value in agent.identifiers
      && exists m, k :: CanAgree(net, agent.identifiers[args.message.from.value], m, k)
    ensures SenderKey(agent, net, args).Ok? ==>
      var key := SenderKey(agent, net, args).value;
      exists m, k ::
        && CanAgree(net, agent.identifiers[args.message.from.value], m, k)
        && key.vm.id == m.id && key.kid == k.kid && key.key == ToX25519(k.key)
  {
    SenderKeyAmong(agent, net, args);
    hide SenderKey, Matched, ToX25519;
    if SenderKey(agent, net, args).Ok? {
      var m, k := MatchedAgrees(net, agent.identifiers[args.message.from.value], SenderKey(agent, net, args).value);
    } else if args.message.from.Some? && args.message.from.value != ""
              && args.message.from.value in agent.identifiers {
      var identifier := agent.identifiers[args.message.from.value];
      if m, k :| CanAgree(net, identifier, m, k) {
        AgreeingIsMatchedIn(net, identifier, m, k);
      }
    }
  }

  lemma AgreeingIsMatched(methods: seq<VerificationMethod>, keys: seq<Key>, i: nat, k: Key)
    requires i < |methods| && k in keys
    requires ToX25519(methods[i].key) == ToX25519(k.key) && ToX25519(k.key).curve == "X25519"
    ensures MatchKeys(Normalized(methods), EncryptionKeys(keys)) != []
  {
    var usable, found := EncryptionKeys(keys), MatchKeys(Normalized(methods), EncryptionKeys(keys));
    EncryptionKeysOf(keys);
    MatchedInOrder(Normalized(methods), usable);
    ManagedMethodsAre(Normalized(methods), usable);
    hide EncryptionKeys, MatchKeys, ManagedMethods;
    var m := Normalized(methods)[i];
    assert Key(k.kid, ToX25519(k.key)) in usable;
    assert Manages(usable, m) && m in ManagedMethods(Normalized(methods), usable);
  }

  /** When an encrypted packing succeeds, in terms of documents, keys and names. */
  lemma PacksIff(agent: Agent, net: Resolver, args: PackArgs, nonce: nat)
    requires args.packing == "authcrypt" || args.packing == "anoncrypt"
    ensures PackedJwe(agent, net, args, nonce).Ok? <==>
      && args.message.to + args.bcc != []
      && (forall url | url in args.message.to + args.bcc :: OffersSome(net, url, args.recipientKids))
      && EncrypterFor(args.packing, if args.enc.Some? then args.enc.value else "A256GCM", RequestedAlg(args)).Some?
      && (args.packing == "authcrypt" ==>
            SenderKey(agent, net, args).Ok? && SenderKey(agent, net, args).value.kid in agent.kms)
  {
    var dids := args.message.to + args.bcc;
    RecipientsMeaning(net, dids, args.recipientKids);
    hide SenderKey, EncrypterFor, Offers, OffersSome;
    if dids != [] && AllRecipients(net, dids, args.recipientKids).Ok? {
      assert dids[0] in dids && OffersSome(net, dids[0], args.recipientKids);
      SomeOffered(net, dids[0], args.recipientKids);
    }
  }

  lemma SomeOffered(net: Resolver, url: string, kids: Option<seq<string>>)
    requires OffersSome(net, url, kids)
    ensures exists r :: Offers(net, url, kids, r)
  {
  }

  // ---------------------------------------------------------------- accepted ciphertexts

  /** The KMS holds a secret under the kid of a managed key that the document lists under the recipient's kid. */
  ghost predicate OursUnder(agent: Agent, net: Resolver, kid: string, secret: Secret) {
    && DidOf(kid).Some? && DidOf(kid).value in agent.identifiers
    && var identifier := agent.identifiers[DidOf(kid).value];
       && Resolve(net, identifier.did).Ok?
       && exists m, k ::
            && m in Resolve(net, identifier.did).value.keyAgreement && m.id == kid
            && k in identifier.keys && ToX25519(k.key) == ToX25519(m.key)
            && k.kid in agent.kms && agent.kms[k.kid] == secret
  }

  /** The protected header's member, or else the entry's own. */
  function Effective<T>(protectedMember: Option<T>, own: Option<T>): Option<T> {
    if protectedMember.Some? then protectedMember else own
  }

  /**
    The entry holds the content's key, wrapped for the secret and, if the sender is authenticated, with its key: by the
    algorithms that the header announces, with the ephemeral key that it carries.
   */
  predicate WrappedFor(e: Recipient, header: Header, content: SealedContent, secret: Secret, sender: Option<PublicKey>,
                       suite: Suite)
  {
    && e.encryptedKey.cek == content.cek && e.encryptedKey.wrap == suite.wrap && content.content == suite.content
    && Effective(header.alg, e.header.alg) == Some(AlgName(suite))
    && Effective(header.epk, e.header.epk).Some?
    && e.encryptedKey.kek == Kek(AlgName(suite), Effective(header.epk, e.header.epk).value.key, sender,
                                 PublicKey("X25519", secret))
  }

  ghost predicate DisclosedSender(net: Resolver, header: Header, sender: PublicKey) {
    && header.skid.Some? && Resolve(net, header.skid.value).Ok?
    && exists m | m in Resolve(net, header.skid.value).value.keyAgreement ::
         m.id == header.skid.value && ToX25519(m.key) == sender
  }

  /**
    Whatever encrypted message an agent accepts, and whoever made it: it is the content that was sealed, under the
    header it was sealed with; one entry holds its key, by the algorithms announced, for a secret that the agent holds
    as the key of one of the message's recipients. It is reported as authenticated exactly when that key was also
    wrapped with a sender's, which is then the one its `skid` names.
   */
  lemma CiphertextAccepted(agent: Agent, net: Resolver, wire: Wire, u: Unpacked)
    requires wire.JweObject? && UnpackedJwe(agent, net, wire) == Ok(u)
    ensures u.message == wire.ciphertext.text && wire.ciphertext.aad == wire.protectedHeader
    ensures u.packing == "authcrypt" || u.packing == "anoncrypt"
    ensures exists kid, secret, e, sender, suite ::
      OpenedBy(agent, net, wire, u.packing, kid, secret, e, sender, suite)
  {
    var senderKey, keys := UnpackedParts(agent, net, wire, u);
    hide *;
    var k := TriedBy(agent, wire, senderKey, keys);
    var f := LocalKeysAre(agent, net, wire.protectedHeader, wire.recipients, k);
    DecrypterSender(k.header, senderKey);
    SenderDisclosed(net, wire.protectedHeader);
    var decrypter := DecrypterFor(k.header, senderKey).decrypter.value;
    var e := DecryptedBy(wire.protectedHeader, wire.recipients, wire.ciphertext, decrypter, agent.kms[k.kid]);
    OpenedWith(agent, net, wire, u.packing, f, agent.kms[k.kid], e, decrypter.sender, decrypter.suite);
  }

  ghost predicate OpenedBy(agent: Agent, net: Resolver, wire: Wire, packing: string, kid: string, secret: Secret,
                           e: Recipient, sender: Option<PublicKey>, suite: Suite)
    requires wire.JweObject?
  {
    && OursUnder(agent, net, kid, secret)
    && (exists f | f in wire.recipients :: f.header.kid == Some(kid))
    && e in wire.recipients && WrappedFor(e, wire.protectedHeader, wire.ciphertext, secret, sender, suite)
    && wire.protectedHeader.enc == Some(EncName(suite.content))
    && (packing == "authcrypt" <==> suite.kek == Ecdh1Pu)
    && (packing == "authcrypt" ==> sender.Some? && DisclosedSender(net, wire.protectedHeader, sender.value))
    && (packing != "authcrypt" ==> sender == None)
  }

  lemma OpenedWith(agent: Agent, net: Resolver, wire: Wire, packing: string, f: Recipient, secret: Secret,
                   e: Recipient, sender: Option<PublicKey>, suite: Suite)
    requires wire.JweObject? && f in wire.recipients && f.header.kid.Some?
    requires OursUnder(agent, net, f.header.kid.value, secret)
    requires e in wire.recipients && WrappedFor(e, wire.protectedHeader, wire.ciphertext, secret, sender, suite)
    requires wire.protectedHeader.enc == Some(EncName(suite.content))
    requires packing == "authcrypt" <==> suite.kek == Ecdh1Pu
    requires packing == "authcrypt" ==> sender.Some? && DisclosedSender(net, wire.protectedHeader, sender.value)
    requires packing != "authcrypt" ==> sender == None
    ensures OpenedBy(agent, net, wire, packing, f.header.kid.value, secret, e, sender, suite)
  {
  }

  lemma UnpackedParts(agent: Agent, net: Resolver, wire: Wire, u: Unpacked)
    returns (senderKey: Option<PublicKey>, keys: seq<LocalKey>)
    requires wire.JweObject? && UnpackedJwe(agent, net, wire) == Ok(u)
    ensures SenderEncryptionKey(net, wire.protectedHeader) == Ok(senderKey)
    ensures LocalKeys(agent, net, wire.protectedHeader, wire.recipients) == Ok(keys)
    ensures TryKeys(agent, wire, senderKey, keys) == Ok(u)
  {
    hide TryKeys, LocalKeys, SenderEncryptionKey;
    senderKey := SenderEncryptionKey(net, wire.protectedHeader).value;
    keys := LocalKeys(agent, net, wire.protectedHeader, wire.recipients).value;
  }

  lemma {:induction false} TriedBy(agent: Agent, jwe: Wire, senderKey: Option<PublicKey>, keys: seq<LocalKey>)
    returns (k: LocalKey)
    requires jwe.JweObject? && TryKeys(agent, jwe, senderKey, keys).Ok?
    ensures k in keys && k.kid in agent.kms && DecrypterFor(k.header, senderKey).decrypter.Some?
    ensures TryKeys(agent, jwe, senderKey, keys).value.packing == DecrypterFor(k.header, senderKey).packing
    ensures DecryptAny(jwe.protectedHeader, jwe.recipients, jwe.ciphertext,
                       DecrypterFor(k.header, senderKey).decrypter.value, agent.kms[k.kid])
            == Some(TryKeys(agent, jwe, senderKey, keys).value.message)
    ensures jwe.protectedHeader.enc
            == Some(EncName(DecrypterFor(k.header, senderKey).decrypter.value.suite.content))
  {
    hide DecrypterFor, DecryptAny;
    var decrypter := DecrypterFor(keys[0].header, senderKey).decrypter.value;
    if Decrypt(jwe.protectedHeader, jwe.recipients, jwe.ciphertext, decrypter, KmsSecret(agent, keys[0].kid)).Some? {
      k := keys[0];
    } else {
      k := TriedBy(agent, jwe, senderKey, keys[1..]);
    }
  }

  lemma {:induction false} DecryptedBy(protectedHeader: Header, recipients: seq<Recipient>, ciphertext: SealedContent,
                                       decrypter: Decrypter, secret: Secret) returns (e: Recipient)
    requires DecryptAny(protectedHeader, recipients, ciphertext, decrypter, secret).Some?
    ensures e in recipients
    ensures WrappedFor(e, protectedHeader, ciphertext, secret, decrypter.sender, decrypter.suite)
    ensures DecryptAny(protectedHeader, recipients, ciphertext, decrypter, secret).value == ciphertext.text
    ensures ciphertext.aad == protectedHeader
  {
    if DecryptOne(protectedHeader, recipients[0], ciphertext, decrypter, secret).Some? {
      e := recipients[0];
    } else {
      e := DecryptedBy(protectedHeader, recipients[1..], ciphertext, decrypter, secret);
    }
  }

  // ---------------------------------------------------------------- which ciphertexts are accepted

  /** The local key opens the message: the KMS has it, there is a decrypter, and an entry is wrapped for it. */
  ghost predicate CanOpen(agent: Agent, jwe: Wire, senderKey: Option<PublicKey>, k: LocalKey)
    requires jwe.JweObject?
  {
    && k.kid in agent.kms && DecrypterFor(k.header, senderKey).decrypter.Some?
    && var decrypter := DecrypterFor(k.header, senderKey).decrypter.value;
       && jwe.protectedHeader.enc == Some(EncName(decrypter.suite.content))
       && jwe.ciphertext.aad == jwe.protectedHeader
       && exists e | e in jwe.recipients ::
            WrappedFor(e, jwe.protectedHeader, jwe.ciphertext, agent.kms[k.kid], decrypter.sender, decrypter.suite)
  }

  lemma {:induction false} DecryptAnyIff(protectedHeader: Header, recipients: seq<Recipient>,
                                         ciphertext: SealedContent, decrypter: Decrypter, secret: Secret)
    ensures DecryptAny(protectedHeader, recipients, ciphertext, decrypter, secret).Some? <==>
      ciphertext.aad == protectedHeader && exists e | e in recipients ::
        WrappedFor(e, protectedHeader, ciphertext, secret, decrypter.sender, decrypter.suite)
  {
    if recipients != [] {
      DecryptAnyIff(protectedHeader, recipients[1..], ciphertext, decrypter, secret);
      DecryptOneIff(protectedHeader, recipients[0], ciphertext, decrypter, secret);
      hide DecryptOne, WrappedFor;
      assert recipients == [recipients[0]] + recipients[1..];
    }
  }

  lemma DecryptOneIff(protectedHeader: Header, e: Recipient, ciphertext: SealedContent, decrypter: Decrypter,
                      secret: Secret)
    ensures DecryptOne(protectedHeader, e, ciphertext, decrypter, secret).Some? <==>
      ciphertext.aad == protectedHeader
      && WrappedFor(e, protectedHeader, ciphertext, secret, decrypter.sender, decrypter.suite)
  {
    hide AlgName;
  }

  /** The `i`-th key opens the message, and there is a decrypter for each key before it. */
  ghost predicate OpensAt(agent: Agent, jwe: Wire, senderKey: Option<PublicKey>, keys: seq<LocalKey>, i: nat)
    requires jwe.JweObject? && i < |keys|
  {
    && CanOpen(agent, jwe, senderKey, keys[i])
    && forall j | 0 <= j < i :: DecrypterFor(keys[j].header, senderKey).decrypter.Some?
  }

  lemma OpensLater(agent: Agent, jwe: Wire, senderKey: Option<PublicKey>, keys: seq<LocalKey>, i: nat)
    requires jwe.JweObject? && i + 1 < |keys|
    ensures OpensAt(agent, jwe, senderKey, keys, i + 1) <==>
      DecrypterFor(keys[0].header, senderKey).decrypter.Some? && OpensAt(agent, jwe, senderKey, keys[1..], i)
  {
    hide DecrypterFor, CanOpen;
    assert forall j | 0 < j < |keys| :: keys[j] == keys[1..][j - 1];
    if OpensAt(agent, jwe, senderKey, keys, i + 1) {
      assert DecrypterFor(keys[0].header, senderKey).decrypter.Some?;
      forall j | 0 <= j < i ensures DecrypterFor(keys[1..][j].header, senderKey).decrypter.Some? {
        assert keys[j + 1] == keys[1..][j];
      }
    }
  }

  /** Trying local keys in turn succeeds exactly when one opens the message before one is met without a decrypter. */
  lemma {:induction false} TriedIff(agent: Agent, jwe: Wire, senderKey: Option<PublicKey>, keys: seq<LocalKey>)
    requires jwe.JweObject?
    ensures TryKeys(agent, jwe, senderKey, keys).Ok?
            <==> exists i | 0 <= i < |keys| :: OpensAt(agent, jwe, senderKey, keys, i)
  {
    hide DecrypterFor, CanOpen, Decrypt;
    if keys != [] {
      var rest := keys[1..];
      TriedIff(agent, jwe, senderKey, rest);
      OpensIff(agent, jwe, senderKey, keys[0]);
      assert OpensAt(agent, jwe, senderKey, keys, 0) <==> CanOpen(agent, jwe, senderKey, keys[0]);
      TriedFirst(agent, jwe, senderKey, keys);
      hide OpensAt, TryKeys;
      if i :| 0 <= i < |keys| && OpensAt(agent, jwe, senderKey, keys, i) {
        if i > 0 { OpensLater(agent, jwe, senderKey, keys, i - 1); }
      }
      if i :| 0 <= i < |rest| && OpensAt(agent, jwe, senderKey, rest, i) {
        OpensLater(agent, jwe, senderKey, keys, i);
      }
    }
  }

  lemma TriedFirst(agent: Agent, jwe: Wire, senderKey: Option<PublicKey>, keys: seq<LocalKey>)
    requires jwe.JweObject? && keys != []
    ensures TryKeys(agent, jwe, senderKey, keys).Ok? <==>
      CanOpen(agent, jwe, senderKey, keys[0])
      || (DecrypterFor(keys[0].header, senderKey).decrypter.Some? && TryKeys(agent, jwe, senderKey, keys[1..]).Ok?)
  {
    OpensIff(agent, jwe, senderKey, keys[0]);
    hide DecrypterFor, CanOpen, Decrypt;
  }

  lemma OpensIff(agent: Agent, jwe: Wire, senderKey: Option<PublicKey>, k: LocalKey)
    requires jwe.JweObject?
    ensures CanOpen(agent, jwe, senderKey, k) <==>
      && DecrypterFor(k.header, senderKey).decrypter.Some?
      && Decrypt(jwe.protectedHeader, jwe.recipients, jwe.ciphertext,
                 DecrypterFor(k.header, senderKey).decrypter.value, KmsSecret(agent, k.kid)).Some?
  {
    hide DecrypterFor, DecryptAny, WrappedFor;
    if k.kid in agent.kms && DecrypterFor(k.header, senderKey).decrypter.Some? {
      DecryptAnyIff(jwe.protectedHeader, jwe.recipients, jwe.ciphertext,
                    DecrypterFor(k.header, senderKey).decrypter.value, agent.kms[k.kid]);
    }
  }

  lemma DecrypterSender(header: Header, senderKey: Option<PublicKey>)
    requires DecrypterFor(header, senderKey).decrypter.Some?
    ensures var choice := DecrypterFor(header, senderKey);
      && (choice.packing == "authcrypt" || choice.packing == "anoncrypt")
      && (choice.packing == "authcrypt" <==> choice.decrypter.value.suite.kek == Ecdh1Pu)
      && (choice.packing == "authcrypt" ==> senderKey.Some? && choice.decrypter.value.sender == senderKey)
      && (choice.packing != "authcrypt" ==> choice.decrypter.value.sender == None)
  {
  }

  lemma SenderDisclosed(net: Resolver, header: Header)
    requires SenderEncryptionKey(net, header).Ok?
    ensures SenderEncryptionKey(net, header).value.Some? ==>
      DisclosedSender(net, header, SenderEncryptionKey(net, header).value.value)
  {
    if header.skid.Some? {
      FoundMethod(Resolve(net, header.skid.value).value.keyAgreement, header.skid.value);
    }
  }

  lemma {:induction false} FoundMethod(methods: seq<VerificationMethod>, id: string)
    ensures FindMethod(methods, id).Some? ==>
      FindMethod(methods, id).value in methods && FindMethod(methods, id).value.id == id
  {
    if methods != [] {
      FoundMethod(methods[1..], id);
    }
  }

  lemma {:induction false} FoundDocKey(keys: seq<DocKey>, id: string)
    ensures FindById(keys, id).Some? ==> FindById(keys, id).value in keys && FindById(keys, id).value.vm.id == id
  {
    if keys != [] {
      FoundDocKey(keys[1..], id);
    }
  }

  /** A local key was found for a recipient entry of a managed DID. */
  lemma {:induction false} LocalKeysAre(agent: Agent, net: Resolver, protectedHeader: Header,
                                        recipients: seq<Recipient>, k: LocalKey) returns (f: Recipient)
    requires LocalKeys(agent, net, protectedHeader, recipients).Ok?
    requires k in LocalKeys(agent, net, protectedHeader, recipients).value && k.kid in agent.kms
    ensures f in recipients && f.header.kid.Some? && OursUnder(agent, net, f.header.kid.value, agent.kms[k.kid])
  {
    hide KeyAgreementKeys;
    var head := recipients[0];
    var rest := LocalKeys(agent, net, protectedHeader, recipients[1..]);
    if rest.Ok? && k in rest.value {
      f := LocalKeysAre(agent, net, protectedHeader, recipients[1..], k);
    } else {
      f := head;
      LocalKeyIsOurs(agent, net, head.header.kid.value, k.kid);
    }
  }

  lemma LocalKeyIsOurs(agent: Agent, net: Resolver, id: string, kid: string)
    requires DidOf(id).Some? && DidOf(id).value in agent.identifiers && kid in agent.kms
    requires KeyAgreementKeys(net, agent.identifiers[DidOf(id).value]).Ok?
    requires var found := FindById(KeyAgreementKeys(net, agent.identifiers[DidOf(id).value]).value, id);
      found.Some? && found.value.kid == kid
    ensures OursUnder(agent, net, id, agent.kms[kid])
  {
    var identifier := agent.identifiers[DidOf(id).value];
    var methods, keys := Resolve(net, identifier.did).value.keyAgreement, EncryptionKeys(identifier.keys);
    var found := MatchKeys(Normalized(methods), keys);
    FoundDocKey(found, id);
    MatchedKeys(Normalized(methods), keys);
    EncryptionKeysOf(identifier.keys);
    hide EncryptionKeys, MatchKeys, FindById;
    var key := FindById(found, id).value;
    assert key in found && Key(key.kid, key.key) in keys;
    var i :| 0 <= i < |methods| && Normalized(methods)[i] == key.vm;
    var k :| k in identifier.keys && k.kid == key.kid && ToX25519(k.key) == key.key;
    assert methods[i] in methods;
  }

  /** What an agent accepts, by the kind of message: nothing but plain, signed and encrypted messages of their type. */
  lemma AcceptedKinds(agent: Agent, net: Resolver, wire: Wire, u: Unpacked)
    requires UnpackedMessage(agent, net, wire) == Ok(u)
    ensures match wire
      case NotJson(_) => false
      case PlainObject(message) =>
        message.typ == Some("application/didcomm-plain+json") && u == Unpacked(message, "none")
      case JweObject(header, _, _) =>
        header.typ == Some("application/didcomm-encrypted+json") && UnpackedJwe(agent, net, wire) == Ok(u)
      case FlatJwsObject(header, payload, _) =>
        header.typ == Some("application/didcomm-signed+json") && u == Unpacked(payload, "jws")
      case GeneralJwsObject(payload, _) => u == Unpacked(payload, "jws")
  {
    hide UnpackedJwe, FindMethod;
    assert SIGNED != ENCRYPTED && ENCRYPTED != PLAIN && PLAIN != SIGNED by {
      assert |SIGNED| == 31 && |ENCRYPTED| == 34 && |PLAIN| == 30;
    }
  }
}
