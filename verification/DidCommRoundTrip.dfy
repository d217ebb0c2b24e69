/** What unpacking makes of what packing produced, for every packing, algorithm choice and set of recipients. */
module DidCommRoundTrip {
  import opened Results
  import opened Strings
  import opened DidCommWire
  import opened DidCommPacking

  // ---------------------------------------------------------------- who can read a message

  /** The recipient is an X25519 key agreement key of the document its kid points to. */
  ghost predicate Listed(net: Resolver, r: RecipientKey) {
    && r.key.curve == "X25519"
    && DidOf(r.kid).Some? && DidOf(r.kid).value in net
    && exists i :: Lists(net[DidOf(r.kid).value].keyAgreement, i, r)
  }

  ghost predicate Lists(methods: seq<VerificationMethod>, i: int, r: RecipientKey) {
    0 <= i < |methods| && methods[i].id == r.kid && ToX25519(methods[i].key) == r.key
  }

  /** The managed key an agent would use for a recipient: the first one with that public key. */
  function KeyFor(agent: Agent, r: RecipientKey): Option<Key> {
    match DidOf(r.kid)
    case None => None
    case Some(did) =>
      if did in agent.identifiers then FindByPublicKey(EncryptionKeys(agent.identifiers[did].keys), r.key) else None
  }

  /** The agent's KMS can take part in a key agreement as one of the recipients. */
  ghost predicate CanOpen(agent: Agent, recipients: seq<RecipientKey>) {
    SomeOpens(agent, recipients, recipients)
  }

  ghost predicate Opens(agent: Agent, r: RecipientKey, recipients: seq<RecipientKey>) {
    && KeyFor(agent, r).Some?
    && KeyFor(agent, r).value.kid in agent.kms
    && HasSecret(recipients, agent.kms[KeyFor(agent, r).value.kid])
  }

  ghost predicate HasSecret(recipients: seq<RecipientKey>, secret: Secret) {
    exists j :: 0 <= j < |recipients| && recipients[j].key == PublicKey("X25519", secret)
  }

  /** The agent manages the recipient's DID and lists the recipient's key under it. */
  ghost predicate Holds(agent: Agent, r: RecipientKey) {
    && DidOf(r.kid).Some?
    && DidOf(r.kid).value in agent.identifiers
    && exists k :: k in agent.identifiers[DidOf(r.kid).value].keys && ToX25519(k.key) == r.key
  }

  // ---------------------------------------------------------------- recipients come from documents

  lemma {:induction false} SupportedAreListed(net: Resolver, did: string, methods: seq<VerificationMethod>,
                                             kids: Option<seq<string>>)
    requires did in net
    requires forall m | m in methods :: m in Normalized(net[did].keyAgreement)
    requires forall m | m in net[did].keyAgreement :: DidOf(m.id) == Some(did)
    ensures forall r | r in SupportedRecipients(WantedMethods(methods, kids)) :: Listed(net, r)
  {
    if methods != [] {
      SupportedAreListed(net, did, methods[1..], kids);
      var keys := Normalized(net[did].keyAgreement);
      var m := methods[0];
      assert m in keys;
      var i :| 0 <= i < |keys| && keys[i] == m;
      var r := RecipientKey(m.id, m.key);
      assert net[did].keyAgreement[i] in net[did].keyAgreement;
      assert Lists(net[did].keyAgreement, i, r);
      var rest := WantedMethods(methods[1..], kids);
      if Wanted(m.id, kids) {
        var all := WantedMethods(methods, kids);
        assert all == [m] + rest;
        assert all[1..] == rest;
        assert all[0] == m;
      } else {
        assert WantedMethods(methods, kids) == rest;
      }
    }
  }

  lemma {:induction false} RecipientsAreListed(net: Resolver, dids: seq<string>, kids: Option<seq<string>>)
    requires WellFormed(net)
    requires AllRecipients(net, dids, kids).Ok?
    ensures forall r | r in AllRecipients(net, dids, kids).value :: Listed(net, r)
  {
    if dids != [] {
      RecipientsAreListed(net, dids[..|dids| - 1], kids);
      var did := DidOf(dids[|dids| - 1]).value;
      SupportedAreListed(net, did, Normalized(net[did].keyAgreement), kids);
    }
  }

  // ---------------------------------------------------------------- local keys found for recipients

  lemma {:induction false} FindInMatch(methods: seq<VerificationMethod>, keys: seq<Key>, i: nat)
    requires i < |methods|
    requires forall a, b | 0 <= a < b < |methods| :: methods[a].id != methods[b].id
    ensures FindById(MatchKeys(methods, keys), methods[i].id) ==
            match FindByPublicKey(keys, methods[i].key)
            case Some(k) => Some(DocKey(k.kid, k.key, methods[i]))
            case None => None
  {
    var rest := MatchKeys(methods[1..], keys);
    if i == 0 {
      NotFoundInMatch(methods[1..], keys, methods[0].id);
      match FindByPublicKey(keys, methods[0].key) {
        case Some(k) => assert MatchKeys(methods, keys)[1..] == rest;
        case None => assert MatchKeys(methods, keys) == rest;
      }
    } else {
      assert methods[1..][i - 1] == methods[i];
      FindInMatch(methods[1..], keys, i - 1);
      match FindByPublicKey(keys, methods[0].key) {
        case Some(k) => assert MatchKeys(methods, keys)[1..] == rest;
        case None => assert MatchKeys(methods, keys) == rest;
      }
    }
  }

  lemma {:induction false} NotFoundInMatch(methods: seq<VerificationMethod>, keys: seq<Key>, id: string)
    requires forall a | 0 <= a < |methods| :: methods[a].id != id
    ensures FindById(MatchKeys(methods, keys), id) == None
  {
    if methods != [] {
      NotFoundInMatch(methods[1..], keys, id);
      var rest := MatchKeys(methods[1..], keys);
      match FindByPublicKey(keys, methods[0].key) {
        case Some(k) => assert MatchKeys(methods, keys)[1..] == rest;
        case None => assert MatchKeys(methods, keys) == rest;
      }
    }
  }

  /** The local keys of a message's recipients: one for each recipient that has one, in recipient order. */
  function FoundKeys(agent: Agent, protectedHeader: Header, recipients: seq<RecipientKey>): seq<LocalKey> {
    if recipients == [] then []
    else
      (match KeyFor(agent, recipients[0])
       case Some(k) => [LocalKey(k.kid, Union(protectedHeader, EMPTY_HEADER.(kid := Some(recipients[0].kid))))]
       case None => [])
      + FoundKeys(agent, protectedHeader, recipients[1..])
  }

  lemma {:induction false} LocalKeysFound(agent: Agent, net: Resolver, protectedHeader: Header,
                                         recipients: seq<RecipientKey>, suite: Suite,
                                         sender: Option<PublicKey>, nonce: nat)
    requires WellFormed(net) && StoreKeyed(agent)
    requires forall r | r in recipients :: Listed(net, r)
    ensures LocalKeys(agent, net, protectedHeader, RecipientEntries(recipients, suite, sender, nonce))
            == Ok(FoundKeys(agent, protectedHeader, recipients))
  {
    var entries := RecipientEntries(recipients, suite, sender, nonce);
    if recipients != [] {
      assert entries[1..] == RecipientEntries(recipients[1..], suite, sender, nonce);
      LocalKeysFound(agent, net, protectedHeader, recipients[1..], suite, sender, nonce);
      var r := recipients[0];
      assert r in recipients;
      var did := DidOf(r.kid).value;
      assert entries[0] == RecipientEntry(r, suite, sender, nonce);
      var rest := FoundKeys(agent, protectedHeader, recipients[1..]);
      if did in agent.identifiers {
        KeyForFound(agent, net, r);
        if KeyFor(agent, r).None? {
          assert FoundKeys(agent, protectedHeader, recipients) == rest;
        }
      } else {
        assert FoundKeys(agent, protectedHeader, recipients) == rest;
      }
    }
  }

  lemma KeyForFound(agent: Agent, net: Resolver, r: RecipientKey)
    requires WellFormed(net) && StoreKeyed(agent) && Listed(net, r)
    requires DidOf(r.kid).value in agent.identifiers
    ensures KeyAgreementKeys(net, agent.identifiers[DidOf(r.kid).value]).Ok?
    ensures var found := FindById(KeyAgreementKeys(net, agent.identifiers[DidOf(r.kid).value]).value, r.kid);
            match KeyFor(agent, r)
            case Some(k) => found.Some? && found.value.kid == k.kid
            case None => found == None
  {
    var did := DidOf(r.kid).value;
    BareDid(r.kid);
    var methods := net[did].keyAgreement;
    var i :| Lists(methods, i, r);
    FindInMatch(Normalized(methods), EncryptionKeys(agent.identifiers[did].keys), i);
  }

  /** The DID of a DID URL is its own DID. */
  lemma BareDid(url: string)
    requires DidOf(url).Some?
    ensures DidOf(DidOf(url).value) == DidOf(url)
  {
    var stops := {'#', '?', '/', ';'};
    assert url[..4] == "did:";
    BeforeKeeps(url, stops, 4);
    BeforeWhole(Before(url, stops), stops);
  }

  lemma {:induction false} BeforeKeeps(s: string, stops: set<char>, n: nat)
    requires n <= |s|
    requires forall c | c in s[..n] :: c !in stops
    ensures s[..n] <= Before(s, stops)
  {
    if n > 0 {
      assert s[0] == s[..n][0];
      assert s[1..][..n - 1] == s[..n][1..];
      BeforeKeeps(s[1..], stops, n - 1);
    }
  }

  lemma {:induction false} BeforeWhole(s: string, stops: set<char>)
    requires forall c | c in s :: c !in stops
    ensures Before(s, stops) == s
  {
    if s != [] {
      BeforeWhole(s[1..], stops);
    }
  }

  // ---------------------------------------------------------------- decryption of our own recipients

  /** A message sealed to `recipients` opens for exactly the secrets behind their keys. */
  lemma {:induction false} DecryptsExactly(message: Message, skid: Option<string>, suite: Suite,
                                          sender: Option<PublicKey>, recipients: seq<RecipientKey>, nonce: nat,
                                          secret: Secret, suffix: seq<RecipientKey>)
    requires (sender.Some?) <==> suite.kek == Ecdh1Pu
    ensures var w := CreateJwe(message, skid, suite, sender, recipients, nonce);
            DecryptAny(w.protectedHeader, RecipientEntries(suffix, suite, sender, nonce), w.ciphertext,
                       Decrypter(suite, sender), secret)
            == if HasSecret(suffix, secret) then Some(message) else None
    decreases |suffix|
  {
    var entries := RecipientEntries(suffix, suite, sender, nonce);
    if suffix != [] {
      assert entries[1..] == RecipientEntries(suffix[1..], suite, sender, nonce);
      DecryptsExactly(message, skid, suite, sender, recipients, nonce, secret, suffix[1..]);
      HasSecretCons(suffix, secret);
    }
  }

  lemma HasSecretCons(suffix: seq<RecipientKey>, secret: Secret)
    requires suffix != []
    ensures HasSecret(suffix, secret)
            <==> suffix[0].key == PublicKey("X25519", secret) || HasSecret(suffix[1..], secret)
  {
    if j :| 0 <= j < |suffix| && suffix[j].key == PublicKey("X25519", secret) {
      if j > 0 { assert suffix[1..][j - 1] == suffix[j]; }
    }
    if j :| 0 <= j < |suffix[1..]| && suffix[1..][j].key == PublicKey("X25519", secret) {
      assert suffix[j + 1] == suffix[1..][j];
    }
  }

  /** The unpacker chooses the packer's suite for any header that carries what the packer wrote. */
  ghost predicate Agreed(packing: string, suite: Suite, sender: Option<PublicKey>, nonce: nat) {
    forall header: Header | CarriesChoice(header, suite, nonce) ::
      DecrypterFor(header, sender) == DecrypterChoice(packing, Some(Decrypter(suite, sender)))
  }

  ghost predicate CarriesChoice(header: Header, suite: Suite, nonce: nat) {
    && header.alg == Some(AlgName(suite))
    && header.enc == Some(EncName(suite.content))
    && header.epk == Some(EphemeralKey("X25519", EphemeralFor(nonce)))
  }

  ghost predicate SomeOpens(agent: Agent, suffix: seq<RecipientKey>, recipients: seq<RecipientKey>) {
    exists i :: 0 <= i < |suffix| && Opens(agent, suffix[i], recipients)
  }

  lemma SomeOpensStep(agent: Agent, suffix: seq<RecipientKey>, recipients: seq<RecipientKey>)
    requires suffix != []
    ensures SomeOpens(agent, suffix, recipients) <==>
            Opens(agent, suffix[0], recipients) || SomeOpens(agent, suffix[1..], recipients)
  {
    var rest := suffix[1..];
    if i :| 0 <= i < |suffix| && Opens(agent, suffix[i], recipients) {
      if i > 0 { assert rest[i - 1] == suffix[i]; }
    }
    if i :| 0 <= i < |rest| && Opens(agent, rest[i], recipients) {
      assert suffix[i + 1] == rest[i];
    }
  }

  /** One found key decrypts exactly when the KMS holds a recipient's secret under its kid. */
  lemma FoundKeyDecrypts(agent: Agent, message: Message, skid: Option<string>, suite: Suite,
                         sender: Option<PublicKey>, recipients: seq<RecipientKey>, nonce: nat, r: RecipientKey)
    requires sender.Some? <==> suite.kek == Ecdh1Pu
    requires KeyFor(agent, r).Some?
    ensures var w := CreateJwe(message, skid, suite, sender, recipients, nonce);
            Decrypt(w.protectedHeader, w.recipients, w.ciphertext, Decrypter(suite, sender),
                    KmsSecret(agent, KeyFor(agent, r).value.kid))
            == if Opens(agent, r, recipients) then Some(message) else None
  {
    var kid := KeyFor(agent, r).value.kid;
    if kid in agent.kms {
      DecryptsExactly(message, skid, suite, sender, recipients, nonce, agent.kms[kid], recipients);
    }
  }

  /** Trying the found keys in turn succeeds exactly when one of them is backed by a recipient's secret. */
  lemma {:induction false} TriesFoundKeys(agent: Agent, message: Message, skid: Option<string>, suite: Suite,
                                         sender: Option<PublicKey>, recipients: seq<RecipientKey>, nonce: nat,
                                         packing: string, suffix: seq<RecipientKey>)
    requires sender.Some? <==> suite.kek == Ecdh1Pu
    requires Agreed(packing, suite, sender, nonce)
    ensures var w := CreateJwe(message, skid, suite, sender, recipients, nonce);
            TryKeys(agent, w, sender, FoundKeys(agent, w.protectedHeader, suffix))
            == if SomeOpens(agent, suffix, recipients) then Ok(Unpacked(message, packing)) else Err(Undecryptable)
    decreases |suffix|
  {
    if suffix != [] {
      var w := CreateJwe(message, skid, suite, sender, recipients, nonce);
      var rest := FoundKeys(agent, w.protectedHeader, suffix[1..]);
      var keys := FoundKeys(agent, w.protectedHeader, suffix);
      TriesFoundKeys(agent, message, skid, suite, sender, recipients, nonce, packing, suffix[1..]);
      SomeOpensStep(agent, suffix, recipients);
      if KeyFor(agent, suffix[0]).None? {
        assert keys == rest;
      } else {
        assert keys[1..] == rest;
        assert CarriesChoice(keys[0].header, suite, nonce);
        FoundKeyDecrypts(agent, message, skid, suite, sender, recipients, nonce, suffix[0]);
      }
    }
  }

  // ---------------------------------------------------------------- the sender's key

  lemma {:induction false} FindByPublicKeyFinds(keys: seq<Key>, key: PublicKey)
    ensures match FindByPublicKey(keys, key)
            case Some(k) => k in keys && k.key == key
            case None => forall k | k in keys :: k.key != key
  {
    if keys != [] {
      FindByPublicKeyFinds(keys[1..], key);
    }
  }

  lemma {:induction false} MatchedKeys(methods: seq<VerificationMethod>, keys: seq<Key>)
    ensures forall k | k in MatchKeys(methods, keys) ::
              k.vm in methods && k.key == k.vm.key && Key(k.kid, k.key) in keys
  {
    if methods != [] {
      MatchedKeys(methods[1..], keys);
      FindByPublicKeyFinds(keys, methods[0].key);
    }
  }

  lemma {:induction false} EncryptionKeysOf(keys: seq<Key>)
    ensures forall k | k in EncryptionKeys(keys) :: k.key.curve == "X25519"
    ensures forall k | k in EncryptionKeys(keys) ::
              exists orig :: orig in keys && orig.kid == k.kid && ToX25519(orig.key) == k.key
    ensures forall orig | orig in keys && ToX25519(orig.key).curve == "X25519" ::
              Key(orig.kid, ToX25519(orig.key)) in EncryptionKeys(keys)
  {
    if keys != [] {
      EncryptionKeysOf(keys[1..]);
      var rest := EncryptionKeys(keys[1..]);
      var k := ToX25519(keys[0].key);
      assert EncryptionKeys(keys) == (if k.curve == "X25519" then [Key(keys[0].kid, k)] else []) + rest;
    }
  }

  predicate Answers(key: DocKey, keyRef: string) {
    key.kid == keyRef || key.vm.id == keyRef
  }

  lemma {:induction false} FindByRefIs(keys: seq<DocKey>, keyRef: string)
    ensures var r := FindByRef(keys, keyRef);
      && (r.Some? ==> r.value in keys && Answers(r.value, keyRef))
      && (r.None? <==> forall k | k in keys :: !Answers(k, keyRef))
  {
    if keys != [] {
      FindByRefIs(keys[1..], keyRef);
    }
  }

  /** The key referred to by its kid or its method's id is used if there is one, else the first key. */
  lemma SelectKeyMeaning(keys: seq<DocKey>, keyRef: Option<string>)
    ensures var r := SelectKey(keys, keyRef);
      && (r.None? <==> keys == [])
      && (r.Some? ==> r.value in keys)
      && (keyRef.Some? && (exists k | k in keys :: Answers(k, keyRef.value)) ==> Answers(r.value, keyRef.value))
      && (keys != [] && (keyRef.None? || forall k | k in keys :: !Answers(k, keyRef.value)) ==> r.value == keys[0])
  {
    if keyRef.Some? {
      FindByRefIs(keys, keyRef.value);
    }
  }

  lemma {:induction false} FindMethodFinds(methods: seq<VerificationMethod>, i: nat)
    requires i < |methods|
    requires forall a, b | 0 <= a < b < |methods| :: methods[a].id != methods[b].id
    ensures FindMethod(methods, methods[i].id) == Some(methods[i])
  {
    if i > 0 {
      assert methods[1..][i - 1] == methods[i];
      FindMethodFinds(methods[1..], i - 1);
    }
  }

  /** The skid an authenticated packing discloses resolves to the public half of the secret it used. */
  lemma SkidResolves(agent: Agent, net: Resolver, args: PackArgs, suite: Suite, nonce: nat)
    requires WellFormed(net) && KmsConsistent(agent) && StoreKeyed(agent)
    requires SenderKey(agent, net, args).Ok?
    requires SenderKey(agent, net, args).value.kid in agent.kms
    ensures var key := SenderKey(agent, net, args).value;
            SenderEncryptionKey(net, ProtectedHeader(suite, Some(key.vm.id), nonce))
            == Ok(Some(PublicKey("X25519", agent.kms[key.kid])))
  {
    var from := args.message.from.value;
    var identifier := agent.identifiers[from];
    var did := DidOf(identifier.did).value;
    var methods := net[did].keyAgreement;
    var keys := KeyAgreementKeys(net, identifier).value;
    var key := SenderKey(agent, net, args).value;
    SelectKeyMeaning(keys, args.keyRef);
    assert key in keys;
    MatchedKeys(Normalized(methods), EncryptionKeys(identifier.keys));
    EncryptionKeysOf(identifier.keys);
    assert key.vm in Normalized(methods);
    var i :| 0 <= i < |methods| && Normalized(methods)[i] == key.vm;
    FindMethodFinds(methods, i);
    assert Key(key.kid, key.key) in EncryptionKeys(identifier.keys);
    var orig :| orig in identifier.keys && orig.kid == key.kid && ToX25519(orig.key) == key.key;
    assert DidOf(key.vm.id) == Some(did);
  }

  lemma ChoicesAgree(packing: string, enc: string, alg: string, suite: Suite,
                     senderKey: Option<PublicKey>, nonce: nat)
    requires EncrypterFor(packing, enc, alg) == Some(suite)
    requires senderKey.Some? <==> packing == "authcrypt"
    ensures Agreed(packing, suite, senderKey, nonce)
    ensures senderKey.Some? <==> suite.kek == Ecdh1Pu
  {
    forall header: Header | CarriesChoice(header, suite, nonce)
      ensures DecrypterFor(header, senderKey)
              == DecrypterChoice(packing, Some(Decrypter(suite, senderKey)))
    {
      ChoicesMeet(packing, enc, alg, suite, header, senderKey);
    }
    var header := ProtectedHeader(suite, None, nonce);
    ChoicesMeet(packing, enc, alg, suite, header, senderKey);
  }

  // ---------------------------------------------------------------- main results

  /** What a successful encrypted packing is made of, and what the unpacker will read off its header. */
  lemma PackedJweShape(sender: Agent, net: Resolver, args: PackArgs, nonce: nat)
    returns (suite: Suite, skid: Option<string>, senderKey: Option<PublicKey>, recipients: seq<RecipientKey>)
    requires WellFormed(net) && StoreKeyed(sender) && KmsConsistent(sender)
    requires PackedJwe(sender, net, args, nonce).Ok?
    ensures AllRecipients(net, args.message.to + args.bcc, args.recipientKids) == Ok(recipients)
    ensures PackedJwe(sender, net, args, nonce).value
            == CreateJwe(args.message, skid, suite, senderKey, recipients, nonce)
    ensures SenderEncryptionKey(net, ProtectedHeader(suite, skid, nonce)) == Ok(senderKey)
    ensures Agreed(args.packing, suite, senderKey, nonce)
    ensures senderKey.Some? <==> suite.kek == Ecdh1Pu
  {
    recipients := AllRecipients(net, args.message.to + args.bcc, args.recipientKids).value;
    var enc, alg := GetOr(args.enc, "A256GCM"), GetOr(args.alg, DefaultAlg(args.packing));
    suite, skid, senderKey := EncrypterFor(args.packing, enc, alg).value, None, None;
    if args.packing == "authcrypt" {
      var key := SenderKey(sender, net, args).value;
      SkidResolves(sender, net, args, suite, nonce);
      skid, senderKey := Some(key.vm.id), Some(PublicKey("X25519", sender.kms[key.kid]));
    }
    ChoicesAgree(args.packing, enc, alg, suite, senderKey, nonce);
  }

  lemma CreatedJweOpens(message: Message, packing: string, skid: Option<string>, suite: Suite,
                        senderKey: Option<PublicKey>, recipients: seq<RecipientKey>, nonce: nat,
                        net: Resolver, receiver: Agent)
    requires WellFormed(net) && StoreKeyed(receiver)
    requires forall r | r in recipients :: Listed(net, r)
    requires SenderEncryptionKey(net, ProtectedHeader(suite, skid, nonce)) == Ok(senderKey)
    requires Agreed(packing, suite, senderKey, nonce)
    requires senderKey.Some? <==> suite.kek == Ecdh1Pu
    ensures UnpackedJwe(receiver, net, CreateJwe(message, skid, suite, senderKey, recipients, nonce)) ==
            if CanOpen(receiver, recipients) then Ok(Unpacked(message, packing)) else Err(Undecryptable)
  {
    var header := ProtectedHeader(suite, skid, nonce);
    LocalKeysFound(receiver, net, header, recipients, suite, senderKey, nonce);
    TriesFoundKeys(receiver, message, skid, suite, senderKey, recipients, nonce, packing, recipients);
  }

  /**
    A packed encrypted message unpacks to the same message and packing for an agent whose KMS can act as one of
    the recipients, and ends in the decryption error for every other agent.
   */
  lemma JweOpensExactly(sender: Agent, net: Resolver, args: PackArgs, nonce: nat, receiver: Agent)
    requires WellFormed(net)
    requires StoreKeyed(sender) && KmsConsistent(sender)
    requires StoreKeyed(receiver)
    requires PackedJwe(sender, net, args, nonce).Ok?
    ensures AllRecipients(net, args.message.to + args.bcc, args.recipientKids).Ok?
    ensures UnpackedMessage(receiver, net, PackedJwe(sender, net, args, nonce).value) ==
            if CanOpen(receiver, AllRecipients(net, args.message.to + args.bcc, args.recipientKids).value)
            then Ok(Unpacked(args.message, args.packing)) else Err(Undecryptable)
  {
    hide PackedJwe, AllRecipients, WellFormed, StoreKeyed, KmsConsistent, UnpackedJwe, CanOpen, Listed, Agreed;
    var suite, skid, senderKey, recipients := PackedJweShape(sender, net, args, nonce);
    RecipientsAreListed(net, args.message.to + args.bcc, args.recipientKids);
    CreatedJweOpens(args.message, args.packing, skid, suite, senderKey, recipients, nonce, net, receiver);
  }

  lemma FoundKeyIsBacked(agent: Agent, r: RecipientKey)
    requires KmsBacked(agent)
    requires KeyFor(agent, r).Some?
    ensures Holds(agent, r)
    ensures var kid := KeyFor(agent, r).value.kid; kid in agent.kms && agent.kms[kid] == r.key.secret
    ensures r.key.curve == "X25519"
  {
    var keys := agent.identifiers[DidOf(r.kid).value].keys;
    FindByPublicKeyFinds(EncryptionKeys(keys), r.key);
    EncryptionKeysOf(keys);
    var found := KeyFor(agent, r).value;
    assert found in EncryptionKeys(keys) && found.key == r.key;
    var backing :| backing in keys && backing.kid == found.kid && ToX25519(backing.key) == found.key;
    assert agent.kms[found.kid] == backing.key.secret;
  }

  lemma HeldKeyIsFound(agent: Agent, r: RecipientKey)
    requires Holds(agent, r) && r.key.curve == "X25519"
    ensures KeyFor(agent, r).Some?
  {
    var keys := agent.identifiers[DidOf(r.kid).value].keys;
    var orig :| orig in keys && ToX25519(orig.key) == r.key;
    EncryptionKeysOf(keys);
    FindByPublicKeyFinds(EncryptionKeys(keys), r.key);
    assert Key(orig.kid, r.key) in EncryptionKeys(keys);
  }

  /** With a KMS that backs its DID store, being able to open means managing a recipient's DID and key. */
  lemma OpensIffHolds(agent: Agent, net: Resolver, recipients: seq<RecipientKey>)
    requires KmsBacked(agent)
    requires forall r | r in recipients :: Listed(net, r)
    ensures CanOpen(agent, recipients) <==> exists r :: r in recipients && Holds(agent, r)
  {
    if i :| 0 <= i < |recipients| && Opens(agent, recipients[i], recipients) {
      FoundKeyIsBacked(agent, recipients[i]);
      assert recipients[i] in recipients;
    }
    if r :| r in recipients && Holds(agent, r) {
      var i :| 0 <= i < |recipients| && recipients[i] == r;
      HeldKeyIsFound(agent, r);
      FoundKeyIsBacked(agent, r);
      assert recipients[i].key == PublicKey("X25519", r.key.secret);
      assert HasSecret(recipients, r.key.secret);
      assert Opens(agent, recipients[i], recipients);
    }
  }

  /** The round trip in terms a caller can check: hold one recipient's key, or get the decryption error. */
  lemma JweRoundTrip(sender: Agent, net: Resolver, args: PackArgs, nonce: nat, receiver: Agent)
    requires WellFormed(net)
    requires StoreKeyed(sender) && KmsConsistent(sender)
    requires StoreKeyed(receiver) && KmsBacked(receiver)
    requires PackedJwe(sender, net, args, nonce).Ok?
    ensures var recipients := AllRecipients(net, args.message.to + args.bcc, args.recipientKids).value;
            UnpackedMessage(receiver, net, PackedJwe(sender, net, args, nonce).value) ==
            if exists r :: r in recipients && Holds(receiver, r)
            then Ok(Unpacked(args.message, args.packing)) else Err(Undecryptable)
  {
    JweOpensExactly(sender, net, args, nonce, receiver);
    RecipientsAreListed(net, args.message.to + args.bcc, args.recipientKids);
    OpensIffHolds(receiver, net, AllRecipients(net, args.message.to + args.bcc, args.recipientKids).value);
  }

  /** A signed message verifies for everyone exactly when `from` names a DID without path, query or fragment. */
  lemma JwsRoundTrip(sender: Agent, net: Resolver, args: PackArgs, receiver: Agent)
    requires WellFormed(net)
    requires StoreKeyed(sender) && KmsConsistent(sender)
    requires PackedJws(sender, net, args).Ok?
    ensures args.message.from.Some?
    ensures UnpackedMessage(receiver, net, PackedJws(sender, net, args).value) ==
            if DidOf(args.message.from.value) == args.message.from
            then Ok(Unpacked(args.message, "jws")) else Err(InvalidJws)
  {
    hide UnpackedJwe, MatchKeys, FindMethod, FindByRef;
    var from := args.message.from.value;
    var identifier := sender.identifiers[from];
    var did := DidOf(identifier.did).value;
    var methods := net[did].authentication;
    var keys := AuthenticationKeys(net, identifier).value;
    SelectKeyMeaning(keys, args.keyRef);
    var key := SelectKey(keys, args.keyRef).value;
    MatchedKeys(methods, identifier.keys);
    var i :| 0 <= i < |methods| && methods[i] == key.vm;
    FindMethodFinds(methods, i);
    assert DidOf(key.vm.id) == Some(did);
    BareDid(key.vm.id);
    assert Key(key.kid, key.key) in identifier.keys;
  }

  /** An unpacked plain message is the packed one with `typ` set: the same message iff it already said so. */
  lemma PlainRoundTrip(sender: Agent, receiver: Agent, net: Resolver, args: PackArgs, nonce: nat)
    requires args.packing == "none"
    ensures Packed(sender, net, args, nonce).Ok?
    ensures UnpackedMessage(receiver, net, Packed(sender, net, args, nonce).value)
            == Ok(Unpacked(args.message.(typ := Some(PLAIN)), "none"))
    ensures UnpackedMessage(receiver, net, Packed(sender, net, args, nonce).value) == Ok(Unpacked(args.message, "none"))
            <==> args.message.typ == Some(PLAIN)
  {
  }

  /** The detected media type always names the packing that was used. */
  lemma MediaTypeNamesPacking(sender: Agent, net: Resolver, args: PackArgs, nonce: nat)
    requires Packed(sender, net, args, nonce).Ok?
    ensures args.packing in {"authcrypt", "anoncrypt", "jws", "none"}
    ensures MediaType(Packed(sender, net, args, nonce).value) ==
            Ok(if args.packing == "jws" then SIGNED else if args.packing == "none" then PLAIN else ENCRYPTED)
  {
    hide AllRecipients, EncrypterFor, SenderKey, AuthenticationKeys, SelectKey, RecipientEntries, GetOr, SigningAlg;
  }
}
