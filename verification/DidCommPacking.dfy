/** Packing and unpacking of single DIDComm messages (packages/did-comm/src/didcomm.ts, utils.ts). */
module DidCommPacking {
  import opened Results
  import opened Strings
  import opened DidCommWire

  /** The arguments of `packDIDCommMessage`; `enc` and `alg` are free strings, as they are at run time. */
  datatype PackArgs = PackArgs(
    message: Message, packing: string, keyRef: Option<string>, bcc: seq<string>,
    recipientKids: Option<seq<string>>, enc: Option<string>, alg: Option<string>)

  // ---------------------------------------------------------------- matching managed keys to documents

  datatype DocKey = DocKey(kid: string, key: PublicKey, vm: VerificationMethod)

  function Normalized(methods: seq<VerificationMethod>): (r: seq<VerificationMethod>)
    ensures |r| == |methods|
    ensures forall i | 0 <= i < |r| :: r[i] == methods[i].(key := ToX25519(methods[i].key))
  {
    seq(|methods|, i requires 0 <= i < |methods| => methods[i].(key := ToX25519(methods[i].key)))
  }

  /** An identifier's keys in X25519 form, keys of other curves dropped. */
  function EncryptionKeys(keys: seq<Key>): seq<Key> {
    if keys == [] then []
    else
      var k := ToX25519(keys[0].key);
      (if k.curve == "X25519" then [Key(keys[0].kid, k)] else []) + EncryptionKeys(keys[1..])
  }

  function FindByPublicKey(keys: seq<Key>, key: PublicKey): Option<Key> {
    if keys == [] then None
    else if keys[0].key == key then Some(keys[0])
    else FindByPublicKey(keys[1..], key)
  }

  function MatchKeys(methods: seq<VerificationMethod>, keys: seq<Key>): seq<DocKey> {
    if methods == [] then []
    else
      (match FindByPublicKey(keys, methods[0].key)
       case Some(k) => [DocKey(k.kid, k.key, methods[0])]
       case None => [])
      + MatchKeys(methods[1..], keys)
  }

  function KeyAgreementKeys(net: Resolver, identifier: Identifier): Result<seq<DocKey>, Error> {
    var doc :- Resolve(net, identifier.did);
    Ok(MatchKeys(Normalized(doc.keyAgreement), EncryptionKeys(identifier.keys)))
  }

  function AuthenticationKeys(net: Resolver, identifier: Identifier): Result<seq<DocKey>, Error> {
    var doc :- Resolve(net, identifier.did);
    Ok(MatchKeys(doc.authentication, identifier.keys))
  }

  function FindByRef(keys: seq<DocKey>, keyRef: string): Option<DocKey> {
    if keys == [] then None
    else if keys[0].kid == keyRef || keys[0].vm.id == keyRef then Some(keys[0])
    else FindByRef(keys[1..], keyRef)
  }

  /** The key the caller asked for, or else the first one. */
  function SelectKey(keys: seq<DocKey>, keyRef: Option<string>): Option<DocKey> {
    var wanted := if keyRef.Some? then FindByRef(keys, keyRef.value) else None;
    if wanted.Some? then wanted
    else if keys != [] then Some(keys[0])
    else None
  }

  function FindMethod(methods: seq<VerificationMethod>, id: string): Option<VerificationMethod> {
    if methods == [] then None
    else if methods[0].id == id then Some(methods[0])
    else FindMethod(methods[1..], id)
  }

  // ---------------------------------------------------------------- choosing algorithms

  function WrapSuffix(alg: string): Option<WrapKind> {
    if EndsWith(alg, "+XC20PKW") then Some(Xc20pKw)
    else if EndsWith(alg, "+A256KW") then Some(A256Kw)
    else None
  }

  /** The suite of the encrypter for a recipient; the choice does not depend on which recipient it is. */
  function EncrypterFor(packing: string, enc: string, alg: string): Option<Suite> {
    if enc == "A256GCM" then
      if packing == "authcrypt" && (alg == "" || StartsWith(alg, "ECDH-1PU")) then
        match WrapSuffix(alg)
        case Some(wrap) => Some(Suite(Ecdh1Pu, wrap, A256Gcm))
        case None => None
      else if packing == "anoncrypt" && (alg == "" || StartsWith(alg, "ECDH-ES")) then
        match WrapSuffix(alg)
        case Some(wrap) => Some(Suite(EcdhEs, wrap, A256Gcm))
        case None => None
      else None
    else if enc == "A256CBC-HS512" then
      if packing == "authcrypt" && (alg == "" || StartsWith(alg, "ECDH-1PU")) then
        match WrapSuffix(alg)
        case Some(wrap) => Some(Suite(Ecdh1Pu, wrap, A256CbcHs512))
        case None => None
      else if packing == "anoncrypt" && (alg == "" || StartsWith(alg, "ECDH-ES")) then
        match WrapSuffix(alg)
        case Some(wrap) => Some(Suite(EcdhEs, wrap, A256CbcHs512))
        case None => None
      else None
    else if enc == "XC20P" then
      if packing == "authcrypt" && (alg == "" || StartsWith(alg, "ECDH-1PU")) then
        match WrapSuffix(alg)
        case Some(wrap) => Some(Suite(Ecdh1Pu, wrap, Xc20p))
        case None => None
      else if packing == "anoncrypt" && (alg == "" || StartsWith(alg, "ECDH-ES")) then
        match WrapSuffix(alg)
        case Some(wrap) => Some(Suite(EcdhEs, wrap, Xc20p))
        case None => None
      else None
    else None
  }

  /** A decrypter: its suite and, for the authenticated ones, the sender's key. */
  datatype Decrypter = Decrypter(suite: Suite, sender: Option<PublicKey>)

  datatype DecrypterChoice = DecrypterChoice(packing: string, decrypter: Option<Decrypter>)

  function UnwrapSuffix(alg: Option<string>): Option<WrapKind> {
    if alg.None? then None
    else if EndsWith(alg.value, "+A256KW") then Some(A256Kw)
    else if EndsWith(alg.value, "+XC20PKW") then Some(Xc20pKw)
    else None
  }

  function DecrypterForContent(header: Header, senderKey: Option<PublicKey>, content: ContentKind): DecrypterChoice {
    if senderKey.Some? && header.alg.Some? && Includes(header.alg.value, "ECDH-1PU") then
      DecrypterChoice("authcrypt",
        match UnwrapSuffix(header.alg)
        case Some(wrap) => Some(Decrypter(Suite(Ecdh1Pu, wrap, content), senderKey))
        case None => None)
    else
      DecrypterChoice("anoncrypt",
        match UnwrapSuffix(header.alg)
        case Some(wrap) => Some(Decrypter(Suite(EcdhEs, wrap, content), None))
        case None => None)
  }

  function DecrypterFor(header: Header, senderKey: Option<PublicKey>): DecrypterChoice {
    if header.epk.Some? && header.epk.value.crv == "X25519" then
      if header.enc == Some("A256GCM") then DecrypterForContent(header, senderKey, A256Gcm)
      else if header.enc == Some("A256CBC-HS512") then DecrypterForContent(header, senderKey, A256CbcHs512)
      else if header.enc == Some("XC20P") then DecrypterForContent(header, senderKey, Xc20p)
      else DecrypterChoice("anoncrypt", None)
    else DecrypterChoice("anoncrypt", None)
  }

  /** The packer's and the unpacker's choices meet: whatever alg and enc strings the packer accepted. */
  lemma ChoicesMeet(packing: string, enc: string, alg: string, suite: Suite, header: Header,
                    senderKey: Option<PublicKey>)
    requires EncrypterFor(packing, enc, alg) == Some(suite)
    requires header.alg == Some(AlgName(suite))
    requires header.enc == Some(EncName(suite.content))
    requires header.epk.Some? && header.epk.value.crv == "X25519"
    requires senderKey.Some? <==> packing == "authcrypt"
    ensures DecrypterFor(header, senderKey) == DecrypterChoice(packing, Some(Decrypter(suite, senderKey)))
    ensures suite.kek == if packing == "authcrypt" then Ecdh1Pu else EcdhEs
    ensures EncName(suite.content) == enc
    ensures packing == "authcrypt" || packing == "anoncrypt"
  {
    AlgNames(suite);
  }

  /** The four algorithm names and how they are recognised. */
  lemma AlgNames(suite: Suite)
    ensures suite.kek == Ecdh1Pu ==> Includes(AlgName(suite), "ECDH-1PU")
    ensures UnwrapSuffix(Some(AlgName(suite))) == Some(suite.wrap)
  {
    var name := AlgName(suite);
    if suite.kek == Ecdh1Pu {
      assert name[0..] == name;
      assert "ECDH-1PU" <= name[0..];
    }
    match suite.wrap {
      case A256Kw => assert name[|name| - 7..] == "+A256KW";
      case Xc20pKw => assert name[|name| - 8..] == "+XC20PKW"; assert name[|name| - 7..] == "XC20PKW";
    }
  }

  // ---------------------------------------------------------------- encrypted messages: packing

  datatype RecipientKey = RecipientKey(kid: string, key: PublicKey)

  predicate Wanted(kid: string, kids: Option<seq<string>>) {
    kids.Some? ==> kid in kids.value
  }

  function WantedMethods(methods: seq<VerificationMethod>, kids: Option<seq<string>>): seq<VerificationMethod> {
    if methods == [] then []
    else (if Wanted(methods[0].id, kids) then [methods[0]] else []) + WantedMethods(methods[1..], kids)
  }

  function SupportedRecipients(methods: seq<VerificationMethod>): seq<RecipientKey> {
    if methods == [] then []
    else
      (if methods[0].key.curve == "X25519" then [RecipientKey(methods[0].id, methods[0].key)] else [])
      + SupportedRecipients(methods[1..])
  }

  function RecipientsOf(net: Resolver, to: string, kids: Option<seq<string>>): Result<seq<RecipientKey>, Error> {
    var doc :- Resolve(net, to);
    var keys := WantedMethods(Normalized(doc.keyAgreement), kids);
    if keys == [] then Err(KeyNotFound)
    else
      var recipients := SupportedRecipients(keys);
      if recipients == [] then Err(NotSupported) else Ok(recipients)
  }

  /** Every recipient of a list of DIDs, in order. */
  function AllRecipients(net: Resolver, dids: seq<string>, kids: Option<seq<string>>)
    : Result<seq<RecipientKey>, Error>
  {
    if dids == [] then Ok([])
    else
      var front :- AllRecipients(net, dids[..|dids| - 1], kids);
      var last :- RecipientsOf(net, dids[|dids| - 1], kids);
      Ok(front + last)
  }

  method ComputeRecipients(net: Resolver, dids: seq<string>, kids: Option<seq<string>>)
    returns (r: Result<seq<RecipientKey>, Error>)
    ensures r == AllRecipients(net, dids, kids)
  {
    var recipients: seq<RecipientKey> := [];
    for i := 0 to |dids|
      invariant AllRecipients(net, dids[..i], kids) == Ok(recipients)
    {
      assert dids[..i + 1][..i] == dids[..i];
      var more := RecipientsOf(net, dids[i], kids);
      if more.Err? {
        AllRecipientsStops(net, dids, kids, i + 1);
        return more;
      }
      recipients := recipients + more.value;
    }
    assert dids[..|dids|] == dids;
    return Ok(recipients);
  }

  lemma AllRecipientsStops(net: Resolver, dids: seq<string>, kids: Option<seq<string>>, n: nat)
    requires n <= |dids|
    requires AllRecipients(net, dids[..n], kids).Err?
    ensures AllRecipients(net, dids, kids) == AllRecipients(net, dids[..n], kids)
  {
    if n < |dids| {
      assert dids[..|dids| - 1][..n] == dids[..n];
      AllRecipientsStops(net, dids[..|dids| - 1], kids, n);
    } else {
      assert dids[..n] == dids;
    }
  }

  /** The sender key an authenticated packing uses. */
  function SenderKey(agent: Agent, net: Resolver, args: PackArgs): Result<DocKey, Error> {
    if args.message.from.None? || args.message.from.value == "" then Err(InvalidArgument)
    else if args.message.from.value !in agent.identifiers then Err(NotFound)
    else
      var keys :- KeyAgreementKeys(net, agent.identifiers[args.message.from.value]);
      match SelectKey(keys, args.keyRef)
      case Some(key) => Ok(key)
      case None => Err(KeyNotFound)
  }

  function EphemeralFor(nonce: nat): PublicKey {
    PublicKey("X25519", Ephemeral(nonce))
  }

  function ProtectedHeader(suite: Suite, skid: Option<string>, nonce: nat): Header {
    Header(Some(ENCRYPTED), Some(AlgName(suite)), Some(EncName(suite.content)), None, skid,
           Some(EphemeralKey("X25519", EphemeralFor(nonce))))
  }

  /** One recipient entry: a single ephemeral key is shared, so only the kid is left in its own header. */
  function RecipientEntry(recipient: RecipientKey, suite: Suite, sender: Option<PublicKey>, nonce: nat): Recipient {
    Recipient(EMPTY_HEADER.(kid := Some(recipient.kid)),
              WrappedKey(Kek(AlgName(suite), EphemeralFor(nonce), sender, recipient.key), suite.wrap,
                         ContentKey(nonce)))
  }

  function RecipientEntries(recipients: seq<RecipientKey>, suite: Suite, sender: Option<PublicKey>, nonce: nat)
    : (r: seq<Recipient>)
    ensures |r| == |recipients|
    ensures forall i | 0 <= i < |r| :: r[i] == RecipientEntry(recipients[i], suite, sender, nonce)
  {
    seq(|recipients|, i requires 0 <= i < |recipients| => RecipientEntry(recipients[i], suite, sender, nonce))
  }

  function CreateJwe(message: Message, skid: Option<string>, suite: Suite, sender: Option<PublicKey>,
                     recipients: seq<RecipientKey>, nonce: nat): Wire
  {
    var header := ProtectedHeader(suite, skid, nonce);
    JweObject(header, RecipientEntries(recipients, suite, sender, nonce),
              SealedContent(ContentKey(nonce), suite.content, header, message))
  }

  function DefaultAlg(packing: string): string {
    if packing == "authcrypt" then "ECDH-1PU+A256KW" else "ECDH-ES+A256KW"
  }

  function GetOr<T>(option: Option<T>, default: T): T {
    if option.Some? then option.value else default
  }

  /** What `packDIDCommMessageJWE` produces; `nonce` stands for the randomness it draws. */
  function PackedJwe(agent: Agent, net: Resolver, args: PackArgs, nonce: nat): Result<Wire, Error> {
    if args.packing == "authcrypt" then
      var key :- SenderKey(agent, net, args);
      var recipients :- AllRecipients(net, args.message.to + args.bcc, args.recipientKids);
      match EncrypterFor(args.packing, GetOr(args.enc, "A256GCM"), GetOr(args.alg, DefaultAlg(args.packing)))
      case None => Err(NotSupported)
      case Some(suite) =>
        if recipients == [] then Err(NotSupported)
        else if key.kid !in agent.kms then Err(NotFound)
        else Ok(CreateJwe(args.message, Some(key.vm.id), suite,
                          Some(PublicKey("X25519", agent.kms[key.kid])), recipients, nonce))
    else
      var recipients :- AllRecipients(net, args.message.to + args.bcc, args.recipientKids);
      match EncrypterFor(args.packing, GetOr(args.enc, "A256GCM"), GetOr(args.alg, DefaultAlg(args.packing)))
      case None => Err(NotSupported)
      case Some(suite) =>
        if recipients == [] then Err(NotSupported)
        else Ok(CreateJwe(args.message, None, suite, None, recipients, nonce))
  }

  // ---------------------------------------------------------------- encrypted messages: unpacking

  function SenderEncryptionKey(net: Resolver, header: Header): Result<Option<PublicKey>, Error> {
    if header.skid.None? then Ok(None)
    else
      var doc :- Resolve(net, header.skid.value);
      match FindMethod(doc.keyAgreement, header.skid.value)
      case None => Err(NotFound)
      case Some(m) =>
        if ToX25519(m.key).curve != "X25519" then Err(NotSupported) else Ok(Some(ToX25519(m.key)))
  }

  /** A recipient entry of ours together with the managed key it is for. */
  datatype LocalKey = LocalKey(kid: string, header: Header)

  function FindById(keys: seq<DocKey>, id: string): Option<DocKey> {
    if keys == [] then None
    else if keys[0].vm.id == id then Some(keys[0])
    else FindById(keys[1..], id)
  }

  predicate Managed(agent: Agent, recipient: Recipient) {
    && recipient.header.kid.Some?
    && DidOf(recipient.header.kid.value).Some?
    && DidOf(recipient.header.kid.value).value in agent.identifiers
  }

  /** The managed recipients' local keys, the protected header merged under each recipient's own. */
  function LocalKeys(agent: Agent, net: Resolver, protectedHeader: Header, recipients: seq<Recipient>)
    : Result<seq<LocalKey>, Error>
  {
    if recipients == [] then Ok([])
    else
      var head := recipients[0];
      if !Managed(agent, head) then LocalKeys(agent, net, protectedHeader, recipients[1..])
      else
        var keys :- KeyAgreementKeys(net, agent.identifiers[DidOf(head.header.kid.value).value]);
        var rest :- LocalKeys(agent, net, protectedHeader, recipients[1..]);
        match FindById(keys, head.header.kid.value)
        case None => Ok(rest)
        case Some(key) => Ok([LocalKey(key.kid, Union(protectedHeader, head.header))] + rest)
  }

  /** One decrypter tried against every recipient entry, the protected header laid over the entry's own. */
  function DecryptAny(protectedHeader: Header, recipients: seq<Recipient>, ciphertext: SealedContent,
                      decrypter: Decrypter, secret: Secret): Option<Message>
  {
    if recipients == [] then None
    else
      match DecryptOne(protectedHeader, recipients[0], ciphertext, decrypter, secret)
      case Some(m) => Some(m)
      case None => DecryptAny(protectedHeader, recipients[1..], ciphertext, decrypter, secret)
  }

  function DecryptOne(protectedHeader: Header, recipient: Recipient, ciphertext: SealedContent,
                      decrypter: Decrypter, secret: Secret): Option<Message>
  {
    var header := Union(recipient.header, protectedHeader);
    if header.alg != Some(AlgName(decrypter.suite)) || header.epk.None? then None
    else
      var kek := Kek(AlgName(decrypter.suite), header.epk.value.key, decrypter.sender, PublicKey("X25519", secret));
      match Unwrap(recipient.encryptedKey, kek, decrypter.suite.wrap)
      case None => None
      case Some(cek) => Open(ciphertext, cek, decrypter.suite.content, protectedHeader)
  }

  function Decrypt(protectedHeader: Header, recipients: seq<Recipient>, ciphertext: SealedContent,
                   decrypter: Decrypter, secret: Option<Secret>): Option<Message>
  {
    if protectedHeader.enc != Some(EncName(decrypter.suite.content)) || secret.None? then None
    else DecryptAny(protectedHeader, recipients, ciphertext, decrypter, secret.value)
  }

  function KmsSecret(agent: Agent, kid: string): Option<Secret> {
    if kid in agent.kms then Some(agent.kms[kid]) else None
  }

  /** The first local key that opens the message; a key without a decrypter ends the search. */
  function TryKeys(agent: Agent, jwe: Wire, senderKey: Option<PublicKey>, keys: seq<LocalKey>): Result<Unpacked, Error>
    requires jwe.JweObject?
  {
    if keys == [] then Err(Undecryptable)
    else
      var choice := DecrypterFor(keys[0].header, senderKey);
      match choice.decrypter
      case None => Err(Undecryptable)
      case Some(decrypter) =>
        match Decrypt(jwe.protectedHeader, jwe.recipients, jwe.ciphertext, decrypter, KmsSecret(agent, keys[0].kid))
        case Some(message) => Ok(Unpacked(message, choice.packing))
        case None => TryKeys(agent, jwe, senderKey, keys[1..])
  }

  function UnpackedJwe(agent: Agent, net: Resolver, jwe: Wire): Result<Unpacked, Error>
    requires jwe.JweObject?
  {
    var senderKey :- SenderEncryptionKey(net, jwe.protectedHeader);
    var keys :- LocalKeys(agent, net, jwe.protectedHeader, jwe.recipients);
    TryKeys(agent, jwe, senderKey, keys)
  }

  method UnpackJwe(agent: Agent, net: Resolver, jwe: Wire) returns (r: Result<Unpacked, Error>)
    requires jwe.JweObject?
    ensures r == UnpackedJwe(agent, net, jwe)
  {
    var senderKey :- SenderEncryptionKey(net, jwe.protectedHeader);
    var keys :- LocalKeys(agent, net, jwe.protectedHeader, jwe.recipients);
    for i := 0 to |keys|
      invariant TryKeys(agent, jwe, senderKey, keys) == TryKeys(agent, jwe, senderKey, keys[i..])
    {
      var choice := DecrypterFor(keys[i].header, senderKey);
      if choice.decrypter.None? {
        return Err(Undecryptable);
      }
      var message := Decrypt(jwe.protectedHeader, jwe.recipients, jwe.ciphertext, choice.decrypter.value,
                             KmsSecret(agent, keys[i].kid));
      if message.Some? {
        return Ok(Unpacked(message.value, choice.packing));
      }
      assert keys[i..][1..] == keys[i + 1..];
    }
    return Err(Undecryptable);
  }

  // ---------------------------------------------------------------- signed messages

  function SigningAlg(curve: string): Option<string> {
    if curve == "Ed25519" then Some("EdDSA")
    else if curve == "Secp256k1" then Some("ES256K")
    else None
  }

  function PackedJws(agent: Agent, net: Resolver, args: PackArgs): Result<Wire, Error> {
    if args.message.from.None? || args.message.from.value == "" || args.message.from.value !in agent.identifiers
    then Err(InvalidArgument)
    else
      var keys :- AuthenticationKeys(net, agent.identifiers[args.message.from.value]);
      match SelectKey(keys, args.keyRef)
      case None => Err(KeyNotFound)
      case Some(key) =>
        match SigningAlg(key.key.curve)
        case None => Err(NotSupported)
        case Some(alg) =>
          if key.kid !in agent.kms then Err(NotFound)
          else
            var header := EMPTY_HEADER.(typ := Some(SIGNED), alg := Some(alg), kid := Some(key.vm.id));
            Ok(FlatJwsObject(header, args.message,
                             Signature(PublicKey(key.key.curve, agent.kms[key.kid]), alg, header, args.message)))
  }

  function VerifiedJws(net: Resolver, protectedHeader: Option<Header>, payload: Message, signature: Option<Signature>)
    : Result<Unpacked, Error>
  {
    if protectedHeader.None? || signature.None? then Err(InvalidArgument)
    else
      var header := protectedHeader.value;
      if header.kid.None? || DidOf(header.kid.value).None? || DidOf(header.kid.value) != payload.from
      then Err(InvalidJws)
      else
        var doc :- Resolve(net, DidOf(header.kid.value).value);
        match FindMethod(doc.authentication, header.kid.value)
        case None => Err(NotFound)
        case Some(m) =>
          if header.alg.Some? && signature.value == Signature(m.key, header.alg.value, header, payload)
          then Ok(Unpacked(payload, "jws"))
          else Err(InvalidJws)
  }

  function UnpackedJws(net: Resolver, wire: Wire): Result<Unpacked, Error> {
    match wire
    case FlatJwsObject(header, payload, signature) => VerifiedJws(net, Some(header), payload, Some(signature))
    case GeneralJwsObject(payload, signatures) =>
      if signatures == [] then Err(InvalidArgument)
      else VerifiedJws(net, signatures[0].protectedHeader, payload, signatures[0].signature)
    case _ => Err(InvalidArgument)
  }

  // ---------------------------------------------------------------- the two public operations

  function MediaType(wire: Wire): Result<string, Error> {
    match wire
    case NotJson(_) => Err(InvalidArgument)
    case PlainObject(message) => if message.typ == Some(PLAIN) then Ok(PLAIN) else Err(InvalidArgument)
    case JweObject(header, _, _) => ProtectedMediaType(header)
    case FlatJwsObject(header, _, _) => ProtectedMediaType(header)
    case GeneralJwsObject(_, _) => Ok(SIGNED)
  }

  function ProtectedMediaType(header: Header): Result<string, Error> {
    if header.typ == Some(SIGNED) then Ok(SIGNED)
    else if header.typ == Some(ENCRYPTED) then Ok(ENCRYPTED)
    else Err(InvalidArgument)
  }

  function Packed(agent: Agent, net: Resolver, args: PackArgs, nonce: nat): Result<Wire, Error> {
    if args.packing == "authcrypt" || args.packing == "anoncrypt" then PackedJwe(agent, net, args, nonce)
    else if args.packing == "none" then Ok(PlainObject(args.message.(typ := Some(PLAIN))))
    else if args.packing == "jws" then PackedJws(agent, net, args)
    else Err(NotImplemented)
  }

  function UnpackedMessage(agent: Agent, net: Resolver, wire: Wire): Result<Unpacked, Error> {
    var mediaType :- MediaType(wire);
    if mediaType == SIGNED then UnpackedJws(net, wire)
    else if mediaType == PLAIN then
      if wire.PlainObject? then Ok(Unpacked(wire.message, "none")) else Err(InvalidArgument)
    else if wire.JweObject? then UnpackedJwe(agent, net, wire)
    else Err(Undecryptable)  // an object that only claims to be encrypted has no recipients
  }
}
