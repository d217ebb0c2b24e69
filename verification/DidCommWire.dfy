/**
  The values that travel between DIDComm agents, and the world the agents live in.

  Cryptography is symbolic: a public key is the image of its secret, a key-encryption key is a term built
  from the Diffie-Hellman participants and the algorithm name it is bound to, and a box opens exactly when
  every ingredient agrees.
 */
module DidCommWire {
  import opened Results
  import opened Strings

  const PLAIN := "application/didcomm-plain+json"
  const SIGNED := "application/didcomm-signed+json"
  const ENCRYPTED := "application/didcomm-encrypted+json"
  const FORWARD := "https://didcomm.org/routing/2.0/forward"

  datatype Error =
    | NotImplemented
    | InvalidArgument
    | InvalidJws
    | NotFound
    | KeyNotFound
    | NotSupported
    | Undecryptable
    | NoTransport
    | TransportError(reason: string)
    | AllAttemptsFailed(causes: seq<Error>)

  // ---------------------------------------------------------------- keys and boxes

  datatype Secret = Stored(n: nat) | Ephemeral(n: nat)

  datatype PublicKey = PublicKey(curve: string, secret: Secret)

  /** Ed25519 keys are usable for encryption through their X25519 form; other curves are left alone. */
  function ToX25519(key: PublicKey): PublicKey {
    if key.curve == "Ed25519" then key.(curve := "X25519") else key
  }

  datatype KekKind = EcdhEs | Ecdh1Pu
  datatype WrapKind = A256Kw | Xc20pKw
  datatype ContentKind = A256Gcm | A256CbcHs512 | Xc20p

  /** One of the twelve encrypter/decrypter pairs. */
  datatype Suite = Suite(kek: KekKind, wrap: WrapKind, content: ContentKind)

  function AlgName(suite: Suite): string {
    (match suite.kek case EcdhEs => "ECDH-ES" case Ecdh1Pu => "ECDH-1PU")
    + (match suite.wrap case A256Kw => "+A256KW" case Xc20pKw => "+XC20PKW")
  }

  function EncName(content: ContentKind): string {
    match content
    case A256Gcm => "A256GCM"
    case A256CbcHs512 => "A256CBC-HS512"
    case Xc20p => "XC20P"
  }

  /** A key-encryption key. `sender` is present for the authenticated (1PU) agreement only. */
  datatype Kek = Kek(alg: string, epk: PublicKey, sender: Option<PublicKey>, recipient: PublicKey)

  datatype ContentKey = ContentKey(n: nat)

  datatype WrappedKey = WrappedKey(kek: Kek, wrap: WrapKind, cek: ContentKey)

  function Unwrap(box: WrappedKey, kek: Kek, wrap: WrapKind): Option<ContentKey> {
    if box.kek == kek && box.wrap == wrap then Some(box.cek) else None
  }

  // ---------------------------------------------------------------- messages

  datatype EphemeralKey = EphemeralKey(crv: string, key: PublicKey)

  /** A JOSE header; absent members are `None`. */
  datatype Header = Header(
    typ: Option<string>, alg: Option<string>, enc: Option<string>, kid: Option<string>,
    skid: Option<string>, epk: Option<EphemeralKey>)

  const EMPTY_HEADER := Header(None, None, None, None, None, None)

  function Prefer<T>(first: Option<T>, second: Option<T>): Option<T> {
    if first.Some? then first else second
  }

  /** `{ ...base, ...top }`. */
  function Union(base: Header, top: Header): Header {
    Header(Prefer(top.typ, base.typ), Prefer(top.alg, base.alg), Prefer(top.enc, base.enc),
           Prefer(top.kid, base.kid), Prefer(top.skid, base.skid), Prefer(top.epk, base.epk))
  }

  datatype MessageId = Named(name: string) | Uuid(n: nat)

  datatype Body = ForwardTo(next: string) | Content(json: string)

  datatype Attachment = Attachment(mediaType: string, json: Wire)

  datatype Message = Message(
    id: MessageId, kind: string, typ: Option<string>, from: Option<string>, to: seq<string>,
    body: Body, attachments: seq<Attachment>)

  /** An encrypted content together with everything that must agree for it to open. */
  datatype SealedContent = SealedContent(cek: ContentKey, content: ContentKind, aad: Header, text: Message)

  function Open(box: SealedContent, cek: ContentKey, content: ContentKind, aad: Header): Option<Message> {
    if box.cek == cek && box.content == content && box.aad == aad then Some(box.text) else None
  }

  datatype Recipient = Recipient(header: Header, encryptedKey: WrappedKey)

  datatype Signature = Signature(key: PublicKey, alg: string, protectedHeader: Header, payload: Message)

  datatype SignatureEntry = SignatureEntry(protectedHeader: Option<Header>, signature: Option<Signature>)

  /** The `message` string of a packed message, by what `JSON.parse` makes of it. */
  datatype Wire =
    | NotJson(text: string)
    | PlainObject(message: Message)
    | JweObject(protectedHeader: Header, recipients: seq<Recipient>, ciphertext: SealedContent)
    | FlatJwsObject(protectedHeader: Header, payload: Message, signature: Signature)
    | GeneralJwsObject(payload: Message, signatures: seq<SignatureEntry>)

  datatype Unpacked = Unpacked(message: Message, packing: string)

  // ---------------------------------------------------------------- DID documents and agents

  datatype VerificationMethod = VerificationMethod(id: string, key: PublicKey)

  datatype EndpointItem =
    | ItemUrl(url: string)
    | ItemObject(uri: Option<string>, routingKeys: Option<seq<string>>)

  /** A `serviceEndpoint`: a string, an object, or an array of either. */
  datatype Endpoint =
    | Url(url: string)
    | Object(uri: Option<string>, routingKeys: Option<seq<string>>)
    | Many(items: seq<EndpointItem>)

  /** A service entry; `t` and `s` are the members of the abbreviated `dm` form. */
  datatype Service = Service(kind: string, t: string, endpoint: Endpoint, s: Endpoint)

  datatype ServiceEntry = Single(service: Service) | Bundle(services: seq<Service>)

  datatype DidDoc = DidDoc(
    keyAgreement: seq<VerificationMethod>, authentication: seq<VerificationMethod>, services: seq<ServiceEntry>)

  type Resolver = map<string, DidDoc>

  /** The DID a DID URL belongs to, `None` for a string that is not a DID URL. */
  function DidOf(url: string): Option<string> {
    if StartsWith(url, "did:") then Some(Before(url, {'#', '?', '/', ';'})) else None
  }

  function Resolve(net: Resolver, url: string): Result<DidDoc, Error> {
    match DidOf(url)
    case None => Err(NotFound)
    case Some(did) => if did in net then Ok(net[did]) else Err(NotFound)
  }

  datatype Key = Key(kid: string, key: PublicKey)

  datatype Identifier = Identifier(did: string, keys: seq<Key>)

  /** An agent's DID store and key management system. */
  datatype Agent = Agent(identifiers: map<string, Identifier>, kms: map<string, Secret>)

  // ---------------------------------------------------------------- what a sane world looks like

  ghost predicate AbsoluteIds(did: string, methods: seq<VerificationMethod>) {
    && (forall i | 0 <= i < |methods| :: DidOf(methods[i].id) == Some(did))
    && (forall i, j | 0 <= i < j < |methods| :: methods[i].id != methods[j].id)
  }

  /** Every verification method carries an absolute id under its own document's DID, unique within its section. */
  ghost predicate WellFormed(net: Resolver) {
    forall did | did in net ::
      AbsoluteIds(did, net[did].keyAgreement) && AbsoluteIds(did, net[did].authentication)
  }

  /** Identifiers are stored under their own DID. */
  ghost predicate StoreKeyed(agent: Agent) {
    forall did | did in agent.identifiers :: agent.identifiers[did].did == did
  }

  /** Whatever the KMS holds under an identifier's kid is the secret of that public key. */
  ghost predicate KmsConsistent(agent: Agent) {
    forall did | did in agent.identifiers ::
      forall k | k in agent.identifiers[did].keys && k.kid in agent.kms :: agent.kms[k.kid] == k.key.secret
  }

  /** Moreover the KMS holds a secret for every key of every identifier. */
  ghost predicate KmsBacked(agent: Agent) {
    && KmsConsistent(agent)
    && forall did | did in agent.identifiers ::
         forall k | k in agent.identifiers[did].keys :: k.kid in agent.kms
  }
}
