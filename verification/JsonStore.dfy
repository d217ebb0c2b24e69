/** The five tables of `DataStoreJson` (packages/data-store-json/src/data-store-json.ts) and its notifications. */
module JsonStore {
  import opened Results
  import opened Strings

  // ---------------------------------------------------------------- documents

  /** A `Date`: its time and its string form; a date made of an unreadable text is invalid and has no time. */
  datatype Date = Date(ms: Option<int>, text: string)

  datatype Proof = Proof(kind: string, jwt: Option<string>, rest: string)

  /** A parsed credential; `subject` is `credentialSubject` with its `id` member, if any. */
  datatype Credential = Credential(
    id: Option<string>, issuer: string, subject: map<string, string>, context: seq<string>, types: seq<string>,
    issuanceDate: Option<Date>, expirationDate: Option<Date>, proof: Proof)

  /** A credential inside a presentation: still a JWT, or already parsed. */
  datatype Embedded = Jwt(text: string) | Parsed(credential: Credential)

  datatype Presentation = Presentation(
    id: Option<string>, holder: string, verifier: seq<string>, credentials: seq<Embedded>, context: seq<string>,
    types: seq<string>, issuanceDate: Option<Date>, expirationDate: Option<Date>, proof: Proof)

  datatype Message = Message(
    id: Option<string>, from: Option<string>, to: seq<string>, credentials: seq<Credential>,
    presentations: seq<Presentation>, data: string)

  /**
    Entry hashes, as injective terms. A claim's hash is that of its credential's hash followed by the claim type;
    the former has a fixed length, so the concatenation determines both.
   */
  datatype Hash =
    | OfText(text: string)
    | OfCredential(credential: Credential)
    | OfPresentation(presentation: Presentation)
    | OfClaim(credentialHash: Hash, claimType: string)

  datatype MessageId = Named(name: string) | OfMessage(message: Message)

  // ---------------------------------------------------------------- tables

  datatype CanonicalCredential = Compact(jwt: string) | Whole(credential: Credential)
  datatype CanonicalPresentation = CompactVp(jwt: string) | WholeVp(presentation: Presentation)

  datatype CredentialEntry = CredentialEntry(
    hash: Hash, id: Option<string>, parsed: Credential, canonical: CanonicalCredential, issuer: string,
    subject: Option<string>, issuanceDate: Option<Date>, expirationDate: Option<Date>, context: seq<string>,
    types: seq<string>)

  datatype ClaimEntry = ClaimEntry(
    hash: Hash, claimType: string, value: string, issuer: string, subject: Option<string>, issuanceDate: Option<Date>,
    expirationDate: Option<Date>, context: seq<string>, credentialType: seq<string>, credentialHash: Hash)

  datatype PresentationEntry = PresentationEntry(
    hash: Hash, id: Option<string>, parsed: Presentation, canonical: CanonicalPresentation, holder: string,
    verifier: seq<string>, issuanceDate: Option<Date>, expirationDate: Option<Date>, context: seq<string>,
    types: seq<string>, credentials: seq<Credential>)

  datatype DidEntry = DidEntry(did: string, provider: string, keys: seq<string>, services: seq<string>)

  /** A stored message: the saved one under its own id, or under its hash if it has none. */
  datatype MessageEntry = MessageEntry(id: MessageId, message: Message)

  datatype Tables = Tables(
    dids: map<string, DidEntry>, credentials: map<Hash, CredentialEntry>, presentations: map<Hash, PresentationEntry>,
    claims: map<Hash, ClaimEntry>, messages: map<MessageId, MessageEntry>)

  const EMPTY := Tables(map[], map[], map[], map[], map[])

  datatype Failure = UndecodableJwt

  // ---------------------------------------------------------------- entries

  function Canonical(vc: Credential): CanonicalCredential {
    if vc.proof.kind == "JwtProof2020" && vc.proof.jwt.Some? then Compact(vc.proof.jwt.value) else Whole(vc)
  }

  function EntryHash(vc: Credential): Hash {
    match Canonical(vc)
    case Compact(jwt) => OfText(jwt)
    case Whole(_) =>
      if vc.proof.jwt.Some? && vc.proof.jwt.value != "" then OfText(vc.proof.jwt.value) else OfCredential(vc)
  }

  function SubjectId(vc: Credential): Option<string> {
    if "id" in vc.subject then Some(vc.subject["id"]) else None
  }

  function EntryOf(vc: Credential): CredentialEntry {
    CredentialEntry(EntryHash(vc), vc.id, vc, Canonical(vc), vc.issuer, SubjectId(vc), vc.issuanceDate,
                    vc.expirationDate, vc.context, vc.types)
  }

  function ClaimTypes(vc: Credential): set<string> {
    vc.subject.Keys - {"id"}
  }

  function ClaimOf(vc: Credential, claimType: string): ClaimEntry
    requires claimType in ClaimTypes(vc)
  {
    ClaimEntry(OfClaim(EntryHash(vc), claimType), claimType, vc.subject[claimType], vc.issuer, SubjectId(vc),
               vc.issuanceDate, vc.expirationDate, vc.context, vc.types, EntryHash(vc))
  }

  function CanonicalVp(vp: Presentation): CanonicalPresentation {
    if vp.proof.kind == "JwtProof2020" && vp.proof.jwt.Some? then CompactVp(vp.proof.jwt.value) else WholeVp(vp)
  }

  function PresentationHash(vp: Presentation): Hash {
    match CanonicalVp(vp)
    case CompactVp(jwt) => OfText(jwt)
    case WholeVp(_) =>
      if vp.proof.jwt.Some? && vp.proof.jwt.value != "" then OfText(vp.proof.jwt.value) else OfPresentation(vp)
  }

  function MessageKey(message: Message): MessageId {
    if message.id.Some? && message.id.value != "" then Named(message.id.value) else OfMessage(message)
  }

  // ---------------------------------------------------------------- what each call does to the tables

  /** The claims a credential contributes, by hash. */
  function ClaimsOf(vc: Credential): map<Hash, ClaimEntry> {
    map t | t in ClaimTypes(vc) :: OfClaim(EntryHash(vc), t) := ClaimOf(vc, t)
  }

  function WithDid(dids: map<string, DidEntry>, did: string): map<string, DidEntry> {
    if did in dids then dids else dids[did := DidEntry(did, "", [], [])]
  }

  function WithOptionalDid(dids: map<string, DidEntry>, did: string): map<string, DidEntry> {
    if did == "" then dids else WithDid(dids, did)
  }

  function WithDids(dids: map<string, DidEntry>, more: seq<string>): map<string, DidEntry> {
    if more == [] then dids else WithDid(WithDids(dids, more[..|more| - 1]), more[|more| - 1])
  }

  function SaveCredential(s: Tables, vc: Credential): Tables {
    s.(credentials := s.credentials[EntryHash(vc) := EntryOf(vc)],
       claims := s.claims + ClaimsOf(vc),
       dids := WithOptionalDid(WithOptionalDid(s.dids, vc.issuer), OrEmpty(SubjectId(vc))))
  }

  function SaveCredentials(s: Tables, vcs: seq<Credential>): Tables {
    if vcs == [] then s else SaveCredential(SaveCredentials(s, vcs[..|vcs| - 1]), vcs[|vcs| - 1])
  }

  /** The hashes of the claims that belong to a credential. */
  function ClaimHashes(claims: map<Hash, ClaimEntry>, credentialHash: Hash): set<Hash> {
    set h | h in claims && claims[h].credentialHash == credentialHash :: claims[h].hash
  }

  function DeleteCredential(s: Tables, hash: Hash): Tables {
    if hash !in s.credentials then s
    else s.(credentials := s.credentials - {hash},
            claims := s.claims - ClaimHashes(s.claims, s.credentials[hash].hash))
  }

  /** `normalizeCredential`, which decodes a JWT or throws. */
  type Decoder = string -> Option<Credential>

  function DecodeOne(decode: Decoder, e: Embedded): Option<Credential> {
    match e case Parsed(vc) => Some(vc) case Jwt(text) => decode(text)
  }

  function DecodeAll(decode: Decoder, es: seq<Embedded>): Result<seq<Credential>, Failure> {
    if es == [] then Ok([])
    else
      var front :- DecodeAll(decode, es[..|es| - 1]);
      match DecodeOne(decode, es[|es| - 1])
      case Some(vc) => Ok(front + [vc])
      case None => Err(UndecodableJwt)
  }

  function PresentationEntryOf(vp: Presentation, vcs: seq<Credential>): PresentationEntry {
    PresentationEntry(PresentationHash(vp), vp.id, vp, CanonicalVp(vp), vp.holder, vp.verifier, vp.issuanceDate,
                      vp.expirationDate, vp.context, vp.types, vcs)
  }

  /** A presentation with an undecodable JWT is rejected before anything is written. */
  function SavePresentation(decode: Decoder, s: Tables, vp: Presentation): Result<Tables, Failure> {
    var vcs :- DecodeAll(decode, vp.credentials);
    var s1 := s.(presentations := s.presentations[PresentationHash(vp) := PresentationEntryOf(vp, vcs)]);
    var s2 := SaveCredentials(s1, vcs);
    Ok(s2.(dids := WithDids(WithOptionalDid(s2.dids, vp.holder), vp.verifier)))
  }

  /** Presentations saved in turn, up to the first that fails. */
  datatype Progress = Progress(tables: Tables, failed: bool)

  function SavePresentations(decode: Decoder, s: Tables, vps: seq<Presentation>): Progress {
    if vps == [] then Progress(s, false)
    else
      var front := SavePresentations(decode, s, vps[..|vps| - 1]);
      if front.failed then front
      else
        match SavePresentation(decode, front.tables, vps[|vps| - 1])
        case Ok(s') => Progress(s', false)
        case Err(_) => Progress(front.tables, true)
  }

  /** A message is written first, then what it carries; a failure leaves what was written so far. */
  function SaveMessage(decode: Decoder, s: Tables, message: Message): Progress {
    var id := MessageKey(message);
    var s1 := s.(messages := s.messages[id := MessageEntry(id, message)]);
    var p := SavePresentations(decode, SaveCredentials(s1, message.credentials), message.presentations);
    if p.failed then p
    else p.(tables := p.tables.(dids :=
              WithDids(WithOptionalDid(p.tables.dids, OrEmpty(message.from)), message.to)))
  }

  // ---------------------------------------------------------------- the store

  datatype Notification = Notification(oldState: Tables, newState: Tables)

  ghost predicate AmongFirst(found: seq<ClaimEntry>, n: nat, h: Hash)
    requires n <= |found|
  {
    exists j | 0 <= j < n :: found[j].hash == h
  }

  class DataStoreJson {
    const decode: Decoder
    var dids: map<string, DidEntry>
    var credentials: map<Hash, CredentialEntry>
    var presentations: map<Hash, PresentationEntry>
    var claims: map<Hash, ClaimEntry>
    var messages: map<MessageId, MessageEntry>
    /** The calls of `notifyUpdate`, each with copies of the tables before and after. */
    var notifications: seq<Notification>

    constructor (decode: Decoder, tables: Tables)
      ensures this.decode == decode && CacheTree() == tables && notifications == []
    {
      this.decode := decode;
      dids, credentials, presentations, claims, messages :=
        tables.dids, tables.credentials, tables.presentations, tables.claims, tables.messages;
      notifications := [];
    }

    function CacheTree(): Tables
      reads this
    {
      Tables(dids, credentials, presentations, claims, messages)
    }

    method NotifyUpdate(oldTree: Tables)
      modifies this`notifications
      ensures notifications == old(notifications) + [Notification(oldTree, CacheTree())]
    {
      notifications := notifications + [Notification(oldTree, CacheTree())];
    }

    method AddDid(did: string)
      modifies this`dids
      ensures dids == WithDid(old(dids), did)
    {
      if did !in dids {
        dids := dids[did := DidEntry(did, "", [], [])];
      }
    }

    /** A missing or empty DID is not added. */
    method AddOptionalDid(did: string)
      modifies this`dids
      ensures dids == WithOptionalDid(old(dids), did)
    {
      if did != "" {
        AddDid(did);
      }
    }

    method AddDids(more: seq<string>)
      modifies this`dids
      ensures dids == WithDids(old(dids), more)
    {
      for i := 0 to |more|
        invariant dids == WithDids(old(dids), more[..i])
      {
        AddDid(more[i]);
        assert more[..i + 1][..i] == more[..i];
      }
      assert more[..|more|] == more;
    }

    /** The loop over `credentialSubject`; JavaScript's key order does not matter to the table. */
    method CollectClaims(vc: Credential) returns (found: seq<ClaimEntry>)
      ensures forall c | c in found :: c.hash in ClaimsOf(vc) && ClaimsOf(vc)[c.hash] == c
      ensures forall h | h in ClaimsOf(vc) :: ClaimsOf(vc)[h].hash == h && ClaimsOf(vc)[h] in found
    {
      found := [];
      var rest := vc.subject.Keys;
      while rest != {}
        invariant rest <= vc.subject.Keys
        invariant forall c | c in found :: c.claimType in ClaimTypes(vc) && c == ClaimOf(vc, c.claimType)
        invariant forall t | t in ClaimTypes(vc) - rest :: ClaimOf(vc, t) in found
        decreases rest
      {
        var claimType :| claimType in rest;
        rest := rest - {claimType};
        if claimType != "id" {
          found := found + [ClaimOf(vc, claimType)];
        }
      }
      assert forall h | h in ClaimsOf(vc) :: ClaimsOf(vc)[h] == ClaimOf(vc, h.claimType);
    }

    method PutClaims(found: seq<ClaimEntry>, ghost index: map<Hash, ClaimEntry>)
      requires forall c | c in found :: c.hash in index && index[c.hash] == c
      requires forall h | h in index :: index[h].hash == h && index[h] in found
      modifies this`claims
      ensures claims == old(claims) + index
    {
      for i := 0 to |found|
        invariant forall h :: h in claims <==> h in old(claims) || AmongFirst(found, i, h)
        invariant forall h | h in claims ::
          claims[h] == if AmongFirst(found, i, h) then index[h] else old(claims)[h]
      {
        assert found[i] in found;
        assert forall h :: AmongFirst(found, i + 1, h) <==> AmongFirst(found, i, h) || found[i].hash == h;
        claims := claims[found[i].hash := found[i]];
      }
      assert forall h | h in index :: AmongFirst(found, |found|, h);
    }

    method SaveVerifiableCredential(vc: Credential, postUpdates: bool) returns (hash: Hash)
      modifies this
      ensures CacheTree() == SaveCredential(old(CacheTree()), vc) && hash == EntryHash(vc)
      ensures notifications ==
              old(notifications) + if postUpdates then [Notification(old(CacheTree()), CacheTree())] else []
    {
      hide ClaimsOf, EntryOf, EntryHash, WithOptionalDid, SubjectId, OrEmpty;
      hash := EntryHash(vc);
      var found := CollectClaims(vc);
      var oldTree := CacheTree();
      credentials := credentials[hash := EntryOf(vc)];
      PutClaims(found, ClaimsOf(vc));
      AddOptionalDid(vc.issuer);
      AddOptionalDid(OrEmpty(SubjectId(vc)));
      if postUpdates {
        NotifyUpdate(oldTree);
      }
    }

    method DeleteVerifiableCredential(hash: Hash) returns (deleted: bool)
      modifies this
      ensures deleted == (hash in old(credentials))
      ensures CacheTree() == DeleteCredential(old(CacheTree()), hash)
      ensures notifications ==
              old(notifications) + if deleted then [Notification(old(CacheTree()), CacheTree())] else []
    {
      if hash !in credentials {
        return false;
      }
      var doomed := ClaimHashes(claims, credentials[hash].hash);
      var oldTree := CacheTree();
      credentials := credentials - {hash};
      var rest := doomed;
      while rest != {}
        invariant rest <= doomed
        invariant claims == oldTree.claims - (doomed - rest)
        invariant credentials == oldTree.credentials - {hash}
        invariant unchanged(`dids) && unchanged(`presentations) && unchanged(`messages) && unchanged(`notifications)
        decreases rest
      {
        var claimHash :| claimHash in rest;
        claims := claims - {claimHash};
        rest := rest - {claimHash};
      }
      NotifyUpdate(oldTree);
      return true;
    }

    method Decode(es: seq<Embedded>) returns (r: Result<seq<Credential>, Failure>)
      ensures r == DecodeAll(decode, es)
    {
      var vcs: seq<Credential> := [];
      for i := 0 to |es|
        invariant DecodeAll(decode, es[..i]) == Ok(vcs)
      {
        assert es[..i + 1][..i] == es[..i];
        var vc := DecodeOne(decode, es[i]);
        if vc.None? {
          DecodeStops(decode, es, i + 1);
          return Err(UndecodableJwt);
        }
        vcs := vcs + [vc.value];
      }
      assert es[..|es|] == es;
      return Ok(vcs);
    }

    method SaveAll(vcs: seq<Credential>)
      modifies this
      ensures CacheTree() == SaveCredentials(old(CacheTree()), vcs) && notifications == old(notifications)
    {
      for i := 0 to |vcs|
        invariant CacheTree() == SaveCredentials(old(CacheTree()), vcs[..i]) && notifications == old(notifications)
      {
        var _ := SaveVerifiableCredential(vcs[i], false);
        assert vcs[..i + 1][..i] == vcs[..i];
      }
      assert vcs[..|vcs|] == vcs;
    }

    method SaveVerifiablePresentation(vp: Presentation, postUpdates: bool) returns (r: Result<Hash, Failure>)
      modifies this
      ensures r == match SavePresentation(decode, old(CacheTree()), vp)
                   case Ok(_) => Ok(PresentationHash(vp)) case Err(e) => Err(e)
      ensures r.Ok? ==> Ok(CacheTree()) == SavePresentation(decode, old(CacheTree()), vp)
      ensures r.Err? ==> CacheTree() == old(CacheTree())
      ensures notifications == old(notifications)
              + if postUpdates && r.Ok? then [Notification(old(CacheTree()), CacheTree())] else []
    {
      var hash := PresentationHash(vp);
      var vcs :- Decode(vp.credentials);
      var oldTree := CacheTree();
      presentations := presentations[hash := PresentationEntryOf(vp, vcs)];
      SaveAll(vcs);
      AddOptionalDid(vp.holder);
      AddDids(vp.verifier);
      if postUpdates {
        NotifyUpdate(oldTree);
      }
      return Ok(hash);
    }

    method SaveAllPresentations(vps: seq<Presentation>) returns (failed: bool)
      modifies this
      ensures Progress(CacheTree(), failed) == SavePresentations(decode, old(CacheTree()), vps)
      ensures notifications == old(notifications)
    {
      hide SavePresentation;
      for i := 0 to |vps|
        invariant SavePresentations(decode, old(CacheTree()), vps[..i]) == Progress(CacheTree(), false)
        invariant notifications == old(notifications)
      {
        assert vps[..i + 1][..i] == vps[..i];
        var hash := SaveVerifiablePresentation(vps[i], false);
        if hash.Err? {
          SaveStops(decode, old(CacheTree()), vps, i + 1);
          return true;
        }
      }
      assert vps[..|vps|] == vps;
      return false;
    }

    method SaveMessageWithContents(message: Message) returns (r: Result<MessageId, Failure>)
      modifies this
      ensures var p := SaveMessage(decode, old(CacheTree()), message);
              && CacheTree() == p.tables
              && r == (if p.failed then Err(UndecodableJwt) else Ok(MessageKey(message)))
      ensures notifications ==
              old(notifications) + if r.Ok? then [Notification(old(CacheTree()), CacheTree())] else []
    {
      hide SavePresentations, SaveCredentials;
      var id := MessageKey(message);
      var oldTree := CacheTree();
      messages := messages[id := MessageEntry(id, message)];
      SaveAll(message.credentials);
      var failed := SaveAllPresentations(message.presentations);
      if failed {
        return Err(UndecodableJwt);
      }
      AddOptionalDid(OrEmpty(message.from));
      AddDids(message.to);
      NotifyUpdate(oldTree);
      return Ok(id);
    }

    method DeleteMessage(id: MessageId) returns (deleted: bool)
      modifies this
      ensures deleted == (id in old(messages))
      ensures CacheTree() == old(CacheTree()).(messages := old(messages) - {id})
      ensures notifications ==
              old(notifications) + if deleted then [Notification(old(CacheTree()), CacheTree())] else []
    {
      if id in messages {
        var oldTree := CacheTree();
        messages := messages - {id};
        NotifyUpdate(oldTree);
        return true;
      }
      assert messages - {id} == messages;
      return false;
    }
  }

  lemma {:induction false} DecodeStops(decode: Decoder, es: seq<Embedded>, n: nat)
    requires n <= |es| && DecodeAll(decode, es[..n]) == Err(UndecodableJwt)
    ensures DecodeAll(decode, es) == Err(UndecodableJwt)
  {
    if n < |es| {
      assert es[..|es| - 1][..n] == es[..n];
      DecodeStops(decode, es[..|es| - 1], n);
    } else {
      assert es[..n] == es;
    }
  }

  lemma {:induction false} SaveStops(decode: Decoder, s: Tables, vps: seq<Presentation>, n: nat)
    requires n <= |vps| && SavePresentations(decode, s, vps[..n]).failed
    ensures SavePresentations(decode, s, vps) == SavePresentations(decode, s, vps[..n])
  {
    if n < |vps| {
      assert vps[..|vps| - 1][..n] == vps[..n];
      SaveStops(decode, s, vps[..|vps| - 1], n);
    } else {
      assert vps[..n] == vps;
    }
  }
}
