/** What the JSON store's tables hold after saves and deletes, read off the documents. */
module StoreMeaning {
  import opened Results
  import opened Strings
  import opened JsonStore

  // ---------------------------------------------------------------- what identifies a document

  /** The JWT a document is identified by: that of a JWT proof, or else any that is not empty. */
  function Identifying(proof: Proof): Option<string> {
    if proof.kind == "JwtProof2020" || proof.jwt != Some("") then proof.jwt else None
  }

  /** Two credentials are one entry exactly when they are the same or carry the same identifying JWT. */
  lemma SameCredentialIff(a: Credential, b: Credential)
    ensures EntryHash(a) == EntryHash(b) <==>
            a == b || (Identifying(a.proof).Some? && Identifying(a.proof) == Identifying(b.proof))
  {
  }

  lemma SamePresentationIff(a: Presentation, b: Presentation)
    ensures PresentationHash(a) == PresentationHash(b) <==>
            a == b || (Identifying(a.proof).Some? && Identifying(a.proof) == Identifying(b.proof))
  {
  }

  /** Two messages are one entry exactly when they are the same or have the same id, which is not empty. */
  lemma SameMessageIff(a: Message, b: Message)
    ensures MessageKey(a) == MessageKey(b) <==> a == b || (OrEmpty(a.id) != "" && a.id == b.id)
  {
  }

  // ---------------------------------------------------------------- DIDs

  /** `after` is `before` with an empty entry for each of those DIDs that it lacks. */
  ghost predicate Introduces(before: map<string, DidEntry>, dids: set<string>, after: map<string, DidEntry>) {
    && after.Keys == before.Keys + dids
    && (forall did | did in before :: after[did] == before[did])
    && (forall did | did in after && did !in before :: after[did] == DidEntry(did, "", [], []))
  }

  lemma IntroducesMore(a: map<string, DidEntry>, b: map<string, DidEntry>, c: map<string, DidEntry>, x: set<string>,
                       y: set<string>)
    requires Introduces(a, x, b) && Introduces(b, y, c)
    ensures Introduces(a, x + y, c)
  {
  }

  function Among(dids: seq<string>): set<string> {
    set did | did in dids
  }

  function Proper(did: string): set<string> {
    if did == "" then {} else {did}
  }

  lemma OptionalDidIntroduced(dids: map<string, DidEntry>, did: string)
    ensures Introduces(dids, Proper(did), WithOptionalDid(dids, did))
  {
  }

  lemma {:induction false} DidsIntroduced(dids: map<string, DidEntry>, more: seq<string>)
    ensures Introduces(dids, Among(more), WithDids(dids, more))
  {
    if more != [] {
      var front, last := more[..|more| - 1], more[|more| - 1];
      assert more == front + [last];
      DidsIntroduced(dids, front);
      IntroducesMore(dids, WithDids(dids, front), WithDids(dids, more), Among(front), {last});
      assert Among(more) == Among(front) + {last};
    }
  }

  // ---------------------------------------------------------------- credentials

  /** The DID a credential is about. */
  function About(vc: Credential): Option<string> {
    if "id" in vc.subject.Keys then Some(vc.subject["id"]) else None
  }

  predicate Describes(e: CredentialEntry, hash: Hash, vc: Credential) {
    && e.hash == hash && e.parsed == vc && e.id == vc.id && e.issuer == vc.issuer && e.subject == About(vc)
    && e.issuanceDate == vc.issuanceDate && e.expirationDate == vc.expirationDate
    && e.context == vc.context && e.types == vc.types
    && e.canonical == if vc.proof.kind == "JwtProof2020" && vc.proof.jwt.Some? then Compact(vc.proof.jwt.value)
                      else Whole(vc)
  }

  predicate Claims(c: ClaimEntry, hash: Hash, vc: Credential, claimType: string)
    requires claimType in vc.subject
  {
    && c.hash == OfClaim(hash, claimType) && c.credentialHash == hash
    && c.claimType == claimType && c.value == vc.subject[claimType]
    && c.issuer == vc.issuer && c.subject == About(vc)
    && c.issuanceDate == vc.issuanceDate && c.expirationDate == vc.expirationDate
    && c.context == vc.context && c.credentialType == vc.types
  }

  /** The claim belongs to that credential: one for each member of its subject but the id. */
  predicate OwnClaim(h: Hash, hash: Hash, vc: Credential) {
    h.OfClaim? && h.credentialHash == hash && h.claimType in vc.subject && h.claimType != "id"
  }

  /** `after` is `before` with the claims of that credential put in, in place of those stored under their hashes. */
  ghost predicate AddsClaims(before: map<Hash, ClaimEntry>, hash: Hash, vc: Credential, after: map<Hash, ClaimEntry>) {
    && (forall t | t in vc.subject && t != "id" ::
          OfClaim(hash, t) in after && Claims(after[OfClaim(hash, t)], hash, vc, t))
    && (forall h :: h in after && !OwnClaim(h, hash, vc) <==> h in before && !OwnClaim(h, hash, vc))
    && (forall h | h in before && !OwnClaim(h, hash, vc) :: after[h] == before[h])
  }

  lemma ClaimsAdded(claims: map<Hash, ClaimEntry>, vc: Credential)
    ensures AddsClaims(claims, EntryHash(vc), vc, claims + ClaimsOf(vc))
  {
    hide EntryHash;
    var after := claims + ClaimsOf(vc);
    forall t | t in vc.subject && t != "id"
      ensures OfClaim(EntryHash(vc), t) in after && Claims(after[OfClaim(EntryHash(vc), t)], EntryHash(vc), vc, t)
    {
      assert t in ClaimTypes(vc);
      assert OfClaim(EntryHash(vc), t) in ClaimsOf(vc);
    }
    assert forall h :: h in ClaimsOf(vc) <==> OwnClaim(h, EntryHash(vc), vc);
  }

  /** `after` holds that value for the key, and what `before` holds for all others. */
  ghost predicate Puts<K, V>(before: map<K, V>, key: K, after: map<K, V>) {
    after.Keys == before.Keys + {key} && forall k | k in before && k != key :: after[k] == before[k]
  }

  lemma DescribedByEntry(vc: Credential)
    ensures Describes(EntryOf(vc), EntryHash(vc), vc)
  {
    hide EntryHash;
  }

  lemma MentionedDids(s: Tables, vc: Credential)
    ensures Introduces(s.dids, Proper(vc.issuer) + Proper(OrEmpty(About(vc))), SaveCredential(s, vc).dids)
  {
    var d := WithOptionalDid(s.dids, vc.issuer);
    OptionalDidIntroduced(s.dids, vc.issuer);
    OptionalDidIntroduced(d, OrEmpty(SubjectId(vc)));
    hide EntryHash, EntryOf, ClaimsOf, WithOptionalDid, Introduces;
    IntroducesMore(s.dids, d, SaveCredential(s, vc).dids, Proper(vc.issuer), Proper(OrEmpty(About(vc))));
  }

  /** A saved credential: its own entry, a claim for each member of its subject but the id, and the DIDs it mentions. */
  lemma CredentialSaved(s: Tables, vc: Credential) returns (hash: Hash)
    ensures hash == EntryHash(vc)
    ensures var after := SaveCredential(s, vc);
      && after.messages == s.messages && after.presentations == s.presentations
      && Puts(s.credentials, hash, after.credentials) && Describes(after.credentials[hash], hash, vc)
      && AddsClaims(s.claims, hash, vc, after.claims)
      && Introduces(s.dids, Proper(vc.issuer) + Proper(OrEmpty(About(vc))), after.dids)
  {
    hash := EntryHash(vc);
    DescribedByEntry(vc);
    ClaimsAdded(s.claims, vc);
    MentionedDids(s, vc);
    hide EntryHash, EntryOf, ClaimsOf, WithOptionalDid, Introduces, AddsClaims, Describes;
  }

  /** The last of the credentials that belong to an entry. */
  function LastWith(vcs: seq<Credential>, h: Hash): Option<Credential> {
    if vcs == [] then None
    else if EntryHash(vcs[|vcs| - 1]) == h then Some(vcs[|vcs| - 1])
    else LastWith(vcs[..|vcs| - 1], h)
  }

  /** Of several credentials saved in turn the last one for an entry stays. */
  lemma {:induction false} LastCredentialStays(s: Tables, vcs: seq<Credential>, h: Hash)
    ensures var after := SaveCredentials(s, vcs).credentials;
      match LastWith(vcs, h)
      case Some(vc) => h in after && after[h].parsed == vc
      case None => (h in after <==> h in s.credentials) && (h in after ==> after[h] == s.credentials[h])
  {
    hide EntryHash, SaveCredential;
    if vcs != [] {
      var last := |vcs| - 1;
      LastCredentialStays(s, vcs[..last], h);
      var hash := CredentialSaved(SaveCredentials(s, vcs[..last]), vcs[last]);
    }
  }

  /** The claim is one of those that go with a credential. */
  ghost predicate GoesWith(s: Tables, hash: Hash, h: Hash) {
    && hash in s.credentials
    && exists g | g in s.claims :: s.claims[g].hash == h && s.claims[g].credentialHash == s.credentials[hash].hash
  }

  /** A deleted credential is gone with the claims of its hash; everything else stays. */
  lemma CredentialDeleted(s: Tables, hash: Hash)
    ensures var after := DeleteCredential(s, hash);
      && after.messages == s.messages && after.presentations == s.presentations && after.dids == s.dids
      && (forall h :: h in after.credentials <==> h in s.credentials && h != hash)
      && (forall h | h in after.credentials :: after.credentials[h] == s.credentials[h])
      && (forall h :: h in after.claims <==> h in s.claims && !GoesWith(s, hash, h))
      && (forall h | h in after.claims :: after.claims[h] == s.claims[h])
  {
  }

  // ---------------------------------------------------------------- presentations and messages

  /** The parsed credential, or what the JWT decodes to. */
  predicate Stands(decode: Decoder, e: Embedded, vc: Credential) {
    match e case Parsed(own) => own == vc case Jwt(text) => decode(text) == Some(vc)
  }

  predicate InTurn(decode: Decoder, es: seq<Embedded>, vcs: seq<Credential>) {
    |vcs| == |es| && forall i | 0 <= i < |vcs| :: Stands(decode, es[i], vcs[i])
  }

  lemma InTurnSnoc(decode: Decoder, es: seq<Embedded>, last: nat, vcs: seq<Credential>, vc: Credential)
    requires last + 1 == |es| && InTurn(decode, es[..last], vcs) && Stands(decode, es[last], vc)
    ensures InTurn(decode, es, vcs + [vc])
  {
    hide Stands;
    forall i | 0 <= i < |es| ensures Stands(decode, es[i], (vcs + [vc])[i]) {
      if i < last { assert es[..last][i] == es[i]; }
    }
  }

  lemma {:induction false} DecodedInTurn(decode: Decoder, es: seq<Embedded>)
    ensures DecodeAll(decode, es).Ok? <==> forall e | e in es && e.Jwt? :: decode(e.text).Some?
    ensures DecodeAll(decode, es).Ok? ==> InTurn(decode, es, DecodeAll(decode, es).value)
  {
    hide InTurn;
    if es == [] {
      assert InTurn(decode, [], []) by { InTurnNone(decode); }
    } else {
      var last := |es| - 1;
      DecodedInTurn(decode, es[..last]);
      assert es == es[..last] + [es[last]];
      if DecodeAll(decode, es[..last]).Ok? && DecodeOne(decode, es[last]).Some? {
        InTurnSnoc(decode, es, last, DecodeAll(decode, es[..last]).value, DecodeOne(decode, es[last]).value);
      }
    }
  }

  lemma InTurnNone(decode: Decoder)
    ensures InTurn(decode, [], [])
  {
  }

  predicate Presents(e: PresentationEntry, hash: Hash, vp: Presentation, vcs: seq<Credential>) {
    && e.hash == hash && e.parsed == vp && e.id == vp.id && e.holder == vp.holder && e.verifier == vp.verifier
    && e.issuanceDate == vp.issuanceDate && e.expirationDate == vp.expirationDate
    && e.context == vp.context && e.types == vp.types && e.credentials == vcs
    && e.canonical == if vp.proof.kind == "JwtProof2020" && vp.proof.jwt.Some? then CompactVp(vp.proof.jwt.value)
                      else WholeVp(vp)
  }

  lemma {:induction false} CredentialsKeepOthers(s: Tables, vcs: seq<Credential>)
    ensures SaveCredentials(s, vcs).presentations == s.presentations
    ensures SaveCredentials(s, vcs).messages == s.messages
  {
    if vcs != [] {
      CredentialsKeepOthers(s, vcs[..|vcs| - 1]);
    }
  }

  lemma PresentedByEntry(vp: Presentation, vcs: seq<Credential>)
    ensures Presents(PresentationEntryOf(vp, vcs), PresentationHash(vp), vp, vcs)
  {
    hide PresentationHash;
  }

  lemma PresentedDids(dids: map<string, DidEntry>, did: string, more: seq<string>)
    ensures Introduces(dids, Proper(did) + Among(more), WithDids(WithOptionalDid(dids, did), more))
  {
    hide *;
    var d := WithOptionalDid(dids, did);
    OptionalDidIntroduced(dids, did);
    DidsIntroduced(d, more);
    IntroducesMore(dids, d, WithDids(d, more), Proper(did), Among(more));
  }

  /** What saving a presentation does, once its credentials are decoded. */
  lemma PresentationParts(decode: Decoder, s: Tables, vp: Presentation) returns (vcs: seq<Credential>)
    requires SavePresentation(decode, s, vp).Ok?
    ensures DecodeAll(decode, vp.credentials) == Ok(vcs)
    ensures var after, s2 := SavePresentation(decode, s, vp).value, SaveCredentials(s, vcs);
      && after.presentations == s.presentations[PresentationHash(vp) := PresentationEntryOf(vp, vcs)]
      && after.messages == s.messages && after.credentials == s2.credentials && after.claims == s2.claims
      && after.dids == WithDids(WithOptionalDid(s2.dids, vp.holder), vp.verifier)
  {
    hide PresentationHash, PresentationEntryOf, SaveCredentials, DecodeAll, WithDids, WithOptionalDid;
    vcs := DecodeAll(decode, vp.credentials).value;
    var presentations := s.presentations[PresentationHash(vp) := PresentationEntryOf(vp, vcs)];
    CredentialsKeepOthers(s, vcs);
    OnlyPresentationsDiffer(s, presentations, vcs);
  }

  /** A saved presentation: its entry with its credentials decoded, these saved in turn, and the DIDs it mentions. */
  lemma PresentationSaved(decode: Decoder, s: Tables, vp: Presentation) returns (vcs: seq<Credential>)
    requires SavePresentation(decode, s, vp).Ok?
    ensures var after, hash := SavePresentation(decode, s, vp).value, PresentationHash(vp);
      && InTurn(decode, vp.credentials, vcs)
      && Puts(s.presentations, hash, after.presentations) && Presents(after.presentations[hash], hash, vp, vcs)
      && after.messages == s.messages
      && after.credentials == SaveCredentials(s, vcs).credentials && after.claims == SaveCredentials(s, vcs).claims
      && Introduces(SaveCredentials(s, vcs).dids, Proper(vp.holder) + Among(vp.verifier), after.dids)
  {
    hide PresentationHash, PresentationEntryOf, SaveCredentials, SavePresentation, DecodeAll, Introduces, WithDids,
         WithOptionalDid, InTurn, Presents, Stands;
    DecodedInTurn(decode, vp.credentials);
    vcs := PresentationParts(decode, s, vp);
    PresentedByEntry(vp, vcs);
    PresentedDids(SaveCredentials(s, vcs).dids, vp.holder, vp.verifier);
  }

  lemma {:induction false} OnlyPresentationsDiffer(s: Tables, presentations: map<Hash, PresentationEntry>,
                                                  vcs: seq<Credential>)
    ensures SaveCredentials(s.(presentations := presentations), vcs)
            == SaveCredentials(s, vcs).(presentations := presentations)
  {
    hide EntryHash, EntryOf, ClaimsOf, WithOptionalDid, SubjectId;
    if vcs != [] {
      OnlyPresentationsDiffer(s, presentations, vcs[..|vcs| - 1]);
    }
  }

  /** A saved message that could be read: its own entry, then its contents saved in turn, then the DIDs it mentions. */
  lemma MessageSaved(decode: Decoder, s: Tables, message: Message)
    requires !SaveMessage(decode, s, message).failed
    ensures var after, key := SaveMessage(decode, s, message).tables, MessageKey(message);
      var contents := SavePresentations(decode, SaveCredentials(s, message.credentials), message.presentations);
      && !contents.failed
      && after.messages == s.messages[key := MessageEntry(key, message)]
      && after.credentials == contents.tables.credentials && after.claims == contents.tables.claims
      && after.presentations == contents.tables.presentations
      && Introduces(contents.tables.dids, Proper(OrEmpty(message.from)) + Among(message.to), after.dids)
  {
    var key := MessageKey(message);
    var messages := s.messages[key := MessageEntry(key, message)];
    CredentialsBesideMessages(s, messages, message.credentials);
    CredentialsKeepOthers(s, message.credentials);
    var s2 := SaveCredentials(s, message.credentials);
    PresentationsBesideMessages(decode, s2, messages, message.presentations);
    var p := SavePresentations(decode, s2, message.presentations);
    PresentedDids(p.tables.dids, OrEmpty(message.from), message.to);
    hide MessageKey, SaveCredentials, SavePresentations, Introduces, WithDids, WithOptionalDid;
  }

  lemma {:induction false} CredentialsBesideMessages(s: Tables, messages: map<MessageId, MessageEntry>,
                                                    vcs: seq<Credential>)
    ensures SaveCredentials(s.(messages := messages), vcs) == SaveCredentials(s, vcs).(messages := messages)
  {
    hide EntryHash, EntryOf, ClaimsOf, WithOptionalDid, SubjectId;
    if vcs != [] {
      CredentialsBesideMessages(s, messages, vcs[..|vcs| - 1]);
    }
  }

  lemma {:induction false} PresentationsBesideMessages(decode: Decoder, s: Tables,
                                                      messages: map<MessageId, MessageEntry>, vps: seq<Presentation>)
    ensures var p, q := SavePresentations(decode, s, vps), SavePresentations(decode, s.(messages := messages), vps);
      p.failed == q.failed && q.tables == p.tables.(messages := messages) && p.tables.messages == s.messages
  {
    hide SavePresentation;
    if vps != [] {
      var last := |vps| - 1;
      PresentationsBesideMessages(decode, s, messages, vps[..last]);
      PresentationBesideMessages(decode, SavePresentations(decode, s, vps[..last]).tables, messages, vps[last]);
    }
  }

  lemma PresentationBesideMessages(decode: Decoder, s: Tables, messages: map<MessageId, MessageEntry>, vp: Presentation)
    ensures var p, q := SavePresentation(decode, s, vp), SavePresentation(decode, s.(messages := messages), vp);
      && (p.Ok? <==> q.Ok?)
      && (p.Ok? ==> q.value == p.value.(messages := messages) && p.value.messages == s.messages)
  {
    if SavePresentation(decode, s, vp).Ok? {
      var vcs := DecodeAll(decode, vp.credentials).value;
      var s1 := s.(presentations := s.presentations[PresentationHash(vp) := PresentationEntryOf(vp, vcs)]);
      CredentialsBesideMessages(s1, messages, vcs);
      CredentialsKeepOthers(s1, vcs);
      hide SaveCredentials, PresentationHash, PresentationEntryOf, DecodeAll, WithDids, WithOptionalDid;
    }
  }

  // ---------------------------------------------------------------- several presentations

  /** Every credential of the presentation can be decoded. */
  ghost predicate Readable(decode: Decoder, vp: Presentation) {
    forall e | e in vp.credentials && e.Jwt? :: decode(e.text).Some?
  }

  /** The last of the presentations that belong to an entry. */
  function LastPresented(vps: seq<Presentation>, h: Hash): Option<Presentation> {
    if vps == [] then None
    else if PresentationHash(vps[|vps| - 1]) == h then Some(vps[|vps| - 1])
    else LastPresented(vps[..|vps| - 1], h)
  }

  /** The credentials of some presentations, decoded and one after the other. */
  ghost predicate Nested(decode: Decoder, vps: seq<Presentation>, vcs: seq<Credential>) {
    if vps == [] then vcs == []
    else
      exists n | 0 <= n <= |vcs| ::
        Nested(decode, vps[..|vps| - 1], vcs[..n]) && InTurn(decode, vps[|vps| - 1].credentials, vcs[n..])
  }

  lemma NestedSnoc(decode: Decoder, vps: seq<Presentation>, last: nat, vcs: seq<Credential>, more: seq<Credential>)
    requires last + 1 == |vps| && Nested(decode, vps[..last], vcs) && InTurn(decode, vps[last].credentials, more)
    ensures Nested(decode, vps, vcs + more)
  {
    hide InTurn;
    assert (vcs + more)[..|vcs|] == vcs && (vcs + more)[|vcs|..] == more;
  }

  lemma {:induction false} CredentialsInTurn(s: Tables, a: seq<Credential>, b: seq<Credential>)
    ensures SaveCredentials(s, a + b) == SaveCredentials(SaveCredentials(s, a), b)
  {
    hide SaveCredential;
    if b == [] {
      assert a + b == a;
    } else {
      var last := |b| - 1;
      assert (a + b)[..|a + b| - 1] == a + b[..last];
      CredentialsInTurn(s, a, b[..last]);
    }
  }

  /** Saving credentials looks at and changes three tables, of which the first two go by themselves. */
  lemma {:induction false} CredentialsByThemselves(s: Tables, t: Tables, vcs: seq<Credential>)
    requires s.credentials == t.credentials && s.claims == t.claims
    ensures SaveCredentials(s, vcs).credentials == SaveCredentials(t, vcs).credentials
    ensures SaveCredentials(s, vcs).claims == SaveCredentials(t, vcs).claims
  {
    hide EntryHash, EntryOf, ClaimsOf, WithOptionalDid, SubjectId;
    if vcs != [] {
      CredentialsByThemselves(s, t, vcs[..|vcs| - 1]);
    }
  }

  /** Saving presentations in turn fails exactly when one of them cannot be read. */
  lemma {:induction false} PresentationsReadable(decode: Decoder, s: Tables, vps: seq<Presentation>)
    ensures !SavePresentations(decode, s, vps).failed <==> forall vp | vp in vps :: Readable(decode, vp)
  {
    hide SavePresentation, Readable;
    if vps != [] {
      var last := |vps| - 1;
      PresentationsReadable(decode, s, vps[..last]);
      OneMorePresentation(decode, SavePresentations(decode, s, vps[..last]).tables, vps[last]);
      assert vps == vps[..last] + [vps[last]];
    }
  }

  lemma SavedUpTo(decode: Decoder, s: Tables, vps: seq<Presentation>, last: nat)
    requires last + 1 == |vps| && !SavePresentations(decode, s, vps).failed
    ensures var front := SavePresentations(decode, s, vps[..last]);
      !front.failed && SavePresentation(decode, front.tables, vps[last]) == Ok(SavePresentations(decode, s, vps).tables)
  {
    hide SavePresentation;
  }

  /** Their credentials are saved as if one after the other. */
  lemma {:induction false} NestedSaved(decode: Decoder, s: Tables, vps: seq<Presentation>)
    returns (vcs: seq<Credential>)
    requires !SavePresentations(decode, s, vps).failed
    ensures Nested(decode, vps, vcs)
    ensures var after := SavePresentations(decode, s, vps).tables;
      && after.messages == s.messages
      && after.credentials == SaveCredentials(s, vcs).credentials && after.claims == SaveCredentials(s, vcs).claims
  {
    if vps == [] {
      vcs := [];
    } else {
      hide SavePresentation, SavePresentations, PresentationHash, SaveCredentials, Nested, InTurn;
      var last := |vps| - 1;
      SavedUpTo(decode, s, vps, last);
      vcs := NestedSaved(decode, s, vps[..last]);
      var front := SavePresentations(decode, s, vps[..last]).tables;
      var more := PresentationSaved(decode, front, vps[last]);
      NestedSnoc(decode, vps, last, vcs, more);
      CredentialsInTurn(s, vcs, more);
      CredentialsByThemselves(front, SaveCredentials(s, vcs), more);
      vcs := vcs + more;
    }
  }

  /** Of several presentations saved in turn the last one for an entry stays. */
  lemma {:induction false} LastPresentationStays(decode: Decoder, s: Tables, vps: seq<Presentation>, h: Hash)
    requires !SavePresentations(decode, s, vps).failed
    ensures var after := SavePresentations(decode, s, vps).tables.presentations;
      match LastPresented(vps, h)
      case Some(vp) => h in after && after[h].parsed == vp
      case None => (h in after <==> h in s.presentations) && (h in after ==> after[h] == s.presentations[h])
  {
    hide SavePresentation, PresentationHash, SaveCredentials, InTurn;
    if vps != [] {
      var last := |vps| - 1;
      SavedUpTo(decode, s, vps, last);
      LastPresentationStays(decode, s, vps[..last], h);
      hide SavePresentations;
      var more := PresentationSaved(decode, SavePresentations(decode, s, vps[..last]).tables, vps[last]);
    }
  }

  lemma OneMorePresentation(decode: Decoder, s: Tables, vp: Presentation)
    ensures SavePresentation(decode, s, vp).Ok? <==> Readable(decode, vp)
  {
    DecodedInTurn(decode, vp.credentials);
  }

  /** A message that cannot be read leaves itself, its credentials, and its presentations up to the unreadable one. */
  lemma UnreadableMessageLeft(decode: Decoder, s: Tables, message: Message, i: nat)
    requires i < |message.presentations| && !Readable(decode, message.presentations[i])
    requires forall j | 0 <= j < i :: Readable(decode, message.presentations[j])
    ensures SaveMessage(decode, s, message).failed
    ensures var after, key := SaveMessage(decode, s, message).tables, MessageKey(message);
      var contents := SavePresentations(decode, SaveCredentials(s, message.credentials), message.presentations[..i]);
      && !contents.failed
      && after == contents.tables.(messages := s.messages[key := MessageEntry(key, message)])
  {
    var key := MessageKey(message);
    var messages := s.messages[key := MessageEntry(key, message)];
    CredentialsBesideMessages(s, messages, message.credentials);
    CredentialsKeepOthers(s, message.credentials);
    var s2 := SaveCredentials(s, message.credentials);
    PresentationsBesideMessages(decode, s2, messages, message.presentations);
    StopsAt(decode, s2, message.presentations, i);
  }

  lemma {:induction false} StopsAt(decode: Decoder, s: Tables, vps: seq<Presentation>, i: nat)
    requires i < |vps| && !Readable(decode, vps[i]) && forall j | 0 <= j < i :: Readable(decode, vps[j])
    ensures !SavePresentations(decode, s, vps[..i]).failed
    ensures SavePresentations(decode, s, vps) == Progress(SavePresentations(decode, s, vps[..i]).tables, true)
  {
    hide SavePresentation, Readable;
    if i + 1 == |vps| {
      assert vps[..|vps| - 1] == vps[..i];
      PresentationsReadable(decode, s, vps[..i]);
      OneMorePresentation(decode, SavePresentations(decode, s, vps[..i]).tables, vps[i]);
    } else {
      var front := vps[..|vps| - 1];
      assert front[..i] == vps[..i];
      StopsAt(decode, s, front, i);
    }
  }
}
