/** What every run of calls on the JSON store keeps: the claims index, the known DIDs and the notification log. */
module JsonStoreRuns {
  import opened Results
  import opened Strings
  import opened JsonStore

  // ---------------------------------------------------------------- runs

  datatype Call =
    | SaveMsg(message: Message)
    | DeleteMsg(id: MessageId)
    | SaveVc(vc: Credential)
    | DeleteVc(hash: Hash)
    | SaveVp(vp: Presentation)

  datatype Outcome = Outcome(tables: Tables, notified: bool)

  function Apply(decode: Decoder, call: Call, s: Tables): Outcome {
    match call
    case SaveMsg(message) => var p := SaveMessage(decode, s, message); Outcome(p.tables, !p.failed)
    case DeleteMsg(id) => Outcome(s.(messages := s.messages - {id}), id in s.messages)
    case SaveVc(vc) => Outcome(SaveCredential(s, vc), true)
    case DeleteVc(hash) => Outcome(DeleteCredential(s, hash), hash in s.credentials)
    case SaveVp(vp) =>
      match SavePresentation(decode, s, vp) case Ok(s') => Outcome(s', true) case Err(_) => Outcome(s, false)
  }

  function Run(decode: Decoder, calls: seq<Call>, s: Tables): Tables {
    if calls == [] then s else Run(decode, calls[1..], Apply(decode, calls[0], s).tables)
  }

  function Log(decode: Decoder, calls: seq<Call>, s: Tables): seq<Notification> {
    if calls == [] then []
    else
      var o := Apply(decode, calls[0], s);
      (if o.notified then [Notification(s, o.tables)] else []) + Log(decode, calls[1..], o.tables)
  }

  // ---------------------------------------------------------------- the claims index

  /** The claims table holds exactly the non-`id` subject entries of the stored credentials, each under its hash. */
  ghost predicate Agrees(s: Tables) {
    && (forall h | h in s.credentials ::
          s.credentials[h] == EntryOf(s.credentials[h].parsed) && EntryHash(s.credentials[h].parsed) == h)
    && (forall h | h in s.claims ::
          && h.OfClaim?
          && h.credentialHash in s.credentials
          && h.claimType in ClaimTypes(s.credentials[h.credentialHash].parsed)
          && s.claims[h] == ClaimOf(s.credentials[h.credentialHash].parsed, h.claimType))
    && (forall h, t | h in s.credentials && t in ClaimTypes(s.credentials[h].parsed) :: OfClaim(h, t) in s.claims)
  }

  /** No claim points to a credential that is not there. */
  lemma NoDanglingClaims(s: Tables)
    requires Agrees(s)
    ensures forall h | h in s.claims ::
              s.claims[h].hash == h && s.claims[h].credentialHash in s.credentials
  {
    forall h | h in s.claims ensures s.claims[h].hash == h && s.claims[h].credentialHash in s.credentials {
      assert s.claims[h] == ClaimOf(s.credentials[h.credentialHash].parsed, h.claimType);
    }
  }

  /** What the claims table holds after a save. */
  lemma ClaimsAfterSave(s: Tables, vc: Credential, h: Hash)
    ensures var s' := SaveCredential(s, vc);
            && (h in s'.claims <==> h in s.claims || Contributes(vc, h))
            && (Contributes(vc, h) ==> s'.claims[h] == ClaimOf(vc, h.claimType))
            && (h in s.claims && !Contributes(vc, h) ==> s'.claims[h] == s.claims[h])
  {
    assert h in ClaimsOf(vc) <==> Contributes(vc, h);
  }

  predicate Contributes(vc: Credential, h: Hash) {
    h.OfClaim? && h.credentialHash == EntryHash(vc) && h.claimType in ClaimTypes(vc)
  }

  lemma SaveKeepsIndex(s: Tables, vc: Credential)
    requires Agrees(s)
    requires EntryHash(vc) in s.credentials ==> ClaimTypes(s.credentials[EntryHash(vc)].parsed) <= ClaimTypes(vc)
    ensures Agrees(SaveCredential(s, vc))
  {
    hide ClaimTypes, ClaimOf, EntryHash, EntryOf, ClaimsOf, WithOptionalDid, SubjectId, OrEmpty;
    var s' := SaveCredential(s, vc);
    EntryOfParsed(vc);
    forall h | h in s'.claims
      ensures h.OfClaim? && h.credentialHash in s'.credentials
      ensures h.claimType in ClaimTypes(s'.credentials[h.credentialHash].parsed)
      ensures s'.claims[h] == ClaimOf(s'.credentials[h.credentialHash].parsed, h.claimType)
    {
      ClaimsAfterSave(s, vc, h);
    }
    forall h, t | h in s'.credentials && t in ClaimTypes(s'.credentials[h].parsed) ensures OfClaim(h, t) in s'.claims {
      ClaimsAfterSave(s, vc, OfClaim(h, t));
    }
  }

  lemma EntryOfParsed(vc: Credential)
    ensures EntryOf(vc).parsed == vc
    ensures ClaimTypes(vc) <= vc.subject.Keys
  {
  }

  /** Saving keeps the index in step exactly when it loses no claim type of the credential it replaces. */
  lemma SaveKeepsIndexIff(s: Tables, vc: Credential)
    requires Agrees(s)
    ensures Agrees(SaveCredential(s, vc)) <==>
            (EntryHash(vc) in s.credentials ==> ClaimTypes(s.credentials[EntryHash(vc)].parsed) <= ClaimTypes(vc))
  {
    var hash := EntryHash(vc);
    if hash in s.credentials && !(ClaimTypes(s.credentials[hash].parsed) <= ClaimTypes(vc)) {
      var t :| t in ClaimTypes(s.credentials[hash].parsed) && t !in ClaimTypes(vc);
      assert OfClaim(hash, t) in s.claims;
      ClaimsAfterSave(s, vc, OfClaim(hash, t));
    } else {
      SaveKeepsIndex(s, vc);
    }
  }

  lemma GoneIff(s: Tables, hash: Hash, h: Hash)
    requires Agrees(s) && h in s.claims
    ensures h in ClaimHashes(s.claims, hash) <==> h.OfClaim? && h.credentialHash == hash
  {
    assert s.claims[h] == ClaimOf(s.credentials[h.credentialHash].parsed, h.claimType);
    hide Agrees;
    if h in ClaimHashes(s.claims, hash) {
      var h' :| h' in s.claims && s.claims[h'].credentialHash == hash && s.claims[h'].hash == h;
    }
  }

  lemma DeleteKeepsIndex(s: Tables, hash: Hash)
    requires Agrees(s)
    ensures Agrees(DeleteCredential(s, hash))
  {
    hide ClaimTypes, ClaimOf, EntryOf, EntryHash, ClaimHashes;
    forall h | h in s.claims ensures h in ClaimHashes(s.claims, hash) <==> h.OfClaim? && h.credentialHash == hash {
      GoneIff(s, hash, h);
    }
    if hash in s.credentials {
      OwnHash(s, hash);
    }
  }

  lemma OwnHash(s: Tables, hash: Hash)
    requires Agrees(s) && hash in s.credentials
    ensures s.credentials[hash].hash == hash
  {
  }

  /** Deleting a credential that was not there before it was saved restores the credentials and the claims. */
  lemma SaveThenDeleteRestores(s: Tables, vc: Credential)
    requires Agrees(s) && EntryHash(vc) !in s.credentials
    ensures var s' := DeleteCredential(SaveCredential(s, vc), EntryHash(vc));
            s' == s.(dids := SaveCredential(s, vc).dids)
  {
    hide ClaimTypes, ClaimOf, ClaimsOf, WithOptionalDid, SubjectId, OrEmpty, Agrees;
    var hash := EntryHash(vc);
    var saved := SaveCredential(s, vc);
    var s' := DeleteCredential(saved, hash);
    assert saved.credentials[hash].hash == hash;
    forall h ensures h in s'.claims <==> h in s.claims
             ensures h in s.claims ==> s'.claims[h] == s.claims[h] {
      OwnClaimsAfterSave(s, vc, h);
      ClaimsAfterSave(s, vc, h);
      NotOwn(s, hash, h);
    }
    assert s'.credentials == s.credentials;
  }

  lemma NotOwn(s: Tables, hash: Hash, h: Hash)
    requires Agrees(s) && hash !in s.credentials
    ensures h in s.claims ==> h.OfClaim? && h.credentialHash != hash
  {
  }

  /** A fresh credential's claims are the ones a deletion of it picks out. */
  lemma OwnClaimsAfterSave(s: Tables, vc: Credential, h: Hash)
    requires Agrees(s) && EntryHash(vc) !in s.credentials
    ensures h in ClaimHashes(SaveCredential(s, vc).claims, EntryHash(vc)) <==> Contributes(vc, h)
  {
    hide ClaimTypes, ClaimsOf, WithOptionalDid, SubjectId, OrEmpty, SaveCredential;
    var claims := SaveCredential(s, vc).claims;
    forall h' | h' in claims
      ensures claims[h'].hash == h' && (claims[h'].credentialHash == EntryHash(vc) <==> Contributes(vc, h'))
    {
      ClaimsAfterSave(s, vc, h');
      EntryOfParsed(vc);
      if !Contributes(vc, h') {
        assert claims[h'] == s.claims[h'] == ClaimOf(s.credentials[h'.credentialHash].parsed, h'.claimType);
      }
    }
    ClaimsAfterSave(s, vc, h);
  }

  // ---------------------------------------------------------------- the index over whole runs

  /** The credentials a call may write. */
  function Written(decode: Decoder, call: Call): set<Credential> {
    match call
    case SaveMsg(message) =>
      (set vc | vc in message.credentials) + (set vp, e | vp in message.presentations && e in vp.credentials
                                                       && DecodeOne(decode, e).Some? :: DecodeOne(decode, e).value)
    case SaveVc(vc) => {vc}
    case SaveVp(vp) => set e | e in vp.credentials && DecodeOne(decode, e).Some? :: DecodeOne(decode, e).value
    case DeleteMsg(_) => {}
    case DeleteVc(_) => {}
  }

  /** Credentials that share a hash have the same claim types, as when the hash determines the content. */
  ghost predicate Determined(universe: set<Credential>) {
    forall a, b | a in universe && b in universe && EntryHash(a) == EntryHash(b) :: ClaimTypes(a) == ClaimTypes(b)
  }

  /** The index agrees and all stored credentials are among those considered. */
  ghost predicate AgreesWithin(s: Tables, universe: set<Credential>) {
    Agrees(s) && forall h | h in s.credentials :: s.credentials[h].parsed in universe
  }

  lemma SaveWithin(s: Tables, vc: Credential, universe: set<Credential>)
    requires AgreesWithin(s, universe) && Determined(universe) && vc in universe
    ensures AgreesWithin(SaveCredential(s, vc), universe)
  {
    SaveKeepsIndexIff(s, vc);
  }

  lemma {:induction false} SaveAllWithin(s: Tables, vcs: seq<Credential>, universe: set<Credential>)
    requires AgreesWithin(s, universe) && Determined(universe)
    requires forall vc | vc in vcs :: vc in universe
    ensures AgreesWithin(SaveCredentials(s, vcs), universe)
  {
    hide AgreesWithin, Determined, SaveCredential;
    if vcs != [] {
      SaveAllWithin(s, vcs[..|vcs| - 1], universe);
      SaveWithin(SaveCredentials(s, vcs[..|vcs| - 1]), vcs[|vcs| - 1], universe);
    }
  }

  lemma {:induction false} DecodedWithin(decode: Decoder, es: seq<Embedded>)
    requires DecodeAll(decode, es).Ok?
    ensures forall vc | vc in DecodeAll(decode, es).value :: exists e :: e in es && DecodeOne(decode, e) == Some(vc)
  {
    if es != [] {
      DecodedWithin(decode, es[..|es| - 1]);
    }
  }

  lemma SavePresentationWithin(decode: Decoder, s: Tables, vp: Presentation, universe: set<Credential>)
    requires AgreesWithin(s, universe) && Determined(universe)
    requires forall e | e in vp.credentials && DecodeOne(decode, e).Some? :: DecodeOne(decode, e).value in universe
    requires SavePresentation(decode, s, vp).Ok?
    ensures AgreesWithin(SavePresentation(decode, s, vp).value, universe)
  {
    var vcs := DecodeAll(decode, vp.credentials).value;
    DecodedWithin(decode, vp.credentials);
    var s1 := s.(presentations := s.presentations[PresentationHash(vp) := PresentationEntryOf(vp, vcs)]);
    SaveAllWithin(s1, vcs, universe);
  }

  lemma {:induction false} SavePresentationsWithin(decode: Decoder, s: Tables, vps: seq<Presentation>,
                                                  universe: set<Credential>)
    requires AgreesWithin(s, universe) && Determined(universe)
    requires forall vp, e | vp in vps && e in vp.credentials && DecodeOne(decode, e).Some? ::
               DecodeOne(decode, e).value in universe
    ensures AgreesWithin(SavePresentations(decode, s, vps).tables, universe)
  {
    hide AgreesWithin, Determined, SavePresentation;
    if vps != [] {
      var last := |vps| - 1;
      SavePresentationsWithin(decode, s, vps[..last], universe);
      var front := SavePresentations(decode, s, vps[..last]);
      if !front.failed && SavePresentation(decode, front.tables, vps[last]).Ok? {
        assert vps[last] in vps;
        SavePresentationWithin(decode, front.tables, vps[last], universe);
      }
    }
  }

  lemma SaveMessageWithin(decode: Decoder, message: Message, s: Tables, universe: set<Credential>)
    requires AgreesWithin(s, universe) && Determined(universe)
    requires Written(decode, SaveMsg(message)) <= universe
    ensures AgreesWithin(SaveMessage(decode, s, message).tables, universe)
  {
    var id := MessageKey(message);
    var s1 := s.(messages := s.messages[id := MessageEntry(id, message)]);
    WrittenByMessage(decode, message);
    hide ClaimTypes, ClaimOf, EntryOf, EntryHash, ClaimHashes, Written, Determined, DecodeOne;
    SaveAllWithin(s1, message.credentials, universe);
    SavePresentationsWithin(decode, SaveCredentials(s1, message.credentials), message.presentations, universe);
  }

  lemma WrittenByMessage(decode: Decoder, message: Message)
    ensures forall vc | vc in message.credentials :: vc in Written(decode, SaveMsg(message))
    ensures forall vp, e | vp in message.presentations && e in vp.credentials && DecodeOne(decode, e).Some? ::
              DecodeOne(decode, e).value in Written(decode, SaveMsg(message))
  {
  }

  lemma ApplyWithin(decode: Decoder, call: Call, s: Tables, universe: set<Credential>)
    requires AgreesWithin(s, universe) && Determined(universe)
    requires Written(decode, call) <= universe
    ensures AgreesWithin(Apply(decode, call, s).tables, universe)
  {
    hide ClaimTypes, ClaimOf, EntryOf, EntryHash, ClaimHashes;
    match call {
      case SaveMsg(message) => SaveMessageWithin(decode, message, s, universe);
      case SaveVc(vc) =>
        assert vc in Written(decode, call);
        SaveWithin(s, vc, universe);
      case SaveVp(vp) =>
        assert forall e | e in vp.credentials && DecodeOne(decode, e).Some? ::
            DecodeOne(decode, e).value in Written(decode, call);
        if SavePresentation(decode, s, vp).Ok? {
          SavePresentationWithin(decode, s, vp, universe);
        }
      case DeleteVc(hash) => DeleteKeepsIndex(s, hash);
      case DeleteMsg(id) =>
    }
  }

  /** From any state whose index agrees, for instance the empty one, every run keeps the index in step. */
  lemma {:induction false} RunKeepsIndex(decode: Decoder, calls: seq<Call>, s: Tables, universe: set<Credential>)
    requires AgreesWithin(s, universe) && Determined(universe)
    requires forall call | call in calls :: Written(decode, call) <= universe
    ensures AgreesWithin(Run(decode, calls, s), universe)
  {
    hide AgreesWithin, Determined, Apply, Written;
    if calls != [] {
      assert calls[0] in calls;
      ApplyWithin(decode, calls[0], s, universe);
      RunKeepsIndex(decode, calls[1..], Apply(decode, calls[0], s).tables, universe);
    }
  }

  lemma RunFromEmpty(decode: Decoder, calls: seq<Call>, universe: set<Credential>)
    requires Determined(universe)
    requires forall call | call in calls :: Written(decode, call) <= universe
    ensures Agrees(Run(decode, calls, EMPTY))
  {
    RunKeepsIndex(decode, calls, EMPTY, universe);
  }

  /** Without that determinacy the index goes stale: the same JWT saved first with, then without a claim. */
  lemma StaleClaim()
    ensures var proof := Proof("JwtProof2020", Some("eyJ"), "");
            var full := Credential(None, "did:a", map["name" := "x"], [], [], None, None, proof);
            var bare := full.(subject := map[]);
            && Agrees(SaveCredential(EMPTY, full))
            && !Agrees(SaveCredential(SaveCredential(EMPTY, full), bare))
  {
    var proof := Proof("JwtProof2020", Some("eyJ"), "");
    var full := Credential(None, "did:a", map["name" := "x"], [], [], None, None, proof);
    var bare := full.(subject := map[]);
    SaveKeepsIndexIff(EMPTY, full);
    var s := SaveCredential(EMPTY, full);
    SaveKeepsIndexIff(s, bare);
    assert EntryHash(bare) == OfText("eyJ") == EntryHash(full);
    assert "name" in ClaimTypes(full) && "name" !in ClaimTypes(bare);
    assert s.credentials[EntryHash(bare)].parsed == full;
  }

  // ---------------------------------------------------------------- known DIDs

  ghost predicate Extends(before: map<string, DidEntry>, after: map<string, DidEntry>) {
    forall d | d in before :: d in after && after[d] == before[d]
  }

  lemma {:induction false} WithDidsExtends(dids: map<string, DidEntry>, more: seq<string>)
    ensures Extends(dids, WithDids(dids, more))
    ensures WithDids(dids, more).Keys == dids.Keys + set d | d in more
  {
    if more != [] {
      WithDidsExtends(dids, more[..|more| - 1]);
      assert more == more[..|more| - 1] + [more[|more| - 1]];
    }
  }

  lemma {:induction false} SaveCredentialsExtends(s: Tables, vcs: seq<Credential>)
    ensures Extends(s.dids, SaveCredentials(s, vcs).dids)
  {
    if vcs != [] {
      SaveCredentialsExtends(s, vcs[..|vcs| - 1]);
    }
  }

  lemma {:induction false} SavePresentationsExtends(decode: Decoder, s: Tables, vps: seq<Presentation>)
    ensures Extends(s.dids, SavePresentations(decode, s, vps).tables.dids)
  {
    if vps != [] {
      SavePresentationsExtends(decode, s, vps[..|vps| - 1]);
      var front := SavePresentations(decode, s, vps[..|vps| - 1]);
      SavePresentationExtends(decode, front.tables, vps[|vps| - 1]);
    }
  }

  lemma SavePresentationExtends(decode: Decoder, s: Tables, vp: Presentation)
    ensures SavePresentation(decode, s, vp).Ok? ==> Extends(s.dids, SavePresentation(decode, s, vp).value.dids)
  {
    if SavePresentation(decode, s, vp).Ok? {
      var vcs := DecodeAll(decode, vp.credentials).value;
      var s1 := s.(presentations := s.presentations[PresentationHash(vp) := PresentationEntryOf(vp, vcs)]);
      SaveCredentialsExtends(s1, vcs);
      WithDidsExtends(WithOptionalDid(SaveCredentials(s1, vcs).dids, vp.holder), vp.verifier);
    }
  }

  /** No call ever removes or overwrites a DID entry. */
  lemma {:induction false} RunExtendsDids(decode: Decoder, calls: seq<Call>, s: Tables)
    ensures Extends(s.dids, Run(decode, calls, s).dids)
  {
    if calls != [] {
      ApplyExtendsDids(decode, calls[0], s);
      RunExtendsDids(decode, calls[1..], Apply(decode, calls[0], s).tables);
    }
  }

  lemma ApplyExtendsDids(decode: Decoder, call: Call, s: Tables)
    ensures Extends(s.dids, Apply(decode, call, s).tables.dids)
  {
    hide ClaimHashes, ClaimsOf, EntryOf, EntryHash;
    match call {
      case SaveMsg(message) =>
        var id := MessageKey(message);
        var s1 := s.(messages := s.messages[id := MessageEntry(id, message)]);
        SaveCredentialsExtends(s1, message.credentials);
        var s2 := SaveCredentials(s1, message.credentials);
        SavePresentationsExtends(decode, s2, message.presentations);
        var p := SavePresentations(decode, s2, message.presentations);
        WithDidsExtends(WithOptionalDid(p.tables.dids, OrEmpty(message.from)), message.to);
      case SaveVc(vc) =>
      case SaveVp(vp) => SavePresentationExtends(decode, s, vp);
      case DeleteMsg(_) =>
      case DeleteVc(_) =>
    }
  }

  // ---------------------------------------------------------------- the notification log

  predicate Decodable(decode: Decoder, es: seq<Embedded>) {
    forall e | e in es :: DecodeOne(decode, e).Some?
  }

  lemma {:induction false} DecodesIff(decode: Decoder, es: seq<Embedded>)
    ensures DecodeAll(decode, es).Ok? <==> Decodable(decode, es)
  {
    if es != [] {
      DecodesIff(decode, es[..|es| - 1]);
      assert es == es[..|es| - 1] + [es[|es| - 1]];
    }
  }

  lemma SavesIff(decode: Decoder, s: Tables, vp: Presentation)
    ensures SavePresentation(decode, s, vp).Ok? <==> Decodable(decode, vp.credentials)
  {
    hide Decodable;
    DecodesIff(decode, vp.credentials);
  }

  lemma {:induction false} PresentationsFailIff(decode: Decoder, s: Tables, vps: seq<Presentation>)
    ensures SavePresentations(decode, s, vps).failed <==> exists vp :: vp in vps && !Decodable(decode, vp.credentials)
  {
    hide Decodable, SavePresentation;
    if vps != [] {
      var last := |vps| - 1;
      PresentationsFailIff(decode, s, vps[..last]);
      SavesIff(decode, SavePresentations(decode, s, vps[..last]).tables, vps[last]);
      assert vps == vps[..last] + [vps[last]];
    }
  }

  /** A message whose nested presentations all decode. */
  predicate Readable(decode: Decoder, message: Message) {
    forall vp | vp in message.presentations :: Decodable(decode, vp.credentials)
  }

  /** Replaying the log from `s` reproduces `final`: every notification starts where the previous one ended. */
  ghost predicate Chains(s: Tables, log: seq<Notification>, final: Tables)
    decreases |log|
  {
    if log == [] then s == final else log[0].oldState == s && Chains(log[0].newState, log[1..], final)
  }

  /**
    A call notifies once or leaves the tables as they are, with one exception: a message with an undecodable
    credential in a presentation has been partly written by the time it fails, and nobody is told.
   */
  lemma NotifiesOrLeaves(decode: Decoder, call: Call, s: Tables)
    ensures !(call.SaveMsg? && !Readable(decode, call.message)) && !Apply(decode, call, s).notified ==>
              Apply(decode, call, s).tables == s
    ensures call.SaveMsg? ==> (Apply(decode, call, s).notified <==> Readable(decode, call.message))
    ensures call.SaveMsg? ==> MessageKey(call.message) in Apply(decode, call, s).tables.messages
    ensures call.SaveVp? ==> (Apply(decode, call, s).notified <==> Decodable(decode, call.vp.credentials))
  {
    hide Decodable;
    match call {
      case SaveMsg(message) =>
        var id := MessageKey(message);
        var s1 := s.(messages := s.messages[id := MessageEntry(id, message)]);
        var s2 := SaveCredentials(s1, message.credentials);
        PresentationsFailIff(decode, s2, message.presentations);
        SaveCredentialsKeepMessages(s1, message.credentials);
        SavePresentationsKeepMessages(decode, s2, message.presentations);
      case SaveVp(vp) => DecodesIff(decode, vp.credentials);
      case DeleteMsg(id) => if id !in s.messages { assert s.messages - {id} == s.messages; }
      case SaveVc(_) =>
      case DeleteVc(_) =>
    }
  }

  lemma {:induction false} SaveCredentialsKeepMessages(s: Tables, vcs: seq<Credential>)
    ensures SaveCredentials(s, vcs).messages == s.messages
  {
    if vcs != [] {
      SaveCredentialsKeepMessages(s, vcs[..|vcs| - 1]);
    }
  }

  lemma SaveVpKeepsMessages(decode: Decoder, s: Tables, vp: Presentation)
    ensures SavePresentation(decode, s, vp).Ok? ==> SavePresentation(decode, s, vp).value.messages == s.messages
  {
    if SavePresentation(decode, s, vp).Ok? {
      var vcs := DecodeAll(decode, vp.credentials).value;
      SaveCredentialsKeepMessages(
        s.(presentations := s.presentations[PresentationHash(vp) := PresentationEntryOf(vp, vcs)]), vcs);
    }
  }

  lemma {:induction false} SavePresentationsKeepMessages(decode: Decoder, s: Tables, vps: seq<Presentation>)
    ensures SavePresentations(decode, s, vps).tables.messages == s.messages
  {
    if vps != [] {
      SavePresentationsKeepMessages(decode, s, vps[..|vps| - 1]);
      var front := SavePresentations(decode, s, vps[..|vps| - 1]);
      var vp := vps[|vps| - 1];
      SaveVpKeepsMessages(decode, front.tables, vp);
    }
  }

  predicate Unreadable(decode: Decoder, call: Call) {
    call.SaveMsg? && !Readable(decode, call.message)
  }

  predicate StoredReadable(decode: Decoder, s: Tables, key: MessageId) {
    key in s.messages ==> Readable(decode, s.messages[key].message)
  }

  /** The first message that cannot be read, if any, does not replace another such message. */
  predicate FirstShows(decode: Decoder, calls: seq<Call>, s: Tables)
    decreases |calls|
  {
    calls != [] ==>
      if Unreadable(decode, calls[0]) then StoredReadable(decode, s, MessageKey(calls[0].message))
      else FirstShows(decode, calls[1..], Apply(decode, calls[0], s).tables)
  }

  lemma LogStep(decode: Decoder, calls: seq<Call>, s: Tables)
    requires calls != []
    ensures var o := Apply(decode, calls[0], s);
            var rest := Log(decode, calls[1..], o.tables);
            && Run(decode, calls, s) == Run(decode, calls[1..], o.tables)
            && (o.notified ==> Log(decode, calls, s) != [] && Log(decode, calls, s)[0] == Notification(s, o.tables))
            && (o.notified ==> Log(decode, calls, s)[1..] == rest)
            && (!o.notified ==> Log(decode, calls, s) == rest)
  {
    hide Apply;
    var o := Apply(decode, calls[0], s);
    var rest := Log(decode, calls[1..], o.tables);
    assert [Notification(s, o.tables)] + rest == Log(decode, calls, s) || !o.notified;
    assert o.notified ==> Log(decode, calls, s)[1..] == rest;
    assert [] + rest == rest;
  }

  /** The messages stored after a call. */
  lemma MessagesAfter(decode: Decoder, call: Call, s: Tables)
    ensures Apply(decode, call, s).tables.messages ==
            match call
            case SaveMsg(message) => s.messages[MessageKey(message) := MessageEntry(MessageKey(message), message)]
            case DeleteMsg(id) => s.messages - {id}
            case _ => s.messages
  {
    hide Decodable;
    match call {
      case SaveMsg(message) =>
        var id := MessageKey(message);
        var s1 := s.(messages := s.messages[id := MessageEntry(id, message)]);
        SaveCredentialsKeepMessages(s1, message.credentials);
        SavePresentationsKeepMessages(decode, SaveCredentials(s1, message.credentials), message.presentations);
      case SaveVp(vp) => SaveVpKeepsMessages(decode, s, vp);
      case DeleteMsg(id) => if id !in s.messages { assert s.messages - {id} == s.messages; }
      case SaveVc(_) =>
      case DeleteVc(_) =>
    }
  }

  /** An unreadable message nobody was told of stays until the next notification, whose old state then is another. */
  lemma {:induction false} UnnoticedStays(decode: Decoder, calls: seq<Call>, told: Tables, s: Tables, key: MessageId)
    requires !StoredReadable(decode, s, key) && StoredReadable(decode, told, key)
    ensures !Chains(told, Log(decode, calls, s), Run(decode, calls, s))
    decreases |calls|
  {
    hide Apply, Readable;
    if calls != [] {
      LogStep(decode, calls, s);
      NotifiesOrLeaves(decode, calls[0], s);
      var o := Apply(decode, calls[0], s);
      if !o.notified {
        MessagesAfter(decode, calls[0], s);
        UnnoticedStays(decode, calls[1..], told, o.tables, key);
      }
    }
  }

  /**
    Replaying the notifications of a run yields the current tables exactly when all its messages are readable. Left
    aside are runs whose first unreadable message takes the place of another: it may put back what is there already.
   */
  lemma {:induction false} LogReplaysIff(decode: Decoder, calls: seq<Call>, s: Tables)
    requires FirstShows(decode, calls, s)
    ensures Chains(s, Log(decode, calls, s), Run(decode, calls, s))
            <==> forall call | call in calls :: !Unreadable(decode, call)
    decreases |calls|
  {
    hide Apply, Readable;
    if calls != [] {
      var o := Apply(decode, calls[0], s);
      LogStep(decode, calls, s);
      NotifiesOrLeaves(decode, calls[0], s);
      assert calls == [calls[0]] + calls[1..];
      if Unreadable(decode, calls[0]) {
        MessagesAfter(decode, calls[0], s);
        UnnoticedStays(decode, calls[1..], s, o.tables, MessageKey(calls[0].message));
      } else {
        LogReplaysIff(decode, calls[1..], o.tables);
      }
    }
  }

  ghost predicate AllReadable(decode: Decoder, s: Tables) {
    forall key | key in s.messages :: StoredReadable(decode, s, key)
  }

  lemma {:induction false} ReadableShows(decode: Decoder, calls: seq<Call>, s: Tables)
    requires AllReadable(decode, s)
    ensures FirstShows(decode, calls, s)
    decreases |calls|
  {
    hide Apply, Readable;
    if calls != [] && !Unreadable(decode, calls[0]) {
      MessagesAfter(decode, calls[0], s);
      ReadableShows(decode, calls[1..], Apply(decode, calls[0], s).tables);
    }
  }

  /** So for every run that starts with no stored message or with readable ones only. */
  lemma LogReplaysFromReadableIff(decode: Decoder, calls: seq<Call>, s: Tables)
    requires AllReadable(decode, s)
    ensures Chains(s, Log(decode, calls, s), Run(decode, calls, s))
            <==> forall call | call in calls :: !Unreadable(decode, call)
  {
    ReadableShows(decode, calls, s);
    LogReplaysIff(decode, calls, s);
  }

  lemma LogReplaysFromEmptyIff(decode: Decoder, calls: seq<Call>)
    ensures Chains(EMPTY, Log(decode, calls, EMPTY), Run(decode, calls, EMPTY))
            <==> forall call | call in calls :: !Unreadable(decode, call)
  {
    LogReplaysFromReadableIff(decode, calls, EMPTY);
  }

  /** In particular, as long as messages are readable, replaying the notifications yields the current tables. */
  lemma LogReplays(decode: Decoder, calls: seq<Call>, s: Tables)
    requires forall call | call in calls && call.SaveMsg? :: Readable(decode, call.message)
    ensures Chains(s, Log(decode, calls, s), Run(decode, calls, s))
  {
    ReadableIsNew(decode, calls, s);
    LogReplaysIff(decode, calls, s);
  }

  lemma {:induction false} ReadableIsNew(decode: Decoder, calls: seq<Call>, s: Tables)
    requires forall call | call in calls :: !Unreadable(decode, call)
    ensures FirstShows(decode, calls, s)
    decreases |calls|
  {
    hide Apply, Readable;
    if calls != [] {
      ReadableIsNew(decode, calls[1..], Apply(decode, calls[0], s).tables);
      assert calls[0] in calls;
    }
  }

  /** So a single unreadable message under a new key changes the tables and nobody is told. */
  lemma UnreadableMessageUnnoticed(decode: Decoder, message: Message, s: Tables)
    requires !Readable(decode, message) && MessageKey(message) !in s.messages
    ensures Log(decode, [SaveMsg(message)], s) == []
    ensures !Chains(s, Log(decode, [SaveMsg(message)], s), Run(decode, [SaveMsg(message)], s))
  {
    hide Apply, Readable;
    var calls := [SaveMsg(message)];
    assert calls[1..] == [] && Unreadable(decode, calls[0]) && calls[0] in calls;
    LogStep(decode, calls, s);
    NotifiesOrLeaves(decode, calls[0], s);
    LogReplaysIff(decode, calls, s);
  }

  // ---------------------------------------------------------------- the log of any run

  /** The tables before the n-th call, or after the last one. */
  function TablesAt(decode: Decoder, calls: seq<Call>, s: Tables, n: nat): Tables
    requires n <= |calls|
  {
    if n == 0 then s else Apply(decode, calls[n - 1], TablesAt(decode, calls, s, n - 1)).tables
  }

  predicate NotifiesAt(decode: Decoder, calls: seq<Call>, s: Tables, n: nat)
    requires n < |calls|
  {
    Apply(decode, calls[n], TablesAt(decode, calls, s, n)).notified
  }

  /** A longest stretch of calls that notify nobody: between two notifications, before the first or after the last. */
  predicate Quiet(decode: Decoder, calls: seq<Call>, s: Tables, i: nat, j: nat)
    requires i <= j <= |calls|
  {
    && (i == 0 || NotifiesAt(decode, calls, s, i - 1))
    && (j == |calls| || NotifiesAt(decode, calls, s, j))
    && forall k | i <= k < j :: !NotifiesAt(decode, calls, s, k)
  }

  /** From the n-th call on, with the last notification before it made at `start`. */
  lemma {:induction false} ReplaysFrom(decode: Decoder, calls: seq<Call>, s: Tables, start: nat, n: nat)
    requires start <= n <= |calls|
    requires start == 0 || NotifiesAt(decode, calls, s, start - 1)
    requires forall k | start <= k < n :: !NotifiesAt(decode, calls, s, k)
    ensures var told, now := TablesAt(decode, calls, s, start), TablesAt(decode, calls, s, n);
      Chains(told, Log(decode, calls[n..], now), Run(decode, calls[n..], now)) <==>
        forall i, j | 0 <= i <= j <= |calls| && n <= j && Quiet(decode, calls, s, i, j) ::
          TablesAt(decode, calls, s, i) == TablesAt(decode, calls, s, j)
    decreases |calls| - n
  {
    hide Apply, NotifiesAt;
    var now := TablesAt(decode, calls, s, n);
    forall i, j | 0 <= i <= j == n && Quiet(decode, calls, s, i, j) ensures i == start {}
    if n < |calls| {
      LogStep(decode, calls[n..], now);
      assert calls[n..][1..] == calls[n + 1..];
      NotifiesIs(decode, calls, s, n);
      ReplaysFrom(decode, calls, s, if NotifiesAt(decode, calls, s, n) then n + 1 else start, n + 1);
    }
    if n == |calls| || NotifiesAt(decode, calls, s, n) {
      assert Quiet(decode, calls, s, start, n);
    }
  }

  lemma NotifiesIs(decode: Decoder, calls: seq<Call>, s: Tables, n: nat)
    requires n < |calls|
    ensures NotifiesAt(decode, calls, s, n) <==> Apply(decode, calls[n], TablesAt(decode, calls, s, n)).notified
  {
  }

  /**
    Whatever the run and whatever was stored before: replaying its notifications yields the current tables exactly when
    every stretch of calls that notify nobody leaves the tables as it found them.
   */
  lemma LogReplaysExactly(decode: Decoder, calls: seq<Call>, s: Tables)
    ensures Chains(s, Log(decode, calls, s), Run(decode, calls, s)) <==>
            forall i, j | 0 <= i <= j <= |calls| && Quiet(decode, calls, s, i, j) ::
              TablesAt(decode, calls, s, i) == TablesAt(decode, calls, s, j)
  {
    hide Apply, Quiet, NotifiesAt;
    ReplaysFrom(decode, calls, s, 0, 0);
    assert calls[0..] == calls;
  }
}
