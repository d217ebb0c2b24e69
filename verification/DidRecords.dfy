/** The DID manager (packages/did-manager) as a state machine over what its store holds, and its alias discipline. */
module DidRecords {
  import opened Results

  datatype Service = Service(id: string, kind: string, endpoint: string)

  /** A key object. Records, callers and providers may share it. */
  class Key {
    const kid: string
    const publicKeyHex: string
    var privateKeyHex: Option<string>

    constructor (kid: string, publicKeyHex: string, privateKeyHex: Option<string>)
      ensures this.kid == kid && this.publicKeyHex == publicKeyHex && this.privateKeyHex == privateKeyHex
    {
      this.kid, this.publicKeyHex, this.privateKeyHex := kid, publicKeyHex, privateKeyHex;
    }
  }

  /** A record's content. The order of the keys is left out, since providers may sort the list they are handed. */
  datatype Record = Record(provider: string, alias: Option<string>, keys: multiset<Key>, services: seq<Service>)

  type Contents = map<string, Record>

  datatype Failure =
    | NotFound | InvalidArgument | AliasTaken | NoProvider | ProviderFailed | ProviderMismatch | KmsFailed

  // ---------------------------------------------------------------- providers

  /** A configured provider: `id` is the object's identity, `matches` its `matchPrefix`. */
  datatype Entry = Entry(name: string, id: nat, matches: string -> bool)

  datatype Providers = Providers(entries: seq<Entry>, fallback: string) {
    function Choose(provider: Option<string>): string {
      if Named(provider) then provider.value else fallback
    }

    /** `getProvider`: by its name, else by its prefix. */
    function Get(name: string): Result<nat, Failure> {
      match FindEntry(entries, (e: Entry) => e.name == name)
      case Some(e) => Ok(e.id)
      case None =>
        match FindEntry(entries, (e: Entry) => e.matches(name))
        case Some(e) => Ok(e.id)
        case None => Err(NoProvider)
    }

    predicate SameProvider(a: string, b: string) {
      a == b || (Get(a).Ok? && Get(a) == Get(b))
    }
  }

  /** A JavaScript string argument that is neither missing nor empty. */
  predicate Named(s: Option<string>) {
    s.Some? && s.value != ""
  }

  /** `r` is the first entry that passes. */
  ghost predicate FirstToPass(entries: seq<Entry>, test: Entry -> bool, r: Entry) {
    exists i | 0 <= i < |entries| :: PassesFirst(entries, test, i) && entries[i] == r
  }

  ghost predicate PassesFirst(entries: seq<Entry>, test: Entry -> bool, i: nat)
    requires i < |entries|
  {
    test(entries[i]) && forall e | e in entries[..i] :: !test(e)
  }

  function FindEntry(entries: seq<Entry>, test: Entry -> bool): (r: Option<Entry>)
    ensures r.Some? ==> FirstToPass(entries, test, r.value)
    ensures r.None? ==> forall e | e in entries :: !test(e)
  {
    if entries == [] then None
    else if test(entries[0]) then
      assert PassesFirst(entries, test, 0);
      Some(entries[0])
    else
      var r := FindEntry(entries[1..], test);
      assert r.Some? ==> FirstToPass(entries, test, r.value) by {
        if r.Some? { FirstLater(entries, test, r.value); }
      }
      r
  }

  lemma FirstLater(entries: seq<Entry>, test: Entry -> bool, r: Entry)
    requires entries != [] && !test(entries[0]) && FirstToPass(entries[1..], test, r)
    ensures FirstToPass(entries, test, r)
  {
    var i :| 0 <= i < |entries[1..]| && PassesFirst(entries[1..], test, i) && entries[1..][i] == r;
    assert entries[..i + 1] == [entries[0]] + entries[1..][..i];
    assert PassesFirst(entries, test, i + 1) && entries[i + 1] == r;
  }

  // ---------------------------------------------------------------- calls and their effect

  /** What `createIdentifier` came back with. */
  datatype Supplied = Supplied(did: string, alias: Option<string>, keys: multiset<Key>, services: seq<Service>)

  /** A call of the manager, with what the provider or the KMS will answer (`None`, `false`: it rejects). */
  datatype Op =
    | Create(alias: Option<string>, provider: Option<string>, answer: Option<Supplied>)
    | GetOrCreate(wanted: string, provider: Option<string>, answer: Option<Supplied>)
    | SetAlias(did: string, newAlias: string)
    | Import(did: string, name: string, alias: Option<string>, imported: Option<multiset<Key>>, services: seq<Service>)
    | Delete(did: string, agrees: bool)
    | AddKey(did: string, key: Key, agrees: bool)
    | RemoveKey(did: string, kid: string, agrees: bool)
    | AddService(did: string, service: Service, agrees: bool)
    | RemoveService(did: string, id: string, agrees: bool)

  datatype Reply = Made(did: string) | Found(did: string) | Done | Failed(failure: Failure)

  predicate HasAlias(c: Contents, did: string, alias: string) {
    did in c && c[did].alias == Some(alias)
  }

  /** `getDID({ alias })` can succeed. */
  predicate AliasKnown(c: Contents, alias: string) {
    alias != "" && exists d | d in c :: HasAlias(c, d, alias)
  }

  function KeepServices(items: seq<Service>, id: string): seq<Service> {
    if items == [] then [] else (if items[0].id != id then [items[0]] else []) + KeepServices(items[1..], id)
  }

  /** `after` is `before` without the keys of that kid. */
  ghost predicate WithoutKid(before: multiset<Key>, kid: string, after: multiset<Key>) {
    && after <= before
    && (forall k | k in after :: k.kid != kid)
    && (forall k | k in before && k.kid != kid :: after[k] == before[k])
  }

  /** `didManagerCreate` */
  ghost predicate CreateStep(m: Providers, c: Contents, alias: Option<string>, provider: Option<string>,
      answer: Option<Supplied>, reply: Reply, after: Contents)
  {
    if alias.Some? && AliasKnown(c, alias.value) then reply == Failed(AliasTaken) && after == c
    else if m.Get(m.Choose(provider)).Err? then reply == Failed(NoProvider) && after == c
    else if answer.None? then reply == Failed(ProviderFailed) && after == c
    else
      && var made := answer.value;
      && reply == Made(made.did)
      && after == c[made.did := Record(m.Choose(provider), if Named(alias) then alias else made.alias,
                                       made.keys, made.services)]
  }

  /** `didManagerGetOrCreate` */
  ghost predicate GetOrCreateStep(m: Providers, c: Contents, alias: string, provider: Option<string>,
      answer: Option<Supplied>, reply: Reply, after: Contents)
  {
    if !AliasKnown(c, alias) then CreateStep(m, c, Some(alias), Some(m.Choose(provider)), answer, reply, after)
    else
      && after == c
      && exists d | d in c ::
           && HasAlias(c, d, alias)
           && reply == if !Named(provider) || c[d].provider == provider.value then Found(d)
                       else if m.Get(c[d].provider).Err? || m.Get(provider.value).Err? then Failed(NoProvider)
                       else if m.Get(c[d].provider) != m.Get(provider.value) then Failed(ProviderMismatch)
                       else Found(d)
  }

  /** Why an operation on a stored identifier stops before it changes anything. */
  function Refusal(m: Providers, c: Contents, did: string, agrees: bool): Option<Failure> {
    if did == "" then Some(InvalidArgument)
    else if did !in c then Some(NotFound)
    else if m.Get(c[did].provider).Err? then Some(NoProvider)
    else if !agrees then Some(ProviderFailed)
    else None
  }

  predicate OnRecord(op: Op) {
    op.AddKey? || op.RemoveKey? || op.AddService? || op.RemoveService?
  }

  /** An accepted operation on one record. */
  ghost predicate Changes(op: Op, before: Record, after: Record)
    requires OnRecord(op)
  {
    match op
    case AddKey(_, key, _) => after == before.(keys := before.keys + multiset{key})
    case RemoveKey(_, kid, _) => after == before.(keys := after.keys) && WithoutKid(before.keys, kid, after.keys)
    case AddService(_, service, _) => after == before.(services := before.services + [service])
    case RemoveService(_, id, _) => after == before.(services := KeepServices(before.services, id))
  }

  ghost predicate Step(m: Providers, c: Contents, op: Op, reply: Reply, after: Contents) {
    match op
    case Create(alias, provider, answer) => CreateStep(m, c, alias, provider, answer, reply, after)
    case GetOrCreate(alias, provider, answer) => GetOrCreateStep(m, c, alias, provider, answer, reply, after)
    case SetAlias(did, alias) =>
      if did == "" then reply == Failed(InvalidArgument) && after == c
      else if did !in c then reply == Failed(NotFound) && after == c
      else reply == Done && after == c[did := c[did].(alias := Some(alias))]
    case Import(did, name, alias, imported, services) =>
      if imported.None? then reply == Failed(KmsFailed) && after == c
      else reply == Done && after == c[did := Record(name, alias, imported.value, services)]
    case Delete(did, agrees) =>
      (match Refusal(m, c, did, agrees)
       case Some(f) => reply == Failed(f) && after == c
       case None => reply == Done && after == c - {did})
    case _ =>
      match Refusal(m, c, op.did, op.agrees)
      case Some(f) => reply == Failed(f) && after == c
      case None => reply == Done && op.did in after && after == c[op.did := after[op.did]]
                   && Changes(op, c[op.did], after[op.did])
  }

  lemma RefusedStep(m: Providers, c: Contents, op: Op, f: Failure)
    requires OnRecord(op) || op.Delete?
    requires Refusal(m, c, op.did, op.agrees) == Some(f)
    ensures Step(m, c, op, Failed(f), c)
  {
  }

  lemma AcceptedStep(m: Providers, c: Contents, op: Op, record: Record)
    requires OnRecord(op) && Refusal(m, c, op.did, op.agrees).None?
    requires Changes(op, c[op.did], record)
    ensures Step(m, c, op, Done, c[op.did := record])
  {
  }

  /** Whatever fails, in whichever of the operations, the store is as before. */
  lemma FailureChangesNothing(m: Providers, c: Contents, op: Op, f: Failure, after: Contents)
    requires Step(m, c, op, Failed(f), after)
    ensures after == c
  {
    assert OnRecord(op) ==> Refusal(m, c, op.did, op.agrees).Some?;
  }

  // ---------------------------------------------------------------- what undoes what

  /** Adding a key under a kid that is not in use and removing that kid restores the store. */
  lemma AddThenRemoveKey(m: Providers, c: Contents, did: string, key: Key, mid: Contents, after: Contents)
    requires Step(m, c, AddKey(did, key, true), Done, mid)
    requires Step(m, mid, RemoveKey(did, key.kid, true), Done, after)
    requires did in c ==> forall k | k in c[did].keys :: k.kid != key.kid
    ensures after == c
  {
    var before, restored := c[did].keys, after[did].keys;
    forall k: Key ensures restored[k] == before[k] {
      if k in before { assert k in before + multiset{key}; }
    }
    assert restored == before;
  }

  lemma {:induction false} KeepWithout(before: seq<Service>, service: Service)
    requires forall s | s in before :: s.id != service.id
    ensures KeepServices(before + [service], service.id) == before
  {
    if before == [] {
      assert ([service])[1..] == [];
    } else {
      assert (before + [service])[1..] == before[1..] + [service];
      KeepWithout(before[1..], service);
    }
  }

  /** Likewise for a service, in order. */
  lemma AddThenRemoveService(m: Providers, c: Contents, did: string, service: Service, mid: Contents, after: Contents)
    requires Step(m, c, AddService(did, service, true), Done, mid)
    requires Step(m, mid, RemoveService(did, service.id, true), Done, after)
    requires did in c ==> forall s | s in c[did].services :: s.id != service.id
    ensures after == c
  {
    KeepWithout(c[did].services, service);
  }

  // ---------------------------------------------------------------- aliases

  /** No two identifiers share an alias. */
  predicate UniqueAliases(c: Contents) {
    forall d, e | d in c && e in c && d != e :: c[d].alias.Some? ==> c[d].alias != c[e].alias
  }

  predicate FreeForOthers(c: Contents, did: string, alias: Option<string>) {
    alias.Some? ==> forall d | d in c && d != did :: c[d].alias != alias
  }

  /** The caller can tell that the call will not give a record an alias that another one has. */
  predicate AliasSafe(c: Contents, op: Op) {
    match op
    case Create(alias, _, answer) =>
      Named(alias) || answer.None? || FreeForOthers(c, answer.value.did, answer.value.alias)
    case GetOrCreate(alias, _, answer) =>
      alias != "" || answer.None? || FreeForOthers(c, answer.value.did, answer.value.alias)
    case SetAlias(did, alias) => FreeForOthers(c, did, Some(alias))
    case Import(did, _, alias, _, _) => FreeForOthers(c, did, alias)
    case _ => true
  }

  lemma PutKeepsUnique(c: Contents, did: string, record: Record)
    requires UniqueAliases(c)
    ensures UniqueAliases(c[did := record]) <==> FreeForOthers(c, did, record.alias)
  {
    var after := c[did := record];
    if UniqueAliases(after) && record.alias.Some? {
      forall d | d in c && d != did ensures c[d].alias != record.alias {
        assert after[d] == c[d] && after[did] == record;
      }
    }
  }

  lemma DropKeepsUnique(c: Contents, did: string)
    requires UniqueAliases(c)
    ensures UniqueAliases(c - {did})
  {
  }

  lemma OwnAliasFree(c: Contents, did: string)
    requires UniqueAliases(c) && did in c
    ensures FreeForOthers(c, did, c[did].alias)
  {
  }

  lemma CreateKeepsUnique(m: Providers, c: Contents, alias: Option<string>, provider: Option<string>,
      answer: Option<Supplied>, reply: Reply, after: Contents)
    requires UniqueAliases(c) && CreateStep(m, c, alias, provider, answer, reply, after)
    ensures UniqueAliases(after)
            <==> reply.Failed? || Named(alias) || answer.None? || FreeForOthers(c, answer.value.did, answer.value.alias)
  {
    if reply.Made? {
      PutKeepsUnique(c, reply.did, after[reply.did]);
    }
  }

  /** A call keeps aliases unique exactly when it fails or is alias-safe. */
  lemma StepKeepsUniqueIff(m: Providers, c: Contents, op: Op, reply: Reply, after: Contents)
    requires UniqueAliases(c) && Step(m, c, op, reply, after)
    ensures UniqueAliases(after) <==> reply.Failed? || AliasSafe(c, op)
  {
    hide UniqueAliases, FreeForOthers;
    match op
    case Create(alias, provider, answer) => CreateKeepsUnique(m, c, alias, provider, answer, reply, after);
    case GetOrCreate(alias, provider, answer) =>
      if !AliasKnown(c, alias) {
        CreateKeepsUnique(m, c, Some(alias), Some(m.Choose(provider)), answer, reply, after);
      } else {
        assert alias != "";
      }
    case SetAlias(did, alias) =>
      if reply.Done? { PutKeepsUnique(c, did, c[did].(alias := Some(alias))); }
    case Import(did, name, alias, imported, services) =>
      if reply.Done? { PutKeepsUnique(c, did, Record(name, alias, imported.value, services)); }
    case Delete(did, _) =>
      DropKeepsUnique(c, did);
    case _ =>
      if reply.Done? {
        PutKeepsUnique(c, op.did, after[op.did]);
        OwnAliasFree(c, op.did);
      }
  }

  // ---------------------------------------------------------------- runs

  datatype Event = Event(op: Op, reply: Reply)

  /** A sequential run of calls: what the store held before each call and after the last. */
  datatype Trace = Trace(events: seq<Event>, states: seq<Contents>)

  ghost predicate StepAt(m: Providers, t: Trace, i: nat)
    requires i < |t.events| && |t.states| == |t.events| + 1
  {
    Step(m, t.states[i], t.events[i].op, t.events[i].reply, t.states[i + 1])
  }

  ghost predicate Runs(m: Providers, t: Trace) {
    |t.states| == |t.events| + 1 && forall i | 0 <= i < |t.events| :: StepAt(m, t, i)
  }

  /** Calls other than setting an alias and importing, whose provider supplies no alias of its own. */
  predicate Routine(op: Op) {
    match op
    case Create(_, _, answer) => answer.Some? ==> answer.value.alias.None?
    case GetOrCreate(_, _, answer) => answer.Some? ==> answer.value.alias.None?
    case SetAlias(_, _) => false
    case Import(_, _, _, _, _) => false
    case _ => true
  }

  /** Over a run of routine calls no two stored identifiers ever share an alias. */
  lemma {:induction false} RunKeepsUnique(m: Providers, t: Trace, n: nat)
    requires Runs(m, t) && UniqueAliases(t.states[0])
    requires forall e | e in t.events :: Routine(e.op)
    requires n < |t.states|
    ensures UniqueAliases(t.states[n])
  {
    if n > 0 {
      RunKeepsUnique(m, t, n - 1);
      assert StepAt(m, t, n - 1);
      var e := t.events[n - 1];
      assert Routine(e.op);
      RoutineIsSafe(t.states[n - 1], e.op);
      StepKeepsUniqueIff(m, t.states[n - 1], e.op, e.reply, t.states[n]);
    }
  }

  lemma RoutineIsSafe(c: Contents, op: Op)
    requires Routine(op)
    ensures AliasSafe(c, op)
  {
  }

  /** The call neither removes the identifier nor puts another record in its place. */
  predicate Spares(e: Event, did: string) {
    && e.reply != Made(did)
    && (e.op.Delete? || e.op.SetAlias? || e.op.Import? ==> e.op.did != did || e.reply.Failed?)
  }

  lemma SparedKeepsAlias(m: Providers, c: Contents, e: Event, after: Contents, did: string)
    requires Step(m, c, e.op, e.reply, after) && Spares(e, did) && did in c
    ensures did in after && after[did].alias == c[did].alias && after[did].provider == c[did].provider
  {
    hide AliasKnown, HasAlias, WithoutKid, KeepServices;
  }

  lemma {:induction false} SparedLasts(m: Providers, t: Trace, start: nat, end: nat, did: string)
    requires Runs(m, t) && start <= end < |t.states|
    requires forall i | start <= i < end :: Spares(t.events[i], did)
    requires did in t.states[start]
    ensures did in t.states[end]
    ensures t.states[end][did].alias == t.states[start][did].alias
    ensures t.states[end][did].provider == t.states[start][did].provider
    decreases end
  {
    if start < end {
      SparedLasts(m, t, start, end - 1, did);
      assert StepAt(m, t, end - 1);
      SparedKeepsAlias(m, t.states[end - 1], t.events[end - 1], t.states[end], did);
    }
  }

  /** `getOrCreate` answers with an identifier that carries the alias, found or made. */
  lemma GotHasAlias(m: Providers, c: Contents, alias: string, provider: Option<string>, answer: Option<Supplied>,
      reply: Reply, after: Contents)
    requires alias != "" && GetOrCreateStep(m, c, alias, provider, answer, reply, after)
    requires reply.Made? || reply.Found?
    ensures HasAlias(after, reply.did, alias)
  {
  }

  /** An alias that one record carries is looked up, not created: the provider is not called. */
  lemma FoundUnlessMismatch(m: Providers, c: Contents, did: string, alias: string, provider: Option<string>,
      answer: Option<Supplied>, reply: Reply, after: Contents)
    requires alias != "" && GetOrCreateStep(m, c, alias, provider, answer, reply, after)
    requires HasAlias(c, did, alias) && UniqueAliases(c)
    ensures after == c
    ensures reply == Found(did) <==> !Named(provider) || m.SameProvider(c[did].provider, provider.value)
    ensures reply != Found(did) ==> reply == Failed(NoProvider) || reply == Failed(ProviderMismatch)
  {
    assert AliasKnown(c, alias);
    forall d | d in c && HasAlias(c, d, alias) ensures d == did {
      assert c[d].alias == c[did].alias;
    }
  }

  /** The call makes the identifier (again) under the alias. */
  predicate MakesUnder(e: Event, did: string, alias: string) {
    && e.reply == Made(did)
    && ((e.op.Create? && e.op.alias == Some(alias)) || (e.op.GetOrCreate? && e.op.wanted == alias))
  }

  /** From the first call on, whatever deletes or replaces the identifier is made up for. */
  predicate Restored(events: seq<Event>, start: nat, end: nat, did: string, alias: string)
    requires start <= end <= |events|
  {
    forall k | start <= k < end && !Spares(events[k], did) ::
      exists l | k <= l < end :: MakesUnder(events[l], did, alias)
  }

  /** What a routine call does to an identifier's claim to an alias. */
  lemma AliasAfter(m: Providers, c: Contents, e: Event, after: Contents, did: string, alias: string)
    requires Step(m, c, e.op, e.reply, after) && Routine(e.op) && alias != ""
    ensures HasAlias(after, did, alias) <==>
            MakesUnder(e, did, alias) || (Spares(e, did) && HasAlias(c, did, alias))
  {
    hide AliasKnown, WithoutKid, KeepServices;
  }

  lemma {:induction false} AliasLastsIff(m: Providers, t: Trace, start: nat, end: nat, did: string, alias: string)
    requires Runs(m, t) && start <= end < |t.states| && alias != ""
    requires forall e | e in t.events :: Routine(e.op)
    requires HasAlias(t.states[start], did, alias)
    ensures HasAlias(t.states[end], did, alias) <==> Restored(t.events, start, end, did, alias)
    decreases end
  {
    hide Step, HasAlias, Spares, MakesUnder, Routine;
    if start < end {
      var last := end - 1;
      AliasLastsIff(m, t, start, last, did, alias);
      assert StepAt(m, t, last);
      AliasAfter(m, t.states[last], t.events[last], t.states[end], did, alias);
      if Spares(t.events[last], did) {
        RestoredBefore(t.events, start, last, did, alias);
      }
    }
  }

  /** A call that spares the identifier makes up for nothing. */
  lemma RestoredBefore(events: seq<Event>, start: nat, last: nat, did: string, alias: string)
    requires start <= last < |events| && Spares(events[last], did)
    ensures Restored(events, start, last + 1, did, alias) <==> Restored(events, start, last, did, alias)
  {
    assert !MakesUnder(events[last], did, alias);
    hide MakesUnder;
    if Restored(events, start, last + 1, did, alias) {
      forall k | start <= k < last && !Spares(events[k], did)
        ensures exists l | k <= l < last :: MakesUnder(events[l], did, alias)
      {
        var l :| k <= l < last + 1 && MakesUnder(events[l], did, alias);
        assert l != last;
      }
    }
  }

  /**
   * A second `getOrCreate` for an alias returns the first one's identifier without calling the provider exactly when
   * whatever deleted or replaced that identifier in between was made up for by making it again under the alias, and
   * the call names no provider or a compatible one.
   */
  lemma SecondGetOrCreate(m: Providers, t: Trace, i: nat, j: nat)
    requires Runs(m, t) && UniqueAliases(t.states[0]) && i < j < |t.events|
    requires forall e | e in t.events :: Routine(e.op)
    requires t.events[i].op.GetOrCreate? && t.events[j].op.GetOrCreate?
    requires t.events[i].op.wanted == t.events[j].op.wanted != ""
    requires t.events[i].reply.Made? || t.events[i].reply.Found?
    ensures var did, alias, provider := t.events[i].reply.did, t.events[i].op.wanted, t.events[j].op.provider;
      && (Restored(t.events, i + 1, j, did, alias) ==> did in t.states[j] && t.states[j + 1] == t.states[j])
      && (t.events[j].reply == Found(did) <==>
            && Restored(t.events, i + 1, j, did, alias)
            && (!Named(provider) || m.SameProvider(t.states[j][did].provider, provider.value)))
  {
    hide Step, UniqueAliases, GetOrCreateStep, HasAlias, Restored, Routine;
    var first, second := t.events[i], t.events[j];
    var did, alias := first.reply.did, first.op.wanted;
    assert StepAt(m, t, i) && StepAt(m, t, j);
    GotIs(m, t.states[i], first, t.states[i + 1]);
    AliasLastsIff(m, t, i + 1, j, did, alias);
    GotIs(m, t.states[j], second, t.states[j + 1]);
    if Restored(t.events, i + 1, j, did, alias) {
      RunKeepsUnique(m, t, j);
      HasAliasIs(t.states[j], did, alias);
      FoundUnlessMismatch(m, t.states[j], did, alias, second.op.provider, second.op.answer, second.reply,
                          t.states[j + 1]);
    } else {
      NotFoundWithout(m, t.states[j], did, second, t.states[j + 1]);
    }
  }

  /** With nothing deleting or replacing the identifier in between, its provider is the one it was got with. */
  lemma SecondGetOrCreateSpared(m: Providers, t: Trace, i: nat, j: nat)
    requires Runs(m, t) && UniqueAliases(t.states[0]) && i < j < |t.events|
    requires forall e | e in t.events :: Routine(e.op)
    requires t.events[i].op.GetOrCreate? && t.events[j].op.GetOrCreate?
    requires t.events[i].op.wanted == t.events[j].op.wanted != ""
    requires t.events[i].reply.Made? || t.events[i].reply.Found?
    requires forall k | i < k < j :: Spares(t.events[k], t.events[i].reply.did)
    ensures var did, provider := t.events[i].reply.did, t.events[j].op.provider;
      && t.states[j + 1] == t.states[j]
      && did in t.states[i + 1]
      && (t.events[j].reply == Found(did)
          <==> !Named(provider) || m.SameProvider(t.states[i + 1][did].provider, provider.value))
  {
    hide Step, UniqueAliases, GetOrCreateStep, HasAlias, MakesUnder, Routine, Spares;
    var first := t.events[i];
    assert StepAt(m, t, i);
    GotIs(m, t.states[i], first, t.states[i + 1]);
    SecondGetOrCreate(m, t, i, j);
    SparedLasts(m, t, i + 1, j, first.reply.did);
  }

  lemma HasAliasIs(c: Contents, did: string, alias: string)
    requires HasAlias(c, did, alias)
    ensures did in c
  {
  }

  lemma NotFoundWithout(m: Providers, c: Contents, did: string, e: Event, after: Contents)
    requires e.op.GetOrCreate? && GetOrCreateStep(m, c, e.op.wanted, e.op.provider, e.op.answer, e.reply, after)
    requires !HasAlias(c, did, e.op.wanted)
    ensures e.reply != Found(did)
  {
  }

  lemma GotIs(m: Providers, c: Contents, e: Event, after: Contents)
    requires e.op.GetOrCreate? && Step(m, c, e.op, e.reply, after) && e.op.wanted != ""
    ensures GetOrCreateStep(m, c, e.op.wanted, e.op.provider, e.op.answer, e.reply, after)
    ensures e.reply.Made? || e.reply.Found? ==> HasAlias(after, e.reply.did, e.op.wanted) && e.reply.did in after
  {
    if e.reply.Made? || e.reply.Found? {
      GotHasAlias(m, c, e.op.wanted, e.op.provider, e.op.answer, e.reply, after);
    }
  }

  /**
   * The condition on replacement is needed: a provider that answers a later `create` with the same DID overwrites the
   * record, after which the first alias is unknown and `getOrCreate` calls the provider again.
   */
  lemma ReplacedIsForgotten(m: Providers, did: string, other: string) returns (t: Trace)
    requires m.Get(m.fallback).Ok? && did != other
    ensures Runs(m, t) && t.states[0] == map[] && |t.events| == 3
    ensures forall e | e in t.events :: Routine(e.op)
    ensures t.events[0].op.GetOrCreate? && t.events[2].op.GetOrCreate?
    ensures t.events[0].op.wanted == t.events[2].op.wanted != ""
    ensures t.events[1].op.Create?
    ensures t.events[0].reply == Made(did) && t.events[2].reply == Made(other)
  {
    hide Changes, KeepServices, WithoutKid, Refusal;
    var a, b := Supplied(did, None, multiset{}, []), Supplied(other, None, multiset{}, []);
    var first := Record(m.fallback, Some("a"), multiset{}, []);
    var c0: Contents := map[];
    var c1: Contents := map[did := first];
    var c2: Contents := map[did := first.(alias := Some("b"))];
    var c3 := c2[other := first];
    t := Trace([Event(GetOrCreate("a", None, Some(a)), Made(did)), Event(Create(Some("b"), None, Some(a)), Made(did)),
                Event(GetOrCreate("a", None, Some(b)), Made(other))], [c0, c1, c2, c3]);
    assert !HasAlias(c1, did, "b") && !HasAlias(c2, did, "a");
    assert c1 == c0[did := first] && c2 == c1[did := first.(alias := Some("b"))];
    assert StepAt(m, t, 0);
    assert StepAt(m, t, 1);
    assert StepAt(m, t, 2);
  }
}
