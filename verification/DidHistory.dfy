/** What the DID manager's store holds, read off the history of its calls. */
module DidHistory {
  import opened Results
  import opened DidRecords

  // ---------------------------------------------------------------- which provider serves a name

  /** Some provider goes by the name or takes its prefix. */
  ghost predicate Configured(m: Providers, name: string) {
    exists e | e in m.entries :: e.name == name || e.matches(name)
  }

  /** The first with that name, or, if none has it, the first that takes the prefix. */
  lemma ServesFirst(m: Providers, name: string)
    ensures m.Get(name).Ok? <==> Configured(m, name)
    ensures m.Get(name).Err? ==> m.Get(name) == Err(NoProvider)
    ensures m.Get(name).Ok? ==>
      exists i | 0 <= i < |m.entries| :: m.Get(name) == Ok(m.entries[i].id) && Serves(m, name, i)
  {
    var named, prefixed := FindEntry(m.entries, (e: Entry) => e.name == name),
        FindEntry(m.entries, (e: Entry) => e.matches(name));
    if named.Some? {
      var i :| 0 <= i < |m.entries| && PassesFirst(m.entries, (e: Entry) => e.name == name, i)
               && m.entries[i] == named.value;
      assert forall j | 0 <= j < i :: m.entries[j] in m.entries[..i];
      assert Serves(m, name, i);
    } else if prefixed.Some? {
      var i :| 0 <= i < |m.entries| && PassesFirst(m.entries, (e: Entry) => e.matches(name), i)
               && m.entries[i] == prefixed.value;
      assert forall j | 0 <= j < i :: m.entries[j] in m.entries[..i];
      assert m.entries[i] in m.entries;
      assert Serves(m, name, i);
    }
  }

  ghost predicate Serves(m: Providers, name: string, i: nat)
    requires i < |m.entries|
  {
    if m.entries[i].name == name then forall j | 0 <= j < i :: m.entries[j].name != name
    else
      && m.entries[i].matches(name) && (forall e | e in m.entries :: e.name != name)
      && forall j | 0 <= j < i :: !m.entries[j].matches(name)
  }

  // ---------------------------------------------------------------- when a call succeeds

  ghost predicate Taken(c: Contents, alias: string) {
    alias != "" && exists d | d in c :: c[d].alias == Some(alias)
  }

  function OrDefault(m: Providers, provider: Option<string>): string {
    if Named(provider) then provider.value else m.fallback
  }

  /** An identifier is made exactly when its alias is free, the provider is there, and it delivers. */
  lemma MadeIff(m: Providers, c: Contents, op: Op, reply: Reply, after: Contents)
    requires (op.Create? || op.GetOrCreate?) && Step(m, c, op, reply, after)
    ensures var alias := if op.Create? then op.alias else Some(op.wanted);
      && (reply.Made? <==> !(alias.Some? && Taken(c, alias.value)) && Configured(m, OrDefault(m, op.provider))
                           && op.answer.Some?)
      && (reply == Failed(AliasTaken) <==> op.Create? && alias.Some? && Taken(c, alias.value))
      && (reply == Failed(ProviderFailed) <==>
            !(alias.Some? && Taken(c, alias.value)) && Configured(m, OrDefault(m, op.provider)) && op.answer.None?)
  {
    ServesFirst(m, OrDefault(m, op.provider));
    hide Configured;
    var alias := if op.Create? then op.alias else Some(op.wanted);
    if alias.Some? {
      assert AliasKnown(c, alias.value) <==> Taken(c, alias.value) by {
        assert forall d | d in c :: HasAlias(c, d, alias.value) <==> c[d].alias == Some(alias.value);
      }
    }
  }

  /** Two names are as good as one when they are equal or served by the same provider. */
  lemma SameProviderIff(m: Providers, a: string, b: string)
    ensures m.SameProvider(a, b) <==>
            a == b || exists i, j | 0 <= i < |m.entries| && 0 <= j < |m.entries| ::
              Serves(m, a, i) && Serves(m, b, j) && m.entries[i].id == m.entries[j].id
  {
    ServesFirst(m, a);
    ServesFirst(m, b);
    forall i | 0 <= i < |m.entries| && Serves(m, a, i) ensures m.Get(a) == Ok(m.entries[i].id) { ServesOne(m, a, i); }
    forall i | 0 <= i < |m.entries| && Serves(m, b, i) ensures m.Get(b) == Ok(m.entries[i].id) { ServesOne(m, b, i); }
    hide Serves, Providers.Get, Configured;
  }

  lemma ServesOne(m: Providers, name: string, i: nat)
    requires i < |m.entries| && Serves(m, name, i)
    ensures m.Get(name) == Ok(m.entries[i].id)
  {
    ServesFirst(m, name);
    assert m.entries[i] in m.entries;
    assert Configured(m, name);
    var j :| 0 <= j < |m.entries| && m.Get(name) == Ok(m.entries[j].id) && Serves(m, name, j);
    hide Providers.Get;
    assert m.entries[j] in m.entries;
    assert i == j;
  }

  /** An operation on a stored identifier is done exactly when it is there, its provider is, and the provider agrees. */
  lemma DoneIff(m: Providers, c: Contents, op: Op, reply: Reply, after: Contents)
    requires (OnRecord(op) || op.Delete?) && Step(m, c, op, reply, after)
    ensures reply == Done <==> op.did != "" && op.did in c && Configured(m, c[op.did].provider) && op.agrees
    ensures reply == Failed(InvalidArgument) <==> op.did == ""
    ensures reply == Failed(NotFound) <==> op.did != "" && op.did !in c
    ensures reply == Failed(NoProvider) <==> op.did != "" && op.did in c && !Configured(m, c[op.did].provider)
    ensures reply == Failed(ProviderFailed) <==>
            op.did != "" && op.did in c && Configured(m, c[op.did].provider) && !op.agrees
  {
    if op.did in c { ServesFirst(m, c[op.did].provider); }
    hide Providers.Get, Configured, Changes;
  }

  /** Setting an alias asks no provider, and an import looks at no stored record. */
  lemma UnaskedIff(m: Providers, c: Contents, op: Op, reply: Reply, after: Contents)
    requires (op.SetAlias? || op.Import?) && Step(m, c, op, reply, after)
    ensures op.SetAlias? ==>
      reply == if op.did == "" then Failed(InvalidArgument) else if op.did in c then Done else Failed(NotFound)
    ensures op.Import? ==> reply == if op.imported.Some? then Done else Failed(KmsFailed)
  {
  }

  // ---------------------------------------------------------------- removing services

  /** What is kept of a list is what is kept of its parts, in order. */
  lemma {:induction false} KeptInOrder(a: seq<Service>, b: seq<Service>, id: string)
    ensures KeepServices(a + b, id) == KeepServices(a, id) + KeepServices(b, id)
  {
    if a == [] {
      assert [] + b == b;
    } else {
      assert (a + b)[1..] == a[1..] + b;
      KeptInOrder(a[1..], b, id);
    }
  }

  /** Of one service, it is kept exactly when it has another id. */
  lemma KeptOne(s: Service, id: string)
    ensures KeepServices([s], id) == if s.id == id then [] else [s]
  {
    assert [s][1..] == [];
  }

  lemma {:induction false} KeptMembers(items: seq<Service>, id: string, s: Service)
    ensures s in KeepServices(items, id) <==> s in items && s.id != id
  {
    if items != [] {
      KeptMembers(items[1..], id, s);
      assert items == [items[0]] + items[1..];
    }
  }

  // ---------------------------------------------------------------- what a call does to the store

  /** The record with which the call puts the identifier into the store. */
  function Origin(m: Providers, e: Event, did: string): Option<Record> {
    match e.op
    case Create(alias, provider, Some(made)) =>
      if e.reply == Made(did) then
        Some(Record(OrDefault(m, provider), if Named(alias) then alias else made.alias, made.keys, made.services))
      else None
    case GetOrCreate(wanted, provider, Some(made)) =>
      if e.reply == Made(did) then
        Some(Record(OrDefault(m, provider), if wanted == "" then made.alias else Some(wanted), made.keys,
                    made.services))
      else None
    case Import(named, name, alias, Some(keys), services) =>
      if e.reply == Done && named == did then Some(Record(name, alias, keys, services)) else None
    case _ => None
  }

  /** The call is an accepted change of that identifier. */
  predicate Accepted(e: Event, did: string) {
    e.reply == Done && !e.op.Create? && !e.op.GetOrCreate? && e.op.did == did
  }

  /** The call takes away the record that was there. */
  predicate Ends(m: Providers, e: Event, did: string) {
    (e.op.Delete? && Accepted(e, did)) || Origin(m, e, did).Some?
  }

  /** The call leaves the identifier alone. */
  predicate Passes(m: Providers, e: Event, did: string) {
    !Accepted(e, did) && Origin(m, e, did).None?
  }

  /** A call that leaves an identifier alone leaves its record, or its absence, as it was. */
  lemma PassedStays(m: Providers, c: Contents, e: Event, after: Contents, did: string)
    requires Step(m, c, e.op, e.reply, after) && Passes(m, e, did)
    ensures did in after <==> did in c
    ensures did in c ==> after[did] == c[did]
  {
    hide AliasKnown, HasAlias, Changes, Providers.Get;
  }

  lemma BegunIs(m: Providers, c: Contents, e: Event, after: Contents, did: string)
    requires Step(m, c, e.op, e.reply, after) && Origin(m, e, did).Some?
    ensures did in after && after[did] == Origin(m, e, did).value
  {
    hide AliasKnown, HasAlias, Changes, Providers.Get;
  }

  /** The accepted changes of a record, field by field. */
  lemma ChangedIs(m: Providers, c: Contents, e: Event, after: Contents, did: string)
    requires Step(m, c, e.op, e.reply, after) && Accepted(e, did) && !e.op.Import?
    ensures did in c && (did in after <==> !e.op.Delete?)
    ensures did in after ==> after[did].provider == c[did].provider
    ensures did in after ==> after[did].alias == if e.op.SetAlias? then Some(e.op.newAlias) else c[did].alias
    ensures did in after ==> forall k: Key ::
      after[did].keys[k] == (if e.op.RemoveKey? && k.kid == e.op.kid then 0 else c[did].keys[k])
                            + if e.op.AddKey? && k == e.op.key then 1 else 0
    ensures did in after && !e.op.RemoveService? ==>
      after[did].services == c[did].services + if e.op.AddService? then [e.op.service] else []
    ensures did in after && e.op.RemoveService? ==> after[did].services == KeepServices(c[did].services, e.op.id)
  {
    hide AliasKnown, HasAlias, Providers.Get, KeepServices;
    if e.op.RemoveKey? {
      var before, left := c[did].keys, after[did].keys;
      forall k: Key ensures left[k] == if k.kid == e.op.kid then 0 else before[k] {
        if k.kid != e.op.kid && k !in before { assert k !in left; }
      }
    }
  }

  // ---------------------------------------------------------------- histories

  /** It held at first or was brought about by one of the first `n` calls, and no call since has ended it. */
  ghost predicate Since(events: seq<Event>, n: nat, atFirst: bool, begins: Event -> bool, ends: Event -> bool)
    requires n <= |events|
  {
    || (atFirst && forall k | 0 <= k < n :: !ends(events[k]))
    || exists i | 0 <= i < n :: begins(events[i]) && forall k | i < k < n :: !ends(events[k])
  }

  lemma SinceNext(events: seq<Event>, n: nat, atFirst: bool, begins: Event -> bool, ends: Event -> bool)
    requires n < |events|
    ensures Since(events, n + 1, atFirst, begins, ends) <==>
            begins(events[n]) || (Since(events, n, atFirst, begins, ends) && !ends(events[n]))
  {
    if begins(events[n]) {
      assert Since(events, n + 1, atFirst, begins, ends);
    } else if Since(events, n, atFirst, begins, ends) && !ends(events[n]) {
      if i :| 0 <= i < n && begins(events[i]) && forall k | i < k < n :: !ends(events[k]) {
        assert begins(events[i]) && forall k | i < k < n + 1 :: !ends(events[k]);
      }
    }
  }

  /** A fact about the store that every step of the run brings about, ends or leaves alone, as its call tells. */
  ghost predicate Tracked(t: Trace, fact: Contents -> bool, begins: Event -> bool, ends: Event -> bool)
    requires |t.states| == |t.events| + 1
  {
    forall i | 0 <= i < |t.events| ::
      fact(t.states[i + 1]) <==> begins(t.events[i]) || (fact(t.states[i]) && !ends(t.events[i]))
  }

  lemma {:induction false} TrackedIsHistory(t: Trace, n: nat, fact: Contents -> bool, begins: Event -> bool,
      ends: Event -> bool)
    requires |t.states| == |t.events| + 1 && n < |t.states| && Tracked(t, fact, begins, ends)
    ensures fact(t.states[n]) <==> Since(t.events, n, fact(t.states[0]), begins, ends)
  {
    if n == 0 {
    } else {
      TrackedIsHistory(t, n - 1, fact, begins, ends);
      SinceNext(t.events, n - 1, fact(t.states[0]), begins, ends);
      hide Since;
    }
  }

  /** A step either passes the identifier by, or begins its record anew, or changes the one that is there. */
  lemma OneOfThree(m: Providers, c: Contents, e: Event, after: Contents, did: string)
    requires Step(m, c, e.op, e.reply, after)
    ensures Passes(m, e, did) || Origin(m, e, did).Some? || (Accepted(e, did) && !e.op.Import?)
  {
  }

  predicate Stored(c: Contents, did: string, fact: Record -> bool) {
    did in c && fact(c[did])
  }

  /** What brings a fact about a record about: the call that stores the record, or an accepted change. */
  predicate Begins(m: Providers, e: Event, did: string, fact: Record -> bool, sets: Op -> bool) {
    (Origin(m, e, did).Some? && fact(Origin(m, e, did).value)) || (Accepted(e, did) && sets(e.op))
  }

  /** What ends it: the record is replaced or deleted, or an accepted change. */
  predicate EndsIt(m: Providers, e: Event, did: string, clears: Op -> bool) {
    Ends(m, e, did) || (Accepted(e, did) && clears(e.op))
  }

  /** The accepted change `op` of a record brings the fact about, ends it or leaves it alone. */
  ghost predicate Moves(fact: Record -> bool, sets: Op -> bool, clears: Op -> bool, op: Op, before: Record,
                        after: Record)
  {
    fact(after) <==> sets(op) || (fact(before) && !clears(op))
  }

  /** The changes of the run move the fact as told. */
  ghost predicate MovedInRun(t: Trace, did: string, fact: Record -> bool, sets: Op -> bool, clears: Op -> bool)
    requires |t.states| == |t.events| + 1
  {
    forall i | 0 <= i < |t.events| && did in t.states[i] && did in t.states[i + 1] && Accepted(t.events[i], did)
               && !t.events[i].op.Import? ::
      Moves(fact, sets, clears, t.events[i].op, t.states[i][did], t.states[i + 1][did])
  }

  /** The fact held at first or was brought about by one of the first `n` calls, and none has ended it since. */
  ghost predicate ToldByCalls(m: Providers, t: Trace, n: nat, did: string, fact: Record -> bool, sets: Op -> bool,
                              clears: Op -> bool)
    requires n <= |t.events| && t.states != []
  {
    Since(t.events, n, Stored(t.states[0], did, fact), e => Begins(m, e, did, fact, sets),
          e => EndsIt(m, e, did, clears))
  }

  lemma FactStep(m: Providers, t: Trace, i: nat, did: string, fact: Record -> bool, sets: Op -> bool,
                 clears: Op -> bool)
    requires Runs(m, t) && i < |t.events| && MovedInRun(t, did, fact, sets, clears)
    requires forall op: Op | op.Delete? || op.Import? :: !sets(op)
    ensures Stored(t.states[i + 1], did, fact) <==>
            || Begins(m, t.events[i], did, fact, sets)
            || (Stored(t.states[i], did, fact) && !EndsIt(m, t.events[i], did, clears))
  {
    assert StepAt(m, t, i);
    var c, e, after := t.states[i], t.events[i], t.states[i + 1];
    OneOfThree(m, c, e, after, did);
    if Passes(m, e, did) {
      PassedStays(m, c, e, after, did);
    } else if Origin(m, e, did).Some? {
      BegunIs(m, c, e, after, did);
    } else {
      ChangedIs(m, c, e, after, did);
    }
    hide Step, Runs, StepAt;
  }

  /** A fact about a stored record holds exactly when a call has brought it about and none has ended it since. */
  lemma FactIsHistory(m: Providers, t: Trace, n: nat, did: string, fact: Record -> bool, sets: Op -> bool,
                      clears: Op -> bool)
    requires Runs(m, t) && n < |t.states| && MovedInRun(t, did, fact, sets, clears)
    requires forall op: Op | op.Delete? || op.Import? :: !sets(op)
    ensures Stored(t.states[n], did, fact) <==> ToldByCalls(m, t, n, did, fact, sets, clears)
  {
    hide Step, StepAt, Since, Stored, Begins, EndsIt, MovedInRun;
    var begins, ends := e => Begins(m, e, did, fact, sets), e => EndsIt(m, e, did, clears);
    var stored := c => Stored(c, did, fact);
    forall i | 0 <= i < |t.events|
      ensures stored(t.states[i + 1]) <==> begins(t.events[i]) || (stored(t.states[i]) && !ends(t.events[i]))
    {
      FactStep(m, t, i, did, fact, sets, clears);
    }
    TrackedIsHistory(t, n, stored, begins, ends);
  }

  // ---------------------------------------------------------------- the facts that make up a record

  function HasProvider(name: string): Record -> bool {
    (r: Record) => r.provider == name
  }

  function HasThatAlias(alias: Option<string>): Record -> bool {
    (r: Record) => r.alias == alias
  }

  function HasKey(k: Key): Record -> bool {
    (r: Record) => k in r.keys
  }

  function HasService(s: Service): Record -> bool {
    (r: Record) => s in r.services
  }

  const ANY: Record -> bool := (_: Record) => true
  const NEVER: Op -> bool := (_: Op) => false
  const ANY_ALIAS: Op -> bool := (op: Op) => op.SetAlias?

  function SetsTo(alias: Option<string>): Op -> bool {
    (op: Op) => op.SetAlias? && Some(op.newAlias) == alias
  }

  function AddsKey(k: Key): Op -> bool {
    (op: Op) => op.AddKey? && op.key == k
  }

  function RemovesKey(k: Key): Op -> bool {
    (op: Op) => op.RemoveKey? && op.kid == k.kid
  }

  function AddsService(s: Service): Op -> bool {
    (op: Op) => op.AddService? && op.service == s
  }

  function RemovesService(s: Service): Op -> bool {
    (op: Op) => op.RemoveService? && op.id == s.id
  }

  /**
   * The store is what its calls say, and nothing else: an identifier is there, with that provider, that alias, that
   * key or that service, exactly when it was so at first or a call has brought it about, and none has ended it since.
   */
  lemma StoreIsHistory(m: Providers, t: Trace, n: nat, did: string, name: string, alias: Option<string>, k: Key,
                       s: Service)
    requires Runs(m, t) && n < |t.states|
    ensures did in t.states[n] <==> ToldByCalls(m, t, n, did, ANY, NEVER, NEVER)
    ensures Stored(t.states[n], did, HasProvider(name)) <==>
            ToldByCalls(m, t, n, did, HasProvider(name), NEVER, NEVER)
    ensures Stored(t.states[n], did, HasThatAlias(alias)) <==>
            ToldByCalls(m, t, n, did, HasThatAlias(alias), SetsTo(alias), ANY_ALIAS)
    ensures Stored(t.states[n], did, HasKey(k)) <==>
            ToldByCalls(m, t, n, did, HasKey(k), AddsKey(k), RemovesKey(k))
    ensures Stored(t.states[n], did, HasService(s)) <==>
            ToldByCalls(m, t, n, did, HasService(s), AddsService(s), RemovesService(s))
  {
    hide ToldByCalls, Step, StepAt, Runs, MovedInRun;
    FieldsMove(m, t, did, name, alias, k, s);
    FactIsHistory(m, t, n, did, ANY, NEVER, NEVER);
    FactIsHistory(m, t, n, did, HasProvider(name), NEVER, NEVER);
    FactIsHistory(m, t, n, did, HasThatAlias(alias), SetsTo(alias), ANY_ALIAS);
    FactIsHistory(m, t, n, did, HasKey(k), AddsKey(k), RemovesKey(k));
    FactIsHistory(m, t, n, did, HasService(s), AddsService(s), RemovesService(s));
  }

  lemma FieldsMove(m: Providers, t: Trace, did: string, name: string, alias: Option<string>, k: Key, s: Service)
    requires Runs(m, t)
    ensures MovedInRun(t, did, ANY, NEVER, NEVER) && MovedInRun(t, did, HasProvider(name), NEVER, NEVER)
    ensures MovedInRun(t, did, HasThatAlias(alias), SetsTo(alias), ANY_ALIAS)
    ensures MovedInRun(t, did, HasKey(k), AddsKey(k), RemovesKey(k))
    ensures MovedInRun(t, did, HasService(s), AddsService(s), RemovesService(s))
  {
    forall i | 0 <= i < |t.events| && did in t.states[i] && did in t.states[i + 1] && Accepted(t.events[i], did)
               && !t.events[i].op.Import?
      ensures Moves(ANY, NEVER, NEVER, t.events[i].op, t.states[i][did], t.states[i + 1][did])
      ensures Moves(HasProvider(name), NEVER, NEVER, t.events[i].op, t.states[i][did], t.states[i + 1][did])
      ensures Moves(HasThatAlias(alias), SetsTo(alias), ANY_ALIAS, t.events[i].op, t.states[i][did],
                    t.states[i + 1][did])
      ensures Moves(HasKey(k), AddsKey(k), RemovesKey(k), t.events[i].op, t.states[i][did], t.states[i + 1][did])
      ensures Moves(HasService(s), AddsService(s), RemovesService(s), t.events[i].op, t.states[i][did],
                    t.states[i + 1][did])
    {
      assert StepAt(m, t, i);
      FieldMoves(m, t.states[i], t.events[i], t.states[i + 1], did, name, alias, k, s);
    }
    hide Moves, Runs, StepAt, Step;
  }

  lemma FieldMoves(m: Providers, c: Contents, e: Event, after: Contents, did: string, name: string,
                   alias: Option<string>, k: Key, s: Service)
    requires Step(m, c, e.op, e.reply, after) && Accepted(e, did) && !e.op.Import? && did in c && did in after
    ensures Moves(ANY, NEVER, NEVER, e.op, c[did], after[did])
    ensures Moves(HasProvider(name), NEVER, NEVER, e.op, c[did], after[did])
    ensures Moves(HasThatAlias(alias), SetsTo(alias), ANY_ALIAS, e.op, c[did], after[did])
    ensures Moves(HasKey(k), AddsKey(k), RemovesKey(k), e.op, c[did], after[did])
    ensures Moves(HasService(s), AddsService(s), RemovesService(s), e.op, c[did], after[did])
  {
    ChangedIs(m, c, e, after, did);
    hide Step, KeepServices;
    if e.op.RemoveService? {
      KeptMembers(c[did].services, e.op.id, s);
    }
  }
}
