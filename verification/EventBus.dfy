/** The agent's listener registration and its `emit`, run against an environment that settles promises as it likes. */
module EventBus {
  import opened Results
  import opened Strings
  import opened EventQueue

  const ERROR := "ev_err"

  /** What matters of a plugin: the event types it listens to, if it has an `onEvent`. */
  datatype Plugin = Plugin(eventTypes: seq<string>, listens: bool)

  /** How many listeners the constructor registers for a type: one for each time a plugin names it. */
  function Registered(plugins: seq<Plugin>, eventType: string): nat {
    if plugins == [] then 0
    else
      var last := plugins[|plugins| - 1];
      Registered(plugins[..|plugins| - 1], eventType)
      + if last.listens then Occurrences(last.eventTypes, eventType) else 0
  }

  /** Where a plugin with an `onEvent` names the type: its place among the plugins, and the type's in its list. */
  ghost function Subscriptions(plugins: seq<Plugin>, eventType: string): set<(nat, nat)> {
    set i: nat, j: nat | i < |plugins| && j < |plugins[i].eventTypes| && plugins[i].listens
                         && plugins[i].eventTypes[j] == eventType :: (i, j)
  }

  ghost function Places(texts: seq<string>, text: string, i: nat): set<(nat, nat)> {
    set j: nat | j < |texts| && texts[j] == text :: (i, j)
  }

  lemma {:induction false} PlacesCount(texts: seq<string>, text: string, i: nat)
    ensures |Places(texts, text, i)| == Occurrences(texts, text)
  {
    if texts == [] {
      assert Places(texts, text, i) == {};
    } else {
      var last := |texts| - 1;
      PlacesCount(texts[..last], text, i);
      var front := Places(texts[..last], text, i);
      assert (i, last) !in front;
      assert Places(texts, text, i) == front + if texts[last] == text then {(i, last)} else {};
    }
  }

  lemma SubscriptionsSnoc(plugins: seq<Plugin>, n: nat, eventType: string)
    requires n + 1 == |plugins|
    ensures var front := Subscriptions(plugins[..n], eventType);
      var here := if plugins[n].listens then Places(plugins[n].eventTypes, eventType, n) else {};
      Subscriptions(plugins, eventType) == front + here && front !! here
  {
    var front := Subscriptions(plugins[..n], eventType);
    var here := if plugins[n].listens then Places(plugins[n].eventTypes, eventType, n) else {};
    forall pair ensures pair in Subscriptions(plugins, eventType) <==> pair in front + here {
      var i, j := pair.0, pair.1;
      if i < n { assert plugins[..n][i] == plugins[i]; }
    }
  }

  /** As many listeners as there are such places. */
  lemma {:induction false} RegisteredCount(plugins: seq<Plugin>, eventType: string)
    ensures Registered(plugins, eventType) == |Subscriptions(plugins, eventType)|
  {
    if plugins == [] {
      assert Subscriptions(plugins, eventType) == {};
    } else {
      var n := |plugins| - 1;
      RegisteredCount(plugins[..n], eventType);
      PlacesCount(plugins[n].eventTypes, eventType, n);
      SubscriptionsSnoc(plugins, n, eventType);
      hide Subscriptions, Places, Occurrences;
    }
  }

  /** A plugin with an `onEvent` that names the type is invoked. */
  lemma NamedIsInvoked(plugins: seq<Plugin>, eventType: string, plugin: Plugin)
    requires plugin in plugins && plugin.listens && eventType in plugin.eventTypes
    ensures |Subscriptions(plugins, eventType)| > 0
  {
    var i: nat :| i < |plugins| && plugins[i] == plugin;
    var j: nat :| j < |plugin.eventTypes| && plugin.eventTypes[j] == eventType;
    assert (i, j) in Subscriptions(plugins, eventType);
  }

  function CountOf(listeners: map<string, nat>, eventType: string): nat {
    if eventType in listeners then listeners[eventType] else 0
  }

  function KindOf(eventType: string): Kind {
    if eventType == ERROR then ErrorListener else Listener
  }

  lemma {:induction false} ExecuteMore(s: State, steps: seq<Step>, step: Step, errorListeners: nat)
    requires Execute(s, steps, errorListeners).Some?
    requires Enabled(Execute(s, steps, errorListeners).value, step)
    ensures Execute(s, steps + [step], errorListeners)
            == Some(Next(Execute(s, steps, errorListeners).value, step, errorListeners))
    decreases |steps|
  {
    hide Next, Enabled;
    if steps == [] {
      assert [step][1..] == [];
    } else {
      assert (steps + [step])[1..] == steps[1..] + [step];
      ExecuteMore(Next(s, steps[0], errorListeners), steps[1..], step, errorListeners);
    }
  }

  /** The first `count` invocations, and no others, are those of the emitted type's listeners, each invoked once. */
  predicate Invoked(entries: seq<Entry>, count: nat, eventType: string) {
    && count <= |entries|
    && (forall p | 0 <= p < |entries| :: entries[p].cause == None <==> p < count)
    && (forall p | 0 <= p < count ::
          entries[p].listener == p && entries[p].kind == if eventType == "ev_err" then ErrorListener else Listener)
  }

  /** Each of so many error listeners was invoked once for each handled rejection of another listener, and only then. */
  ghost predicate Reported(entries: seq<Entry>, errorListeners: nat) {
    && (forall p | 0 <= p < |entries| && entries[p].kind == Listener && entries[p].handled ::
          AllInvokedOnce(entries, errorListeners, p))
    && (forall p | 0 <= p < |entries| && entries[p].kind == ErrorListener && entries[p].cause.Some? ::
          Owed(entries, p, errorListeners))
  }

  class Agent {
    const plugins: seq<Plugin>
    /** How many listeners the event bus has for each type. */
    var listeners: map<string, nat>
    var entries: seq<Entry>
    var eventQueue: seq<nat>

    /** The event bus has exactly the listeners of the plugins. */
    ghost predicate Wired()
      reads this
    {
      forall t: string :: CountOf(listeners, t) == Registered(plugins, t)
    }

    constructor (plugins: seq<Plugin>)
      ensures this.plugins == plugins && Wired() && entries == [] && eventQueue == []
      ensures forall t: string ::
        (t in listeners ==> listeners[t] == |Subscriptions(plugins, t)|)
        && (t !in listeners ==> Subscriptions(plugins, t) == {})
    {
      this.plugins := plugins;
      listeners, entries, eventQueue := map[], [], [];
      new;
      for i := 0 to |plugins|
        invariant forall t: string :: CountOf(listeners, t) == Registered(plugins[..i], t)
        invariant this.plugins == plugins && entries == [] && eventQueue == []
      {
        assert plugins[..i + 1][..i] == plugins[..i];
        if plugins[i].listens {
          var types := plugins[i].eventTypes;
          for j := 0 to |types|
            invariant forall t: string ::
              CountOf(listeners, t) == Registered(plugins[..i], t) + Occurrences(types[..j], t)
            invariant this.plugins == plugins && entries == [] && eventQueue == []
          {
            assert types[..j + 1][..j] == types[..j];
            listeners := listeners[types[j] := CountOf(listeners, types[j]) + 1];
          }
          assert types[..|types|] == types;
        }
      }
      assert plugins[..|plugins|] == plugins;
      forall t: string ensures CountOf(listeners, t) == |Subscriptions(plugins, t)| {
        RegisteredCount(plugins, t);
      }
    }

    function ErrorListeners(): nat {
      Registered(plugins, ERROR)
    }

    function Begin(eventType: string): State {
      Start(KindOf(eventType), Registered(plugins, eventType))
    }

    /** `steps` is a schedule that leads from the start of this `emit` to where it is now. */
    ghost predicate At(eventType: string, steps: seq<Step>, phase: Phase)
      reads this
    {
      Execute(Begin(eventType), steps, ErrorListeners()) == Some(State(entries, eventQueue, phase))
    }

    /** A registered listener is called: its promise is queued. */
    method Listen(kind: Kind, listener: nat, cause: Option<nat>)
      modifies `entries, `eventQueue
      ensures entries == old(entries) + [Entry(kind, listener, cause, Pending, false)]
      ensures eventQueue == old(eventQueue) + [|old(entries)|]
    {
      eventQueue := eventQueue + [|entries|];
      entries := entries + [Entry(kind, listener, cause, Pending, false)];
    }

    /** `eventBus.emit`: all listeners of a type are called in turn. */
    method CallListeners(kind: Kind, count: nat, cause: Option<nat>)
      modifies `entries, `eventQueue
      ensures entries == old(entries) + Invocations(kind, count, cause)
      ensures eventQueue == old(eventQueue) + Range(|old(entries)|, count)
    {
      for i := 0 to count
        invariant entries == old(entries) + Invocations(kind, i, cause)
        invariant eventQueue == old(eventQueue) + Range(|old(entries)|, i)
      {
        Listen(kind, i, cause);
      }
    }

    /** The `catch` handler of a rejected listener promise. */
    method OnRejection(p: nat)
      requires p < |entries| && Unhandled(entries[p]) && Wired()
      modifies `entries, `eventQueue
      ensures State(entries, eventQueue, Testing)
              == Next(State(old(entries), old(eventQueue), Testing), React(p), ErrorListeners())
    {
      entries := entries[p := entries[p].(handled := true)];
      if entries[p].kind != ErrorListener {
        CallListeners(ErrorListener, CountOf(listeners, ERROR), Some(p));
      } else {
        eventQueue := eventQueue + [|entries|];
        entries := entries + [Entry(Crash, 0, Some(p), Rejected(true), true)];
      }
    }

    /** Waiting for a promise: meanwhile any promises settle, in any way, and rejections are reacted to. */
    method Await(p: nat, eventType: string, ghost steps: seq<Step>) returns (ghost more: seq<Step>)
      requires At(eventType, steps, Awaiting(p)) && p < |entries| && Wired()
      modifies `entries, `eventQueue
      ensures At(eventType, more, Awaiting(p)) && p < |entries|
      ensures !Unsettled(entries[p]) && !Unhandled(entries[p])
      ensures |steps| <= |more|
    {
      hide Execute, Measure;
      more := steps;
      while true
        invariant |steps| <= |more|
        invariant At(eventType, more, Awaiting(p)) && p < |entries|
        decreases Measure(State(entries, eventQueue, Awaiting(p)), ErrorListeners())
      {
        if !Unsettled(entries[p]) && !Unhandled(entries[p]) {
          if * {
            return;
          }
          if forall q | 0 <= q < |entries| :: !Unsettled(entries[q]) && !Unhandled(entries[q]) {
            return;
          }
        }
        var q :| 0 <= q < |entries| && (Unsettled(entries[q]) || Unhandled(entries[q]));
        ghost var before := State(entries, eventQueue, Awaiting(p));
        ghost var step: Step;
        if Unsettled(entries[q]) {
          var status: Status;
          if {
            case true => status := Fulfilled;
            case true => status := Rejected(false);
            case true => status := Rejected(true);
          }
          step := Settle(q, status);
          entries := entries[q := entries[q].(status := status)];
        } else {
          step := React(q);
          OnRejection(q);
        }
        ExecuteMore(Begin(eventType), more, step, ErrorListeners());
        MeasureDecreases(before, step, ErrorListeners());
        more := more + [step];
      }
    }

    /** `emit`, alone in flight: every outcome is that of some schedule of the event queue's state machine. */
    method Emit(eventType: string) returns (threw: bool, ghost steps: seq<Step>)
      requires Wired() && entries == [] && eventQueue == []
      modifies `entries, `eventQueue
      ensures At(eventType, steps, if threw then Threw else Returned)
      ensures threw <==> ErrorListenerRejected(entries) || PretendedCrash(entries)
      ensures !threw ==> eventQueue == [] && AllSettled(entries)
      ensures Invoked(entries, |Subscriptions(plugins, eventType)|, eventType)
      ensures Reported(entries, |Subscriptions(plugins, "ev_err")|)
    {
      CallListeners(KindOf(eventType), CountOf(listeners, eventType), None);
      steps, threw := [], false;
      Begun(eventType);
      hide Execute, Measure, Start, Next, Invocations, Range, ErrorListenerRejected, PretendedCrash, AllSettled;
      hide Invoked, Reported, Subscriptions, Registered;
      while |eventQueue| > 0
        invariant At(eventType, steps, Testing)
        decreases Measure(Begin(eventType), ErrorListeners()) - |steps|
      {
        QueueValid(eventType, steps);
        ghost var before := State(entries, eventQueue, Testing);
        var promise := eventQueue[0];
        eventQueue := eventQueue[1..];
        ExecuteMore(Begin(eventType), steps, Resume, ErrorListeners());
        Shifted(before, ErrorListeners());
        ghost var started := steps + [Resume];
        steps := Await(promise, eventType, started);
        ExecuteMore(Begin(eventType), steps, Resume, ErrorListeners());
        Resumed(State(entries, eventQueue, Awaiting(promise)), ErrorListeners());
        steps := steps + [Resume];
        if entries[promise].status == Rejected(true) {
          threw := true;
          break;
        }
      }
      if !threw {
        Emptied(State(entries, eventQueue, Testing), ErrorListeners());
        ExecuteMore(Begin(eventType), steps, Resume, ErrorListeners());
        steps := steps + [Resume];
      }
      DrainOutcome(KindOf(eventType), Registered(plugins, eventType), ErrorListeners(), steps);
      WhoWasInvoked(eventType, steps, if threw then Threw else Returned);
    }

    lemma WhoWasInvoked(eventType: string, steps: seq<Step>, phase: Phase)
      requires At(eventType, steps, phase)
      ensures Invoked(entries, |Subscriptions(plugins, eventType)|, eventType)
      ensures Reported(entries, |Subscriptions(plugins, "ev_err")|)
    {
      hide Execute, Start, AllInvokedOnce, Owed, Registered, Subscriptions;
      RegisteredCount(plugins, eventType);
      RegisteredCount(plugins, ERROR);
      InvocationsExact(KindOf(eventType), Registered(plugins, eventType), ErrorListeners(), steps);
    }

    lemma Begun(eventType: string)
      requires entries == Invocations(KindOf(eventType), Registered(plugins, eventType), None)
      requires eventQueue == Range(0, Registered(plugins, eventType))
      ensures At(eventType, [], Testing)
    {
    }

    /** Queued promises exist, and the schedule has not used up its bound. */
    lemma QueueValid(eventType: string, steps: seq<Step>)
      requires At(eventType, steps, Testing) && |eventQueue| > 0
      ensures eventQueue[0] < |entries|
      ensures |steps| <= Measure(Begin(eventType), ErrorListeners())
    {
      StartInv(KindOf(eventType), Registered(plugins, eventType), ErrorListeners());
      RunKeepsInv(Begin(eventType), steps, KindOf(eventType), Registered(plugins, eventType), ErrorListeners());
      assert eventQueue[0] in eventQueue;
    }
  }

  lemma Shifted(s: State, errorListeners: nat)
    requires s.phase == Testing && s.queue != []
    ensures Enabled(s, Resume)
    ensures Next(s, Resume, errorListeners) == State(s.entries, s.queue[1..], Awaiting(s.queue[0]))
  {
  }

  lemma Resumed(s: State, errorListeners: nat)
    requires s.phase.Awaiting? && s.phase.promise < |s.entries|
    requires !Unsettled(s.entries[s.phase.promise]) && !Unhandled(s.entries[s.phase.promise])
    ensures Enabled(s, Resume)
    ensures Next(s, Resume, errorListeners)
            == s.(phase := if s.entries[s.phase.promise].status == Rejected(true) then Threw else Testing)
  {
  }

  lemma Emptied(s: State, errorListeners: nat)
    requires s.phase == Testing && s.queue == []
    ensures Enabled(s, Resume) && Next(s, Resume, errorListeners) == s.(phase := Returned)
  {
  }
}
