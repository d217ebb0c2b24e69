/**
  The agent's event queue (packages/core/src/agent.ts): listeners push promises, rejections push more, `emit` drains.

  Promises settle in any order. A rejected promise's `catch` handler was attached before the promise could be
  awaited, so it has run by the time an `await` on the same promise resumes; apart from that the environment's steps
  and the draining loop's steps interleave freely.
 */
module EventQueue {
  import opened Results

  /** Who a queued promise belongs to; `Crash` is the already rejected `ErrorEventHandlerError`. */
  datatype Kind = Listener | ErrorListener | Crash

  /** `prefixed`: the rejection's message starts with `ErrorEventHandlerError`. */
  datatype Status = Pending | Fulfilled | Rejected(prefixed: bool)

  /** One invocation: of which listener, because of which earlier rejection, and what became of its promise. */
  datatype Entry = Entry(kind: Kind, listener: nat, cause: Option<nat>, status: Status, handled: bool)

  datatype Phase = Testing | Awaiting(promise: nat) | Returned | Threw

  /** All promises so far in order of creation, the queue of those not yet awaited, and where `emit` is. */
  datatype State = State(entries: seq<Entry>, queue: seq<nat>, phase: Phase)

  datatype Step = Settle(promise: nat, status: Status) | React(promise: nat) | Resume

  // ---------------------------------------------------------------- transitions

  function Invocations(kind: Kind, count: nat, cause: Option<nat>): (r: seq<Entry>)
    ensures |r| == count
    ensures forall i | 0 <= i < count :: r[i] == Entry(kind, i, cause, Pending, false)
  {
    seq(count, i requires 0 <= i < count => Entry(kind, i, cause, Pending, false))
  }

  function Range(from: nat, count: nat): (r: seq<nat>)
    ensures |r| == count && forall i | 0 <= i < count :: r[i] == from + i
  {
    seq(count, i requires 0 <= i < count => from + i)
  }

  /** The synchronous part of `emit`: every listener of the type is called. */
  function Start(kind: Kind, listeners: nat): State {
    State(Invocations(kind, listeners, None), Range(0, listeners), Testing)
  }

  /** What a rejection's `catch` handler pushes. */
  function Reaction(kind: Kind, promise: nat, errorListeners: nat): seq<Entry> {
    match kind
    case Listener => Invocations(ErrorListener, errorListeners, Some(promise))
    case ErrorListener => [Entry(Crash, 0, Some(promise), Rejected(true), true)]
    case Crash => []
  }

  predicate Unsettled(e: Entry) {
    e.status == Pending
  }

  predicate Unhandled(e: Entry) {
    e.status.Rejected? && e.kind != Crash && !e.handled
  }

  predicate Enabled(s: State, step: Step) {
    match step
    case Settle(p, status) => p < |s.entries| && Unsettled(s.entries[p]) && status != Pending
    case React(p) => p < |s.entries| && Unhandled(s.entries[p])
    case Resume =>
      match s.phase
      case Testing => true
      case Awaiting(p) => p < |s.entries| && !Unsettled(s.entries[p]) && !Unhandled(s.entries[p])
      case _ => false
  }

  function Next(s: State, step: Step, errorListeners: nat): State
    requires Enabled(s, step)
  {
    match step
    case Settle(p, status) => s.(entries := s.entries[p := s.entries[p].(status := status)])
    case React(p) =>
      var more := Reaction(s.entries[p].kind, p, errorListeners);
      s.(entries := s.entries[p := s.entries[p].(handled := true)] + more,
         queue := s.queue + Range(|s.entries|, |more|))
    case Resume =>
      match s.phase
      case Testing =>
        if s.queue == [] then s.(phase := Returned) else s.(phase := Awaiting(s.queue[0]), queue := s.queue[1..])
      case Awaiting(p) =>
        if s.entries[p].status == Rejected(true) then s.(phase := Threw) else s.(phase := Testing)
  }

  predicate Final(s: State) {
    s.phase == Returned || s.phase == Threw
  }

  // ---------------------------------------------------------------- invariant

  predicate Waiting(s: State, p: nat) {
    p in s.queue || s.phase == Awaiting(p)
  }

  /** A promise that has been awaited: settled, reacted to, and not one that makes `emit` throw. */
  predicate Spent(e: Entry) {
    !Unsettled(e) && !Unhandled(e) && e.status != Rejected(true)
  }

  predicate IsReaction(entries: seq<Entry>, id: int, kind: Kind, listener: nat, cause: nat) {
    && 0 <= id < |entries|
    && entries[id].kind == kind && entries[id].listener == listener && entries[id].cause == Some(cause)
  }

  /** The promises nobody waits for any more are spent. */
  ghost predicate QueueInv(s: State) {
    && (forall p | p in s.queue :: p < |s.entries|)
    && (s.phase.Awaiting? ==> s.phase.promise < |s.entries|)
    && (s.phase != Threw ==> forall p | 0 <= p < |s.entries| && !Waiting(s, p) :: Spent(s.entries[p]))
    && (s.phase == Returned ==> s.queue == [])
    && (s.phase == Threw ==> exists p :: 0 <= p < |s.entries| && s.entries[p].status == Rejected(true))
  }

  /** Every reaction was caused by one handled rejection, and that rejection by nobody else. */
  ghost predicate CauseInv(entries: seq<Entry>, kind: Kind, listeners: nat, errorListeners: nat) {
    && listeners <= |entries|
    && (forall p | 0 <= p < listeners ::
          entries[p].kind == kind && entries[p].listener == p && entries[p].cause == None)
    && (forall p | listeners <= p < |entries| :: Caused(entries, p, errorListeners))
    && (forall p | 0 <= p < |entries| && entries[p].handled :: entries[p].status.Rejected?)
    && (forall p, q | listeners <= p < q < |entries| :: !SameReaction(entries, p, q))
  }

  /** Two invocations of one listener for one rejection. */
  predicate SameReaction(entries: seq<Entry>, p: nat, q: nat)
    requires p < |entries| && q < |entries|
  {
    entries[p].cause == entries[q].cause && entries[p].listener == entries[q].listener
  }

  ghost predicate Caused(entries: seq<Entry>, p: nat, errorListeners: nat)
    requires p < |entries|
  {
    var e := entries[p];
    && e.cause.Some? && e.cause.value < |entries| && entries[e.cause.value].handled
    && (e.kind == ErrorListener ==> entries[e.cause.value].kind == Listener && e.listener < errorListeners)
    && (e.kind == Crash ==> entries[e.cause.value].kind == ErrorListener && e.listener == 0
                            && e.status == Rejected(true) && e.handled)
    && e.kind != Listener
  }

  ghost predicate HasReaction(entries: seq<Entry>, kind: Kind, listener: nat, cause: nat) {
    exists id :: IsReaction(entries, id, kind, listener, cause)
  }

  /** The full reaction to a handled rejection. */
  ghost predicate Reacted(entries: seq<Entry>, p: nat, errorListeners: nat)
    requires p < |entries|
  {
    && (entries[p].kind == Listener ==> forall j | 0 <= j < errorListeners :: HasReaction(entries, ErrorListener, j, p))
    && (entries[p].kind == ErrorListener ==> HasReaction(entries, Crash, 0, p))
  }

  /** Every handled rejection has had its full reaction. */
  ghost predicate ReactedInv(entries: seq<Entry>, errorListeners: nat) {
    forall p | 0 <= p < |entries| && entries[p].handled :: Reacted(entries, p, errorListeners)
  }

  ghost predicate Inv(s: State, kind: Kind, listeners: nat, errorListeners: nat) {
    && QueueInv(s)
    && CauseInv(s.entries, kind, listeners, errorListeners)
    && ReactedInv(s.entries, errorListeners)
  }

  lemma StartInv(kind: Kind, listeners: nat, errorListeners: nat)
    requires kind != Crash
    ensures Inv(Start(kind, listeners), kind, listeners, errorListeners)
  {
    var s := Start(kind, listeners);
    forall p | 0 <= p < listeners ensures p in s.queue {
      assert s.queue[p] == p;
    }
  }

  /** Entries keep who they are. */
  predicate SameInvocations(es: seq<Entry>, es': seq<Entry>) {
    && |es| <= |es'|
    && forall q | 0 <= q < |es| ::
         es'[q].kind == es[q].kind && es'[q].listener == es[q].listener && es'[q].cause == es[q].cause
  }

  lemma ReactedKept(es: seq<Entry>, es': seq<Entry>, p: nat, errorListeners: nat)
    requires SameInvocations(es, es') && p < |es| && Reacted(es, p, errorListeners)
    ensures Reacted(es', p, errorListeners)
  {
    forall kind, j: nat | HasReaction(es, kind, j, p) ensures HasReaction(es', kind, j, p) {
      var id :| IsReaction(es, id, kind, j, p);
      assert IsReaction(es', id, kind, j, p);
    }
  }

  lemma SettleInv(s: State, p: nat, status: Status, kind: Kind, listeners: nat, errorListeners: nat)
    requires Inv(s, kind, listeners, errorListeners) && Enabled(s, Settle(p, status))
    ensures Inv(Next(s, Settle(p, status), errorListeners), kind, listeners, errorListeners)
  {
    var s' := Next(s, Settle(p, status), errorListeners);
    var es, es' := s.entries, s'.entries;
    assert forall q | 0 <= q < |es| :: es'[q] == if q == p then es[p].(status := status) else es[q];
    assert !es[p].handled;
    assert QueueInv(s') by {
      assert s.phase == Threw || Waiting(s, p) || Spent(es[p]);
      forall q | 0 <= q < |es'| && !Waiting(s', q) && s'.phase != Threw ensures Spent(es'[q]) {
        assert !Waiting(s, q);
      }
      if s.phase == Threw {
        var q :| 0 <= q < |es| && es[q].status == Rejected(true);
        assert es'[q].status == Rejected(true);
      }
    }
    forall q | listeners <= q < |es'| ensures Caused(es', q, errorListeners) {
      assert Caused(es, q, errorListeners);
    }
    forall a, b | listeners <= a < b < |es'| ensures !SameReaction(es', a, b) {
      assert !SameReaction(es, a, b);
    }
    forall q | 0 <= q < |es'| && es'[q].handled ensures Reacted(es', q, errorListeners) {
      ReactedKept(es, es', q, errorListeners);
    }
  }

  lemma ReactInv(s: State, p: nat, kind: Kind, listeners: nat, errorListeners: nat)
    requires Inv(s, kind, listeners, errorListeners) && Enabled(s, React(p))
    ensures Inv(Next(s, React(p), errorListeners), kind, listeners, errorListeners)
  {
    hide QueueInv, CauseInv, ReactedInv, Next, Enabled;
    ReactQueue(s, p, errorListeners);
    ReactCauses(s, p, kind, listeners, errorListeners);
    ReactReacted(s, p, errorListeners);
  }

  /** The entries after a reaction. */
  lemma ReactEntries(s: State, p: nat, errorListeners: nat)
    requires Enabled(s, React(p))
    ensures var es, es' := s.entries, Next(s, React(p), errorListeners).entries;
            var more := Reaction(es[p].kind, p, errorListeners);
            && |es'| == |es| + |more|
            && (forall q | 0 <= q < |es| :: es'[q] == if q == p then es[p].(handled := true) else es[q])
            && (forall q | |es| <= q < |es'| :: es'[q] == more[q - |es|] && es'[q].cause == Some(p))
            && (es[p].kind == Listener ==> |more| == errorListeners)
            && (es[p].kind == ErrorListener ==> |more| == 1)
            && (forall j | 0 <= j < |more| ::
                  more[j] == if es[p].kind == Listener then Entry(ErrorListener, j, Some(p), Pending, false)
                             else Entry(Crash, 0, Some(p), Rejected(true), true))
  {
  }

  lemma ReactQueue(s: State, p: nat, errorListeners: nat)
    requires QueueInv(s) && Enabled(s, React(p))
    ensures QueueInv(Next(s, React(p), errorListeners))
  {
    var s' := Next(s, React(p), errorListeners);
    var n := |s.entries|;
    ReactEntries(s, p, errorListeners);
    assert s.phase == Threw || Waiting(s, p) || Spent(s.entries[p]);
    forall q | n <= q < |s'.entries| ensures Waiting(s', q) {
      assert s'.queue[|s.queue| + (q - n)] == q;
    }
    forall q | 0 <= q < n && !Waiting(s', q) && s'.phase != Threw ensures Spent(s'.entries[q]) {
      assert !Waiting(s, q);
    }
    if s.phase == Threw {
      var q :| 0 <= q < |s.entries| && s.entries[q].status == Rejected(true);
      assert s'.entries[q].status == Rejected(true);
    }
  }

  lemma ReactCauses(s: State, p: nat, kind: Kind, listeners: nat, errorListeners: nat)
    requires CauseInv(s.entries, kind, listeners, errorListeners) && Enabled(s, React(p))
    ensures CauseInv(Next(s, React(p), errorListeners).entries, kind, listeners, errorListeners)
  {
    var es, es' := s.entries, Next(s, React(p), errorListeners).entries;
    var n := |es|;
    ReactEntries(s, p, errorListeners);
    hide Next, Reaction;
    forall q | listeners <= q < |es'| ensures Caused(es', q, errorListeners) {
      if q < n {
        assert Caused(es, q, errorListeners);
      }
    }
    forall a, b | listeners <= a < b < |es'| ensures !SameReaction(es', a, b) {
      if b < n {
        assert !SameReaction(es, a, b);
      } else if a < n {
        assert Caused(es, a, errorListeners);
      }
    }
  }

  lemma ReactReacted(s: State, p: nat, errorListeners: nat)
    requires ReactedInv(s.entries, errorListeners) && Enabled(s, React(p))
    ensures ReactedInv(Next(s, React(p), errorListeners).entries, errorListeners)
  {
    var es, es' := s.entries, Next(s, React(p), errorListeners).entries;
    var n := |es|;
    ReactEntries(s, p, errorListeners);
    hide Next, Reaction;
    forall q | 0 <= q < |es'| && es'[q].handled ensures Reacted(es', q, errorListeners) {
      if q == p {
        if es[p].kind == Listener {
          forall j | 0 <= j < errorListeners ensures HasReaction(es', ErrorListener, j, p) {
            assert IsReaction(es', n + j, ErrorListener, j, p);
          }
        } else {
          assert IsReaction(es', n, Crash, 0, p);
        }
      } else if q < n {
        ReactedKept(es, es', q, errorListeners);
      }
    }
  }

  lemma ResumeInv(s: State, kind: Kind, listeners: nat, errorListeners: nat)
    requires Inv(s, kind, listeners, errorListeners) && Enabled(s, Resume)
    ensures Inv(Next(s, Resume, errorListeners), kind, listeners, errorListeners)
  {
    var s' := Next(s, Resume, errorListeners);
    if s.phase == Testing && s.queue != [] {
      assert s.queue == [s.queue[0]] + s.queue[1..];
      assert s.queue[0] in s.queue;
      forall p | p in s'.queue ensures p < |s.entries| { assert p in s.queue; }
    }
    if s.phase.Awaiting? && s'.phase == Testing {
      assert Spent(s.entries[s.phase.promise]);
    }
  }

  /** Every step keeps the invariant. */
  lemma NextInv(s: State, step: Step, kind: Kind, listeners: nat, errorListeners: nat)
    requires Inv(s, kind, listeners, errorListeners) && Enabled(s, step)
    ensures Inv(Next(s, step, errorListeners), kind, listeners, errorListeners)
  {
    match step {
      case Settle(p, status) => SettleInv(s, p, status, kind, listeners, errorListeners);
      case React(p) => ReactInv(s, p, kind, listeners, errorListeners);
      case Resume => ResumeInv(s, kind, listeners, errorListeners);
    }
  }

  // ---------------------------------------------------------------- termination

  /** Steps still to come because of one promise, apart from awaiting it. */
  function Weight(e: Entry, errorListeners: nat): nat {
    match e.kind
    case Crash => if Unsettled(e) then 1 else 0
    case ErrorListener => if Unsettled(e) then 4 else if Unhandled(e) then 3 else 0
    case Listener =>
      if Unsettled(e) then 2 + 6 * errorListeners else if Unhandled(e) then 1 + 6 * errorListeners else 0
  }

  function TotalWeight(entries: seq<Entry>, errorListeners: nat): nat {
    if entries == [] then 0
    else TotalWeight(entries[..|entries| - 1], errorListeners) + Weight(entries[|entries| - 1], errorListeners)
  }

  function Measure(s: State, errorListeners: nat): nat {
    TotalWeight(s.entries, errorListeners) + 2 * |s.queue|
    + (match s.phase case Testing => 1 case Awaiting(_) => 2 case _ => 0)
  }

  lemma {:induction false} TotalWeightUpdate(entries: seq<Entry>, p: nat, e: Entry, errorListeners: nat)
    requires p < |entries|
    ensures TotalWeight(entries[p := e], errorListeners)
            == TotalWeight(entries, errorListeners) - Weight(entries[p], errorListeners) + Weight(e, errorListeners)
  {
    var last := |entries| - 1;
    if p == last {
      assert entries[p := e][..last] == entries[..last];
    } else {
      assert entries[p := e][..last] == entries[..last][p := e];
      TotalWeightUpdate(entries[..last], p, e, errorListeners);
    }
  }

  lemma {:induction false} TotalWeightAppend(a: seq<Entry>, b: seq<Entry>, errorListeners: nat)
    ensures TotalWeight(a + b, errorListeners) == TotalWeight(a, errorListeners) + TotalWeight(b, errorListeners)
  {
    if b == [] {
      assert a + b == a;
    } else {
      assert (a + b)[..|a + b| - 1] == a + b[..|b| - 1];
      TotalWeightAppend(a, b[..|b| - 1], errorListeners);
    }
  }

  lemma {:induction false} InvocationsWeight(kind: Kind, count: nat, cause: Option<nat>, errorListeners: nat)
    ensures TotalWeight(Invocations(kind, count, cause), errorListeners)
            == count * Weight(Entry(kind, 0, cause, Pending, false), errorListeners)
  {
    if count > 0 {
      var all := Invocations(kind, count, cause);
      assert all[..count - 1] == Invocations(kind, count - 1, cause);
      InvocationsWeight(kind, count - 1, cause, errorListeners);
      assert Weight(all[count - 1], errorListeners) == Weight(Entry(kind, 0, cause, Pending, false), errorListeners);
    }
  }

  lemma ReactionWeight(kind: Kind, p: nat, errorListeners: nat)
    requires kind != Crash
    ensures var more := Reaction(kind, p, errorListeners);
            TotalWeight(more, errorListeners) + 2 * |more| == if kind == Listener then 6 * errorListeners else 2
  {
    if kind == Listener {
      InvocationsWeight(ErrorListener, errorListeners, Some(p), errorListeners);
    } else {
      var crash := Entry(Crash, 0, Some(p), Rejected(true), true);
      assert [crash][..0] == [];
    }
  }

  /** Every step, the environment's as well as the loop's, uses up weight. */
  lemma MeasureDecreases(s: State, step: Step, errorListeners: nat)
    requires Enabled(s, step)
    ensures Measure(Next(s, step, errorListeners), errorListeners) < Measure(s, errorListeners)
  {
    match step {
      case Settle(p, status) =>
        TotalWeightUpdate(s.entries, p, s.entries[p].(status := status), errorListeners);
      case React(p) =>
        var more := Reaction(s.entries[p].kind, p, errorListeners);
        TotalWeightUpdate(s.entries, p, s.entries[p].(handled := true), errorListeners);
        TotalWeightAppend(s.entries[p := s.entries[p].(handled := true)], more, errorListeners);
        ReactionWeight(s.entries[p].kind, p, errorListeners);
      case Resume =>
    }
  }

  /** As long as `emit` has not returned, something can happen. */
  lemma Progress(s: State, kind: Kind, listeners: nat, errorListeners: nat)
    requires Inv(s, kind, listeners, errorListeners) && !Final(s)
    ensures exists step :: Enabled(s, step)
  {
    if s.phase.Awaiting? && Unsettled(s.entries[s.phase.promise]) {
      assert Enabled(s, Settle(s.phase.promise, Fulfilled));
    } else if s.phase.Awaiting? && Unhandled(s.entries[s.phase.promise]) {
      assert Enabled(s, React(s.phase.promise));
    } else {
      assert Enabled(s, Resume);
    }
  }

  // ---------------------------------------------------------------- runs

  /** The state after a sequence of steps, `None` if one of them was not possible. */
  function Execute(s: State, steps: seq<Step>, errorListeners: nat): Option<State>
    decreases |steps|
  {
    if steps == [] then Some(s)
    else if !Enabled(s, steps[0]) then None
    else Execute(Next(s, steps[0], errorListeners), steps[1..], errorListeners)
  }

  lemma {:induction false} RunKeepsInv(s: State, steps: seq<Step>, kind: Kind, listeners: nat, errorListeners: nat)
    requires Inv(s, kind, listeners, errorListeners)
    requires Execute(s, steps, errorListeners).Some?
    ensures Inv(Execute(s, steps, errorListeners).value, kind, listeners, errorListeners)
    ensures |steps| + Measure(Execute(s, steps, errorListeners).value, errorListeners) <= Measure(s, errorListeners)
    decreases |steps|
  {
    hide Inv, Next, Enabled, Measure;
    if steps != [] {
      NextInv(s, steps[0], kind, listeners, errorListeners);
      MeasureDecreases(s, steps[0], errorListeners);
      RunKeepsInv(Next(s, steps[0], errorListeners), steps[1..], kind, listeners, errorListeners);
    }
  }

  lemma StartMeasure(kind: Kind, listeners: nat, errorListeners: nat)
    requires kind != Crash
    ensures Measure(Start(kind, listeners), errorListeners)
            == listeners * (if kind == Listener then 4 + 6 * errorListeners else 6) + 1
  {
    InvocationsWeight(kind, listeners, None, errorListeners);
    var w := Weight(Entry(kind, 0, None, Pending, false), errorListeners);
    assert listeners * w + 2 * listeners == listeners * (w + 2);
  }

  /** No schedule takes more steps than this. */
  lemma DrainTerminates(kind: Kind, listeners: nat, errorListeners: nat, steps: seq<Step>)
    requires kind != Crash
    requires Execute(Start(kind, listeners), steps, errorListeners).Some?
    ensures |steps| <= listeners * (if kind == Listener then 4 + 6 * errorListeners else 6) + 1
  {
    hide Inv, Execute, Measure, Start;
    StartInv(kind, listeners, errorListeners);
    RunKeepsInv(Start(kind, listeners), steps, kind, listeners, errorListeners);
    StartMeasure(kind, listeners, errorListeners);
  }

  // ---------------------------------------------------------------- main results

  predicate ErrorListenerRejected(entries: seq<Entry>) {
    exists p | 0 <= p < |entries| :: entries[p].kind == ErrorListener && entries[p].status.Rejected?
  }

  /** A listener's own rejection pretends to be the crash. */
  predicate PretendedCrash(entries: seq<Entry>) {
    exists p | 0 <= p < |entries| :: entries[p].kind != Crash && entries[p].status == Rejected(true)
  }

  predicate AllSettled(entries: seq<Entry>) {
    forall p | 0 <= p < |entries| :: !Unsettled(entries[p]) && !Unhandled(entries[p])
  }

  /** A handled rejection of an error listener has left a crash. */
  lemma CrashFollows(es: seq<Entry>, kind: Kind, listeners: nat, errorListeners: nat)
    requires kind != Crash && CauseInv(es, kind, listeners, errorListeners) && ReactedInv(es, errorListeners)
    ensures (exists p | 0 <= p < |es| :: es[p].kind == ErrorListener && es[p].handled)
            ==> exists p | 0 <= p < |es| :: es[p].status == Rejected(true)
  {
    if p :| 0 <= p < |es| && es[p].kind == ErrorListener && es[p].handled {
      assert Reacted(es, p, errorListeners);
      var id :| IsReaction(es, id, Crash, 0, p);
      assert id >= listeners && Caused(es, id, errorListeners);
      assert es[id].status == Rejected(true);
    }
  }

  /**
    Under every schedule: when `emit` is done, it threw exactly if some error listener rejected or some rejection
    pretended to be the crash; if it did not throw, the queue is empty and no promise was left behind.
   */
  lemma DrainOutcome(kind: Kind, listeners: nat, errorListeners: nat, steps: seq<Step>)
    requires kind != Crash
    requires Execute(Start(kind, listeners), steps, errorListeners).Some?
    requires Final(Execute(Start(kind, listeners), steps, errorListeners).value)
    ensures var s := Execute(Start(kind, listeners), steps, errorListeners).value;
            && (s.phase == Threw <==> ErrorListenerRejected(s.entries) || PretendedCrash(s.entries))
            && (s.phase == Returned ==> s.queue == [] && AllSettled(s.entries))
            && (s.phase == Returned ==> forall e | e in s.entries ::
                  e.status == Fulfilled || (e.status.Rejected? && e.handled && e.kind == Listener))
  {
    StartInv(kind, listeners, errorListeners);
    RunKeepsInv(Start(kind, listeners), steps, kind, listeners, errorListeners);
    hide Execute;
    var s := Execute(Start(kind, listeners), steps, errorListeners).value;
    if s.phase == Threw {
      var p :| 0 <= p < |s.entries| && s.entries[p].status == Rejected(true);
      if s.entries[p].kind == Crash {
        assert p >= listeners;
        assert Caused(s.entries, p, errorListeners);
        var c := s.entries[p].cause.value;
        assert s.entries[c].kind == ErrorListener && s.entries[c].status.Rejected?;
      }
    } else {
      forall p | 0 <= p < |s.entries| ensures Spent(s.entries[p]) {
        assert !Waiting(s, p);
      }
      CrashFollows(s.entries, kind, listeners, errorListeners);
      forall p | 0 <= p < |s.entries| && s.entries[p].status.Rejected?
        ensures s.entries[p].handled && s.entries[p].kind == Listener
      {
        assert Spent(s.entries[p]);
        assert p >= listeners ==> Caused(s.entries, p, errorListeners);
      }
    }
  }

  /** Error listener `j` was invoked for the rejection `p`, by exactly one invocation. */
  ghost predicate InvokedOnce(entries: seq<Entry>, j: nat, p: nat) {
    && HasReaction(entries, ErrorListener, j, p)
    && (forall a, b | IsReaction(entries, a, ErrorListener, j, p) && IsReaction(entries, b, ErrorListener, j, p) ::
          a == b)
  }

  ghost predicate AllInvokedOnce(entries: seq<Entry>, errorListeners: nat, p: nat) {
    forall j | 0 <= j < errorListeners :: InvokedOnce(entries, j, p)
  }

  /** An error listener's invocation is owed to some rejection of an ordinary listener. */
  predicate Owed(entries: seq<Entry>, id: nat, errorListeners: nat)
    requires id < |entries|
  {
    && entries[id].listener < errorListeners
    && entries[id].cause.Some? && entries[id].cause.value < |entries|
    && entries[entries[id].cause.value].kind == Listener
    && entries[entries[id].cause.value].status.Rejected?
  }

  lemma ReactionsUnique(es: seq<Entry>, kind: Kind, listeners: nat, errorListeners: nat, p: nat)
    requires CauseInv(es, kind, listeners, errorListeners) && ReactedInv(es, errorListeners)
    requires p < |es| && es[p].kind == Listener && es[p].handled
    ensures AllInvokedOnce(es, errorListeners, p)
  {
    assert Reacted(es, p, errorListeners);
    forall j | 0 <= j < errorListeners ensures InvokedOnce(es, j, p) {
      forall a, b | IsReaction(es, a, ErrorListener, j, p) && IsReaction(es, b, ErrorListener, j, p) ensures a == b {
        assert a >= listeners && b >= listeners;
        assert SameReaction(es, a, b) && SameReaction(es, b, a);
      }
    }
  }

  /** An error listener invoked for a handled rejection of a listener, or the crash for one of an error listener. */
  predicate FollowsRejection(entries: seq<Entry>, id: nat, errorListeners: nat)
    requires id < |entries|
  {
    && entries[id].cause.Some? && entries[id].cause.value < |entries|
    && var cause := entries[entries[id].cause.value];
       && cause.status.Rejected? && cause.handled
       && if cause.kind == Listener then entries[id].kind == ErrorListener && entries[id].listener < errorListeners
          else cause.kind == ErrorListener && entries[id].kind == Crash && entries[id].status == Rejected(true)
  }

  /**
    Under every schedule and at every moment: the listeners of the emitted type have been invoked once each, and
    further error listeners exactly for rejections of ordinary listeners: each once as soon as the rejection is
    handled, never otherwise.
   */
  lemma InvocationsExact(kind: Kind, listeners: nat, errorListeners: nat, steps: seq<Step>)
    requires kind != Crash
    requires Execute(Start(kind, listeners), steps, errorListeners).Some?
    ensures var es := Execute(Start(kind, listeners), steps, errorListeners).value.entries;
            && listeners <= |es|
            && (forall p | 0 <= p < |es| :: es[p].cause == None <==> p < listeners)
            && (forall p | 0 <= p < listeners :: es[p].kind == kind && es[p].listener == p)
            && (forall p | 0 <= p < |es| && es[p].kind == Listener && es[p].handled ::
                  AllInvokedOnce(es, errorListeners, p))
            && (forall id | listeners <= id < |es| && es[id].kind == ErrorListener :: Owed(es, id, errorListeners))
            && (forall id | listeners <= id < |es| :: FollowsRejection(es, id, errorListeners))
  {
    StartInv(kind, listeners, errorListeners);
    RunKeepsInv(Start(kind, listeners), steps, kind, listeners, errorListeners);
    hide Execute, Start, QueueInv, ReactedInv;
    var es := Execute(Start(kind, listeners), steps, errorListeners).value.entries;
    forall p | 0 <= p < |es| ensures es[p].cause == None <==> p < listeners {
      if p >= listeners { assert Caused(es, p, errorListeners); }
    }
    forall id | listeners <= id < |es| && es[id].kind == ErrorListener ensures Owed(es, id, errorListeners) {
      assert Caused(es, id, errorListeners);
    }
    forall id | listeners <= id < |es| ensures FollowsRejection(es, id, errorListeners) {
      assert Caused(es, id, errorListeners);
    }
    forall p | 0 <= p < |es| && es[p].kind == Listener && es[p].handled ensures AllInvokedOnce(es, errorListeners, p) {
      ReactionsUnique(es, kind, listeners, errorListeners, p);
    }
  }
}
