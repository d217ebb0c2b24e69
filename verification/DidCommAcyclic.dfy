/** Which networks sending terminates in: those whose DID endpoints form no cycle (packages/did-comm/src/didcomm.ts). */
module DidCommAcyclic {
  import opened Results
  import opened DidCommWire
  import opened DidCommRouting
  import opened DidCommSending

  // ---------------------------------------------------------------- cycles of DID endpoints

  /** Some DIDComm service of `a` has `b` as its endpoint, and both resolve. */
  ghost predicate PointsTo(net: Resolver, a: string, b: string) {
    && a in net && b in net
    && exists s | s in Flatten(net[a].services) :: IsDidEndpoint(s) && DidOf(EndpointUrl(s)) == Some(b)
  }

  ghost predicate Path(net: Resolver, p: seq<string>) {
    forall i | 0 <= i < |p| - 1 :: StepOf(net, p, i)
  }

  ghost predicate StepOf(net: Resolver, p: seq<string>, i: nat)
    requires i < |p| - 1
  {
    PointsTo(net, p[i], p[i + 1])
  }

  /** No path of endpoints comes back to where it started. */
  ghost predicate NoCycle(net: Resolver) {
    forall p | |p| >= 2 && Path(net, p) :: p[0] != p[|p| - 1]
  }

  // ---------------------------------------------------------------- a rank excludes cycles

  lemma PointsToRanksLower(net: Resolver, rank: map<string, nat>, a: string, b: string)
    requires Acyclic(net, rank) && PointsTo(net, a, b)
    ensures rank[b] < rank[a]
  {
    var s :| s in Flatten(net[a].services) && IsDidEndpoint(s) && DidOf(EndpointUrl(s)) == Some(b);
    assert PointsDown(net, rank, a, EndpointUrl(s));
  }

  lemma {:induction false} PathRanksLower(net: Resolver, rank: map<string, nat>, p: seq<string>)
    requires Acyclic(net, rank) && |p| >= 2 && Path(net, p)
    ensures p[0] in rank && p[|p| - 1] in rank && rank[p[|p| - 1]] < rank[p[0]]
    decreases |p|
  {
    hide Acyclic;
    assert StepOf(net, p, 0);
    PointsToRanksLower(net, rank, p[0], p[1]);
    assert p[0] in net && p[1] in net && net.Keys <= rank.Keys by { RankCovers(net, rank); }
    if |p| > 2 {
      var q := p[1..];
      forall i | 0 <= i < |q| - 1 ensures StepOf(net, q, i) {
        assert StepOf(net, p, i + 1);
      }
      PathRanksLower(net, rank, q);
    }
  }

  lemma RankCovers(net: Resolver, rank: map<string, nat>)
    requires Acyclic(net, rank)
    ensures net.Keys <= rank.Keys
  {
  }

  // ---------------------------------------------------------------- without cycles there is a rank

  ghost predicate Leads(net: Resolver, dids: set<string>, a: string) {
    exists b :: LeadsTo(net, dids, a, b)
  }

  ghost predicate LeadsTo(net: Resolver, dids: set<string>, a: string, b: string) {
    b in dids && PointsTo(net, a, b)
  }

  lemma Successor(net: Resolver, dids: set<string>, a: string) returns (b: string)
    requires Leads(net, dids, a)
    ensures b in dids && PointsTo(net, a, b)
  {
    b :| LeadsTo(net, dids, a, b);
  }

  /** From a set in which every DID points to another of the set one can walk as long as one likes. */
  lemma {:induction false} Wander(net: Resolver, dids: set<string>, start: string, steps: nat) returns (p: seq<string>)
    requires start in dids && forall a | a in dids :: Leads(net, dids, a)
    ensures |p| == steps + 1 && Path(net, p) && p[0] == start && forall a | a in p :: a in dids
    decreases steps
  {
    hide PointsTo, Leads;
    if steps == 0 {
      p := [start];
    } else {
      var b := Successor(net, dids, start);
      var rest := Wander(net, dids, b, steps - 1);
      p := [start] + rest;
      forall i | 0 <= i < |p| - 1 ensures StepOf(net, p, i) {
        if i > 0 { assert StepOf(net, rest, i - 1); }
      }
    }
  }

  lemma {:induction false} DistinctCount(p: seq<string>, dids: set<string>)
    requires (forall i, j | 0 <= i < j < |p| :: p[i] != p[j]) && forall a | a in p :: a in dids
    ensures |p| <= |dids|
  {
    if p != [] {
      var last := p[|p| - 1];
      forall a | a in p[..|p| - 1] ensures a in dids - {last} {
        var i :| 0 <= i < |p| - 1 && p[i] == a;
      }
      DistinctCount(p[..|p| - 1], dids - {last});
    }
  }

  /** The part of a path between two visits to a DID is a cycle. */
  lemma ReturnIsCycle(net: Resolver, p: seq<string>, i: nat, j: nat)
    requires i < j < |p| && p[i] == p[j] && Path(net, p)
    ensures !NoCycle(net)
  {
    hide PointsTo;
    var q := p[i..j + 1];
    forall k | 0 <= k < |q| - 1 ensures StepOf(net, q, k) {
      assert StepOf(net, p, i + k);
    }
    assert q[0] == q[|q| - 1] && Path(net, q);
  }

  /** A long walk in a finite set meets some DID twice. */
  lemma LongWalkCycles(net: Resolver, dids: set<string>, p: seq<string>)
    requires |p| > |dids| && Path(net, p) && forall a | a in p :: a in dids
    ensures !NoCycle(net)
  {
    hide Path, NoCycle;
    if i, j :| 0 <= i < j < |p| && p[i] == p[j] {
      ReturnIsCycle(net, p, i, j);
    } else {
      DistinctCount(p, dids);
    }
  }

  lemma SinkExists(net: Resolver, dids: set<string>) returns (a: string)
    requires NoCycle(net) && dids != {}
    ensures a in dids && !Leads(net, dids, a)
  {
    hide PointsTo, Leads, NoCycle, Path;
    var start :| start in dids;
    if forall d | d in dids :: Leads(net, dids, d) {
      var p := Wander(net, dids, start, |dids|);
      LongWalkCycles(net, dids, p);
    }
    a :| a in dids && !Leads(net, dids, a);
  }

  /** `rank` orders the DIDs outside `rest`, which point to no DID of `rest`. */
  ghost predicate Ranked(net: Resolver, rest: set<string>, rank: map<string, nat>) {
    && rank.Keys == net.Keys - rest
    && (forall a | a in rank :: rank[a] < |rank|)
    && forall a, b | a in rank && PointsTo(net, a, b) :: b in rank && rank[b] < rank[a]
  }

  lemma {:induction false} RankRest(net: Resolver, rest: set<string>, rank: map<string, nat>)
    returns (full: map<string, nat>)
    requires NoCycle(net) && rest <= net.Keys && Ranked(net, rest, rank)
    ensures Ranked(net, {}, full)
    decreases rest
  {
    hide NoCycle, PointsTo;
    if rest == {} {
      full := rank;
    } else {
      var sink := SinkExists(net, rest);
      var more := rank[sink := |rank|];
      assert more.Keys == rank.Keys + {sink};
      assert |more| == |more.Keys| && |rank| == |rank.Keys|;
      forall a, b | a in more && PointsTo(net, a, b) ensures b in more && more[b] < more[a] {
        PointsToKnown(net, a, b);
        assert a == sink ==> !LeadsTo(net, rest, a, b);
      }
      full := RankRest(net, rest - {sink}, more);
    }
  }

  lemma PointsToKnown(net: Resolver, a: string, b: string)
    requires PointsTo(net, a, b)
    ensures a in net && b in net
  {
  }

  /** A network has a rank for sending to go down by exactly when its DID endpoints form no cycle. */
  lemma RankExists(net: Resolver) returns (rank: map<string, nat>)
    requires NoCycle(net)
    ensures Acyclic(net, rank)
  {
    rank := RankRest(net, net.Keys, map[]);
    forall did, s | did in net && s in Flatten(net[did].services) && IsDidEndpoint(s)
      ensures PointsDown(net, rank, did, EndpointUrl(s))
    {
      var target := DidOf(EndpointUrl(s));
      if target.Some? && target.value in net {
        assert PointsTo(net, did, target.value);
      }
    }
  }

  lemma RankExistsIff(net: Resolver)
    ensures (exists rank :: Acyclic(net, rank)) <==> NoCycle(net)
  {
    if NoCycle(net) {
      var rank := RankExists(net);
    }
    if rank :| Acyclic(net, rank) {
      forall p | |p| >= 2 && Path(net, p) ensures p[0] != p[|p| - 1] {
        PathRanksLower(net, rank, p);
      }
    }
  }

  // ---------------------------------------------------------------- the rank is only a measure

  /** What a send does depends on the network alone, not on the rank by which it is seen to end. */
  lemma {:induction false} SendSame(ctx: Context, rank: map<string, nat>, other: map<string, nat>, recipient: string,
                                   wire: Wire, state: State)
    requires Acyclic(ctx.net, rank) && Acyclic(ctx.net, other)
    ensures Send(ctx, rank, recipient, wire, state) == Send(ctx, other, recipient, wire, state)
    decreases RankOf(ctx.net, rank, recipient), 1, 0
  {
    hide Acyclic, RankOf, Serve, Spray, Services, Conclude, Resolve;
    if Services(ctx.net, recipient) != [] {
      SpraySame(ctx, rank, other, recipient, 0, Spraying(Ok([]), wire, state));
    }
  }

  lemma {:induction false} SpraySame(ctx: Context, rank: map<string, nat>, other: map<string, nat>, recipient: string,
                                    i: nat, now: Spraying)
    requires Acyclic(ctx.net, rank) && Acyclic(ctx.net, other) && i <= |Services(ctx.net, recipient)|
    ensures Spray(ctx, rank, recipient, i, now) == Spray(ctx, other, recipient, i, now)
    decreases RankOf(ctx.net, rank, recipient), 0, |Services(ctx.net, recipient)| - i
  {
    hide Acyclic, RankOf, Serve, Services;
    if i < |Services(ctx.net, recipient)| && now.attempts.Ok? {
      ServeSame(ctx, rank, other, recipient, i, now);
      SpraySame(ctx, rank, other, recipient, i + 1, Serve(ctx, rank, recipient, i, now));
    }
  }

  lemma {:induction false} ServeSame(ctx: Context, rank: map<string, nat>, other: map<string, nat>, recipient: string,
                                    i: nat, now: Spraying)
    requires Acyclic(ctx.net, rank) && Acyclic(ctx.net, other)
    requires i < |Services(ctx.net, recipient)| && now.attempts.Ok?
    ensures Serve(ctx, rank, recipient, i, now) == Serve(ctx, other, recipient, i, now)
    decreases RankOf(ctx.net, rank, recipient), 0, |Services(ctx.net, recipient)| - i, 0
  {
    hide Acyclic, RankOf, Services, WrapRoute, WrapForward, TransmitMatching, EndpointUrl, RoutingKeys, Send;
    var service := Services(ctx.net, recipient)[i];
    var keys := RoutingKeys(service);
    var state := now.state.(nonce := now.state.nonce + |keys|);
    var wrapped := WrapRoute(ctx.agent, ctx.net, recipient, keys, now.wire, now.state.nonce);
    if wrapped.Ok? && IsDidEndpoint(service) {
      var url := EndpointUrl(service);
      var onward := WrapForward(ctx.agent, ctx.net, EndpointNext(keys, recipient), wrapped.value, url, state.nonce);
      if onward.Ok? {
        EndpointRanksLower(ctx.net, rank, recipient, i);
        SendSame(ctx, rank, other, url, onward.value, state.(nonce := state.nonce + 1));
      }
    }
  }
}
