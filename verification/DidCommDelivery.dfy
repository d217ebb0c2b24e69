/** What the payloads handed to transports are: how services influence each other, and where payloads lead. */
module DidCommDelivery {
  import opened Results
  import opened Strings
  import opened DidCommWire
  import opened DidCommPacking
  import opened DidCommRoundTrip
  import opened DidCommRouting
  import opened DidCommSending
  import opened DidCommAcyclic

  // ---------------------------------------------------------------- the deliveries of a send

  /** The deliveries `after` has on top of `before`. */
  function New(before: State, after: State): seq<Delivery>
    requires before.outbox <= after.outbox
  {
    after.outbox[|before.outbox|..]
  }

  lemma NewSplits(a: State, b: State, c: State)
    requires a.outbox <= b.outbox <= c.outbox
    ensures New(a, c) == New(a, b) + New(b, c)
  {
  }

  lemma NewNone(a: State, b: State)
    requires a.outbox == b.outbox
    ensures New(a, b) == []
  {
  }

  lemma NewMembers(a: State, b: State, c: State)
    requires a.outbox <= b.outbox <= c.outbox
    ensures forall d | d in New(a, c) :: d in New(a, b) || d in New(b, c)
  {
    NewSplits(a, b, c);
  }

  /** The calls of one service's transports. */
  function Calls(recipient: string, index: nat, service: Service, payload: Wire, transports: seq<Transport>)
    : (r: seq<Delivery>)
    ensures |r| == |transports|
    ensures forall i | 0 <= i < |r| :: r[i] == Delivery(recipient, index, service, transports[i].id, payload)
  {
    seq(|transports|, i requires 0 <= i < |transports| =>
      Delivery(recipient, index, service, transports[i].id, payload))
  }

  lemma {:induction false} TransmitCalls(ctx: Context, recipient: string, index: nat, service: Service, payload: Wire,
                                        transports: seq<Transport>, state: State)
    ensures Transmit(ctx, recipient, index, service, payload, transports, state).1
            == state.(outbox := state.outbox + Calls(recipient, index, service, payload, transports))
  {
    hide AttemptOf, Calls;
    if transports == [] {
      NoCalls(recipient, index, service, payload);
      assert state.outbox + Calls(recipient, index, service, payload, transports) == state.outbox;
    } else {
      var made := Delivery(recipient, index, service, transports[0].id, payload);
      var next := state.(outbox := state.outbox + [made]);
      var rest := Calls(recipient, index, service, payload, transports[1..]);
      TransmitCalls(ctx, recipient, index, service, payload, transports[1..], next);
      CallsStep(recipient, index, service, payload, transports);
      assert next.outbox + rest == state.outbox + ([made] + rest);
    }
  }

  lemma NoCalls(recipient: string, index: nat, service: Service, payload: Wire)
    ensures Calls(recipient, index, service, payload, []) == []
  {
  }

  lemma CallsStep(recipient: string, index: nat, service: Service, payload: Wire, transports: seq<Transport>)
    requires transports != []
    ensures Calls(recipient, index, service, payload, transports) ==
            [Delivery(recipient, index, service, transports[0].id, payload)]
            + Calls(recipient, index, service, payload, transports[1..])
  {
  }

  lemma TransmitMatchingCalls(ctx: Context, recipient: string, index: nat, service: Service, payload: Wire,
                              state: State)
    ensures var after := TransmitMatching(ctx, recipient, index, service, payload, state).1;
            && state.outbox <= after.outbox
            && New(state, after) == Calls(recipient, index, service, payload, Matching(ctx.transports, service))
  {
    var transports := Matching(ctx.transports, service);
    if transports != [] {
      TransmitCalls(ctx, recipient, index, service, payload, transports, state);
    } else {
      assert Calls(recipient, index, service, payload, transports) == [];
    }
  }

  /**
    A service that did not throw wrapped the message along its routing keys, then (for a DID endpoint) sent it on
    to that DID, then called its transports with the wrapped message.
   */
  lemma ServeShape(ctx: Context, rank: map<string, nat>, recipient: string, i: nat, now: Spraying)
    returns (wrapped: Wire, onward: Wire, start: State, middle: State)
    requires Acyclic(ctx.net, rank)
    requires i < |Services(ctx.net, recipient)| && now.attempts.Ok?
    requires Serve(ctx, rank, recipient, i, now).attempts.Ok?
    ensures var service := Services(ctx.net, recipient)[i];
            var keys := RoutingKeys(service);
            var after := Serve(ctx, rank, recipient, i, now);
            && WrapRoute(ctx.agent, ctx.net, recipient, keys, now.wire, now.state.nonce) == Ok(wrapped)
            && after.wire == wrapped
            && start.outbox == now.state.outbox
            && (IsDidEndpoint(service) ==>
                  && start.nonce > 0
                  && WrapForward(ctx.agent, ctx.net, EndpointNext(keys, recipient), wrapped,
                                 EndpointUrl(service), start.nonce - 1) == Ok(onward)
                  && middle == Send(ctx, rank, EndpointUrl(service), onward, start).state)
            && (!IsDidEndpoint(service) ==> middle == start)
            && after.state == TransmitMatching(ctx, recipient, i, service, wrapped, middle).1
  {
    hide WrapRoute, WrapForward, TransmitMatching, Services, Acyclic;
    var service := Services(ctx.net, recipient)[i];
    var keys := RoutingKeys(service);
    wrapped := WrapRoute(ctx.agent, ctx.net, recipient, keys, now.wire, now.state.nonce).value;
    start := now.state.(nonce := now.state.nonce + |keys|);
    middle := start;
    onward := wrapped;
    if IsDidEndpoint(service) {
      EndpointRanksLower(ctx.net, rank, recipient, i);
      onward := WrapForward(ctx.agent, ctx.net, EndpointNext(keys, recipient), wrapped, EndpointUrl(service),
                            start.nonce).value;
      start := start.(nonce := start.nonce + 1);
      middle := Send(ctx, rank, EndpointUrl(service), onward, start).state;
    }
  }

  ghost predicate RanksWithin(net: Resolver, rank: map<string, nat>, ds: seq<Delivery>, bound: nat)
    requires net.Keys <= rank.Keys
  {
    forall d | d in ds :: RankOf(net, rank, d.recipient) <= bound
  }

  /** Sending only adds deliveries, and those made through DID endpoints are for DIDs of smaller rank. */
  lemma {:induction false} SendGrows(ctx: Context, rank: map<string, nat>, recipient: string, wire: Wire, state: State)
    requires Acyclic(ctx.net, rank)
    ensures var after := Send(ctx, rank, recipient, wire, state).state;
            && state.outbox <= after.outbox
            && RanksWithin(ctx.net, rank, New(state, after), RankOf(ctx.net, rank, recipient))
    decreases RankOf(ctx.net, rank, recipient), 1, 0
  {
    if Services(ctx.net, recipient) != [] {
      SprayGrows(ctx, rank, recipient, 0, Spraying(Ok([]), wire, state));
    }
  }

  lemma {:induction false} SprayGrows(ctx: Context, rank: map<string, nat>, recipient: string, i: nat, now: Spraying)
    requires Acyclic(ctx.net, rank)
    requires i <= |Services(ctx.net, recipient)|
    ensures var after := Spray(ctx, rank, recipient, i, now).state;
            && now.state.outbox <= after.outbox
            && RanksWithin(ctx.net, rank, New(now.state, after), RankOf(ctx.net, rank, recipient))
    decreases RankOf(ctx.net, rank, recipient), 0, |Services(ctx.net, recipient)| - i
  {
    hide Serve, Services, RankOf, Acyclic;
    if i < |Services(ctx.net, recipient)| && now.attempts.Ok? {
      var next := Serve(ctx, rank, recipient, i, now);
      ServeGrows(ctx, rank, recipient, i, now);
      SprayGrows(ctx, rank, recipient, i + 1, next);
      NewSplits(now.state, next.state, Spray(ctx, rank, recipient, i, now).state);
    }
  }

  lemma {:induction false} ServeGrows(ctx: Context, rank: map<string, nat>, recipient: string, i: nat, now: Spraying)
    requires Acyclic(ctx.net, rank)
    requires i < |Services(ctx.net, recipient)| && now.attempts.Ok?
    ensures var after := Serve(ctx, rank, recipient, i, now).state;
            && now.state.outbox <= after.outbox
            && RanksWithin(ctx.net, rank, New(now.state, after), RankOf(ctx.net, rank, recipient))
    decreases RankOf(ctx.net, rank, recipient), 0, |Services(ctx.net, recipient)| - i, 0
  {
    hide WrapRoute, WrapForward, TransmitMatching, Services;
    var service := Services(ctx.net, recipient)[i];
    var after := Serve(ctx, rank, recipient, i, now);
    if after.attempts.Ok? {
      var wrapped, onward, start, middle := ServeShape(ctx, rank, recipient, i, now);
      if IsDidEndpoint(service) {
        EndpointRanksLower(ctx.net, rank, recipient, i);
        SendGrows(ctx, rank, EndpointUrl(service), onward, start);
      }
      TransmitMatchingCalls(ctx, recipient, i, service, wrapped, middle);
      NewSplits(start, middle, after.state);
    }
  }

  // ---------------------------------------------------------------- services accumulate wrappings

  /** `w` is some wrapping of `w0` along `keys`, whatever randomness was drawn. */
  ghost predicate Wraps(ctx: Context, recipient: string, keys: seq<string>, w0: Wire, w: Wire) {
    exists nonce: nat :: WrapsWith(ctx, recipient, keys, w0, nonce, w)
  }

  predicate WrapsWith(ctx: Context, recipient: string, keys: seq<string>, w0: Wire, nonce: nat, w: Wire) {
    WrapRoute(ctx.agent, ctx.net, recipient, keys, w0, nonce) == Ok(w)
  }

  /** `w` is `w0` wrapped by the routing keys of `services` in turn, the last service outermost. */
  ghost predicate Accumulated(ctx: Context, recipient: string, services: seq<Service>, w0: Wire, w: Wire)
    decreases |services|, 1
  {
    if services == [] then w == w0 else exists mid :: AccumulatedVia(ctx, recipient, services, w0, mid, w)
  }

  /** `mid` has been through all services but the last, which made `w` of it. */
  ghost predicate AccumulatedVia(ctx: Context, recipient: string, services: seq<Service>, w0: Wire, mid: Wire, w: Wire)
    requires services != []
    decreases |services|, 0
  {
    var last := |services| - 1;
    Accumulated(ctx, recipient, services[..last], w0, mid) && Wraps(ctx, recipient, RoutingKeys(services[last]), mid, w)
  }

  /** A delivery of `recipient`'s own services carries everything wrapped up to its service. */
  ghost predicate CarriesPrefix(ctx: Context, recipient: string, w0: Wire, d: Delivery) {
    d.recipient == recipient ==>
      && d.index < |Services(ctx.net, recipient)|
      && d.service == Services(ctx.net, recipient)[d.index]
      && Accumulated(ctx, recipient, Services(ctx.net, recipient)[..d.index + 1], w0, d.payload)
  }

  /** The payload for the k-th service is the message wrapped for services 0..k, not just for service k. */
  lemma PayloadsAccumulate(ctx: Context, rank: map<string, nat>, recipient: string, wire: Wire, state: State)
    requires Acyclic(ctx.net, rank)
    ensures state.outbox <= Send(ctx, rank, recipient, wire, state).state.outbox
    ensures forall d | d in New(state, Send(ctx, rank, recipient, wire, state).state) ::
              CarriesPrefix(ctx, recipient, wire, d)
  {
    SendGrows(ctx, rank, recipient, wire, state);
    if Services(ctx.net, recipient) != [] {
      assert Services(ctx.net, recipient)[..0] == [];
      SprayAccumulates(ctx, rank, recipient, 0, Spraying(Ok([]), wire, state), wire);
    }
  }

  lemma {:induction false} SprayAccumulates(ctx: Context, rank: map<string, nat>, recipient: string, i: nat,
                                           now: Spraying, w0: Wire)
    requires Acyclic(ctx.net, rank)
    requires i <= |Services(ctx.net, recipient)|
    requires now.attempts.Ok? ==> Accumulated(ctx, recipient, Services(ctx.net, recipient)[..i], w0, now.wire)
    ensures now.state.outbox <= Spray(ctx, rank, recipient, i, now).state.outbox
    ensures forall d | d in New(now.state, Spray(ctx, rank, recipient, i, now).state) ::
              CarriesPrefix(ctx, recipient, w0, d)
    decreases |Services(ctx.net, recipient)| - i
  {
    hide Serve, Accumulated, CarriesPrefix, Services, Acyclic;
    SprayGrows(ctx, rank, recipient, i, now);
    if i < |Services(ctx.net, recipient)| && now.attempts.Ok? {
      var next := Serve(ctx, rank, recipient, i, now);
      ServeGrows(ctx, rank, recipient, i, now);
      ServeAccumulates(ctx, rank, recipient, i, now, w0);
      SprayAccumulates(ctx, rank, recipient, i + 1, next, w0);
      NewSplits(now.state, next.state, Spray(ctx, rank, recipient, i, now).state);
    }
  }

  lemma ServeAccumulates(ctx: Context, rank: map<string, nat>, recipient: string, i: nat, now: Spraying, w0: Wire)
    requires Acyclic(ctx.net, rank)
    requires i < |Services(ctx.net, recipient)| && now.attempts.Ok?
    requires Accumulated(ctx, recipient, Services(ctx.net, recipient)[..i], w0, now.wire)
    ensures var next := Serve(ctx, rank, recipient, i, now);
            && now.state.outbox <= next.state.outbox
            && (next.attempts.Ok? ==>
                  Accumulated(ctx, recipient, Services(ctx.net, recipient)[..i + 1], w0, next.wire))
            && forall d | d in New(now.state, next.state) :: CarriesPrefix(ctx, recipient, w0, d)
  {
    hide WrapRoute, WrapForward, TransmitMatching, Services, Serve, RoutingKeys, IsDidEndpoint, EndpointUrl;
    hide Acyclic, DidOf;
    ServeGrows(ctx, rank, recipient, i, now);
    var services := Services(ctx.net, recipient);
    var next := Serve(ctx, rank, recipient, i, now);
    if next.attempts.Ok? {
      var wrapped, onward, start, middle := ServeShape(ctx, rank, recipient, i, now);
      var prefix := services[..i + 1];
      assert prefix[..|prefix| - 1] == services[..i];
      assert prefix[|prefix| - 1] == services[i];
      assert WrapsWith(ctx, recipient, RoutingKeys(services[i]), now.wire, now.state.nonce, wrapped);
      assert AccumulatedVia(ctx, recipient, prefix, w0, now.wire, wrapped);
      assert Accumulated(ctx, recipient, prefix, w0, wrapped);
      if IsDidEndpoint(services[i]) {
        EndpointRanksLower(ctx.net, rank, recipient, i);
        SendGrows(ctx, rank, EndpointUrl(services[i]), onward, start);
      }
      TransmitMatchingCalls(ctx, recipient, i, services[i], wrapped, middle);
      NewSplits(start, middle, next.state);
    } else {
      ServeThrows(ctx, rank, recipient, i, now);
    }
  }

  lemma {:induction false} AccumulatedLayers(ctx: Context, recipient: string, services: seq<Service>, w0: Wire, w: Wire)
    requires Accumulated(ctx, recipient, services, w0, w)
    ensures Layers(w) >= Layers(w0)
    ensures w == w0 <==> forall s | s in services :: RoutingKeys(s) == []
    ensures w != w0 ==> Layers(w) > Layers(w0)
  {
    hide WrapForward, RoutingKeys;
    if services != [] {
      var n := |services| - 1;
      var mid :| AccumulatedVia(ctx, recipient, services, w0, mid, w);
      var nonce: nat :| WrapsWith(ctx, recipient, RoutingKeys(services[n]), mid, nonce, w);
      AccumulatedLayers(ctx, recipient, services[..n], w0, mid);
      WrapRouteAddsLayers(ctx.agent, ctx.net, recipient, RoutingKeys(services[n]), mid, nonce);
      assert services == services[..n] + [services[n]];
    }
  }

  /**
    Services are served independently, that is, the payload for the last of `services` is some wrapping of the
    caller's own message for that service, exactly when no earlier service has routing keys.
   */
  lemma IndependentIffEarlierUnrouted(ctx: Context, recipient: string, services: seq<Service>, w0: Wire, w: Wire)
    requires services != [] && Accumulated(ctx, recipient, services, w0, w)
    ensures Wraps(ctx, recipient, RoutingKeys(services[|services| - 1]), w0, w) <==>
             forall s | s in services[..|services| - 1] :: RoutingKeys(s) == []
  {
    hide WrapRoute, RoutingKeys;
    var n := |services| - 1;
    var mid :| AccumulatedVia(ctx, recipient, services, w0, mid, w);
    AccumulatedLayers(ctx, recipient, services[..n], w0, mid);
    var nonce: nat :| WrapsWith(ctx, recipient, RoutingKeys(services[n]), mid, nonce, w);
    if nonce': nat :| WrapsWith(ctx, recipient, RoutingKeys(services[n]), w0, nonce', w) {
      WrapRouteInjective(ctx.agent, ctx.net, recipient, RoutingKeys(services[n]), mid, nonce, w0, nonce');
    }
  }

  // ---------------------------------------------------------------- every service is tried

  /** The calls made for `recipient`'s own services: which service, which transport. */
  function OwnCalls(ds: seq<Delivery>, recipient: string): seq<(nat, string)> {
    if ds == [] then []
    else
      (if ds[0].recipient == recipient then [(ds[0].index, ds[0].transportId)] else [])
      + OwnCalls(ds[1..], recipient)
  }

  /** Every service from `i` on with every transport that supports it, in order. */
  function Plan(transports: seq<Transport>, services: seq<Service>, i: nat): seq<(nat, string)>
    requires i <= |services|
    decreases |services| - i
  {
    if i == |services| then []
    else ServicePlan(Matching(transports, services[i]), i) + Plan(transports, services, i + 1)
  }

  function ServicePlan(transports: seq<Transport>, i: nat): seq<(nat, string)> {
    if transports == [] then [] else [(i, transports[0].id)] + ServicePlan(transports[1..], i)
  }

  lemma {:induction false} OwnCallsConcat(a: seq<Delivery>, b: seq<Delivery>, recipient: string)
    ensures OwnCalls(a + b, recipient) == OwnCalls(a, recipient) + OwnCalls(b, recipient)
  {
    if a == [] {
      assert a + b == b;
    } else {
      var own := if a[0].recipient == recipient then [(a[0].index, a[0].transportId)] else [];
      assert (a + b)[0] == a[0] && (a + b)[1..] == a[1..] + b;
      OwnCallsConcat(a[1..], b, recipient);
      assert OwnCalls(a + b, recipient) == own + (OwnCalls(a[1..], recipient) + OwnCalls(b, recipient));
      assert OwnCalls(a, recipient) == own + OwnCalls(a[1..], recipient);
    }
  }

  lemma {:induction false} OwnCallsOfOthers(ds: seq<Delivery>, recipient: string)
    requires forall d | d in ds :: d.recipient != recipient
    ensures OwnCalls(ds, recipient) == []
  {
    if ds != [] {
      OwnCallsOfOthers(ds[1..], recipient);
    }
  }

  lemma {:induction false} OwnCallsOfCalls(recipient: string, i: nat, service: Service, payload: Wire,
                                          transports: seq<Transport>)
    ensures OwnCalls(Calls(recipient, i, service, payload, transports), recipient) == ServicePlan(transports, i)
  {
    if transports != [] {
      assert Calls(recipient, i, service, payload, transports)[1..]
             == Calls(recipient, i, service, payload, transports[1..]);
      OwnCallsOfCalls(recipient, i, service, payload, transports[1..]);
    }
  }

  /** Unless wrapping throws, each supporting transport is called once for each service, in document order. */
  lemma {:induction false} EveryServiceTried(ctx: Context, rank: map<string, nat>, recipient: string, i: nat,
                                            now: Spraying)
    requires Acyclic(ctx.net, rank)
    requires i <= |Services(ctx.net, recipient)|
    requires Spray(ctx, rank, recipient, i, now).attempts.Ok?
    ensures now.state.outbox <= Spray(ctx, rank, recipient, i, now).state.outbox
    ensures OwnCalls(New(now.state, Spray(ctx, rank, recipient, i, now).state), recipient)
            == Plan(ctx.transports, Services(ctx.net, recipient), i)
    decreases |Services(ctx.net, recipient)| - i
  {
    hide Serve, Services, Matching;
    SprayGrows(ctx, rank, recipient, i, now);
    if i < |Services(ctx.net, recipient)| {
      var next := Serve(ctx, rank, recipient, i, now);
      if next.attempts.Ok? {
        ServeCallsOwn(ctx, rank, recipient, i, now);
        EveryServiceTried(ctx, rank, recipient, i + 1, next);
        var last := Spray(ctx, rank, recipient, i, now).state;
        NewSplits(now.state, next.state, last);
        OwnCallsConcat(New(now.state, next.state), New(next.state, last), recipient);
      }
    }
  }

  lemma ServeCallsOwn(ctx: Context, rank: map<string, nat>, recipient: string, i: nat, now: Spraying)
    requires Acyclic(ctx.net, rank)
    requires i < |Services(ctx.net, recipient)| && now.attempts.Ok?
    requires Serve(ctx, rank, recipient, i, now).attempts.Ok?
    ensures var next := Serve(ctx, rank, recipient, i, now);
            && now.state.outbox <= next.state.outbox
            && OwnCalls(New(now.state, next.state), recipient)
               == ServicePlan(Matching(ctx.transports, Services(ctx.net, recipient)[i]), i)
  {
    hide WrapRoute, WrapForward, TransmitMatching, Services, Matching;
    var service := Services(ctx.net, recipient)[i];
    var next := Serve(ctx, rank, recipient, i, now);
    var wrapped, onward, start, middle := ServeShape(ctx, rank, recipient, i, now);
    if IsDidEndpoint(service) {
      EndpointRanksLower(ctx.net, rank, recipient, i);
      SendGrows(ctx, rank, EndpointUrl(service), onward, start);
    }
    TransmitMatchingCalls(ctx, recipient, i, service, wrapped, middle);
    NewSplits(start, middle, next.state);
    OwnCallsOfOthers(New(start, middle), recipient);
    OwnCallsConcat(New(start, middle), New(middle, next.state), recipient);
    OwnCallsOfCalls(recipient, i, service, wrapped, Matching(ctx.transports, service));
  }

  // ---------------------------------------------------------------- payloads lead back to the recipient

  /** Where a message is, and what is left of it. */
  datatype Position = Position(at: string, wire: Wire)

  /** Forwarding hop by hop: the agent at home at the current DID peels a layer and passes on what was inside. */
  function Walk(net: Resolver, home: map<string, Agent>, hops: nat, at: string, wire: Wire): Result<Position, Error> {
    if hops == 0 then Ok(Position(at, wire))
    else if DidOf(at).None? || DidOf(at).value !in home then Err(NotFound)
    else
      var peeled :- Peel(home[DidOf(at).value], net, wire);
      Walk(net, home, hops - 1, peeled.next, peeled.inner)
  }

  lemma {:induction false} WalkOn(net: Resolver, home: map<string, Agent>, hops: nat, more: nat, at: string, wire: Wire)
    requires Walk(net, home, hops, at, wire).Ok?
    ensures var p := Walk(net, home, hops, at, wire).value;
            Walk(net, home, hops + more, at, wire) == Walk(net, home, more, p.at, p.wire)
  {
    hide Peel;
    if hops > 0 {
      var peeled := Peel(home[DidOf(at).value], net, wire).value;
      WalkOn(net, home, hops - 1, more, peeled.next, peeled.inner);
    }
  }

  /** Every DID is at home at an agent that holds all its key agreement keys. */
  ghost predicate AtHome(net: Resolver, home: map<string, Agent>) {
    && net.Keys <= home.Keys
    && (forall did | did in net :: Sound(home[did]))
    && (forall r: RecipientKey | Listed(net, r) :: Holds(home[DidOf(r.kid).value], r))
  }

  lemma {:induction false} BeforeBefore(s: string, few: set<char>, many: set<char>)
    requires few <= many
    ensures Before(Before(s, few), many) == Before(s, many)
  {
    if s != [] && s[0] !in few {
      assert Before(s, few)[1..] == Before(s[1..], few);
      BeforeBefore(s[1..], few, many);
    }
  }

  lemma MediatorKeepsDid(url: string)
    requires StartsWith(url, "did:")
    ensures DidOf(Mediator(url)) == DidOf(url)
  {
    BeforeKeeps(url, {'#'}, 4);
    assert url[..4] == "did:";
    assert "did:" <= Mediator(url);
    BeforeBefore(url, {'#'}, {'#', '?', '/', ';'});
  }

  lemma {:induction false} SupportedOfDid(methods: seq<VerificationMethod>, kids: Option<seq<string>>, did: string)
    requires forall m | m in methods :: DidOf(m.id) == Some(did)
    ensures forall r | r in SupportedRecipients(WantedMethods(methods, kids)) :: DidOf(r.kid) == Some(did)
  {
    if methods != [] {
      SupportedOfDid(methods[1..], kids, did);
      var all, rest := WantedMethods(methods, kids), WantedMethods(methods[1..], kids);
      if Wanted(methods[0].id, kids) {
        assert all[0] == methods[0] && all[1..] == rest;
      } else {
        assert all == rest;
      }
    }
  }

  /** A layer for `key` is sealed to keys of the key's own DID, and that DID's home agent serves it. */
  lemma HomeServes(net: Resolver, home: map<string, Agent>, key: string)
    requires WellFormed(net) && AtHome(net, home)
    requires LayerRecipients(net, key).Ok?
    ensures DidOf(Mediator(key)).Some? && DidOf(Mediator(key)).value in net
    ensures Serves(home[DidOf(Mediator(key)).value], net, key)
  {
    var kids := KidRestriction(key);
    assert [Mediator(key)][..0] == [];
    assert AllRecipients(net, [], kids) == Ok([]);
    assert AllRecipients(net, [Mediator(key)], kids) ==
           match RecipientsOf(net, Mediator(key), kids) case Ok(rs) => Ok([] + rs) case Err(e) => Err(e);
    var did := DidOf(Mediator(key)).value;
    var recipients := RecipientsOf(net, Mediator(key), kids).value;
    assert [] + recipients == recipients;
    RecipientsAreListed(net, [Mediator(key)], kids);
    SupportedOfDid(Normalized(net[did].keyAgreement), kids, did);
    assert recipients[0] in recipients;
  }

  lemma LayerOpensAtHome(net: Resolver, home: map<string, Agent>, sender: Agent, next: string, inner: Wire, key: string,
                         nonce: nat, at: string)
    requires WellFormed(net) && AtHome(net, home) && Sound(sender)
    requires WrapForward(sender, net, next, inner, key, nonce).Ok?
    requires next != "" && DidOf(at) == DidOf(Mediator(key))
    ensures DidOf(at).Some? && Mediator(key) != ""
    ensures Walk(net, home, 1, at, WrapForward(sender, net, next, inner, key, nonce).value) == Ok(Position(next, inner))
  {
    var w := WrapForward(sender, net, next, inner, key, nonce).value;
    assert LayerRecipients(net, key).Ok? by { PeelsOneLayer(sender, net, next, inner, key, nonce, sender); }
    HomeServes(net, home, key);
    var agent := home[DidOf(at).value];
    PeelsOneLayer(sender, net, next, inner, key, nonce, agent);
    hide Peel, WrapForward;
    assert Walk(net, home, 0, next, inner) == Ok(Position(next, inner));
  }

  /** A routed message finds its way through all mediators to the recipient it was wrapped for. */
  lemma {:induction false} RouteLeadsToRecipient(net: Resolver, home: map<string, Agent>, sender: Agent,
                                                recipient: string, keys: seq<string>, inner: Wire, nonce: nat)
    requires WellFormed(net) && AtHome(net, home) && Sound(sender)
    requires recipient != ""
    requires WrapRoute(sender, net, recipient, keys, inner, nonce).Ok?
    ensures Walk(net, home, |keys|, NextHop(keys, recipient),
                 WrapRoute(sender, net, recipient, keys, inner, nonce).value) == Ok(Position(recipient, inner))
    ensures NextHop(keys, recipient) != ""
  {
    hide WrapForward, Peel, AtHome, WellFormed, Sound, DidOf, Mediator, Resolve, Layers;
    if keys != [] {
      RouteLeadsToRecipient(net, home, sender, recipient, keys[1..], inner, nonce);
      var wrapped := WrapRoute(sender, net, recipient, keys[1..], inner, nonce).value;
      var next := NextHop(keys[1..], recipient);
      LayerOpensAtHome(net, home, sender, next, wrapped, keys[0], nonce + |keys| - 1, Mediator(keys[0]));
      WalkOn(net, home, 1, |keys| - 1, Mediator(keys[0]), WrapRoute(sender, net, recipient, keys, inner, nonce).value);
    }
  }

  /** The agent of the last routing key, whom the extra layer of a DID endpoint names, serves the first one. */
  ghost predicate LastServesFirst(net: Resolver, home: map<string, Agent>, keys: seq<string>)
    requires keys != []
  {
    var last := DidOf(Mediator(keys[|keys| - 1]));
    last.Some? && last.value in home && Serves(home[last.value], net, keys[0])
  }

  /** The mediators of a route that can be wrapped have documents. */
  lemma {:induction false} RoutedInNet(net: Resolver, home: map<string, Agent>, sender: Agent, recipient: string,
                                      keys: seq<string>, inner: Wire, nonce: nat)
    requires WellFormed(net) && AtHome(net, home) && Sound(sender) && keys != []
    requires WrapRoute(sender, net, recipient, keys, inner, nonce).Ok?
    ensures DidOf(Mediator(keys[|keys| - 1])).Some? && DidOf(Mediator(keys[|keys| - 1])).value in net
  {
    hide WrapForward, AtHome, WellFormed, Sound, DidOf, Mediator, Resolve;
    if |keys| > 1 {
      RoutedInNet(net, home, sender, recipient, keys[1..], inner, nonce);
    } else {
      var wrapped := WrapRoute(sender, net, recipient, keys, inner, nonce).value;
      var below := OutermostLayer(sender, net, recipient, keys, inner, nonce, wrapped);
      PeelsOneLayer(sender, net, NextHop(keys[1..], recipient), below, keys[0], nonce + |keys| - 1, sender);
      HomeServes(net, home, keys[0]);
    }
  }

  /**
    What happens after the DID endpoint peeled its layer: the message goes to the last routing key's mediator, and
    from there through all the others to the recipient exactly when that mediator's agent serves the first routing key.
   */
  lemma DidEndpointHop(net: Resolver, home: map<string, Agent>, sender: Agent, recipient: string, keys: seq<string>,
                       inner: Wire, nonce: nat, wrapped: Wire, url: string, nonce': nat, onward: Wire)
    requires WellFormed(net) && AtHome(net, home) && Sound(sender)
    requires recipient != "" && keys != [] && StartsWith(url, "did:")
    requires WrapRoute(sender, net, recipient, keys, inner, nonce) == Ok(wrapped)
    requires WrapForward(sender, net, EndpointNext(keys, recipient), wrapped, url, nonce') == Ok(onward)
    ensures Walk(net, home, 1, url, onward) == Ok(Position(Mediator(keys[|keys| - 1]), wrapped))
    ensures Walk(net, home, 1 + |keys|, url, onward) == Ok(Position(recipient, inner))
            <==> LastServesFirst(net, home, keys)
    ensures !LastServesFirst(net, home, keys) ==> forall hops: nat | hops > 1 :: Walk(net, home, hops, url, onward).Err?
  {
    hide *;
    var next := Mediator(keys[|keys| - 1]);
    RoutedInNet(net, home, sender, recipient, keys, inner, nonce);
    LastMediatorNext(keys, recipient);
    AtHomeSound(net, home, next);
    var agent := home[DidOf(next).value];
    MediatorKeepsDid(url);
    LayerOpensAtHome(net, home, sender, next, wrapped, url, nonce', url);
    var below := OutermostLayer(sender, net, recipient, keys, inner, nonce, wrapped);
    RouteLeadsToRecipient(net, home, sender, recipient, keys[1..], inner, nonce);
    PeelsOneLayer(sender, net, NextHop(keys[1..], recipient), below, keys[0], nonce + |keys| - 1, agent);
    LastServesFirstIs(net, home, keys);
    WalkFrom(net, home, |keys|, next, wrapped);
    WalkOn(net, home, 1, |keys|, url, onward);
    if !LastServesFirst(net, home, keys) {
      forall hops: nat | hops > 1 ensures Walk(net, home, hops, url, onward).Err? {
        WalkOn(net, home, 1, hops - 1, url, onward);
        WalkFrom(net, home, hops - 1, next, wrapped);
      }
    }
  }

  lemma LastServesFirstIs(net: Resolver, home: map<string, Agent>, keys: seq<string>)
    requires keys != []
    requires var last := DidOf(Mediator(keys[|keys| - 1])); last.Some? && last.value in home
    ensures LastServesFirst(net, home, keys) <==> Serves(home[DidOf(Mediator(keys[|keys| - 1])).value], net, keys[0])
  {
  }

  lemma WalkFrom(net: Resolver, home: map<string, Agent>, hops: nat, at: string, wire: Wire)
    requires DidOf(at).Some? && DidOf(at).value in home && hops > 0
    ensures var peeled := Peel(home[DidOf(at).value], net, wire);
            && (peeled.Err? ==> Walk(net, home, hops, at, wire).Err?)
            && (peeled.Ok? ==>
                  Walk(net, home, hops, at, wire) == Walk(net, home, hops - 1, peeled.value.next, peeled.value.inner))
  {
    hide Peel, DidOf;
  }

  lemma LastMediatorNext(keys: seq<string>, recipient: string)
    requires keys != []
    ensures EndpointNext(keys, recipient) == Mediator(keys[|keys| - 1])
  {
  }

  lemma AtHomeSound(net: Resolver, home: map<string, Agent>, at: string)
    requires AtHome(net, home)
    requires DidOf(at).Some? && DidOf(at).value in net
    ensures at != "" && DidOf(at).value in home && Sound(home[DidOf(at).value])
  {
  }

  lemma OutermostLayer(sender: Agent, net: Resolver, recipient: string, keys: seq<string>, inner: Wire, nonce: nat,
                       wrapped: Wire)
    returns (below: Wire)
    requires keys != [] && WrapRoute(sender, net, recipient, keys, inner, nonce) == Ok(wrapped)
    ensures WrapRoute(sender, net, recipient, keys[1..], inner, nonce) == Ok(below)
    ensures WrapForward(sender, net, NextHop(keys[1..], recipient), below, keys[0], nonce + |keys| - 1) == Ok(wrapped)
  {
    hide WrapForward;
    below := WrapRoute(sender, net, recipient, keys[1..], inner, nonce).value;
  }

  /** The payload, started at the mediator of its service's first routing key, reaches the recipient as `wire`. */
  ghost predicate Arrives(net: Resolver, home: map<string, Agent>, d: Delivery, recipient: string, wire: Wire) {
    exists hops: nat ::
      Walk(net, home, hops, NextHop(RoutingKeys(d.service), d.recipient), d.payload) == Ok(Position(recipient, wire))
  }

  /** Only a document's last DIDComm service has routing keys, and those of DID endpoints do not lead astray. */
  ghost predicate Simple(net: Resolver, home: map<string, Agent>) {
    forall did | did in net :: SimpleServices(net, home, Flatten(net[did].services))
  }

  ghost predicate SimpleServices(net: Resolver, home: map<string, Agent>, services: seq<Service>) {
    forall i | 0 <= i < |services| && RoutingKeys(services[i]) != [] ::
      && i + 1 == |services|
      && (IsDidEndpoint(services[i]) ==> LastServesFirst(net, home, RoutingKeys(services[i])))
  }

  /**
    In a network of simple documents, every payload handed to a transport for a URL endpoint, at whatever depth of
    DID endpoints, peels hop by hop back to the caller's recipient and the caller's message.
   */
  lemma {:induction false} SendArrives(ctx: Context, home: map<string, Agent>, rank: map<string, nat>,
                                      recipient: string, wire: Wire, state: State)
    requires Acyclic(ctx.net, rank) && WellFormed(ctx.net) && AtHome(ctx.net, home) && Simple(ctx.net, home)
    requires Sound(ctx.agent)
    ensures state.outbox <= Send(ctx, rank, recipient, wire, state).state.outbox
    ensures forall d | d in New(state, Send(ctx, rank, recipient, wire, state).state) && !IsDidEndpoint(d.service) ::
              Arrives(ctx.net, home, d, recipient, wire)
    decreases RankOf(ctx.net, rank, recipient), 2, 0
  {
    SendGrows(ctx, rank, recipient, wire, state);
    hide AtHome, WellFormed, Sound, Simple, Arrives, Spray, Acyclic;
    var services := Services(ctx.net, recipient);
    if services != [] {
      SimpleAt(ctx.net, home, recipient);
      SprayArrives(ctx, home, rank, recipient, 0, Spraying(Ok([]), wire, state));
    }
  }

  lemma SimpleAt(net: Resolver, home: map<string, Agent>, recipient: string)
    requires Simple(net, home) && Services(net, recipient) != []
    ensures recipient != "" && SimpleServices(net, home, Services(net, recipient))
  {
    hide SimpleServices;
  }

  /** From any service on, with the message still unwrapped. */
  lemma {:induction false} SprayArrives(ctx: Context, home: map<string, Agent>, rank: map<string, nat>,
                                       recipient: string, i: nat, now: Spraying)
    requires Acyclic(ctx.net, rank) && WellFormed(ctx.net) && AtHome(ctx.net, home) && Simple(ctx.net, home)
    requires Sound(ctx.agent)
    requires i <= |Services(ctx.net, recipient)|
    ensures now.state.outbox <= Spray(ctx, rank, recipient, i, now).state.outbox
    ensures forall d | d in New(now.state, Spray(ctx, rank, recipient, i, now).state) && !IsDidEndpoint(d.service) ::
              Arrives(ctx.net, home, d, recipient, now.wire)
    decreases RankOf(ctx.net, rank, recipient), 1, |Services(ctx.net, recipient)| - i
  {
    hide *;
    SprayGrows(ctx, rank, recipient, i, now);
    SprayIs(ctx, rank, recipient, i, now);
    if i < |Services(ctx.net, recipient)| && now.attempts.Ok? {
      var next := Serve(ctx, rank, recipient, i, now);
      ServeGrows(ctx, rank, recipient, i, now);
      var last := Spray(ctx, rank, recipient, i + 1, next).state;
      SprayGrows(ctx, rank, recipient, i + 1, next);
      NewMembers(now.state, next.state, last);
      if next.attempts.Ok? {
        ServeArrives(ctx, home, rank, recipient, i, now);
        SprayIs(ctx, rank, recipient, i + 1, next);
        if i + 1 < |Services(ctx.net, recipient)| {
          SprayArrives(ctx, home, rank, recipient, i + 1, next);
        }
      } else {
        ServeThrows(ctx, rank, recipient, i, now);
        NewNone(now.state, next.state);
        SprayIs(ctx, rank, recipient, i + 1, next);
      }
    }
  }

  lemma SprayIs(ctx: Context, rank: map<string, nat>, recipient: string, i: nat, now: Spraying)
    requires Acyclic(ctx.net, rank)
    requires i <= |Services(ctx.net, recipient)|
    ensures i == |Services(ctx.net, recipient)| || now.attempts.Err? ==> Spray(ctx, rank, recipient, i, now) == now
    ensures i < |Services(ctx.net, recipient)| && now.attempts.Ok? ==>
      Spray(ctx, rank, recipient, i, now) == Spray(ctx, rank, recipient, i + 1, Serve(ctx, rank, recipient, i, now))
    ensures New(now.state, now.state) == []
  {
  }

  /** Without a cycle of DID endpoints a send ends, whatever the rank that shows it, and its payloads arrive. */
  lemma SendArrivesWithoutCycles(ctx: Context, home: map<string, Agent>, recipient: string, wire: Wire, state: State)
    requires NoCycle(ctx.net) && WellFormed(ctx.net) && AtHome(ctx.net, home) && Simple(ctx.net, home)
    requires Sound(ctx.agent)
    ensures exists rank :: Acyclic(ctx.net, rank)
    ensures forall rank, other | Acyclic(ctx.net, rank) && Acyclic(ctx.net, other) ::
      Send(ctx, rank, recipient, wire, state) == Send(ctx, other, recipient, wire, state)
    ensures forall rank, d | Acyclic(ctx.net, rank) && IsNewUrlPayload(ctx, rank, recipient, wire, state, d) ::
      Arrives(ctx.net, home, d, recipient, wire)
  {
    hide *;
    var certificate := RankExists(ctx.net);
    forall rank, other | Acyclic(ctx.net, rank) && Acyclic(ctx.net, other)
      ensures Send(ctx, rank, recipient, wire, state) == Send(ctx, other, recipient, wire, state)
    {
      SendSame(ctx, rank, other, recipient, wire, state);
    }
    forall rank, d | Acyclic(ctx.net, rank) && IsNewUrlPayload(ctx, rank, recipient, wire, state, d)
      ensures Arrives(ctx.net, home, d, recipient, wire)
    {
      SendArrives(ctx, home, rank, recipient, wire, state);
      NewUrlPayloadIs(ctx, rank, recipient, wire, state, d);
    }
  }

  /** A delivery that the send made to a URL endpoint. */
  ghost predicate IsNewUrlPayload(ctx: Context, rank: map<string, nat>, recipient: string, wire: Wire, state: State,
                                  d: Delivery)
    requires Acyclic(ctx.net, rank)
  {
    var after := Send(ctx, rank, recipient, wire, state).state;
    state.outbox <= after.outbox && d in New(state, after) && !IsDidEndpoint(d.service)
  }

  lemma NewUrlPayloadIs(ctx: Context, rank: map<string, nat>, recipient: string, wire: Wire, state: State, d: Delivery)
    requires Acyclic(ctx.net, rank) && IsNewUrlPayload(ctx, rank, recipient, wire, state, d)
    ensures var after := Send(ctx, rank, recipient, wire, state).state;
      state.outbox <= after.outbox && d in New(state, after) && !IsDidEndpoint(d.service)
  {
  }

  /** A service whose wrapping throws has called no transport. */
  lemma ServeThrows(ctx: Context, rank: map<string, nat>, recipient: string, i: nat, now: Spraying)
    requires Acyclic(ctx.net, rank)
    requires i < |Services(ctx.net, recipient)| && now.attempts.Ok?
    requires Serve(ctx, rank, recipient, i, now).attempts.Err?
    ensures Serve(ctx, rank, recipient, i, now).state.outbox == now.state.outbox
  {
    hide WrapRoute, WrapForward, TransmitMatching, Services, Send;
  }

  /** What one service's transports get arrives as what was to be wrapped for it. */
  lemma ServeArrives(ctx: Context, home: map<string, Agent>, rank: map<string, nat>, recipient: string, i: nat,
                     now: Spraying)
    requires Acyclic(ctx.net, rank) && WellFormed(ctx.net) && AtHome(ctx.net, home) && Simple(ctx.net, home)
    requires Sound(ctx.agent)
    requires i < |Services(ctx.net, recipient)| && now.attempts.Ok?
    requires Serve(ctx, rank, recipient, i, now).attempts.Ok?
    ensures var after := Serve(ctx, rank, recipient, i, now);
            && now.state.outbox <= after.state.outbox
            && (i + 1 < |Services(ctx.net, recipient)| ==> after.wire == now.wire)
            && forall d | d in New(now.state, after.state) && !IsDidEndpoint(d.service) ::
                 Arrives(ctx.net, home, d, recipient, now.wire)
    decreases RankOf(ctx.net, rank, recipient), 0
  {
    hide *;
    var service := Services(ctx.net, recipient)[i];
    var state, wire := now.state, now.wire;
    SimpleAt(ctx.net, home, recipient);
    SimpleServiceAt(ctx.net, home, Services(ctx.net, recipient), i);
    var keys := RoutingKeys(service);
    var after := Serve(ctx, rank, recipient, i, now);
    ServeGrows(ctx, rank, recipient, i, now);
    var wrapped, onward, start, middle := ServeShape(ctx, rank, recipient, i, now);
    if keys == [] { WrapRouteNone(ctx.agent, ctx.net, recipient, wire, state.nonce); }
    RouteLeadsToRecipient(ctx.net, home, ctx.agent, recipient, keys, wire, state.nonce);
    TransmitMatchingCalls(ctx, recipient, i, service, wrapped, middle);
    if !IsDidEndpoint(service) {
      StateNew(start, state, after.state);
      forall d | d in New(state, after.state) ensures Arrives(ctx.net, home, d, recipient, wire) {
        assert d.service == service && d.recipient == recipient && d.payload == wrapped;
        ArrivesIn(ctx.net, home, d, recipient, wire, |keys|);
      }
    } else {
      var url := EndpointUrl(service);
      EndpointRanksLower(ctx.net, rank, recipient, i);
      SendArrives(ctx, home, rank, url, onward, start);
      NewSplits(start, middle, after.state);
      StateNew(start, state, after.state);
      DidUrl(service);
      EndpointLeads(ctx.net, home, ctx.agent, recipient, keys, wire, state.nonce, wrapped, url, start.nonce - 1,
                    onward);
      forall d | d in New(state, after.state) && !IsDidEndpoint(d.service)
        ensures Arrives(ctx.net, home, d, recipient, wire)
      {
        assert d in New(start, middle);
        ArrivesFurther(ctx.net, home, d, url, onward, recipient, wire, 1 + |keys|);
      }
    }
  }

  lemma SimpleServiceAt(net: Resolver, home: map<string, Agent>, services: seq<Service>, i: nat)
    requires SimpleServices(net, home, services) && i < |services|
    ensures i + 1 < |services| ==> RoutingKeys(services[i]) == []
    ensures IsDidEndpoint(services[i]) && RoutingKeys(services[i]) != [] ==>
              LastServesFirst(net, home, RoutingKeys(services[i]))
  {
    hide RoutingKeys, LastServesFirst, IsDidEndpoint;
  }

  /** What goes on through a DID endpoint gets from there to the recipient. */
  lemma EndpointLeads(net: Resolver, home: map<string, Agent>, sender: Agent, recipient: string, keys: seq<string>,
                      inner: Wire, nonce: nat, wrapped: Wire, url: string, nonce': nat, onward: Wire)
    requires WellFormed(net) && AtHome(net, home) && Sound(sender)
    requires recipient != "" && StartsWith(url, "did:")
    requires WrapRoute(sender, net, recipient, keys, inner, nonce) == Ok(wrapped)
    requires WrapForward(sender, net, EndpointNext(keys, recipient), wrapped, url, nonce') == Ok(onward)
    requires keys != [] ==> LastServesFirst(net, home, keys)
    ensures Walk(net, home, 1 + |keys|, url, onward) == Ok(Position(recipient, inner))
  {
    hide *;
    if keys != [] {
      DidEndpointHop(net, home, sender, recipient, keys, inner, nonce, wrapped, url, nonce', onward);
    } else {
      WrapRouteNone(sender, net, recipient, inner, nonce);
      EndpointNextNone(recipient);
      MediatorKeepsDid(url);
      LayerOpensAtHome(net, home, sender, recipient, wrapped, url, nonce', url);
    }
  }

  lemma EndpointNextNone(recipient: string)
    ensures EndpointNext([], recipient) == recipient
  {
  }

  lemma DidUrl(service: Service)
    requires IsDidEndpoint(service)
    ensures StartsWith(EndpointUrl(service), "did:")
  {
  }

  lemma StateNew(start: State, state: State, after: State)
    requires start.outbox == state.outbox <= after.outbox
    ensures New(start, after) == New(state, after)
  {
  }

  lemma ArrivesIn(net: Resolver, home: map<string, Agent>, d: Delivery, recipient: string, wire: Wire, hops: nat)
    requires Walk(net, home, hops, NextHop(RoutingKeys(d.service), d.recipient), d.payload)
             == Ok(Position(recipient, wire))
    ensures Arrives(net, home, d, recipient, wire)
  {
  }

  lemma ArrivesFurther(net: Resolver, home: map<string, Agent>, d: Delivery, via: string, there: Wire,
                       recipient: string, wire: Wire, more: nat)
    requires Arrives(net, home, d, via, there)
    requires Walk(net, home, more, via, there) == Ok(Position(recipient, wire))
    ensures Arrives(net, home, d, recipient, wire)
  {
    hide Walk, RoutingKeys;
    var first := NextHop(RoutingKeys(d.service), d.recipient);
    var hops: nat :| Walk(net, home, hops, first, d.payload) == Ok(Position(via, there));
    WalkOn(net, home, hops, more, first, d.payload);
    assert Walk(net, home, hops + more, first, d.payload) == Ok(Position(recipient, wire));
  }
}
