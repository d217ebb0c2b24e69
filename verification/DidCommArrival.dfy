/** Which payloads of a recipient's own services arrive, whatever its other services are. */
module DidCommArrival {
  import opened Results
  import opened DidCommWire
  import opened DidCommPacking
  import opened DidCommRoundTrip
  import opened DidCommRouting
  import opened DidCommSending
  import opened DidCommSoundness
  import opened DidCommDelivery

  // ---------------------------------------------------------------- peeling takes layers away

  /** What is peeled lay one layer deeper, whatever kind of message it was in. */
  lemma PeelLowers(agent: Agent, net: Resolver, wire: Wire)
    requires Peel(agent, net, wire).Ok?
    ensures Layers(wire) == Layers(Peel(agent, net, wire).value.inner) + 1
  {
    hide UnpackedMessage, UnpackedJwe;
    var u := UnpackedMessage(agent, net, wire).value;
    AcceptedKinds(agent, net, wire, u);
    if wire.JweObject? { CiphertextAccepted(agent, net, wire, u); }
  }

  lemma {:induction false} WalkLowers(net: Resolver, home: map<string, Agent>, hops: nat, at: string, wire: Wire)
    requires Walk(net, home, hops, at, wire).Ok?
    ensures Layers(wire) == Layers(Walk(net, home, hops, at, wire).value.wire) + hops
  {
    hide Peel, Layers;
    if hops > 0 {
      PeelLowers(home[DidOf(at).value], net, wire);
      var peeled := Peel(home[DidOf(at).value], net, wire).value;
      WalkLowers(net, home, hops - 1, peeled.next, peeled.inner);
    }
  }

  // ---------------------------------------------------------------- through what earlier services wrapped

  /** The agent serves the first routing key of each of the services that has any. */
  ghost predicate ServesAll(net: Resolver, agent: Agent, services: seq<Service>) {
    forall s | s in services && RoutingKeys(s) != [] :: Serves(agent, net, RoutingKeys(s)[0])
  }

  lemma ServesAllSnoc(net: Resolver, agent: Agent, services: seq<Service>)
    requires services != []
    ensures var last := |services| - 1;
      ServesAll(net, agent, services) <==>
        ServesAll(net, agent, services[..last])
        && (RoutingKeys(services[last]) != [] ==> Serves(agent, net, RoutingKeys(services[last])[0]))
  {
    hide Serves, RoutingKeys;
    assert services == services[..|services| - 1] + [services[|services| - 1]];
  }

  /** A message at its recipient that is wrapped along a route to the same recipient. */
  lemma UnwindsRoute(ctx: Context, home: map<string, Agent>, recipient: string, keys: seq<string>, inner: Wire,
                     nonce: nat, w: Wire, hops: nat)
    requires WellFormed(ctx.net) && AtHome(ctx.net, home) && Sound(ctx.agent)
    requires DidOf(recipient).Some? && DidOf(recipient).value in ctx.net
    requires keys != [] && WrapRoute(ctx.agent, ctx.net, recipient, keys, inner, nonce) == Ok(w)
    ensures recipient != "" && DidOf(recipient).value in home
    ensures !Serves(home[DidOf(recipient).value], ctx.net, keys[0]) ==>
      Walk(ctx.net, home, |keys| + hops, recipient, w).Err?
    ensures Serves(home[DidOf(recipient).value], ctx.net, keys[0]) ==>
      Walk(ctx.net, home, |keys| + hops, recipient, w) == Walk(ctx.net, home, hops, recipient, inner)
  {
    hide *;
    AtHomeSound(ctx.net, home, recipient);
    var agent := home[DidOf(recipient).value];
    var below := OutermostLayer(ctx.agent, ctx.net, recipient, keys, inner, nonce, w);
    var next := NextHop(keys[1..], recipient);
    RouteLeadsToRecipient(ctx.net, home, ctx.agent, recipient, keys[1..], inner, nonce);
    PeelsOneLayer(ctx.agent, ctx.net, next, below, keys[0], nonce + |keys| - 1, agent);
    WalkFrom(ctx.net, home, |keys| + hops, recipient, w);
    WalkOn(ctx.net, home, |keys| - 1, hops, next, below);
  }

  lemma AccumulatedLast(ctx: Context, recipient: string, services: seq<Service>, w0: Wire, w: Wire)
    returns (mid: Wire, nonce: nat)
    requires services != [] && Accumulated(ctx, recipient, services, w0, w)
    ensures var last := |services| - 1;
      && Accumulated(ctx, recipient, services[..last], w0, mid)
      && WrapRoute(ctx.agent, ctx.net, recipient, RoutingKeys(services[last]), mid, nonce) == Ok(w)
  {
    hide WrapRoute, RoutingKeys;
    mid :| AccumulatedVia(ctx, recipient, services, w0, mid, w);
    nonce :| WrapsWith(ctx, recipient, RoutingKeys(services[|services| - 1]), mid, nonce, w);
  }

  lemma NoneAccumulated(ctx: Context, home: map<string, Agent>, recipient: string, w0: Wire, w: Wire)
    requires Accumulated(ctx, recipient, [], w0, w)
    requires DidOf(recipient).Some? && DidOf(recipient).value in home
    ensures w == w0 && Walk(ctx.net, home, 0, recipient, w) == Ok(Position(recipient, w))
    ensures ServesAll(ctx.net, home[DidOf(recipient).value], [])
  {
    hide Serves, DidOf;
  }

  /** What services have wrapped in turn comes off at the recipient exactly when its agent serves all of them. */
  lemma {:induction false} Unwinds(ctx: Context, home: map<string, Agent>, recipient: string, services: seq<Service>,
                                   w0: Wire, w: Wire)
    requires WellFormed(ctx.net) && AtHome(ctx.net, home) && Sound(ctx.agent)
    requires DidOf(recipient).Some? && DidOf(recipient).value in ctx.net
    requires Accumulated(ctx, recipient, services, w0, w)
    ensures DidOf(recipient).value in home && Layers(w) >= Layers(w0)
    ensures Walk(ctx.net, home, Layers(w) - Layers(w0), recipient, w) == Ok(Position(recipient, w0))
            <==> ServesAll(ctx.net, home[DidOf(recipient).value], services)
    decreases |services|
  {
    hide *;
    AccumulatedLayers(ctx, recipient, services, w0, w);
    AtHomeSound(ctx.net, home, recipient);
    if services == [] {
      NoneAccumulated(ctx, home, recipient, w0, w);
    } else {
      var n := |services| - 1;
      var mid, nonce := AccumulatedLast(ctx, recipient, services, w0, w);
      var keys := RoutingKeys(services[n]);
      Unwinds(ctx, home, recipient, services[..n], w0, mid);
      ServesAllSnoc(ctx.net, home[DidOf(recipient).value], services);
      WrapRouteAddsLayers(ctx.agent, ctx.net, recipient, keys, mid, nonce);
      if keys == [] {
        WrapRouteNone(ctx.agent, ctx.net, recipient, mid, nonce);
      } else {
        UnwindsRoute(ctx, home, recipient, keys, mid, nonce, w, Layers(mid) - Layers(w0));
      }
    }
  }

  // ---------------------------------------------------------------- the payloads of a recipient's own services

  lemma CarriesPrefixIs(ctx: Context, recipient: string, w0: Wire, d: Delivery)
    requires d.recipient == recipient && CarriesPrefix(ctx, recipient, w0, d)
    ensures d.index < |Services(ctx.net, recipient)| && d.service == Services(ctx.net, recipient)[d.index]
    ensures Accumulated(ctx, recipient, Services(ctx.net, recipient)[..d.index + 1], w0, d.payload)
    ensures DidOf(recipient).Some? && DidOf(recipient).value in ctx.net
  {
    hide Accumulated, DidOf;
  }

  lemma ArrivesAfter(net: Resolver, home: map<string, Agent>, d: Delivery, recipient: string, wire: Wire)
    returns (hops: nat)
    requires Arrives(net, home, d, recipient, wire)
    ensures Walk(net, home, hops, NextHop(RoutingKeys(d.service), d.recipient), d.payload)
            == Ok(Position(recipient, wire))
  {
    hide Walk, RoutingKeys, NextHop;
    hops :| Walk(net, home, hops, NextHop(RoutingKeys(d.service), d.recipient), d.payload)
            == Ok(Position(recipient, wire));
  }

  /** Along its own service's route a payload gets to the recipient, and from there on as the message wrapped. */
  lemma RoutedArrivesIff(ctx: Context, home: map<string, Agent>, recipient: string, w0: Wire, mid: Wire, nonce: nat,
                         d: Delivery)
    requires WellFormed(ctx.net) && AtHome(ctx.net, home) && Sound(ctx.agent)
    requires recipient != "" && d.recipient == recipient && Layers(mid) >= Layers(w0)
    requires WrapRoute(ctx.agent, ctx.net, recipient, RoutingKeys(d.service), mid, nonce) == Ok(d.payload)
    ensures Arrives(ctx.net, home, d, recipient, w0) <==>
            Walk(ctx.net, home, Layers(mid) - Layers(w0), recipient, mid) == Ok(Position(recipient, w0))
  {
    hide *;
    var keys := RoutingKeys(d.service);
    RouteLeadsToRecipient(ctx.net, home, ctx.agent, recipient, keys, mid, nonce);
    WrapRouteAddsLayers(ctx.agent, ctx.net, recipient, keys, mid, nonce);
    var start, more := NextHop(keys, recipient), Layers(mid) - Layers(w0);
    WalkOn(ctx.net, home, |keys|, more, start, d.payload);
    if Arrives(ctx.net, home, d, recipient, w0) {
      var hops := ArrivesAfter(ctx.net, home, d, recipient, w0);
      WalkLowers(ctx.net, home, hops, start, d.payload);
      assert hops == |keys| + more;
    }
    if Walk(ctx.net, home, more, recipient, mid) == Ok(Position(recipient, w0)) {
      ArrivesIn(ctx.net, home, d, recipient, w0, |keys| + more);
    }
  }

  lemma CarriedArrivesIff(ctx: Context, home: map<string, Agent>, recipient: string, w0: Wire, d: Delivery)
    requires WellFormed(ctx.net) && AtHome(ctx.net, home) && Sound(ctx.agent)
    requires d.recipient == recipient && CarriesPrefix(ctx, recipient, w0, d)
    ensures d.index < |Services(ctx.net, recipient)|
    ensures DidOf(recipient).Some? && DidOf(recipient).value in home
    ensures Arrives(ctx.net, home, d, recipient, w0) <==>
            ServesAll(ctx.net, home[DidOf(recipient).value], Services(ctx.net, recipient)[..d.index])
  {
    hide *;
    CarriesPrefixIs(ctx, recipient, w0, d);
    AtHomeSound(ctx.net, home, recipient);
    var services := Services(ctx.net, recipient)[..d.index + 1];
    assert services[..d.index] == Services(ctx.net, recipient)[..d.index];
    var mid, nonce := AccumulatedLast(ctx, recipient, services, w0, d.payload);
    Unwinds(ctx, home, recipient, services[..d.index], w0, mid);
    RoutedArrivesIff(ctx, home, recipient, w0, mid, nonce, d);
  }

  /**
    A payload for one of the recipient's own services, whatever the services and however they are routed, reaches the
    recipient as the caller's message exactly when the recipient's home agent serves the first routing key of each
    earlier service that has any: those wrapped the message before.
   */
  lemma PayloadArrivesIff(ctx: Context, home: map<string, Agent>, rank: map<string, nat>, recipient: string, wire: Wire,
                          state: State, d: Delivery)
    requires Acyclic(ctx.net, rank) && WellFormed(ctx.net) && AtHome(ctx.net, home) && Sound(ctx.agent)
    requires var after := Send(ctx, rank, recipient, wire, state).state;
      state.outbox <= after.outbox && d in New(state, after) && d.recipient == recipient
    ensures d.index < |Services(ctx.net, recipient)|
    ensures DidOf(recipient).Some? && DidOf(recipient).value in home
    ensures Arrives(ctx.net, home, d, recipient, wire) <==>
            ServesAll(ctx.net, home[DidOf(recipient).value], Services(ctx.net, recipient)[..d.index])
  {
    hide *;
    PayloadsAccumulate(ctx, rank, recipient, wire, state);
    CarriedArrivesIff(ctx, home, recipient, wire, d);
  }
}
