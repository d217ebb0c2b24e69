/** What a document's service entries make a send do, from the entries as they are written. */
module DidCommServices {
  import opened Results
  import opened Strings
  import opened DidCommWire
  import opened DidCommPacking
  import opened DidCommRouting
  import opened DidCommSending
  import opened DidCommDelivery
  import opened DidCommSoundness
  import opened DidCommOutcome

  // ---------------------------------------------------------------- which services a document has

  /** The entry is read as this DIDComm service. */
  predicate ReadAs(entry: Service, service: Service) {
    if entry.kind == "DIDCommMessaging" then service == entry
    else entry.t == "dm" && service.kind == "DIDCommMessaging" && service.endpoint == entry.s && service.t == ""
  }

  /** The entries of a document one by one, bundles taken apart. */
  predicate Mentions(entries: seq<ServiceEntry>, entry: Service) {
    exists e | e in entries :: (e.Single? && e.service == entry) || (e.Bundle? && entry in e.services)
  }

  lemma {:induction false} FlattenConcat(a: seq<ServiceEntry>, b: seq<ServiceEntry>)
    ensures Flatten(a + b) == Flatten(a) + Flatten(b)
  {
    hide ProcessAll;
    if a == [] {
      assert a + b == b;
    } else {
      assert (a + b)[1..] == a[1..] + b;
      FlattenConcat(a[1..], b);
    }
  }

  lemma {:induction false} ProcessConcat(a: seq<Service>, b: seq<Service>)
    ensures ProcessAll(a + b) == ProcessAll(a) + ProcessAll(b)
  {
    if a == [] {
      assert a + b == b;
    } else {
      assert (a + b)[1..] == a[1..] + b;
      ProcessConcat(a[1..], b);
    }
  }

  /** A bundle stands for its entries in turn. */
  lemma {:induction false} BundleIsItsEntries(services: seq<Service>)
    ensures Flatten([Bundle(services)])
            == Flatten(seq(|services|, i requires 0 <= i < |services| => Single(services[i])))
  {
    var singles := seq(|services|, i requires 0 <= i < |services| => Single(services[i]));
    assert Flatten([Bundle(services)]) == ProcessAll(services) + Flatten([]);
    if services == [] {
      assert singles == [];
    } else {
      var rest := services[1..];
      var others := seq(|rest|, i requires 0 <= i < |rest| => Single(rest[i]));
      assert singles == [Single(services[0])] + others;
      BundleIsItsEntries(rest);
      assert Flatten([Bundle(rest)]) == ProcessAll(rest) + Flatten([]);
      FlattenConcat([Single(services[0])], others);
      ProcessConcat([services[0]], rest);
      assert services == [services[0]] + rest;
      assert Flatten([Single(services[0])]) == ProcessAll([services[0]]) + Flatten([]);
    }
  }

  /** One entry is one service, or none if it is neither kind of DIDComm service. */
  lemma SingleEntry(entry: Service)
    ensures |Flatten([Single(entry)])| == if entry.kind == "DIDCommMessaging" || entry.t == "dm" then 1 else 0
    ensures forall s | s in Flatten([Single(entry)]) :: ReadAs(entry, s)
  {
    assert [entry][1..] == [] && [Single(entry)][1..] == [];
    assert Flatten([Single(entry)]) == ProcessAll([entry]) + Flatten([]);
    assert ProcessAll([entry]) == (match Process(entry) case Some(s) => [s] case None => []) + ProcessAll([]);
  }

  lemma {:induction false} ProcessedEntries(services: seq<Service>)
    ensures forall s | s in ProcessAll(services) :: exists entry | entry in services :: ReadAs(entry, s)
    ensures forall entry | entry in services && (entry.kind == "DIDCommMessaging" || entry.t == "dm") ::
              exists s | s in ProcessAll(services) :: ReadAs(entry, s)
  {
    if services != [] {
      ProcessedEntries(services[1..]);
      var all := ProcessAll(services);
      var rest := ProcessAll(services[1..]);
      forall s | s in all ensures exists entry | entry in services :: ReadAs(entry, s) {
        if s in rest {
          var entry :| entry in services[1..] && ReadAs(entry, s);
        } else {
          assert ReadAs(services[0], s);
        }
      }
      forall entry | entry in services && (entry.kind == "DIDCommMessaging" || entry.t == "dm")
        ensures exists s | s in all :: ReadAs(entry, s)
      {
        if entry in services[1..] {
          var s :| s in rest && ReadAs(entry, s);
          assert s in all;
        } else {
          assert ReadAs(entry, all[0]);
        }
      }
    }
  }

  /** The DIDComm services of a document are what its entries of either kind are read as. */
  lemma {:induction false} ServicesAreEntries(entries: seq<ServiceEntry>)
    ensures forall s | s in Flatten(entries) :: exists entry :: Mentions(entries, entry) && ReadAs(entry, s)
    ensures forall entry | Mentions(entries, entry) && (entry.kind == "DIDCommMessaging" || entry.t == "dm") ::
              exists s | s in Flatten(entries) :: ReadAs(entry, s)
  {
    hide ProcessAll, ReadAs;
    if entries != [] {
      ServicesAreEntries(entries[1..]);
      var here := match entries[0] case Single(s) => [s] case Bundle(ss) => ss;
      ProcessedEntries(here);
      assert Flatten(entries) == ProcessAll(here) + Flatten(entries[1..]);
      assert entries == [entries[0]] + entries[1..];
      forall entry ensures Mentions(entries, entry) <==> entry in here || Mentions(entries[1..], entry) {}
      hide Mentions, Flatten;
      forall s | s in Flatten(entries) ensures exists entry :: Mentions(entries, entry) && ReadAs(entry, s) {
        if s in ProcessAll(here) {
          var entry :| entry in here && ReadAs(entry, s);
          assert Mentions(entries, entry);
        } else {
          var entry :| Mentions(entries[1..], entry) && ReadAs(entry, s);
          assert Mentions(entries, entry);
        }
      }
      forall entry | Mentions(entries, entry) && (entry.kind == "DIDCommMessaging" || entry.t == "dm")
        ensures exists s | s in Flatten(entries) :: ReadAs(entry, s)
      {
        if entry in here {
          var s :| s in ProcessAll(here) && ReadAs(entry, s);
          assert s in Flatten(entries);
        } else {
          var s :| s in Flatten(entries[1..]) && ReadAs(entry, s);
          assert s in Flatten(entries);
        }
      }
    }
  }

  /** The services that a send goes through are those of the document that the DID of the URL stands for. */
  lemma ServicesOf(net: Resolver, url: string)
    ensures DidOf(url).Some? && DidOf(url).value in net ==>
      Services(net, url) == Flatten(net[DidOf(url).value].services)
    ensures DidOf(url).None? || DidOf(url).value !in net ==> Services(net, url) == []
  {
  }

  /** The document that the DID of the URL stands for has just this DIDComm service. */
  predicate HasOnly(net: Resolver, url: string, service: Service) {
    && DidOf(url).Some? && DidOf(url).value in net
    && service.kind == "DIDCommMessaging" && net[DidOf(url).value].services == [Single(service)]
  }

  lemma OnlyService(net: Resolver, url: string, service: Service)
    requires HasOnly(net, url, service)
    ensures Services(net, url) == [service]
  {
    ServicesOf(net, url);
    SingleEntry(service);
    assert Flatten([Single(service)])[0] in Flatten([Single(service)]);
  }

  // ---------------------------------------------------------------- what an endpoint says

  /** The endpoint names this URL and these routing keys: it is the URL, an object with both, or a list starting so. */
  ghost predicate Declares(endpoint: Endpoint, url: string, keys: seq<string>) {
    || (endpoint == Url(url) && keys == [])
    || (exists uri, routing ::
          && (endpoint == Object(uri, routing)
              || (endpoint.Many? && endpoint.items != [] && endpoint.items[0] == ItemObject(uri, routing)))
          && (if uri == None then url == "" else uri == Some(url))
          && (if routing == None then keys == [] else routing == Some(keys)))
    || (endpoint.Many? && endpoint.items != [] && endpoint.items[0] == ItemUrl(url) && keys == [])
    || (endpoint == Many([]) && url == "" && keys == [])
  }

  lemma DeclaredRead(service: Service, url: string, keys: seq<string>)
    requires Declares(service.endpoint, url, keys)
    ensures EndpointUrl(service) == url && RoutingKeys(service) == keys
  {
  }

  /** Every endpoint declares one URL and one list of keys. */
  lemma SomethingDeclared(service: Service)
    ensures Declares(service.endpoint, EndpointUrl(service), RoutingKeys(service))
  {
    match service.endpoint
    case Url(_) =>
    case Object(uri, routing) =>
      assert service.endpoint == Object(uri, routing);
    case Many(items) =>
      if items != [] && items[0].ItemObject? {
        assert items[0] == ItemObject(items[0].uri, items[0].routingKeys);
      }
  }

  /**
    A document with one service that names a URL and routing keys: the transports that support the service get the
    message wrapped along those keys, and nothing else is sent.
   */
  lemma OneServiceSend(ctx: Context, rank: map<string, nat>, recipient: string, service: Service, url: string,
                       keys: seq<string>, wire: Wire, state: State)
    requires Acyclic(ctx.net, rank) && HasOnly(ctx.net, recipient, service)
    requires Declares(service.endpoint, url, keys) && !StartsWith(url, "did:")
    requires WrapRoute(ctx.agent, ctx.net, recipient, keys, wire, state.nonce).Ok?
    ensures var sent := Send(ctx, rank, recipient, wire, state);
      && WrapRoute(ctx.agent, ctx.net, recipient, keys, wire, state.nonce) == Ok(sent.wire)
      && state.outbox <= sent.state.outbox
      && New(state, sent.state) == Calls(recipient, 0, service, sent.wire, Matching(ctx.transports, service))
  {
    hide *;
    OnlyService(ctx.net, recipient, service);
    SoleService(ctx, rank, recipient, service, wire, state);
    DeclaredRead(service, url, keys);
    PlainIs(service, url);
    ServeCases(ctx, rank, recipient, 0, Spraying(Ok([]), wire, state));
    var wrapped := WrapRoute(ctx.agent, ctx.net, recipient, keys, wire, state.nonce).value;
    var now := state.(nonce := state.nonce + |keys|);
    TransmitMatchingCalls(ctx, recipient, 0, service, wrapped, now);
    StateNew(now, state, TransmitMatching(ctx, recipient, 0, service, wrapped, now).1);
  }

  /** With a DID for a URL, the message wrapped once more for that DID is sent on to it before. */
  lemma OneDidServiceSend(ctx: Context, rank: map<string, nat>, recipient: string, service: Service, url: string,
                          keys: seq<string>, wire: Wire, state: State, wrapped: Wire, onward: Wire)
    requires Acyclic(ctx.net, rank) && HasOnly(ctx.net, recipient, service)
    requires Declares(service.endpoint, url, keys) && StartsWith(url, "did:")
    requires WrapRoute(ctx.agent, ctx.net, recipient, keys, wire, state.nonce) == Ok(wrapped)
    requires WrapForward(ctx.agent, ctx.net, if keys == [] then recipient else Before(keys[|keys| - 1], {'#'}), wrapped,
                         url, state.nonce + |keys|) == Ok(onward)
    ensures var sent := Send(ctx, rank, recipient, wire, state);
      var nested := Send(ctx, rank, url, onward, State(state.nonce + |keys| + 1, state.outbox)).state;
      && sent.wire == wrapped
      && state.outbox <= nested.outbox <= sent.state.outbox
      && New(nested, sent.state) == Calls(recipient, 0, service, wrapped, Matching(ctx.transports, service))
  {
    hide *;
    OnlyService(ctx.net, recipient, service);
    SoleService(ctx, rank, recipient, service, wire, state);
    DeclaredRead(service, url, keys);
    PlainIs(service, url);
    EndpointNextIs(keys, recipient);
    ServeCases(ctx, rank, recipient, 0, Spraying(Ok([]), wire, state));
    var before := State(state.nonce + |keys| + 1, state.outbox);
    SendGrows(ctx, rank, url, onward, before);
    TransmitMatchingCalls(ctx, recipient, 0, service, wrapped, Send(ctx, rank, url, onward, before).state);
  }

  lemma EndpointNextIs(keys: seq<string>, recipient: string)
    ensures EndpointNext(keys, recipient) == if keys == [] then recipient else Before(keys[|keys| - 1], {'#'})
  {
  }

  lemma PlainIs(service: Service, url: string)
    requires EndpointUrl(service) == url
    ensures IsDidEndpoint(service) <==> StartsWith(url, "did:")
  {
  }

  lemma SoleService(ctx: Context, rank: map<string, nat>, recipient: string, service: Service, wire: Wire,
                    state: State)
    requires Acyclic(ctx.net, rank) && Services(ctx.net, recipient) == [service]
    ensures var served := Serve(ctx, rank, recipient, 0, Spraying(Ok([]), wire, state));
      var sent := Send(ctx, rank, recipient, wire, state);
      sent.wire == served.wire && sent.state == served.state
  {
    hide Spray, Serve;
    var begin := Spraying(Ok([]), wire, state);
    SprayIs(ctx, rank, recipient, 0, begin);
    SprayIs(ctx, rank, recipient, 1, Serve(ctx, rank, recipient, 0, begin));
  }

  // ---------------------------------------------------------------- what a layer says

  /** The keys a layer is sealed to: those the routing key's DID offers, and only the key named if it names one. */
  lemma LayerMeaning(net: Resolver, routingKey: string, did: string)
    requires did <= routingKey && '#' !in did && (did == routingKey || routingKey[|did|] == '#')
    ensures LayerRecipients(net, routingKey).Ok? <==>
            exists r :: Offers(net, did, None, r) && ('#' in routingKey ==> r.kid == routingKey)
    ensures LayerRecipients(net, routingKey).Ok? ==>
      forall r :: r in LayerRecipients(net, routingKey).value <==>
                  Offers(net, did, None, r) && ('#' in routingKey ==> r.kid == routingKey)
  {
    MediatorIs(routingKey, did);
    var kids := KidRestriction(routingKey);
    RecipientsMeaning(net, [did], kids);
    forall r
      ensures Offers(net, did, kids, r) <==> Offers(net, did, None, r) && ('#' in routingKey ==> r.kid == routingKey)
    {
    }
    hide Offers, AllRecipients;
    assert did in [did];
    if OffersSome(net, did, kids) {
      var r :| Offers(net, did, kids, r);
    }
  }

  lemma MediatorIs(routingKey: string, did: string)
    requires did <= routingKey && '#' !in did && (did == routingKey || routingKey[|did|] == '#')
    ensures Mediator(routingKey) == did
  {
    var m := Mediator(routingKey);
    assert forall i | 0 <= i < |did| :: did[i] in did && routingKey[i] == did[i];
    assert forall i | 0 <= i < |m| :: m[i] in m && routingKey[i] == m[i];
  }

  /** What is inside a layer: a forward message to the routing key's DID, with the next hop and the rest. */
  lemma ForwardMeaning(agent: Agent, net: Resolver, next: string, inner: Wire, routingKey: string, nonce: nat)
    requires WrapForward(agent, net, next, inner, routingKey, nonce).Ok?
    ensures var w := WrapForward(agent, net, next, inner, routingKey, nonce).value;
      && w.JweObject? && w.protectedHeader.typ == Some("application/didcomm-encrypted+json")
      && w.protectedHeader.skid == None
      && var m := w.ciphertext.text;
         && m.kind == "https://didcomm.org/routing/2.0/forward" && m.body == ForwardTo(next)
         && m.to == [Before(routingKey, {'#'})] && m.from == None
         && |m.attachments| == 1 && m.attachments[0].json == inner
         && m.attachments[0].mediaType ==
              if inner.PlainObject? && inner.message.typ.Some? then inner.message.typ.value
              else "application/didcomm-encrypted+json"
  {
    HeaderMeaning(agent, net, ForwardArgs(next, inner, routingKey, nonce), nonce);
    hide PackedJwe;
  }
}
