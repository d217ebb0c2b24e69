/** What a send tells its caller, in terms of what the transports answered. */
module DidCommOutcome {
  import opened Results
  import opened Strings
  import opened DidCommWire
  import opened DidCommPacking
  import opened DidCommRouting
  import opened DidCommSending
  import opened DidCommDelivery

  /** Some call of a transport made in between was answered without an error. */
  ghost predicate SomeAccepted(ctx: Context, before: State, after: State) {
    exists k | |before.outbox| <= k < |after.outbox| :: ctx.reply(k).Accepted?
  }

  ghost predicate AnySent(attempts: seq<Attempt>) {
    exists a | a in attempts :: a.Sent?
  }

  /** Such a call was one of that transport, and brought that message back. */
  ghost predicate AnsweredBy(ctx: Context, before: State, after: State, transportId: string,
                             returnMessage: Option<string>) {
    exists k | |before.outbox| <= k < |after.outbox| :: AnsweredAt(ctx, after, k, transportId, returnMessage)
  }

  predicate AnsweredAt(ctx: Context, after: State, k: nat, transportId: string, returnMessage: Option<string>)
    requires k < |after.outbox|
  {
    && ctx.reply(k).Accepted? && after.outbox[k].transportId == transportId
    && OrEmpty(ctx.reply(k).returnMessage) == OrEmpty(returnMessage)
  }

  lemma AnsweredWithin(ctx: Context, a: State, b: State, c: State, d: State, transportId: string,
                       returnMessage: Option<string>)
    requires a.outbox <= b.outbox <= c.outbox <= d.outbox
    requires AnsweredBy(ctx, b, c, transportId, returnMessage)
    ensures AnsweredBy(ctx, a, d, transportId, returnMessage)
  {
    var k :| |b.outbox| <= k < |c.outbox| && AnsweredAt(ctx, c, k, transportId, returnMessage);
    assert AnsweredAt(ctx, d, k, transportId, returnMessage);
  }

  ghost predicate AllAnswered(ctx: Context, before: State, after: State, attempts: seq<Attempt>) {
    forall a | a in attempts && a.Sent? :: AnsweredBy(ctx, before, after, a.transportId, a.returnMessage)
  }

  lemma AllAnsweredWithin(ctx: Context, a: State, b: State, c: State, d: State, attempts: seq<Attempt>)
    requires a.outbox <= b.outbox <= c.outbox <= d.outbox && AllAnswered(ctx, b, c, attempts)
    ensures AllAnswered(ctx, a, d, attempts)
  {
    hide AnsweredBy;
    forall x | x in attempts && x.Sent? ensures AnsweredBy(ctx, a, d, x.transportId, x.returnMessage) {
      AnsweredWithin(ctx, a, b, c, d, x.transportId, x.returnMessage);
    }
  }

  lemma AcceptedSplits(ctx: Context, a: State, b: State, c: State)
    requires a.outbox <= b.outbox <= c.outbox
    ensures SomeAccepted(ctx, a, c) <==> SomeAccepted(ctx, a, b) || SomeAccepted(ctx, b, c)
  {
  }

  lemma SentSplits(a: seq<Attempt>, b: seq<Attempt>)
    ensures AnySent(a + b) <==> AnySent(a) || AnySent(b)
  {
    if x :| x in a && x.Sent? { assert x in a + b; }
    if x :| x in b && x.Sent? { assert x in a + b; }
  }

  // ---------------------------------------------------------------- wrapping that cannot fail

  /** Every routing key and every DID endpoint of a DIDComm service is a DID with keys to encrypt to. */
  ghost predicate Routable(net: Resolver) {
    forall did, s | did in net && s in Flatten(net[did].services) :: ServiceRoutable(net, s)
  }

  ghost predicate ServiceRoutable(net: Resolver, s: Service) {
    && (forall key | key in RoutingKeys(s) :: LayerRecipients(net, key).Ok?)
    && (IsDidEndpoint(s) ==> LayerRecipients(net, EndpointUrl(s)).Ok?)
  }

  lemma SomeRecipients(net: Resolver, routingKey: string)
    requires LayerRecipients(net, routingKey).Ok?
    ensures LayerRecipients(net, routingKey).value != []
  {
    var dids, kids := [Mediator(routingKey)], KidRestriction(routingKey);
    assert dids[..0] == [] && AllRecipients(net, [], kids) == Ok([]);
    var one := RecipientsOf(net, dids[0], kids);
    assert AllRecipients(net, dids, kids) == match one case Ok(rs) => Ok([] + rs) case Err(e) => Err(e);
    assert one.Ok? ==> |one.value| > 0;
  }

  lemma DefaultSuite()
    ensures EncrypterFor("anoncrypt", "A256GCM", "ECDH-ES+A256KW") == Some(Suite(EcdhEs, A256Kw, A256Gcm))
  {
    var alg := "ECDH-ES+A256KW";
    assert alg[|alg| - 7..] == "+A256KW" && |"+XC20PKW"| == 8 && alg[|alg| - 8..][0] == 'S';
    assert "ECDH-ES" <= alg;
  }

  /** A layer can be made for a message exactly when its routing key has keys to encrypt to. */
  lemma WrapForwardOkIff(agent: Agent, net: Resolver, next: string, inner: Wire, routingKey: string, nonce: nat)
    requires !inner.NotJson?
    ensures WrapForward(agent, net, next, inner, routingKey, nonce).Ok? <==> LayerRecipients(net, routingKey).Ok?
    ensures WrapForward(agent, net, next, inner, routingKey, nonce).Ok? ==>
      WrapForward(agent, net, next, inner, routingKey, nonce).value.JweObject?
  {
    if LayerRecipients(net, routingKey).Ok? { SomeRecipients(net, routingKey); }
    DefaultSuite();
    hide AllRecipients, EncrypterFor;
    var args := ForwardArgs(next, inner, routingKey, nonce);
    assert args.message.to + args.bcc == [Mediator(routingKey)];
  }

  lemma {:induction false} WrapRouteOkIff(agent: Agent, net: Resolver, recipient: string, keys: seq<string>,
                                         inner: Wire, nonce: nat)
    requires !inner.NotJson?
    ensures WrapRoute(agent, net, recipient, keys, inner, nonce).Ok? <==>
            forall key | key in keys :: LayerRecipients(net, key).Ok?
    ensures WrapRoute(agent, net, recipient, keys, inner, nonce).Ok? ==>
      !WrapRoute(agent, net, recipient, keys, inner, nonce).value.NotJson?
  {
    hide WrapForward, LayerRecipients, NextHop;
    if keys != [] {
      WrapRouteOkIff(agent, net, recipient, keys[1..], inner, nonce);
      assert keys == [keys[0]] + keys[1..];
      var rest := WrapRoute(agent, net, recipient, keys[1..], inner, nonce);
      if rest.Ok? {
        WrapForwardOkIff(agent, net, NextHop(keys[1..], recipient), rest.value, keys[0], nonce + |keys| - 1);
      }
    }
  }

  // ---------------------------------------------------------------- one service

  /** The attempts report, transport by transport, how the new calls were answered. */
  ghost predicate Reported(ctx: Context, transports: seq<Transport>, attempts: seq<Attempt>, before: State,
                           after: State)
  {
    && |attempts| == |transports| && before.outbox <= after.outbox
    && |after.outbox| == |before.outbox| + |transports|
    && forall k | 0 <= k < |transports| ::
         && Reports(attempts[k], transports[k].id, ctx.reply(|before.outbox| + k))
         && after.outbox[|before.outbox| + k].transportId == transports[k].id
  }

  lemma ReportedSent(ctx: Context, transports: seq<Transport>, attempts: seq<Attempt>, before: State, after: State)
    requires Reported(ctx, transports, attempts, before, after)
    ensures AnySent(attempts) <==> SomeAccepted(ctx, before, after)
  {
    if k :| |before.outbox| <= k < |after.outbox| && ctx.reply(k).Accepted? {
      assert attempts[k - |before.outbox|].Sent?;
    }
    if a :| a in attempts && a.Sent? {
      var k :| 0 <= k < |attempts| && attempts[k] == a;
      assert ctx.reply(|before.outbox| + k).Accepted?;
    }
  }

  lemma ReportedAnswered(ctx: Context, transports: seq<Transport>, attempts: seq<Attempt>, before: State, after: State)
    requires Reported(ctx, transports, attempts, before, after)
    ensures AllAnswered(ctx, before, after, attempts)
  {
    forall a | a in attempts && a.Sent? ensures AnsweredBy(ctx, before, after, a.transportId, a.returnMessage) {
      var k :| 0 <= k < |attempts| && attempts[k] == a;
      assert AnsweredAt(ctx, after, |before.outbox| + k, a.transportId, a.returnMessage);
    }
  }

  lemma TransmitOutcome(ctx: Context, recipient: string, index: nat, service: Service, payload: Wire, state: State)
    ensures var (attempts, after) := TransmitMatching(ctx, recipient, index, service, payload, state);
      && state.outbox <= after.outbox
      && (AnySent(attempts) <==> SomeAccepted(ctx, state, after))
      && AllAnswered(ctx, state, after, attempts)
  {
    var (attempts, after) := TransmitMatching(ctx, recipient, index, service, payload, state);
    ServiceReports(ctx, recipient, index, service, payload, state);
    var transports := Matching(ctx.transports, service);
    TransmitMatchingCalls(ctx, recipient, index, service, payload, state);
    hide TransmitMatching, Matching, Reports;
    if transports != [] {
      assert forall k | 0 <= k < |transports| :: New(state, after)[k].transportId == transports[k].id;
      assert Reported(ctx, transports, attempts, state, after);
      hide Reported;
      ReportedSent(ctx, transports, attempts, state, after);
      ReportedAnswered(ctx, transports, attempts, state, after);
    }
  }

  /** What a stretch of sending added, to the attempts on the one hand and to the answers on the other. */
  ghost predicate Accounts(ctx: Context, now: Spraying, after: Spraying) {
    && now.state.outbox <= after.state.outbox
    && (now.attempts.Ok? && after.attempts.Ok? ==>
          && now.attempts.value <= after.attempts.value
          && AllAnswered(ctx, now.state, after.state, after.attempts.value[|now.attempts.value|..]))
  }

  /** And the other way round, where nothing can be lost to an error of wrapping. */
  ghost predicate AccountsFully(ctx: Context, now: Spraying, after: Spraying) {
    && !after.wire.NotJson?
    && after.attempts.Ok?
    && now.state.outbox <= after.state.outbox
    && (now.attempts.Ok? && SomeAccepted(ctx, now.state, after.state) ==> AnySent(after.attempts.value))
  }

  lemma {:induction false} SendAccounts(ctx: Context, rank: map<string, nat>, recipient: string, wire: Wire,
                                       state: State)
    requires Acyclic(ctx.net, rank)
    ensures var sent := Send(ctx, rank, recipient, wire, state);
      && state.outbox <= sent.state.outbox
      && (sent.result.Ok? ==>
            AnsweredBy(ctx, state, sent.state, sent.result.value.transportId, sent.result.value.returnMessage))
      && (Routable(ctx.net) && !wire.NotJson? && SomeAccepted(ctx, state, sent.state) ==> sent.result.Ok?)
    decreases RankOf(ctx.net, rank, recipient), 1, 0
  {
    hide Routable, Spray, Acyclic, Conclude, AnySent, SomeAccepted, AnsweredBy, AllAnswered;
    NothingYet(ctx, wire, state);
    if Services(ctx.net, recipient) != [] {
      var begin := Spraying(Ok([]), wire, state);
      SprayAccounts(ctx, rank, recipient, 0, begin);
      var spray := Spray(ctx, rank, recipient, 0, begin);
      if spray.attempts.Ok? {
        assert spray.attempts.value[0..] == spray.attempts.value;
        ConcludesSent(spray.attempts.value);
        ConcludesAnswered(ctx, state, spray.state, spray.attempts.value);
      }
    }
  }

  lemma NothingYet(ctx: Context, wire: Wire, state: State)
    ensures !AnySent([]) && !SomeAccepted(ctx, state, state)
  {
  }

  lemma ConcludesSent(attempts: seq<Attempt>)
    ensures Conclude(attempts).Ok? <==> AnySent(attempts)
  {
    ConcludeMeaning(attempts);
  }

  lemma ConcludesAnswered(ctx: Context, before: State, after: State, attempts: seq<Attempt>)
    requires AllAnswered(ctx, before, after, attempts)
    ensures Conclude(attempts).Ok? ==>
      var r := Conclude(attempts).value; AnsweredBy(ctx, before, after, r.transportId, r.returnMessage)
  {
    ConcludeMeaning(attempts);
    hide Conclude, AnsweredBy;
    if Conclude(attempts).Ok? {
      var i :| 0 <= i < |attempts| && Concluding(attempts, i, Conclude(attempts).value);
      assert attempts[i] in attempts;
    }
  }

  lemma {:induction false} SprayAccounts(ctx: Context, rank: map<string, nat>, recipient: string, i: nat,
                                        now: Spraying)
    requires Acyclic(ctx.net, rank)
    requires i <= |Services(ctx.net, recipient)|
    ensures Accounts(ctx, now, Spray(ctx, rank, recipient, i, now))
    ensures Routable(ctx.net) && !now.wire.NotJson? && now.attempts.Ok? ==>
      AccountsFully(ctx, now, Spray(ctx, rank, recipient, i, now))
    decreases RankOf(ctx.net, rank, recipient), 0, |Services(ctx.net, recipient)| - i
  {
    hide *;
    SprayIs(ctx, rank, recipient, i, now);
    AccountsNothing(ctx, now);
    if i < |Services(ctx.net, recipient)| && now.attempts.Ok? {
      var next := Serve(ctx, rank, recipient, i, now);
      ServeAccounts(ctx, rank, recipient, i, now);
      SprayAccounts(ctx, rank, recipient, i + 1, next);
      SprayIs(ctx, rank, recipient, i + 1, next);
      AccountsOn(ctx, now, next, Spray(ctx, rank, recipient, i + 1, next));
    }
  }

  lemma AccountsNothing(ctx: Context, now: Spraying)
    ensures Accounts(ctx, now, now)
    ensures !now.wire.NotJson? && now.attempts.Ok? ==> AccountsFully(ctx, now, now)
  {
  }

  lemma AccountsOn(ctx: Context, now: Spraying, next: Spraying, after: Spraying)
    requires Accounts(ctx, now, next) && Accounts(ctx, next, after) && (next.attempts.Err? ==> after == next)
    ensures Accounts(ctx, now, after)
    ensures AccountsFully(ctx, now, next) ==> !next.wire.NotJson? && next.attempts.Ok?
    ensures AccountsFully(ctx, now, next) && AccountsFully(ctx, next, after) ==> AccountsFully(ctx, now, after)
  {
    AcceptedSplits(ctx, now.state, next.state, after.state);
    hide AnySent, SomeAccepted, AnsweredBy, AllAnswered;
    if now.attempts.Ok? && after.attempts.Ok? {
      var a, b, c := now.attempts.value, next.attempts.value, after.attempts.value;
      AllAnsweredWithin(ctx, now.state, now.state, next.state, after.state, b[|a|..]);
      AllAnsweredWithin(ctx, now.state, next.state, after.state, after.state, c[|b|..]);
      assert c[|a|..] == b[|a|..] + c[|b|..];
      AllAnsweredBoth(ctx, now.state, after.state, b[|a|..], c[|b|..]);
      SentSplits(b, c[|b|..]);
      assert c == b + c[|b|..];
    }
  }

  lemma AllAnsweredBoth(ctx: Context, before: State, after: State, a: seq<Attempt>, b: seq<Attempt>)
    requires AllAnswered(ctx, before, after, a) && AllAnswered(ctx, before, after, b)
    ensures AllAnswered(ctx, before, after, a + b)
  {
  }

  lemma {:induction false} ServeAccounts(ctx: Context, rank: map<string, nat>, recipient: string, i: nat,
                                        now: Spraying)
    requires Acyclic(ctx.net, rank)
    requires i < |Services(ctx.net, recipient)| && now.attempts.Ok?
    ensures Accounts(ctx, now, Serve(ctx, rank, recipient, i, now))
    ensures Routable(ctx.net) && !now.wire.NotJson? ==> AccountsFully(ctx, now, Serve(ctx, rank, recipient, i, now))
    decreases RankOf(ctx.net, rank, recipient), 0, |Services(ctx.net, recipient)| - i, 0
  {
    hide *;
    var service := Services(ctx.net, recipient)[i];
    var keys := RoutingKeys(service);
    var state := now.state.(nonce := now.state.nonce + |keys|);
    var wrapping := WrapRoute(ctx.agent, ctx.net, recipient, keys, now.wire, now.state.nonce);
    if Routable(ctx.net) && !now.wire.NotJson? {
      RoutableAt(ctx.net, recipient, i);
      WrapRouteOkIff(ctx.agent, ctx.net, recipient, keys, now.wire, now.state.nonce);
    }
    ServeCases(ctx, rank, recipient, i, now);
    if wrapping.Err? {
      Thrown(ctx, now, Serve(ctx, rank, recipient, i, now));
    } else if !IsDidEndpoint(service) {
      PlainAccounts(ctx, recipient, i, service, now, wrapping.value, state);
    } else {
      EndpointAccounts(ctx, rank, recipient, i, now, wrapping.value, state);
    }
  }

  lemma {:induction false} EndpointAccounts(ctx: Context, rank: map<string, nat>, recipient: string, i: nat,
                                           now: Spraying, wrapped: Wire, state: State)
    requires Acyclic(ctx.net, rank)
    requires i < |Services(ctx.net, recipient)| && now.attempts.Ok? && IsDidEndpoint(Services(ctx.net, recipient)[i])
    requires var keys := RoutingKeys(Services(ctx.net, recipient)[i]);
      && state == now.state.(nonce := now.state.nonce + |keys|)
      && WrapRoute(ctx.agent, ctx.net, recipient, keys, now.wire, now.state.nonce) == Ok(wrapped)
    requires Routable(ctx.net) && !now.wire.NotJson? ==> !wrapped.NotJson?
    ensures Accounts(ctx, now, Serve(ctx, rank, recipient, i, now))
    ensures Routable(ctx.net) && !now.wire.NotJson? ==> AccountsFully(ctx, now, Serve(ctx, rank, recipient, i, now))
    decreases RankOf(ctx.net, rank, recipient), 0, 0, 0
  {
    hide *;
    var service := Services(ctx.net, recipient)[i];
    var url, next := EndpointUrl(service), EndpointNext(RoutingKeys(service), recipient);
    var sent := state.(nonce := state.nonce + 1);
    var last := WrapForward(ctx.agent, ctx.net, next, wrapped, url, state.nonce);
    if Routable(ctx.net) && !wrapped.NotJson? {
      RoutableAt(ctx.net, recipient, i);
      WrapForwardOkIff(ctx.agent, ctx.net, next, wrapped, url, state.nonce);
    }
    ServeCases(ctx, rank, recipient, i, now);
    if last.Err? {
      Thrown(ctx, now, Serve(ctx, rank, recipient, i, now));
    } else {
      EndpointRanksLower(ctx.net, rank, recipient, i);
      SendAccounts(ctx, rank, url, last.value, sent);
      NestedAccounts(ctx, recipient, i, service, now, wrapped, sent, Send(ctx, rank, url, last.value, sent));
    }
  }

  lemma Thrown(ctx: Context, now: Spraying, after: Spraying)
    requires after.attempts.Err? && now.state.outbox == after.state.outbox
    ensures Accounts(ctx, now, after)
  {
  }

  lemma PlainAccounts(ctx: Context, recipient: string, i: nat, service: Service, now: Spraying, wrapped: Wire,
                      state: State)
    requires now.attempts.Ok? && state.outbox == now.state.outbox
    ensures var (attempts, final) := TransmitMatching(ctx, recipient, i, service, wrapped, state);
      var after := Spraying(Ok(now.attempts.value + attempts), wrapped, final);
      Accounts(ctx, now, after) && (!wrapped.NotJson? ==> AccountsFully(ctx, now, after))
  {
    hide *;
    var (attempts, final) := TransmitMatching(ctx, recipient, i, service, wrapped, state);
    TransmitOutcome(ctx, recipient, i, service, wrapped, state);
    SameOutbox(ctx, now.state, state, final);
    AllAnsweredWithin(ctx, now.state, state, final, final, attempts);
    Extended(ctx, now, attempts, wrapped, final);
  }

  lemma NestedAccounts(ctx: Context, recipient: string, i: nat, service: Service, now: Spraying, wrapped: Wire,
                       sent: State, nested: Sending)
    requires now.attempts.Ok? && sent.outbox == now.state.outbox && sent.outbox <= nested.state.outbox
    requires nested.result.Ok? ==>
      AnsweredBy(ctx, sent, nested.state, nested.result.value.transportId, nested.result.value.returnMessage)
    ensures var (attempts, final) := TransmitMatching(ctx, recipient, i, service, wrapped, nested.state);
      var after := Spraying(Ok(now.attempts.value + [AttemptOfNested(nested.result)] + attempts), wrapped, final);
      && Accounts(ctx, now, after)
      && (!wrapped.NotJson? && (SomeAccepted(ctx, sent, nested.state) ==> nested.result.Ok?) ==>
            AccountsFully(ctx, now, after))
  {
    hide *;
    var (attempts, final) := TransmitMatching(ctx, recipient, i, service, wrapped, nested.state);
    TransmitOutcome(ctx, recipient, i, service, wrapped, nested.state);
    NestedSent(nested.result);
    SentSplits([AttemptOfNested(nested.result)], attempts);
    AcceptedSplits(ctx, sent, nested.state, final);
    SameOutbox(ctx, now.state, sent, final);
    NestedAnswered(ctx, sent, nested);
    AllAnsweredWithin(ctx, now.state, sent, nested.state, final, [AttemptOfNested(nested.result)]);
    AllAnsweredWithin(ctx, now.state, nested.state, final, final, attempts);
    AllAnsweredBoth(ctx, now.state, final, [AttemptOfNested(nested.result)], attempts);
    Extended(ctx, now, [AttemptOfNested(nested.result)] + attempts, wrapped, final);
    assert now.attempts.value + [AttemptOfNested(nested.result)] + attempts
           == now.attempts.value + ([AttemptOfNested(nested.result)] + attempts);
  }

  lemma SameOutbox(ctx: Context, a: State, b: State, c: State)
    requires a.outbox == b.outbox
    ensures SomeAccepted(ctx, a, c) <==> SomeAccepted(ctx, b, c)
  {
  }

  lemma NestedSent(result: Result<Response, Error>)
    ensures AnySent([AttemptOfNested(result)]) <==> result.Ok?
  {
    assert AttemptOfNested(result) in [AttemptOfNested(result)];
  }

  lemma NestedAnswered(ctx: Context, sent: State, nested: Sending)
    requires nested.result.Ok? ==>
      AnsweredBy(ctx, sent, nested.state, nested.result.value.transportId, nested.result.value.returnMessage)
    ensures AllAnswered(ctx, sent, nested.state, [AttemptOfNested(nested.result)])
  {
    hide AnsweredBy;
  }

  lemma Extended(ctx: Context, now: Spraying, extra: seq<Attempt>, wire: Wire, final: State)
    requires now.attempts.Ok? && now.state.outbox <= final.outbox
    requires AllAnswered(ctx, now.state, final, extra)
    ensures var after := Spraying(Ok(now.attempts.value + extra), wire, final);
      && Accounts(ctx, now, after)
      && (!wire.NotJson? && (SomeAccepted(ctx, now.state, final) ==> AnySent(extra)) ==>
            AccountsFully(ctx, now, after))
  {
    hide AnySent, SomeAccepted, AllAnswered;
    SentSplits(now.attempts.value, extra);
    assert (now.attempts.value + extra)[|now.attempts.value|..] == extra;
  }

  lemma RoutableAt(net: Resolver, recipient: string, i: nat)
    requires Routable(net) && i < |Services(net, recipient)|
    ensures var s := Services(net, recipient)[i];
      && (forall key | key in RoutingKeys(s) :: LayerRecipients(net, key).Ok?)
      && (IsDidEndpoint(s) ==> LayerRecipients(net, EndpointUrl(s)).Ok?)
  {
    var s := Services(net, recipient)[i];
    assert s in Flatten(net[DidOf(recipient).value].services);
    assert ServiceRoutable(net, s);
  }

  // ---------------------------------------------------------------- the send

  /** A send that answers was answered: the transport it names was called, accepted, and brought that message back. */
  lemma SendAnswers(ctx: Context, rank: map<string, nat>, recipient: string, wire: Wire, state: State, r: Response)
    requires Acyclic(ctx.net, rank) && Send(ctx, rank, recipient, wire, state).result == Ok(r)
    ensures var after := Send(ctx, rank, recipient, wire, state).state;
      && state.outbox <= after.outbox
      && exists k | |state.outbox| <= k < |after.outbox| ::
           && ctx.reply(k).Accepted? && after.outbox[k].transportId == r.transportId
           && OrEmpty(ctx.reply(k).returnMessage) == OrEmpty(r.returnMessage)
  {
    SendAccounts(ctx, rank, recipient, wire, state);
    hide Send, Acyclic;
    var after := Send(ctx, rank, recipient, wire, state).state;
    var k :| |state.outbox| <= k < |after.outbox| && AnsweredAt(ctx, after, k, r.transportId, r.returnMessage);
  }

  /**
    Where all routing keys and DID endpoints can be encrypted to, a send answers exactly when some transport that it
    called, at whatever depth, accepted the message.
   */
  lemma SendSucceedsIff(ctx: Context, rank: map<string, nat>, recipient: string, wire: Wire, state: State)
    requires Acyclic(ctx.net, rank) && Routable(ctx.net) && !wire.NotJson?
    ensures var sent := Send(ctx, rank, recipient, wire, state);
      && state.outbox <= sent.state.outbox
      && (sent.result.Ok? <==> exists k | |state.outbox| <= k < |sent.state.outbox| :: ctx.reply(k).Accepted?)
  {
    SendAccounts(ctx, rank, recipient, wire, state);
    var sent := Send(ctx, rank, recipient, wire, state);
    hide Send, Acyclic, Routable;
    if sent.result.Ok? {
      var r := sent.result.value;
      var k :| |state.outbox| <= k < |sent.state.outbox|
               && AnsweredAt(ctx, sent.state, k, r.transportId, r.returnMessage);
    }
  }

  /** Over URL endpoints only an error of wrapping can make a message that was accepted be reported as failed. */
  lemma UrlSendSucceedsIff(ctx: Context, rank: map<string, nat>, recipient: string, wire: Wire, state: State)
    requires Acyclic(ctx.net, rank)
    requires forall s | s in Services(ctx.net, recipient) :: !IsDidEndpoint(s)
    requires Spray(ctx, rank, recipient, 0, Spraying(Ok([]), wire, state)).attempts.Ok?
    ensures var sent := Send(ctx, rank, recipient, wire, state);
      && state.outbox <= sent.state.outbox
      && (sent.result.Ok? <==> exists k | |state.outbox| <= k < |sent.state.outbox| :: ctx.reply(k).Accepted?)
  {
    SendAccounts(ctx, rank, recipient, wire, state);
    NothingYet(ctx, wire, state);
    hide Spray, Acyclic, Conclude, AnySent;
    if Services(ctx.net, recipient) != [] {
      var begin := Spraying(Ok([]), wire, state);
      var spray := Spray(ctx, rank, recipient, 0, begin);
      UrlSprayAccounts(ctx, rank, recipient, 0, begin);
      ConcludesSent(spray.attempts.value);
    }
  }

  lemma {:induction false} UrlSprayAccounts(ctx: Context, rank: map<string, nat>, recipient: string, i: nat,
                                           now: Spraying)
    requires Acyclic(ctx.net, rank)
    requires i <= |Services(ctx.net, recipient)| && now.attempts.Ok?
    requires forall s | s in Services(ctx.net, recipient) :: !IsDidEndpoint(s)
    requires Spray(ctx, rank, recipient, i, now).attempts.Ok?
    ensures var after := Spray(ctx, rank, recipient, i, now);
      && now.state.outbox <= after.state.outbox
      && (AnySent(after.attempts.value) <==> AnySent(now.attempts.value) || SomeAccepted(ctx, now.state, after.state))
    decreases |Services(ctx.net, recipient)| - i
  {
    ServedFirst(ctx, recipient, i);
    hide *;
    SprayIs(ctx, rank, recipient, i, now);
    NothingYet(ctx, now.wire, now.state);
    if i < |Services(ctx.net, recipient)| {
      var next := Serve(ctx, rank, recipient, i, now);
      SprayIs(ctx, rank, recipient, i + 1, next);
      UrlServeAccounts(ctx, rank, recipient, i, now);
      UrlSprayAccounts(ctx, rank, recipient, i + 1, next);
      AcceptedSplits(ctx, now.state, next.state, Spray(ctx, rank, recipient, i + 1, next).state);
    }
  }

  lemma ServedFirst(ctx: Context, recipient: string, i: nat)
    ensures i < |Services(ctx.net, recipient)| ==> Services(ctx.net, recipient)[i] in Services(ctx.net, recipient)
  {
  }

  /** At a plain endpoint whose wrapping succeeds, serving is transmitting the wrapped message. */
  lemma UrlServe(ctx: Context, rank: map<string, nat>, recipient: string, i: nat, now: Spraying)
    returns (wrapped: Wire, state: State)
    requires Acyclic(ctx.net, rank)
    requires i < |Services(ctx.net, recipient)| && now.attempts.Ok?
    requires !IsDidEndpoint(Services(ctx.net, recipient)[i])
    requires Serve(ctx, rank, recipient, i, now).attempts.Ok?
    ensures state.outbox == now.state.outbox
    ensures var sent := TransmitMatching(ctx, recipient, i, Services(ctx.net, recipient)[i], wrapped, state);
      Serve(ctx, rank, recipient, i, now) == Spraying(Ok(now.attempts.value + sent.0), wrapped, sent.1)
  {
    hide *;
    ServeCases(ctx, rank, recipient, i, now);
    var keys := RoutingKeys(Services(ctx.net, recipient)[i]);
    state := now.state.(nonce := now.state.nonce + |keys|);
    wrapped := WrapRoute(ctx.agent, ctx.net, recipient, keys, now.wire, now.state.nonce).value;
  }

  lemma UrlServeAccounts(ctx: Context, rank: map<string, nat>, recipient: string, i: nat, now: Spraying)
    requires Acyclic(ctx.net, rank)
    requires i < |Services(ctx.net, recipient)| && now.attempts.Ok?
    requires !IsDidEndpoint(Services(ctx.net, recipient)[i])
    requires Serve(ctx, rank, recipient, i, now).attempts.Ok?
    ensures var after := Serve(ctx, rank, recipient, i, now);
      && now.state.outbox <= after.state.outbox
      && (AnySent(after.attempts.value) <==> AnySent(now.attempts.value) || SomeAccepted(ctx, now.state, after.state))
  {
    hide *;
    var wrapped, state := UrlServe(ctx, rank, recipient, i, now);
    var service := Services(ctx.net, recipient)[i];
    var sent := TransmitMatching(ctx, recipient, i, service, wrapped, state);
    TransmitOutcome(ctx, recipient, i, service, wrapped, state);
    SameOutbox(ctx, now.state, state, sent.1);
    SentSplits(now.attempts.value, sent.0);
  }
}
