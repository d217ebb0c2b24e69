/** `sendDIDCommMessage`: spraying a packed message over a recipient's services, recursively through DID endpoints. */
module DidCommSending {
  import opened Results
  import opened Strings
  import opened DidCommWire
  import opened DidCommPacking
  import opened DidCommRouting

  // ---------------------------------------------------------------- services of a document

  /** `processServiceObject`: `dm` entries are read as DIDComm services, everything else is dropped. */
  function Process(service: Service): Option<Service> {
    if service.kind == "DIDCommMessaging" then Some(service)
    else if service.t == "dm" then Some(Service("DIDCommMessaging", "", service.s, service.s))
    else None
  }

  function ProcessAll(services: seq<Service>): seq<Service> {
    if services == [] then []
    else
      (match Process(services[0]) case Some(s) => [s] case None => []) + ProcessAll(services[1..])
  }

  function Flatten(entries: seq<ServiceEntry>): seq<Service> {
    if entries == [] then []
    else
      ProcessAll(match entries[0] case Single(s) => [s] case Bundle(ss) => ss) + Flatten(entries[1..])
  }

  /** The DIDComm services of the document a DID URL resolves to. */
  function Services(net: Resolver, url: string): seq<Service> {
    match Resolve(net, url)
    case Ok(doc) => Flatten(doc.services)
    case Err(_) => []
  }

  function EndpointUrl(service: Service): string {
    match service.endpoint
    case Url(url) => url
    case Object(uri, _) => OrEmpty(uri)
    case Many(items) =>
      if items == [] then ""
      else match items[0] case ItemUrl(url) => url case ItemObject(uri, _) => OrEmpty(uri)
  }

  function RoutingKeys(service: Service): seq<string> {
    match service.endpoint
    case Url(_) => []
    case Object(_, keys) => GetOr(keys, [])
    case Many(items) =>
      if items == [] then []
      else match items[0] case ItemUrl(_) => [] case ItemObject(_, keys) => GetOr(keys, [])
  }

  predicate IsDidEndpoint(service: Service) {
    StartsWith(EndpointUrl(service), "did:")
  }

  // ---------------------------------------------------------------- the world of a send

  datatype Transport = Transport(id: string, supports: Service -> bool)

  /** What a transport's `send` does: answer, report an error, or throw. */
  datatype Outcome = Accepted(returnMessage: Option<string>) | Refused(reason: string) | Thrown(reason: string)

  /** `reply(k)` is the outcome of the k-th delivery attempt. */
  datatype Context = Context(agent: Agent, net: Resolver, transports: seq<Transport>, reply: nat -> Outcome)

  /** A call of a transport, with the recipient and the service position it was made for. */
  datatype Delivery = Delivery(recipient: string, index: nat, service: Service, transportId: string, payload: Wire)

  datatype Attempt = Sent(transportId: string, returnMessage: Option<string>) | Failed(error: Error)

  datatype Response = Response(transportId: string, returnMessage: Option<string>)

  /** The randomness drawn so far and every delivery made so far. */
  datatype State = State(nonce: nat, outbox: seq<Delivery>)

  /** A message under way: the attempts so far or the error thrown, and the packed message's current content. */
  datatype Spraying = Spraying(attempts: Result<seq<Attempt>, Error>, wire: Wire, state: State)

  datatype Sending = Sending(result: Result<Response, Error>, wire: Wire, state: State)

  /** `rank` decreases from a DID to the DIDs its DIDComm services point to. */
  ghost predicate Acyclic(net: Resolver, rank: map<string, nat>) {
    && net.Keys <= rank.Keys
    && forall did, s | did in net && s in Flatten(net[did].services) && IsDidEndpoint(s) ::
         PointsDown(net, rank, did, EndpointUrl(s))
  }

  ghost predicate PointsDown(net: Resolver, rank: map<string, nat>, did: string, url: string)
    requires did in net && net.Keys <= rank.Keys
  {
    DidOf(url).Some? && DidOf(url).value in net ==> rank[DidOf(url).value] < rank[did]
  }

  ghost function RankOf(net: Resolver, rank: map<string, nat>, url: string): nat
    requires net.Keys <= rank.Keys
  {
    if DidOf(url).Some? && DidOf(url).value in net then rank[DidOf(url).value] + 1 else 0
  }

  lemma EndpointRanksLower(net: Resolver, rank: map<string, nat>, url: string, i: nat)
    requires Acyclic(net, rank)
    requires i < |Services(net, url)| && IsDidEndpoint(Services(net, url)[i])
    ensures RankOf(net, rank, EndpointUrl(Services(net, url)[i])) < RankOf(net, rank, url)
  {
    var s := Services(net, url)[i];
    assert s in Flatten(net[DidOf(url).value].services);
    assert PointsDown(net, rank, DidOf(url).value, EndpointUrl(s));
  }

  // ---------------------------------------------------------------- what a send does

  function Matching(transports: seq<Transport>, service: Service): seq<Transport> {
    if transports == [] then []
    else (if transports[0].supports(service) then [transports[0]] else []) + Matching(transports[1..], service)
  }

  function AttemptOf(transportId: string, outcome: Outcome): Attempt {
    match outcome
    case Accepted(returnMessage) =>
      Sent(transportId, if returnMessage == Some("") then None else returnMessage)
    case Refused(reason) => Failed(TransportError(reason))
    case Thrown(reason) => Failed(TransportError(reason))
  }

  /** Handing one payload to transports in turn; every attempt is recorded whatever comes of it. */
  function Transmit(ctx: Context, recipient: string, index: nat, service: Service, payload: Wire,
                    transports: seq<Transport>, state: State): (seq<Attempt>, State)
  {
    if transports == [] then ([], state)
    else
      var attempt := AttemptOf(transports[0].id, ctx.reply(|state.outbox|));
      var made := Delivery(recipient, index, service, transports[0].id, payload);
      var (attempts, final) :=
        Transmit(ctx, recipient, index, service, payload, transports[1..], state.(outbox := state.outbox + [made]));
      ([attempt] + attempts, final)
  }

  function TransmitMatching(ctx: Context, recipient: string, index: nat, service: Service, payload: Wire, state: State)
    : (seq<Attempt>, State)
  {
    var transports := Matching(ctx.transports, service);
    if transports == [] then ([Failed(NoTransport)], state)
    else Transmit(ctx, recipient, index, service, payload, transports, state)
  }

  /** Selecting goes on transport by transport, so order and repetitions stay. */
  lemma {:induction false} MatchingConcat(a: seq<Transport>, b: seq<Transport>, service: Service)
    ensures Matching(a + b, service) == Matching(a, service) + Matching(b, service)
  {
    if a == [] {
      assert a + b == b;
    } else {
      assert (a + b)[1..] == a[1..] + b;
      MatchingConcat(a[1..], b, service);
    }
  }

  lemma {:induction false} MatchingMembers(transports: seq<Transport>, service: Service)
    ensures forall t :: t in Matching(transports, service) <==> t in transports && t.supports(service)
    ensures |Matching(transports, service)| <= |transports|
    ensures |Matching(transports, service)| == |transports| <==> forall t | t in transports :: t.supports(service)
  {
    if transports != [] {
      MatchingMembers(transports[1..], service);
    }
  }

  /** What is recorded of a call tells its caller what the transport answered. */
  predicate Reports(a: Attempt, transportId: string, answer: Outcome) {
    && (a.Sent? <==> answer.Accepted?)
    && (a.Sent? ==>
          && a.transportId == transportId
          && OrEmpty(a.returnMessage) == OrEmpty(answer.returnMessage) && a.returnMessage != Some(""))
    && (a.Failed? ==> a.error == TransportError(answer.reason))
  }

  lemma {:induction false} TransmitReports(ctx: Context, recipient: string, index: nat, service: Service, payload: Wire,
                                          transports: seq<Transport>, state: State)
    ensures var (attempts, after) := Transmit(ctx, recipient, index, service, payload, transports, state);
      && |attempts| == |transports| && |after.outbox| == |state.outbox| + |transports|
      && forall k | 0 <= k < |attempts| :: Reports(attempts[k], transports[k].id, ctx.reply(|state.outbox| + k))
  {
    if transports != [] {
      var made := Delivery(recipient, index, service, transports[0].id, payload);
      TransmitReports(ctx, recipient, index, service, payload, transports[1..],
                      state.(outbox := state.outbox + [made]));
    }
  }

  /** The attempts of one service: one for each supporting transport, as it answered, or the lack of any. */
  lemma ServiceReports(ctx: Context, recipient: string, index: nat, service: Service, payload: Wire, state: State)
    ensures var (attempts, after) := TransmitMatching(ctx, recipient, index, service, payload, state);
      var transports := Matching(ctx.transports, service);
      && |after.outbox| == |state.outbox| + |transports|
      && (transports == [] ==> attempts == [Failed(NoTransport)])
      && (transports != [] ==>
            && |attempts| == |transports|
            && forall k | 0 <= k < |attempts| :: Reports(attempts[k], transports[k].id, ctx.reply(|state.outbox| + k)))
  {
    TransmitReports(ctx, recipient, index, service, payload, Matching(ctx.transports, service), state);
  }

  function FirstReturning(attempts: seq<Attempt>): Option<Response> {
    if attempts == [] then None
    else if attempts[0].Sent? && attempts[0].returnMessage.Some? then
      Some(Response(attempts[0].transportId, attempts[0].returnMessage))
    else FirstReturning(attempts[1..])
  }

  function FirstSent(attempts: seq<Attempt>): Option<Response> {
    if attempts == [] then None
    else if attempts[0].Sent? then Some(Response(attempts[0].transportId, attempts[0].returnMessage))
    else FirstSent(attempts[1..])
  }

  function Causes(attempts: seq<Attempt>): seq<Error> {
    if attempts == [] then []
    else (if attempts[0].Failed? then [attempts[0].error] else []) + Causes(attempts[1..])
  }

  function Conclude(attempts: seq<Attempt>): Result<Response, Error> {
    match FirstReturning(attempts)
    case Some(r) => Ok(r)
    case None =>
      match FirstSent(attempts)
      case Some(r) => Ok(r)
      case None => Err(AllAttemptsFailed(Causes(attempts)))
  }

  predicate Returning(a: Attempt) {
    a.Sent? && a.returnMessage.Some?
  }

  predicate Concluding(attempts: seq<Attempt>, i: nat, r: Response)
    requires i < |attempts|
  {
    && attempts[i] == Sent(r.transportId, r.returnMessage)
    && (if Returning(attempts[i]) then forall j | 0 <= j < i :: !Returning(attempts[j])
        else (forall a | a in attempts :: !Returning(a)) && forall j | 0 <= j < i :: attempts[j].Failed?)
  }

  lemma {:induction false} FirstReturningIs(attempts: seq<Attempt>)
    ensures FirstReturning(attempts).None? <==> forall a | a in attempts :: !Returning(a)
    ensures FirstReturning(attempts).Some? ==> exists i | 0 <= i < |attempts| ::
      Returning(attempts[i]) && Concluding(attempts, i, FirstReturning(attempts).value)
  {
    if attempts != [] {
      FirstReturningIs(attempts[1..]);
      if Returning(attempts[0]) {
        assert Concluding(attempts, 0, FirstReturning(attempts).value);
      } else if FirstReturning(attempts).Some? {
        var r := FirstReturning(attempts).value;
        var i :| 0 <= i < |attempts[1..]| && Returning(attempts[1..][i]) && Concluding(attempts[1..], i, r);
        assert attempts[i + 1] == attempts[1..][i];
        assert forall j | 1 <= j < i + 1 :: attempts[j] == attempts[1..][j - 1];
        assert Concluding(attempts, i + 1, r);
      }
    }
  }

  lemma {:induction false} FirstSentIs(attempts: seq<Attempt>)
    ensures FirstSent(attempts).None? <==> forall a | a in attempts :: a.Failed?
    ensures FirstSent(attempts).Some? && (forall a | a in attempts :: !Returning(a)) ==>
      exists i | 0 <= i < |attempts| :: Concluding(attempts, i, FirstSent(attempts).value)
  {
    if attempts != [] {
      FirstSentIs(attempts[1..]);
      if attempts[0].Sent? {
        assert attempts[0] in attempts && !attempts[0].Failed?;
        if forall a | a in attempts :: !Returning(a) {
          assert !Returning(attempts[0]);
          assert Concluding(attempts, 0, FirstSent(attempts).value);
        }
      } else if FirstSent(attempts).Some? && forall a | a in attempts :: !Returning(a) {
        var r := FirstSent(attempts).value;
        var i :| 0 <= i < |attempts[1..]| && Concluding(attempts[1..], i, r);
        assert attempts[i + 1] == attempts[1..][i];
        assert forall j | 1 <= j < i + 1 :: attempts[j] == attempts[1..][j - 1];
        assert !Returning(attempts[i + 1]);
        assert Concluding(attempts, i + 1, r);
      }
    }
  }

  lemma {:induction false} CausesAre(attempts: seq<Attempt>)
    requires forall a | a in attempts :: a.Failed?
    ensures |Causes(attempts)| == |attempts|
    ensures forall i | 0 <= i < |attempts| :: Causes(attempts)[i] == attempts[i].error
  {
    if attempts != [] {
      CausesAre(attempts[1..]);
    }
  }

  /**
    A send fails exactly when every attempt failed, and then with all their errors in order; else it answers with the
    first attempt that brought a message back, or the first that succeeded when none did.
   */
  lemma ConcludeMeaning(attempts: seq<Attempt>)
    ensures Conclude(attempts).Err? <==> forall a | a in attempts :: a.Failed?
    ensures Conclude(attempts).Ok? ==>
      exists i | 0 <= i < |attempts| :: Concluding(attempts, i, Conclude(attempts).value)
    ensures Conclude(attempts).Err? ==>
      exists causes :: Conclude(attempts).error == AllAttemptsFailed(causes) && |causes| == |attempts|
        && forall i | 0 <= i < |attempts| :: causes[i] == attempts[i].error
  {
    FirstReturningIs(attempts);
    FirstSentIs(attempts);
    if forall a | a in attempts :: a.Failed? {
      CausesAre(attempts);
      assert Conclude(attempts).error == AllAttemptsFailed(Causes(attempts));
    }
  }

  /** The `next` of the extra layer for a DID endpoint: the mediator of the last routing key. */
  function EndpointNext(keys: seq<string>, recipient: string): string {
    if keys == [] then recipient else Mediator(keys[|keys| - 1])
  }

  function AttemptOfNested(result: Result<Response, Error>): Attempt {
    match result
    case Ok(r) => Sent(r.transportId, r.returnMessage)
    case Err(e) => Failed(e)
  }

  function Send(ctx: Context, ghost rank: map<string, nat>, recipient: string, wire: Wire, state: State): Sending
    requires Acyclic(ctx.net, rank)
    decreases RankOf(ctx.net, rank, recipient), 1, 0
  {
    match Resolve(ctx.net, recipient)
    case Err(e) => Sending(Err(e), wire, state)
    case Ok(doc) =>
      if Services(ctx.net, recipient) == [] then Sending(Err(NotFound), wire, state)
      else
        var spray := Spray(ctx, rank, recipient, 0, Spraying(Ok([]), wire, state));
        match spray.attempts
        case Err(e) => Sending(Err(e), spray.wire, spray.state)
        case Ok(attempts) => Sending(Conclude(attempts), spray.wire, spray.state)
  }

  /** The services from position `i` on. */
  function Spray(ctx: Context, ghost rank: map<string, nat>, recipient: string, i: nat, now: Spraying): Spraying
    requires Acyclic(ctx.net, rank)
    requires i <= |Services(ctx.net, recipient)|
    decreases RankOf(ctx.net, rank, recipient), 0, |Services(ctx.net, recipient)| - i
  {
    if i == |Services(ctx.net, recipient)| || now.attempts.Err? then now
    else Spray(ctx, rank, recipient, i + 1, Serve(ctx, rank, recipient, i, now))
  }

  /** One service: wrap along its routing keys, go through its DID endpoint if it has one, use its transports. */
  function Serve(ctx: Context, ghost rank: map<string, nat>, recipient: string, i: nat, now: Spraying): Spraying
    requires Acyclic(ctx.net, rank)
    requires i < |Services(ctx.net, recipient)| && now.attempts.Ok?
    decreases RankOf(ctx.net, rank, recipient), 0, |Services(ctx.net, recipient)| - i, 0
  {
    var service := Services(ctx.net, recipient)[i];
    var keys := RoutingKeys(service);
    var state := now.state.(nonce := now.state.nonce + |keys|);
    match WrapRoute(ctx.agent, ctx.net, recipient, keys, now.wire, now.state.nonce)
    case Err(e) => Spraying(Err(e), now.wire, state)
    case Ok(wrapped) =>
      if !IsDidEndpoint(service) then
        var (attempts, final) := TransmitMatching(ctx, recipient, i, service, wrapped, state);
        Spraying(Ok(now.attempts.value + attempts), wrapped, final)
      else
        var url := EndpointUrl(service);
        match WrapForward(ctx.agent, ctx.net, EndpointNext(keys, recipient), wrapped, url, state.nonce)
        case Err(e) => Spraying(Err(e), wrapped, state.(nonce := state.nonce + 1))
        case Ok(onward) =>
          EndpointRanksLower(ctx.net, rank, recipient, i);
          var nested := Send(ctx, rank, url, onward, state.(nonce := state.nonce + 1));
          var (attempts, final) := TransmitMatching(ctx, recipient, i, service, wrapped, nested.state);
          Spraying(Ok(now.attempts.value + [AttemptOfNested(nested.result)] + attempts), wrapped, final)
  }

  lemma SprayStep(ctx: Context, rank: map<string, nat>, recipient: string, i: nat, now: Spraying)
    requires Acyclic(ctx.net, rank)
    requires i < |Services(ctx.net, recipient)| && now.attempts.Ok?
    ensures Spray(ctx, rank, recipient, i, now)
            == Spray(ctx, rank, recipient, i + 1, Serve(ctx, rank, recipient, i, now))
  {
  }

  /** Serving a service by cases: where wrapping fails, at a plain endpoint, and at a DID endpoint. */
  lemma ServeCases(ctx: Context, rank: map<string, nat>, recipient: string, i: nat, now: Spraying)
    requires Acyclic(ctx.net, rank) && i < |Services(ctx.net, recipient)| && now.attempts.Ok?
    ensures var service := Services(ctx.net, recipient)[i];
      var keys, r := RoutingKeys(service), Serve(ctx, rank, recipient, i, now);
      var state := now.state.(nonce := now.state.nonce + |keys|);
      var wrapping := WrapRoute(ctx.agent, ctx.net, recipient, keys, now.wire, now.state.nonce);
      && (wrapping.Err? ==> r == Spraying(Err(wrapping.error), now.wire, state))
      && (wrapping.Ok? && !IsDidEndpoint(service) ==>
            var (attempts, final) := TransmitMatching(ctx, recipient, i, service, wrapping.value, state);
            r == Spraying(Ok(now.attempts.value + attempts), wrapping.value, final))
      && (wrapping.Ok? && IsDidEndpoint(service) ==>
            var url := EndpointUrl(service);
            var next := EndpointNext(keys, recipient);
            var last := WrapForward(ctx.agent, ctx.net, next, wrapping.value, url, state.nonce);
            var sent := state.(nonce := state.nonce + 1);
            && (last.Err? ==> r == Spraying(Err(last.error), wrapping.value, sent))
            && (last.Ok? ==>
                  var nested := Send(ctx, rank, url, last.value, sent);
                  var (attempts, final) := TransmitMatching(ctx, recipient, i, service, wrapping.value, nested.state);
                  r == Spraying(Ok(now.attempts.value + [AttemptOfNested(nested.result)] + attempts), wrapping.value,
                                final)))
  {
    hide WrapRoute, WrapForward, TransmitMatching, RoutingKeys, EndpointUrl, Services, Acyclic, RankOf, Send;
  }

  lemma SprayStops(ctx: Context, rank: map<string, nat>, recipient: string, i: nat, now: Spraying)
    requires Acyclic(ctx.net, rank)
    requires i <= |Services(ctx.net, recipient)| && (now.attempts.Err? || i == |Services(ctx.net, recipient)|)
    ensures Spray(ctx, rank, recipient, i, now) == now
  {
  }

  // ---------------------------------------------------------------- the imperative sender

  lemma TransmitNext(ctx: Context, recipient: string, index: nat, service: Service, payload: Wire,
                     transports: seq<Transport>, t: nat, state: State)
    requires t < |transports|
    ensures var made := Delivery(recipient, index, service, transports[t].id, payload);
      var rest := Transmit(ctx, recipient, index, service, payload, transports[t + 1..],
                           State(state.nonce, state.outbox + [made]));
      Transmit(ctx, recipient, index, service, payload, transports[t..], state)
      == ([AttemptOf(transports[t].id, ctx.reply(|state.outbox|))] + rest.0, rest.1)
  {
    hide AttemptOf;
    assert transports[t..][1..] == transports[t + 1..];
  }

  lemma TransmitNone(ctx: Context, recipient: string, index: nat, service: Service, payload: Wire, state: State)
    ensures Transmit(ctx, recipient, index, service, payload, [], state) == ([], state)
  {
  }

  /** The caller's packed message; sending overwrites its content. */
  class PackedMessage {
    var message: Wire

    constructor (message: Wire)
      ensures this.message == message
    {
      this.message := message;
    }
  }

  class DidComm {
    const ctx: Context
    var nonce: nat
    var outbox: seq<Delivery>

    constructor (ctx: Context)
      ensures this.ctx == ctx && nonce == 0 && outbox == []
    {
      this.ctx := ctx;
      nonce, outbox := 0, [];
    }

    function Now(): State
      reads this
    {
      State(nonce, outbox)
    }

    method TransmitAll(recipient: string, index: nat, service: Service, payload: Wire)
      returns (results: seq<Attempt>)
      modifies this
      ensures (results, Now()) == TransmitMatching(ctx, recipient, index, service, payload, old(Now()))
      ensures var supporting := Matching(ctx.transports, service);
        if supporting == [] then results == [Failed(NoTransport)]
        else
          && |results| == |supporting|
          && forall k | 0 <= k < |results| :: Reports(results[k], supporting[k].id, ctx.reply(|old(outbox)| + k))
    {
      hide Matching, AttemptOf, Reports, Transmit;
      var transports := Matching(ctx.transports, service);
      results := [];
      ServiceReports(ctx, recipient, index, service, payload, Now());
      if |transports| < 1 {
        results := [Failed(NoTransport)];
        return;
      }
      ghost var goal := Transmit(ctx, recipient, index, service, payload, transports, Now());
      assert goal == TransmitMatching(ctx, recipient, index, service, payload, Now());
      hide TransmitMatching;
      assert transports[0..] == transports;
      for t := 0 to |transports|
        invariant var rest := Transmit(ctx, recipient, index, service, payload, transports[t..], Now());
                  goal.0 == results + rest.0 && goal.1 == rest.1
      {
        TransmitNext(ctx, recipient, index, service, payload, transports, t, Now());
        var transport := transports[t];
        var attempt := AttemptOf(transport.id, ctx.reply(|outbox|));
        outbox := outbox + [Delivery(recipient, index, service, transport.id, payload)];
        ghost var rest := Transmit(ctx, recipient, index, service, payload, transports[t + 1..], Now());
        assert goal.0 == results + ([attempt] + rest.0) && goal.1 == rest.1;
        assert results + ([attempt] + rest.0) == results + [attempt] + rest.0;
        results := results + [attempt];
      }
      assert transports[|transports|..] == [];
      TransmitNone(ctx, recipient, index, service, payload, Now());
      assert goal.0 == results;
    }

    method SendDidCommMessage(packedMessage: PackedMessage, recipientDidUrl: string,
                              returnTransportId: Option<string>, ghost rank: map<string, nat>)
      returns (r: Result<Response, Error>)
      requires Acyclic(ctx.net, rank)
      modifies this, packedMessage
      ensures returnTransportId != None && returnTransportId != Some("") ==>
                r == Err(NotSupported) && Now() == old(Now()) && packedMessage.message == old(packedMessage.message)
      ensures returnTransportId == None || returnTransportId == Some("") ==>
                Sending(r, packedMessage.message, Now())
                == Send(ctx, rank, recipientDidUrl, old(packedMessage.message), old(Now()))
      decreases RankOf(ctx.net, rank, recipientDidUrl), 1
    {
      hide Conclude, Flatten, Acyclic, RankOf, Spray, Serve;
      if returnTransportId != None && returnTransportId != Some("") {
        return Err(NotSupported);
      }
      var doc :- Resolve(ctx.net, recipientDidUrl);
      var services := Flatten(doc.services);
      if services == [] {
        return Err(NotFound);
      }
      var results: seq<Attempt> := [];
      ghost var goal := Spray(ctx, rank, recipientDidUrl, 0, Spraying(Ok([]), packedMessage.message, Now()));
      for i := 0 to |services|
        invariant goal == Spray(ctx, rank, recipientDidUrl, i, Spraying(Ok(results), packedMessage.message, Now()))
      {
        ghost var before := Spraying(Ok(results), packedMessage.message, Now());
        SprayStep(ctx, rank, recipientDidUrl, i, before);
        var served := ServeService(packedMessage, recipientDidUrl, i, services[i], results, rank);
        if served.Err? {
          SprayStops(ctx, rank, recipientDidUrl, i + 1, Spraying(served, packedMessage.message, Now()));
          return Err(served.error);
        }
        results := served.value;
      }
      SprayStops(ctx, rank, recipientDidUrl, |services|, Spraying(Ok(results), packedMessage.message, Now()));
      r := Conclude(results);
    }

    /** One round of the service loop. An error it returns is one the loop does not catch. */
    method ServeService(packedMessage: PackedMessage, recipientDidUrl: string, i: nat, service: Service,
                        results: seq<Attempt>, ghost rank: map<string, nat>)
      returns (r: Result<seq<Attempt>, Error>)
      requires Acyclic(ctx.net, rank)
      requires i < |Services(ctx.net, recipientDidUrl)| && service == Services(ctx.net, recipientDidUrl)[i]
      modifies this, packedMessage
      ensures Spraying(r, packedMessage.message, Now())
              == Serve(ctx, rank, recipientDidUrl, i, Spraying(Ok(results), old(packedMessage.message), old(Now())))
      decreases RankOf(ctx.net, rank, recipientDidUrl), 0
    {
      hide WrapRoute, WrapForward, Services, TransmitMatching, Before, RoutingKeys, EndpointUrl, Acyclic, RankOf;
      hide Serve, Send;
      ServeCases(ctx, rank, recipientDidUrl, i, Spraying(Ok(results), packedMessage.message, Now()));
      r := Ok(results);
      var serviceEndpointUrl := EndpointUrl(service);
      var routingKeys := RoutingKeys(service);
      var wrapped := WrapForRoute(ctx.agent, ctx.net, recipientDidUrl, routingKeys, packedMessage.message, nonce);
      nonce := nonce + |routingKeys|;
      if wrapped.Err? {
        return Err(wrapped.error);
      }
      packedMessage.message := wrapped.value;

      if StartsWith(serviceEndpointUrl, "did:") {
        var recipient :=
          if |routingKeys| > 0 then Before(routingKeys[|routingKeys| - 1], {'#'}) else recipientDidUrl;
        var onward :=
          WrapForward(ctx.agent, ctx.net, recipient, packedMessage.message, serviceEndpointUrl, nonce);
        nonce := nonce + 1;
        if onward.Err? {
          return Err(onward.error);
        }
        EndpointRanksLower(ctx.net, rank, recipientDidUrl, i);
        var wrappedMessage := new PackedMessage(onward.value);
        var response := SendDidCommMessage(wrappedMessage, serviceEndpointUrl, None, rank);
        r := Ok(r.value + [AttemptOfNested(response)]);
      }

      var more := TransmitAll(recipientDidUrl, i, service, packedMessage.message);
      r := Ok(r.value + more);
    }
  }
}
