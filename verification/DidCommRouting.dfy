/** Forward messages: the routing-key loop of `sendDIDCommMessage` builds an onion, mediators peel it. */
module DidCommRouting {
  import opened Results
  import opened Strings
  import opened DidCommWire
  import opened DidCommPacking
  import opened DidCommRoundTrip

  /** `routingKey.split('#')[0]` */
  function Mediator(routingKey: string): string {
    Before(routingKey, {'#'})
  }

  /** A routing key with a fragment restricts the recipients to that one kid. */
  function KidRestriction(routingKey: string): Option<seq<string>> {
    if '#' in routingKey then Some([routingKey]) else None
  }

  // ---------------------------------------------------------------- wrapping

  function ForwardMessage(next: string, inner: Wire, routingKey: string, nonce: nat): Message
    requires !inner.NotJson?
  {
    var mediaType := if inner.PlainObject? then GetOr(inner.message.typ, ENCRYPTED) else ENCRYPTED;
    Message(Uuid(nonce), FORWARD, None, None, [Mediator(routingKey)], ForwardTo(next), [Attachment(mediaType, inner)])
  }

  function ForwardArgs(next: string, inner: Wire, routingKey: string, nonce: nat): PackArgs
    requires !inner.NotJson?
  {
    PackArgs(ForwardMessage(next, inner, routingKey, nonce), "anoncrypt", None, [], KidRestriction(routingKey), None,
             None)
  }

  /** One layer: `wrapDIDCommForwardMessage`. Anonymous packing does not consult the sending agent's keys. */
  function WrapForward(agent: Agent, net: Resolver, next: string, inner: Wire, routingKey: string, nonce: nat)
    : Result<Wire, Error>
  {
    if inner.NotJson? then Err(InvalidArgument)
    else PackedJwe(agent, net, ForwardArgs(next, inner, routingKey, nonce), nonce)
  }

  /** The DID the layer for the key before `keys` forwards to. */
  function NextHop(keys: seq<string>, recipient: string): string {
    if keys == [] then recipient else Mediator(keys[0])
  }

  /** One layer per routing key, the first key outermost. */
  function WrapRoute(agent: Agent, net: Resolver, recipient: string, keys: seq<string>, inner: Wire, nonce: nat)
    : Result<Wire, Error>
  {
    if keys == [] then Ok(inner)
    else
      var wrapped :- WrapRoute(agent, net, recipient, keys[1..], inner, nonce);
      WrapForward(agent, net, NextHop(keys[1..], recipient), wrapped, keys[0], nonce + |keys| - 1)
  }

  /** The loop over routing keys, last to first. */
  method WrapForRoute(agent: Agent, net: Resolver, recipientDidUrl: string, routingKeys: seq<string>,
                      packedMessage: Wire, nonce: nat)
    returns (r: Result<Wire, Error>)
    ensures r == WrapRoute(agent, net, recipientDidUrl, routingKeys, packedMessage, nonce)
  {
    hide WrapForward, WrapRoute, NextHop;
    WrapRouteNone(agent, net, recipientDidUrl, packedMessage, nonce);
    assert routingKeys[|routingKeys|..] == [];
    var wrappedMessage := packedMessage;
    var i := |routingKeys|;
    while i > 0
      invariant 0 <= i <= |routingKeys|
      invariant WrapRoute(agent, net, recipientDidUrl, routingKeys[i..], packedMessage, nonce) == Ok(wrappedMessage)
    {
      i := i - 1;
      var recipient :=
        if i >= |routingKeys| - 1 then recipientDidUrl else Before(routingKeys[i + 1], {'#'});
      NextHopAt(routingKeys, i, recipientDidUrl);
      WrapRouteStep(agent, net, recipientDidUrl, routingKeys, packedMessage, nonce, i);
      var wrapped := WrapForward(agent, net, recipient, wrappedMessage, routingKeys[i], nonce + |routingKeys| - 1 - i);
      if wrapped.Err? {
        WrapRouteFails(agent, net, recipientDidUrl, routingKeys, packedMessage, nonce, i);
        return wrapped;
      }
      wrappedMessage := wrapped.value;
    }
    assert routingKeys[0..] == routingKeys;
    return Ok(wrappedMessage);
  }

  lemma WrapRouteNone(agent: Agent, net: Resolver, recipient: string, inner: Wire, nonce: nat)
    ensures WrapRoute(agent, net, recipient, [], inner, nonce) == Ok(inner)
  {
  }

  lemma NextHopAt(keys: seq<string>, i: nat, recipient: string)
    requires i < |keys|
    ensures NextHop(keys[i + 1..], recipient) == if i >= |keys| - 1 then recipient else Before(keys[i + 1], {'#'})
  {
  }

  lemma WrapRouteStep(agent: Agent, net: Resolver, recipient: string, keys: seq<string>, inner: Wire, nonce: nat,
                      i: nat)
    requires i < |keys|
    ensures WrapRoute(agent, net, recipient, keys[i..], inner, nonce) ==
            match WrapRoute(agent, net, recipient, keys[i + 1..], inner, nonce)
            case Err(e) => Err(e)
            case Ok(wrapped) =>
              WrapForward(agent, net, NextHop(keys[i + 1..], recipient), wrapped, keys[i], nonce + |keys| - 1 - i)
  {
    hide WrapForward, NextHop;
    assert keys[i..][1..] == keys[i + 1..];
  }

  lemma {:induction false} WrapRouteFails(agent: Agent, net: Resolver, recipient: string, keys: seq<string>,
                                         inner: Wire, nonce: nat, i: nat)
    requires i <= |keys|
    requires WrapRoute(agent, net, recipient, keys[i..], inner, nonce).Err?
    ensures WrapRoute(agent, net, recipient, keys, inner, nonce)
            == WrapRoute(agent, net, recipient, keys[i..], inner, nonce)
    decreases i
  {
    if i > 0 {
      assert keys[1..][i - 1..] == keys[i..];
      WrapRouteFails(agent, net, recipient, keys[1..], inner, nonce, i - 1);
    } else {
      assert keys[0..] == keys;
    }
  }

  // ---------------------------------------------------------------- peeling

  datatype Peeled = Peeled(next: string, inner: Wire)

  /** What a mediator does with a forward message: unpack it and read where its attachment goes. */
  function Peel(agent: Agent, net: Resolver, wire: Wire): Result<Peeled, Error> {
    var unpacked :- UnpackedMessage(agent, net, wire);
    var message := unpacked.message;
    if message.kind != FORWARD || !message.body.ForwardTo? || message.body.next == "" || message.attachments == []
    then Err(InvalidArgument)
    else Ok(Peeled(message.body.next, message.attachments[0].json))
  }

  datatype Journey = Journey(hops: seq<string>, last: Wire)

  /** Agents peeling one layer each, in order. */
  function PeelAll(agents: seq<Agent>, net: Resolver, wire: Wire): Result<Journey, Error> {
    if agents == [] then Ok(Journey([], wire))
    else
      var peeled :- Peel(agents[0], net, wire);
      var rest :- PeelAll(agents[1..], net, peeled.inner);
      Ok(Journey([peeled.next] + rest.hops, rest.last))
  }

  /** The hops a route is meant to announce: each following mediator, and the recipient at the end. */
  function Hops(keys: seq<string>, recipient: string): (r: seq<string>)
    ensures |r| == |keys|
    ensures forall i | 0 <= i < |r| :: r[i] == if i == |keys| - 1 then recipient else Mediator(keys[i + 1])
  {
    seq(|keys|, i requires 0 <= i < |keys| => if i == |keys| - 1 then recipient else Mediator(keys[i + 1]))
  }

  /** The recipient keys a layer for `routingKey` is sealed to. */
  function LayerRecipients(net: Resolver, routingKey: string): Result<seq<RecipientKey>, Error> {
    AllRecipients(net, [Mediator(routingKey)], KidRestriction(routingKey))
  }

  /** The agent holds one of the keys a layer for `routingKey` is sealed to. */
  ghost predicate Serves(agent: Agent, net: Resolver, routingKey: string) {
    && LayerRecipients(net, routingKey).Ok?
    && exists r :: r in LayerRecipients(net, routingKey).value && Holds(agent, r)
  }

  ghost predicate Sound(agent: Agent) {
    StoreKeyed(agent) && KmsBacked(agent)
  }

  /** A single layer opens for the agents it was made for and for nobody else. */
  lemma PeelsOneLayer(sender: Agent, net: Resolver, next: string, inner: Wire, routingKey: string, nonce: nat,
                      agent: Agent)
    requires WellFormed(net) && Sound(sender) && Sound(agent)
    requires WrapForward(sender, net, next, inner, routingKey, nonce).Ok?
    ensures LayerRecipients(net, routingKey).Ok?
    ensures Peel(agent, net, WrapForward(sender, net, next, inner, routingKey, nonce).value) ==
            if !Serves(agent, net, routingKey) then Err(Undecryptable)
            else if next == "" then Err(InvalidArgument)
            else Ok(Peeled(next, inner))
  {
    var args := ForwardArgs(next, inner, routingKey, nonce);
    assert args.message.to + args.bcc == [Mediator(routingKey)];
    JweRoundTrip(sender, net, args, nonce, agent);
  }

  /**
    Onion routing: layer i of a wrapped message opens for the agent of routing key i and names the mediator of
    key i + 1, or the recipient at the end; what is left is the message that was wrapped. One agent that does not
    serve its key is enough to stop the journey.
   */
  lemma {:induction false} OnionPeels(sender: Agent, net: Resolver, recipient: string, keys: seq<string>, inner: Wire,
                                     nonce: nat, agents: seq<Agent>)
    requires WellFormed(net) && Sound(sender) && forall a | a in agents :: Sound(a)
    requires |agents| == |keys|
    requires recipient != ""
    requires WrapRoute(sender, net, recipient, keys, inner, nonce).Ok?
    ensures var journey := PeelAll(agents, net, WrapRoute(sender, net, recipient, keys, inner, nonce).value);
            if forall i | 0 <= i < |keys| :: Serves(agents[i], net, keys[i])
            then journey == Ok(Journey(Hops(keys, recipient), inner))
            else journey.Err?
  {
    hide *;
    if keys == [] {
      WrapRouteNone(sender, net, recipient, inner, nonce);
      PeelAllNone(net, inner);
      assert Hops(keys, recipient) == [] && agents == [];
    } else {
      WrapRouteCons(sender, net, recipient, keys, inner, nonce);
      var wrapped := WrapRoute(sender, net, recipient, keys[1..], inner, nonce).value;
      var next := NextHop(keys[1..], recipient);
      assert agents[0] in agents && forall a | a in agents[1..] :: a in agents;
      NextIsNamed(sender, net, recipient, keys[1..], inner, nonce);
      PeelsOneLayer(sender, net, next, wrapped, keys[0], nonce + |keys| - 1, agents[0]);
      OnionPeels(sender, net, recipient, keys[1..], inner, nonce, agents[1..]);
      PeelAllCons(agents, net, WrapRoute(sender, net, recipient, keys, inner, nonce).value);
      HopsCons(keys, recipient);
      ServesCons(agents, net, keys);
    }
  }

  lemma WrapRouteCons(agent: Agent, net: Resolver, recipient: string, keys: seq<string>, inner: Wire, nonce: nat)
    requires keys != []
    ensures WrapRoute(agent, net, recipient, keys, inner, nonce) ==
            match WrapRoute(agent, net, recipient, keys[1..], inner, nonce)
            case Err(e) => Err(e)
            case Ok(wrapped) =>
              WrapForward(agent, net, NextHop(keys[1..], recipient), wrapped, keys[0], nonce + |keys| - 1)
  {
    hide WrapForward, NextHop;
  }

  lemma PeelAllNone(net: Resolver, wire: Wire)
    ensures PeelAll([], net, wire) == Ok(Journey([], wire))
  {
  }

  lemma PeelAllCons(agents: seq<Agent>, net: Resolver, wire: Wire)
    requires agents != []
    ensures PeelAll(agents, net, wire) ==
            match Peel(agents[0], net, wire)
            case Err(e) => Err(e)
            case Ok(peeled) =>
              match PeelAll(agents[1..], net, peeled.inner)
              case Err(e) => Err(e)
              case Ok(rest) => Ok(Journey([peeled.next] + rest.hops, rest.last))
  {
    hide Peel;
  }

  lemma HopsCons(keys: seq<string>, recipient: string)
    requires keys != []
    ensures Hops(keys, recipient) == [NextHop(keys[1..], recipient)] + Hops(keys[1..], recipient)
  {
  }

  lemma NextIsNamed(agent: Agent, net: Resolver, recipient: string, keys: seq<string>, inner: Wire, nonce: nat)
    requires recipient != "" && WrapRoute(agent, net, recipient, keys, inner, nonce).Ok?
    ensures NextHop(keys, recipient) != ""
  {
    hide *;
    if keys == [] {
      NextIsRecipient(recipient);
    } else {
      WrapRouteCons(agent, net, recipient, keys, inner, nonce);
      var wrapped := WrapRoute(agent, net, recipient, keys[1..], inner, nonce).value;
      WrapForwardNamesMediator(agent, net, NextHop(keys[1..], recipient), wrapped, keys[0], nonce + |keys| - 1);
      NextIsMediator(keys, recipient);
    }
  }

  lemma NextIsRecipient(recipient: string)
    ensures NextHop([], recipient) == recipient
  {
  }

  lemma NextIsMediator(keys: seq<string>, recipient: string)
    requires keys != []
    ensures NextHop(keys, recipient) == Mediator(keys[0])
  {
  }

  /** A layer can only be made for a key whose mediator is a DID. */
  lemma WrapForwardNamesMediator(agent: Agent, net: Resolver, next: string, inner: Wire, routingKey: string, nonce: nat)
    requires WrapForward(agent, net, next, inner, routingKey, nonce).Ok?
    ensures LayerRecipients(net, routingKey).Ok? && DidOf(Mediator(routingKey)).Some? && Mediator(routingKey) != ""
  {
    hide RecipientsOf, CreateJwe, EncrypterFor;
    var args := ForwardArgs(next, inner, routingKey, nonce);
    assert args.message.to + args.bcc == [Mediator(routingKey)];
    AllRecipientsOne(net, Mediator(routingKey), KidRestriction(routingKey));
  }

  lemma AllRecipientsOne(net: Resolver, did: string, kids: Option<seq<string>>)
    requires AllRecipients(net, [did], kids).Ok?
    ensures DidOf(did).Some? && did != ""
  {
    assert [did][..0] == [];
  }

  lemma ServesCons(agents: seq<Agent>, net: Resolver, keys: seq<string>)
    requires |agents| == |keys| > 0
    ensures (forall i | 0 <= i < |keys| :: Serves(agents[i], net, keys[i])) <==>
            Serves(agents[0], net, keys[0])
            && (forall i | 0 <= i < |keys[1..]| :: Serves(agents[1..][i], net, keys[1..][i]))
  {
    hide Serves;
    if forall i | 0 <= i < |keys[1..]| :: Serves(agents[1..][i], net, keys[1..][i]) {
      forall i | 1 <= i < |keys| ensures Serves(agents[i], net, keys[i]) {
        assert Serves(agents[1..][i - 1], net, keys[1..][i - 1]);
      }
    }
  }

  // ---------------------------------------------------------------- layers of a message

  /** How deep a message is nested: what it carries as first attachment, what that carries, and so on. */
  function Layers(wire: Wire): nat {
    match wire
    case NotJson(_) => 0
    case PlainObject(message) => MessageLayers(message)
    case JweObject(_, _, ciphertext) => MessageLayers(ciphertext.text)
    case FlatJwsObject(_, payload, _) => MessageLayers(payload)
    case GeneralJwsObject(payload, _) => MessageLayers(payload)
  }

  function MessageLayers(message: Message): nat {
    if message.attachments == [] then 0 else 1 + Layers(message.attachments[0].json)
  }

  lemma WrapForwardAddsLayer(agent: Agent, net: Resolver, next: string, inner: Wire, routingKey: string, nonce: nat)
    requires WrapForward(agent, net, next, inner, routingKey, nonce).Ok?
    ensures Layers(WrapForward(agent, net, next, inner, routingKey, nonce).value) == Layers(inner) + 1
    ensures var w := WrapForward(agent, net, next, inner, routingKey, nonce).value;
            w.JweObject? && w.ciphertext.text.attachments != [] && w.ciphertext.text.attachments[0].json == inner
  {
  }

  lemma {:induction false} WrapRouteAddsLayers(agent: Agent, net: Resolver, recipient: string, keys: seq<string>,
                                              inner: Wire, nonce: nat)
    requires WrapRoute(agent, net, recipient, keys, inner, nonce).Ok?
    ensures Layers(WrapRoute(agent, net, recipient, keys, inner, nonce).value) == Layers(inner) + |keys|
  {
    hide WrapForward, NextHop, Layers;
    if keys != [] {
      WrapRouteAddsLayers(agent, net, recipient, keys[1..], inner, nonce);
      var wrapped := WrapRoute(agent, net, recipient, keys[1..], inner, nonce).value;
      WrapForwardAddsLayer(agent, net, NextHop(keys[1..], recipient), wrapped, keys[0], nonce + |keys| - 1);
    }
  }

  /** For one route and recipient a wrapped message determines what was wrapped, whatever randomness went into it. */
  lemma {:induction false} WrapRouteInjective(agent: Agent, net: Resolver, recipient: string, keys: seq<string>,
                                             inner: Wire, nonce: nat, inner': Wire, nonce': nat)
    requires WrapRoute(agent, net, recipient, keys, inner, nonce).Ok?
    requires WrapRoute(agent, net, recipient, keys, inner, nonce)
             == WrapRoute(agent, net, recipient, keys, inner', nonce')
    ensures inner == inner'
  {
    hide WrapForward, NextHop, Layers;
    if keys != [] {
      var wrapped := WrapRoute(agent, net, recipient, keys[1..], inner, nonce).value;
      var wrapped' := WrapRoute(agent, net, recipient, keys[1..], inner', nonce').value;
      WrapForwardAddsLayer(agent, net, NextHop(keys[1..], recipient), wrapped, keys[0], nonce + |keys| - 1);
      WrapForwardAddsLayer(agent, net, NextHop(keys[1..], recipient), wrapped', keys[0], nonce' + |keys| - 1);
      WrapRouteInjective(agent, net, recipient, keys[1..], inner, nonce, inner', nonce');
    }
  }
}
