/** The server's entry: services by name, and the handlers that pick one by the frame. */
module RequestHandling {
  import opened Wrappers
  import opened Utf8
  import opened Buffers
  import opened Frames
  import opened Interactions
  import opened StreamSplitter

  // A payload's two parts; the handlers also release payloads, which are therefore objects.
  datatype Message = Message(data: seq<byte>, metadata: seq<byte>)

  class Payload {
    const message: Message
    var releases: nat

    constructor (message: Message)
      ensures this.message == message && releases == 0
    {
      this.message, releases := message, 0;
    }
  }

  // A service either takes a request over, whatever it then answers, or throws.
  datatype Reply<+R> = Accepted(result: R) | Threw(cause: string)

  datatype RpcService<!R> = RpcService(
    name: string,
    answer: (Interaction, Message) -> Reply<R>,
    channel: (Message, seq<Signal<Message>>) -> Reply<R>)

  datatype HandlerError = BadFrame(error: Buffers.Error) | ServiceNotFound(name: string) | ServiceThrew(cause: string)

  datatype Outcome<+R> = FromService(result: R) | Failed(error: HandlerError)

  function OfReply<R>(reply: Reply<R>): Outcome<R> {
    match reply
    case Accepted(result) => FromService(result)
    case Threw(cause) => Failed(ServiceThrew(cause))
  }

  // Which service a frame is for.
  function Lookup<R>(services: map<string, RpcService<R>>, frame: seq<byte>): Result<RpcService<R>, HandlerError> {
    match ServiceOf(frame)
    case Err(error) => Err(BadFrame(error))
    case Ok(name) => if name in services then Ok(services[name]) else Err(ServiceNotFound(name))
  }

  function Route<R>(services: map<string, RpcService<R>>, call: Interaction, m: Message): Outcome<R> {
    match Lookup(services, m.metadata)
    case Err(error) => Failed(error)
    case Ok(service) => OfReply(service.answer(call, m))
  }

  function RouteChannel<R>(services: map<string, RpcService<R>>, head: Message, tail: seq<Signal<Message>>): Outcome<R>
  {
    match Lookup(services, head.metadata)
    case Err(error) => Failed(error)
    case Ok(service) => OfReply(service.channel(head, tail))
  }

  // Registrations one after the other.
  function RegisterAll<R>(services: seq<RpcService<R>>): map<string, RpcService<R>> {
    if services == [] then map[]
    else
      var last := services[|services| - 1];
      RegisterAll(services[..|services| - 1])[last.name := last]
  }

  // The flow of a channel's remaining payloads, as their messages.
  function MessageOf(signal: Signal<Payload>): Signal<Message> {
    match signal
    case Next(p) => Next(p.message)
    case Complete => Complete
    case Error(cause) => Error(cause)
  }

  function Messages(signals: seq<Signal<Payload>>): (r: seq<Signal<Message>>)
    ensures |r| == |signals|
    ensures forall i | 0 <= i < |r| ::
              && (signals[i].Next? ==> r[i] == Next(signals[i].item.message))
              && (signals[i].Complete? ==> r[i] == Complete)
              && (signals[i].Error? ==> r[i] == Error(signals[i].cause))
  {
    seq(|signals|, i requires 0 <= i < |signals| => MessageOf(signals[i]))
  }

  class RequestHandlingRSocket<R> {
    var registeredServices: map<string, RpcService<R>>

    constructor (services: seq<RpcService<R>>)
      ensures registeredServices == RegisterAll(services)
    {
      registeredServices := map[];
      new;
      for i := 0 to |services|
        invariant registeredServices == RegisterAll(services[..i])
      {
        assert services[..i + 1][..i] == services[..i];
        registeredServices := registeredServices[services[i].name := services[i]];
      }
      assert services[..|services|] == services;
    }

    method AddService(service: RpcService<R>)
      modifies this
      ensures registeredServices == old(registeredServices)[service.name := service]
    {
      registeredServices := registeredServices[service.name := service];
    }

    // The one body of fireAndForget, requestResponse and requestStream: the payload is released exactly when the
    // handler answers with an error of its own.
    method Handle(call: Interaction, payload: Payload) returns (outcome: Outcome<R>)
      modifies payload`releases
      ensures outcome == Route(registeredServices, call, payload.message)
      ensures payload.releases == old(payload.releases) + if outcome.Failed? then 1 else 0
    {
      var metadata := new ByteBuf(payload.message.metadata);
      var service := GetService(metadata);
      if service.Err? {
        payload.releases := payload.releases + 1;
        return Failed(BadFrame(service.error));
      }
      if service.value !in registeredServices {
        payload.releases := payload.releases + 1;
        return Failed(ServiceNotFound(service.value));
      }
      var reply := registeredServices[service.value].answer(call, payload.message);
      if reply.Threw? {
        payload.releases := payload.releases + 1;
        return Failed(ServiceThrew(reply.cause));
      }
      return FromService(reply.result);
    }

    // Once a split, so at most once a channel; only the head is ever released here.
    method HandleSplit(head: Payload, tail: seq<Signal<Payload>>) returns (outcome: Outcome<R>)
      modifies head`releases
      ensures outcome == RouteChannel(registeredServices, head.message, Messages(tail))
      ensures head.releases == old(head.releases) + if outcome.Failed? then 1 else 0
    {
      var metadata := new ByteBuf(head.message.metadata);
      var service := GetService(metadata);
      if service.Err? {
        head.releases := head.releases + 1;
        return Failed(BadFrame(service.error));
      }
      if service.value !in registeredServices {
        head.releases := head.releases + 1;
        return Failed(ServiceNotFound(service.value));
      }
      var reply := registeredServices[service.value].channel(head.message, Messages(tail));
      if reply.Threw? {
        head.releases := head.releases + 1;
        return Failed(ServiceThrew(reply.cause));
      }
      return FromService(reply.result);
    }
  }

  // ---------- properties ----------

  // After any registrations a name is known exactly if it was registered, and stands for the
  // service registered under it last.
  lemma {:induction false} LastRegistrationWins<R>(services: seq<RpcService<R>>, name: string)
    ensures name in RegisterAll(services) <==> exists i | 0 <= i < |services| :: services[i].name == name
    ensures forall i | 0 <= i < |services| && services[i].name == name
                       && (forall j | i < j < |services| :: services[j].name != name) ::
              RegisterAll(services)[name] == services[i]
  {
    if services != [] {
      var init, last := services[..|services| - 1], services[|services| - 1];
      LastRegistrationWins(init, name);
      assert forall i | 0 <= i < |init| :: init[i] == services[i];
      if last.name == name {
        assert services[|services| - 1].name == name;
      }
    }
  }

  // A frame written for a name of at most 32767 bytes gets to the service registered under it, or
  // to the error that names it. Longer names never get through, registered or not.
  lemma FrameFindsItsService<R>(services: map<string, RpcService<R>>, name: string, meth: string,
                                tracing: seq<byte>, metadata: seq<byte>)
    requires |Encode(name)| <= UNSIGNED_SHORT_MAX
    ensures Lookup(services, FrameBytes(name, meth, tracing, metadata)) ==
            if |Encode(name)| > SIGNED_SHORT_MAX then Err(BadFrame(IndexOutOfBounds))
            else if name in services then Ok(services[name]) else Err(ServiceNotFound(name))
  {
    ServiceRoundTrip(name, meth, tracing, metadata);
  }

  // For frames of the service registered last under its name the handler adds nothing to that
  // service, unless the name is too long to be read back; a service that throws is answered for with
  // its exception.
  lemma HandlerIsTheService<R>(services: seq<RpcService<R>>, k: nat, meth: string,
                               tracing: seq<byte>, metadata: seq<byte>)
    requires k < |services| && forall i | k < i < |services| :: services[i].name != services[k].name
    requires |Encode(services[k].name)| <= UNSIGNED_SHORT_MAX
    ensures var frame, fits := FrameBytes(services[k].name, meth, tracing, metadata),
                               |Encode(services[k].name)| <= SIGNED_SHORT_MAX;
            && (forall call, data ::
                  Route(RegisterAll(services), call, Message(data, frame)) ==
                  if !fits then Failed(BadFrame(IndexOutOfBounds))
                  else
                    match services[k].answer(call, Message(data, frame))
                    case Accepted(result) => FromService(result)
                    case Threw(cause) => Failed(ServiceThrew(cause)))
            && (forall data, tail ::
                  RouteChannel(RegisterAll(services), Message(data, frame), tail) ==
                  if !fits then Failed(BadFrame(IndexOutOfBounds))
                  else
                    match services[k].channel(Message(data, frame), tail)
                    case Accepted(result) => FromService(result)
                    case Threw(cause) => Failed(ServiceThrew(cause)))
  {
    LastRegistrationWins(services, services[k].name);
    FrameFindsItsService(RegisterAll(services), services[k].name, meth, tracing, metadata);
  }

  // Under any registrations a frame without a readable service name, or for a name nobody has, is
  // answered for by the handler itself, with that error and nothing else.
  lemma HandlerAnswersForNobody<R>(services: map<string, RpcService<R>>, call: Interaction, m: Message,
                                   tail: seq<Signal<Message>>)
    ensures var name := ServiceOf(m.metadata);
            && (name.Err? ==>
                  Route(services, call, m) == RouteChannel(services, m, tail) == Failed(BadFrame(name.error)))
            && (name.Ok? && name.value !in services ==>
                  Route(services, call, m) == RouteChannel(services, m, tail) == Failed(ServiceNotFound(name.value)))
  {
  }
}
