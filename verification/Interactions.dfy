/** Service descriptors, and the RSocket interaction each method gets. */
module Interactions {
  import opened Wrappers

  // Comments are the leading and trailing ones of the source location, empty if there is none.
  datatype MethodDescriptor = MethodDescriptor(
    name: string, clientStreaming: bool, serverStreaming: bool, fireAndForget: bool, leading: string, trailing: string)

  datatype ServiceDescriptor = ServiceDescriptor(
    package: string, name: string, methods: seq<MethodDescriptor>, leading: string, trailing: string)

  // The trailing comment counts only where there is no leading one.
  function Comments(leading: string, trailing: string): (r: string)
    ensures leading != "" ==> r == leading
    ensures leading == "" ==> r == trailing
  {
    if leading == "" then trailing else leading
  }

  datatype Interaction = FireAndForget | RequestResponse | RequestStream | RequestChannel

  // The call the client stub makes: client streaming is looked at first, then server streaming.
  function ClientCall(m: MethodDescriptor): Interaction {
    if m.clientStreaming then RequestChannel
    else if m.serverStreaming then RequestStream
    else if m.fireAndForget then FireAndForget
    else RequestResponse
  }

  function Select(methods: seq<MethodDescriptor>, call: Interaction): seq<MethodDescriptor> {
    if methods == [] then []
    else
      var last := methods[|methods| - 1];
      Select(methods[..|methods| - 1], call) + if ClientCall(last) == call then [last] else []
  }

  // The server's four tables: each is the methods whose client stub makes that call, in order.
  method PartitionMethods(methods: seq<MethodDescriptor>)
    returns (fireAndForget: seq<MethodDescriptor>, requestResponse: seq<MethodDescriptor>,
             requestStream: seq<MethodDescriptor>, requestChannel: seq<MethodDescriptor>)
    ensures fireAndForget == Select(methods, FireAndForget)
    ensures requestResponse == Select(methods, RequestResponse)
    ensures requestStream == Select(methods, RequestStream)
    ensures requestChannel == Select(methods, RequestChannel)
  {
    fireAndForget, requestResponse, requestStream, requestChannel := [], [], [], [];
    for i := 0 to |methods|
      invariant fireAndForget == Select(methods[..i], FireAndForget)
      invariant requestResponse == Select(methods[..i], RequestResponse)
      invariant requestStream == Select(methods[..i], RequestStream)
      invariant requestChannel == Select(methods[..i], RequestChannel)
    {
      assert methods[..i + 1][..i] == methods[..i];
      var m := methods[i];
      if m.clientStreaming {
        requestChannel := requestChannel + [m];
      } else if m.serverStreaming {
        requestStream := requestStream + [m];
      } else if m.fireAndForget {
        fireAndForget := fireAndForget + [m];
      } else {
        requestResponse := requestResponse + [m];
      }
    }
    assert methods[..|methods|] == methods;
  }

  lemma {:induction false} TablesPartition(methods: seq<MethodDescriptor>)
    ensures multiset(methods) == multiset(Select(methods, FireAndForget)) + multiset(Select(methods, RequestResponse))
                                 + multiset(Select(methods, RequestStream)) + multiset(Select(methods, RequestChannel))
  {
    if methods != [] {
      var init, last := methods[..|methods| - 1], methods[|methods| - 1];
      assert methods == init + [last];
      TablesPartition(init);
      AddLast(Select(init, FireAndForget), ClientCall(last) == FireAndForget, last);
      AddLast(Select(init, RequestResponse), ClientCall(last) == RequestResponse, last);
      AddLast(Select(init, RequestStream), ClientCall(last) == RequestStream, last);
      AddLast(Select(init, RequestChannel), ClientCall(last) == RequestChannel, last);
    }
  }

  lemma AddLast(table: seq<MethodDescriptor>, selected: bool, last: MethodDescriptor)
    ensures multiset(table + if selected then [last] else []) ==
            multiset(table) + if selected then multiset{last} else multiset{}
  {
  }

  // Where the j-th method stands in its table: behind the earlier methods of the same call.
  function Position(methods: seq<MethodDescriptor>, j: nat): nat
    requires j < |methods|
  {
    |Select(methods[..j], ClientCall(methods[j]))|
  }

  lemma {:induction false} SelectGrows(methods: seq<MethodDescriptor>, i: nat, call: Interaction)
    requires i <= |methods|
    ensures Select(methods[..i], call) <= Select(methods, call)
    decreases |methods|
  {
    if i < |methods| {
      var init := methods[..|methods| - 1];
      SelectGrows(init, i, call);
      assert init[..i] == methods[..i];
    } else {
      assert methods[..i] == methods;
    }
  }

  // Every method is in the table of its call, behind those declared before it.
  lemma TablesKeepOrder(methods: seq<MethodDescriptor>, j: nat)
    requires j < |methods|
    ensures var table := Select(methods, ClientCall(methods[j]));
            Position(methods, j) < |table| && table[Position(methods, j)] == methods[j]
    ensures forall i | 0 <= i < j && ClientCall(methods[i]) == ClientCall(methods[j]) ::
              Position(methods, i) < Position(methods, j)
  {
    var call := ClientCall(methods[j]);
    SelectGrows(methods, j + 1, call);
    assert methods[..j + 1][..j] == methods[..j];
    forall i | 0 <= i < j && ClientCall(methods[i]) == call ensures Position(methods, i) < Position(methods, j) {
      SelectGrows(methods[..j], i + 1, call);
      assert methods[..j][..i + 1] == methods[..i + 1];
      assert methods[..i + 1][..i] == methods[..i];
    }
  }

  lemma {:induction false} SelectedAreOfTheCall(methods: seq<MethodDescriptor>, call: Interaction)
    ensures forall m | m in Select(methods, call) :: m in methods && ClientCall(m) == call
  {
    if methods != [] {
      SelectedAreOfTheCall(methods[..|methods| - 1], call);
    }
  }

  // ---------- result shapes ----------

  datatype Shape = Flowable | Single | Completable

  // What a flow's items are: payloads on the wire, protobuf messages, or none at all.
  datatype Item = OfPayloads | OfMessages | OfNothing
  datatype Flow = Flow(shape: Shape, item: Item)

  // The operators of the generated call chains; the first two are the two uses of `map`.
  datatype Op = Deserialize | Serialize | Compose | ToFlowable | FirstOrError | IgnoreElements

  // The type of the operator's result, None if the source has no such operator. A trace is composed
  // with a Flowable of the items it is declared for, or of none.
  function ApplyOp(traced: Item, f: Flow, op: Op): Option<Flow> {
    match op
    case Deserialize => if f.shape.Completable? || f.item != OfPayloads then None else Some(f.(item := OfMessages))
    case Serialize => if f.shape.Completable? || f.item != OfMessages then None else Some(f.(item := OfPayloads))
    case Compose => if f.shape.Flowable? && (f.item == traced || f.item == OfNothing) then Some(f) else None
    case ToFlowable => if f.shape.Flowable? then None else Some(f.(shape := Flowable))
    case FirstOrError => if f.shape.Flowable? then Some(f.(shape := Single)) else None
    case IgnoreElements => if f.shape.Flowable? then Some(Flow(Completable, OfNothing)) else None
  }

  function Then(traced: Item, f: Option<Flow>, op: Op): Option<Flow> {
    if f.None? then None else ApplyOp(traced, f.value, op)
  }

  function ApplyOps(traced: Item, f: Flow, ops: seq<Op>): Option<Flow> {
    if ops == [] then Some(f) else Then(traced, ApplyOps(traced, f, ops[..|ops| - 1]), ops[|ops| - 1])
  }

  // The interface looks at server streaming first.
  function InterfaceShape(m: MethodDescriptor): Shape {
    if m.serverStreaming then Flowable
    else if m.clientStreaming then Single
    else if m.fireAndForget then Completable
    else Single
  }

  // What the function of the interface gives.
  function InterfaceFlow(m: MethodDescriptor): Flow {
    Flow(InterfaceShape(m), if InterfaceShape(m) == Completable then OfNothing else OfMessages)
  }

  // What an RSocket call gives, and its handler must return.
  function CallFlow(call: Interaction): Flow {
    match call
    case FireAndForget => Flow(Completable, OfNothing)
    case RequestResponse => Flow(Single, OfPayloads)
    case RequestStream => Flow(Flowable, OfPayloads)
    case RequestChannel => Flow(Flowable, OfPayloads)
  }

  function ClientOps(m: MethodDescriptor): seq<Op> {
    if m.clientStreaming then
      if m.serverStreaming then [Deserialize, Compose] else [Deserialize, Compose, FirstOrError]
    else if m.serverStreaming then [Deserialize, Compose]
    else if m.fireAndForget then [ToFlowable, Compose, IgnoreElements]
    else [Deserialize, ToFlowable, Compose, FirstOrError]
  }

  // The chain behind the service implementation in the arm of each table.
  function ServerOps(call: Interaction, m: MethodDescriptor): seq<Op> {
    match call
    case FireAndForget => [ToFlowable, Compose, IgnoreElements]
    case RequestResponse => [Serialize, ToFlowable, Compose, FirstOrError]
    case RequestStream => [Serialize, Compose]
    case RequestChannel => if m.serverStreaming then [Serialize, Compose] else [Serialize, ToFlowable, Compose]
  }

  // Both chains type-check, shapes and items: the client's from what its call gives to what the
  // interface declares, the server's from there back to what the RSocket handler of that call must
  // return. Each is traced once, the client's over messages, the server's over payloads.
  lemma ShapesAgree(m: MethodDescriptor)
    ensures ApplyOps(OfMessages, CallFlow(ClientCall(m)), ClientOps(m)) == Some(InterfaceFlow(m))
    ensures ApplyOps(OfPayloads, InterfaceFlow(m), ServerOps(ClientCall(m), m)) == Some(CallFlow(ClientCall(m)))
    ensures multiset(ClientOps(m))[Compose] == 1 && multiset(ServerOps(ClientCall(m), m))[Compose] == 1
  {
    ClientChain(m);
    ServerChain(m);
    TracedOnce(m);
  }

  lemma TracedOnce(m: MethodDescriptor)
    ensures multiset(ClientOps(m))[Compose] == 1 && multiset(ServerOps(ClientCall(m), m))[Compose] == 1
  {
  }

  lemma ClientChain(m: MethodDescriptor)
    ensures ApplyOps(OfMessages, CallFlow(ClientCall(m)), ClientOps(m)) == Some(InterfaceFlow(m))
  {
    var f := CallFlow(ClientCall(m));
    Chain(OfMessages, f, Deserialize, Compose, FirstOrError, FirstOrError);
    Chain(OfMessages, f, ToFlowable, Compose, IgnoreElements, IgnoreElements);
    Chain(OfMessages, f, Deserialize, ToFlowable, Compose, FirstOrError);
  }

  lemma ServerChain(m: MethodDescriptor)
    ensures ApplyOps(OfPayloads, InterfaceFlow(m), ServerOps(ClientCall(m), m)) == Some(CallFlow(ClientCall(m)))
  {
    var f := InterfaceFlow(m);
    Chain(OfPayloads, f, Serialize, Compose, Compose, Compose);
    Chain(OfPayloads, f, ToFlowable, Compose, IgnoreElements, IgnoreElements);
    Chain(OfPayloads, f, Serialize, ToFlowable, Compose, FirstOrError);
  }

  // What a method declares decides how it is called and what it gives.
  lemma CallByDeclaration(m: MethodDescriptor)
    ensures ClientCall(m) == RequestChannel <==> m.clientStreaming
    ensures ClientCall(m) == RequestStream <==> !m.clientStreaming && m.serverStreaming
    ensures ClientCall(m) == FireAndForget <==> InterfaceShape(m) == Completable
    ensures InterfaceShape(m) == Completable <==> !m.clientStreaming && !m.serverStreaming && m.fireAndForget
    ensures InterfaceShape(m) == Flowable <==> m.serverStreaming
  {
  }

  // A chain of two, three or four operators, step by step.
  lemma Chain(traced: Item, f: Flow, a: Op, b: Op, c: Op, d: Op)
    ensures var f2 := Then(traced, ApplyOp(traced, f, a), b);
            && ApplyOps(traced, f, [a, b]) == f2
            && ApplyOps(traced, f, [a, b, c]) == Then(traced, f2, c)
            && ApplyOps(traced, f, [a, b, c, d]) == Then(traced, Then(traced, f2, c), d)
  {
    assert [a][..0] == [] && [a, b][..1] == [a] && [a, b, c][..2] == [a, b] && [a, b, c, d][..3] == [a, b, c];
    assert ApplyOps(traced, f, []) == Some(f) && ApplyOps(traced, f, [a]) == ApplyOp(traced, f, a);
  }
}
