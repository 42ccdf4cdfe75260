/**
 What the generated code does when it runs: the client stub that builds a frame and makes a call,
 the server that is found by the frame and picks an arm, and the two put together.
 */
module EndToEnd {
  import opened Wrappers
  import opened Utf8
  import opened Buffers
  import opened Frames
  import opened Tracing
  import opened Interactions
  import opened Names
  import opened DocComments
  import opened Generator
  import opened Plugin
  import opened StreamSplitter
  import opened RequestHandling

  // ---------- the generated program ----------

  datatype Program = Program(
    service: string, constants: seq<Constant>, signatures: seq<Signature>, stubs: seq<Stub>, tables: Tables)

  function FullName(s: ServiceDescriptor): string {
    (if s.package == "" then "" else s.package + ".") + s.name
  }

  // Services of different files or names have different full names, as no simple name holds a dot.
  lemma FullNamesDiffer(a: ServiceDescriptor, b: ServiceDescriptor)
    requires '.' !in a.name && '.' !in b.name
    ensures FullName(a) == FullName(b) <==> a.package == b.package && a.name == b.name
    ensures a.package == "" ==> FullName(a) == a.name
    ensures a.package != "" ==> FullName(a) == a.package + "." + a.name
  {
    assert "" + a.name == a.name && "" + b.name == b.name;
    assert a.package != "" ==> FullName(a)[|a.package|] == '.';
    assert b.package != "" ==> FullName(b)[|b.package|] == '.';
    if FullName(a) == FullName(b) && a.package != "" && b.package != "" {
      PackageIsBeforeLastDot(FullName(a), a.package, a.name);
      PackageIsBeforeLastDot(FullName(b), b.package, b.name);
      assert FullName(a)[|a.package| + 1..] == a.name && FullName(b)[|b.package| + 1..] == b.name;
    }
  }

  function ProgramOf(s: ServiceDescriptor): Program {
    Program(FullName(s), Each(s.methods, ConstantOf), Each(s.methods, SignatureOf), Each(s.methods, StubOf),
            Tables(ArmsOf(FireAndForget, s.methods), ArmsOf(RequestResponse, s.methods),
                   ArmsOf(RequestStream, s.methods), ArmsOf(RequestChannel, s.methods)))
  }

  // The three files of a service, each from a printer of its own.
  method Generate(s: ServiceDescriptor) returns (program: Program)
    ensures program == ProgramOf(s)
  {
    var interfaceFile := new Printer();
    var constants, signatures := PrintInterface(s, interfaceFile);
    var clientFile := new Printer();
    var stubs := PrintClient(s, clientFile);
    var serverFile := new Printer();
    var tables := PrintServer(s, serverFile);
    program := Program(FullName(s), constants, signatures, stubs, tables);
  }

  // Kotlin rejects an interface that declares a constant twice.
  predicate Compiles(methods: seq<MethodDescriptor>) {
    forall i, j | 0 <= i < j < |methods| :: FieldName(methods[i]) != FieldName(methods[j])
  }

  function ValueOf(constants: seq<Constant>, field: string): Option<string> {
    if constants == [] then None
    else if constants[0].field == field then Some(constants[0].value)
    else ValueOf(constants[1..], field)
  }

  function TableOf(tables: Tables, call: Interaction): seq<Arm> {
    match call
    case FireAndForget => tables.fireAndForget
    case RequestResponse => tables.requestResponse
    case RequestStream => tables.requestStream
    case RequestChannel => tables.requestChannel
  }

  // `when` compares with one constant after the other.
  function FindArm(constants: seq<Constant>, arms: seq<Arm>, meth: string): Option<Arm> {
    if arms == [] then None
    else if ValueOf(constants, arms[0].field) == Some(meth) then Some(arms[0])
    else FindArm(constants, arms[1..], meth)
  }

  // ---------- the server ----------

  datatype Handled =
    | Invoked(service: string, call: Interaction, arm: Arm, requests: seq<Signal<seq<byte>>>, metadata: seq<byte>,
              span: Option<map<string, string>>)
    | Unsupported
    | Rejected(error: Buffers.Error)

  // The payload's data, or the same terminal signal.
  predicate Carries(r: Signal<seq<byte>>, signal: Signal<Message>) {
    && (signal.Next? ==> r == Next(signal.item.data))
    && (signal.Complete? ==> r == Complete)
    && (signal.Error? ==> r == Error(signal.cause))
  }

  function DataIn(signal: Signal<Message>): Signal<seq<byte>> {
    match signal
    case Next(m) => Next(m.data)
    case Complete => Complete
    case Error(cause) => Error(cause)
  }

  function DataOf(signals: seq<Signal<Message>>): (r: seq<Signal<seq<byte>>>)
    ensures |r| == |signals| && forall i | 0 <= i < |r| :: Carries(r[i], signals[i])
  {
    seq(|signals|, i requires 0 <= i < |signals| => DataIn(signals[i]))
  }

  // An empty table answers at once; otherwise the tracing section is read before the method name.
  function Dispatch(program: Program, tracer: bool, call: Interaction, frame: seq<byte>,
                    requests: seq<Signal<seq<byte>>>): Handled
  {
    var arms := TableOf(program.tables, call);
    if arms == [] then Unsupported
    else
      match SpanContextOf(tracer, frame)
      case Err(error) => Rejected(error)
      case Ok(span) =>
        match MethodOf(frame)
        case Err(error) => Rejected(error)
        case Ok(meth) =>
          match FindArm(program.constants, arms, meth)
          case None => Unsupported
          case Some(arm) => Invoked(program.service, call, arm, requests, frame, span)
  }

  // On a channel the head is put back in front of the rest.
  function OnChannel(program: Program, tracer: bool, head: Message, tail: seq<Signal<Message>>): Handled {
    Dispatch(program, tracer, RequestChannel, head.metadata, DataOf([Next(head)] + tail))
  }

  function GeneratedService(program: Program, tracer: bool): RpcService<Handled> {
    RpcService(program.service,
               (call, m: Message) => Accepted(Dispatch(program, tracer, call, m.metadata, [Next(m.data)])),
               (head, tail) => Accepted(OnChannel(program, tracer, head, tail)))
  }

  function Servers(services: seq<ServiceDescriptor>, tracer: bool): (r: seq<RpcService<Handled>>)
    ensures |r| == |services| && forall i | 0 <= i < |r| :: r[i] == GeneratedService(ProgramOf(services[i]), tracer)
  {
    seq(|services|, i requires 0 <= i < |services| => GeneratedService(ProgramOf(services[i]), tracer))
  }

  // ---------- the client ----------

  // The texts that a frame can be encoded with, and how encoding any others fails.
  predicate Encodable(service: string, meth: string) {
    |Encode(service)| <= UNSIGNED_SHORT_MAX && |Encode(meth)| <= UNSIGNED_SHORT_MAX
  }

  function Refusal(service: string, meth: string): Buffers.Error {
    IllegalArgument(if |Encode(service)| > UNSIGNED_SHORT_MAX then |Encode(service)| else |Encode(meth)|)
  }

  // The frame of a deferred call: the tracing map as its section, then the frame around it.
  method StubFrame(program: Program, stub: Stub, m: map<string, string>, order: seq<string>, metadata: ByteBuf)
    returns (r: Result<seq<byte>, Buffers.Error>)
    requires IterationOrder(m, order) && metadata.Valid()
    requires ValueOf(program.constants, stub.field).Some?
    ensures r.Ok? <==>
              && AllWithin(EncodeAll(Entries(m, order)), UNSIGNED_SHORT_MAX)
              && Encodable(program.service, ValueOf(program.constants, stub.field).value)
    ensures r.Ok? ==> r.value == FrameBytes(program.service, ValueOf(program.constants, stub.field).value,
                                            MapBytes(Entries(m, order)), metadata.Readable())
    ensures r.Err? ==>
              r.error == if !AllWithin(EncodeAll(Entries(m, order)), UNSIGNED_SHORT_MAX) then
                           IllegalArgument(FirstOver(EncodeAll(Entries(m, order))))
                         else Refusal(program.service, ValueOf(program.constants, stub.field).value)
  {
    var tracing :- MapToByteBuf(Some(m), order);
    var frame :- EncodeFrame(program.service, ValueOf(program.constants, stub.field).value, tracing, metadata);
    assert tracing != metadata;
    return Ok(frame.bytes);
  }

  // An exception as the terminal signal of a flow.
  function Thrown(error: Buffers.Error): Signal<Message> {
    StreamSplitter.Error(if error.IllegalArgument? then "IllegalArgumentException" else "IndexOutOfBoundsException")
  }

  // The function a channel's messages are mapped with; its flag is won by the first of them, which
  // encodes the frame.
  class ChannelFunction {
    var once: bool
    const service: string
    const meth: string
    const metadata: ByteBuf

    constructor (service: string, meth: string, metadata: ByteBuf)
      ensures !once && this.service == service && this.meth == meth && this.metadata == metadata
    {
      once, this.service, this.meth, this.metadata := false, service, meth, metadata;
    }

    method CompareAndSet(expected: bool, update: bool) returns (won: bool)
      modifies this
      ensures won <==> old(once) == expected
      ensures once == if won then update else old(once)
    {
      won := once == expected;
      if won {
        once := update;
      }
    }

    method Apply(data: seq<byte>) returns (r: Result<Message, Buffers.Error>)
      requires metadata.Valid()
      modifies this
      ensures once
      ensures r == if old(once) then Ok(Message(data, []))
                   else if Encodable(service, meth) then
                     Ok(Message(data, FrameBytes(service, meth, [], metadata.Readable())))
                   else Err(Refusal(service, meth))
    {
      var won := CompareAndSet(false, true);
      if won {
        var frame :- Encode4(service, meth, metadata);
        return Ok(Message(data, frame.bytes));
      }
      return Ok(Message(data, []));
    }
  }

  function ChannelPayloads(frame: seq<byte>, data: seq<seq<byte>>): (r: seq<Message>)
    ensures |r| == |data| && forall i | 0 <= i < |r| :: r[i] == Message(data[i], if i == 0 then frame else [])
  {
    seq(|data|, i requires 0 <= i < |data| => Message(data[i], if i == 0 then frame else []))
  }

  // Everything a client channel sends with its frame, up to and including its terminal signal.
  function ClientSource(frame: seq<byte>, data: seq<seq<byte>>, end: Signal<Message>): (r: seq<Signal<Message>>)
    ensures |r| == |data| + 1
  {
    Nexts(ChannelPayloads(frame, data)) + [end]
  }

  // The same from its names. Names that cannot be encoded end the channel at its first message, if
  // there is one.
  function ChannelSource(service: string, meth: string, metadata: seq<byte>, data: seq<seq<byte>>,
                         end: Signal<Message>): seq<Signal<Message>>
  {
    if data == [] || Encodable(service, meth) then ClientSource(FrameBytes(service, meth, [], metadata), data, end)
    else [Thrown(Refusal(service, meth))]
  }

  method MapChannel(service: string, meth: string, metadata: ByteBuf, data: seq<seq<byte>>, end: Signal<Message>)
    returns (source: seq<Signal<Message>>)
    requires metadata.Valid()
    ensures source == ChannelSource(service, meth, metadata.Readable(), data, end)
    ensures data == [] || Encodable(service, meth) ==>
              && |source| == |data| + 1 && source[|data|] == end
              && forall i | 0 <= i < |data| ::
                   source[i] == Next(Message(data[i], if i == 0 then FrameBytes(service, meth, [], metadata.Readable())
                                                      else []))
    ensures data != [] && !Encodable(service, meth) ==> source == [StreamSplitter.Error("IllegalArgumentException")]
  {
    ghost var frame := FrameBytes(service, meth, [], metadata.Readable());
    var f := new ChannelFunction(service, meth, metadata);
    source := [];
    for i := 0 to |data|
      invariant source == Nexts(ChannelPayloads(frame, data))[..i]
      invariant f.once <==> i > 0
      invariant i > 0 ==> Encodable(service, meth)
      invariant f.service == service && f.meth == meth && f.metadata == metadata
    {
      var payload := f.Apply(data[i]);
      if payload.Err? {
        return source + [Thrown(payload.error)];
      }
      source := source + [Next(payload.value)];
    }
    source := source + [end];
  }

  // ---------- dispatch ----------

  lemma {:induction false} ConstantHoldsName(methods: seq<MethodDescriptor>, j: nat)
    requires j < |methods| && Compiles(methods)
    ensures ValueOf(Each(methods, ConstantOf), FieldName(methods[j])) == Some(methods[j].name)
  {
    assert Each(methods, ConstantOf)[1..] == Each(methods[1..], ConstantOf);
    if j > 0 {
      ConstantHoldsName(methods[1..], j - 1);
      assert FieldName(methods[0]) != FieldName(methods[j]);
    }
  }

  lemma {:induction false} TablesCompile(methods: seq<MethodDescriptor>, call: Interaction)
    requires Compiles(methods)
    ensures Compiles(Select(methods, call))
  {
    if methods != [] {
      var init, last := methods[..|methods| - 1], methods[|methods| - 1];
      TablesCompile(init, call);
      SelectedAreOfTheCall(init, call);
      forall i | 0 <= i < |Select(init, call)| ensures FieldName(Select(init, call)[i]) != FieldName(last) {
        var m := Select(init, call)[i];
        assert m in init;
        var a :| 0 <= a < |init| && init[a] == m;
        assert methods[a] == m;
      }
    }
  }

  lemma {:induction false} FirstMatchIsFound(constants: seq<Constant>, arms: seq<Arm>, p: nat, meth: string)
    requires p < |arms| && ValueOf(constants, arms[p].field) == Some(meth)
    requires forall i | 0 <= i < p :: ValueOf(constants, arms[i].field) != Some(meth)
    ensures FindArm(constants, arms, meth) == Some(arms[p])
  {
    if p > 0 {
      FirstMatchIsFound(constants, arms[1..], p - 1, meth);
    }
  }

  // In the table of its call a method's name leads to its own arm.
  lemma NameFindsItsArm(methods: seq<MethodDescriptor>, j: nat)
    requires j < |methods| && Compiles(methods)
    ensures var call := ClientCall(methods[j]);
            FindArm(Each(methods, ConstantOf), ArmsOf(call, methods), methods[j].name) == Some(ArmOf(call, methods[j]))
  {
    var call, constants := ClientCall(methods[j]), Each(methods, ConstantOf);
    var table, p := Select(methods, call), Position(methods, j);
    TablesKeepOrder(methods, j);
    TablesCompile(methods, call);
    SelectedAreOfTheCall(methods, call);
    ConstantHoldsName(methods, j);
    forall i | 0 <= i < p ensures ValueOf(constants, FieldName(table[i])) != Some(methods[j].name) {
      var a := IndexOf(methods, table[i]);
      ConstantHoldsName(methods, a);
      assert FieldName(table[i]) != FieldName(table[p]);
    }
    FirstMatchIsFound(constants, ArmsOf(call, methods), p, methods[j].name);
  }

  lemma IndexOf(methods: seq<MethodDescriptor>, m: MethodDescriptor) returns (a: nat)
    requires m in methods
    ensures a < |methods| && methods[a] == m
  {
    a :| 0 <= a < |methods| && methods[a] == m;
  }

  // Distinct method names of the usual form always compile.
  lemma UsualNamesCompile(methods: seq<MethodDescriptor>)
    requires forall i | 0 <= i < |methods| :: MethodStyle(methods[i].name)
    requires forall i, j | 0 <= i < j < |methods| :: methods[i].name != methods[j].name
    ensures Compiles(methods)
  {
    forall i, j | 0 <= i < j < |methods| ensures FieldName(methods[i]) != FieldName(methods[j]) {
      MethodStyleNamesStayDistinct(methods[i].name, methods[j].name);
      assert FieldName(methods[i])[7..] == AllUpper(methods[i].name);
      assert FieldName(methods[j])[7..] == AllUpper(methods[j].name);
    }
  }

  // What a call must satisfy to get through: both names read back, and a server with a tracer
  // finds the tracing section cut between two entries, if at all.
  predicate GetsThrough(service: string, meth: string, entries: seq<Entry>, tracer: bool) {
    TextsFit(|Encode(service)|, |Encode(meth)|) && (tracer ==> EntriesLeft(entries).Some?)
  }

  // The arm of the j-th method as the interface file has it: under the constant declared for the
  // method it calls the function declared for it.
  function DeclaredArm(s: ServiceDescriptor, j: nat): Arm
    requires j < |s.methods|
  {
    var program := ProgramOf(s);
    Arm(program.constants[j].field, program.signatures[j].name, ServerOps(ClientCall(s.methods[j]), s.methods[j]))
  }

  // The three files of a service agree: the stub overrides the function that the interface
  // declares, with its shape, and the arm that the method's name leads to calls that function.
  lemma FilesAgree(s: ServiceDescriptor, j: nat)
    requires j < |s.methods| && Compiles(s.methods)
    ensures var program, call := ProgramOf(s), ClientCall(s.methods[j]);
            && |program.stubs| == |program.signatures| == |program.constants| == |s.methods|
            && program.stubs[j].name == program.signatures[j].name == LowerCamel(s.methods[j].name)
            && program.stubs[j].shape == program.signatures[j].shape
            && program.stubs[j].field == program.constants[j].field == "METHOD_" + AllUpper(s.methods[j].name)
            && program.stubs[j].call == call
            && ValueOf(program.constants, program.stubs[j].field) == Some(s.methods[j].name)
            && FindArm(program.constants, TableOf(program.tables, call), s.methods[j].name) == Some(DeclaredArm(s, j))
  {
    ConstantHoldsName(s.methods, j);
    NameFindsItsArm(s.methods, j);
  }

  // The answer to a call of the j-th method: the method's own arm in its own service, or, where
  // the call does not get through, an error from the handler or from the service. The arm traces
  // its answer under `span`.
  function AnswerTo(s: ServiceDescriptor, j: nat, getsThrough: bool, requests: seq<Signal<seq<byte>>>,
                    frame: seq<byte>, span: Option<map<string, string>>): Outcome<Handled>
    requires j < |s.methods|
  {
    var call := ClientCall(s.methods[j]);
    if getsThrough then FromService(Invoked(FullName(s), call, DeclaredArm(s, j), requests, frame, span))
    else if |Encode(FullName(s))| > SIGNED_SHORT_MAX then Failed(BadFrame(IndexOutOfBounds))
    else FromService(Rejected(IndexOutOfBounds))
  }

  // Once the service's name has been read back.
  lemma DispatchFindsArm(s: ServiceDescriptor, j: nat, tracer: bool, m: map<string, string>, order: seq<string>,
                         metadata: seq<byte>, requests: seq<Signal<seq<byte>>>)
    requires j < |s.methods| && Compiles(s.methods)
    requires |Encode(FullName(s))| <= SIGNED_SHORT_MAX && |Encode(s.methods[j].name)| <= UNSIGNED_SHORT_MAX
    requires IterationOrder(m, order) && AllWithin(EncodeAll(Entries(m, order)), UNSIGNED_SHORT_MAX)
    ensures var call := ClientCall(s.methods[j]);
            var frame := FrameBytes(FullName(s), s.methods[j].name, MapBytes(Entries(m, order)), metadata);
            FromService(Dispatch(ProgramOf(s), tracer, call, frame, requests)) ==
            AnswerTo(s, j, GetsThrough(FullName(s), s.methods[j].name, Entries(m, order), tracer), requests, frame,
                     SpanLeft(m, order, tracer))
  {
    var name, section := s.methods[j].name, MapBytes(Entries(m, order));
    var frame := FrameBytes(FullName(s), name, section, metadata);
    MethodRoundTrip(FullName(s), name, section, metadata);
    SpanContextFailure(tracer, frame);
    if |Encode(name)| <= SIGNED_SHORT_MAX {
      SpanContextIsFirstEntries(FullName(s), name, m, order, metadata, tracer);
    }
    DispatchByName(s, tracer, ClientCall(s.methods[j]), frame, requests);
    assert HasCall(s.methods, ClientCall(s.methods[j]));
  }

  lemma {:induction false} NoArmIsFound(constants: seq<Constant>, arms: seq<Arm>, meth: string)
    requires forall i | 0 <= i < |arms| :: ValueOf(constants, arms[i].field) != Some(meth)
    ensures FindArm(constants, arms, meth) == None
  {
    if arms != [] {
      NoArmIsFound(constants, arms[1..], meth);
    }
  }

  predicate HasMethod(methods: seq<MethodDescriptor>, call: Interaction, name: string) {
    exists j | 0 <= j < |methods| :: ClientCall(methods[j]) == call && methods[j].name == name
  }

  predicate HasCall(methods: seq<MethodDescriptor>, call: Interaction) {
    exists j | 0 <= j < |methods| :: ClientCall(methods[j]) == call
  }

  lemma TableIsEmpty(methods: seq<MethodDescriptor>, call: Interaction)
    ensures Select(methods, call) == [] <==> !HasCall(methods, call)
  {
    SelectedAreOfTheCall(methods, call);
    if Select(methods, call) != [] {
      var a := IndexOf(methods, Select(methods, call)[0]);
      assert ClientCall(methods[a]) == call;
    }
    if j :| 0 <= j < |methods| && ClientCall(methods[j]) == call {
      TablesKeepOrder(methods, j);
    }
  }

  lemma UnknownNameFindsNoArm(methods: seq<MethodDescriptor>, call: Interaction, name: string)
    requires Compiles(methods) && !HasMethod(methods, call, name)
    ensures FindArm(Each(methods, ConstantOf), ArmsOf(call, methods), name) == None
  {
    var table, constants := Select(methods, call), Each(methods, ConstantOf);
    SelectedAreOfTheCall(methods, call);
    forall i | 0 <= i < |table| ensures ValueOf(constants, FieldName(table[i])) != Some(name) {
      var a := IndexOf(methods, table[i]);
      ConstantHoldsName(methods, a);
      assert ClientCall(methods[a]) == call;
    }
    NoArmIsFound(constants, ArmsOf(call, methods), name);
  }

  // What the server answers to any frame, by the methods declared: nothing of a call that no
  // method makes is supported; else the tracing section and then the method's name must be
  // readable; then the method of that call and that name is invoked if there is one, and if there
  // is none the call is not supported.
  lemma DispatchByName(s: ServiceDescriptor, tracer: bool, call: Interaction, frame: seq<byte>,
                       requests: seq<Signal<seq<byte>>>)
    requires Compiles(s.methods)
    ensures var answer := Dispatch(ProgramOf(s), tracer, call, frame, requests);
            var span, name := SpanContextOf(tracer, frame), MethodOf(frame);
            if !HasCall(s.methods, call) then answer == Unsupported
            else if span.Err? then answer == Rejected(span.error)
            else if name.Err? then answer == Rejected(name.error)
            else
              && (answer == Unsupported <==> !HasMethod(s.methods, call, name.value))
              && (forall j | 0 <= j < |s.methods| && ClientCall(s.methods[j]) == call
                             && s.methods[j].name == name.value ::
                    answer == Invoked(FullName(s), call, DeclaredArm(s, j), requests, frame, span.value))
  {
    TableByCall(s, call);
    if MethodOf(frame).Ok? {
      ArmByName(s, call, MethodOf(frame).value);
    }
  }

  lemma TableByCall(s: ServiceDescriptor, call: Interaction)
    ensures TableOf(ProgramOf(s).tables, call) == ArmsOf(call, s.methods)
    ensures TableOf(ProgramOf(s).tables, call) == [] <==> !HasCall(s.methods, call)
  {
    TableIsEmpty(s.methods, call);
  }

  lemma ArmByName(s: ServiceDescriptor, call: Interaction, name: string)
    requires Compiles(s.methods)
    ensures var found := FindArm(ProgramOf(s).constants, TableOf(ProgramOf(s).tables, call), name);
            && (found == None <==> !HasMethod(s.methods, call, name))
            && (forall j | 0 <= j < |s.methods| && ClientCall(s.methods[j]) == call && s.methods[j].name == name ::
                  found == Some(DeclaredArm(s, j)))
  {
    TableByCall(s, call);
    var found := FindArm(ProgramOf(s).constants, TableOf(ProgramOf(s).tables, call), name);
    forall j | 0 <= j < |s.methods| && ClientCall(s.methods[j]) == call && s.methods[j].name == name
      ensures found == Some(DeclaredArm(s, j))
    {
      FilesAgree(s, j);
    }
    if !HasMethod(s.methods, call, name) {
      UnknownNameFindsNoArm(s.methods, call, name);
    }
  }

  // The k-th service is registered last under its full name, so it is the one that name stands for.
  predicate LastOfItsName(services: seq<ServiceDescriptor>, k: nat)
    requires k < |services|
  {
    forall i | k < i < |services| :: FullName(services[i]) != FullName(services[k])
  }

  // End to end, for every method that is not client streaming, every two names and every tracing
  // map that the stub can encode: the call its stub makes, with the frame its stub builds, invokes
  // its own arm in its own service, under the same interaction, with the data sent and the span
  // context left of the map, whatever other services and methods there are, if and only if it gets
  // through.
  lemma CallReachesItsMethod(services: seq<ServiceDescriptor>, k: nat, j: nat, tracer: bool,
                             m: map<string, string>, order: seq<string>, metadata: seq<byte>, data: seq<byte>)
    requires k < |services| && LastOfItsName(services, k)
    requires j < |services[k].methods| && Compiles(services[k].methods) && !services[k].methods[j].clientStreaming
    requires Encodable(FullName(services[k]), services[k].methods[j].name)
    requires IterationOrder(m, order) && AllWithin(EncodeAll(Entries(m, order)), UNSIGNED_SHORT_MAX)
    ensures var program, name := ProgramOf(services[k]), services[k].methods[j].name;
            var stub := program.stubs[j];
            ValueOf(program.constants, stub.field).Some? &&
            var frame := FrameBytes(program.service, ValueOf(program.constants, stub.field).value,
                                    MapBytes(Entries(m, order)), metadata);
            Route(RegisterAll(Servers(services, tracer)), stub.call, Message(data, frame)) ==
            AnswerTo(services[k], j, GetsThrough(FullName(services[k]), name, Entries(m, order), tracer),
                     [Next(data)], frame, SpanLeft(m, order, tracer))
  {
    var s := services[k];
    var name, section := s.methods[j].name, MapBytes(Entries(m, order));
    ConstantHoldsName(s.methods, j);
    HandlerIsTheService(Servers(services, tracer), k, name, section, metadata);
    if |Encode(FullName(s))| <= SIGNED_SHORT_MAX {
      DispatchFindsArm(s, j, tracer, m, order, metadata, [Next(data)]);
    }
  }

  // A name that no method of the call has is refused by the service itself, and never invokes
  // another method.
  lemma UnknownMethodIsRefused(services: seq<ServiceDescriptor>, k: nat, call: Interaction, meth: string, tracer: bool,
                               m: map<string, string>, order: seq<string>, metadata: seq<byte>, data: seq<byte>)
    requires k < |services| && LastOfItsName(services, k) && Compiles(services[k].methods)
    requires Encodable(FullName(services[k]), meth) && !HasMethod(services[k].methods, call, meth)
    requires IterationOrder(m, order) && AllWithin(EncodeAll(Entries(m, order)), UNSIGNED_SHORT_MAX)
    ensures var service := FullName(services[k]);
            var frame := FrameBytes(service, meth, MapBytes(Entries(m, order)), metadata);
            Route(RegisterAll(Servers(services, tracer)), call, Message(data, frame)) ==
            if |Encode(service)| > SIGNED_SHORT_MAX then Failed(BadFrame(IndexOutOfBounds))
            else if HasCall(services[k].methods, call) && !GetsThrough(service, meth, Entries(m, order), tracer) then
              FromService(Rejected(IndexOutOfBounds))
            else FromService(Unsupported)
  {
    HandlerIsTheService(Servers(services, tracer), k, meth, MapBytes(Entries(m, order)), metadata);
    if |Encode(FullName(services[k]))| <= SIGNED_SHORT_MAX {
      ServiceRefuses(services[k], call, meth, tracer, m, order, metadata, [Next(data)]);
    }
  }

  lemma ServiceRefuses(s: ServiceDescriptor, call: Interaction, meth: string, tracer: bool, m: map<string, string>,
                       order: seq<string>, metadata: seq<byte>, requests: seq<Signal<seq<byte>>>)
    requires Compiles(s.methods) && !HasMethod(s.methods, call, meth)
    requires |Encode(FullName(s))| <= SIGNED_SHORT_MAX && |Encode(meth)| <= UNSIGNED_SHORT_MAX
    requires IterationOrder(m, order) && AllWithin(EncodeAll(Entries(m, order)), UNSIGNED_SHORT_MAX)
    ensures Dispatch(ProgramOf(s), tracer, call, FrameBytes(FullName(s), meth, MapBytes(Entries(m, order)), metadata),
                     requests) ==
            if HasCall(s.methods, call) && !GetsThrough(FullName(s), meth, Entries(m, order), tracer) then
              Rejected(IndexOutOfBounds)
            else Unsupported
  {
    var section := MapBytes(Entries(m, order));
    var frame := FrameBytes(FullName(s), meth, section, metadata);
    MethodRoundTrip(FullName(s), meth, section, metadata);
    SpanContextFailure(tracer, frame);
    if |Encode(meth)| <= SIGNED_SHORT_MAX {
      SpanContextIsFirstEntries(FullName(s), meth, m, order, metadata, tracer);
    }
    DispatchByName(s, tracer, call, frame, requests);
  }

  // ---------- channels ----------

  // The source a method is handed, cut after n signals, is the sent messages cut after n.
  ghost predicate DeliversInOrder<M(!new)>(requests: seq<Signal<seq<byte>>>, parse: seq<byte> -> M,
                                           messages: seq<M>, end: Signal<Message>)
  {
    && |requests| <= |messages| + 1
    && (forall i | 0 <= i < |requests| && i < |messages| :: requests[i].Next? && parse(requests[i].item) == messages[i])
    && (|requests| == |messages| + 1 ==> Carries(requests[|messages|], end))
  }

  lemma SourceDelivers<M(!new)>(frame: seq<byte>, messages: seq<M>, end: Signal<Message>, serialize: M -> seq<byte>,
                                parse: seq<byte> -> M, given: seq<Signal<Message>>)
    requires forall x: M :: parse(serialize(x)) == x
    requires given <= ClientSource(frame, Each(messages, serialize), end)
    ensures DeliversInOrder(DataOf(given), parse, messages, end)
  {
  }

  // The splitter's view of a client channel, at any moment of any run: its head is the first
  // payload and carries the frame, and head, delivered tail, pending tail and what a cancel dropped
  // are what was sent, in order. There is no head from names that cannot be encoded.
  lemma ChannelRun<M(!new)>(service: string, meth: string, metadata: seq<byte>, messages: seq<M>, end: Signal<Message>,
                            serialize: M -> seq<byte>, events: seq<Event<Message>>)
    requires !end.Next?
    requires SourceOf(events) <= ChannelSource(service, meth, metadata, Each(messages, serialize), end)
    ensures var s := RunEvents(events);
            && (s.heads != [] <==> messages != [] && Encodable(service, meth) && SourceOf(events) != [])
            && (s.heads != [] ==>
                  && s.heads == [Message(serialize(messages[0]), FrameBytes(service, meth, [], metadata))]
                  && [Next(s.heads[0])] + s.tail.log + Pending(s.tail) + s.tail.dropped == SourceOf(events)
                  && (s.tail.dropped == [] || s.tail.cancelled))
  {
    var source := ChannelSource(service, meth, metadata, Each(messages, serialize), end);
    assert forall i | 0 <= i < |source| - 1 :: source[i].Next?;
    assert Conforming(SourceOf(events));
    SplitterConserves(events);
    if HasHead(SourceOf(events)) {
      HeadAndTailAreSource(events);
    }
  }

  lemma GivenSoFar<T>(given: seq<T>, pending: seq<T>, dropped: seq<T>, sent: seq<T>)
    requires given + pending + dropped == sent
    ensures given <= sent && (pending == dropped == [] ==> |given| == |sent|)
  {
    Associate(given, pending, dropped);
  }

  // End to end, for every client streaming method, at any moment of any run: no method is invoked
  // before a payload comes, and none at all for an empty list or names that cannot be encoded. Once
  // one has come, the method's own arm in its own service is handed the messages sent, in order, up
  // to what was delivered, and all of them with the end of the stream when nothing is pending and
  // nothing was cancelled, if and only if both names read back; otherwise an error is the answer.
  // Only the head carries a frame, and no span context comes with it.
  lemma ChannelReachesItsMethod<M(!new)>(services: seq<ServiceDescriptor>, k: nat, j: nat, tracer: bool,
                                         metadata: seq<byte>, messages: seq<M>, end: Signal<Message>,
                                         serialize: M -> seq<byte>, parse: seq<byte> -> M, events: seq<Event<Message>>)
    requires k < |services| && LastOfItsName(services, k)
    requires j < |services[k].methods| && Compiles(services[k].methods) && services[k].methods[j].clientStreaming
    requires !end.Next? && forall x: M :: parse(serialize(x)) == x
    requires SourceOf(events) <=
             ChannelSource(FullName(services[k]), services[k].methods[j].name, metadata, Each(messages, serialize), end)
    ensures var fullName, name := FullName(services[k]), services[k].methods[j].name;
            var frame, s := FrameBytes(fullName, name, [], metadata), RunEvents(events);
            && (s.heads != [] <==> messages != [] && Encodable(fullName, name) && SourceOf(events) != [])
            && (s.heads != [] ==>
                  var requests := DataOf([Next(s.heads[0])] + s.tail.log);
                  && RouteChannel(RegisterAll(Servers(services, tracer)), s.heads[0], s.tail.log) ==
                     AnswerTo(services[k], j, TextsFit(|Encode(fullName)|, |Encode(name)|), requests, frame, None)
                  && DeliversInOrder(requests, parse, messages, end)
                  && (Pending(s.tail) == [] && !s.tail.cancelled ==> |requests| == |SourceOf(events)|))
            && (forall i | 1 <= i < |messages| :: ChannelPayloads(frame, Each(messages, serialize))[i].metadata == [])
  {
    var fullName, name := FullName(services[k]), services[k].methods[j].name;
    var s := RunEvents(events);
    ChannelRun(fullName, name, metadata, messages, end, serialize, events);
    if s.heads != [] {
      var given := [Next(s.heads[0])] + s.tail.log;
      GivenSoFar(given, Pending(s.tail), s.tail.dropped, SourceOf(events));
      SourceDelivers(FrameBytes(fullName, name, [], metadata), messages, end, serialize, parse, given);
      HeadReachesArm(services, k, j, tracer, metadata, s.heads[0].data, s.tail.log);
    }
  }

  // And everything arrives: once the whole source has been sent to a consumer that attached and
  // never cancelled, and enough deliveries were tried, the method has been handed every message and
  // the end of the stream.
  lemma ChannelArrivesWhole<M(!new)>(services: seq<ServiceDescriptor>, k: nat, j: nat, tracer: bool,
                                     metadata: seq<byte>, messages: seq<M>, end: Signal<Message>,
                                     serialize: M -> seq<byte>, parse: seq<byte> -> M, events: seq<Event<Message>>,
                                     n: nat)
    requires k < |services| && LastOfItsName(services, k)
    requires j < |services[k].methods| && Compiles(services[k].methods) && services[k].methods[j].clientStreaming
    requires TextsFit(|Encode(FullName(services[k]))|, |Encode(services[k].methods[j].name)|)
    requires messages != [] && !end.Next? && forall x: M :: parse(serialize(x)) == x
    requires SourceOf(events) ==
             ChannelSource(FullName(services[k]), services[k].methods[j].name, metadata, Each(messages, serialize), end)
    requires Attach in events && Cancel !in events && n >= |Pending(RunEvents(events).tail)|
    ensures var s := RunEvents(events + Deliveries(n));
            |s.heads| == 1 &&
            var requests := DataOf([Next(s.heads[0])] + s.tail.log);
            && RouteChannel(RegisterAll(Servers(services, tracer)), s.heads[0], s.tail.log) ==
               FromService(Invoked(FullName(services[k]), RequestChannel, DeclaredArm(services[k], j), requests,
                                   s.heads[0].metadata, None))
            && |requests| == |messages| + 1 && Carries(requests[|messages|], end)
            && (forall i | 0 <= i < |messages| :: requests[i].Next? && parse(requests[i].item) == messages[i])
  {
    var fullName, name := FullName(services[k]), services[k].methods[j].name;
    var data, all := Each(messages, serialize), events + Deliveries(n);
    SourceConforms(fullName, name, metadata, data, end);
    AllDelivered(events, n);
    ChannelReachesItsMethod(services, k, j, tracer, metadata, messages, end, serialize, parse, all);
    ChannelRun(fullName, name, metadata, messages, end, serialize, all);
  }

  lemma SourceConforms(service: string, meth: string, metadata: seq<byte>, data: seq<seq<byte>>, end: Signal<Message>)
    ensures Conforming(ChannelSource(service, meth, metadata, data, end))
    ensures Encodable(service, meth) ==> |ChannelSource(service, meth, metadata, data, end)| == |data| + 1
  {
    var source := ChannelSource(service, meth, metadata, data, end);
    assert forall i | 0 <= i < |source| - 1 :: source[i].Next?;
  }

  lemma AllDelivered<T>(events: seq<Event<T>>, n: nat)
    requires Conforming(SourceOf(events)) && Attach in events && Cancel !in events
    requires n >= |Pending(RunEvents(events).tail)|
    ensures var all := events + Deliveries(n);
            SourceOf(all) == SourceOf(events) && Pending(RunEvents(all).tail) == [] && !RunEvents(all).tail.cancelled
  {
    var all := events + Deliveries(n);
    RunDeliveries(events, n);
    ConsumerGetsEverything(events, n);
    ConsumerInCharge(all);
    assert forall i | 0 <= i < |all| :: all[i] != Cancel;
  }

  // A head with the method's frame reaches its arm, whatever follows it, if and only if both names
  // read back: the tracing section of a channel is empty.
  lemma HeadReachesArm(services: seq<ServiceDescriptor>, k: nat, j: nat, tracer: bool, metadata: seq<byte>,
                       data: seq<byte>, tail: seq<Signal<Message>>)
    requires k < |services| && LastOfItsName(services, k)
    requires j < |services[k].methods| && Compiles(services[k].methods) && services[k].methods[j].clientStreaming
    requires Encodable(FullName(services[k]), services[k].methods[j].name)
    ensures var s, name := FullName(services[k]), services[k].methods[j].name;
            var head := Message(data, FrameBytes(s, name, [], metadata));
            RouteChannel(RegisterAll(Servers(services, tracer)), head, tail) ==
            AnswerTo(services[k], j, TextsFit(|Encode(s)|, |Encode(name)|), DataOf([Next(head)] + tail), head.metadata,
                     None)
  {
    HandlerIsTheService(Servers(services, tracer), k, services[k].methods[j].name, [], metadata);
    if |Encode(FullName(services[k]))| <= SIGNED_SHORT_MAX {
      ServiceTakesHead(services[k], j, tracer, metadata, data, tail);
    }
  }

  lemma ServiceTakesHead(d: ServiceDescriptor, j: nat, tracer: bool, metadata: seq<byte>, data: seq<byte>,
                         tail: seq<Signal<Message>>)
    requires j < |d.methods| && Compiles(d.methods) && d.methods[j].clientStreaming
    requires |Encode(FullName(d))| <= SIGNED_SHORT_MAX && |Encode(d.methods[j].name)| <= UNSIGNED_SHORT_MAX
    ensures var head := Message(data, FrameBytes(FullName(d), d.methods[j].name, [], metadata));
            FromService(OnChannel(ProgramOf(d), tracer, head, tail)) ==
            AnswerTo(d, j, TextsFit(|Encode(FullName(d))|, |Encode(d.methods[j].name)|), DataOf([Next(head)] + tail),
                     head.metadata, None)
  {
    var head := Message(data, FrameBytes(FullName(d), d.methods[j].name, [], metadata));
    EmptySection();
    DispatchFindsArm(d, j, tracer, map[], [], metadata, DataOf([Next(head)] + tail));
  }

  lemma EmptySection()
    ensures Entries(map[], []) == [] && EncodeAll([]) == [] && MapBytes([]) == [] && EntriesLeft([]) == Some(0)
  {
  }

  // ---------- the handler against the service alone ----------

  // A service with a channel table splits for itself; one without refuses before it looks.
  // None: no split came, the flow just ends.
  function ServiceChannel(program: Program, tracer: bool, source: seq<Signal<Message>>): Option<Outcome<Handled>> {
    if program.tables.requestChannel == [] then Some(FromService(Unsupported))
    else if HasHead(source) then Some(FromService(OnChannel(program, tracer, source[0].item, AfterHead(source))))
    else None
  }

  function HandlerChannel(services: map<string, RpcService<Handled>>, source: seq<Signal<Message>>)
    : Option<Outcome<Handled>>
  {
    if HasHead(source) then Some(RouteChannel(services, source[0].item, AfterHead(source))) else None
  }

  // On channels the handler and the service it picks agree except on one point: a channel without
  // payloads to a service without channel methods is an error there and an empty flow here.
  lemma ChannelAgreement(services: seq<ServiceDescriptor>, k: nat, tracer: bool, source: seq<Signal<Message>>)
    requires k < |services| && LastOfItsName(services, k)
    requires HasHead(source) ==> ServiceOf(source[0].item.metadata) == Ok(FullName(services[k]))
    ensures HandlerChannel(RegisterAll(Servers(services, tracer)), source) ==
            ServiceChannel(ProgramOf(services[k]), tracer, source) <==>
            HasHead(source) || ProgramOf(services[k]).tables.requestChannel != []
  {
    NameStandsFor(services, k, tracer);
  }

  lemma NameStandsFor(services: seq<ServiceDescriptor>, k: nat, tracer: bool)
    requires k < |services| && LastOfItsName(services, k)
    ensures FullName(services[k]) in RegisterAll(Servers(services, tracer))
    ensures RegisterAll(Servers(services, tracer))[FullName(services[k])] ==
            GeneratedService(ProgramOf(services[k]), tracer)
  {
    var servers := Servers(services, tracer);
    LastRegistrationWins(servers, FullName(services[k]));
    assert servers[k].name == FullName(services[k]);
  }
}
