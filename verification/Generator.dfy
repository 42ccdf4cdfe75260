/**
 The three printers of the generator. What they print is reduced to what counts for lexing: the
 doc comments in full, and of the code its brackets in order, without string literals and names.
 What the printed code says is returned beside it: the constants of the interface, the stubs of
 the client and the dispatch tables of the server.
 */
module Generator {
  import opened Wrappers
  import opened Names
  import opened KotlinLexer
  import opened Kotlindoc
  import opened DocComments
  import opened Interactions

  // Reading code inside n open braces.
  function InBraces(n: nat): Lexer {
    Lexer(Code, Braces(n))
  }

  function Braces(n: nat): Stack {
    if n == 0 then Empty else Over('{', Braces(n - 1))
  }

  datatype Constant = Constant(field: string, value: string)
  datatype Signature = Signature(name: string, shape: Shape)
  datatype Stub = Stub(name: string, call: Interaction, field: string, shape: Shape, ops: seq<Op>)
  datatype Arm = Arm(field: string, callee: string, ops: seq<Op>)
  datatype Tables = Tables(
    fireAndForget: seq<Arm>, requestResponse: seq<Arm>, requestStream: seq<Arm>, requestChannel: seq<Arm>)

  function FieldName(m: MethodDescriptor): string {
    "METHOD_" + AllUpper(m.name)
  }

  function FunctionName(m: MethodDescriptor): string {
    LowerCamel(m.name)
  }

  method MethodFieldName(m: MethodDescriptor) returns (r: string)
    ensures r == FieldName(m)
  {
    var upper := ToAllUpperCase(m.name);
    r := "METHOD_" + upper;
  }

  function ConstantOf(m: MethodDescriptor): Constant {
    Constant(FieldName(m), m.name)
  }

  function SignatureOf(m: MethodDescriptor): Signature {
    Signature(FunctionName(m), InterfaceShape(m))
  }

  function StubOf(m: MethodDescriptor): Stub {
    Stub(FunctionName(m), ClientCall(m), FieldName(m), InterfaceShape(m), ClientOps(m))
  }

  function ArmOf(call: Interaction, m: MethodDescriptor): Arm {
    Arm(FieldName(m), FunctionName(m), ServerOps(call, m))
  }

  function ArmsOf(call: Interaction, methods: seq<MethodDescriptor>): seq<Arm> {
    Each(Select(methods, call), m => ArmOf(call, m))
  }

  // ---------- the interface ----------

  // A method's doc comment, then the brackets of its parameters and of its default.
  function SignatureText(pad: nat, m: MethodDescriptor): string {
    DocText(pad, DocLines(Comments(m.leading, m.trailing)), true) + (Calls([1]) + Calls([2]))
  }

  function SignaturesText(pad: nat, methods: seq<MethodDescriptor>): string {
    if methods == [] then ""
    else SignaturesText(pad, methods[..|methods| - 1]) + SignatureText(pad, methods[|methods| - 1])
  }

  // The service's doc comment, the annotation and the companion object, then the methods.
  function InterfaceText(pad: nat, service: ServiceDescriptor): string {
    DocText(pad, DocLines(Comments(service.leading, service.trailing)), true) + "([]){" + "{}"
    + SignaturesText(pad + 2, service.methods) + "}"
  }

  // The comment of every method stands in the file, whole, in the order of the methods.
  lemma {:induction false} CommentStandsInFile(pad: nat, methods: seq<MethodDescriptor>, j: nat) returns (after: string)
    requires j < |methods|
    ensures SignaturesText(pad, methods) ==
            SignaturesText(pad, methods[..j])
            + DocText(pad, DocLines(Comments(methods[j].leading, methods[j].trailing)), true) + after
  {
    var init, last := methods[..|methods| - 1], methods[|methods| - 1];
    var before := SignaturesText(pad, methods[..j]);
    if j == |methods| - 1 {
      after := Calls([1]) + Calls([2]);
      Associate(before, DocText(pad, DocLines(Comments(last.leading, last.trailing)), true), after);
    } else {
      var more := CommentStandsInFile(pad, init, j);
      assert init[..j] == methods[..j];
      after := more + SignatureText(pad, last);
      Associate(before + DocText(pad, DocLines(Comments(methods[j].leading, methods[j].trailing)), true), more,
                SignatureText(pad, last));
    }
  }

  // The whole file, user comments included, leaves no comment and no bracket open.
  method PrintInterface(service: ServiceDescriptor, p: Printer)
    returns (constants: seq<Constant>, signatures: seq<Signature>)
    requires p.Lexed() == START
    modifies p
    ensures p.Lexed() == START && p.indent == old(p.indent)
    ensures p.out == old(p.out) + InterfaceText(p.indent, service)
    ensures constants == Each(service.methods, ConstantOf)
    ensures signatures == Each(service.methods, SignatureOf)
  {
    ghost var before := p.out;
    WriteDocComment(p, Comments(service.leading, service.trailing), true);
    PrintAnnotation(p);
    p.Indent();
    constants := PrintConstants(service.methods, p);
    signatures := PrintSignatures(service.methods, p);
    p.Outdent();
    p.Close('}');
    AssociateFive(before, DocText(p.indent, DocLines(Comments(service.leading, service.trailing)), true), "([]){", "{}",
                  SignaturesText(p.indent + 2, service.methods), "}");
  }

  // The annotation of a class or interface and its opening brace.
  method PrintAnnotation(p: Printer)
    requires p.Lexed() == START
    modifies p`out
    ensures p.Lexed() == InBraces(1)
    ensures p.out == old(p.out) + "([]){"
  {
    ghost var before := p.out;
    p.Open('('); p.Open('['); p.Close(']'); p.Close(')'); p.Open('{');
    assert p.out == before + "([]){";
  }

  lemma AssociateFive(out: string, a: string, b: string, c: string, d: string, e: string)
    ensures out + a + b + c + d + e == out + (a + b + c + d + e)
  {
  }

  // The companion object: a constant per method, holding the method's name.
  method PrintConstants(methods: seq<MethodDescriptor>, p: Printer) returns (constants: seq<Constant>)
    requires p.Lexed() == InBraces(1)
    modifies p
    ensures p.Lexed() == InBraces(1) && p.indent == old(p.indent)
    ensures p.out == old(p.out) + "{}"
    ensures constants == Each(methods, ConstantOf)
  {
    ghost var before, pad := p.out, p.indent;
    p.Open('{');
    p.Indent();
    constants := [];
    for i := 0 to |methods|
      invariant p.Lexed() == InBraces(2) && p.indent == pad + 2 && p.out == before + "{"
      invariant constants == Each(methods[..i], ConstantOf)
    {
      var field := MethodFieldName(methods[i]);
      constants := constants + [Constant(field, methods[i].name)];
    }
    assert methods[..|methods|] == methods;
    p.Outdent();
    p.Close('}');
    Associate(before, "{", "}");
  }

  method PrintSignatures(methods: seq<MethodDescriptor>, p: Printer) returns (signatures: seq<Signature>)
    requires p.Lexed() == InBraces(1)
    modifies p`out
    ensures p.Lexed() == InBraces(1)
    ensures p.out == old(p.out) + SignaturesText(p.indent, methods)
    ensures signatures == Each(methods, SignatureOf)
  {
    signatures := [];
    ghost var before := p.out;
    NothingBehind(before);
    for i := 0 to |methods|
      invariant p.Lexed() == InBraces(1)
      invariant p.out == before + SignaturesText(p.indent, methods[..i])
      invariant signatures == Each(methods[..i], SignatureOf)
    {
      SignaturesGrow(before, p.indent, methods, i);
      EachGrows(methods, SignatureOf, i);
      var signature := PrintSignature(methods[i], p);
      signatures := signatures + [signature];
    }
    assert methods[..|methods|] == methods;
  }

  lemma SignaturesGrow(before: string, pad: nat, methods: seq<MethodDescriptor>, i: nat)
    requires i < |methods|
    ensures before + SignaturesText(pad, methods[..i + 1]) ==
            before + SignaturesText(pad, methods[..i]) + SignatureText(pad, methods[i])
  {
    assert methods[..i + 1][..i] == methods[..i];
    Associate(before, SignaturesText(pad, methods[..i]), SignatureText(pad, methods[i]));
  }

  method PrintSignature(m: MethodDescriptor, p: Printer) returns (signature: Signature)
    requires p.Lexed() == InBraces(1)
    modifies p`out
    ensures p.Lexed() == InBraces(1)
    ensures p.out == old(p.out) + SignatureText(p.indent, m)
    ensures signature == SignatureOf(m)
  {
    ghost var before := p.out;
    WriteDocComment(p, Comments(m.leading, m.trailing), true);
    var name := MixedLower(m.name);
    if m.clientStreaming {
      p.PrintCalls([1]);
    } else {
      p.PrintCalls([1]);
    }
    var shape;
    if m.serverStreaming {
      p.PrintCalls([2]);
      shape := Flowable;
    } else if m.clientStreaming {
      p.PrintCalls([2]);
      shape := Single;
    } else if m.fireAndForget {
      p.PrintCalls([2]);
      shape := Completable;
    } else {
      p.PrintCalls([2]);
      shape := Single;
    }
    signature := Signature(name, shape);
    AssociateSignature(before, DocText(p.indent, DocLines(Comments(m.leading, m.trailing)), true),
                       Calls([1]), Calls([2]));
  }

  lemma AssociateSignature(out: string, comment: string, a: string, b: string)
    ensures out + comment + a + b == out + (comment + (a + b))
  {
  }

  // ---------- the client ----------

  method PrintClient(service: ServiceDescriptor, p: Printer) returns (stubs: seq<Stub>)
    requires p.Lexed() == START
    modifies p
    ensures p.Lexed() == START
    ensures stubs == Each(service.methods, StubOf)
  {
    p.Open('('); p.Open('['); p.Close(']'); p.Close(')'); p.PrintCalls([1]); p.Open('(');
    p.Close(')'); p.Open('{');
    PrintTracingFields(service, p);
    PrintTracingInit(service, p);
    stubs := PrintStubs(service.methods, p);
    PrintSerializers(p);
    p.Close('}');
  }

  method PrintSerializers(p: Printer)
    requires p.Lexed() == InBraces(1)
    modifies p
    ensures p.Lexed() == InBraces(1)
  {
    // serialize
    p.PrintCalls([1]); p.Open('{'); p.PrintCalls([1]);
    p.Open('{'); p.PrintCalls([3, 1]);
    p.Close('}'); p.PrintCalls([1]); p.Open('{'); p.PrintCalls([1, 1]);
    p.Close('}'); p.Close('}');
    // deserializer
    p.PrintCalls([1, 1]);
    p.Open('{'); p.PrintCalls([2]); p.Close('}');
  }

  // One field a method, of a function type.
  method PrintTracingFields(service: ServiceDescriptor, p: Printer)
    requires p.Lexed() == InBraces(1)
    modifies p
    ensures p.Lexed() == InBraces(1)
  {
    for i := 0 to |service.methods|
      invariant p.Lexed() == InBraces(1)
    {
      p.PrintCalls([1]);
    }
  }

  // The `init` block, the same in client and server: one assignment a method for either case of
  // the tracer.
  method PrintTracingInit(service: ServiceDescriptor, p: Printer)
    requires p.Lexed() == InBraces(1)
    modifies p
    ensures p.Lexed() == InBraces(1)
  {
    p.Open('{'); p.PrintCalls([1]); p.Open('{'); p.Open('{');
    for i := 0 to |service.methods|
      invariant p.Lexed() == InBraces(4)
    {
      p.PrintCalls([1]);
    }
    p.Close('}'); p.Open('{');
    for i := 0 to |service.methods|
      invariant p.Lexed() == InBraces(4)
    {
      p.Open('(');
      p.PrintCalls([1, 1, 1]);
      p.Close(')');
    }
    p.Close('}'); p.Close('}'); p.Close('}');
  }

  method PrintStubs(methods: seq<MethodDescriptor>, p: Printer) returns (stubs: seq<Stub>)
    requires p.Lexed() == InBraces(1)
    modifies p
    ensures p.Lexed() == InBraces(1)
    ensures stubs == Each(methods, StubOf)
  {
    stubs := [];
    for i := 0 to |methods|
      invariant p.Lexed() == InBraces(1)
      invariant stubs == Each(methods[..i], StubOf)
    {
      var stub := PrintStub(methods[i], p);
      stubs := stubs + [stub];
    }
    assert methods[..|methods|] == methods;
  }

  method PrintStub(m: MethodDescriptor, p: Printer) returns (stub: Stub)
    requires p.Lexed() == InBraces(1)
    modifies p
    ensures p.Lexed() == InBraces(1)
    ensures stub == StubOf(m)
  {
    var name := MixedLower(m.name);
    var field := MethodFieldName(m);
    // without metadata
    p.PrintCalls([1, 1]);
    p.Open('{'); p.PrintCalls([1]); p.Close('}');
    // with metadata
    p.PrintCalls([1, 1]);
    var shape;
    if m.serverStreaming {
      p.Open('{');
      shape := Flowable;
    } else if m.clientStreaming {
      p.Open('{');
      shape := Single;
    } else if m.fireAndForget {
      p.Open('{');
      shape := Completable;
    } else {
      p.Open('{');
      shape := Single;
    }
    var call, ops;
    if m.clientStreaming {
      PrintChannelFunction(p);
      if m.serverStreaming {
        p.Close('}'); p.Close(')'); p.Close(')'); p.PrintCalls([3]);
        p.PrintCalls([2]);
        ops := [Deserialize, Compose];
      } else {
        p.Close('}'); p.Close(')'); p.Close(')'); p.PrintCalls([3]);
        p.PrintCalls([2, 1]);
        ops := [Deserialize, Compose, FirstOrError];
      }
      call := RequestChannel;
    } else {
      p.PrintCalls([1]);
      if m.serverStreaming {
        PrintDeferredCall(p);
        p.PrintCalls([3, 2]);
        call, ops := RequestStream, [Deserialize, Compose];
      } else if m.fireAndForget {
        PrintDeferredCall(p);
        p.PrintCalls([1, 2, 1]);
        call, ops := FireAndForget, [ToFlowable, Compose, IgnoreElements];
      } else {
        PrintDeferredCall(p);
        p.PrintCalls([3, 1]);
        p.PrintCalls([2, 1]);
        call, ops := RequestResponse, [Deserialize, ToFlowable, Compose, FirstOrError];
      }
    }
    p.Close('}');
    stub := Stub(name, call, field, shape, ops);
  }

  // The mapping function of a channel call, up to but not including its last brace.
  method PrintChannelFunction(p: Printer)
    requires p.Lexed() == InBraces(2)
    modifies p`out
    ensures p.Lexed() == Lexer(Code, Over('{', Over('(', Over('(', Over('{', Over('{', Empty))))))
  {
    p.PrintCalls([1]); p.Open('('); p.PrintCalls([1]); p.Open('(');
    p.Open('{'); p.PrintCalls([1, 1]); p.Open('{');
    p.PrintCalls([1, 2]); p.Open('{'); p.PrintCalls([1]);
    p.Close('}'); p.Open('{'); p.Close('}');
    p.PrintCalls([1, 1, 1]); p.Close('}');
  }

  // The body of a deferred call: eight calls in braces.
  method PrintDeferredCall(p: Printer)
    requires p.Lexed() == InBraces(2)
    modifies p`out
    ensures p.Lexed() == InBraces(2)
  {
    p.Open('{'); p.PrintCalls([1, 1, 1, 1]);
    p.PrintCalls([1, 1, 1, 1]); p.Close('}');
  }

  // ---------- the server ----------

  method PrintServer(service: ServiceDescriptor, p: Printer) returns (tables: Tables)
    requires p.Lexed() == START
    modifies p
    ensures p.Lexed() == START
    ensures tables == Tables(ArmsOf(FireAndForget, service.methods), ArmsOf(RequestResponse, service.methods),
                             ArmsOf(RequestStream, service.methods), ArmsOf(RequestChannel, service.methods))
  {
    p.Open('('); p.Open('['); p.Close(']'); p.Close(')'); p.PrintCalls([1, 1]); p.Open('(');
    p.Close(')'); p.PrintCalls([1]); p.Open('{');
    PrintTracingFields(service, p);
    PrintTracingInit(service, p);

    var fireAndForget, requestResponse, requestStream, requestChannel := PartitionMethods(service.methods);
    var ff := PrintHandler(FireAndForget, fireAndForget, p);
    var rr := PrintHandler(RequestResponse, requestResponse, p);
    var rs := PrintHandler(RequestStream, requestStream, p);
    var rc := PrintHandler(RequestChannel, requestChannel, p);
    tables := Tables(ff, rr, rs, rc);

    // requestChannel(payloads)
    p.PrintCalls([1]); p.Open('{');
    if requestChannel == [] {
      p.PrintCalls([2]);
    } else {
      p.PrintCalls([1]);
      p.Open('{'); p.PrintCalls([1, 1]); p.Close('}');
    }
    p.Close('}');
    PrintServerCompanion(p);
    p.Close('}');
  }

  // One handler: an error if its table is empty, else a `when` with one arm a method.
  method PrintHandler(call: Interaction, methods: seq<MethodDescriptor>, p: Printer) returns (arms: seq<Arm>)
    requires p.Lexed() == InBraces(1)
    modifies p
    ensures p.Lexed() == InBraces(1)
    ensures arms == Each(methods, m => ArmOf(call, m))
  {
    arms := [];
    p.PrintCalls([1]); p.Open('{');
    if methods == [] {
      p.PrintCalls([2]);
    } else {
      p.Open('{'); p.PrintCalls([1, 1, 1, 1]); p.Open('{');
      assert p.Lexed() == InBraces(4);
      arms := PrintArms(call, methods, p);
      p.PrintCalls([2]); p.Close('}');
      p.Close('}'); p.PrintCalls([1]); p.Open('{'); p.PrintCalls([1]); p.Close('}');
      assert p.Lexed() == InBraces(2);
    }
    p.Close('}');
  }

  method PrintArms(call: Interaction, methods: seq<MethodDescriptor>, p: Printer) returns (arms: seq<Arm>)
    requires p.Lexed() == InBraces(4)
    modifies p
    ensures p.Lexed() == InBraces(4)
    ensures arms == Each(methods, m => ArmOf(call, m))
  {
    arms := [];
    for i := 0 to |methods|
      invariant p.Lexed() == InBraces(4)
      invariant arms == Each(methods[..i], m => ArmOf(call, m))
    {
      var arm := PrintArm(call, methods[i], p);
      arms := arms + [arm];
    }
    assert methods[..|methods|] == methods;
  }

  method PrintArm(call: Interaction, m: MethodDescriptor, p: Printer) returns (arm: Arm)
    requires p.Lexed() == InBraces(4)
    modifies p
    ensures p.Lexed() == InBraces(4)
    ensures arm == ArmOf(call, m)
  {
    var name := MixedLower(m.name);
    var field := MethodFieldName(m);
    var ops;
    p.Open('{');
    match call {
      case FireAndForget =>
        p.PrintCalls([1, 2]);
        p.PrintCalls([1, 2, 1]);
        ops := [ToFlowable, Compose, IgnoreElements];
      case RequestResponse =>
        p.PrintCalls([1, 2]);
        p.PrintCalls([1, 1, 2, 1]);
        ops := [Serialize, ToFlowable, Compose, FirstOrError];
      case RequestStream =>
        p.PrintCalls([1, 2]);
        p.PrintCalls([1, 2]);
        ops := [Serialize, Compose];
      case RequestChannel =>
        p.PrintCalls([1, 3]);
        if m.serverStreaming {
          p.PrintCalls([1, 1, 2]);
          ops := [Serialize, Compose];
        } else {
          p.PrintCalls([1, 1, 1, 2]);
          ops := [Serialize, ToFlowable, Compose];
        }
    }
    p.Close('}');
    arm := Arm(field, name, ops);
  }

  method PrintServerCompanion(p: Printer)
    requires p.Lexed() == InBraces(1)
    modifies p
    ensures p.Lexed() == InBraces(1)
  {
    p.Open('{');
    // serializer
    p.PrintCalls([1]); p.Open('{'); p.PrintCalls([1]);
    p.Open('{'); p.PrintCalls([3, 1, 1]);
    p.Close('}'); p.PrintCalls([1]); p.Open('{'); p.PrintCalls([1]);
    p.Close('}'); p.Open('{'); p.PrintCalls([1]);
    p.Close('}'); p.Close('}');
    // deserializer
    p.PrintCalls([1, 1]); p.Open('{'); p.Open('{');
    p.Open('{'); p.PrintCalls([1, 1]);
    p.Close('}'); p.PrintCalls([1]); p.Open('{'); p.PrintCalls([1]);
    p.Close('}'); p.Close('}'); p.Close('}');
    p.Close('}');
  }
}
