/** The printer, and the doc comments it writes. */
module DocComments {
  import opened Wrappers
  import opened Kotlindoc
  import opened KotlinLexer
  import opened Lines

  function Spaces(n: nat): string {
    seq(n, i => ' ')
  }

  function Line(pad: nat, text: string): string {
    Spaces(pad) + text + "\n"
  }

  class Printer {
    var out: string
    var indent: nat

    constructor ()
      ensures out == "" && indent == 0
    {
      out, indent := "", 0;
    }

    // What a lexer makes of the output so far.
    ghost function Lexed(): Lexer
      reads this
    {
      Run(START, out)
    }

    method PrintLine(text: string)
      modifies this`out
      ensures out == old(out) + Line(indent, text)
    {
      out := out + Spaces(indent) + text + "\n";
      assert out == old(out) + Line(indent, text);
    }

    // Generated code, reduced to its brackets; indentation does not matter there.
    method PrintCalls(depths: seq<nat>)
      requires Lexed().Lexer? && Lexed().mode == Code
      modifies this`out
      ensures out == old(out) + Calls(depths)
      ensures Lexed() == old(Lexed())
    {
      RunConcatenation(START, out, Calls(depths));
      CallsAreNested(Lexed().open, depths);
      out := out + Calls(depths);
    }

    method Open(bracket: char)
      requires Lexed().Lexer? && Lexed().mode == Code && bracket in "([{"
      modifies this`out
      ensures out == old(out) + [bracket]
      ensures Lexed() == Lexer(Code, Over(bracket, old(Lexed()).open))
    {
      RunConcatenation(START, out, [bracket]);
      out := out + [bracket];
    }

    method Close(bracket: char)
      requires Lexed().Lexer? && Lexed().mode == Code && Lexed().open.Over?
      requires Matches(Lexed().open.bracket, bracket)
      modifies this`out
      ensures out == old(out) + [bracket]
      ensures Lexed() == Lexer(Code, old(Lexed()).open.below)
    {
      RunConcatenation(START, out, [bracket]);
      out := out + [bracket];
    }

    method Indent()
      modifies this`indent
      ensures indent == old(indent) + 2
    {
      indent := indent + 2;
    }

    method Outdent()
      modifies this`indent
      ensures indent == if old(indent) >= 2 then old(indent) - 2 else old(indent)
    {
      if indent >= 2 {
        indent := indent - 2;
      }
    }
  }

  // A line that starts with a slash is kept off the leading asterisk.
  function BodyLine(line: string): string {
    if line != "" && line[0] == '/' then " * " + line else " *" + line
  }

  function BodyLines(pad: nat, lines: seq<string>): string {
    if lines == [] then "" else Line(pad, BodyLine(lines[0])) + BodyLines(pad, lines[1..])
  }

  function Body(pad: nat, lines: seq<string>, pre: bool): string {
    if lines == [] then ""
    else if pre then Line(pad, " * <pre>") + BodyLines(pad, lines) + Line(pad, " * </pre>")
    else BodyLines(pad, lines)
  }

  function DocText(pad: nat, lines: seq<string>, pre: bool): string {
    Line(pad, "/**") + Body(pad, lines, pre) + Line(pad, " */")
  }

  lemma BodyAdvances(out: string, pad: nat, lines: seq<string>, i: nat)
    requires i < |lines|
    ensures out + BodyLines(pad, lines[i..]) == out + Line(pad, BodyLine(lines[i])) + BodyLines(pad, lines[i + 1..])
  {
    TailOfTail(lines, i);
    Associate(out, Line(pad, BodyLine(lines[i])), BodyLines(pad, lines[i + 1..]));
  }

  lemma AssociateThree(out: string, x: string, y: string, z: string)
    ensures out + x + y + z == out + (x + y + z)
  {
  }

  method WriteDocCommentLines(printer: Printer, lines: seq<string>)
    modifies printer`out
    ensures printer.out == old(printer.out) + BodyLines(printer.indent, lines)
  {
    ghost var target := printer.out + BodyLines(printer.indent, lines);
    for i := 0 to |lines|
      invariant printer.out + BodyLines(printer.indent, lines[i..]) == target
    {
      BodyAdvances(printer.out, printer.indent, lines, i);
      if lines[i] != "" && lines[i][0] == '/' {
        printer.PrintLine(" * " + lines[i]);
      } else {
        printer.PrintLine(" *" + lines[i]);
      }
    }
    NothingBehind(lines);
    NothingBehind(printer.out);
  }

  method WriteDocCommentBody(printer: Printer, lines: seq<string>, surroundWithPreTag: bool)
    modifies printer`out
    ensures printer.out == old(printer.out) + Body(printer.indent, lines, surroundWithPreTag)
  {
    if lines != [] {
      if surroundWithPreTag {
        printer.PrintLine(" * <pre>");
      }
      WriteDocCommentLines(printer, lines);
      if surroundWithPreTag {
        printer.PrintLine(" * </pre>");
        AssociateThree(old(printer.out), Line(printer.indent, " * <pre>"), BodyLines(printer.indent, lines),
                       Line(printer.indent, " * </pre>"));
      }
    }
  }

  // Service and method comments set the tags, plain ones do not. Any comment text leaves the
  // lexer where it was: the brackets and comment marks inside count for nothing.
  method WriteDocComment(printer: Printer, comments: string, surroundWithPreTag: bool)
    modifies printer`out
    ensures printer.out == old(printer.out) + DocText(printer.indent, DocLines(comments), surroundWithPreTag)
    ensures old(printer.Lexed()).Lexer? && old(printer.Lexed()).mode == Code ==> printer.Lexed() == old(printer.Lexed())
  {
    printer.PrintLine("/**");
    var lines := GetDocLines(comments);
    WriteDocCommentBody(printer, lines, surroundWithPreTag);
    printer.PrintLine(" */");
    ghost var doc := DocText(printer.indent, lines, surroundWithPreTag);
    AssociateThree(old(printer.out), Line(printer.indent, "/**"), Body(printer.indent, lines, surroundWithPreTag),
                   Line(printer.indent, " */"));
    RunConcatenation(START, old(printer.out), doc);
    ghost var l := old(printer.Lexed());
    if l.Lexer? && l.mode == Code {
      DocCommentIsOneComment(printer.indent, comments, surroundWithPreTag, l.open);
    }
  }

  // ---------- the doc comment is one comment ----------

  // Safe text that the next text can follow, whatever it starts with.
  predicate Block(s: string) {
    Safe(s) && (s != "" ==> s[|s| - 1] == '\n')
  }

  lemma BlockConcatenation(a: string, b: string)
    requires Block(a) && Block(b)
    ensures Block(a + b)
  {
  }

  lemma LineIsBlock(pad: nat, text: string)
    requires Safe(text)
    ensures Block(Line(pad, text))
  {
  }

  lemma BodyLineIsSafe(line: string)
    requires DocLine(line)
    ensures Safe(BodyLine(line))
  {
  }

  lemma {:induction false} BodyLinesAreBlock(pad: nat, lines: seq<string>)
    requires forall i | 0 <= i < |lines| :: DocLine(lines[i])
    ensures Block(BodyLines(pad, lines))
  {
    if lines != [] {
      BodyLineIsSafe(lines[0]);
      LineIsBlock(pad, BodyLine(lines[0]));
      BodyLinesAreBlock(pad, lines[1..]);
      BlockConcatenation(Line(pad, BodyLine(lines[0])), BodyLines(pad, lines[1..]));
    }
  }

  lemma BodyIsBlock(pad: nat, lines: seq<string>, pre: bool)
    requires forall i | 0 <= i < |lines| :: DocLine(lines[i])
    ensures Block(Body(pad, lines, pre))
  {
    BodyLinesAreBlock(pad, lines);
    if pre && lines != [] {
      TagsAreBlocks(pad);
      BlocksInARow(Line(pad, " * <pre>"), BodyLines(pad, lines), Line(pad, " * </pre>"));
    }
  }

  lemma TagsAreBlocks(pad: nat)
    ensures Block(Line(pad, " * <pre>")) && Block(Line(pad, " * </pre>"))
  {
    LineIsBlock(pad, " * <pre>");
    LineIsBlock(pad, " * </pre>");
  }

  lemma BlocksInARow(a: string, b: string, c: string)
    requires Block(a) && Block(b) && Block(c)
    ensures Block(a + b + c)
  {
    BlockConcatenation(a, b);
    BlockConcatenation(a + b, c);
  }

  // All of the comment between its first two and its last character.
  function Interior(pad: nat, body: string): string {
    "*\n" + body + (Spaces(pad) + " *")
  }

  lemma InteriorIsSafe(pad: nat, body: string)
    requires Block(body)
    ensures Safe(Interior(pad, body)) && |Interior(pad, body)| >= 2
    ensures Interior(pad, body)[|Interior(pad, body)| - 1] == '*'
  {
  }

  lemma DocTextParts(pad: nat, lines: seq<string>, pre: bool)
    ensures DocText(pad, lines, pre) == Spaces(pad) + "/*" + Interior(pad, Body(pad, lines, pre)) + "/\n"
  {
  }

  // A comment whose interior is safe opens with its second character, stays at depth one up to
  // its last, and closes there.
  lemma SafeInteriorIsOneComment(pad: nat, interior: string, open: Stack)
    requires Safe(interior) && interior != "" && interior[|interior| - 1] == '*'
    ensures var doc, start := Spaces(pad) + "/*" + interior + "/\n", Lexer(Code, open);
            && (forall n | pad + 2 <= n <= |doc| - 2 :: Depth(Run(start, doc[..n])) == 1)
            && Run(start, doc[..|doc| - 1]) == start && Run(start, doc) == start
  {
    var doc, start := Spaces(pad) + "/*" + interior + "/\n", Lexer(Code, open);
    var head, inside := Spaces(pad) + "/*", Lexer(Comment(1), open);
    SpacesDoNothing(open, pad);
    RunConcatenation(start, Spaces(pad), "/*");
    assert Run(start, head) == inside;
    forall n | pad + 2 <= n <= |doc| - 2 ensures Depth(Run(start, doc[..n])) == 1 {
      var i := n - (pad + 2);
      assert doc[..n] == head + interior[..i];
      RunConcatenation(start, head, interior[..i]);
      SafeTextStaysInside(inside, interior, i);
    }
    assert interior[..|interior|] == interior;
    SafeTextStaysInside(inside, interior, |interior|);
    RunConcatenation(start, head, interior);
    RunConcatenation(start, head + interior, "/");
    RunConcatenation(start, head + interior, "/\n");
    assert doc[..|doc| - 1] == head + interior + "/";
  }

  // For any comment text and any indentation: from its opening to its last slash the printed
  // doc comment is at depth exactly one, and that slash closes it.
  lemma DocCommentIsOneComment(pad: nat, text: string, pre: bool, open: Stack)
    ensures var doc, start := DocText(pad, DocLines(text), pre), Lexer(Code, open);
            && (forall n | pad + 2 <= n <= |doc| - 2 :: Depth(Run(start, doc[..n])) == 1)
            && Run(start, doc[..|doc| - 1]) == start && Run(start, doc) == start
  {
    var lines := DocLines(text);
    var body := Body(pad, lines, pre);
    DocLinesAreSafe(text);
    BodyIsBlock(pad, lines, pre);
    InteriorIsSafe(pad, body);
    DocTextParts(pad, lines, pre);
    SafeInteriorIsOneComment(pad, Interior(pad, body), open);
  }

  // ---------- the doc comment holds the comment ----------

  // A printed line is the first piece of what it starts.
  lemma LineIsOnePiece(pad: nat, text: string, rest: string)
    requires '\n' !in text && text != ""
    ensures Pieces(Line(pad, text) + rest, "\n") == [Spaces(pad) + text] + Pieces(rest, "\n")
  {
    var line := Spaces(pad) + text;
    assert forall c | c in line :: c !in "\n";
    Associate(line, ['\n'], rest);
    RunIsOnePiece(line, "\n");
    DelimiterCuts(line, '\n', rest, "\n");
  }

  // A line of the comment: the leading asterisk, and a space exactly where a slash would follow it.
  function Margin(line: string): string {
    if "/" <= line then " * " else " *"
  }

  function Margined(pad: nat, lines: seq<string>): (r: seq<string>)
    ensures |r| == |lines| && forall i | 0 <= i < |r| :: r[i] == Spaces(pad) + Margin(lines[i]) + lines[i]
  {
    seq(|lines|, i requires 0 <= i < |lines| => Spaces(pad) + Margin(lines[i]) + lines[i])
  }

  lemma BodyLineIsMargined(pad: nat, line: string)
    requires DocLine(line)
    ensures Spaces(pad) + BodyLine(line) == Spaces(pad) + Margin(line) + line
    ensures '\n' !in BodyLine(line) && BodyLine(line) != ""
  {
    Associate(Spaces(pad), Margin(line), line);
  }

  lemma {:induction false} BodyLinesReadBack(pad: nat, lines: seq<string>, rest: string)
    requires forall i | 0 <= i < |lines| :: DocLine(lines[i])
    ensures Pieces(BodyLines(pad, lines) + rest, "\n") == Margined(pad, lines) + Pieces(rest, "\n")
  {
    if lines == [] {
      assert "" + rest == rest && [] + Pieces(rest, "\n") == Pieces(rest, "\n");
    } else {
      var more := BodyLines(pad, lines[1..]);
      BodyLinesReadBack(pad, lines[1..], rest);
      BodyLineIsMargined(pad, lines[0]);
      LineIsOnePiece(pad, BodyLine(lines[0]), more + rest);
      Associate(Line(pad, BodyLine(lines[0])), more, rest);
      assert Margined(pad, lines) == [Spaces(pad) + Margin(lines[0]) + lines[0]] + Margined(pad, lines[1..]);
      Associate([Spaces(pad) + Margin(lines[0]) + lines[0]], Margined(pad, lines[1..]), Pieces(rest, "\n"));
    }
  }

  // The lines of a comment around `raw`: the opening, the opening tag if asked for, one line for
  // each raw line in order, the closing tag and the closing.
  ghost predicate Encloses(lines: seq<string>, pad: nat, tags: bool, raw: seq<string>) {
    var first := if tags then 2 else 1;
    && |lines| == |raw| + 2 * first
    && lines[0] == Spaces(pad) + "/**" && lines[|lines| - 1] == Spaces(pad) + " */"
    && (tags ==> lines[1] == Spaces(pad) + " * <pre>" && lines[|lines| - 2] == Spaces(pad) + " * </pre>")
    && AllReadAs(lines[first..|lines| - first], pad, raw)
  }

  ghost predicate AllReadAs(lines: seq<string>, pad: nat, raw: seq<string>) {
    |lines| == |raw| && forall i | 0 <= i < |raw| :: ReadsAs(lines[i], pad, raw[i])
  }

  // For any comment text, any indentation and either choice of tags, the lines of the printed doc
  // comment enclose the non-empty lines of the text.
  lemma DocCommentReadsBack(pad: nat, text: string, pre: bool)
    ensures var raw := Pieces(text, "\n");
            Encloses(Pieces(DocText(pad, DocLines(text), pre), "\n"), pad, pre && raw != [], raw)
  {
    var docs, raw := DocLines(text), Pieces(text, "\n");
    DocLinesAreSafe(text);
    DocLinesUndone(text);
    DocTextLines(pad, docs, pre);
    forall i | 0 <= i < |docs| ensures ReadsAs(Margined(pad, docs)[i], pad, raw[i]) {
      MarginReadsAs(pad, docs[i], raw[i]);
    }
    FramedLines(pad, pre && docs != [], Margined(pad, docs), raw);
  }

  lemma FramedLines(pad: nat, tags: bool, middle: seq<string>, raw: seq<string>)
    requires AllReadAs(middle, pad, raw)
    ensures Encloses(Opening(pad, tags) + middle + Closing(pad, tags), pad, tags, raw)
  {
    Between(Opening(pad, tags), middle, Closing(pad, tags));
  }

  lemma Between(x: seq<string>, y: seq<string>, z: seq<string>)
    requires x != [] && z != []
    ensures var s := x + y + z;
            && s[0] == x[0] && s[|s| - 1] == z[|z| - 1]
            && (|x| > 1 ==> s[1] == x[1]) && (|z| > 1 ==> s[|s| - 2] == z[|z| - 2])
            && s[|x|..|s| - |z|] == y
  {
  }

  function Opening(pad: nat, tags: bool): seq<string> {
    [Spaces(pad) + "/**"] + if tags then [Spaces(pad) + " * <pre>"] else []
  }

  function Closing(pad: nat, tags: bool): seq<string> {
    (if tags then [Spaces(pad) + " * </pre>"] else []) + [Spaces(pad) + " */"]
  }

  lemma DocTextLines(pad: nat, docs: seq<string>, pre: bool)
    requires forall i | 0 <= i < |docs| :: DocLine(docs[i])
    ensures Pieces(DocText(pad, docs, pre), "\n") ==
            Opening(pad, pre && docs != []) + Margined(pad, docs) + Closing(pad, pre && docs != [])
  {
    if docs == [] {
      BareLines(pad);
    } else if pre {
      TaggedLines(pad, docs);
      RegroupLines([Spaces(pad) + "/**"], [Spaces(pad) + " * <pre>"], Margined(pad, docs),
                   [Spaces(pad) + " * </pre>"], [Spaces(pad) + " */"]);
    } else {
      PlainLines(pad, docs);
      RegroupLines([Spaces(pad) + "/**"], [], Margined(pad, docs), [], [Spaces(pad) + " */"]);
    }
  }

  lemma RegroupLines(a: seq<string>, b: seq<string>, m: seq<string>, c: seq<string>, d: seq<string>)
    ensures a + (b + (m + (c + d))) == a + b + m + (c + d)
    ensures b == c == [] ==> a + (m + d) == a + b + m + (c + d)
  {
  }

  lemma BareLines(pad: nat)
    ensures Pieces(DocText(pad, [], true), "\n") == Pieces(DocText(pad, [], false), "\n") ==
            Opening(pad, false) + Margined(pad, []) + Closing(pad, false)
  {
    NothingBehind(Line(pad, "/**"));
    LineIsOnePiece(pad, "/**", Line(pad, " */"));
    ClosingLines(pad);
    RegroupLines([Spaces(pad) + "/**"], [], [], [], [Spaces(pad) + " */"]);
    assert Margined(pad, []) == [];
  }

  lemma PlainLines(pad: nat, docs: seq<string>)
    requires docs != [] && forall i | 0 <= i < |docs| :: DocLine(docs[i])
    ensures Pieces(DocText(pad, docs, false), "\n") ==
            [Spaces(pad) + "/**"] + (Margined(pad, docs) + [Spaces(pad) + " */"])
  {
    var close := Line(pad, " */");
    ClosingLines(pad);
    Associate(Line(pad, "/**"), BodyLines(pad, docs), close);
    LineIsOnePiece(pad, "/**", BodyLines(pad, docs) + close);
    BodyLinesReadBack(pad, docs, close);
  }

  // Behind the margin stands a text without markup that decodes to the raw line.
  ghost predicate ReadsAs(line: string, pad: nat, raw: string) {
    exists e: string :: line == Spaces(pad) + Margin(e) + e && Unescape(e) == raw && DocLine(e)
  }

  lemma MarginReadsAs(pad: nat, e: string, raw: string)
    requires Unescape(e) == raw && DocLine(e)
    ensures ReadsAs(Spaces(pad) + Margin(e) + e, pad, raw)
  {
  }

  lemma ClosingLines(pad: nat)
    ensures Pieces(Line(pad, " */"), "\n") == [Spaces(pad) + " */"]
  {
    NothingBehind(Line(pad, " */"));
    LineIsOnePiece(pad, " */", "");
  }

  lemma RegroupTexts(a: string, b: string, m: string, c: string, d: string)
    ensures a + (b + m + c) + d == a + (b + (m + (c + d)))
  {
  }

  lemma TaggedLines(pad: nat, docs: seq<string>)
    requires docs != [] && forall i | 0 <= i < |docs| :: DocLine(docs[i])
    ensures Pieces(DocText(pad, docs, true), "\n") ==
            [Spaces(pad) + "/**"] + ([Spaces(pad) + " * <pre>"] + (Margined(pad, docs)
            + ([Spaces(pad) + " * </pre>"] + [Spaces(pad) + " */"])))
  {
    var a, b, c, d := Line(pad, "/**"), Line(pad, " * <pre>"), Line(pad, " * </pre>"), Line(pad, " */");
    var body := BodyLines(pad, docs);
    RegroupTexts(a, b, body, c, d);
    ClosingLines(pad);
    LineIsOnePiece(pad, " * </pre>", d);
    BodyLinesReadBack(pad, docs, c + d);
    LineIsOnePiece(pad, " * <pre>", body + (c + d));
    LineIsOnePiece(pad, "/**", b + (body + (c + d)));
  }
}
