/** Escaping of user comment text, and the lines of a doc comment made from it. */
module Kotlindoc {
  import opened Wrappers
  import opened Lines

  function EscapeChar(prev: char, c: char): string {
    match c
    case '*' => if prev == '/' then "&#42;" else "*"
    case '/' => if prev == '*' then "&#47;" else "/"
    case '@' => "&#64;"
    case '<' => "&lt;"
    case '>' => "&gt;"
    case '&' => "&amp;"
    case '\\' => "&#92;"
    case _ => [c]
  }

  // The state is the raw character before, not what was written for it.
  function EscapeFrom(prev: char, s: string): string
    decreases s
  {
    if s == "" then "" else EscapeChar(prev, s[0]) + EscapeFrom(s[0], s[1..])
  }

  method EscapeKotlindoc(input: string) returns (result: string)
    ensures result == EscapeFrom('*', input)
  {
    result := "";
    var prev := '*';
    for i := 0 to |input|
      invariant result + EscapeFrom(prev, input[i..]) == EscapeFrom('*', input)
    {
      var c := input[i];
      ghost var before := result;
      match c {
        case '*' => result := result + if prev == '/' then "&#42;" else "*";
        case '/' => result := result + if prev == '*' then "&#47;" else "/";
        case '@' => result := result + "&#64;";
        case '<' => result := result + "&lt;";
        case '>' => result := result + "&gt;";
        case '&' => result := result + "&amp;";
        case '\\' => result := result + "&#92;";
        case _ => result := result + [c];
      }
      Advance(before, EscapeChar(prev, c), input, i, prev);
      prev := c;
    }
  }

  lemma Advance(before: string, e: string, input: string, i: nat, prev: char)
    requires i < |input| && e == EscapeChar(prev, input[i])
    ensures before + e + EscapeFrom(input[i], input[i + 1..]) == before + EscapeFrom(prev, input[i..])
  {
  }

  // ---------- the escape can be undone ----------

  datatype Reference = Reference(c: char, length: nat)

  // The character references of section 5.3 of HTML 4.01 that the escape uses.
  function ReferenceAt(s: string): Option<Reference> {
    if "&#42;" <= s then Some(Reference('*', 5))
    else if "&#47;" <= s then Some(Reference('/', 5))
    else if "&#64;" <= s then Some(Reference('@', 5))
    else if "&lt;" <= s then Some(Reference('<', 4))
    else if "&gt;" <= s then Some(Reference('>', 4))
    else if "&amp;" <= s then Some(Reference('&', 5))
    else if "&#92;" <= s then Some(Reference('\\', 5))
    else None
  }

  function Unescape(s: string): string
    decreases |s|
  {
    if s == "" then ""
    else
      var r := ReferenceAt(s);
      if r.Some? then [r.value.c] + Unescape(s[r.value.length..]) else [s[0]] + Unescape(s[1..])
  }

  // What is written for one character: itself, or a reference to it.
  lemma ReferenceOfEscape(prev: char, c: char, t: string)
    ensures var e := EscapeChar(prev, c);
            && e != ""
            && (e[0] == '&' ==> ReferenceAt(e + t) == Some(Reference(c, |e|)))
            && (e[0] != '&' ==> e == [c] && ReferenceAt(e + t) == None)
            && (forall i | 1 <= i < |e| :: e[i] != '&')
  {
    var e := EscapeChar(prev, c);
    var s := e + t;
    assert s[..|e|] == e;
    if e[0] == '&' {
      assert e <= s;
      assert |e| == 5 ==> s[3] == e[3] && s[2] == e[2] && s[1] == e[1];
      assert |e| == 4 ==> s[1] == e[1];
    } else {
      assert s[0] == c != '&';
    }
  }

  lemma {:induction false} EscapeUndone(prev: char, s: string)
    ensures Unescape(EscapeFrom(prev, s)) == s
    decreases s
  {
    if s != "" {
      var e, t := EscapeChar(prev, s[0]), EscapeFrom(s[0], s[1..]);
      ReferenceOfEscape(prev, s[0], t);
      assert (e + t)[|e|..] == t;
      EscapeUndone(s[0], s[1..]);
      assert s == [s[0]] + s[1..];
    }
  }

  predicate AmpersandsStartReferences(s: string) {
    forall i | 0 <= i < |s| && s[i] == '&' :: ReferenceAt(s[i..]).Some?
  }

  lemma AmpersandsConcatenation(e: string, t: string)
    requires e != "" && (e[0] == '&' ==> ReferenceAt(e + t).Some?) && (forall i | 1 <= i < |e| :: e[i] != '&')
    requires AmpersandsStartReferences(t)
    ensures AmpersandsStartReferences(e + t)
  {
    forall i | 0 <= i < |e + t| && (e + t)[i] == '&' ensures ReferenceAt((e + t)[i..]).Some? {
      if i == 0 {
        assert (e + t)[0..] == e + t;
      } else {
        assert i >= |e|;
        TailBehind(e, t, i);
      }
    }
  }

  lemma {:induction false} EveryAmpersandStartsAReference(prev: char, s: string)
    ensures AmpersandsStartReferences(EscapeFrom(prev, s))
    decreases s
  {
    if s != "" {
      EveryAmpersandStartsAReference(s[0], s[1..]);
      ReferenceOfEscape(prev, s[0], EscapeFrom(s[0], s[1..]));
      AmpersandsConcatenation(EscapeChar(prev, s[0]), EscapeFrom(s[0], s[1..]));
    }
  }

  // ---------- what is escaped, and what is not ----------

  // What means something in HTML, in KDoc or in Kotlin, and the second character of a comment marker.
  predicate MustEscape(prev: char, c: char) {
    c in "@<>&\\" || (prev == '*' && c == '/') || (prev == '/' && c == '*')
  }

  function Decimal(digits: string): int {
    if digits == "" then 0 else 10 * Decimal(digits[..|digits| - 1]) + (digits[|digits| - 1] as int - '0' as int)
  }

  // A character reference by number, or one of the three names used.
  predicate RefersTo(e: string, c: char) {
    || (c == '<' && e == "&lt;") || (c == '>' && e == "&gt;") || (c == '&' && e == "&amp;")
    || (|e| == 5 && e[..2] == "&#" && e[4] == ';' && Decimal(e[2..4]) == c as int)
  }

  lemma EscapeOfCharacter(prev: char, c: char)
    ensures if MustEscape(prev, c) then RefersTo(EscapeChar(prev, c), c) else EscapeChar(prev, c) == [c]
  {
    var e := EscapeChar(prev, c);
    if |e| == 5 && c != '&' {
      assert e[2..4] == [e[2], e[3]] && e[2..4][..1] == [e[2]] && [e[2]][..0] == "";
      assert Decimal([e[2]]) == 10 * Decimal("") + (e[2] as int - '0' as int);
      assert e[..2] == "&#";
    }
  }

  // The output grows by one piece a character: a reference to the character where it must be
  // escaped, and the character itself everywhere else.
  lemma EscapeIsPerCharacter(prev: char, s: string, i: nat)
    requires i < |s|
    ensures var before, after := EscapeFrom(prev, s[..i]), EscapeFrom(prev, s[..i + 1]);
            var p := if i == 0 then prev else s[i - 1];
            && before <= after
            && var piece := after[|before|..];
               if MustEscape(p, s[i]) then RefersTo(piece, s[i]) else piece == [s[i]]
  {
    var p := if i == 0 then prev else s[i - 1];
    assert s[..i + 1] == s[..i] + [s[i]];
    EscapeConcatenation(prev, s[..i], [s[i]]);
    OneCharacter(p, s[i]);
    EscapeOfCharacter(p, s[i]);
    TailBehind(EscapeFrom(prev, s[..i]), EscapeChar(p, s[i]), |EscapeFrom(prev, s[..i])|);
  }

  lemma OneCharacter(p: char, c: char)
    ensures EscapeFrom(p, [c]) == EscapeChar(p, c)
  {
    assert [c][1..] == "" && EscapeFrom(c, "") == "";
    NothingBehind(EscapeChar(p, c));
  }

  predicate MarkupFree(s: string) {
    forall c | c in s :: c !in "@<>\\"
  }

  // So neither a tag, an annotation nor a Unicode escape is left in it.
  lemma {:induction false} EscapeIsMarkupFree(prev: char, s: string)
    ensures MarkupFree(EscapeFrom(prev, s))
    decreases s
  {
    if s != "" {
      EscapeIsMarkupFree(s[0], s[1..]);
      CharacterIsMarkupFree(prev, s[0]);
    }
  }

  lemma CharacterIsMarkupFree(prev: char, c: char)
    ensures MarkupFree(EscapeChar(prev, c))
  {
  }

  // ---------- the escape is safe inside a comment ----------

  predicate SafePair(a: char, b: char) {
    !(a == '*' && b == '/') && !(a == '/' && b == '*')
  }

  // Neither a comment start nor a comment end.
  predicate Safe(s: string) {
    forall i | 0 <= i < |s| - 1 :: SafePair(s[i], s[i + 1])
  }

  lemma SafeConcatenation(a: string, b: string)
    requires Safe(a) && Safe(b) && (a != "" && b != "" ==> SafePair(a[|a| - 1], b[0]))
    ensures Safe(a + b)
  {
  }

  lemma SafeTail(s: string)
    requires Safe(s) && s != ""
    ensures Safe(s[1..]) && (|s| > 1 ==> SafePair(s[0], s[1]))
  {
  }

  // Safe in itself, and behind any raw character the state speaks of.
  lemma {:induction false} EscapeIsSafe(prev: char, s: string)
    ensures Safe(EscapeFrom(prev, s))
    ensures EscapeFrom(prev, s) != "" ==> SafePair(prev, EscapeFrom(prev, s)[0])
    decreases s
  {
    if s != "" {
      var e, t := EscapeChar(prev, s[0]), EscapeFrom(s[0], s[1..]);
      EscapeIsSafe(s[0], s[1..]);
      assert Safe(e) && SafePair(prev, e[0]);
      assert e[|e| - 1] == s[0] || e[|e| - 1] == ';';
      SafeConcatenation(e, t);
    }
  }

  // ---------- escaping commutes with line splitting ----------

  function EscapeLines(lines: seq<string>): (r: seq<string>)
    ensures |r| == |lines| && forall i | 0 <= i < |r| :: r[i] == EscapeFrom('\n', lines[i])
  {
    seq(|lines|, i requires 0 <= i < |lines| => EscapeFrom('\n', lines[i]))
  }

  // The non-empty lines of the raw text, each escaped on its own; only a line at offset 0 starts
  // in the state behind the opening asterisks.
  function DocLines(text: string): seq<string> {
    var lines := Pieces(text, "\n");
    if text != "" && text[0] != '\n' then [EscapeFrom('*', lines[0])] + EscapeLines(lines[1..]) else EscapeLines(lines)
  }

  lemma {:induction false} EscapeConcatenation(prev: char, a: string, b: string)
    ensures EscapeFrom(prev, a + b) == EscapeFrom(prev, a) + EscapeFrom(if a == "" then prev else a[|a| - 1], b)
    decreases a
  {
    if a == "" {
      assert a + b == b;
    } else {
      assert (a + b)[1..] == a[1..] + b;
      EscapeConcatenation(a[0], a[1..], b);
    }
  }

  lemma {:induction false} EscapeKeepsNewlinesOut(prev: char, s: string)
    requires '\n' !in s
    ensures '\n' !in EscapeFrom(prev, s)
    ensures s != "" ==> EscapeFrom(prev, s) != ""
    decreases s
  {
    if s != "" {
      EscapeKeepsNewlinesOut(s[0], s[1..]);
      assert s[0] in s;
      assert '\n' !in EscapeChar(prev, s[0]) && EscapeChar(prev, s[0]) != "";
    }
  }

  lemma EscapeOfNewline(prev: char, s: string)
    requires s != "" && s[0] == '\n'
    ensures EscapeFrom(prev, s) == ['\n'] + EscapeFrom('\n', s[1..])
  {
  }

  lemma PiecesOfNewline(s: string)
    ensures Pieces(['\n'] + s, "\n") == Pieces(s, "\n")
  {
    assert (['\n'] + s)[1..] == s;
  }

  lemma {:induction false} SplitOfEscape(prev: char, s: string)
    ensures var k := RunLength(s, "\n");
            Pieces(EscapeFrom(prev, s), "\n") ==
            if k == 0 then EscapeLines(Pieces(s, "\n"))
            else [EscapeFrom(prev, s[..k])] + EscapeLines(Pieces(s[k..], "\n"))
    decreases |s|
  {
    var k := RunLength(s, "\n");
    if s == "" {
    } else if k == 0 {
      EscapeOfNewline(prev, s);
      PiecesOfNewline(EscapeFrom('\n', s[1..]));
      SplitEscapedLine(s[1..]) by { SplitOfEscape('\n', s[1..]); }
    } else {
      assert s == s[..k] + s[k..];
      if k < |s| {
        SplitEscapedLine(s[k..][1..]) by { SplitOfEscape('\n', s[k..][1..]); }
      }
      SplitBehindRun(prev, s[..k], s[k..]);
    }
  }

  // A line and what follows its line break.
  lemma SplitBehindRun(prev: char, run: string, rest: string)
    requires run != "" && '\n' !in run
    requires rest != "" ==>
               rest[0] == '\n' && Pieces(EscapeFrom('\n', rest[1..]), "\n") == EscapeLines(Pieces(rest[1..], "\n"))
    ensures Pieces(EscapeFrom(prev, run + rest), "\n") == [EscapeFrom(prev, run)] + EscapeLines(Pieces(rest, "\n"))
  {
    var e := EscapeFrom(prev, run);
    EscapeConcatenation(prev, run, rest);
    EscapeKeepsNewlinesOut(prev, run);
    RunIsOnePiece(e, "\n");
    if rest == "" {
      NothingBehind(e);
    } else {
      var more := EscapeFrom('\n', rest[1..]);
      EscapeOfNewline(run[|run| - 1], rest);
      Associate(e, ['\n'], more);
      DelimiterCuts(e, '\n', more, "\n");
      HeadAndTail(rest);
      PiecesOfNewline(rest[1..]);
    }
  }

  // From the newline state the two cases of the split are one.
  lemma SplitEscapedLine(s: string)
    requires var k := RunLength(s, "\n");
             Pieces(EscapeFrom('\n', s), "\n") ==
             if k == 0 then EscapeLines(Pieces(s, "\n"))
             else [EscapeFrom('\n', s[..k])] + EscapeLines(Pieces(s[k..], "\n"))
    ensures Pieces(EscapeFrom('\n', s), "\n") == EscapeLines(Pieces(s, "\n"))
  {
    var k := RunLength(s, "\n");
    if k > 0 {
      EscapeFirstLine(s[..k], Pieces(s[k..], "\n"));
    }
  }

  lemma EscapeFirstLine(line: string, lines: seq<string>)
    ensures EscapeLines([line] + lines) == [EscapeFrom('\n', line)] + EscapeLines(lines)
  {
  }

  lemma EscapeCommutesWithSplit(text: string)
    ensures Pieces(EscapeFrom('*', text), "\n") == DocLines(text)
  {
    SplitOfEscape('*', text);
  }

  // Dropping empty lines at the end, as the loop of GetDocLines does.
  function TrimEnd(lines: seq<string>): seq<string> {
    if lines != [] && lines[|lines| - 1] == "" then TrimEnd(lines[..|lines| - 1]) else lines
  }

  method GetDocLines(comments: string) returns (lines: seq<string>)
    ensures lines == DocLines(comments)
  {
    lines := [];
    if comments != "" {
      var escaped := EscapeKotlindoc(comments);
      lines := Split(escaped, "\n");
      ghost var split := lines;
      while lines != [] && lines[|lines| - 1] == ""
        invariant TrimEnd(lines) == TrimEnd(split)
        decreases |lines|
      {
        lines := lines[..|lines| - 1];
      }
      TrimmingDoesNothing(escaped);
      EscapeCommutesWithSplit(comments);
    }
  }

  // The splitter leaves no empty piece, so the trimming loop never runs.
  lemma TrimmingDoesNothing(s: string)
    ensures TrimEnd(Pieces(s, "\n")) == Pieces(s, "\n")
  {
    PiecesAreDelimiterFree(s, "\n");
    var pieces := Pieces(s, "\n");
    assert pieces != [] ==> pieces[|pieces| - 1] in pieces;
  }

  // Line by line, for any property that escaping establishes from either state.
  lemma DocLineAt(text: string, i: nat)
    requires i < |DocLines(text)|
    ensures i < |Pieces(text, "\n")|
    ensures DocLines(text)[i] == EscapeFrom(if i == 0 && text[0] != '\n' then '*' else '\n', Pieces(text, "\n")[i])
  {
    if text != "" && text[0] != '\n' {
      FirstLineApart(Pieces(text, "\n"), i);
    }
  }

  lemma FirstLineApart(lines: seq<string>, i: nat)
    requires lines != [] && i < |lines|
    ensures ([EscapeFrom('*', lines[0])] + EscapeLines(lines[1..]))[i] ==
            EscapeFrom(if i == 0 then '*' else '\n', lines[i])
  {
  }

  // Undoing the escape of the doc lines gives the non-empty lines of the comment.
  lemma DocLinesUndone(text: string)
    ensures |DocLines(text)| == |Pieces(text, "\n")|
    ensures forall i | 0 <= i < |DocLines(text)| :: Unescape(DocLines(text)[i]) == Pieces(text, "\n")[i]
  {
    forall i | 0 <= i < |DocLines(text)| ensures Unescape(DocLines(text)[i]) == Pieces(text, "\n")[i] {
      DocLineAt(text, i);
      EscapeUndone(if i == 0 && text[0] != '\n' then '*' else '\n', Pieces(text, "\n")[i]);
    }
  }

  predicate DocLine(line: string) {
    Safe(line) && line != "" && '\n' !in line && MarkupFree(line)
  }

  lemma EscapedLineIsDocLine(prev: char, line: string)
    requires line != "" && '\n' !in line
    ensures DocLine(EscapeFrom(prev, line))
  {
    EscapeIsSafe(prev, line);
    EscapeKeepsNewlinesOut(prev, line);
    EscapeIsMarkupFree(prev, line);
  }

  lemma LineIsClean(text: string, i: nat)
    requires i < |Pieces(text, "\n")|
    ensures Pieces(text, "\n")[i] != "" && '\n' !in Pieces(text, "\n")[i]
  {
    PiecesAreDelimiterFree(text, "\n");
    var line := Pieces(text, "\n")[i];
    assert line in Pieces(text, "\n");
    assert forall c | c in line :: c !in "\n";
    assert '\n' in "\n";
  }

  // Every doc line is safe, not empty, and holds no line break and no markup.
  lemma DocLinesAreSafe(text: string)
    ensures forall i | 0 <= i < |DocLines(text)| :: DocLine(DocLines(text)[i])
  {
    forall i | 0 <= i < |DocLines(text)| ensures DocLine(DocLines(text)[i]) {
      DocLineAt(text, i);
      LineIsClean(text, i);
      EscapedLineIsDocLine(if i == 0 && text[0] != '\n' then '*' else '\n', Pieces(text, "\n")[i]);
    }
  }
}
