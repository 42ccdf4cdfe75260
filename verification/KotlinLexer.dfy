/**
 As much of Kotlin's lexical grammar as brackets and comments need: delimited comments nest, and
 brackets count outside comments only. Brackets that do not match are rejected.
 */
module KotlinLexer {
  import opened Kotlindoc

  datatype Mode =
    | Code
    | Slash                     // a '/' that may start a comment
    | LineComment
    | Comment(depth: nat)
    | CommentStar(depth: nat)   // a '*' that may end a comment
    | CommentSlash(depth: nat)  // a '/' that may start a nested one

  // The brackets still open, the innermost on top.
  datatype Stack = Empty | Over(bracket: char, below: Stack)

  datatype Lexer = Lexer(mode: Mode, open: Stack) | Rejected

  const START := Lexer(Code, Empty)

  function Step(l: Lexer, c: char): Lexer {
    if l.Rejected? then Rejected
    else
      match l.mode
      case Code => CodeStep(l.open, c)
      case Slash =>
        if c == '*' then l.(mode := Comment(1)) else if c == '/' then l.(mode := LineComment) else CodeStep(l.open, c)
      case LineComment => if c == '\n' then l.(mode := Code) else l
      case Comment(d) => l.(mode := CommentStep(d, c))
      case CommentStar(d) =>
        if c == '/' then l.(mode := if d <= 1 then Code else Comment(d - 1)) else l.(mode := CommentStep(d, c))
      case CommentSlash(d) =>
        if c == '*' then l.(mode := Comment(d + 1)) else l.(mode := CommentStep(d, c))
  }

  function CommentStep(depth: nat, c: char): Mode {
    if c == '*' then CommentStar(depth) else if c == '/' then CommentSlash(depth) else Comment(depth)
  }

  function CodeStep(open: Stack, c: char): Lexer {
    match c
    case '/' => Lexer(Slash, open)
    case '(' => Lexer(Code, Over('(', open))
    case '[' => Lexer(Code, Over('[', open))
    case '{' => Lexer(Code, Over('{', open))
    case ')' => Closed(open, '(')
    case ']' => Closed(open, '[')
    case '}' => Closed(open, '{')
    case _ => Lexer(Code, open)
  }

  function Closed(open: Stack, bracket: char): Lexer {
    if open.Over? && open.bracket == bracket then Lexer(Code, open.below) else Rejected
  }

  predicate Matches(open: char, close: char) {
    (open == '(' && close == ')') || (open == '[' && close == ']') || (open == '{' && close == '}')
  }

  function Run(l: Lexer, s: string): Lexer
    decreases s
  {
    if s == "" then l else Run(Step(l, s[0]), s[1..])
  }

  // How many comments are open.
  function Depth(l: Lexer): nat {
    if l.Rejected? then 0
    else
      match l.mode
      case Comment(d) => d
      case CommentStar(d) => d
      case CommentSlash(d) => d
      case _ => 0
  }

  lemma {:induction false} RunConcatenation(l: Lexer, a: string, b: string)
    ensures Run(l, a + b) == Run(Run(l, a), b)
    decreases a
  {
    if a == "" {
      assert a + b == b;
    } else {
      assert (a + b)[1..] == a[1..] + b;
      RunConcatenation(Step(l, a[0]), a[1..], b);
    }
  }

  // Safe text leaves the comment depth alone all the way, as long as its first character does not
  // complete a marker with the character before it.
  lemma {:induction false} SafeTextStaysInside(l: Lexer, s: string, i: nat)
    requires l.Lexer? && Depth(l) == 1 && Safe(s) && i <= |s|
    requires s != "" ==> !(l.mode.CommentStar? && s[0] == '/') && !(l.mode.CommentSlash? && s[0] == '*')
    ensures Run(l, s[..i]) == if i == 0 then l else l.(mode := CommentStep(1, s[i - 1]))
    decreases s
  {
    if i > 0 {
      var next := l.(mode := CommentStep(1, s[0]));
      assert Step(l, s[0]) == next;
      assert s[..i][1..] == s[1..][..i - 1];
      SafeTail(s);
      SafeTextStaysInside(next, s[1..], i - 1);
    }
  }

  lemma {:induction false} SpacesDoNothing(open: Stack, n: nat)
    ensures Run(Lexer(Code, open), seq(n, i => ' ')) == Lexer(Code, open)
  {
    if n > 0 {
      assert seq(n, i => ' ')[1..] == seq(n - 1, i => ' ');
      SpacesDoNothing(open, n - 1);
    }
  }

  // ---------- calls ----------

  // The brackets of a call whose arguments are calls, to the given depth.
  function Call(depth: nat): string {
    if depth == 0 then "" else "(" + Call(depth - 1) + ")"
  }

  // Calls one after the other.
  function Calls(depths: seq<nat>): string {
    if depths == [] then "" else Call(depths[0]) + Calls(depths[1..])
  }

  lemma {:induction false} CallIsNested(open: Stack, depth: nat)
    ensures Run(Lexer(Code, open), Call(depth)) == Lexer(Code, open)
    decreases depth
  {
    if depth > 0 {
      var inside := Lexer(Code, Over('(', open));
      RunConcatenation(Lexer(Code, open), "(" + Call(depth - 1), ")");
      RunConcatenation(Lexer(Code, open), "(", Call(depth - 1));
      assert Run(Lexer(Code, open), "(") == inside;
      CallIsNested(Over('(', open), depth - 1);
      assert Run(inside, ")") == Lexer(Code, open);
    }
  }

  lemma {:induction false} CallsAreNested(open: Stack, depths: seq<nat>)
    ensures Run(Lexer(Code, open), Calls(depths)) == Lexer(Code, open)
  {
    if depths != [] {
      RunConcatenation(Lexer(Code, open), Call(depths[0]), Calls(depths[1..]));
      CallIsNested(open, depths[0]);
      CallsAreNested(open, depths[1..]);
    }
  }
}
