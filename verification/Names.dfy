/** Identifier conversions of the generator, in the C locale. */
module Names {
  import opened Wrappers

  predicate IsLower(c: char) {
    'a' <= c <= 'z'
  }

  predicate IsUpper(c: char) {
    'A' <= c <= 'Z'
  }

  function ToUpper(c: char): char {
    if IsLower(c) then (c as int - 32) as char else c
  }

  function ToLower(c: char): char {
    if IsUpper(c) then (c as int + 32) as char else c
  }

  function Lowered(s: string): (r: string)
    ensures |r| == |s|
  {
    if s == "" then "" else [ToLower(s[0])] + Lowered(s[1..])
  }

  // word[0] of an empty std::string is the terminating NUL.
  function First(word: string): char {
    if word == "" then '\0' else word[0]
  }

  function Rest(word: string): string {
    if word == "" then "" else word[1..]
  }

  // Underscores go, and the character behind one is capitalized.
  function Camel(s: string, afterUnderscore: bool): string {
    if s == "" then ""
    else if s[0] == '_' then Camel(s[1..], true)
    else [if afterUnderscore then ToUpper(s[0]) else s[0]] + Camel(s[1..], false)
  }

  function LowerCamel(word: string): string {
    [ToLower(First(word))] + Camel(Rest(word), false)
  }

  method MixedLower(word: string) returns (w: string)
    ensures w == LowerCamel(word)
  {
    w := [ToLower(First(word))];
    var afterUnderscore := false;
    var i := 1;
    while i < |word|
      invariant w + Camel(if i <= |word| then word[i..] else "", afterUnderscore) == LowerCamel(word)
    {
      TailOfTail(word, i);
      CamelStep(word[i], word[i + 1..], afterUnderscore);
      HeadAndTail(word[i..]);
      if word[i] == '_' {
        afterUnderscore := true;
      } else {
        Associate(w, [if afterUnderscore then ToUpper(word[i]) else word[i]], Camel(word[i + 1..], false));
        w := w + [if afterUnderscore then ToUpper(word[i]) else word[i]];
        afterUnderscore := false;
      }
      i := i + 1;
    }
  }

  // What stands between two neighbouring characters.
  function Separator(a: char, b: char): string {
    if IsLower(a) && IsUpper(b) then "_" else ""
  }

  function AllUpper(word: string): string {
    if word == "" then ""
    else if |word| == 1 then [ToUpper(word[0])]
    else [ToUpper(word[0])] + Separator(word[0], word[1]) + AllUpper(word[1..])
  }

  lemma RegroupText(w: string, x: string, y: string, z: string)
    ensures w + (x + (y + z)) == w + x + y + z && (y == "" ==> w + x + y == w + x)
  {
  }

  lemma AllUpperFrom(word: string, i: nat)
    requires i < |word|
    ensures AllUpper(word[i..]) ==
            [ToUpper(word[i])]
            + ((if i + 1 < |word| then Separator(word[i], word[i + 1]) else "") + AllUpper(word[i + 1..]))
  {
    assert word[i..][1..] == word[i + 1..];
  }

  method ToAllUpperCase(word: string) returns (w: string)
    ensures w == AllUpper(word)
  {
    w := "";
    for i := 0 to |word|
      invariant w + AllUpper(word[i..]) == AllUpper(word)
    {
      AllUpperFrom(word, i);
      RegroupText(w, [ToUpper(word[i])], if i + 1 < |word| then Separator(word[i], word[i + 1]) else "",
                  AllUpper(word[i + 1..]));
      w := w + [ToUpper(word[i])];
      if i < |word| - 1 && IsLower(word[i]) && IsUpper(word[i + 1]) {
        w := w + "_";
      }
    }
  }

  // ---------- both conversions are idempotent ----------

  lemma {:induction false} CamelHasNoUnderscore(s: string, afterUnderscore: bool)
    ensures '_' !in Camel(s, afterUnderscore)
  {
    if s != "" {
      CamelHasNoUnderscore(s[1..], s[0] == '_');
    }
  }

  lemma {:induction false} CamelKeeps(s: string)
    requires '_' !in s
    ensures Camel(s, false) == s
  {
    if s != "" {
      CamelKeeps(s[1..]);
      assert s == [s[0]] + s[1..];
    }
  }

  lemma LowerCamelIdempotent(word: string)
    ensures LowerCamel(LowerCamel(word)) == LowerCamel(word)
  {
    var rest := Camel(Rest(word), false);
    CamelHasNoUnderscore(Rest(word), false);
    CamelKeeps(rest);
    assert Rest(LowerCamel(word)) == rest;
  }

  lemma {:induction false} AllUpperHasNoLower(word: string)
    ensures forall c | c in AllUpper(word) :: !IsLower(c)
  {
    if |word| > 1 {
      AllUpperHasNoLower(word[1..]);
    }
  }

  lemma {:induction false} AllUpperKeeps(word: string)
    requires forall c | c in word :: !IsLower(c)
    ensures AllUpper(word) == word
  {
    if |word| > 1 {
      AllUpperKeeps(word[1..]);
      assert word[0] in word;
      assert word == [word[0]] + word[1..];
    } else if |word| == 1 {
      assert word[0] in word;
    }
  }

  lemma AllUpperIdempotent(word: string)
    ensures AllUpper(AllUpper(word)) == AllUpper(word)
  {
    AllUpperHasNoLower(word);
    AllUpperKeeps(AllUpper(word));
  }

  // ---------- from the constant's name back to the function's ----------

  // Every capital after the first character starts a word: it follows a lower-case letter, or an
  // underscore that is not the leading one.
  predicate CapitalsStartWords(word: string) {
    forall i | 1 <= i < |word| && IsUpper(word[i]) :: IsLower(word[i - 1]) || (word[i - 1] == '_' && i > 1)
  }

  // The lower-cased constant, read on behind the character p.
  function ConstantTail(p: char, s: string): string
    decreases s
  {
    if s == "" then "" else Separator(p, s[0]) + [ToLower(s[0])] + ConstantTail(s[0], s[1..])
  }

  lemma {:induction false} LoweredAllUpper(word: string)
    requires word != ""
    ensures Lowered(AllUpper(word)) == [ToLower(word[0])] + ConstantTail(word[0], word[1..])
  {
    if |word| > 1 {
      LoweredAllUpper(word[1..]);
      LoweredStep(ToUpper(word[0]), Separator(word[0], word[1]), AllUpper(word[1..]));
      Associate(Separator(word[0], word[1]), [ToLower(word[1])], ConstantTail(word[1], word[2..]));
    }
  }

  lemma LoweredStep(c: char, separator: string, more: string)
    requires separator == "" || separator == "_"
    ensures Lowered([c] + separator + more) == [ToLower(c)] + (separator + Lowered(more))
  {
    var s := [c] + separator + more;
    assert s[1..] == separator + more;
    if separator == "_" {
      assert (separator + more)[1..] == more;
      assert s[1..][0] == '_' && s[1..][1..] == more;
    } else {
      assert separator + more == more && separator + Lowered(more) == Lowered(more);
    }
  }

  // Behind p, the words of s are told apart by their capitals.
  predicate StartsWords(p: char, s: string, afterUnderscore: bool)
    decreases s
  {
    s != "" ==>
      && (IsUpper(s[0]) ==> IsLower(p) || afterUnderscore)
      && StartsWords(s[0], s[1..], s[0] == '_')
  }

  lemma {:induction false} CamelOfConstant(p: char, s: string, afterUnderscore: bool)
    requires afterUnderscore ==> p == '_'
    ensures Camel(ConstantTail(p, s), afterUnderscore) == Camel(s, afterUnderscore) <==>
            StartsWords(p, s, afterUnderscore)
    decreases s
  {
    if s != "" {
      var c, more := s[0], s[1..];
      CamelOfConstant(c, more, c == '_');
      CamelStep(c, more, afterUnderscore);
      assert [c] + more == s;
      CamelConstantStep(p, c, ConstantTail(c, more), afterUnderscore);
      if c != '_' {
        HeadsAndTails(HeadOfConstant(p, c, afterUnderscore), Camel(ConstantTail(c, more), false),
                      if afterUnderscore then ToUpper(c) else c, Camel(more, false));
      }
    }
  }

  // The character that comes out of the lower-cased constant for c behind p.
  function HeadOfConstant(p: char, c: char, afterUnderscore: bool): char {
    if afterUnderscore || Separator(p, c) == "_" then ToUpper(ToLower(c)) else ToLower(c)
  }

  lemma CamelConstantStep(p: char, c: char, more: string, afterUnderscore: bool)
    ensures Camel(Separator(p, c) + [ToLower(c)] + more, afterUnderscore) ==
            if c == '_' then Camel(more, true) else [HeadOfConstant(p, c, afterUnderscore)] + Camel(more, false)
  {
  }

  lemma CamelStep(c: char, s: string, afterUnderscore: bool)
    ensures Camel([c] + s, afterUnderscore) ==
            if c == '_' then Camel(s, true) else [if afterUnderscore then ToUpper(c) else c] + Camel(s, false)
  {
  }

  lemma HeadsAndTails(a: char, s: string, b: char, t: string)
    ensures [a] + s == [b] + t <==> a == b && s == t
  {
    if [a] + s == [b] + t {
      assert a == ([a] + s)[0] == b;
      assert s == ([a] + s)[1..] == t;
    }
  }

  lemma {:induction false} StartsWordsByIndex(word: string, k: nat)
    requires 1 <= k <= |word|
    ensures StartsWords(word[k - 1], word[k..], k > 1 && word[k - 1] == '_') <==>
            forall i | k <= i < |word| && IsUpper(word[i]) :: IsLower(word[i - 1]) || (word[i - 1] == '_' && i > 1)
    decreases |word| - k
  {
    if k < |word| {
      StartsWordsByIndex(word, k + 1);
      assert word[k..][1..] == word[k + 1..];
    }
  }

  // Lower-casing the constant's name and converting it gives the function's name if and only if
  // every capital starts a word.
  lemma ConstantRecoversName(word: string)
    ensures LowerCamel(Lowered(AllUpper(word))) == LowerCamel(word) <==> CapitalsStartWords(word)
  {
    if word != "" {
      var p, s := word[0], word[1..];
      var c := ConstantTail(p, s);
      LoweredAllUpper(word);
      assert Rest([ToLower(p)] + c) == c;
      CamelOfConstant(p, s, false);
      HeadsAndTails(ToLower(p), Camel(c, false), ToLower(p), Camel(s, false));
      StartsWordsByIndex(word, 1);
    }
  }

  // ---------- when names stay distinct ----------

  // A word as its letters, each behind a gap: the underscores written before it, or one where a
  // capital follows a lower-case letter directly. Underscores at the end are no letter's gap.
  datatype Letter = Letter(gap: nat, c: char)
  datatype Spacing = Spacing(letters: seq<Letter>, trailing: nat)

  function SpacingFrom(p: char, s: string, gap: nat): Spacing
    decreases s
  {
    if s == "" then Spacing([], gap)
    else if s[0] == '_' then SpacingFrom('_', s[1..], gap + 1)
    else
      var more := SpacingFrom(s[0], s[1..], 0);
      Spacing([Letter(gap + |Separator(p, s[0])|, s[0])] + more.letters, more.trailing)
  }

  function SpacingOf(s: string): Spacing {
    SpacingFrom('_', s, 0)
  }

  // A letter that is a capital or becomes one behind its gap.
  predicate Capital(l: Letter) {
    IsUpper(l.c) || (IsLower(l.c) && l.gap > 0)
  }

  predicate SameCapitals(x: seq<Letter>, y: seq<Letter>) {
    |x| == |y| && forall i | 0 <= i < |x| :: ToLower(x[i].c) == ToLower(y[i].c) && (Capital(x[i]) <==> Capital(y[i]))
  }

  function Shown(l: Letter): char {
    if l.gap > 0 then ToUpper(l.c) else l.c
  }

  function ShownText(x: seq<Letter>): string {
    if x == [] then "" else [Shown(x[0])] + ShownText(x[1..])
  }

  lemma SpacingOfUnderscore(p: char, s: string, gap: nat)
    ensures SpacingFrom(p, ['_'] + s, gap) == SpacingFrom('_', s, gap + 1)
  {
    assert (['_'] + s)[1..] == s;
  }

  lemma SpacingOfLetter(p: char, c: char, s: string, gap: nat)
    requires c != '_'
    ensures var more := SpacingFrom(c, s, 0);
            SpacingFrom(p, [c] + s, gap) == Spacing([Letter(gap + |Separator(p, c)|, c)] + more.letters, more.trailing)
  {
    assert ([c] + s)[1..] == s;
  }

  lemma {:induction false} CamelByLetter(p: char, s: string, gap: nat)
    ensures Camel(s, gap > 0) == ShownText(SpacingFrom(p, s, gap).letters)
    decreases s
  {
    if s != "" {
      var c, more := s[0], s[1..];
      assert s == [c] + more;
      CamelStep(c, more, gap > 0);
      if c == '_' {
        SpacingOfUnderscore(p, more, gap);
        CamelByLetter('_', more, gap + 1);
      } else {
        SpacingOfLetter(p, c, more, gap);
        CamelByLetter(c, more, 0);
        ShownStep(Letter(gap + |Separator(p, c)|, c), SpacingFrom(c, more, 0).letters);
      }
    }
  }

  lemma ShownStep(l: Letter, x: seq<Letter>)
    ensures ShownText([l] + x) == [Shown(l)] + ShownText(x)
  {
    assert ([l] + x)[1..] == x;
  }

  // For all words: two function names are equal exactly if the first characters and then the
  // letters agree up to case, with capitals at the same places.
  lemma FunctionNamesClash(a: string, b: string)
    ensures LowerCamel(a) == LowerCamel(b) <==>
            && ToLower(First(a)) == ToLower(First(b))
            && SameCapitals(SpacingOf(Rest(a)).letters, SpacingOf(Rest(b)).letters)
  {
    var x, y := SpacingOf(Rest(a)).letters, SpacingOf(Rest(b)).letters;
    CamelByLetter('_', Rest(a), 0);
    CamelByLetter('_', Rest(b), 0);
    HeadsAndTails(ToLower(First(a)), ShownText(x), ToLower(First(b)), ShownText(y));
    ShownEqual(x, y);
  }

  lemma {:induction false} ShownEqual(x: seq<Letter>, y: seq<Letter>)
    ensures ShownText(x) == ShownText(y) <==> SameCapitals(x, y)
  {
    if x != [] && y != [] {
      ShownEqual(x[1..], y[1..]);
      HeadsAndTails(Shown(x[0]), ShownText(x[1..]), Shown(y[0]), ShownText(y[1..]));
      assert x == [x[0]] + x[1..] && y == [y[0]] + y[1..];
    }
  }

  // The constant's name, read on behind the character p.
  function UpperBehind(p: char, s: string): string
    decreases s
  {
    if s == "" then "" else Separator(p, s[0]) + [ToUpper(s[0])] + UpperBehind(s[0], s[1..])
  }

  lemma {:induction false} AllUpperIsBehindNothing(word: string)
    ensures AllUpper(word) == UpperBehind('_', word)
  {
    if |word| > 1 {
      AllUpperIsBehindNothing(word[1..]);
    }
  }

  // The same letters up to case behind the same gaps, and as many underscores at the end.
  predicate SameSpacing(x: Spacing, y: Spacing) {
    && |x.letters| == |y.letters| && x.trailing == y.trailing
    && forall i | 0 <= i < |x.letters| ::
         x.letters[i].gap == y.letters[i].gap && ToUpper(x.letters[i].c) == ToUpper(y.letters[i].c)
  }

  lemma UpperStep(p: char, c: char, s: string)
    ensures UpperBehind(p, [c] + s) == Separator(p, c) + [ToUpper(c)] + UpperBehind(c, s)
    ensures c == '_' ==> UpperBehind(p, [c] + s) == ['_'] + UpperBehind(c, s)
  {
    assert ([c] + s)[1..] == s;
  }

  lemma SameInFront(k: Letter, x: Spacing, l: Letter, y: Spacing)
    requires k.gap == l.gap && ToUpper(k.c) == ToUpper(l.c) && SameSpacing(x, y)
    ensures SameSpacing(Spacing([k] + x.letters, x.trailing), Spacing([l] + y.letters, y.trailing))
  {
  }

  // The constant's name has the spacing of the word itself.
  lemma {:induction false} UpperKeepsSpacing(p: char, s: string, gap: nat, q: char)
    requires !IsLower(q)
    ensures SameSpacing(SpacingFrom(q, UpperBehind(p, s), gap), SpacingFrom(p, s, gap))
    decreases s
  {
    if s != "" {
      var c, more := s[0], s[1..];
      var u, upper := ToUpper(c), UpperBehind(c, more);
      assert s == [c] + more;
      UpperStep(p, c, more);
      if c == '_' {
        UpperKeepsSpacing('_', more, gap + 1, '_');
        SpacingOfUnderscore(p, more, gap);
        SpacingOfUnderscore(q, upper, gap);
      } else {
        UpperKeepsSpacing(c, more, 0, u);
        SpacingOfLetter(p, c, more, gap);
        SpacingOfUpperLetter(q, u, upper, gap, Separator(p, c));
        SameInFront(Letter(gap + |Separator(p, c)|, u), SpacingFrom(u, upper, 0),
                    Letter(gap + |Separator(p, c)|, c), SpacingFrom(c, more, 0));
      }
    }
  }

  lemma SpacingOfUpperLetter(q: char, u: char, s: string, gap: nat, separator: string)
    requires u != '_' && !IsLower(q) && (separator == "" || separator == "_")
    ensures var more := SpacingFrom(u, s, 0);
            SpacingFrom(q, separator + [u] + s, gap) ==
            Spacing([Letter(gap + |separator|, u)] + more.letters, more.trailing)
  {
    SpacingOfLetter(q, u, s, gap);
    SpacingOfLetter('_', u, s, gap + 1);
    SpacingOfUnderscore(q, [u] + s, gap);
    assert separator + [u] + s == if separator == "" then [u] + s else ['_'] + ([u] + s);
  }

  function Underscores(n: nat): string {
    if n == 0 then "" else Underscores(n - 1) + "_"
  }

  // The constant's name written from its spacing.
  function TextOf(letters: seq<Letter>, trailing: nat): string {
    if letters == [] then Underscores(trailing)
    else Underscores(letters[0].gap) + [ToUpper(letters[0].c)] + TextOf(letters[1..], trailing)
  }

  lemma {:induction false} UpperByLetter(p: char, s: string, gap: nat)
    ensures var x := SpacingFrom(p, s, gap); Underscores(gap) + UpperBehind(p, s) == TextOf(x.letters, x.trailing)
    decreases s
  {
    if s == "" {
      assert Underscores(gap) + "" == Underscores(gap);
    } else {
      var c, more := s[0], s[1..];
      var u, upper := ToUpper(c), UpperBehind(c, more);
      assert s == [c] + more;
      if c == '_' {
        UpperByLetter('_', more, gap + 1);
        SpacingOfUnderscore(p, more, gap);
        assert UpperBehind(p, s) == ['_'] + upper;
        assert Underscores(gap) + (['_'] + upper) == Underscores(gap + 1) + upper;
      } else {
        UpperByLetter(c, more, 0);
        SpacingOfLetter(p, c, more, gap);
        assert UpperBehind(p, s) == Separator(p, c) + [u] + upper;
        TextStep(Letter(gap + |Separator(p, c)|, c), SpacingFrom(c, more, 0), gap, Separator(p, c), upper);
      }
    }
  }

  lemma TextStep(l: Letter, x: Spacing, gap: nat, separator: string, upper: string)
    requires separator == "" || separator == "_"
    requires l.gap == gap + |separator| && Underscores(0) + upper == TextOf(x.letters, x.trailing)
    ensures Underscores(gap) + (separator + [ToUpper(l.c)] + upper) == TextOf([l] + x.letters, x.trailing)
  {
    assert ([l] + x.letters)[1..] == x.letters;
    assert Underscores(0) + upper == upper;
    UnderscoreAgain(gap, separator);
    AssociateFour(Underscores(gap), separator, [ToUpper(l.c)], upper);
  }

  lemma UnderscoreAgain(gap: nat, separator: string)
    requires separator == "" || separator == "_"
    ensures Underscores(gap) + separator == Underscores(gap + |separator|)
  {
  }

  lemma AssociateFour(x: string, y: string, z: string, w: string)
    ensures x + (y + z + w) == x + y + z + w
  {
  }

  lemma {:induction false} SameSpacingSameText(x: seq<Letter>, y: seq<Letter>, trailing: nat)
    requires SameSpacing(Spacing(x, trailing), Spacing(y, trailing))
    ensures TextOf(x, trailing) == TextOf(y, trailing)
  {
    if x != [] {
      SameSpacingSameText(x[1..], y[1..], trailing);
    }
  }

  // For all words: two constants are equal exactly if the words have the same letters up to case,
  // the same gaps between them and as many underscores at the end.
  lemma ConstantNamesClash(a: string, b: string)
    ensures AllUpper(a) == AllUpper(b) <==> SameSpacing(SpacingOf(a), SpacingOf(b))
  {
    AllUpperIsBehindNothing(a);
    AllUpperIsBehindNothing(b);
    UpperKeepsSpacing('_', a, 0, '_');
    UpperKeepsSpacing('_', b, 0, '_');
    if SameSpacing(SpacingOf(a), SpacingOf(b)) {
      UpperByLetter('_', a, 0);
      UpperByLetter('_', b, 0);
      SameSpacingSameText(SpacingOf(a).letters, SpacingOf(b).letters, SpacingOf(a).trailing);
      assert "" + AllUpper(a) == AllUpper(a) && "" + AllUpper(b) == AllUpper(b);
    }
  }

  // Letter by letter what the two conversions write. The function name: the first character, never
  // a capital, and then the letters, those behind underscores as capitals. The constant: the
  // letters as capitals, each behind its gap, and the underscores at the end.
  lemma ConversionsByLetter(word: string)
    ensures var name, spacing := LowerCamel(word), SpacingOf(word);
            && name == [ToLower(First(word))] + ShownText(SpacingOf(Rest(word)).letters) && !IsUpper(name[0])
            && ('_' !in Rest(word) ==> name[1..] == Rest(word)) && '_' !in name[1..]
            && AllUpper(word) == TextOf(spacing.letters, spacing.trailing)
            && (forall c | c in AllUpper(word) :: !IsLower(c))
  {
    CamelByLetter('_', Rest(word), 0);
    CamelHasNoUnderscore(Rest(word), false);
    if '_' !in Rest(word) {
      CamelKeeps(Rest(word));
    }
    assert LowerCamel(word)[1..] == Camel(Rest(word), false);
    AllUpperIsBehindNothing(word);
    UpperByLetter('_', word, 0);
    assert Underscores(0) + AllUpper(word) == AllUpper(word);
    AllUpperHasNoLower(word);
  }

  // The usual form of a method name: a capital first, every other capital behind a lower-case
  // letter, no underscore. It includes every name made of words that are a capital and lower-case letters.
  predicate MethodStyle(word: string) {
    word != "" && IsUpper(word[0]) && '_' !in word && CapitalsStartWords(word)
  }

  // On names of the usual form neither conversion makes two of them equal.
  lemma MethodStyleNamesStayDistinct(a: string, b: string)
    requires MethodStyle(a) && MethodStyle(b) && a != b
    ensures AllUpper(a) != AllUpper(b) && LowerCamel(a) != LowerCamel(b)
  {
    assert a == [a[0]] + a[1..] && b == [b[0]] + b[1..];
    CamelKeeps(a[1..]);
    CamelKeeps(b[1..]);
    HeadsAndTails(ToLower(a[0]), a[1..], ToLower(b[0]), b[1..]);
    ConstantRecoversName(a);
    ConstantRecoversName(b);
  }

  // Elsewhere they do: a name of the usual form against one with a run of capitals, and one with
  // an underscore against one without.
  lemma OtherNamesClash()
    ensures AllUpper("Foo") == AllUpper("FOO") && MethodStyle("Foo") && !MethodStyle("FOO")
    ensures LowerCamel("fooBar") == LowerCamel("foo_bar") && '_' in "foo_bar"
  {
    assert AllUpper("oo") == "OO" && AllUpper("OO") == "OO";
    assert Camel("ooBar", false) == "ooBar" by {
      CamelKeeps("ooBar");
    }
    assert Camel("_bar", false) == "Bar" by {
      CamelKeeps("ar");
      assert Camel("bar", true) == ['B'] + Camel("ar", false);
    }
    assert Camel("oo_bar", false) == ['o'] + (['o'] + Camel("_bar", false));
    assert "FOO"[1] == 'O';
  }
}
