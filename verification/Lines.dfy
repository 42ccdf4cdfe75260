/** The generator's string splitter: its one-character fast path and its general path. */
module Lines {
  import opened Wrappers

  // The length of the longest prefix without a delimiter.
  function RunLength(s: string, delim: string): (k: nat)
    ensures k <= |s| && (forall i | 0 <= i < k :: s[i] !in delim) && (k < |s| ==> s[k] in delim)
  {
    if s == "" || s[0] in delim then 0 else 1 + RunLength(s[1..], delim)
  }

  // The maximal delimiter-free runs, in order.
  function Pieces(s: string, delim: string): seq<string>
    decreases |s|
  {
    if s == "" then []
    else if s[0] in delim then Pieces(s[1..], delim)
    else [s[..RunLength(s, delim)]] + Pieces(s[RunLength(s, delim)..], delim)
  }

  lemma RunLengthIs(s: string, delim: string, k: nat)
    requires k <= |s| && (forall i | 0 <= i < k :: s[i] !in delim) && (k < |s| ==> s[k] in delim)
    ensures RunLength(s, delim) == k
  {
  }

  // A piece that ends at `end` is taken off the front.
  lemma TakePiece(full: string, delim: string, start: nat, end: nat)
    requires start < end <= |full| && (forall i | start <= i < end :: full[i] !in delim)
    requires end < |full| ==> full[end] in delim
    ensures Pieces(full[start..], delim) == [full[start..end]] + Pieces(full[end..], delim)
  {
    RunLengthIs(full[start..], delim, end - start);
    assert full[start..][..end - start] == full[start..end];
    assert full[start..][end - start..] == full[end..];
  }

  lemma {:induction false} SkipDelimiters(full: string, delim: string, from: nat, to: nat)
    requires from <= to <= |full| && forall i | from <= i < to :: full[i] in delim
    ensures Pieces(full[from..], delim) == Pieces(full[to..], delim)
    decreases |full| - from
  {
    if from < to {
      assert full[from..][1..] == full[from + 1..];
      SkipDelimiters(full, delim, from + 1, to);
    }
  }

  lemma TakeRun(result: seq<string>, full: string, c: char, start: nat, end: nat)
    requires start < end <= |full| && (forall i | start <= i < end :: full[i] != c)
    requires end < |full| ==> full[end] == c
    ensures result + Pieces(full[start..], [c]) == result + [full[start..end]] + Pieces(full[end..], [c])
  {
    TakePiece(full, [c], start, end);
    Associate(result, [full[start..end]], Pieces(full[end..], [c]));
  }

  method SplitOnCharacter(full: string, c: char) returns (result: seq<string>)
    ensures result == Pieces(full, [c])
  {
    result := [];
    var p := 0;
    while p != |full|
      invariant p <= |full|
      invariant result + Pieces(full[p..], [c]) == Pieces(full, [c])
      decreases |full| - p
    {
      if full[p] == c {
        SkipDelimiters(full, [c], p, p + 1);
        p := p + 1;
      } else {
        var start := p;
        p := p + 1;
        while p != |full| && full[p] != c
          invariant start < p <= |full|
          invariant forall i | start <= i < p :: full[i] != c
          decreases |full| - p
        {
          p := p + 1;
        }
        TakeRun(result, full, c, start, p);
        result := result + [full[start..p]];
      }
    }
  }

  // find_first_of (wanted) and find_first_not_of (not wanted); None is npos.
  function Find(s: string, delim: string, from: nat, wanted: bool): (r: Option<nat>)
    requires from <= |s|
    ensures r.Some? ==> from <= r.value < |s| && (s[r.value] in delim) == wanted
    ensures forall i | from <= i < (if r.Some? then r.value else |s|) :: (s[i] in delim) != wanted
    decreases |s| - from
  {
    if from == |s| then None
    else if (s[from] in delim) == wanted then Some(from)
    else Find(s, delim, from + 1, wanted)
  }

  method SplitOnAny(full: string, delim: string) returns (result: seq<string>)
    ensures result == Pieces(full, delim)
  {
    result := [];
    var begin := Find(full, delim, 0, false);
    SkipDelimiters(full, delim, 0, if begin.Some? then begin.value else |full|);
    assert full[0..] == full;
    while begin.Some?
      invariant begin.Some? ==> begin.value < |full| && full[begin.value] !in delim
      invariant result + Pieces(full[if begin.Some? then begin.value else |full|..], delim) == Pieces(full, delim)
      decreases if begin.Some? then |full| - begin.value else -1
    {
      var end := Find(full, delim, begin.value, true);
      if end.None? {
        TakePiece(full, delim, begin.value, |full|);
        assert full[begin.value..|full|] == full[begin.value..];
        return result + [full[begin.value..]];
      }
      TakePiece(full, delim, begin.value, end.value);
      Associate(result, [full[begin.value..end.value]], Pieces(full[end.value..], delim));
      result := result + [full[begin.value..end.value]];
      begin := Find(full, delim, end.value, false);
      SkipDelimiters(full, delim, end.value, if begin.Some? then begin.value else |full|);
    }
  }

  // Both paths meet one specification, so the fast path is only faster.
  method Split(full: string, delim: string) returns (result: seq<string>)
    ensures result == Pieces(full, delim)
  {
    if |delim| == 1 {
      result := SplitOnCharacter(full, delim[0]);
      assert delim == [delim[0]];
    } else {
      result := SplitOnAny(full, delim);
    }
  }

  // ---------- what the pieces are ----------

  lemma {:induction false} PiecesAreDelimiterFree(s: string, delim: string)
    ensures forall piece | piece in Pieces(s, delim) :: piece != "" && forall c | c in piece :: c !in delim
    decreases |s|
  {
    if s != "" {
      if s[0] in delim {
        PiecesAreDelimiterFree(s[1..], delim);
      } else {
        PiecesAreDelimiterFree(s[RunLength(s, delim)..], delim);
      }
    }
  }

  function Concatenated(pieces: seq<string>): string {
    if pieces == [] then "" else pieces[0] + Concatenated(pieces[1..])
  }

  function Without(s: string, delim: string): string {
    if s == "" then "" else (if s[0] in delim then "" else [s[0]]) + Without(s[1..], delim)
  }

  lemma {:induction false} WithoutRun(s: string, delim: string, k: nat)
    requires k <= |s| && forall i | 0 <= i < k :: s[i] !in delim
    ensures Without(s, delim) == s[..k] + Without(s[k..], delim)
  {
    if k > 0 {
      WithoutRun(s[1..], delim, k - 1);
      assert s[..k] == [s[0]] + s[1..][..k - 1];
      assert s[1..][k - 1..] == s[k..];
    }
  }

  lemma {:induction false} PiecesConcatenate(s: string, delim: string)
    ensures Concatenated(Pieces(s, delim)) == Without(s, delim)
    decreases |s|
  {
    if s != "" {
      if s[0] in delim {
        PiecesConcatenate(s[1..], delim);
      } else {
        var k := RunLength(s, delim);
        WithoutRun(s, delim, k);
        PiecesConcatenate(s[k..], delim);
      }
    }
  }

  // A delimiter cuts, wherever it stands. With the two cases of a text without delimiters this
  // determines the pieces of every text.
  lemma {:induction false} DelimiterCuts(a: string, d: char, b: string, delim: string)
    requires d in delim
    ensures Pieces(a + [d] + b, delim) == Pieces(a, delim) + Pieces(b, delim)
    decreases |a|
  {
    var more := [d] + b;
    Associate(a, [d], b);
    if a == "" {
      assert more[1..] == b && a + more == more;
    } else if a[0] in delim {
      HeadBeforeTail(a, 1, more);
      DelimiterCuts(a[1..], d, b, delim);
      Associate(a[1..], [d], b);
    } else {
      var k := RunLength(a, delim);
      HeadBeforeTail(a, k, more);
      RunLengthIs(a + more, delim, k);
      DelimiterCuts(a[k..], d, b, delim);
      Associate(a[k..], [d], b);
      Associate([a[..k]], Pieces(a[k..], delim), Pieces(b, delim));
    }
  }

  lemma HeadBeforeTail(a: string, k: nat, more: string)
    requires k <= |a|
    ensures (a + more)[..k] == a[..k] && (a + more)[k..] == a[k..] + more
  {
  }

  lemma RunIsOnePiece(s: string, delim: string)
    requires forall c | c in s :: c !in delim
    ensures Pieces(s, delim) == if s == "" then [] else [s]
  {
    if s != "" {
      RunLengthIs(s, delim, |s|);
      assert s[..|s|] == s && s[|s|..] == "";
    }
  }
}
