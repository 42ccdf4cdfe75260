/** Failure-compatible datatypes, a source exception being an `Err` value, and sequences. */
module Wrappers {

  datatype Option<+T> = None | Some(value: T)

  datatype Result<+T, +E> = Ok(value: T) | Err(error: E) {

    predicate IsFailure() {
      Err?
    }

    function PropagateFailure<U>(): Result<U, E>
      requires Err?
    {
      Err(error)
    }

    function Extract(): T
      requires Ok?
    {
      value
    }
  }

  // The function applied to each item.
  function Each<A, B>(items: seq<A>, f: A -> B): (r: seq<B>)
    ensures |r| == |items| && forall i | 0 <= i < |r| :: r[i] == f(items[i])
  {
    seq(|items|, i requires 0 <= i < |items| => f(items[i]))
  }

  lemma EachGrows<A, B>(items: seq<A>, f: A -> B, i: nat)
    requires i < |items|
    ensures Each(items[..i + 1], f) == Each(items[..i], f) + [f(items[i])]
  {
  }

  // ---------- sequences ----------

  lemma Associate<T>(x: seq<T>, y: seq<T>, z: seq<T>)
    ensures x + y + z == x + (y + z)
  {
  }

  lemma NothingBehind<T>(x: seq<T>)
    ensures x + [] == x && x[|x|..] == [] && x[..|x|] == x
  {
  }

  lemma HeadAndTail<T>(s: seq<T>)
    requires s != []
    ensures s == [s[0]] + s[1..]
  {
  }

  lemma InitAndLast<T>(s: seq<T>)
    requires s != []
    ensures s == s[..|s| - 1] + [s[|s| - 1]]
  {
  }

  // One more item is taken off a rest.
  lemma TailOfTail<T>(s: seq<T>, i: nat)
    requires i < |s|
    ensures s[i..] != [] && s[i..][0] == s[i] && s[i..][1..] == s[i + 1..]
  {
  }

  // A rest that starts in the second part is a rest of it.
  lemma TailBehind<T>(x: seq<T>, y: seq<T>, i: nat)
    requires |x| <= i <= |x + y|
    ensures (x + y)[i..] == y[i - |x|..]
  {
  }
}
