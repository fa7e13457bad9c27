/** Last-writer-wins over a sequence of optional updates, and the values a
    sequence of optional results yields: the two shapes every element loop of
    the project reader has. */
module Sequences {
  import opened Wrappers

  /** The value `f` yields for the last element of `xs` for which it yields
      one; `d` when it yields none. */
  function LastOf<X, T>(xs: seq<X>, f: X -> Option<T>, d: T): T {
    if |xs| == 0 then d
    else
      match f(xs[|xs| - 1])
      case Some(v) => v
      case None => LastOf(xs[..|xs| - 1], f, d)
  }

  /** With no element yielding a value, the starting value is kept. */
  lemma {:induction false} LastOfNoWriter<X, T>(xs: seq<X>, f: X -> Option<T>, d: T)
    requires forall i :: 0 <= i < |xs| ==> f(xs[i]).None?
    ensures LastOf(xs, f, d) == d
  {
    if |xs| > 0 {
      var init := xs[..|xs| - 1];
      assert forall i :: 0 <= i < |init| ==> init[i] == xs[i];
      LastOfNoWriter(init, f, d);
    }
  }

  /** With some element yielding a value, the result is the value of the last such element. */
  lemma {:induction false} LastOfLastWriter<X, T>(xs: seq<X>, f: X -> Option<T>, d: T, i: nat)
    requires i < |xs| && f(xs[i]).Some?
    ensures exists k :: i <= k < |xs| && f(xs[k]) == Some(LastOf(xs, f, d)) &&
                        forall j :: k < j < |xs| ==> f(xs[j]).None?
  {
    var n := |xs|;
    if f(xs[n - 1]).None? {
      var init := xs[..n - 1];
      LastOfLastWriter(init, f, d, i);
      var k :| i <= k < |init| && f(init[k]) == Some(LastOf(init, f, d)) &&
               forall j :: k < j < |init| ==> f(init[j]).None?;
      assert xs[k] == init[k];
      assert forall j :: k < j < n ==> f(xs[j]).None? by {
        forall j | k < j < n ensures f(xs[j]).None? {
          if j < n - 1 { assert xs[j] == init[j]; }
        }
      }
    }
  }

  /** Appending elements continues from the value the first part left. */
  lemma {:induction false} LastOfAppend<X, T>(xs: seq<X>, ys: seq<X>, f: X -> Option<T>, d: T)
    ensures LastOf(xs + ys, f, d) == LastOf(ys, f, LastOf(xs, f, d))
  {
    if |ys| == 0 {
      assert xs + ys == xs;
    } else {
      var ys' := ys[..|ys| - 1];
      assert (xs + ys)[..|xs + ys| - 1] == xs + ys';
      LastOfAppend(xs, ys', f, d);
    }
  }

  /** One element at the end: its value, if any, wins. */
  lemma {:induction false} LastOfSnoc<X, T>(xs: seq<X>, x: X, f: X -> Option<T>, d: T)
    ensures LastOf(xs + [x], f, d) == f(x).GetOr(LastOf(xs, f, d))
  {
    assert (xs + [x])[..|xs|] == xs;
  }

  /** The last element's value, if any, wins over the rest. */
  lemma {:induction false} LastOfLast<X, T>(xs: seq<X>, f: X -> Option<T>, d: T)
    requires |xs| > 0
    ensures LastOf(xs, f, d) == f(xs[|xs| - 1]).GetOr(LastOf(xs[..|xs| - 1], f, d))
  {
  }

  /** One element in front: its value, if any, becomes the starting value. */
  lemma {:induction false} LastOfCons<X, T>(x: X, xs: seq<X>, f: X -> Option<T>, d: T)
    ensures LastOf([x] + xs, f, d) == LastOf(xs, f, f(x).GetOr(d))
  {
    LastOfAppend([x], xs, f, d);
    assert [x][..0] == [];
  }

  /** Replaying the same updates over their own result changes nothing. */
  lemma {:induction false} LastOfIdempotent<X, T>(xs: seq<X>, f: X -> Option<T>, d: T)
    ensures LastOf(xs, f, LastOf(xs, f, d)) == LastOf(xs, f, d)
  {
    if |xs| > 0 && f(xs[|xs| - 1]).None? {
      LastOfIdempotent(xs[..|xs| - 1], f, d);
    }
  }

  /** The starting value matters only when no element yields a value. */
  lemma {:induction false} LastOfStart<X, T>(xs: seq<X>, f: X -> Option<T>, d: T, e: T)
    ensures LastOf(xs, f, d) == LastOf(xs, f, e) || (LastOf(xs, f, d) == d && LastOf(xs, f, e) == e)
  {
    if |xs| > 0 && f(xs[|xs| - 1]).None? {
      LastOfStart(xs[..|xs| - 1], f, d, e);
    }
  }

  /** The values `f` yields over `xs`, in order. */
  function Values<X, T>(xs: seq<X>, f: X -> Option<T>): (r: seq<T>)
    ensures |r| <= |xs|
    ensures forall i :: 0 <= i < |xs| && f(xs[i]).Some? ==> f(xs[i]).value in r
    ensures forall k :: 0 <= k < |r| ==> exists i :: 0 <= i < |xs| && f(xs[i]) == Some(r[k])
  {
    if |xs| == 0 then []
    else
      var init := xs[..|xs| - 1];
      assert forall i :: 0 <= i < |init| ==> init[i] == xs[i];
      match f(xs[|xs| - 1])
      case Some(v) => Values(init, f) + [v]
      case None => Values(init, f)
  }

  /** Collecting over a concatenation collects over each part in turn. */
  lemma {:induction false} ValuesAppend<X, T>(xs: seq<X>, ys: seq<X>, f: X -> Option<T>)
    ensures Values(xs + ys, f) == Values(xs, f) + Values(ys, f)
  {
    if |ys| == 0 {
      assert xs + ys == xs;
    } else {
      var ys' := ys[..|ys| - 1];
      assert (xs + ys)[..|xs + ys| - 1] == xs + ys';
      ValuesAppend(xs, ys', f);
    }
  }

  /** Concatenation regroups freely. */
  lemma AppendAssociates<T>(a: seq<T>, b: seq<T>, c: seq<T>)
    ensures a + (b + c) == (a + b) + c
  {
  }

  /** The last element adds its value, if any, after the values of the rest. */
  lemma {:induction false} ValuesLast<X, T>(xs: seq<X>, f: X -> Option<T>)
    requires |xs| > 0
    ensures Values(xs, f) == Values(xs[..|xs| - 1], f) + f(xs[|xs| - 1]).ToSeq()
  {
  }

  /** No element occurs twice. */
  predicate NoDuplicates<T(==)>(s: seq<T>) {
    forall i, j :: 0 <= i < j < |s| ==> s[i] != s[j]
  }

  /** The first occurrence of each element of `xs`, in order. */
  function Dedup<T(==,!new)>(xs: seq<T>): (r: seq<T>)
    ensures forall x :: x in r <==> x in xs
    ensures NoDuplicates(r)
  {
    if |xs| == 0 then []
    else
      var init, x := xs[..|xs| - 1], xs[|xs| - 1];
      assert forall y :: y in xs <==> y in init || y == x;
      if x in init then Dedup(init) else Dedup(init) + [x]
  }

  /** One more element is kept exactly when it has not occurred yet. */
  lemma {:induction false} DedupSnoc<T(!new)>(xs: seq<T>, x: T)
    ensures Dedup(xs + [x]) == if x in xs then Dedup(xs) else Dedup(xs) + [x]
  {
    assert (xs + [x])[..|xs|] == xs;
  }

  /** A sequence without repeats is its own deduplication. */
  lemma {:induction false} DedupOfDistinct<T(!new)>(xs: seq<T>)
    requires NoDuplicates(xs)
    ensures Dedup(xs) == xs
  {
    if |xs| > 0 {
      var init := xs[..|xs| - 1];
      assert xs[|xs| - 1] !in init by {
        forall i | 0 <= i < |init| ensures init[i] != xs[|xs| - 1] {
          assert init[i] == xs[i];
        }
      }
      DedupOfDistinct(init);
      assert init + [xs[|xs| - 1]] == xs;
    }
  }
}
