/** Sequence vocabulary shared by the models. */
module Sequences {

  datatype Option<+T> = None | Some(value: T)

  /** The last `n` elements of `s`, or all of `s` when it is shorter. */
  function LastN<T>(s: seq<T>, n: nat): (r: seq<T>)
    ensures |r| == if |s| < n then |s| else n
  {
    if |s| <= n then s else s[|s| - n..]
  }

  lemma ConcatAssoc<T>(a: seq<T>, b: seq<T>, c: seq<T>)
    ensures (a + b) + c == a + (b + c)
  {
  }

  lemma SuffixOfSuffix<T>(s: seq<T>, a: nat, k: nat)
    requires a + k <= |s|
    ensures s[a..][k..] == s[a + k..]
  {
  }

  /** Where the last `n` elements of a suffix start. */
  function LastStart(len: nat, a: nat, n: nat): nat {
    if a + n < len then len - n else a
  }

  lemma LastNOfSuffix<T>(s: seq<T>, a: nat, n: nat)
    requires a <= |s|
    ensures LastN(s[a..], n) == s[LastStart(|s|, a, n)..]
  {
    if a + n < |s| {
      SuffixOfSuffix(s, a, |s| - a - n);
    }
  }

  function Flatten<T>(ss: seq<seq<T>>): seq<T> {
    if ss == [] then [] else ss[0] + Flatten(ss[1..])
  }

  lemma {:induction false} FlattenAppend<T>(a: seq<seq<T>>, b: seq<seq<T>>)
    ensures Flatten(a + b) == Flatten(a) + Flatten(b)
  {
    if a == [] {
      assert a + b == b;
    } else {
      assert (a + b)[1..] == a[1..] + b;
      FlattenAppend(a[1..], b);
    }
  }

  lemma {:induction false} InFlatten<T>(ss: seq<seq<T>>, s: seq<T>, x: T)
    requires s in ss && x in s
    ensures x in Flatten(ss)
  {
    if s != ss[0] {
      InFlatten(ss[1..], s, x);
    }
  }

  lemma {:induction false} FromFlatten<T>(ss: seq<seq<T>>, x: T) returns (i: nat)
    requires x in Flatten(ss)
    ensures i < |ss| && x in ss[i]
  {
    if x in ss[0] {
      i := 0;
    } else {
      i := FromFlatten(ss[1..], x);
      i := i + 1;
    }
  }

  lemma FlattenOne<T>(s: seq<T>)
    ensures Flatten([s]) == s
  {
    assert [s][1..] == [];
  }

  lemma {:induction false} FlattenSnoc<T>(ss: seq<seq<T>>, s: seq<T>)
    ensures Flatten(ss + [s]) == Flatten(ss) + s
  {
    FlattenAppend(ss, [s]);
    FlattenOne(s);
  }

  /** What `f` gives for each element, one after the other. */
  function FlatMap<A, B>(s: seq<A>, f: A -> seq<B>): seq<B> {
    if s == [] then [] else FlatMap(s[..|s| - 1], f) + f(s[|s| - 1])
  }

  lemma {:induction false} FlatMapSnoc<A, B>(s: seq<A>, x: A, f: A -> seq<B>)
    ensures FlatMap(s + [x], f) == FlatMap(s, f) + f(x)
  {
    assert (s + [x])[..|s|] == s;
  }

  lemma {:induction false} FlatMapConcat<A, B>(a: seq<A>, b: seq<A>, f: A -> seq<B>)
    ensures FlatMap(a + b, f) == FlatMap(a, f) + FlatMap(b, f)
    decreases |b|
  {
    if b == [] {
      assert a + b == a;
    } else {
      var front, x := b[..|b| - 1], b[|b| - 1];
      FlatMapConcat(a, front, f);
      FlatMapSnoc(a + front, x, f);
      ConcatAssoc(FlatMap(a, f), FlatMap(front, f), f(x));
      assert a + b == (a + front) + [x];
    }
  }

  /** When each element gives one, they come out one for one. */
  lemma {:induction false} FlatMapOnes<A, B>(s: seq<A>, f: A -> seq<B>, ys: seq<B>)
    requires |s| == |ys| && forall i :: 0 <= i < |s| ==> f(s[i]) == [ys[i]]
    ensures FlatMap(s, f) == ys
  {
    if s != [] {
      var n := |s| - 1;
      FlatMapOnes(s[..n], f, ys[..n]);
      assert ys == ys[..n] + [ys[n]];
    }
  }
}
