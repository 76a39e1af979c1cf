/** Facts about sequences that the solver is better told than left to find. */
module Seqs {
  lemma Assoc<T>(a: seq<T>, b: seq<T>, c: seq<T>)
    ensures (a + b) + c == a + (b + c)
  {
  }

  lemma AddNothing<T>(a: seq<T>)
    ensures a + [] == a && [] + a == a
  {
  }

  function Flatten<T>(chunks: seq<seq<T>>): seq<T> {
    if chunks == [] then [] else chunks[0] + Flatten(chunks[1..])
  }

  lemma {:induction false} FlattenConcat<T>(a: seq<seq<T>>, b: seq<seq<T>>)
    ensures Flatten(a + b) == Flatten(a) + Flatten(b)
  {
    if a == [] {
      AddNothing(b);
    } else {
      FlattenConcat(a[1..], b);
      DropOfConcat(a, b, 1);
      Assoc(a[0], Flatten(a[1..]), Flatten(b));
    }
  }

  lemma DropOfConcat<T>(x: seq<T>, y: seq<T>, n: nat)
    requires n <= |x|
    ensures (x + y)[n..] == x[n..] + y
  {
  }

  lemma SliceOfConcat<T>(x: seq<T>, y: seq<T>, m: nat, n: nat)
    requires m <= n <= |x|
    ensures (x + y)[m..n] == x[m..n]
  {
  }

  lemma SplitAt<T>(a: seq<T>, n: nat)
    requires n <= |a|
    ensures a == a[..n] + a[n..]
  {
  }

  lemma ThreeParts<T>(a: seq<T>, m: nat, n: nat)
    requires m <= n <= |a|
    ensures a == (a[..m] + a[m..n]) + a[n..]
  {
  }

  lemma PartsOfConcat<T>(x: seq<T>, y: seq<T>)
    ensures (x + y)[..|x|] == x && (x + y)[|x|..] == y
  {
  }

  lemma IndexInFirst<T>(x: seq<T>, y: seq<T>, k: nat)
    requires k < |x|
    ensures (x + y)[k] == x[k]
  {
  }

  lemma IndexInSecond<T>(x: seq<T>, y: seq<T>, k: nat)
    requires k < |y|
    ensures (x + y)[|x| + k] == y[k]
  {
  }

  lemma OneMore<T>(a: seq<T>, m: nat, n: nat)
    requires m <= n < |a|
    ensures a[m..n + 1] == a[m..n] + [a[n]]
  {
  }

  lemma FirstAndOneMore<T>(a: seq<T>, n: nat)
    requires n < |a|
    ensures a[..n + 1] == a[..n] + [a[n]]
  {
  }

  lemma TailOfTail<T>(a: seq<T>, n: nat)
    requires n < |a|
    ensures a[n..] != [] && a[n..][0] == a[n] && a[n..][1..] == a[n + 1..]
  {
  }

  lemma MoveFirst<T>(a: seq<T>, b: seq<T>)
    requires b != []
    ensures a + b == (a + [b[0]]) + b[1..]
  {
  }

  lemma SplitFirst<T>(a: seq<T>)
    requires a != []
    ensures a == [a[0]] + a[1..]
  {
  }

  function Repeat<T>(x: T, n: nat): (r: seq<T>)
    ensures |r| == n && forall i :: 0 <= i < n ==> r[i] == x
  {
    if n == 0 then [] else [x] + Repeat(x, n - 1)
  }

  lemma RepeatLast<T>(x: T, n: nat)
    ensures Repeat(x, n + 1) == Repeat(x, n) + [x]
  {
  }
}
