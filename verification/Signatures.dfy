/** Enumerating argument lists: a variable number of nested loops over one shared argument array, and a filter. */
module Signatures {
  import opened Seqs

  type Args = seq<nat>

  // ---------- the filter

  function Dec(v: Args): (d: Args)
    requires AllNonzero(v)
    ensures |d| == |v| && forall i :: 0 <= i < |v| ==> d[i] + 1 == v[i]
  {
    if v == [] then [] else [v[0] - 1] + Dec(v[1..])
  }

  predicate AllNonzero(v: Args) {
    forall i :: 0 <= i < |v| ==> v[i] != 0
  }

  /** What the filter collects from v: its part after leading zeros, one less each, if that holds no zero. */
  function Kept(v: Args): seq<Args> {
    if v == [] then []
    else if v[0] == 0 then Kept(v[1..])
    else if AllNonzero(v) then [Dec(v)]
    else []
  }

  // ---------- the loops

  /** All the tuples that begin with prefix and go on below the bounds, in the order of nested loops. */
  function Tuples(prefix: Args, maxs: Args): seq<Args>
    decreases |maxs|, 1, 0
  {
    if maxs == [] then [prefix] else TuplesFrom(prefix, maxs, 0)
  }

  /** Those whose next entry is at least v. */
  function TuplesFrom(prefix: Args, maxs: Args, v: nat): seq<Args>
    requires maxs != []
    decreases |maxs|, 0, if v < maxs[0] then maxs[0] - v else 0
  {
    if v >= maxs[0] then [] else Tuples(prefix + [v], maxs[1..]) + TuplesFrom(prefix, maxs, v + 1)
  }

  function KeptAll(tuples: seq<Args>): seq<Args> {
    if tuples == [] then [] else Kept(tuples[0]) + KeptAll(tuples[1..])
  }

  lemma {:induction false} KeptAllConcat(a: seq<Args>, b: seq<Args>)
    ensures KeptAll(a + b) == KeptAll(a) + KeptAll(b)
  {
    if a == [] {
      AddNothing(b);
    } else {
      DropOfConcat(a, b, 1);
      KeptAllConcat(a[1..], b);
      Assoc(Kept(a[0]), KeptAll(a[1..]), KeptAll(b));
    }
  }

  class Generator {
    var args: Args
    var gComb: seq<Args>

    constructor ()
      ensures args == [] && gComb == []
    {
      args, gComb := [], [];
    }

    method CombTarget(v1: Args)
      modifies this`gComb
      ensures gComb == old(gComb) + Kept(v1)
    {
      var filtered: Args := [];
      var skip := false;
      var i := 0;
      assert v1[0..] == v1;
      while i < |v1|
        invariant 0 <= i <= |v1| && !skip && gComb == old(gComb)
        invariant if filtered == [] then Kept(v1[i..]) == Kept(v1)
                  else Kept(v1) == if AllNonzero(v1[i..]) then [filtered + Dec(v1[i..])] else []
      {
        var x := v1[i];
        assert v1[i..][0] == x && v1[i..][1..] == v1[i + 1..];
        if x != 0 {
          FilterStep(filtered, v1[i..]);
          assert [] + [x - 1] == [x - 1];
          filtered := filtered + [x - 1];
        } else if filtered != [] {
          assert !AllNonzero(v1[i..]) && Kept(v1) == [];
          skip := true;
          break;
        }
        i := i + 1;
      }
      if !skip && filtered != [] {
        assert i == |v1| && v1[i..] == [] && filtered + [] == filtered;
        gComb := gComb + [filtered];
      } else {
        assert !skip ==> v1[i..] == [];
        AddNothing(gComb);
      }
    }

    /** Sets an entry, growing the array by one if it is the next. */
    method Put(index: nat, v: nat)
      requires index <= |args|
      modifies this`args
      ensures |args| == if index < |old(args)| then |old(args)| else index + 1
      ensures args[..index] == old(args)[..index] && args[index] == v
    {
      if index < |args| {
        args := args[index := v];
      } else {
        args := args + [v];
      }
    }

    method DoCallManyTimes(maxIndices: Args, index: nat)
      requires index <= |args| <= index + |maxIndices|
      modifies this
      ensures index <= |args| <= index + |maxIndices| && args[..index] == old(args)[..index]
      ensures gComb == old(gComb) + KeptAll(Tuples(old(args)[..index], maxIndices))
      decreases |maxIndices|
    {
      ghost var prefix, before := args[..index], gComb;
      if |maxIndices| == 0 {
        CombTarget(args);
        LastCall(args, index);
      } else {
        var rest := maxIndices[1..];
        Put(index, 0);
        while args[index] < maxIndices[0]
          invariant index < |args| <= index + |maxIndices| && args[..index] == prefix
          invariant gComb + KeptAll(TuplesFrom(prefix, maxIndices, args[index]))
                    == before + KeptAll(Tuples(prefix, maxIndices))
          decreases if args[index] < maxIndices[0] then maxIndices[0] - args[index] else 0
        {
          ghost var v := args[index];
          OneMore(args, 0, index);
          NextTuples(prefix, maxIndices, v, gComb);
          DoCallManyTimes(rest, index + 1);
          SamePrefix(args, index, prefix, v);
          Put(index, args[index] + 1);
        }
        AddNothing(gComb);
      }
    }

    method CallManyTimes(maxIndices: Args)
      modifies this
      ensures gComb == old(gComb) + KeptAll(Tuples([], maxIndices))
    {
      args := [];
      DoCallManyTimes(maxIndices, 0);
    }
  }

  lemma {:induction false} LastCall(args: Args, index: nat)
    requires index == |args|
    ensures args[..index] == args && KeptAll([args]) == Kept(args)
  {
    assert KeptAll([args]) == Kept(args) + [];
  }

  /** The tuples that start with v, then those from v + 1 on. */
  lemma NextTuples(prefix: Args, maxs: Args, v: nat, log: seq<Args>)
    requires maxs != [] && v < maxs[0]
    ensures log + KeptAll(TuplesFrom(prefix, maxs, v))
            == (log + KeptAll(Tuples(prefix + [v], maxs[1..]))) + KeptAll(TuplesFrom(prefix, maxs, v + 1))
  {
    KeptAllConcat(Tuples(prefix + [v], maxs[1..]), TuplesFrom(prefix, maxs, v + 1));
    Assoc(log, KeptAll(Tuples(prefix + [v], maxs[1..])), KeptAll(TuplesFrom(prefix, maxs, v + 1)));
  }

  lemma SamePrefix(args: Args, index: nat, prefix: Args, v: nat)
    requires index < |args| && |prefix| == index && args[..index + 1] == prefix + [v]
    ensures args[..index] == prefix && args[index] == v
  {
    assert args[..index] == args[..index + 1][..index];
    assert args[index] == args[..index + 1][index];
  }

  lemma {:induction false} FilterStep(filtered: Args, rest: Args)
    requires rest != [] && rest[0] != 0
    ensures filtered == [] ==> Kept(rest) == if AllNonzero(rest[1..]) then [[rest[0] - 1] + Dec(rest[1..])] else []
    ensures AllNonzero(rest) <==> AllNonzero(rest[1..])
    ensures AllNonzero(rest) ==> filtered + Dec(rest) == (filtered + [rest[0] - 1]) + Dec(rest[1..])
  {
    assert AllNonzero(rest[1..]) ==> forall i :: 1 <= i < |rest| ==> rest[i] == rest[1..][i - 1];
    if AllNonzero(rest) {
      assert Dec(rest) == [rest[0] - 1] + Dec(rest[1..]);
    }
  }

  // ---------- counting

  function Count(l: seq<Args>, x: Args): nat {
    if l == [] then 0 else (if l[0] == x then 1 else 0) + Count(l[1..], x)
  }

  lemma {:induction false} CountConcat(a: seq<Args>, b: seq<Args>, x: Args)
    ensures Count(a + b, x) == Count(a, x) + Count(b, x)
  {
    if a == [] {
      AddNothing(b);
    } else {
      DropOfConcat(a, b, 1);
      CountConcat(a[1..], b, x);
    }
  }

  predicate InBox(prefix: Args, maxs: Args, v: Args) {
    && |v| == |prefix| + |maxs| && v[..|prefix|] == prefix
    && forall i :: 0 <= i < |maxs| ==> v[|prefix| + i] < maxs[i]
  }

  lemma InBoxStep(prefix: Args, maxs: Args, k: nat, v: Args)
    requires maxs != [] && k < maxs[0]
    ensures InBox(prefix + [k], maxs[1..], v) <==> InBox(prefix, maxs, v) && v[|prefix|] == k
  {
    var p := |prefix|;
    if |v| == p + |maxs| {
      assert v[..p + 1] == v[..p] + [v[p]];
      if InBox(prefix + [k], maxs[1..], v) {
        assert v[..p + 1][..p] == (prefix + [k])[..p] == prefix;
        forall i | 0 <= i < |maxs|
          ensures v[p + i] < maxs[i]
        {
          if i > 0 {
            assert v[|prefix + [k]| + (i - 1)] < maxs[1..][i - 1];
          }
        }
      }
      if InBox(prefix, maxs, v) && v[p] == k {
        forall i | 0 <= i < |maxs[1..]|
          ensures v[|prefix + [k]| + i] < maxs[1..][i]
        {
          assert v[p + (i + 1)] < maxs[i + 1];
        }
      }
    }
  }

  /** The loops visit every tuple in the box exactly once, and no other. */
  lemma {:induction false} TuplesCount(prefix: Args, maxs: Args, v: Args)
    ensures Count(Tuples(prefix, maxs), v) == if InBox(prefix, maxs, v) then 1 else 0
    decreases |maxs|, 1, 0
  {
    if maxs == [] {
      assert v[..|v|] == v;
      assert Count([prefix], v) == (if prefix == v then 1 else 0) + Count([], v);
    } else {
      TuplesFromCount(prefix, maxs, 0, v);
    }
  }

  lemma {:induction false} TuplesFromCount(prefix: Args, maxs: Args, k: nat, v: Args)
    requires maxs != []
    ensures Count(TuplesFrom(prefix, maxs, k), v) == if InBox(prefix, maxs, v) && v[|prefix|] >= k then 1 else 0
    decreases |maxs|, 0, if k < maxs[0] then maxs[0] - k else 0
  {
    if k < maxs[0] {
      TuplesCount(prefix + [k], maxs[1..], v);
      TuplesFromCount(prefix, maxs, k + 1, v);
      CountConcat(Tuples(prefix + [k], maxs[1..]), TuplesFrom(prefix, maxs, k + 1), v);
      InBoxStep(prefix, maxs, k, v);
    } else {
      assert InBox(prefix, maxs, v) ==> v[|prefix| + 0] < maxs[0];
    }
  }

  // ---------- which tuple a signature comes from

  function Inc(s: Args): (v: Args)
    ensures |v| == |s| && forall i :: 0 <= i < |s| ==> v[i] == s[i] + 1
  {
    if s == [] then [] else [s[0] + 1] + Inc(s[1..])
  }

  /** The one tuple of this length that the filter turns into s. */
  function Pad(s: Args, length: nat): (v: Args)
    requires |s| <= length
    ensures |v| == length
  {
    Repeat<nat>(0, length - |s|) + Inc(s)
  }

  lemma PadMore(s: Args, length: nat)
    requires |s| < length
    ensures Pad(s, length) == [0] + Pad(s, length - 1)
  {
    Assoc([0], Repeat<nat>(0, length - 1 - |s|), Inc(s));
  }

  lemma {:induction false} PadNone(s: Args)
    ensures Pad(s, |s|) == Inc(s)
  {
  }

  lemma {:induction false} IncDec(v: Args, s: Args)
    requires |v| == |s|
    ensures v == Inc(s) <==> AllNonzero(v) && Dec(v) == s
  {
    if v == Inc(s) {
      assert AllNonzero(v);
      assert forall i :: 0 <= i < |s| ==> Dec(v)[i] == s[i];
    }
    if AllNonzero(v) && Dec(v) == s {
      assert forall i :: 0 <= i < |s| ==> Inc(s)[i] == v[i];
    }
  }

  lemma {:induction false} KeptIsPadded(v: Args, s: Args)
    ensures Kept(v) == [s] <==> s != [] && |s| <= |v| && v == Pad(s, |v|)
    decreases |v|
  {
    KeptFits(v);
    if v != [] && s != [] && |s| <= |v| {
      if |s| < |v| {
        PadMore(s, |v|);
      } else {
        PadNone(s);
        IncDec(v, s);
      }
      if v[0] == 0 {
        KeptIsPadded(v[1..], s);
        assert v == [0] + v[1..];
      } else {
        assert AllNonzero(v) ==> Kept(v) == [Dec(v)] && Kept(v)[0] == Dec(v);
      }
    }
  }

  lemma {:induction false} KeptFits(v: Args)
    ensures |Kept(v)| <= 1 && forall s <- Kept(v) :: s != [] && |s| <= |v|
  {
    if v != [] && v[0] == 0 {
      KeptFits(v[1..]);
    }
  }

  lemma {:induction false} KeptCount(v: Args, s: Args)
    ensures Count(Kept(v), s) == if s != [] && |s| <= |v| && v == Pad(s, |v|) then 1 else 0
  {
    KeptIsPadded(v, s);
    KeptFits(v);
    if |Kept(v)| == 1 {
      assert Kept(v) == [Kept(v)[0]];
      assert Count(Kept(v), s) == (if Kept(v)[0] == s then 1 else 0) + Count([], s);
    }
  }

  predicate AllOfLength(tuples: seq<Args>, m: nat) {
    forall i :: 0 <= i < |tuples| ==> |tuples[i]| == m
  }

  /** A signature is collected as often as its padded tuple is visited. */
  lemma {:induction false} CollectedAsOften(tuples: seq<Args>, m: nat, s: Args)
    requires AllOfLength(tuples, m)
    ensures Count(KeptAll(tuples), s) == if s != [] && |s| <= m then Count(tuples, Pad(s, m)) else 0
  {
    if tuples != [] {
      CollectedAsOften(tuples[1..], m, s);
      CountConcat(Kept(tuples[0]), KeptAll(tuples[1..]), s);
      KeptCount(tuples[0], s);
    }
  }

  lemma {:induction false} TuplesHaveLength(prefix: Args, maxs: Args)
    ensures AllOfLength(Tuples(prefix, maxs), |prefix| + |maxs|)
    decreases |maxs|, 1, 0
  {
    if maxs != [] {
      TuplesFromHaveLength(prefix, maxs, 0);
    }
  }

  lemma {:induction false} TuplesFromHaveLength(prefix: Args, maxs: Args, k: nat)
    requires maxs != []
    ensures AllOfLength(TuplesFrom(prefix, maxs, k), |prefix| + |maxs|)
    decreases |maxs|, 0, if k < maxs[0] then maxs[0] - k else 0
  {
    if k < maxs[0] {
      TuplesHaveLength(prefix + [k], maxs[1..]);
      TuplesFromHaveLength(prefix, maxs, k + 1);
    }
  }

  // ---------- the enumeration

  function Bounds(n: nat, m: nat): (maxs: Args)
    ensures |maxs| == m && forall i :: 0 <= i < m ==> maxs[i] == n + 1
    decreases m
  {
    if m == 0 then [] else Bounds(n, m - 1) + [n + 1]
  }

  /** A signature: at least one and at most m arguments, each one of n types. */
  predicate Signature(s: Args, n: nat, m: nat) {
    1 <= |s| <= m && forall i :: 0 <= i < |s| ==> s[i] < n
  }

  lemma PadAt(s: Args, m: nat, i: nat)
    requires |s| <= m && i < m
    ensures Pad(s, m)[i] == if i < m - |s| then 0 else s[i - (m - |s|)] + 1
  {
  }

  lemma {:induction false} BoundsBox(v: Args, n: nat, m: nat)
    ensures InBox([], Bounds(n, m), v) <==> |v| == m && forall i :: 0 <= i < m ==> v[i] <= n
  {
    var maxs := Bounds(n, m);
    forall i | 0 <= i < m && |v| == m
      ensures v[0 + i] < maxs[i] <==> v[i] <= n
    {
    }
  }

  lemma PadFits(s: Args, n: nat, m: nat)
    requires |s| <= m && forall i :: 0 <= i < |s| ==> s[i] < n
    ensures forall i :: 0 <= i < m ==> Pad(s, m)[i] <= n
  {
    forall i | 0 <= i < m ensures Pad(s, m)[i] <= n {
      PadAt(s, m, i);
    }
  }

  lemma FitsUnpadded(s: Args, n: nat, m: nat)
    requires |s| <= m && forall i :: 0 <= i < m ==> Pad(s, m)[i] <= n
    ensures forall i :: 0 <= i < |s| ==> s[i] < n
  {
    forall i | 0 <= i < |s| ensures s[i] < n {
      PadAt(s, m, m - |s| + i);
    }
  }

  lemma {:induction false} PaddedInBox(s: Args, n: nat, m: nat)
    requires 1 <= |s| <= m
    ensures InBox([], Bounds(n, m), Pad(s, m)) <==> Signature(s, n, m)
  {
    BoundsBox(Pad(s, m), n, m);
    if Signature(s, n, m) {
      PadFits(s, n, m);
    } else if forall i :: 0 <= i < m ==> Pad(s, m)[i] <= n {
      FitsUnpadded(s, n, m);
    }
  }

  /** For any number of types and any maximum, every signature is collected exactly once and nothing else is. */
  lemma {:induction false} EachSignatureOnce(n: nat, m: nat, s: Args)
    ensures Count(KeptAll(Tuples([], Bounds(n, m))), s) == if Signature(s, n, m) then 1 else 0
  {
    var maxs := Bounds(n, m);
    TuplesHaveLength([], maxs);
    CollectedAsOften(Tuples([], maxs), m, s);
    if s != [] && |s| <= m {
      TuplesCount([], maxs, Pad(s, m));
      PaddedInBox(s, n, m);
    }
  }

  /** The driver: the loops with the bounds of the module, over the shared array. */
  method Combinations(nonVoidCount: nat, maxArguments: nat) returns (comb: seq<Args>)
    ensures forall s: Args :: Count(comb, s) == if Signature(s, nonVoidCount, maxArguments) then 1 else 0
  {
    var combArg: Args := [];
    for i := 0 to maxArguments
      invariant combArg == Bounds(nonVoidCount, i)
    {
      combArg := combArg + [nonVoidCount + 1];
    }
    var g := new Generator();
    g.CallManyTimes(combArg);
    comb := g.gComb;
    assert comb == KeptAll(Tuples([], combArg));
    forall s: Args
      ensures Count(comb, s) == if Signature(s, nonVoidCount, maxArguments) then 1 else 0
    {
      EachSignatureOnce(nonVoidCount, maxArguments, s);
    }
  }
}
