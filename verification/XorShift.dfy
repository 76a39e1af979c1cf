/** The running hash over a list of words. A state is a row of bits, least significant first; the program's has 32. */
module XorShift {
  import opened Seqs
  import opened Words

  type Bits = seq<bool>

  // ---------- shifts and exclusive or

  /** `x ^ (x << n)`. */
  function XorLeft(x: Bits, n: nat): (r: Bits)
    ensures |r| == |x| && forall i :: 0 <= i < |x| ==> r[i] == (x[i] != (i >= n && x[i - n]))
  {
    seq(|x|, i requires 0 <= i < |x| => x[i] != (i >= n && x[i - n]))
  }

  /** `x ^ (x >>> n)`. */
  function XorRight(x: Bits, n: nat): (r: Bits)
    ensures |r| == |x| && forall i :: 0 <= i < |x| ==> r[i] == (x[i] != (i + n < |x| && x[i + n]))
  {
    seq(|x|, i requires 0 <= i < |x| => x[i] != (i + n < |x| && x[i + n]))
  }

  /** Finds the bits from the low end up. */
  function UndoLeft(y: Bits, n: nat): (x: Bits)
    requires n > 0
    ensures |x| == |y|
    decreases |y|
  {
    if y == [] then []
    else
      var last := |y| - 1;
      var x := UndoLeft(y[..last], n);
      x + [y[last] != (last >= n && x[last - n])]
  }

  /** Finds the bits from the high end down. */
  function UndoRight(y: Bits, n: nat): (x: Bits)
    requires n > 0
    ensures |x| == |y|
    decreases |y|
  {
    if y == [] then []
    else
      var x := UndoRight(y[1..], n);
      [y[0] != (n <= |x| && x[n - 1])] + x
  }

  lemma {:induction false} UndoLeftUndoes(y: Bits, n: nat)
    requires n > 0
    ensures XorLeft(UndoLeft(y, n), n) == y
    decreases |y|
  {
    if y != [] {
      UndoLeftUndoes(y[..|y| - 1], n);
      var x, before := UndoLeft(y, n), UndoLeft(y[..|y| - 1], n);
      forall i | 0 <= i < |y|
        ensures XorLeft(x, n)[i] == y[i]
      {
        if i < |y| - 1 {
          assert XorLeft(before, n)[i] == y[i];
        }
      }
    }
  }

  lemma {:induction false} UndoRightUndoes(y: Bits, n: nat)
    requires n > 0
    ensures XorRight(UndoRight(y, n), n) == y
    decreases |y|
  {
    if y != [] {
      UndoRightUndoes(y[1..], n);
      var x, after := UndoRight(y, n), UndoRight(y[1..], n);
      assert x[1..] == after;
      forall i | 0 <= i < |y|
        ensures XorRight(x, n)[i] == y[i]
      {
        if i > 0 {
          assert XorRight(after, n)[i - 1] == y[1..][i - 1];
        }
      }
    }
  }

  lemma {:induction false} LeftAgreesAt(x: Bits, y: Bits, n: nat, i: nat)
    requires n > 0 && XorLeft(x, n) == XorLeft(y, n) && i < |x|
    ensures |x| == |y| && x[i] == y[i]
    decreases i
  {
    assert |XorLeft(x, n)| == |x| && |XorLeft(y, n)| == |y|;
    assert XorLeft(x, n)[i] == XorLeft(y, n)[i];
    if i >= n {
      LeftAgreesAt(x, y, n, i - n);
    }
  }

  lemma {:induction false} RightAgreesAt(x: Bits, y: Bits, n: nat, i: nat)
    requires n > 0 && XorRight(x, n) == XorRight(y, n) && i < |x|
    ensures |x| == |y| && x[i] == y[i]
    decreases |x| - i
  {
    assert |XorRight(x, n)| == |x| && |XorRight(y, n)| == |y|;
    assert XorRight(x, n)[i] == XorRight(y, n)[i];
    if i + n < |x| {
      RightAgreesAt(x, y, n, i + n);
    }
  }

  lemma {:induction false} LeftInverse(x: Bits, n: nat)
    requires n > 0
    ensures UndoLeft(XorLeft(x, n), n) == x
  {
    var y := UndoLeft(XorLeft(x, n), n);
    UndoLeftUndoes(XorLeft(x, n), n);
    forall i | 0 <= i < |x|
      ensures x[i] == y[i]
    {
      LeftAgreesAt(x, y, n, i);
    }
  }

  lemma {:induction false} RightInverse(x: Bits, n: nat)
    requires n > 0
    ensures UndoRight(XorRight(x, n), n) == x
  {
    var y := UndoRight(XorRight(x, n), n);
    UndoRightUndoes(XorRight(x, n), n);
    forall i | 0 <= i < |x|
      ensures x[i] == y[i]
    {
      RightAgreesAt(x, y, n, i);
    }
  }

  function Mix(h: Bits): (r: Bits)
    ensures |r| == |h|
  {
    XorLeft(XorRight(XorLeft(h, 13), 17), 5)
  }

  /** r is `x ^ (x << n)` bit by bit. */
  predicate XoredLeft(x: Bits, n: nat, r: Bits) {
    |r| == |x| && forall i | 0 <= i < |x| :: r[i] == if i >= n then x[i] != x[i - n] else x[i]
  }

  /** r is `x ^ (x >>> n)` bit by bit. */
  predicate XoredRight(x: Bits, n: nat, r: Bits) {
    |r| == |x| && forall i | 0 <= i < |x| :: r[i] == if i + n < |x| then x[i] != x[i + n] else x[i]
  }

  lemma XorsByBits(x: Bits, n: nat)
    ensures XoredLeft(x, n, XorLeft(x, n)) && XoredRight(x, n, XorRight(x, n))
  {
  }

  /** One step on a 32-bit state: the word is added modulo 2^32, and three shifts are xored in, by 13, 17 and 5. */
  lemma {:induction false} StepMeans(hash: Bits, word: nat) returns (sum: Bits, a: Bits, b: Bits)
    requires |hash| == 32 && word < Pow2(|hash|)
    ensures ToInt(sum) == (ToInt(hash) + word) % 0x1_0000_0000
    ensures XoredLeft(sum, 13, a) && XoredRight(a, 17, b) && XoredLeft(b, 5, Step(hash, word))
  {
    sum := Add(hash, word);
    a := XorLeft(sum, 13);
    b := XorRight(a, 17);
    Pow2Of32();
    AddIsModulo(hash, word, 0x1_0000_0000);
    XorsByBits(sum, 13);
    XorsByBits(a, 17);
    XorsByBits(b, 5);
  }

  lemma {:induction false} AddIsModulo(hash: Bits, word: nat, m: nat)
    requires word < Pow2(|hash|) == m
    ensures ToInt(Add(hash, word)) == (ToInt(hash) + word) % m
  {
    WrapIsModulo(ToInt(hash) + word, m);
  }

  lemma WrapIsModulo(sum: nat, m: nat)
    requires sum < 2 * m
    ensures Wrap(sum, m) == sum % m
  {
  }

  function Unmix(h: Bits): (r: Bits)
    ensures |r| == |h|
  {
    UndoLeft(UndoRight(UndoLeft(h, 5), 17), 13)
  }

  lemma MixInverse(h: Bits)
    ensures Unmix(Mix(h)) == h && Mix(Unmix(h)) == h
  {
    LeftInverse(h, 13);
    RightInverse(XorLeft(h, 13), 17);
    LeftInverse(XorRight(XorLeft(h, 13), 17), 5);
    UndoLeftUndoes(h, 5);
    UndoRightUndoes(UndoLeft(h, 5), 17);
    UndoLeftUndoes(UndoRight(UndoLeft(h, 5), 17), 13);
  }

  // ---------- bits and numbers

  function ToInt(b: Bits): (v: nat)
    ensures v < Pow2(|b|)
  {
    if b == [] then 0 else (if b[0] then 1 else 0) + 2 * ToInt(b[1..])
  }

  function BitsOf(v: nat, n: nat): (b: Bits)
    requires v < Pow2(n)
    ensures |b| == n && ToInt(b) == v
    decreases n
  {
    if n == 0 then [] else
      var low: bool, rest := v % 2 == 1, BitsOf(v / 2, n - 1);
      assert ([low] + rest)[1..] == rest;
      [low] + rest
  }

  lemma {:induction false} SameNumberSameBits(a: Bits, b: Bits)
    requires |a| == |b| && ToInt(a) == ToInt(b)
    ensures a == b
  {
    if a != [] {
      SameNumberSameBits(a[1..], b[1..]);
      assert a == [a[0]] + a[1..] && b == [b[0]] + b[1..];
    }
  }

  // ---------- one step

  /** The sum of two numbers below m, cut to what fits. */
  function Wrap(sum: int, m: nat): int {
    if sum >= m then sum - m else if sum < 0 then sum + m else sum
  }

  /** `hash + word`, as the shifts after it see it. */
  function Add(hash: Bits, word: nat): (r: Bits)
    requires word < Pow2(|hash|)
    ensures |r| == |hash| && ToInt(r) == Wrap(ToInt(hash) + word, Pow2(|hash|))
  {
    BitsOf(Wrap(ToInt(hash) + word, Pow2(|hash|)), |hash|)
  }

  function Step(hash: Bits, word: nat): (r: Bits)
    requires word < Pow2(|hash|)
    ensures |r| == |hash|
  {
    Mix(Add(hash, word))
  }

  function Subtract(hash: Bits, word: nat): (r: Bits)
    requires word < Pow2(|hash|)
    ensures |r| == |hash| && ToInt(r) == Wrap(ToInt(hash) - word, Pow2(|hash|))
  {
    BitsOf(Wrap(ToInt(hash) - word, Pow2(|hash|)), |hash|)
  }

  lemma WrapSolves(a: nat, b: nat, u: nat, m: nat)
    requires a < m && b < m && u < m
    ensures u == Wrap(a + b, m) <==> a == Wrap(u - b, m)
  {
  }

  lemma {:induction false} SameBits(a: Bits, b: Bits)
    requires |a| == |b|
    ensures ToInt(a) == ToInt(b) <==> a == b
  {
    if ToInt(a) == ToInt(b) {
      SameNumberSameBits(a, b);
    }
  }

  lemma {:induction false} AddSubtract(hash: Bits, word: nat, sum: Bits)
    requires |hash| == |sum| && word < Pow2(|sum|)
    ensures Add(hash, word) == sum <==> hash == Subtract(sum, word)
  {
    SameBits(Add(hash, word), sum);
    SameBits(hash, Subtract(sum, word));
    WrapSolves(ToInt(hash), word, ToInt(sum), Pow2(|sum|));
  }

  /** The number to add to one state to get to another. */
  function Difference(sum: Bits, hash: Bits): (word: nat)
    requires |hash| == |sum|
    ensures word < Pow2(|hash|)
  {
    Wrap(ToInt(sum) - ToInt(hash), Pow2(|sum|))
  }

  lemma {:induction false} AddDifference(hash: Bits, word: nat, sum: Bits)
    requires |hash| == |sum| && word < Pow2(|sum|)
    ensures Add(hash, word) == sum <==> word == Difference(sum, hash)
  {
    SameBits(Add(hash, word), sum);
    WrapSolves(word, ToInt(hash), ToInt(sum), Pow2(|sum|));
  }

  /** For a fixed word the step is a bijection of the states: each is reached from exactly one. */
  lemma {:induction false} StateBijection(hash: Bits, word: nat, out: Bits)
    requires |hash| == |out| && word < Pow2(|out|)
    ensures Step(hash, word) == out <==> hash == Subtract(Unmix(out), word)
  {
    MixInverse(out);
    MixInverse(Add(hash, word));
    AddSubtract(hash, word, Unmix(out));
  }

  /** For a fixed state it is a bijection of the words. */
  lemma {:induction false} WordBijection(hash: Bits, word: nat, out: Bits)
    requires |hash| == |out| && word < Pow2(|out|)
    ensures Step(hash, word) == out <==> word == Difference(Unmix(out), hash)
  {
    MixInverse(out);
    MixInverse(Add(hash, word));
    AddDifference(hash, word, Unmix(out));
  }

  // ---------- the hash of a list

  predicate Fit(data: seq<nat>, width: nat) {
    forall i :: 0 <= i < |data| ==> data[i] < Pow2(width)
  }

  function Hash(initial: Bits, data: seq<nat>): (hash: Bits)
    requires Fit(data, |initial|)
    ensures |hash| == |initial|
    decreases |data|
  {
    if data == [] then initial else Hash(Step(initial, data[0]), data[1..])
  }

  method XorShift32(initial: Bits, data: seq<nat>) returns (hash: Bits)
    requires |initial| == 32 && Fit(data, 32)
    ensures hash == Hash(initial, data)
  {
    hash := initial;
    assert data[0..] == data;
    for i := 0 to |data|
      invariant |hash| == 32 && Hash(hash, data[i..]) == Hash(initial, data)
    {
      assert data[i..][0] == data[i] && data[i..][1..] == data[i + 1..];
      hash := Add(hash, data[i]);
      hash := XorLeft(hash, 13);
      hash := XorRight(hash, 17);
      hash := XorLeft(hash, 5);
    }
  }

  /** Different states stay different over any list. */
  lemma {:induction false} StatesStayApart(a: Bits, b: Bits, data: seq<nat>)
    requires |a| == |b| && Fit(data, |a|)
    ensures Hash(a, data) == Hash(b, data) <==> a == b
    decreases |data|
  {
    if data != [] {
      var out := Step(b, data[0]);
      StateBijection(a, data[0], out);
      StateBijection(b, data[0], out);
      StatesStayApart(Step(a, data[0]), out, data[1..]);
    }
  }

  lemma {:induction false} HashConcat(initial: Bits, a: seq<nat>, b: seq<nat>)
    requires Fit(a, |initial|) && Fit(b, |initial|)
    ensures Fit(a + b, |initial|) && Hash(initial, a + b) == Hash(Hash(initial, a), b)
    decreases |a|
  {
    if a == [] {
      AddNothing(b);
    } else {
      DropOfConcat(a, b, 1);
      HashConcat(Step(initial, a[0]), a[1..], b);
    }
  }

  lemma {:induction false} HashAround(initial: Bits, before: seq<nat>, word: nat, after: seq<nat>)
    requires Fit(before, |initial|) && word < Pow2(|initial|) && Fit(after, |initial|)
    ensures Fit(before + ([word] + after), |initial|)
    ensures Hash(initial, before + ([word] + after)) == Hash(Step(Hash(initial, before), word), after)
  {
    var rest := [word] + after;
    assert rest[0] == word && rest[1..] == after;
    HashConcat(initial, before, rest);
  }

  /** Changing exactly one word of a list, however long, always changes the hash. */
  lemma {:induction false} OneWordMatters(initial: Bits, before: seq<nat>, word: nat, other: nat, after: seq<nat>)
    requires Fit(before, |initial|) && Fit(after, |initial|)
    requires word < Pow2(|initial|) && other < Pow2(|initial|)
    ensures Fit(before + ([word] + after), |initial|) && Fit(before + ([other] + after), |initial|)
    ensures Hash(initial, before + ([word] + after)) == Hash(initial, before + ([other] + after)) <==> word == other
  {
    HashAround(initial, before, word, after);
    HashAround(initial, before, other, after);
    var h := Hash(initial, before);
    var out := Step(h, word);
    StatesStayApart(out, Step(h, other), after);
    WordBijection(h, word, out);
    WordBijection(h, other, out);
  }

  /** Every hash can be reached from every list by choosing one more word, and by only one choice. */
  lemma {:induction false} LastWordDecides(initial: Bits, data: seq<nat>, word: nat, target: Bits)
    requires Fit(data, |initial|) && word < Pow2(|initial|) && |target| == |initial|
    ensures Fit(data + ([word] + []), |initial|)
    ensures Hash(initial, data + ([word] + [])) == target <==> word == Difference(Unmix(target), Hash(initial, data))
  {
    HashAround(initial, data, word, []);
    WordBijection(Hash(initial, data), word, target);
  }
}
