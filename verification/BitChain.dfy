/** The receive side of the bit chain: reverse mover, slicer and word unmangling. */
module BitChain {
  import opened Seqs
  import opened Words
  import opened MapMov

  // ---------- samples

  /** A 16-bit pattern as a signed number. */
  function Signed16(h: int): (v: int)
    requires 0 <= h < 0x1_0000
    ensures -0x8000 <= v < 0x8000
  {
    if h < 0x8000 then h else h - 0x1_0000
  }

  /** The two parts of a sample: its upper and its lower half, signed. */
  function Upper(x: Word): int {
    Signed16(x / 0x1_0000)
  }

  function Lower(x: Word): int {
    Signed16(x % 0x1_0000)
  }

  /** A sample packed from two signed 16-bit numbers. */
  function Sample(upper: int, lower: int): Word
    requires -0x8000 <= upper < 0x8000 && -0x8000 <= lower < 0x8000
  {
    upper % 0x1_0000 * 0x1_0000 + lower % 0x1_0000
  }

  lemma SampleParts(upper: int, lower: int)
    requires -0x8000 <= upper < 0x8000 && -0x8000 <= lower < 0x8000
    ensures Upper(Sample(upper, lower)) == upper && Lower(Sample(upper, lower)) == lower
  {
    var u, l := upper % 0x1_0000, lower % 0x1_0000;
    assert (u * 0x1_0000 + l) / 0x1_0000 == u && (u * 0x1_0000 + l) % 0x1_0000 == l;
  }

  /** The slicer's symbol: which parts of a sample are negative. */
  function SignBits(x: Word): Dibit {
    Dibit(Upper(x) < 0, Lower(x) < 0)
  }

  /** Whatever the two numbers in a sample, the slicer's two bits are their signs. */
  lemma SignsOfSample(upper: int, lower: int)
    requires -0x8000 <= upper < 0x8000 && -0x8000 <= lower < 0x8000
    ensures SignBits(Sample(upper, lower)) == Dibit(upper < 0, lower < 0)
    ensures SymbolBits(Sample(upper, lower)) == Dibit(upper < 0, lower < 0)
  {
    SampleParts(upper, lower);
    SymbolBitsAreSigns(Sample(upper, lower));
  }

  /** The bits as the slicer takes them out of a sample: `((x >>> 30) & 2) | ((x >>> 15) & 1)`. */
  function SymbolBits(x: Word): Dibit {
    Dibit(x / 0x4000_0000 % 4 >= 2, x / 0x8000 % 2 == 1)
  }

  lemma SymbolBitsAreSigns(x: Word)
    ensures SymbolBits(x) == SignBits(x)
  {
    UpperBit(x);
    LowerBit(x);
  }

  lemma UpperBit(x: Word)
    ensures x / 0x4000_0000 % 4 >= 2 <==> x / 0x1_0000 >= 0x8000
  {
  }

  lemma LowerBit(x: Word)
    ensures x / 0x8000 % 2 == 1 <==> x % 0x1_0000 >= 0x8000
  {
    var u, l := x / 0x1_0000, x % 0x1_0000;
    if l < 0x8000 {
      assert x == 0x8000 * (2 * u) + l;
    } else {
      assert x == 0x8000 * (2 * u + 1) + (l - 0x8000);
    }
  }

  lemma SameSignsSameBits(x: Word, y: Word)
    ensures SameSigns(x, y) <==> SignBits(x) == SignBits(y)
  {
  }

  /** Both parts of two samples have the same signs. */
  predicate SameSigns(x: Word, y: Word) {
    (Upper(x) < 0 <==> Upper(y) < 0) && (Lower(x) < 0 <==> Lower(y) < 0)
  }

  function Signs(xs: seq<Word>): (d: seq<Dibit>)
    ensures |d| == |xs|
  {
    if xs == [] then [] else [SignBits(xs[0])] + Signs(xs[1..])
  }

  lemma {:induction false} SignsConcat(a: seq<Word>, b: seq<Word>)
    ensures Signs(a + b) == Signs(a) + Signs(b)
  {
    if a == [] {
      AddNothing(b);
    } else {
      SignsConcat(a[1..], b);
      assert (a + b)[1..] == a[1..] + b;
      Assoc([SignBits(a[0])], Signs(a[1..]), Signs(b));
    }
  }

  lemma {:induction false} SignsAt(xs: seq<Word>, k: nat)
    requires k < |xs|
    ensures Signs(xs)[k] == SignBits(xs[k])
  {
    if k > 0 {
      SignsAt(xs[1..], k - 1);
    }
  }

  // ---------- symbol order and sense

  /** Both bits complemented and swapped. */
  function Flip(d: Dibit): Dibit {
    Dibit(!d.lo, !d.hi)
  }

  /** Symbols in reverse order, each flipped. */
  function Mangle(d: seq<Dibit>): (m: seq<Dibit>)
    ensures |m| == |d|
  {
    if d == [] then [] else Mangle(d[1..]) + [Flip(d[0])]
  }

  lemma {:induction false} MangleConcat(a: seq<Dibit>, b: seq<Dibit>)
    ensures Mangle(a + b) == Mangle(b) + Mangle(a)
  {
    if a == [] {
      assert a + b == b && Mangle(b) + [] == Mangle(b);
    } else {
      MangleConcat(a[1..], b);
      assert (a + b)[1..] == a[1..] + b;
      Assoc(Mangle(b), Mangle(a[1..]), [Flip(a[0])]);
    }
  }

  lemma {:induction false} MangleAt(d: seq<Dibit>, k: nat)
    requires k < |d|
    ensures Mangle(d)[k] == Flip(d[|d| - 1 - k])
  {
    if k < |d| - 1 {
      MangleAt(d[1..], k);
    }
  }

  lemma {:induction false} MangleTwice(d: seq<Dibit>)
    ensures Mangle(Mangle(d)) == d
  {
    if d != [] {
      MangleTwice(d[1..]);
      MangleConcat(Mangle(d[1..]), [Flip(d[0])]);
      assert Mangle([Flip(d[0])]) == [d[0]];
    }
  }

  // ---------- reverse mover

  /** The receiver's own list of data subcarriers. */
  const REVERSE_MOVER: seq<nat> := seq(64, k => 2 * k + 1) + seq(64, k => 897 + 2 * k)

  /** Transmitter and receiver agree on which subcarriers carry data, and the list is in rank order. */
  lemma ReverseMoverIsEnabled(sc: nat)
    requires sc < 1024
    ensures sc in REVERSE_MOVER <==> Enabled(sc)
    ensures Enabled(sc) ==> REVERSE_MOVER[Rank(sc)] == sc == Subcarrier(Rank(sc))
  {
    if Enabled(sc) {
      assert REVERSE_MOVER[Rank(sc)] == sc;
    }
  }

  /** The samples of xs on data subcarriers, when xs starts at sample index i. */
  function Selected(xs: seq<Word>, i: nat): seq<Word> {
    if xs == [] then []
    else (if Enabled(i % 1024) then [xs[0]] else []) + Selected(xs[1..], i + 1)
  }

  method InReverseMover(sc: nat) returns (found: bool)
    requires sc < 1024
    ensures found == Enabled(sc)
  {
    ReverseMoverIsEnabled(sc);
    found := sc in REVERSE_MOVER;
  }

  method ReverseMove(rx: seq<Word>) returns (moved: seq<Word>)
    ensures moved == Selected(rx, 0)
  {
    moved := [];
    for i := 0 to |rx|
      invariant moved + Selected(rx[i..], i) == Selected(rx, 0)
    {
      var found := InReverseMover(i % 1024);
      Assoc(moved, if found then [rx[i]] else [], Selected(rx[i + 1..], i + 1));
      assert rx[i..][1..] == rx[i + 1..];
      if found {
        moved := moved + [rx[i]];
      } else {
        AddNothing(moved);
      }
    }
    AddNothing(moved);
  }

  lemma {:induction false} SelectedConcat(xs: seq<Word>, ys: seq<Word>, i: nat)
    ensures Selected(xs + ys, i) == Selected(xs, i) + Selected(ys, i + |xs|)
  {
    if xs == [] {
      AddNothing(ys);
      AddNothing(Selected(ys, i));
    } else {
      SelectedConcat(xs[1..], ys, i + 1);
      DropOfConcat(xs, ys, 1);
      Assoc(if Enabled(i % 1024) then [xs[0]] else [], Selected(xs[1..], i + 1), Selected(ys, i + |xs|));
    }
  }

  lemma RankStep(i: nat)
    requires i < 1024
    ensures i % 1024 == i && Rank(i + 1) == Rank(i) + if Enabled(i) then 1 else 0
  {
  }

  lemma {:induction false} SelectedLength(xs: seq<Word>, i: nat)
    requires i + |xs| <= 1024
    ensures |Selected(xs, i)| == Rank(i + |xs|) - Rank(i)
  {
    if xs != [] {
      SelectedLength(xs[1..], i + 1);
      RankStep(i);
    }
  }

  /** Within a frame, the sample on an enabled subcarrier lands at that subcarrier's rank. */
  lemma {:induction false} SelectedAt(frame: seq<Word>, sc: nat)
    requires |frame| == 1024 && sc < 1024 && Enabled(sc)
    ensures Rank(sc) < |Selected(frame, 0)| && Selected(frame, 0)[Rank(sc)] == frame[sc]
  {
    var before, after := frame[..sc], frame[sc..];
    assert frame == before + after;
    SelectedConcat(before, after, 0);
    SelectedLength(before, 0);
    RankStep(sc);
    assert Selected(after, sc)[0] == frame[sc];
  }

  /** The k-th data point of a frame is the sample on the k-th data subcarrier. */
  lemma {:induction false} FrameSelection(frame: seq<Word>, k: nat)
    requires |frame| == 1024 && k < 128
    ensures |Selected(frame, 0)| == 128 && Selected(frame, 0)[k] == frame[Subcarrier(k)]
  {
    SelectedLength(frame, 0);
    SelectedAt(frame, Subcarrier(k));
  }

  lemma {:induction false} SelectedByFrame(xs: seq<Word>, i: nat)
    ensures Selected(xs, i + 1024) == Selected(xs, i)
  {
    if xs != [] {
      SelectedByFrame(xs[1..], i + 1);
      assert (i + 1024) % 1024 == i % 1024;
    }
  }

  // ---------- slicer

  function WordOf(d: seq<Dibit>): Word
    requires |d| == 16
  {
    FitsInWord(d);
    FromDibits(d)
  }

  /** Sixteen symbols to the word, the first in the low bits; a rest of fewer is dropped. */
  function Sliced(moved: seq<Word>): (s: seq<Word>)
    ensures |s| == |moved| / 16
  {
    if |moved| < 16 then [] else [WordOf(Signs(moved[..16]))] + Sliced(moved[16..])
  }

  lemma {:induction false} SlicedDibits(moved: seq<Word>)
    requires |moved| % 16 == 0
    ensures DibitsOf(Sliced(moved)) == Signs(moved)
  {
    if moved != [] {
      SlicedDibits(moved[16..]);
      DibitsOfFromDibits(Signs(moved[..16]));
      SignsConcat(moved[..16], moved[16..]);
      assert moved[..16] + moved[16..] == moved;
    }
  }

  /** Symbol k mod 16 of word k / 16 says which parts of sample k are negative. */
  lemma {:induction false} SlicedSigns(moved: seq<Word>, k: nat)
    requires |moved| % 16 == 0 && k < |moved|
    ensures Dibits(Sliced(moved)[k / 16], 16)[k % 16] == Dibit(Upper(moved[k]) < 0, Lower(moved[k]) < 0)
  {
    SlicedDibits(moved);
    SignsAt(moved, k);
    DibitInList(Sliced(moved), k / 16, k % 16);
  }

  lemma {:induction false} SlicedConcat(a: seq<Word>, b: seq<Word>)
    requires |a| % 16 == 0
    ensures Sliced(a + b) == Sliced(a) + Sliced(b)
  {
    if a == [] {
      AddNothing(b);
    } else {
      SlicedConcat(a[16..], b);
      assert (a + b)[16..] == a[16..] + b && (a + b)[..16] == a[..16];
      Assoc([WordOf(Signs(a[..16]))], Sliced(a[16..]), Sliced(b));
    }
  }

  /** `(w >>> 2) | (b << 30)`. */
  function ShiftIn(w: nat, b: Dibit): nat {
    w / 4 + b.Value() * 0x4000_0000
  }

  /** The slicer's register: each symbol is shifted in at the top. */
  function Register(seen: seq<Dibit>): nat {
    if seen == [] then 0
    else ShiftIn(Register(seen[..|seen| - 1]), seen[|seen| - 1])
  }

  /** Up to sixteen symbols sit at the top of the register, over zeros. */
  lemma {:induction false} RegisterMeaning(seen: seq<Dibit>)
    requires |seen| <= 16
    ensures Register(seen) == FromDibits(Repeat(ZERO, 16 - |seen|) + seen)
  {
    if seen == [] {
      FromZeros(16);
      assert Repeat(ZERO, 16) + [] == Repeat(ZERO, 16);
    } else {
      var init, b, n := seen[..|seen| - 1], seen[|seen| - 1], 17 - |seen|;
      RegisterMeaning(init);
      ShiftInTop(Repeat(ZERO, n) + init, b);
      assert Repeat(ZERO, n) == [ZERO] + Repeat(ZERO, n - 1);
      assert (Repeat(ZERO, n) + init)[1..] + [b] == Repeat(ZERO, n - 1) + seen;
    }
  }

  lemma {:induction false} RegisterStep(seen: seq<Dibit>, b: Dibit)
    requires |seen| < 16
    ensures ShiftIn(Register(seen), b) == Register(seen + [b]) < TWO_32
  {
    assert (seen + [b])[..|seen|] == seen;
    RegisterMeaning(seen + [b]);
    FitsInWord(Repeat(ZERO, 15 - |seen|) + (seen + [b]));
  }

  lemma {:induction false} RegisterFull(d: seq<Dibit>)
    requires |d| == 16
    ensures Register(d) == WordOf(d)
  {
    RegisterMeaning(d);
    assert Repeat(ZERO, 0) + d == d;
  }

  lemma Mod16(n: nat, r: nat)
    requires r < 16
    ensures (16 * n + r) % 16 == r
  {
  }

  lemma SignsStep(moved: seq<Word>, start: nat, i: nat)
    requires start <= i < |moved|
    ensures Signs(moved[start..i + 1]) == Signs(moved[start..i]) + [SignBits(moved[i])]
  {
    assert moved[start..i + 1] == moved[start..i] + [moved[i]];
    SignsConcat(moved[start..i], [moved[i]]);
    assert Signs([moved[i]]) == [SignBits(moved[i])];
  }

  /** After i symbols: the words emitted, and the symbols seen since. */
  ghost predicate SliceInv(moved: seq<Word>, i: nat, sliced: seq<Word>, seen: seq<Dibit>) {
    var start := 16 * |sliced|;
    && i == start + |seen| <= |moved| && |seen| < 16
    && sliced + Sliced(moved[start..]) == Sliced(moved)
    && seen == Signs(moved[start..i])
  }

  lemma SliceShift(moved: seq<Word>, i: nat, sliced: seq<Word>, seen: seq<Dibit>)
    requires SliceInv(moved, i, sliced, seen) && i < |moved| && |seen| < 15
    ensures SliceInv(moved, i + 1, sliced, seen + [SignBits(moved[i])])
  {
    SignsStep(moved, 16 * |sliced|, i);
  }

  lemma SliceEmit(moved: seq<Word>, i: nat, sliced: seq<Word>, seen: seq<Dibit>)
    requires SliceInv(moved, i, sliced, seen) && i < |moved| && |seen| == 15
    ensures SliceInv(moved, i + 1, sliced + [WordOf(seen + [SignBits(moved[i])])], [])
  {
    var start := 16 * |sliced|;
    SignsStep(moved, start, i);
    var rest, word := moved[start..], WordOf(seen + [SignBits(moved[i])]);
    assert rest[..16] == moved[start..i + 1] && rest[16..] == moved[i + 1..];
    Assoc(sliced, [word], Sliced(rest[16..]));
    assert moved[i + 1..i + 1] == [];
  }

  /** Shifts each symbol into the top of a register and emits it every sixteenth symbol. */
  method Slice(moved: seq<Word>) returns (sliced: seq<Word>)
    ensures sliced == Sliced(moved)
  {
    sliced := [];
    var word: Word := 0;
    ghost var seen: seq<Dibit> := [];
    for i := 0 to |moved|
      invariant SliceInv(moved, i, sliced, seen)
      invariant word == Register(seen)
    {
      var j := i % 16;
      Mod16(|sliced|, |seen|);
      var bits := SymbolBits(moved[i]);
      SymbolBitsAreSigns(moved[i]);
      RegisterStep(seen, bits);
      word := ShiftIn(word, bits);
      if j == 15 {
        RegisterFull(seen + [bits]);
        SliceEmit(moved, i, sliced, seen);
        sliced := sliced + [word];
        word, seen := 0, [];
      } else {
        SliceShift(moved, i, sliced, seen);
        seen := seen + [bits];
      }
    }
    AddNothing(sliced);
  }

  method DemodData(rx: seq<Word>) returns (sliced: seq<Word>)
    ensures sliced == Sliced(Selected(rx, 0))
  {
    var moved := ReverseMove(rx);
    sliced := Slice(moved);
  }

  // ---------- unmangling

  /** Reverses word order within each group of eight. */
  function TransformWords128(i: nat): (j: int)
    ensures 0 <= j && j / 8 == i / 8 && j % 8 == 7 - i % 8
  {
    16 * (i / 8) + 7 - i
  }

  /** An element past the end reads as `undefined`, whose complement is all ones, like that of 0. */
  function WordOrZero(s: seq<Word>, j: nat): Word {
    if j < |s| then s[j] else 0
  }

  /** The word whose symbols are those of v, mangled. */
  function MangledWord(v: Word): Word {
    WordOf(Mangle(Dibits(v, 16)))
  }

  lemma {:induction false} MangledWordDibits(v: Word)
    ensures Dibits(MangledWord(v), 16) == Mangle(Dibits(v, 16))
  {
    DibitsOfFromDibits(Mangle(Dibits(v, 16)));
  }

  lemma MangleStep(v: Word, i: nat)
    requires i < 16
    ensures var d, bits := Dibits(v, 16), Low(ShiftRight(TWO_32 - 1 - v, i));
            Mangle(d[..i + 1]) == [Dibit(bits.lo, bits.hi)] + Mangle(d[..i])
  {
    var d := Dibits(v, 16);
    ComplementDibit(v, i);
    assert d[..i + 1] == d[..i] + [d[i]];
    MangleConcat(d[..i], [d[i]]);
    assert Mangle([d[i]]) == [Flip(d[i])];
  }

  /** Reverses the dibits of a word, each complemented and bit-swapped. */
  method BitMangleSliced(v: Word) returns (u: Word)
    ensures u == MangledWord(v)
  {
    var t := TWO_32 - 1 - v;
    u := 0;
    ghost var d := Dibits(v, 16);
    for i := 0 to 16
      invariant u == FromDibits(Mangle(d[..i]))
    {
      var bits := Low(ShiftRight(t, i));
      var rev := Dibit(bits.lo, bits.hi);
      MangleStep(v, i);
      ShiftInBottom(Mangle(d[..i]), rev);
      u := (u * 4 + rev.Value()) % TWO_32;
    }
    assert d[..16] == d;
  }

  function Reverse(s: seq<Word>): (r: seq<Word>)
    ensures |r| == |s|
  {
    if s == [] then [] else Reverse(s[1..]) + [s[0]]
  }

  lemma {:induction false} ReverseAt(s: seq<Word>, i: nat)
    requires i < |s|
    ensures Reverse(s)[i] == s[|s| - 1 - i]
  {
    if i < |s| - 1 {
      ReverseAt(s[1..], i);
    }
  }

  /** The first n words of a group too short to be full: each reads past the end or from the start. */
  function ShortGroup(s: seq<Word>, n: nat): (r: seq<Word>)
    requires n <= 8
    ensures |r| == n
  {
    if n == 0 then [] else ShortGroup(s, n - 1) + [WordOrZero(s, 8 - n)]
  }

  lemma {:induction false} ShortGroupAt(s: seq<Word>, n: nat, i: nat)
    requires i < n <= 8
    ensures ShortGroup(s, n)[i] == WordOrZero(s, 7 - i)
  {
    if i < n - 1 {
      ShortGroupAt(s, n - 1, i);
    }
  }

  /** Word order reversed within each group of eight. */
  function Reordered(s: seq<Word>): (r: seq<Word>)
    ensures |r| == |s|
  {
    if |s| < 8 then ShortGroup(s, |s|) else Reverse(s[..8]) + Reordered(s[8..])
  }

  lemma NextGroup(i: nat)
    ensures TransformWords128(i + 8) == TransformWords128(i) + 8
  {
  }

  lemma {:induction false} ReorderedAt(s: seq<Word>, i: nat)
    requires i < |s|
    ensures Reordered(s)[i] == WordOrZero(s, TransformWords128(i))
  {
    if |s| < 8 {
      ShortGroupAt(s, |s|, i);
      FirstGroup(i);
    } else if i < 8 {
      ReverseAt(s[..8], i);
      FirstGroup(i);
    } else {
      var rest, k := s[8..], i - 8;
      ReorderedAt(rest, k);
      NextGroup(k);
      assert Reordered(s)[i] == Reordered(rest)[k];
      assert WordOrZero(s, TransformWords128(k) + 8) == WordOrZero(rest, TransformWords128(k));
    }
  }

  lemma FirstGroup(i: nat)
    requires i < 8
    ensures TransformWords128(i) == 7 - i
  {
  }

  function MangleAll(s: seq<Word>): (r: seq<Word>)
    ensures |r| == |s|
  {
    if s == [] then [] else [MangledWord(s[0])] + MangleAll(s[1..])
  }

  lemma {:induction false} MangleAllConcat(a: seq<Word>, b: seq<Word>)
    ensures MangleAll(a + b) == MangleAll(a) + MangleAll(b)
  {
    if a == [] {
      AddNothing(b);
    } else {
      MangleAllConcat(a[1..], b);
      assert (a + b)[1..] == a[1..] + b;
      Assoc([MangledWord(a[0])], MangleAll(a[1..]), MangleAll(b));
    }
  }

  function Unmangled(s: seq<Word>): (r: seq<Word>)
    ensures |r| == |s|
  {
    MangleAll(Reordered(s))
  }

  method AirpacketUnmangle(s: seq<Word>) returns (r: seq<Word>)
    ensures r == Unmangled(s)
  {
    r := [];
    ghost var t := Reordered(s);
    for i := 0 to |s|
      invariant r == MangleAll(t[..i])
    {
      var val := BitMangleSliced(WordOrZero(s, TransformWords128(i)));
      ReorderedAt(s, i);
      MangleAllConcat(t[..i], [t[i]]);
      assert t[..i + 1] == t[..i] + [t[i]];
      r := r + [val];
    }
    assert t[..|s|] == t;
  }

  lemma {:induction false} ReorderedConcat(a: seq<Word>, b: seq<Word>)
    requires |a| % 8 == 0
    ensures Reordered(a + b) == Reordered(a) + Reordered(b)
  {
    if a == [] {
      AddNothing(b);
    } else {
      ReorderedConcat(a[8..], b);
      assert (a + b)[8..] == a[8..] + b && (a + b)[..8] == a[..8];
      Assoc(Reverse(a[..8]), Reordered(a[8..]), Reordered(b));
    }
  }

  /** Reversing words and mangling each is mangling the whole run of symbols. */
  lemma {:induction false} ReversedWordsMangle(s: seq<Word>)
    ensures DibitsOf(MangleAll(Reverse(s))) == Mangle(DibitsOf(s))
  {
    if s != [] {
      ReversedWordsMangle(s[1..]);
      var w := MangledWord(s[0]);
      MangleAllConcat(Reverse(s[1..]), [s[0]]);
      DibitsOfConcat(MangleAll(Reverse(s[1..])), [w]);
      MangledWordDibits(s[0]);
      assert MangleAll([s[0]]) == [w] && DibitsOf([w]) == Dibits(w, 16);
      assert DibitsOf(s) == Dibits(s[0], 16) + DibitsOf(s[1..]);
      MangleConcat(Dibits(s[0], 16), DibitsOf(s[1..]));
    }
  }

  /** On one group, unmangling mangles the 128 symbols of the frame. */
  lemma {:induction false} GroupUnmangles(s: seq<Word>)
    requires |s| == 8
    ensures DibitsOf(Unmangled(s)) == Mangle(DibitsOf(s))
  {
    assert s[..8] == s && Reordered(s[8..]) == [];
    assert Reordered(s) == Reverse(s);
    ReversedWordsMangle(s);
  }

  // ---------- the whole chain

  /** Reverse mover, slicer and unmangling in a row. */
  function Received(rx: seq<Word>): seq<Word> {
    Unmangled(Sliced(Selected(rx, 0)))
  }

  method Receive(rx: seq<Word>) returns (words: seq<Word>)
    ensures words == Received(rx)
  {
    var sliced := DemodData(rx);
    words := AirpacketUnmangle(sliced);
  }

  /** A frame is received on its own. */
  lemma ReceivedConcat(frame: seq<Word>, rest: seq<Word>)
    requires |frame| == 1024
    ensures Received(frame + rest) == Received(frame) + Received(rest)
    ensures |Received(frame)| == 8
  {
    FrameSelection(frame, 0);
    SelectedConcat(frame, rest, 0);
    SelectedByFrame(rest, 0);
    SlicedConcat(Selected(frame, 0), Selected(rest, 0));
    ReorderedConcat(Sliced(Selected(frame, 0)), Sliced(Selected(rest, 0)));
    MangleAllConcat(Reordered(Sliced(Selected(frame, 0))), Reordered(Sliced(Selected(rest, 0))));
  }

  /** The words received from a frame hold its 128 symbols, mangled. */
  lemma {:induction false} FrameReceived(frame: seq<Word>)
    requires |frame| == 1024
    ensures |Selected(frame, 0)| == 128 && |Received(frame)| == 8
    ensures DibitsOf(Received(frame)) == Mangle(Signs(Selected(frame, 0)))
  {
    FrameSelection(frame, 0);
    SlicedDibits(Selected(frame, 0));
    GroupUnmangles(Sliced(Selected(frame, 0)));
  }

  /** The mapper puts the flipped data bits in the sign positions. */
  lemma QpskSigns(d: Dibit)
    ensures SignBits(QPSK[d.Value()]) == Flip(d)
  {
    assert d.Value() == 0 || d.Value() == 1 || d.Value() == 2 || d.Value() == 3;
  }

  /** The four points all have the same amplitude; a set bit makes its part positive. */
  lemma QpskPoint(d: Dibit)
    ensures Upper(QPSK[d.Value()]) == (if d.lo then 5793 else -5793)
    ensures Lower(QPSK[d.Value()]) == (if d.hi then 5793 else -5793)
  {
    assert d.Value() == 0 || d.Value() == 1 || d.Value() == 2 || d.Value() == 3;
  }

  /** What the sample on subcarrier sc of a frame is, when bits is the word's share for it. */
  predicate SampleFor(x: Word, sc: nat, bits: nat) {
    if sc % 2 == 1 && (sc <= 127 || sc >= 897)
    then Upper(x) == (if bits % 2 == 1 then 5793 else -5793) && Lower(x) == (if bits / 2 == 1 then 5793 else -5793)
    else x == if sc <= 128 || sc >= 896 then 0x2000 else 0
  }

  /** Which of a frame's 128 pairs of bits subcarrier sc carries. */
  function PairOn(sc: nat): (k: nat)
    ensures sc < 1024 ==> k < 128
  {
    if sc <= 127 then sc / 2 else if sc >= 897 then 64 + (sc - 897) / 2 else 0
  }

  /** Pair i of a word's bits, from the low end. */
  function PairOf(w: Word, i: nat): nat {
    w / Pow4(i) % 4
  }

  /** The sample for subcarrier sc of frame f of the packet a. */
  ghost predicate Carries(a: seq<Word>, f: nat, sc: nat, x: Word)
    requires 8 * f + 8 <= |a| && sc < 1024
  {
    var k := PairOn(sc);
    SampleFor(x, sc, PairOf(a[8 * f + k / 16], k % 16))
  }

  /** Frame by frame, every sample of tx is the one for the packet a. */
  ghost predicate AllCarry(a: seq<Word>, tx: seq<Word>) {
    |a| >= 8 ==>
      |tx| >= 1024 && (forall sc: nat | sc < 1024 :: Carries(a[..8], 0, sc, tx[sc])) && AllCarry(a[8..], tx[1024..])
  }

  lemma {:induction false} AcceptedAllCarry(a: seq<Word>)
    requires |a| % 8 == 0
    ensures AllCarry(a, Accepted(a))
    decreases |a|
  {
    if a != [] {
      AcceptedAllCarry(a[8..]);
      AcceptedByGroup(a);
      FirstAllCarry(a[..8], Accepted(a[8..]));
      PartsOfConcat(Accepted(a[..8]), Accepted(a[8..]));
    }
  }

  lemma {:induction false} FirstAllCarry(group: seq<Word>, rest: seq<Word>)
    requires |group| == 8
    ensures forall sc: nat | sc < 1024 :: Carries(group, 0, sc, (Accepted(group) + rest)[sc])
  {
    forall sc: nat | sc < 1024 ensures Carries(group, 0, sc, (Accepted(group) + rest)[sc]) {
      FirstFrameSample(group, sc);
      IndexInFirst(Accepted(group), rest, sc);
    }
  }

  lemma {:induction false} CarryAt(a: seq<Word>, tx: seq<Word>, f: nat, sc: nat)
    requires 8 * f + 8 <= |a| && sc < 1024 && AllCarry(a, tx)
    ensures 1024 * f + sc < |tx| && Carries(a, f, sc, tx[1024 * f + sc])
    decreases f
  {
    if f == 0 {
      OfFirstWords(a, sc, tx[sc]);
    } else {
      CarryAt(a[8..], tx[1024..], f - 1, sc);
      assert tx[1024..][1024 * (f - 1) + sc] == tx[1024 * f + sc];
      OfLaterWords(a, f, sc, tx[1024 * f + sc]);
    }
  }

  /**
   * Every sample of an expanded packet: on the odd subcarriers up to 127 and from 897 the points of the words' bits,
   * two by two from the low end, eight words to a frame; on the even ones there the pilot; and nothing between.
   */
  lemma {:induction false} AcceptedSamples(a: seq<Word>, f: nat, sc: nat)
    requires |a| % 8 == 0 && 8 * f + 8 <= |a| && sc < 1024
    ensures 1024 * f + sc < |Accepted(a)| && Carries(a, f, sc, Accepted(a)[1024 * f + sc])
  {
    AcceptedAllCarry(a);
    CarryAt(a, Accepted(a), f, sc);
  }

  lemma OfFirstWords(a: seq<Word>, sc: nat, x: Word)
    requires |a| >= 8 && sc < 1024 && Carries(a[..8], 0, sc, x)
    ensures Carries(a, 0, sc, x)
  {
  }

  lemma OfLaterWords(a: seq<Word>, f: nat, sc: nat, x: Word)
    requires f > 0 && 8 * f + 8 <= |a| && sc < 1024 && Carries(a[8..], f - 1, sc, x)
    ensures Carries(a, f, sc, x)
  {
    var j := PairOn(sc) / 16;
    assert a[8..][8 * (f - 1) + j] == a[8 * f + j];
  }

  lemma FirstFrameSample(a: seq<Word>, sc: nat)
    requires |a| == 8 && sc < 1024
    ensures Carries(a, 0, sc, Accepted(a)[sc])
  {
    var k, d := PairOn(sc), DibitsOf(a);
    AcceptedOne(a);
    FramePointAt(d, 1024, sc);
    PairIsDibit(a, k);
    PointCarries(d, sc, PairOf(a[k / 16], k % 16));
  }

  lemma {:induction false} PairIsDibit(a: seq<Word>, k: nat)
    requires k < 16 * |a|
    ensures DibitsOf(a)[k].Value() == PairOf(a[k / 16], k % 16)
  {
    DibitInList(a, k / 16, k % 16);
    DibitByPower(a[k / 16], 16, k % 16);
  }

  lemma PointCarries(d: seq<Dibit>, sc: nat, bits: nat)
    requires |d| == 128 && sc < 1024 && d[PairOn(sc)].Value() == bits
    ensures SampleFor(Point(d, sc), sc, bits)
  {
    QpskPoint(d[PairOn(sc)]);
  }

  /** Two inverse transforms in a row send subcarrier sc of a frame to 1024 - sc. */
  function Mirror(sc: nat): (m: nat)
    requires sc < 1024
    ensures m < 1024
  {
    (1024 - sc) % 1024
  }

  /**
   * The channel, frame by frame: a received data subcarrier carries the signs of the transmitted one, or of its
   * mirror image. Amplitudes are free, and so are the pilots and the silent subcarriers.
   */
  ghost predicate CarriesSigns(tx: seq<Word>, rx: seq<Word>, mirrored: bool) {
    && |rx| == |tx|
    && (|tx| >= 1024 ==> FrameCarries(tx, rx, mirrored) && CarriesSigns(tx[1024..], rx[1024..], mirrored))
  }

  /** The first frame. */
  ghost predicate FrameCarries(tx: seq<Word>, rx: seq<Word>, mirrored: bool)
    requires |rx| == |tx| >= 1024
  {
    forall sc: nat | sc < 1024 && Enabled(sc) ::
      SameSigns(rx[sc], tx[if mirrored then Mirror(sc) else sc])
  }

  lemma FrameCarriesAlone(tx: seq<Word>, rx: seq<Word>, mirrored: bool)
    requires |rx| == |tx| >= 1024
    ensures FrameCarries(tx[..1024], rx[..1024], mirrored) <==> FrameCarries(tx, rx, mirrored)
  {
    assert forall sc: nat | sc < 1024 :: tx[..1024][sc] == tx[sc] && rx[..1024][sc] == rx[sc];
  }

  /** The k-th data point of a frame carries dibit k of the group. */
  lemma {:induction false} FrameSigns(a: seq<Word>, k: nat)
    requires |a| == 8 && k < 128
    ensures SignBits(Accepted(a)[Subcarrier(k)]) == Flip(DibitsOf(a)[k])
  {
    AcceptedOne(a);
    FramePointAt(DibitsOf(a), 1024, Subcarrier(k));
    QpskSigns(DibitsOf(a)[k]);
  }

  /** The channel takes the frame of the first eight words, and the frames of the rest, on their own. */
  lemma {:induction false} FirstFrame(a: seq<Word>, rx: seq<Word>, mirrored: bool)
    requires |a| % 8 == 0 && a != [] && CarriesSigns(Accepted(a), rx, mirrored)
    ensures CarriesSigns(Accepted(a[..8]), rx[..1024], mirrored)
    ensures CarriesSigns(Accepted(a[8..]), rx[1024..], mirrored)
  {
    var tx := Accepted(a);
    AcceptedByGroup(a);
    PartsOfConcat(Accepted(a[..8]), Accepted(a[8..]));
    FrameCarriesAlone(tx, rx, mirrored);
  }

  lemma MirrorReversesRank(k: nat)
    requires k < 128
    ensures Mirror(Subcarrier(k)) == Subcarrier(127 - k)
  {
  }

  /** What the receiver slices from a frame: the flipped dibits in order, or mangled if the channel mirrors. */
  lemma {:induction false} FrameSliced(a: seq<Word>, rx: seq<Word>, mirrored: bool, k: nat)
    requires |a| == 8 && CarriesSigns(Accepted(a), rx, mirrored) && k < 128
    ensures |Selected(rx, 0)| == 128
    ensures Signs(Selected(rx, 0))[k] == Flip(DibitsOf(a)[if mirrored then 127 - k else k])
  {
    var j := if mirrored then 127 - k else k;
    FrameSelection(rx, k);
    SignsAt(Selected(rx, 0), k);
    MirrorReversesRank(k);
    FrameSigns(a, j);
    SameSignsSameBits(rx[Subcarrier(k)], Accepted(a)[Subcarrier(j)]);
  }

  lemma {:induction false} FrameRoundTrip(a: seq<Word>, rx: seq<Word>)
    requires |a| == 8 && CarriesSigns(Accepted(a), rx, true)
    ensures Received(rx) == a
  {
    var d := DibitsOf(a);
    FrameReceived(rx);
    forall k | 0 <= k < 128 ensures Signs(Selected(rx, 0))[k] == Mangle(d)[k] {
      FrameSliced(a, rx, true, k);
      MangleAt(d, k);
    }
    assert Signs(Selected(rx, 0)) == Mangle(d);
    MangleTwice(d);
    DibitsDetermineWords(Received(rx), a);
  }

  lemma {:induction false} FirstGroupReturns(a: seq<Word>, rx: seq<Word>)
    requires |a| % 8 == 0 && a != [] && CarriesSigns(Accepted(a), rx, true)
    ensures |rx| >= 1024 && CarriesSigns(Accepted(a[8..]), rx[1024..], true)
    ensures Received(rx) == a[..8] + Received(rx[1024..])
  {
    FirstFrame(a, rx, true);
    FrameRoundTrip(a[..8], rx[..1024]);
    ReceivedConcat(rx[..1024], rx[1024..]);
    SplitAt(rx, 1024);
  }

  /** With the mirrored channel the receiver gets back exactly the words that were sent. */
  lemma {:induction false} RoundTrip(a: seq<Word>, rx: seq<Word>)
    requires |a| % 8 == 0 && CarriesSigns(Accepted(a), rx, true)
    ensures Received(rx) == a
    decreases |a|
  {
    if a != [] {
      FirstGroupReturns(a, rx);
      RoundTrip(a[8..], rx[1024..]);
      SplitAt(a, 8);
    }
  }

  /** One channel of this kind: every frame mirrored, amplitudes kept; a rest of a frame passes unchanged. */
  function Mirrored(tx: seq<Word>): (rx: seq<Word>)
    ensures |rx| == |tx|
  {
    if |tx| < 1024 then tx else MirroredFrame(tx[..1024]) + Mirrored(tx[1024..])
  }

  function MirroredFrame(frame: seq<Word>): (r: seq<Word>)
    requires |frame| == 1024
    ensures |r| == 1024 && forall sc: nat | sc < 1024 :: r[sc] == frame[Mirror(sc)]
  {
    seq(1024, sc requires 0 <= sc < 1024 => frame[Mirror(sc)])
  }

  lemma {:induction false} MirroredCarriesSigns(tx: seq<Word>)
    ensures CarriesSigns(tx, Mirrored(tx), true)
  {
    if |tx| >= 1024 {
      var first, rest := MirroredFrame(tx[..1024]), Mirrored(tx[1024..]);
      MirroredCarriesSigns(tx[1024..]);
      assert Mirrored(tx) == first + rest && (first + rest)[1024..] == rest;
      forall sc: nat | sc < 1024 ensures SameSigns(Mirrored(tx)[sc], tx[Mirror(sc)]) {
        assert Mirrored(tx)[sc] == first[sc] == tx[..1024][Mirror(sc)];
      }
    }
  }

  /** Mapper, mirroring channel and receiver in a row give back every word list that the mapper takes. */
  method Loopback(a: seq<Word>) returns (r: Result<seq<Word>>)
    ensures r == if |a| % 8 == 0 then Ok(a) else OutOfBounds
  {
    var mapper := new Mapper();
    mapper.Reset();
    var sent := mapper.Accept(a);
    if sent.OutOfBounds? {
      return OutOfBounds;
    }
    var words := Receive(Mirrored(sent.value));
    MirroredCarriesSigns(sent.value);
    RoundTrip(a, Mirrored(sent.value));
    r := Ok(words);
  }

  /** Without a mirror the chain hands back the 128 dibits of a frame in reverse. */
  lemma {:induction false} StraightChainReversesFrame(a: seq<Word>, rx: seq<Word>, k: nat)
    requires |a| == 8 && CarriesSigns(Accepted(a), rx, false) && k < 128
    ensures |Received(rx)| == 8 && DibitsOf(Received(rx))[k] == DibitsOf(a)[127 - k]
  {
    FrameReceived(rx);
    FrameSliced(a, rx, false, 127 - k);
    MangleAt(Signs(Selected(rx, 0)), k);
  }

  /** The words with the dibits of each group of eight reversed. */
  ghost predicate GroupsReversed(a: seq<Word>, b: seq<Word>) {
    && |a| == |b|
    && (|a| >= 8 ==>
          && (forall k: nat | k < 128 :: DibitsOf(b[..8])[k] == DibitsOf(a[..8])[127 - k])
          && GroupsReversed(a[8..], b[8..]))
  }

  /** Without a mirror, frame by frame, the same words come back with their dibits reversed. */
  lemma {:induction false} StraightChain(a: seq<Word>, rx: seq<Word>)
    requires |a| % 8 == 0 && CarriesSigns(Accepted(a), rx, false)
    ensures GroupsReversed(a, Received(rx))
    decreases |a|
  {
    if a != [] {
      FirstGroupReversed(a, rx);
      StraightChain(a[8..], rx[1024..]);
    }
  }

  lemma {:induction false} FirstGroupReversed(a: seq<Word>, rx: seq<Word>)
    requires |a| % 8 == 0 && a != [] && CarriesSigns(Accepted(a), rx, false)
    ensures |rx| >= 1024 && CarriesSigns(Accepted(a[8..]), rx[1024..], false)
    ensures |Received(rx)| >= 8 && Received(rx)[8..] == Received(rx[1024..])
    ensures forall k: nat | k < 128 :: DibitsOf(Received(rx)[..8])[k] == DibitsOf(a[..8])[127 - k]
  {
    var frame := rx[..1024];
    FirstFrame(a, rx, false);
    ReceivedConcat(frame, rx[1024..]);
    SplitAt(rx, 1024);
    PartsOfConcat(Received(frame), Received(rx[1024..]));
    forall k: nat | k < 128 ensures DibitsOf(Received(frame))[k] == DibitsOf(a[..8])[127 - k] {
      StraightChainReversesFrame(a[..8], frame, k);
    }
  }
}
