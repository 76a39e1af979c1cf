/** 32-bit words as base-4 numerals: sixteen two-bit digits ("dibits"), least significant first. */
module Words {
  import opened Seqs

  const TWO_32: int := 0x1_0000_0000

  type Word = w: int | 0 <= w < TWO_32

  type Byte = b: int | 0 <= b < 256

  function Pow2(n: nat): (p: nat)
    ensures p > 0
  {
    if n == 0 then 1 else 2 * Pow2(n - 1)
  }

  lemma Pow2Of32()
    ensures Pow2(32) == TWO_32
  {
    assert Pow2(8) == 0x100;
    assert Pow2(16) == 0x1_0000;
    assert Pow2(24) == 0x100_0000;
  }

  datatype Dibit = Dibit(hi: bool, lo: bool) {
    function Value(): (v: nat)
      ensures v < 4
    {
      (if hi then 2 else 0) + if lo then 1 else 0
    }
  }

  const ZERO: Dibit := Dibit(false, false)

  /** `v & 3`. */
  function Low(v: nat): Dibit {
    var d := v % 4;
    Dibit(d == 2 || d == 3, d == 1 || d == 3)
  }

  lemma LowValue(v: nat)
    ensures Low(v).Value() == v % 4
  {
  }

  lemma LowOfDigit(d: Dibit, rest: nat)
    ensures Low(d.Value() + 4 * rest) == d && (d.Value() + 4 * rest) / 4 == rest
  {
  }

  function Pow4(n: nat): (p: nat)
    ensures p >= 1
  {
    if n == 0 then 1 else 4 * Pow4(n - 1)
  }

  /** `w >> (2*i)`. */
  function ShiftRight(w: nat, i: nat): nat {
    if i == 0 then w else ShiftRight(w / 4, i - 1)
  }

  /** The n low dibits of w. */
  function Dibits(w: nat, n: nat): (d: seq<Dibit>)
    ensures |d| == n
  {
    if n == 0 then [] else [Low(w)] + Dibits(w / 4, n - 1)
  }

  function FromDibits(d: seq<Dibit>): nat {
    if d == [] then 0 else d[0].Value() + 4 * FromDibits(d[1..])
  }

  lemma {:induction false} FromDibitsBound(d: seq<Dibit>)
    ensures FromDibits(d) < Pow4(|d|)
  {
    if d != [] {
      FromDibitsBound(d[1..]);
    }
  }

  lemma {:induction false} PowMonotone(m: nat, n: nat)
    requires m <= n
    ensures Pow4(m) <= Pow4(n)
    decreases n
  {
    if m < n {
      PowMonotone(m, n - 1);
    }
  }

  lemma WordRange()
    ensures Pow4(16) == TWO_32 && Pow4(15) == 0x4000_0000
  {
    assert Pow4(4) == 256;
    assert Pow4(8) == 0x1_0000;
    assert Pow4(12) == 0x100_0000;
  }

  lemma {:induction false} FitsInWord(d: seq<Dibit>)
    requires |d| <= 16
    ensures FromDibits(d) < TWO_32
  {
    WordRange();
    FromDibitsBound(d);
    PowMonotone(|d|, 16);
  }

  lemma {:induction false} DibitByShift(w: nat, n: nat, i: nat)
    requires i < n
    ensures Dibits(w, n)[i] == Low(ShiftRight(w, i))
  {
    if i > 0 {
      DibitByShift(w / 4, n - 1, i - 1);
    }
  }

  /** Dibit i of a word by its value: `(w >> (2*i)) & 3`. */
  lemma {:induction false} DibitByPower(w: nat, n: nat, i: nat)
    requires i < n
    ensures Dibits(w, n)[i].Value() == w / Pow4(i) % 4
  {
    if i > 0 {
      DibitByPower(w / 4, n - 1, i - 1);
      QuarterThenDivide(w, Pow4(i - 1));
    } else {
      LowValue(w);
    }
  }

  lemma QuarterThenDivide(w: nat, b: nat)
    requires b > 0
    ensures w / 4 / b == w / (4 * b)
  {
    var q := w / 4;
    var p, r := q / b, q % b;
    FourTimes(p, b);
    QuotientIs(w, 4 * b, p, 4 * r + w % 4);
  }

  lemma FourTimes(p: nat, b: nat)
    ensures p * (4 * b) == 4 * (p * b)
  {
  }

  lemma QuotientIs(w: nat, n: nat, q: nat, r: nat)
    requires w == q * n + r && r < n
    ensures w / n == q
  {
    var p := w / n;
    if p < q {
      LessTimes(p, q, n);
    } else if q < p {
      LessTimes(q, p, n);
    }
  }

  lemma LessTimes(p: nat, q: nat, n: nat)
    requires p < q
    ensures p * n + n <= q * n
  {
    assert (q - p) * n == q * n - p * n;
    AtLeastOnce(q - p, n);
  }

  lemma AtLeastOnce(k: nat, n: nat)
    requires k >= 1
    ensures k * n >= n
  {
  }

  lemma {:induction false} DibitsOfFromDibits(d: seq<Dibit>)
    ensures Dibits(FromDibits(d), |d|) == d
  {
    if d != [] {
      DibitsOfFromDibits(d[1..]);
      LowOfDigit(d[0], FromDibits(d[1..]));
    }
  }

  lemma {:induction false} FromDibitsOfDibits(w: nat, n: nat)
    requires w < Pow4(n)
    ensures FromDibits(Dibits(w, n)) == w
  {
    if n > 0 {
      FromDibitsOfDibits(w / 4, n - 1);
      LowValue(w);
      assert Dibits(w, n)[1..] == Dibits(w / 4, n - 1);
    }
  }

  lemma {:induction false} FromDibitsAppend(d: seq<Dibit>, b: Dibit)
    ensures FromDibits(d + [b]) == FromDibits(d) + b.Value() * Pow4(|d|)
  {
    if d == [] {
      AddNothing([b]);
    } else {
      FromDibitsAppend(d[1..], b);
      DropOfConcat(d, [b], 1);
      Distribute(FromDibits(d[1..]), b.Value(), Pow4(|d| - 1));
    }
  }

  lemma Distribute(r: nat, v: nat, p: nat)
    ensures 4 * (r + v * p) == 4 * r + v * (4 * p)
  {
  }

  lemma {:induction false} FromZeros(n: nat)
    ensures FromDibits(Repeat(ZERO, n)) == 0
  {
    if n > 0 {
      FromZeros(n - 1);
      assert Repeat(ZERO, n)[1..] == Repeat(ZERO, n - 1);
    }
  }

  /** `(w >> 2) | (b << 30)` drops the first dibit and appends b. */
  lemma {:induction false} ShiftInTop(d: seq<Dibit>, b: Dibit)
    requires |d| == 16
    ensures FromDibits(d) / 4 + b.Value() * 0x4000_0000 == FromDibits(d[1..] + [b]) < TWO_32
  {
    WordRange();
    FromDibitsAppend(d[1..], b);
    FitsInWord(d[1..] + [b]);
  }

  /** `(w << 2) | b` prepends b. */
  lemma {:induction false} ShiftInBottom(d: seq<Dibit>, b: Dibit)
    requires |d| < 16
    ensures (FromDibits(d) * 4 + b.Value()) % TWO_32 == FromDibits([b] + d) < TWO_32
  {
    FitsInWord([b] + d);
    assert ([b] + d)[1..] == d;
  }

  lemma ComplementLow(w: nat, c: nat)
    requires c % 4 == 3 - w % 4
    ensures Low(c) == Dibit(!Low(w).hi, !Low(w).lo)
  {
  }

  /** The bitwise complement inverts both bits of every dibit. */
  lemma {:induction false} ComplementDibits(w: nat, c: nat, n: nat, i: nat)
    requires w + c == Pow4(n) - 1 && i < n
    ensures var d := Dibits(w, n)[i]; Dibits(c, n)[i] == Dibit(!d.hi, !d.lo)
  {
    assert w % 4 + c % 4 == 3 && w / 4 + c / 4 == Pow4(n - 1) - 1;
    if i == 0 {
      ComplementLow(w, c);
    } else {
      ComplementDibits(w / 4, c / 4, n - 1, i - 1);
    }
  }

  lemma {:induction false} ComplementDibit(w: Word, i: nat)
    requires i < 16
    ensures var d := Dibits(w, 16)[i]; Low(ShiftRight(TWO_32 - 1 - w, i)) == Dibit(!d.hi, !d.lo)
  {
    WordRange();
    ComplementDibits(w, TWO_32 - 1 - w, 16, i);
    DibitByShift(TWO_32 - 1 - w, 16, i);
  }

  function DibitsOf(ws: seq<Word>): (d: seq<Dibit>)
    ensures |d| == 16 * |ws|
  {
    if ws == [] then [] else Dibits(ws[0], 16) + DibitsOf(ws[1..])
  }

  lemma {:induction false} DibitsOfConcat(a: seq<Word>, b: seq<Word>)
    ensures DibitsOf(a + b) == DibitsOf(a) + DibitsOf(b)
  {
    if a == [] {
      AddNothing(b);
    } else {
      DibitsOfConcat(a[1..], b);
      assert (a + b)[1..] == a[1..] + b;
      Assoc(Dibits(a[0], 16), DibitsOf(a[1..]), DibitsOf(b));
    }
  }

  lemma {:induction false} DibitInList(ws: seq<Word>, n: nat, i: nat)
    requires n < |ws| && i < 16
    ensures DibitsOf(ws)[16 * n + i] == Dibits(ws[n], 16)[i]
  {
    var first, rest := Dibits(ws[0], 16), DibitsOf(ws[1..]);
    if n == 0 {
      IndexInFirst(first, rest, i);
    } else {
      DibitInList(ws[1..], n - 1, i);
      IndexInSecond(first, rest, 16 * (n - 1) + i);
    }
  }

  /** Word lists of one length with the same dibits are the same list. */
  lemma {:induction false} DibitsDetermineWords(a: seq<Word>, b: seq<Word>)
    requires |a| == |b| && DibitsOf(a) == DibitsOf(b)
    ensures a == b
  {
    if a != [] {
      assert DibitsOf(a)[..16] == Dibits(a[0], 16) && DibitsOf(b)[..16] == Dibits(b[0], 16);
      assert DibitsOf(a)[16..] == DibitsOf(a[1..]) && DibitsOf(b)[16..] == DibitsOf(b[1..]);
      WordRange();
      FromDibitsOfDibits(a[0], 16);
      FromDibitsOfDibits(b[0], 16);
      DibitsDetermineWords(a[1..], b[1..]);
    }
  }

  // ---------- words as bytes

  /** A word as four bytes, least significant first. */
  function BytesOfWord(w: Word): (b: seq<Byte>)
    ensures |b| == 4
  {
    var v: int := w;
    var v8: int := v / 256;
    var v16: int := v8 / 256;
    [v % 256, v8 % 256, v16 % 256, v16 / 256]
  }

  /** They read as the word. */
  lemma BytesOfWordMean(w: Word)
    ensures var b := BytesOfWord(w);
            b[0] as int + 256 * (b[1] as int + 256 * (b[2] as int + 256 * b[3] as int)) == w
  {
  }

  function BytesOf(ws: seq<Word>): (b: seq<Byte>)
    ensures |b| == 4 * |ws|
  {
    if ws == [] then [] else BytesOfWord(ws[0]) + BytesOf(ws[1..])
  }
}
