/** The TDMA schedule: 50 timeslots of 512 frames to the epoc, read off a wrapping uint32 frame counter. */
module Schedule {
  import opened Words

  const SLOTS: int := 50
  const LENGTH: int := 512
  const FRAMES: int := 25600

  /** Storing a number in a uint32. */
  function U32(x: int): Word {
    x % TWO_32
  }

  lemma U32Turns(x: int, q: int)
    ensures U32(x + q * TWO_32) == U32(x)
  {
  }

  lemma U32OfSmall(x: int)
    requires 0 <= x < TWO_32
    ensures U32(x) == x
  {
  }

  lemma U32Add(x: int, y: int)
    ensures U32(U32(x) + y) == U32(x + y)
  {
    U32Turns(x + y, -(x / TWO_32));
  }

  lemma U32Sub(x: int, y: int)
    ensures U32(x - U32(y)) == U32(x - y)
  {
    U32Turns(x - y, y / TWO_32);
  }

  /** The schedule lookup's wrapping subtractions cancel, whatever the counter. */
  lemma ProgressMeaning(counter: Word, sample: Word, timeslot: Word)
    requires sample < FRAMES && timeslot == sample / LENGTH
    ensures timeslot < SLOTS
    ensures U32(counter - U32(U32(timeslot * LENGTH) + U32(counter - sample))) == sample % LENGTH
  {
    U32Add(timeslot * LENGTH, U32(counter - sample));
    U32Add(counter - sample, timeslot * LENGTH);
    U32Sub(counter, timeslot * LENGTH + counter - sample);
    U32OfSmall(sample % LENGTH);
  }

  /** `slot & mask` is non-zero. */
  predicate MaskHits(slot: nat, mask: nat) {
    slot > 0 && mask > 0 && ((slot % 2 == 1 && mask % 2 == 1) || MaskHits(slot / 2, mask / 2))
  }

  /** Bit i of a word. */
  predicate BitSet(w: nat, i: nat) {
    w / Pow2(i) % 2 == 1
  }

  lemma BitZero(w: nat)
    ensures BitSet(w, 0) <==> w % 2 == 1
  {
    assert w / 1 == w;
  }

  lemma BitOfHalf(w: nat, i: nat)
    ensures BitSet(w, i + 1) <==> BitSet(w / 2, i)
  {
    HalveThenDivide(w, Pow2(i));
  }

  lemma HalveThenDivide(w: nat, b: nat)
    requires b > 0
    ensures w / 2 / b == w / (2 * b)
  {
    var q := w / 2;
    var p, r := q / b, q % b;
    assert p * (2 * b) == 2 * (p * b);
    QuotientIs(w, 2 * b, p, 2 * r + w % 2);
  }

  /** Two words hit each other exactly when they have a bit in common. */
  lemma {:induction false} HitMeansCommonBit(slot: nat, mask: nat, n: nat)
    requires slot < Pow2(n)
    ensures MaskHits(slot, mask) <==> exists i: nat :: i < n && BitSet(slot, i) && BitSet(mask, i)
    decreases n
  {
    if n == 0 {
      assert slot == 0;
    } else {
      BitZero(slot);
      BitZero(mask);
      HitMeansCommonBit(slot / 2, mask / 2, n - 1);
      forall i: nat | i < n - 1
        ensures BitSet(slot, i + 1) == BitSet(slot / 2, i) && BitSet(mask, i + 1) == BitSet(mask / 2, i)
      {
        BitOfHalf(slot, i);
        BitOfHalf(mask, i);
      }
      if MaskHits(slot / 2, mask / 2) {
        var i: nat :| i < n - 1 && BitSet(slot / 2, i) && BitSet(mask / 2, i);
        assert BitSet(slot, i + 1) && BitSet(mask, i + 1);
      }
      if i: nat :| i < n && BitSet(slot, i) && BitSet(mask, i) && i > 0 {
        assert BitSet(slot / 2, i - 1) && BitSet(mask / 2, i - 1);
      }
    }
  }

  lemma {:induction false} MaskHitsItself(mask: nat)
    requires mask > 0
    ensures MaskHits(mask, mask)
  {
    if mask % 2 == 0 {
      MaskHitsItself(mask / 2);
    }
  }

  lemma {:induction false} Pow2InWord(n: nat)
    requires n < 32
    ensures Pow2(n) < TWO_32
  {
    assert Pow2(8) == 0x100;
    assert Pow2(16) == 0x1_0000;
    assert Pow2(24) == 0x100_0000;
    assert Pow2(31) == 0x8000_0000;
    Pow2Monotone(n, 31);
  }

  lemma {:induction false} Pow2Monotone(m: nat, n: nat)
    requires m <= n
    ensures Pow2(m) <= Pow2(n)
    decreases n
  {
    if m < n {
      Pow2Monotone(m, n - 1);
    }
  }

  /** `0x1 << (peer + 1)`, the shift count taken modulo 32. */
  function PeerToMask(peer: Word): Word {
    Pow2InWord(U32(peer + 1) % 32);
    Pow2(U32(peer + 1) % 32)
  }

  /** Two 32-bit words have a bit in common. */
  ghost predicate ShareBit(a: Word, b: Word) {
    exists i: nat :: i < 32 && BitSet(a, i) && BitSet(b, i)
  }

  lemma {:induction false} HitsShareBit(slot: Word, mask: Word)
    ensures MaskHits(slot, mask) <==> ShareBit(slot, mask)
  {
    Pow2Of32();
    HitMeansCommonBit(slot, mask, 32);
  }

  lemma {:induction false} PowerBit(m: nat, i: nat)
    ensures BitSet(Pow2(m), i) <==> i == m
    decreases m
  {
    if i == 0 {
      BitZero(Pow2(m));
      if m > 0 {
        assert Pow2(m) % 2 == 0;
      }
    } else if m == 0 {
      BitOfHalf(1, i - 1);
      NoBitsInZero(i - 1);
    } else {
      BitOfHalf(Pow2(m), i - 1);
      PowerBit(m - 1, i - 1);
    }
  }

  lemma NoBitsInZero(i: nat)
    ensures !BitSet(0, i)
  {
  }

  /** A slot is a peer's exactly when bit peer + 1 of it is set, counted modulo 32. */
  lemma {:induction false} SlotOfPeer(slot: Word, peer: Word)
    ensures MaskHits(slot, PeerToMask(peer)) <==> BitSet(slot, (peer + 1) % 32)
  {
    var m := U32(peer + 1) % 32;
    assert m == (peer + 1) % 32;
    HitsShareBit(slot, PeerToMask(peer));
    forall i: nat | i < 32 ensures BitSet(PeerToMask(peer), i) <==> i == m {
      PowerBit(m, i);
    }
  }

  class Table {
    var s: seq<Word>
    var id: Word
    var idMask: Word
    var offset: Word
    var epocTime: Word

    ghost predicate Valid()
      reads this
    {
      |s| == SLOTS
    }

    constructor ()
      ensures Valid() && idMask == 0 && offset == 0 && epocTime == 0
      ensures forall i | 0 <= i < SLOTS :: s[i] == 0
    {
      s := seq(SLOTS, _ => 0);
      id, idMask, offset, epocTime := 0, 0, 0, 0;
    }

    method SetId(peer: Word)
      modifies this`id, this`idMask
      ensures id == peer && idMask == PeerToMask(peer)
    {
      id := peer;
      idMask := PeerToMask(peer);
    }

    /** Every slot belongs to us. */
    method AllOn()
      requires Valid()
      modifies this`id, this`idMask, this`s
      ensures Valid() && idMask == PeerToMask(1)
      ensures forall i | 0 <= i < SLOTS :: MaskHits(s[i], idMask)
    {
      SetId(1);
      for i := 0 to SLOTS
        invariant Valid() && idMask == PeerToMask(1)
        invariant forall k | 0 <= k < i :: s[k] == idMask
      {
        s := s[i := idMask];
      }
      MaskHitsItself(idMask);
    }

    /** Splits the counter and bumps the epoc whenever a schedule period starts. */
    method GetTimeslot2(counter: Word)
      returns (progress: Word, accumulated: Word, timeslot: Word, epoc: Word, canTx: bool)
      requires Valid()
      modifies this`epocTime
      ensures accumulated == U32(counter + offset) % FRAMES
      ensures timeslot == accumulated / LENGTH < SLOTS && progress == accumulated % LENGTH
      ensures epocTime == epoc == if accumulated == 0 then U32(old(epocTime) + 1) else old(epocTime)
      ensures canTx == MaskHits(s[timeslot], idMask)
    {
      var now := U32(counter + offset);
      var sample := U32(now % FRAMES);
      var counterScheduleStart: int := U32(counter - sample);
      timeslot := U32(sample / LENGTH);
      var start: int := U32(timeslot * LENGTH);
      start := U32(start + counterScheduleStart);
      U32OfSmall(sample / LENGTH);
      ProgressMeaning(counter, sample, timeslot);
      progress := U32(counter - start);
      if timeslot == 0 && progress == 0 {
        epocTime := U32(epocTime + 1);
      }
      epoc := epocTime;
      canTx := MaskHits(s[timeslot], idMask);
      accumulated := sample;
    }
  }

  // ---------- along a run

  /** The epoc after the n-th lookup of a run from epoc 0, the counter counting up from 0. */
  function EpocAt(n: nat): Word {
    var before := if n == 0 then 0 else EpocAt(n - 1);
    if U32(n) % FRAMES == 0 then U32(before + 1) else before
  }

  /** n lookups of a fresh table, its counter counting up from 0 and wrapping, leave exactly that epoc. */
  method LookUp(n: nat) returns (table: Table, accumulated: Word)
    requires n > 0
    ensures fresh(table) && table.Valid() && table.offset == 0
    ensures table.epocTime == EpocAt(n - 1) && accumulated == U32(n - 1) % FRAMES
  {
    table := new Table();
    accumulated := 0;
    for i := 0 to n
      invariant table.Valid() && table.offset == 0
      invariant table.epocTime == if i == 0 then 0 else EpocAt(i - 1)
      invariant i > 0 ==> accumulated == U32(i - 1) % FRAMES
    {
      U32OfSmall(U32(i));
      var progress, acc, timeslot, epoc, canTx := table.GetTimeslot2(U32(i));
      accumulated := acc;
    }
  }

  /** What q full turns and r more ticks add up to. */
  function Bumps(q: nat, r: nat): nat {
    q * 167773 + r / FRAMES + 1
  }

  /** Each full turn of the counter holds 167772.16 periods, so it bumps the epoc 167773 times. */
  lemma BumpsStep(q: nat, r: nat)
    requires r < TWO_32
    ensures r > 0 ==> Bumps(q, r) == Bumps(q, r - 1) + if r % FRAMES == 0 then 1 else 0
    ensures q > 0 ==> Bumps(q, 0) == Bumps(q - 1, TWO_32 - 1) + 1
  {
    if r > 0 {
      EpocStep(r);
    }
  }

  lemma {:induction false} EpocAfterTurns(q: nat, r: nat, n: nat)
    requires r < TWO_32 && n == q * TWO_32 + r
    ensures EpocAt(n) == U32(Bumps(q, r))
    decreases n
  {
    U32Turns(r, q);
    U32OfSmall(r);
    BumpsStep(q, r);
    if r > 0 {
      EpocAfterTurns(q, r - 1, n - 1);
      EpocFollows(n, r, Bumps(q, r - 1));
    } else if q > 0 {
      EpocAfterTurns(q - 1, TWO_32 - 1, n - 1);
      EpocFollows(n, r, Bumps(q - 1, TWO_32 - 1));
    }
  }

  lemma EpocFollows(n: nat, r: nat, bumps: nat)
    requires n > 0 && U32(n) == r && EpocAt(n - 1) == U32(bumps)
    ensures EpocAt(n) == U32(bumps + if r % FRAMES == 0 then 1 else 0)
  {
    U32Add(bumps, 1);
  }

  lemma EpocStep(r: nat)
    requires r > 0
    ensures r / FRAMES == (r - 1) / FRAMES + if r % FRAMES == 0 then 1 else 0
  {
  }

  /** Epoc and accumulated progress count frames exactly until the counter wraps, and never again. */
  lemma {:induction false} EpocCountsFrames(n: nat)
    ensures (EpocAt(n) - 1) * FRAMES + U32(n) % FRAMES == n <==> n < TWO_32
  {
    EpocAfterTurns(n / TWO_32, n % TWO_32, n);
    if n < TWO_32 {
      EpocWithinTurn(n);
    } else {
      LateEpocFallsShort(n / TWO_32, n % TWO_32);
    }
  }

  lemma {:induction false} EpocWithinTurn(n: nat)
    requires n < TWO_32
    ensures EpocAt(n) == n / FRAMES + 1 && U32(n) == n
  {
    EpocAfterTurns(0, n, n);
    U32OfSmall(n);
    U32OfSmall(n / FRAMES + 1);
  }

  lemma LateEpocFallsShort(q: nat, r: nat)
    requires q >= 1 && r < TWO_32
    ensures (U32(Bumps(q, r)) - 1) * FRAMES + r % FRAMES != q * TWO_32 + r
  {
    var total := Bumps(q, r);
    var bumps := U32(total);
    if bumps == total {
      assert (bumps - 1) * FRAMES + r % FRAMES == q * (167773 * FRAMES) + r;
    } else {
      assert total >= TWO_32 && bumps < TWO_32;
      assert q >= 25599;
    }
  }

  // ---------- the host's prediction

  type EpocFrame = (int, int)

  /** n frames later. */
  function AddFrames(st: EpocFrame, n: int): EpocFrame {
    var t := st.1 + n;
    if t < 0 then (st.0, t) else (st.0 + t / FRAMES, t % FRAMES)
  }

  method AddFramesToSchedule(st: EpocFrame, frames: int) returns (ret: EpocFrame)
    requires st.1 >= 0
    ensures ret == AddFrames(st, frames)
  {
    var e, f := st.0, st.1;
    var outstanding := frames;
    while outstanding > FRAMES
      invariant outstanding >= 0 || outstanding == frames
      invariant e >= st.0 && outstanding + (e - st.0) * FRAMES == frames
      invariant e > st.0 ==> outstanding > 0
    {
      outstanding := outstanding - FRAMES;
      e := e + 1;
    }
    f := f + outstanding;
    while f >= FRAMES
      invariant f >= 0 || (f == st.1 + frames && e == st.0)
      invariant f + (e - st.0) * FRAMES == st.1 + frames
    {
      f := f - FRAMES;
      e := e + 1;
    }
    return (e, f);
  }

  lemma AddFramesComposes(st: EpocFrame, m: nat, n: nat)
    requires st.1 >= 0
    ensures AddFrames(AddFrames(st, m), n) == AddFrames(st, m + n)
  {
  }

  /** From tick m of a run, k more ticks reach exactly the predicted epoc and frame. */
  lemma {:induction false} TicksReachPrediction(m: nat, k: nat)
    requires m + k < TWO_32
    ensures (EpocAt(m + k), U32(m + k) % FRAMES) == AddFrames((EpocAt(m), U32(m) % FRAMES), k)
  {
    EpocWithinTurn(m);
    EpocWithinTurn(m + k);
    SplitFrames(m, k);
  }

  /** The same of the table: predicting from lookup m on agrees with looking up k times more. */
  method PredictionHolds(m: nat, k: nat) returns (predicted: EpocFrame, actual: EpocFrame)
    requires m + k < TWO_32
    ensures predicted == actual
  {
    var now, nowFrame := LookUp(m + 1);
    predicted := AddFramesToSchedule((now.epocTime, nowFrame), k);
    var later, laterFrame := LookUp(m + k + 1);
    actual := (later.epocTime, laterFrame);
    TicksReachPrediction(m, k);
  }

  lemma SplitFrames(m: nat, k: nat)
    ensures m / FRAMES + (m % FRAMES + k) / FRAMES == (m + k) / FRAMES
    ensures (m % FRAMES + k) % FRAMES == (m + k) % FRAMES
  {
  }
}
