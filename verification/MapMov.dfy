/** The QPSK mapper and mover: data words spread over 128 of the 1024 subcarriers of each frame. */
module MapMov {
  import opened Seqs
  import opened Words

  datatype Result<+T> = Ok(value: T) | OutOfBounds

  const HEADER_WORDS: int := 16
  const QPSK: seq<Word> := [0xe95fe95f, 0x16a1e95f, 0xe95f16a1, 0x16a116a1]
  const PILOT: Word := 0x2000

  /** Subcarriers that carry data: the odd ones below 129 or above 896. */
  predicate Enabled(sc: nat) {
    sc % 2 == 1 && (sc < 129 || sc > 896)
  }

  function PilotAt(sc: nat): Word {
    if sc <= 128 || sc >= 896 then PILOT else 0
  }

  /** How many enabled subcarriers lie below sc. */
  function Rank(sc: nat): (k: nat)
    ensures sc < 1024 ==> k < 128
  {
    if sc <= 128 then sc / 2 else if sc <= 896 then 64 else 64 + (sc - 896) / 2
  }

  /** The k-th enabled subcarrier. */
  function Subcarrier(k: nat): (sc: nat)
    requires k < 128
    ensures sc < 1024 && Enabled(sc) && Rank(sc) == k
  {
    if k < 64 then 2 * k + 1 else 897 + 2 * (k - 64)
  }

  /** What subcarrier sc of a frame carries, for the frame's 128 dibits. */
  function Point(d: seq<Dibit>, sc: nat): Word
    requires |d| == 128 && sc < 1024
  {
    if Enabled(sc) then QPSK[d[Rank(sc)].Value()] else PilotAt(sc)
  }

  /** The first n samples of the frame. */
  function FramePoints(d: seq<Dibit>, n: nat): (out: seq<Word>)
    requires |d| == 128 && n <= 1024
    ensures |out| == n
  {
    if n == 0 then [] else FramePoints(d, n - 1) + [Point(d, n - 1)]
  }

  /** One frame for every 128 dibits; a rest of fewer is dropped. */
  function Spread(d: seq<Dibit>): (out: seq<Word>)
    ensures |out| == |d| / 128 * 1024
  {
    if |d| < 128 then []
    else
      assert |d[128..]| / 128 == |d| / 128 - 1;
      FramePoints(d[..128], 1024) + Spread(d[128..])
  }

  /** The expanded packet. */
  function Accepted(a: seq<Word>): (out: seq<Word>)
    requires |a| % 8 == 0
    ensures |out| == 128 * |a|
  {
    Spread(DibitsOf(a))
  }

  lemma {:induction false} FramePointAt(d: seq<Dibit>, n: nat, sc: nat)
    requires |d| == 128 && sc < n <= 1024
    ensures FramePoints(d, n)[sc] == Point(d, sc)
  {
    if sc < n - 1 {
      FramePointAt(d, n - 1, sc);
    }
  }

  lemma {:induction false} AcceptedOne(group: seq<Word>)
    requires |group| == 8
    ensures Accepted(group) == FramePoints(DibitsOf(group), 1024)
  {
    var d := DibitsOf(group);
    assert d[..128] == d && Spread(d[128..]) == [];
  }

  /** Eight words become one frame, on their own. */
  lemma AcceptedByGroup(a: seq<Word>)
    requires |a| % 8 == 0 && a != []
    ensures Accepted(a) == Accepted(a[..8]) + Accepted(a[8..])
  {
    DibitsOfConcat(a[..8], a[8..]);
    assert a == a[..8] + a[8..];
    AcceptedOne(a[..8]);
    assert DibitsOf(a)[..128] == DibitsOf(a[..8]) && DibitsOf(a)[128..] == DibitsOf(a[8..]);
  }

  /** Whole frames have come out so far; rest is what has not been consumed of the points. */
  ghost predicate Accepting(mapped: seq<Word>, consumed: nat, out: seq<Word>, rest: seq<Dibit>, all: seq<Word>) {
    && consumed % 128 == 0 && consumed + |rest| == |mapped|
    && (forall k | 0 <= k < |rest| :: mapped[consumed + k] == QPSK[rest[k].Value()])
    && out + Spread(rest) == all
  }

  /** The points of the next frame, if there are enough. */
  lemma NextPoints(mapped: seq<Word>, consumed: nat, out: seq<Word>, rest: seq<Dibit>, all: seq<Word>)
    returns (d: seq<Dibit>)
    requires Accepting(mapped, consumed, out, rest, all)
    ensures |d| == 128 && |rest| == |mapped| - consumed
    ensures |rest| >= 128 ==> forall k | 0 <= k < 128 :: mapped[consumed + k] == QPSK[d[k].Value()]
    ensures |rest| >= 128 ==> Accepting(mapped, consumed + 128, out + FramePoints(d, 1024), rest[128..], all)
  {
    if |rest| < 128 {
      return seq(128, _ => ZERO);
    }
    d := rest[..128];
    Assoc(out, FramePoints(d, 1024), Spread(rest[128..]));
    forall k | 0 <= k < |rest| - 128
      ensures mapped[consumed + 128 + k] == QPSK[rest[128..][k].Value()]
    {
      assert mapped[consumed + (128 + k)] == QPSK[rest[128 + k].Value()];
    }
  }

  lemma AllConsumed(mapped: seq<Word>, out: seq<Word>, rest: seq<Dibit>, all: seq<Word>)
    requires Accepting(mapped, |mapped|, out, rest, all)
    ensures out == all
  {
    AddNothing(out);
  }

  /** Words that a body of sz data words occupies after expansion, header included. */
  function PostMapMovCount(sz: nat): int {
    HEADER_WORDS + (sz * 16 + 127) / 128 * 1024
  }

  /** Data words that fit in an expanded packet of y words, header included. */
  function PreMapMovCount(y: int): int {
    (y - HEADER_WORDS) / 1024 * 128 / 16
  }

  /** The two size functions are adjoint. */
  lemma SizesAreGaloisConnected(sz: nat, y: int)
    ensures PostMapMovCount(sz) <= y <==> sz <= PreMapMovCount(y)
  {
    var blocks := (y - HEADER_WORDS) / 1024;
    assert PreMapMovCount(y) == 8 * blocks;
  }

  /** Shrinking an expanded count gives the body size rounded up to eight words. */
  lemma PreOfPostRoundsUp(sz: nat)
    ensures PreMapMovCount(PostMapMovCount(sz)) == (sz + 7) / 8 * 8
    ensures PreMapMovCount(PostMapMovCount(sz)) == sz <==> sz % 8 == 0
  {
    assert (sz * 16 + 127) / 128 == (sz + 7) / 8;
  }

  /** The length that the host counts for a packet is the one it has when expanded, and it is read back. */
  lemma CountsOfPacket(a: seq<Word>)
    requires |a| % 8 == 0
    ensures PostMapMovCount(|a|) == 16 + |Accepted(a)| && PreMapMovCount(16 + |Accepted(a)|) == |a|
  {
    PreOfPostRoundsUp(|a|);
  }

  /** Points run out inside a frame exactly when words do inside a group of eight. */
  lemma WholeGroups(n: nat, consumed: nat)
    requires consumed % 128 == 0 && consumed <= 16 * n
    ensures consumed < 16 * n < consumed + 128 ==> n % 8 != 0
    ensures consumed == 16 * n ==> n % 8 == 0
  {
  }

  class Mapper {
    var map_: seq<Word>
    var pilot: Word
    var enableTable: seq<bool>
    var pilotTable: seq<Word>
    var enabledSubcarriers: nat

    ghost predicate Valid()
      reads this
    {
      && map_ == QPSK && pilot == PILOT && enabledSubcarriers == 128
      && |enableTable| == 1024 && |pilotTable| == 1024
      && (forall sc | 0 <= sc < 1024 :: enableTable[sc] == Enabled(sc))
      && (forall sc | 0 <= sc < 1024 :: pilotTable[sc] == PilotAt(sc))
    }

    constructor () {
      map_, pilot, enableTable, pilotTable, enabledSubcarriers := [], 0, [], [], 0;
    }

    method Reset()
      modifies this
      ensures Valid()
    {
      map_ := QPSK;
      pilot := PILOT;
      enableTable := [];
      for sc := 0 to 1024
        invariant map_ == QPSK && pilot == PILOT && |enableTable| == sc
        invariant forall k | 0 <= k < sc :: enableTable[k] == Enabled(k)
      {
        enableTable := enableTable + [sc % 2 == 1 && (sc < 129 || sc > 896)];
      }
      enabledSubcarriers := 0;
      for sc := 0 to 1024
        invariant map_ == QPSK && pilot == PILOT && |enableTable| == 1024
        invariant forall k | 0 <= k < 1024 :: enableTable[k] == Enabled(k)
        invariant enabledSubcarriers == Rank(sc)
      {
        if enableTable[sc] {
          enabledSubcarriers := enabledSubcarriers + 1;
        }
      }
      pilotTable := [];
      for sc := 0 to 1024
        invariant map_ == QPSK && pilot == PILOT && |enableTable| == 1024 && enabledSubcarriers == 128
        invariant forall k | 0 <= k < 1024 :: enableTable[k] == Enabled(k)
        invariant |pilotTable| == sc
        invariant forall k | 0 <= k < sc :: pilotTable[k] == PilotAt(k)
      {
        pilotTable := pilotTable + [if sc <= 128 || sc >= 896 then pilot else 0];
      }
    }

    /** Maps every dibit of every word, in order. */
    method MapData(a: seq<Word>) returns (mapped: seq<Word>)
      requires Valid()
      ensures |mapped| == 16 * |a|
      ensures forall p | 0 <= p < 16 * |a| :: mapped[p] == QPSK[DibitsOf(a)[p].Value()]
    {
      mapped := [];
      for n := 0 to |a|
        invariant |mapped| == 16 * n
        invariant forall p | 0 <= p < 16 * n :: mapped[p] == QPSK[DibitsOf(a)[p].Value()]
      {
        for i := 0 to 16
          invariant |mapped| == 16 * n + i
          invariant forall p | 0 <= p < 16 * n + i :: mapped[p] == QPSK[DibitsOf(a)[p].Value()]
        {
          var bits := Low(ShiftRight(a[n], i));
          DibitByShift(a[n], 16, i);
          DibitInList(a, n, i);
          mapped := mapped + [map_[bits.Value()]];
        }
      }
    }

    /** One pass over the subcarriers: consumes 128 points from start on, or runs out of them. */
    method MoveFrame(mapped: seq<Word>, start: nat, ghost d: seq<Dibit>) returns (r: Result<seq<Word>>)
      requires Valid() && |d| == 128
      requires start + 128 <= |mapped| ==> forall k | 0 <= k < 128 :: mapped[start + k] == QPSK[d[k].Value()]
      ensures r == if start + 128 <= |mapped| then Ok(FramePoints(d, 1024)) else OutOfBounds
    {
      var consumed, out: seq<Word> := start, [];
      for sc := 0 to 1024
        invariant consumed == start + Rank(sc) && (sc > 0 && Rank(sc) > 0 ==> consumed <= |mapped|)
        invariant start + 128 <= |mapped| ==> out == FramePoints(d, sc)
      {
        if enableTable[sc] {
          consumed := consumed + 1;
          if consumed > |mapped| {
            return OutOfBounds;
          }
          out := out + [mapped[consumed - 1]];
        } else {
          out := out + [pilotTable[sc]];
        }
      }
      return Ok(out);
    }

    /** Runs out of data exactly when the word count is not a multiple of eight. */
    method Accept(a: seq<Word>) returns (r: Result<seq<Word>>)
      requires Valid()
      ensures r == if |a| % 8 == 0 then Ok(Accepted(a)) else OutOfBounds
    {
      var mapped := MapData(a);
      var consumed := 0;
      var out: seq<Word> := [];
      ghost var rest, all := DibitsOf(a), Spread(DibitsOf(a));
      AddNothing(all);
      while consumed < |mapped|
        invariant consumed <= |mapped| && Accepting(mapped, consumed, out, rest, all)
      {
        ghost var d := NextPoints(mapped, consumed, out, rest, all);
        WholeGroups(|a|, consumed);
        var frame := MoveFrame(mapped, consumed, d);
        if frame.OutOfBounds? {
          return OutOfBounds;
        }
        out := out + frame.value;
        consumed, rest := consumed + 128, rest[128..];
      }
      AllConsumed(mapped, out, rest, all);
      WholeGroups(|a|, consumed);
      return Ok(out);
    }
  }
}
