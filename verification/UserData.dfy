/** The timed user-data transmitter: a per-frame state machine driven by the schedule, with a FIFO behind it. */
module UserData {
  import opened Words
  import opened Seqs
  import opened Wrappers
  import opened Schedule

  const CHUNK: int := 1024
  const USERDATA_ERROR: Word := 0x4400_0000
  const FILL_LEVEL: Word := 0x4600_0000

  datatype UdState = NotActive | Buffer | Wait | Sending | SendingTail | Dumping

  /** The two header words the transmitter reads. */
  datatype Header = Header(timeslot: Word, epoc: Word)

  datatype Packet = Packet(header: Header, data: seq<Word>)

  /** What one frame sends: a chunk of user data at a word offset, the counter pattern, or silence. */
  datatype Frame = Chunk(buffer: seq<Word>, offset: nat) | Counter(offset: nat) | Silence

  datatype Radio = Radio(
    slots: seq<Word>, idMask: Word, epocTime: Word, lifetime: Word,
    udState: UdState, udTimeslot: Word, udEpoc: Word, udTotal: Word, udIndex: Word,
    header: Option<Header>, buffer: Option<seq<Word>>, queue: seq<Packet>,
    fillPending: bool, tdmaMode: Word)

  /** Header, buffer and state come and go together. */
  predicate Coherent(r: Radio) {
    && |r.slots| == SLOTS
    && (r.header.Some? <==> r.buffer.Some?)
    && (r.header.Some? <==> r.udState != NotActive)
  }

  /** Besides, nothing queues behind an idle transmitter. */
  predicate Consistent(r: Radio) {
    Coherent(r) && (r.queue != [] ==> r.header.Some?)
  }

  // ---------- packets in and out

  /** A packet becomes current, or queues behind the current one. */
  function Receive(r: Radio, p: Packet): (r': Radio)
    requires Coherent(r)
    ensures Consistent(r')
  {
    if r.header.Some? then r.(queue := r.queue + [p])
    else r.(header := Some(p.header), buffer := Some(p.data), udState := Wait,
            udTimeslot := p.header.timeslot, udEpoc := p.header.epoc,
            udTotal := U32(|p.data| / CHUNK), udIndex := 0, fillPending := true)
  }

  /** The current packet is done; the oldest queued one, if any, becomes current. */
  function Finish(r: Radio): (r': Radio)
    requires Consistent(r)
    ensures Consistent(r')
  {
    var idle := r.(udIndex := 0, udTimeslot := 0, udState := NotActive, buffer := None, header := None);
    if r.queue == [] then idle else Receive(idle.(queue := r.queue[1..]), r.queue[0])
  }

  // ---------- one frame

  predicate CanTxAt(r: Radio, tick: nat)
    requires |r.slots| == SLOTS
  {
    MaskHits(r.slots[tick % FRAMES / LENGTH], r.idMask)
  }

  function EpocNow(r: Radio): Word {
    if r.lifetime % FRAMES == 0 then U32(r.epocTime + 1) else r.epocTime
  }

  /** How early the packet is, as an 8-bit epoc difference over a 16-bit frame difference. */
  function FillReport(r: Radio): Word {
    FillWord(r.udEpoc - EpocNow(r), LENGTH * r.udTimeslot - r.lifetime % FRAMES)
  }

  function FillWord(epocs: int, frames: int): Word {
    FILL_LEVEL + epocs % 0x100 * 0x1_0000 + frames % 0x1_0000
  }

  /** What a waiting packet's state becomes, and the error code reported if any. */
  function Decide(r: Radio): (UdState, Option<Word>)
    requires |r.slots| == SLOTS
  {
    DecideAt(r, EpocNow(r), r.lifetime % FRAMES / LENGTH, r.lifetime % FRAMES % LENGTH, CanTxAt(r, r.lifetime))
  }

  function DecideAt(r: Radio, epoc: Word, timeslot: Word, progress: Word, canTx: bool): (UdState, Option<Word>) {
    if r.udState != Wait && r.udState != Buffer then (r.udState, None)
    else if r.udEpoc != 0 && r.udEpoc < epoc then (Dumping, Some(2))
    else if r.udEpoc != epoc then (r.udState, None)
    else if r.udTimeslot < timeslot then (Dumping, Some(7))
    else if r.udTimeslot > timeslot then (r.udState, None)
    else if progress != 0 then (Dumping, Some(5))
    else if canTx then (Sending, None)
    else (Dumping, Some(4))
  }

  predicate Transmitting(s: UdState) {
    s == Sending || s == SendingTail
  }

  /** The transmitter after the schedule lookup and the state switch. */
  function Decided(r: Radio): Radio
    requires |r.slots| == SLOTS
  {
    r.(epocTime := EpocNow(r), fillPending := false, udState := Decide(r).0)
  }

  /** What goes out, given the state after the switch. */
  function FrameFor(r: Radio, progress: Word, canTx: bool): Frame
    requires Transmitting(r.udState) ==> r.buffer.Some?
  {
    if !canTx then Silence
    else if Transmitting(r.udState) then Chunk(r.buffer.value, r.udIndex * CHUNK)
    else Counter((if r.tdmaMode == 7 then 1 else progress % 5) * CHUNK)
  }

  function IndexAfter(r: Radio, canTx: bool): Word {
    if canTx && Transmitting(r.udState) then U32(r.udIndex + 1) else r.udIndex
  }

  function FrameOut(r: Radio): Frame
    requires Consistent(r)
  {
    FrameFor(Decided(r), r.lifetime % FRAMES % LENGTH, CanTxAt(r, r.lifetime))
  }

  function ErrorReport(code: Option<Word>): seq<Word> {
    match code
    case None => []
    case Some(code) => [USERDATA_ERROR + code % 0x100]
  }

  function Reports(r: Radio): seq<Word>
    requires |r.slots| == SLOTS
  {
    (if r.fillPending then [FillReport(r)] else []) + ErrorReport(Decide(r).1)
  }

  /** The frame counter moves on, a transmitted chunk is consumed, and a packet that is used up is finished. */
  function Tick(r: Radio): (r': Radio)
    requires Consistent(r)
    ensures Consistent(r')
  {
    var decided := Decided(r);
    var sent := decided.(udIndex := IndexAfter(decided, CanTxAt(r, r.lifetime)));
    var next := if Transmitting(sent.udState) && sent.udIndex == sent.udTotal then Finish(sent) else sent;
    next.(lifetime := U32(r.lifetime + 1))
  }

  // ---------- the transmitter object

  class Cs20 {
    const schedule: Table
    var lifetime32: Word
    var udState: UdState
    var udTimeslot: Word
    var udEpoc: Word
    var udTotalChunks: Word
    var udChunkIndexConsumed: Word
    var tdmaMode: Word
    var mapmovHeader: Option<Header>
    var mapmovBuffer: Option<seq<Word>>
    var bufferedMapmov: seq<Packet>
    var needsFillReport: bool
    var sentRingbus: seq<Word>

    function View(): Radio
      reads this, schedule
    {
      Radio(schedule.s, schedule.idMask, schedule.epocTime, lifetime32,
            udState, udTimeslot, udEpoc, udTotalChunks, udChunkIndexConsumed,
            mapmovHeader, mapmovBuffer, bufferedMapmov, needsFillReport, tdmaMode)
    }

    ghost predicate Valid0()
      reads this, schedule
    {
      schedule.Valid() && schedule.offset == 0 && Coherent(View())
    }

    ghost predicate Valid()
      reads this, schedule
    {
      schedule.Valid() && schedule.offset == 0 && Consistent(View())
    }

    constructor ()
      ensures Valid() && fresh(schedule) && sentRingbus == []
      ensures var r := View(); r.udState == NotActive && r.queue == [] && r.lifetime == 0 && r.epocTime == 0
      ensures forall tick: nat :: CanTxAt(View(), tick)
    {
      schedule := new Table();
      lifetime32, udState, udTimeslot, udEpoc := 0, NotActive, 0, 0;
      udTotalChunks, udChunkIndexConsumed, tdmaMode := 0, 0, 0;
      mapmovHeader, mapmovBuffer, bufferedMapmov := None, None, [];
      needsFillReport, sentRingbus := false, [];
      new;
      schedule.AllOn();
    }

    method SendRb(word: Word)
      modifies this`sentRingbus
      ensures sentRingbus == old(sentRingbus) + [word]
    {
      sentRingbus := sentRingbus + [word];
    }

    method BufferMapmov(p: Packet)
      modifies this`bufferedMapmov
      ensures bufferedMapmov == old(bufferedMapmov) + [p]
    {
      bufferedMapmov := bufferedMapmov + [p];
    }

    method MapmovUserdata(p: Packet)
      requires Valid0()
      modifies this
      ensures Valid() && View() == Receive(old(View()), p) && sentRingbus == old(sentRingbus)
    {
      if mapmovHeader.Some? {
        BufferMapmov(p);
        return;
      }
      mapmovHeader := Some(p.header);
      udTotalChunks := U32(|p.data| / CHUNK);
      udChunkIndexConsumed := 0;
      udTimeslot := p.header.timeslot;
      udEpoc := p.header.epoc;
      needsFillReport := true;
      mapmovBuffer := Some(p.data);
      udState := Wait;
    }

    method UnbufferIfNeeded()
      requires Valid0() && mapmovHeader.None?
      modifies this
      ensures Valid() && sentRingbus == old(sentRingbus)
      ensures var r := old(View());
              View() == if r.queue == [] then r else Receive(r.(queue := r.queue[1..]), r.queue[0])
    {
      if |bufferedMapmov| > 0 {
        var o := bufferedMapmov[0];
        bufferedMapmov := bufferedMapmov[1..];
        MapmovUserdata(o);
      }
    }

    method UserDataFinished()
      requires Valid()
      modifies this
      ensures Valid() && View() == Finish(old(View())) && sentRingbus == old(sentRingbus)
    {
      udChunkIndexConsumed := 0;
      udTimeslot := 0;
      udState := NotActive;
      mapmovBuffer := None;
      mapmovHeader := None;
      UnbufferIfNeeded();
    }

    method SendFillReport(epoc: Word, accumulatedProgress: Word)
      modifies this`sentRingbus
      ensures sentRingbus == old(sentRingbus) + [FillWord(udEpoc - epoc, LENGTH * udTimeslot - accumulatedProgress)]
    {
      var eDelta: int := U32(udEpoc - epoc);
      LowByteOfU32(udEpoc - epoc);
      eDelta := eDelta % 0x100;
      var frameDelta: int := U32(udTimeslot * LENGTH);
      frameDelta := U32(frameDelta - accumulatedProgress);
      assert frameDelta == U32(LENGTH * udTimeslot - accumulatedProgress) by {
        U32Add(LENGTH * udTimeslot, 0 - accumulatedProgress as int);
      }
      LowHalfOfU32(LENGTH * udTimeslot - accumulatedProgress);
      frameDelta := frameDelta % 0x1_0000;
      SendRb(FILL_LEVEL + (eDelta * 0x1_0000 + frameDelta));
    }

    /** The state switch at the top of the loop. */
    method SwitchState(progress: Word, timeslot: Word, epoc: Word, canTx: bool)
      modifies this`udState, this`sentRingbus
      ensures var d := DecideAt(old(View()), epoc, timeslot, progress, canTx);
              udState == d.0 && sentRingbus == old(sentRingbus) + ErrorReport(d.1)
    {
      match udState
      case Buffer | Wait =>
        if udEpoc != 0 && udEpoc < epoc {
          udState := Dumping;
          SendRb(USERDATA_ERROR + 2);
        } else if udEpoc == epoc {
          if udTimeslot < timeslot {
            udState := Dumping;
            SendRb(USERDATA_ERROR + 7);
          } else if udTimeslot == timeslot && progress == 0 {
            if canTx {
              udState := Sending;
            } else {
              udState := Dumping;
              SendRb(USERDATA_ERROR + 4);
            }
          } else if udTimeslot > timeslot {
          } else {
            udState := Dumping;
            SendRb(USERDATA_ERROR + 5);
          }
        }
      case _ =>
    }

    /** Chooses what this frame sends; a chunk sent is a chunk consumed. */
    method ChooseFrame(progress: Word, canTx: bool) returns (frame: Frame)
      requires Transmitting(udState) ==> mapmovBuffer.Some?
      modifies this`udChunkIndexConsumed
      ensures frame == FrameFor(old(View()), progress, canTx)
      ensures udChunkIndexConsumed == IndexAfter(old(View()), canTx)
    {
      var framePhase: int := progress % 5;
      if canTx {
        if udState == Sending || udState == SendingTail {
          frame := Chunk(mapmovBuffer.value, udChunkIndexConsumed * CHUNK);
          udChunkIndexConsumed := U32(udChunkIndexConsumed + 1);
        } else {
          if tdmaMode == 7 {
            framePhase := 1;
          }
          frame := Counter(framePhase * CHUNK);
        }
      } else {
        frame := Silence;
      }
    }

    /** Reads the schedule, reports a fresh packet's fill level and runs the state switch. */
    method BeginFrame() returns (progress: Word, canTx: bool)
      requires schedule.Valid() && schedule.offset == 0
      modifies this`needsFillReport, this`udState, this`sentRingbus, schedule`epocTime
      ensures View() == Decided(old(View()))
      ensures progress == old(lifetime32) % FRAMES % LENGTH && canTx == CanTxAt(old(View()), old(lifetime32))
      ensures sentRingbus == old(sentRingbus) + Reports(old(View()))
    {
      ghost var r, before := View(), sentRingbus;
      U32OfSmall(lifetime32);
      var accumulatedProgress, timeslot, epoc;
      progress, accumulatedProgress, timeslot, epoc, canTx := schedule.GetTimeslot2(lifetime32);
      if needsFillReport {
        needsFillReport := false;
        SendFillReport(epoc, accumulatedProgress);
      }
      ghost var report := if r.fillPending then [FillReport(r)] else [];
      assert View() == r.(epocTime := EpocNow(r), fillPending := false) && sentRingbus == before + report;
      assert DecideAt(View(), epoc, timeslot, progress, canTx) == Decide(r);
      SwitchState(progress, timeslot, epoc, canTx);
      Assoc(before, report, ErrorReport(Decide(r).1));
    }

    /** After the last chunk the packet is finished. */
    method FinishIfThrough()
      requires Valid()
      modifies this
      ensures Valid() && sentRingbus == old(sentRingbus)
      ensures var r := old(View());
              View() == if Transmitting(r.udState) && r.udIndex == r.udTotal then Finish(r) else r
    {
      if (udState == Sending || udState == SendingTail) && udChunkIndexConsumed == udTotalChunks {
        UserDataFinished();
      }
    }

    method Loop() returns (frame: Frame)
      requires Valid()
      modifies this, schedule
      ensures Valid() && View() == Tick(old(View()))
      ensures frame == FrameOut(old(View()))
      ensures sentRingbus == old(sentRingbus) + Reports(old(View()))
    {
      ghost var r := View();
      var progress, canTx := BeginFrame();
      ghost var decided := View();
      frame := ChooseFrame(progress, canTx);
      assert View() == decided.(udIndex := IndexAfter(decided, canTx));
      FinishIfThrough();
      lifetime32 := U32(lifetime32 + 1);
      assert View() == Tick(r);
    }
  }

  lemma LowByteOfU32(x: int)
    ensures U32(x) % 0x100 == x % 0x100
  {
    assert x == x / TWO_32 * 0x100_0000 * 0x100 + U32(x);
  }

  lemma LowHalfOfU32(x: int)
    ensures U32(x) % 0x1_0000 == x % 0x1_0000
  {
    assert x == x / TWO_32 * 0x1_0000 * 0x1_0000 + U32(x);
  }
}
