/** What the transmitter keeps in every run: arrivals, frames and schedule updates in any order. */
module UserDataRuns {
  import opened Seqs
  import opened Wrappers
  import opened Words
  import opened Schedule
  import opened UserData

  datatype Event = Arrival(p: Packet) | FrameTick | SetSlots(slots: seq<Word>)

  /** One frame as seen from outside: what went out, whether the slot was ours, and the state that sent it. */
  datatype Entry = Entry(frame: Frame, canTx: bool, state: UdState)

  datatype Trace = Trace(radio: Radio, arrived: seq<Packet>, finished: seq<Packet>, log: seq<Entry>)

  predicate LegalEvent(e: Event) {
    e.SetSlots? ==> |e.slots| == SLOTS
  }

  function Current(r: Radio): seq<Packet>
    requires Coherent(r)
  {
    if r.header.Some? then [Packet(r.header.value, r.buffer.value)] else []
  }

  /** The packet's last chunk goes out in this frame. */
  predicate Finishes(r: Radio)
    requires Consistent(r)
  {
    Transmitting(Decide(r).0) && IndexAfter(Decided(r), CanTxAt(r, r.lifetime)) == r.udTotal
  }

  function Next(t: Trace, e: Event): (t': Trace)
    requires Consistent(t.radio) && LegalEvent(e)
    ensures Consistent(t'.radio)
  {
    var r := t.radio;
    match e
    case Arrival(p) => t.(radio := Receive(r, p), arrived := t.arrived + [p])
    case SetSlots(slots) => t.(radio := r.(slots := slots))
    case FrameTick =>
      Trace(Tick(r), t.arrived, t.finished + if Finishes(r) then Current(r) else [],
            t.log + [Entry(FrameOut(r), CanTxAt(r, r.lifetime), Decide(r).0)])
  }

  function Run(t: Trace, events: seq<Event>): (t': Trace)
    requires Consistent(t.radio) && forall e | e in events :: LegalEvent(e)
    ensures Consistent(t'.radio)
    decreases |events|
  {
    if events == [] then t else Run(Next(t, events[0]), events[1..])
  }

  function Ticks(events: seq<Event>): nat {
    if events == [] then 0 else (if events[0].FrameTick? then 1 else 0) + Ticks(events[1..])
  }

  // ---------- what goes out

  function FramesOf(log: seq<Entry>): seq<Frame> {
    if log == [] then [] else FramesOf(log[..|log| - 1]) + [log[|log| - 1].frame]
  }

  function Chunks(log: seq<Entry>): seq<Frame> {
    if log == [] then []
    else Chunks(log[..|log| - 1]) + if log[|log| - 1].frame.Chunk? then [log[|log| - 1].frame] else []
  }

  /** A chunk that lies inside its buffer; of any other, slicing leaves less than a frame or nothing. */
  predicate Whole(f: Frame) {
    f.Chunk? && Within(f)
  }

  function WholeChunks(log: seq<Entry>): seq<Frame> {
    if log == [] then []
    else WholeChunks(log[..|log| - 1]) + if Whole(log[|log| - 1].frame) then [log[|log| - 1].frame] else []
  }

  /** The first k chunks of a packet. */
  function FirstChunks(p: Packet, k: nat): (c: seq<Frame>)
    ensures |c| == k
  {
    if k == 0 then [] else FirstChunks(p, k - 1) + [Chunk(p.data, (k - 1) * CHUNK)]
  }

  function AllChunks(packets: seq<Packet>): seq<Frame> {
    if packets == [] then []
    else
      var last := packets[|packets| - 1];
      AllChunks(packets[..|packets| - 1]) + FirstChunks(last, |last.data| / CHUNK)
  }

  /** Few enough chunks to count. */
  predicate Countable(p: Packet) {
    |p.data| / CHUNK < TWO_32
  }

  /** At least one chunk besides. */
  predicate WellSized(p: Packet) {
    1 <= |p.data| / CHUNK < TWO_32
  }

  /** Chunks leave only from the sending state and only in our slots. */
  predicate Proper(e: Entry) {
    e.frame.Chunk? ==> e.canTx && e.state == Sending
  }

  /** A chunk lies inside its buffer. */
  predicate Within(f: Frame) {
    f.Chunk? ==> f.offset + CHUNK <= |f.buffer|
  }

  predicate AllWithin(log: seq<Entry>) {
    forall e | e in log :: Within(e.frame)
  }

  // ---------- order, whatever the packets

  /** A chunk comes from a packet that arrived, at a multiple of the chunk size. */
  predicate Sourced(f: Frame, arrived: seq<Packet>) {
    f.Chunk? ==> f.offset % CHUNK == 0 && exists p :: p in arrived && p.data == f.buffer
  }

  predicate InOrder(t: Trace) {
    && Consistent(t.radio) && t.radio.udState in {NotActive, Wait, Sending, Dumping}
    && t.arrived == t.finished + Current(t.radio) + t.radio.queue
    && forall e | e in t.log :: Proper(e) && Sourced(e.frame, t.arrived)
  }

  /** A transmitter that has seen nothing yet, whatever its schedule and counters. */
  predicate Fresh(t: Trace) {
    && Consistent(t.radio) && t.radio.udState == NotActive
    && t.arrived == [] && t.finished == [] && t.log == []
  }

  /** Finishing hands the channel to the oldest queued packet. */
  lemma FinishHandsOver(r: Radio)
    requires Consistent(r) && r.header.Some?
    ensures Current(Finish(r)) + Finish(r).queue == r.queue && Finish(r).udState in {NotActive, Wait}
  {
    if r.queue != [] {
      assert r.queue == [r.queue[0]] + r.queue[1..];
    }
  }

  lemma ArrivalKeepsOrder(t: Trace, p: Packet)
    requires InOrder(t)
    ensures InOrder(Next(t, Arrival(p)))
  {
    var t' := Next(t, Arrival(p));
    assert forall q | q in t.arrived :: q in t'.arrived;
    if t.radio.header.Some? {
      Assoc(t.finished + Current(t.radio), t.radio.queue, [p]);
    } else {
      assert t.radio.queue == [] && t.arrived == t.finished;
      assert t'.arrived == t'.finished + [p] + [];
    }
  }

  lemma TickKeepsOrder(t: Trace)
    requires InOrder(t)
    ensures InOrder(Next(t, FrameTick))
  {
    var r := t.radio;
    assert Proper(Entry(FrameOut(r), CanTxAt(r, r.lifetime), Decide(r).0));
    FrameSourced(t);
    if Finishes(r) {
      var sent := Decided(r).(udIndex := IndexAfter(Decided(r), CanTxAt(r, r.lifetime)));
      FinishHandsOver(sent);
      Assoc(t.finished + Current(r), Current(Finish(sent)), Finish(sent).queue);
    } else {
      AddNothing(t.finished);
    }
  }

  lemma FrameSourced(t: Trace)
    requires Consistent(t.radio) && t.arrived == t.finished + Current(t.radio) + t.radio.queue
    ensures Sourced(FrameOut(t.radio), t.arrived)
  {
    if FrameOut(t.radio).Chunk? {
      assert Current(t.radio)[0] in t.arrived;
    }
  }

  // ---------- the chunks

  /** The current packet's bookkeeping. */
  predicate Progressing(r: Radio)
    requires Coherent(r)
  {
    r.header.Some? ==>
      && r.udState in {Wait, Sending, Dumping}
      && r.udTotal == |r.buffer.value| / CHUNK && (r.udIndex < r.udTotal || r.udTotal == 0)
      && (r.udState != Sending ==> r.udIndex == 0)
  }

  /** How many whole chunks the current packet has sent; one of no chunks sends none, though its index moves. */
  function SentSoFar(r: Radio): nat {
    if r.udTotal == 0 then 0 else r.udIndex
  }

  function ChunksSoFar(r: Radio): seq<Frame>
    requires Coherent(r)
  {
    if r.header.Some? then FirstChunks(Current(r)[0], SentSoFar(r)) else []
  }

  predicate Inv(t: Trace) {
    && InOrder(t) && (forall p | p in t.arrived :: Countable(p))
    && Progressing(t.radio) && WholeChunks(t.log) == AllChunks(t.finished) + ChunksSoFar(t.radio)
  }

  lemma ArrivalKeeps(t: Trace, p: Packet)
    requires Inv(t) && Countable(p)
    ensures Inv(Next(t, Arrival(p)))
  {
    ArrivalKeepsOrder(t, p);
    U32OfSmall(|p.data| / CHUNK);
  }

  lemma FinishKeepsProgress(r: Radio)
    requires Consistent(r) && r.header.Some? && forall p | p in r.queue :: Countable(p)
    ensures Progressing(Finish(r)) && Finish(r).udIndex == 0
  {
    if r.queue != [] {
      assert Countable(r.queue[0]);
      U32OfSmall(|r.queue[0].data| / CHUNK);
    }
  }

  lemma {:induction false} ChunksStep(log: seq<Entry>, e: Entry)
    ensures Chunks(log + [e]) == if e.frame.Chunk? then Chunks(log) + [e.frame] else Chunks(log)
    ensures WholeChunks(log + [e]) == if Whole(e.frame) then WholeChunks(log) + [e.frame] else WholeChunks(log)
  {
    PartsOfConcat(log, [e]);
    AddNothing(Chunks(log));
    AddNothing(WholeChunks(log));
  }

  lemma {:induction false} AllChunksStep(packets: seq<Packet>, p: Packet)
    ensures AllChunks(packets + [p]) == AllChunks(packets) + FirstChunks(p, |p.data| / CHUNK)
  {
    PartsOfConcat(packets, [p]);
  }

  /** One frame: only a packet that has chunks sends whole ones, the next each time, and finishes with its last. */
  lemma FrameFacts(r: Radio)
    requires Consistent(r) && Progressing(r)
    ensures var f := FrameOut(r);
            && (f.Chunk? ==> r.header.Some? && f == Chunk(r.buffer.value, r.udIndex * CHUNK))
            && (Whole(f) <==> f.Chunk? && r.udTotal > 0)
            && (Finishes(r) ==> r.header.Some? && r.udTotal == SentSoFar(r) + if Whole(f) then 1 else 0)
            && (!Finishes(r) ==> Progressing(Tick(r)) && Current(Tick(r)) == Current(r) && Tick(r).queue == r.queue
                                 && SentSoFar(Tick(r)) == SentSoFar(r) + if Whole(f) then 1 else 0)
  {
    if r.header.Some? {
      U32OfSmall(r.udIndex + if r.udTotal > 0 then 1 else 0);
    }
  }

  lemma TickKeeps(t: Trace)
    requires Inv(t)
    ensures Inv(Next(t, FrameTick))
  {
    TickKeepsOrder(t);
    if Finishes(t.radio) {
      FinishTick(t);
      FinishChunks(t);
      AddNothing(AllChunks(Next(t, FrameTick).finished));
    } else {
      ContinueChunks(t);
    }
  }

  /** The next whole chunk, if this frame sends one, follows those that went before. */
  lemma NextChunk(t: Trace)
    requires Inv(t) && t.radio.header.Some?
    ensures var n := SentSoFar(t.radio) + if Whole(FrameOut(t.radio)) then 1 else 0;
            WholeChunks(Next(t, FrameTick).log) == AllChunks(t.finished) + FirstChunks(Current(t.radio)[0], n)
  {
    var r := t.radio;
    FrameFacts(r);
    ChunksStep(t.log, Entry(FrameOut(r), CanTxAt(r, r.lifetime), Decide(r).0));
    Assoc(AllChunks(t.finished), ChunksSoFar(r), [FrameOut(r)]);
  }

  lemma ContinueChunks(t: Trace)
    requires Inv(t) && !Finishes(t.radio)
    ensures var t' := Next(t, FrameTick);
            Progressing(t'.radio) && WholeChunks(t'.log) == AllChunks(t'.finished) + ChunksSoFar(t'.radio)
  {
    var r := t.radio;
    FrameFacts(r);
    AddNothing(t.finished);
    if r.header.Some? {
      NextChunk(t);
    } else {
      ChunksStep(t.log, Entry(FrameOut(r), CanTxAt(r, r.lifetime), Decide(r).0));
    }
  }

  lemma FinishChunks(t: Trace)
    requires Inv(t) && Finishes(t.radio)
    ensures var t' := Next(t, FrameTick); WholeChunks(t'.log) == AllChunks(t'.finished)
  {
    FrameFacts(t.radio);
    NextChunk(t);
    AllChunksStep(t.finished, Current(t.radio)[0]);
  }

  lemma FinishTick(t: Trace)
    requires Inv(t) && Finishes(t.radio)
    ensures var r, t' := t.radio, Next(t, FrameTick);
            && r.header.Some? && t'.finished == t.finished + Current(r)
            && Progressing(t'.radio) && t'.radio.udIndex == 0
  {
    var r := t.radio;
    FrameFacts(r);
    var sent := Decided(r).(udIndex := IndexAfter(Decided(r), CanTxAt(r, r.lifetime)));
    forall p | p in r.queue ensures Countable(p) {
      assert p in t.arrived;
    }
    FinishKeepsProgress(sent);
    assert Current(Tick(r)) == Current(Finish(sent));
  }

  lemma StepKeeps(t: Trace, e: Event)
    requires Inv(t) && LegalEvent(e) && (e.Arrival? ==> Countable(e.p))
    ensures Inv(Next(t, e))
  {
    match e
    case Arrival(p) => ArrivalKeeps(t, p);
    case FrameTick => TickKeeps(t);
    case SetSlots(slots) =>
  }

  lemma {:induction false} RunKeeps(t: Trace, events: seq<Event>)
    requires Inv(t)
    requires forall e | e in events :: LegalEvent(e) && (e.Arrival? ==> Countable(e.p))
    ensures Inv(Run(t, events))
    decreases |events|
  {
    if events != [] {
      StepKeeps(t, events[0]);
      RunKeeps(Next(t, events[0]), events[1..]);
    }
  }

  lemma FreshIsInv(t: Trace)
    requires Fresh(t)
    ensures Inv(t)
  {
  }

  // ---------- packets that have chunks

  /** A packet that has chunks sends only those. */
  lemma FrameWithin(r: Radio)
    requires Consistent(r) && Progressing(r) && (r.header.Some? ==> r.udTotal > 0)
    ensures Within(FrameOut(r))
  {
    FrameFacts(r);
  }

  lemma LogWithin(t: Trace)
    requires Consistent(t.radio)
    ensures AllWithin(Next(t, FrameTick).log) <==> AllWithin(t.log) && Within(FrameOut(t.radio))
  {
    var t' := Next(t, FrameTick);
    assert forall e | e in t.log :: e in t'.log;
    assert t'.log[|t.log|] in t'.log;
  }

  lemma {:induction false} WithinIsWhole(log: seq<Entry>)
    requires AllWithin(log)
    ensures WholeChunks(log) == Chunks(log)
  {
    if log != [] {
      var n := |log| - 1;
      assert log[n] in log;
      assert forall e | e in log[..n] :: e in log;
      WithinIsWhole(log[..n]);
    }
  }

  predicate AllWellSized(t: Trace) {
    AllWithin(t.log) && forall p | p in t.arrived :: WellSized(p)
  }

  lemma CurrentWellSized(t: Trace)
    requires Inv(t) && AllWellSized(t) && t.radio.header.Some?
    ensures t.radio.udTotal > 0
  {
    assert Current(t.radio)[0] in t.finished + Current(t.radio) + t.radio.queue;
  }

  lemma StepStaysWithin(t: Trace, e: Event)
    requires Inv(t) && AllWellSized(t) && LegalEvent(e) && (e.Arrival? ==> WellSized(e.p))
    ensures Inv(Next(t, e)) && AllWellSized(Next(t, e))
  {
    StepKeeps(t, e);
    if e.FrameTick? {
      if t.radio.header.Some? {
        CurrentWellSized(t);
      }
      FrameWithin(t.radio);
      LogWithin(t);
    }
  }

  lemma {:induction false} RunStaysWithin(t: Trace, events: seq<Event>)
    requires Inv(t) && AllWellSized(t)
    requires forall e | e in events :: LegalEvent(e) && (e.Arrival? ==> WellSized(e.p))
    ensures Inv(Run(t, events)) && AllWellSized(Run(t, events))
    decreases |events|
  {
    if events != [] {
      StepStaysWithin(t, events[0]);
      RunStaysWithin(Next(t, events[0]), events[1..]);
    }
  }

  /**
   * In every run, whatever the packets: they are served in arrival order, chunks leave only while sending and only in
   * our slots, and the chunks that lie inside their buffers go out 0, 1, .., last of each packet, once each. They all
   * do lie inside if every packet has one.
   */
  lemma {:induction false} EveryRun(t: Trace, events: seq<Event>)
    requires Fresh(t) && forall e | e in events :: LegalEvent(e) && (e.Arrival? ==> Countable(e.p))
    ensures var end := Run(t, events);
            && end.arrived == end.finished + Current(end.radio) + end.radio.queue
            && (end.radio.queue != [] ==> end.radio.header.Some?)
            && (end.radio.header.Some? <==> end.radio.udState != NotActive)
            && (end.radio.buffer.Some? <==> end.radio.udState != NotActive)
            && (forall e | e in end.log :: Proper(e))
            && WholeChunks(end.log) == AllChunks(end.finished) + ChunksSoFar(end.radio)
            && (AllWithin(end.log) ==> Chunks(end.log) == WholeChunks(end.log))
    ensures (forall e | e in events && e.Arrival? :: WellSized(e.p)) ==> AllWithin(Run(t, events).log)
  {
    FreshIsInv(t);
    RunKeeps(t, events);
    if AllWithin(Run(t, events).log) {
      WithinIsWhole(Run(t, events).log);
    }
    if forall e | e in events && e.Arrival? :: WellSized(e.p) {
      RunStaysWithin(t, events);
    }
  }

  // ---------- what the frames of a run are

  /** The slots in force after some events. */
  function SlotsAfter(slots: seq<Word>, events: seq<Event>): seq<Word>
    decreases |events|
  {
    if events == [] then slots
    else SlotsAfter(if events[0].SetSlots? then events[0].slots else slots, events[1..])
  }

  /** After some events, and what a frame or another event then does to that. */
  ghost predicate SameMasks(r: Radio, slots: seq<Word>, ticks: nat, end: Radio) {
    && end.slots == slots && end.idMask == r.idMask && end.tdmaMode == r.tdmaMode
    && end.lifetime == (r.lifetime + ticks) % TWO_32
  }

  lemma {:induction false} RunKeepsMasks(t: Trace, events: seq<Event>)
    requires Consistent(t.radio) && forall e | e in events :: LegalEvent(e)
    ensures SameMasks(t.radio, SlotsAfter(t.radio.slots, events), Ticks(events), Run(t, events).radio)
    decreases |events|
  {
    if events == [] {
      U32OfSmall(t.radio.lifetime);
    } else {
      StepKeepsMasks(t, events[0]);
      RunKeepsMasks(Next(t, events[0]), events[1..]);
      U32Add(t.radio.lifetime + 1, Ticks(events[1..]));
    }
  }

  lemma StepKeepsMasks(t: Trace, e: Event)
    requires Consistent(t.radio) && LegalEvent(e)
    ensures var r := Next(t, e).radio;
            && r.slots == (if e.SetSlots? then e.slots else t.radio.slots)
            && r.idMask == t.radio.idMask && r.tdmaMode == t.radio.tdmaMode
            && r.lifetime == if e.FrameTick? then U32(t.radio.lifetime + 1) else t.radio.lifetime
  {
  }

  /**
   * A frame is silent if and only if its slot has no bit in common with our mask. In a slot of ours it is a chunk of
   * user data, or else the counter pattern in one of five phases that start with the slot, always the second in mode 7.
   */
  ghost predicate FrameAt(f: Frame, slots: seq<Word>, mask: Word, mode: Word, tick: nat) {
    && |slots| == 50
    && (f == Silence <==> !ShareBit(slots[tick % 25600 / 512], mask))
    && (f.Counter? ==> f.offset == if mode == 7 then 1024 else 1024 * (tick % 512 % 5))
  }

  /** Whatever has happened, under whatever masks, that is what the next frame is like. */
  lemma {:induction false} EveryFrame(t: Trace, events: seq<Event>)
    requires Consistent(t.radio) && forall e | e in events :: LegalEvent(e)
    ensures FrameAt(FrameOut(Run(t, events).radio), SlotsAfter(t.radio.slots, events), t.radio.idMask,
                    t.radio.tdmaMode, (t.radio.lifetime + Ticks(events)) % 0x1_0000_0000)
  {
    RunKeepsMasks(t, events);
    FrameByTick(Run(t, events).radio);
  }

  lemma FrameByTick(r: Radio)
    requires Consistent(r)
    ensures FrameAt(FrameOut(r), r.slots, r.idMask, r.tdmaMode, r.lifetime)
  {
    HitsShareBit(r.slots[r.lifetime % FRAMES / LENGTH], r.idMask);
    TickInSlot(r.lifetime);
  }

  lemma TickInSlot(tick: nat)
    ensures tick % FRAMES % LENGTH == tick % 512
  {
    assert tick == 512 * (50 * (tick / 25600)) + tick % 25600;
  }

  /** The words that a run reports to the host, in order. */
  function Told(t: Trace, events: seq<Event>): seq<Word>
    requires Consistent(t.radio) && forall e | e in events :: LegalEvent(e)
    decreases |events|
  {
    if events == [] then []
    else (if events[0].FrameTick? then Reports(t.radio) else []) + Told(Next(t, events[0]), events[1..])
  }

  /** How many of some words have this top byte. */
  function OfKind(words: seq<Word>, top: int): nat {
    if words == [] then 0 else (if words[0] / 0x100_0000 == top then 1 else 0) + OfKind(words[1..], top)
  }

  lemma {:induction false} OfKindConcat(a: seq<Word>, b: seq<Word>, top: int)
    ensures OfKind(a + b, top) == OfKind(a, top) + OfKind(b, top)
  {
    if a == [] {
      AddNothing(b);
    } else {
      DropOfConcat(a, b, 1);
      OfKindConcat(a[1..], b, top);
    }
  }

  lemma {:induction false} OfKindOne(w: Word, top: int)
    ensures OfKind([w], top) == if w / 0x100_0000 == top then 1 else 0
  {
    assert OfKind([w], top) == (if w / 0x100_0000 == top then 1 else 0) + OfKind([], top);
  }

  /** Packets that have become current, less the one whose fill level is still to be reported. */
  function Announced(t: Trace): int
    requires Coherent(t.radio)
  {
    |t.finished| + |Current(t.radio)| - if t.radio.fillPending then 1 else 0
  }

  function DumpedSoFar(r: Radio): nat {
    if r.udState == Dumping then 1 else 0
  }

  /** Only a current packet can have its fill level reported. */
  predicate Announcing(r: Radio)
    requires Coherent(r)
  {
    r.udState in {NotActive, Wait, Sending, Dumping} && (r.fillPending ==> r.header.Some?)
  }

  lemma ReportKinds(r: Radio)
    requires Consistent(r)
    ensures OfKind(Reports(r), 0x46) == if r.fillPending then 1 else 0
    ensures OfKind(Reports(r), 0x44) == if Decide(r).1.Some? then 1 else 0
    ensures r.fillPending ==> Reports(r) != [] && Reports(r)[0] / 0x100_0000 == 0x46
  {
    var fill, errors := if r.fillPending then [FillReport(r)] else [], ErrorReport(Decide(r).1);
    OfKindConcat(fill, errors, 0x46);
    OfKindConcat(fill, errors, 0x44);
    OfKindOne(FillReport(r), 0x46);
    OfKindOne(FillReport(r), 0x44);
    if Decide(r).1.Some? {
      OfKindOne(errors[0], 0x46);
      OfKindOne(errors[0], 0x44);
    }
  }

  lemma StepTells(t: Trace, e: Event)
    requires Consistent(t.radio) && LegalEvent(e) && Announcing(t.radio)
    ensures var t', told := Next(t, e), if e.FrameTick? then Reports(t.radio) else [];
            && Announcing(t'.radio) && Announced(t') == Announced(t) + OfKind(told, 0x46)
            && DumpedSoFar(t'.radio) == DumpedSoFar(t.radio) + OfKind(told, 0x44)
  {
    if e.FrameTick? {
      ReportKinds(t.radio);
      AddNothing(t.finished);
    }
  }

  /**
   * In every run each packet that becomes current has its fill level reported once, in a word 0x46......, in the frame
   * after; and there is one error word, 0x44......, exactly when the current packet has been dumped.
   */
  lemma {:induction false} RunTells(t: Trace, events: seq<Event>)
    requires Consistent(t.radio) && (forall e | e in events :: LegalEvent(e)) && Announcing(t.radio)
    ensures var end := Run(t, events);
            && Announced(end) == Announced(t) + OfKind(Told(t, events), 0x46)
            && DumpedSoFar(end.radio) == DumpedSoFar(t.radio) + OfKind(Told(t, events), 0x44)
    decreases |events|
  {
    if events != [] {
      var t1, rest := Next(t, events[0]), events[1..];
      var told := if events[0].FrameTick? then Reports(t.radio) else [];
      StepTells(t, events[0]);
      RunTells(t1, rest);
      OfKindConcat(told, Told(t1, rest), 0x46);
      OfKindConcat(told, Told(t1, rest), 0x44);
    }
  }

  // ---------- dead ends

  function Arrivals(events: seq<Event>): seq<Packet> {
    if events == [] then []
    else (if events[0].Arrival? then [events[0].p] else []) + Arrivals(events[1..])
  }

  /** From t to end nothing was sent or finished, and these packets queued. */
  predicate Stuck(t: Trace, end: Trace, queued: seq<Packet>)
    requires Consistent(t.radio) && Consistent(end.radio)
  {
    && end.radio.udState == Dumping && Current(end.radio) == Current(t.radio)
    && end.radio.queue == t.radio.queue + queued
    && end.finished == t.finished && Chunks(end.log) == Chunks(t.log)
  }

  lemma DumpingTick(r: Radio)
    requires Consistent(r) && r.udState == Dumping
    ensures !FrameOut(r).Chunk? && !Finishes(r) && Decide(r).0 == Dumping
    ensures var r' := Tick(r); r'.udState == Dumping && Current(r') == Current(r) && r'.queue == r.queue
  {
  }

  lemma DumpingStep(t: Trace, e: Event)
    requires Consistent(t.radio) && t.radio.udState == Dumping && LegalEvent(e)
    ensures Stuck(t, Next(t, e), Arrivals([e]))
  {
    FirstArrival([e]);
    assert t.radio.queue + [] == t.radio.queue && t.finished + [] == t.finished;
    if e.FrameTick? {
      DumpingTick(t.radio);
      ChunksStep(t.log, Entry(FrameOut(t.radio), CanTxAt(t.radio, t.radio.lifetime), Dumping));
      assert Arrivals([e]) == [];
    } else if e.Arrival? {
      assert Arrivals([e]) == [e.p] + [];
    } else {
      assert Arrivals([e]) == [];
    }
  }

  lemma StillStuck(t: Trace, mid: Trace, end: Trace, first: seq<Packet>, later: seq<Packet>)
    requires Consistent(t.radio) && Consistent(mid.radio) && Consistent(end.radio)
    requires Stuck(t, mid, first) && Stuck(mid, end, later)
    ensures Stuck(t, end, first + later)
  {
    Assoc(t.radio.queue, first, later);
  }

  lemma {:induction false} FirstArrival(events: seq<Event>)
    requires events != []
    ensures Arrivals(events) == Arrivals([events[0]]) + Arrivals(events[1..])
  {
    var e := events[0];
    var now := if e.Arrival? then [e.p] else [];
    assert Arrivals([e]) == now + Arrivals([]) && now + [] == now;
  }

  /** A dumped packet is never let go: nothing is sent or finished again, and every arrival queues. */
  lemma {:induction false} DumpingForever(t: Trace, events: seq<Event>)
    requires Consistent(t.radio) && t.radio.udState == Dumping && forall e | e in events :: LegalEvent(e)
    ensures Stuck(t, Run(t, events), Arrivals(events))
    decreases |events|
  {
    if events == [] {
      assert t.radio.queue + [] == t.radio.queue;
    } else {
      var mid, rest := Next(t, events[0]), events[1..];
      DumpingStep(t, events[0]);
      DumpingForever(mid, rest);
      FirstArrival(events);
      StillStuck(t, mid, Run(mid, rest), Arrivals([events[0]]), Arrivals(rest));
    }
  }

  /** A packet of no chunks is current: it waits, is dumped, or has sent a chunk it does not have. */
  predicate Empty(r: Radio)
    requires Coherent(r)
  {
    && r.header.Some? && r.udTotal == 0 && |r.buffer.value| < CHUNK
    && if r.udState == Sending then r.udIndex > 0 else r.udState in {Wait, Dumping} && r.udIndex == 0
  }

  lemma EmptyTick(r: Radio)
    requires Consistent(r) && Empty(r) && r.udIndex + 1 < TWO_32
    ensures !Finishes(r) && Empty(Tick(r)) && Current(Tick(r)) == Current(r)
    ensures Tick(r).udIndex == r.udIndex + if FrameOut(r).Chunk? then 1 else 0
    ensures FrameOut(r).Chunk? ==> FrameOut(r).offset + CHUNK > |FrameOut(r).buffer|
  {
    U32OfSmall(r.udIndex + 1);
  }

  lemma EmptyStep(t: Trace, e: Event)
    requires Consistent(t.radio) && Empty(t.radio) && LegalEvent(e) && t.radio.udIndex + Ticks([e]) < TWO_32
    ensures var t' := Next(t, e);
            && Empty(t'.radio) && t'.finished == t.finished && Current(t'.radio) == Current(t.radio)
            && t'.radio.udIndex <= t.radio.udIndex + Ticks([e])
  {
    assert t.finished + [] == t.finished;
    assert Ticks([e]) == (if e.FrameTick? then 1 else 0) + Ticks([]);
    if e.FrameTick? {
      EmptyTick(t.radio);
    }
  }

  lemma {:induction false} EmptyStays(t: Trace, events: seq<Event>)
    requires Consistent(t.radio) && Empty(t.radio) && forall e | e in events :: LegalEvent(e)
    requires t.radio.udIndex + Ticks(events) < TWO_32
    ensures var end := Run(t, events);
            Empty(end.radio) && end.finished == t.finished && Current(end.radio) == Current(t.radio)
    decreases |events|
  {
    if events != [] {
      assert Ticks([events[0]]) == (if events[0].FrameTick? then 1 else 0) + Ticks([]);
      EmptyStep(t, events[0]);
      EmptyStays(Next(t, events[0]), events[1..]);
    }
  }

  /** A packet of no chunks that meets an idle transmitter never finishes, whatever follows, for 2^32 frames. */
  lemma {:induction false} EmptyPacketNeverFinishes(t: Trace, p: Packet, events: seq<Event>)
    requires Consistent(t.radio) && t.radio.header.None? && |p.data| < CHUNK
    requires (forall e | e in events :: LegalEvent(e)) && Ticks(events) < TWO_32
    ensures var end := Run(Next(t, Arrival(p)), events);
            Current(end.radio) == [p] && end.finished == t.finished
  {
    U32OfSmall(0);
    EmptyStays(Next(t, Arrival(p)), events);
  }

  /** A packet that arrives just before the first frame of its slot, which is ours, and meets an idle transmitter. */
  predicate JustInTime(r: Radio, p: Packet)
    requires Coherent(r)
  {
    && r.header.None? && CanTxAt(r, r.lifetime)
    && p.header.epoc == EpocNow(r)
    && p.header.timeslot == r.lifetime % FRAMES / LENGTH && r.lifetime % FRAMES % LENGTH == 0
  }

  /** Such a packet starts sending at once; one of no chunks sends what it does not have, and is stuck. */
  lemma EmptyPacketSends(r: Radio, p: Packet)
    requires Consistent(r) && JustInTime(r, p) && |p.data| < CHUNK
    ensures FrameOut(Receive(r, p)) == Chunk(p.data, 0)
    ensures var r' := Tick(Receive(r, p)); Empty(r') && r'.udState == Sending && r'.udIndex == 1
  {
    U32OfSmall(0);
    U32OfSmall(1);
  }

  function FrameTicks(n: nat): (events: seq<Event>)
    ensures forall e | e in events :: e == FrameTick
  {
    if n == 0 then [] else [FrameTick] + FrameTicks(n - 1)
  }

  lemma {:induction false} FrameTicksCount(n: nat)
    ensures Ticks(FrameTicks(n)) == n
  {
    if n > 0 {
      FrameTicksCount(n - 1);
      assert FrameTicks(n)[1..] == FrameTicks(n - 1);
    }
  }

  /** All slots are ours, and this many chunks are left to send. */
  ghost predicate Sends(r: Radio, left: nat) {
    && Consistent(r) && r.header.Some? && Decide(r).0 == Sending
    && left > 0 && r.udIndex + left == r.udTotal && forall tick: nat :: CanTxAt(r, tick)
  }

  /** A packet about to send, or sending, finishes after as many of our frames as it has chunks left. */
  lemma {:induction false} SendingFinishes(t: Trace, left: nat)
    requires Sends(t.radio, left)
    ensures Run(t, FrameTicks(left)).finished == t.finished + Current(t.radio)
    decreases left
  {
    PartsOfConcat([FrameTick], FrameTicks(left - 1));
    if left == 1 {
      LastChunkFinishes(t);
    } else {
      SendingGoesOn(t, left);
      SendingFinishes(Next(t, FrameTick), left - 1);
    }
  }

  lemma LastChunkFinishes(t: Trace)
    requires Sends(t.radio, 1)
    ensures Next(t, FrameTick).finished == t.finished + Current(t.radio)
  {
    U32OfSmall(t.radio.udIndex + 1);
    assert CanTxAt(t.radio, t.radio.lifetime);
  }

  lemma SendingGoesOn(t: Trace, left: nat)
    requires Sends(t.radio, left) && left > 1
    ensures var t1 := Next(t, FrameTick);
            Sends(t1.radio, left - 1) && t1.finished == t.finished && Current(t1.radio) == Current(t.radio)
  {
    var r, r1 := t.radio, Tick(t.radio);
    U32OfSmall(r.udIndex + 1);
    assert CanTxAt(r, r.lifetime);
    forall tick: nat ensures CanTxAt(r1, tick) {
      assert CanTxAt(r, tick);
    }
  }

  /** Some run of fewer than 2^32 frames finishes another packet. */
  ghost predicate CanFinish(t: Trace)
    requires Consistent(t.radio)
  {
    exists events: seq<Event> :: LegalEvents(events) && Ticks(events) < TWO_32 && FinishesIn(t, events)
  }

  predicate LegalEvents(events: seq<Event>) {
    forall e | e in events :: LegalEvent(e)
  }

  predicate FinishesIn(t: Trace, events: seq<Event>)
    requires Consistent(t.radio) && LegalEvents(events)
  {
    |Run(t, events).finished| > |t.finished|
  }

  /** A packet that starts sending can finish if and only if it has at least one chunk. */
  lemma FinishesIffChunks(t: Trace, p: Packet)
    requires Consistent(t.radio) && JustInTime(t.radio, p) && |p.data| / CHUNK < TWO_32
    ensures CanFinish(Next(t, Arrival(p))) <==> |p.data| >= CHUNK
  {
    var t1 := Next(t, Arrival(p));
    if |p.data| >= CHUNK {
      StartedCanFinish(t, p);
    } else if CanFinish(t1) {
      var events: seq<Event> :| LegalEvents(events) && Ticks(events) < TWO_32 && FinishesIn(t1, events);
      EmptyPacketNeverFinishes(t, p, events);
    }
  }

  /** With every slot made ours, it takes one frame to each chunk. */
  lemma StartedCanFinish(t: Trace, p: Packet)
    requires Consistent(t.radio) && JustInTime(t.radio, p) && WellSized(p)
    ensures CanFinish(Next(t, Arrival(p)))
  {
    var t1, n := Next(t, Arrival(p)), |p.data| / CHUNK;
    var slots := seq(SLOTS, _ => t.radio.idMask);
    var t2 := Next(t1, SetSlots(slots));
    var events := [SetSlots(slots)] + FrameTicks(n);
    StartsSending(t, p, slots);
    SendingFinishes(t2, n);
    FrameTicksCount(n);
    AfterSlots(t1, slots, FrameTicks(n));
    assert FinishesIn(t1, events);
  }

  lemma {:induction false} AfterSlots(t: Trace, slots: seq<Word>, rest: seq<Event>)
    requires Consistent(t.radio) && |slots| == SLOTS && LegalEvents(rest)
    ensures var events := [SetSlots(slots)] + rest;
            && LegalEvents(events) && Ticks(events) == Ticks(rest)
            && Run(t, events) == Run(Next(t, SetSlots(slots)), rest)
  {
    PartsOfConcat([SetSlots(slots)], rest);
  }

  lemma StartsSending(t: Trace, p: Packet, slots: seq<Word>)
    requires Consistent(t.radio) && JustInTime(t.radio, p) && WellSized(p)
    requires |slots| == SLOTS && forall i | 0 <= i < SLOTS :: slots[i] == t.radio.idMask
    ensures var t2 := Next(Next(t, Arrival(p)), SetSlots(slots));
            Sends(t2.radio, |p.data| / CHUNK) && Current(t2.radio) == [p] && t2.finished == t.finished
  {
    OwnMaskHits(t.radio);
    U32OfSmall(|p.data| / CHUNK);
  }

  lemma OwnMaskHits(r: Radio)
    requires |r.slots| == SLOTS && CanTxAt(r, r.lifetime)
    ensures MaskHits(r.idMask, r.idMask)
  {
    MaskHitsItself(r.idMask);
  }
}
