/** Exactly when a packet's chunks go out, for any slot mask, and what the fill report tells the host. */
module UserDataTiming {
  import opened Seqs
  import opened Wrappers
  import opened Words
  import opened Schedule
  import opened UserData
  import opened UserDataRuns

  // ---------- the schedule in step

  /** The epoc field agrees with the frame counter, as in any run from zero that has not wrapped. */
  predicate InStep(r: Radio) {
    r.epocTime == (r.lifetime + FRAMES - 1) / FRAMES
  }

  lemma EpocInStep(r: Radio)
    requires InStep(r)
    ensures EpocNow(r) == r.lifetime / FRAMES + 1
  {
    U32OfSmall(r.lifetime / FRAMES + 1);
  }

  /** Then the epoc of the next frame is the one that lookups from zero on arrive at. */
  lemma InStepIsLookedUp(r: Radio)
    requires InStep(r)
    ensures EpocNow(r) == EpocAt(r.lifetime)
  {
    EpocInStep(r);
    EpocWithinTurn(r.lifetime);
  }

  lemma TickStaysInStep(r: Radio)
    requires Consistent(r) && InStep(r) && r.lifetime + 1 < TWO_32
    ensures InStep(Tick(r)) && Tick(r).lifetime == r.lifetime + 1
  {
    EpocInStep(r);
    U32OfSmall(r.lifetime + 1);
  }

  // ---------- where the packet is before tick n

  datatype Status = Waiting | OnAir(index: nat) | Done | Dumped

  /** The frame the packet asks to start at. */
  function Target(r: Radio): int {
    (r.udEpoc - 1) * FRAMES + LENGTH * r.udTimeslot
  }

  /** Whose slots are whose, and who we are. */
  datatype Calendar = Calendar(slots: seq<Word>, mask: Word)

  function Mine(r: Radio): Calendar {
    Calendar(r.slots, r.idMask)
  }

  predicate Ours(c: Calendar, tick: nat) {
    |c.slots| == SLOTS && MaskHits(c.slots[tick % FRAMES / LENGTH], c.mask)
  }

  /** How many frames of [first, last) lie in our slots. */
  function OurFrames(c: Calendar, first: nat, last: nat): nat
    decreases last
  {
    if last <= first then 0 else OurFrames(c, first, last - 1) + if Ours(c, last - 1) then 1 else 0
  }

  /** Fate, before tick n, of the packet that was waiting in r before tick r.lifetime. */
  function StatusAt(r: Radio, n: nat): Status
    requires |r.slots| == SLOTS && n >= r.lifetime
  {
    var c, g := r.lifetime, Target(r);
    if n == c || r.udEpoc == 0 then Waiting
    else if r.udTimeslot >= SLOTS then (if n > r.udEpoc * FRAMES then Dumped else Waiting)
    else if c > g then Dumped
    else if n <= g then Waiting
    else if !CanTxAt(r, g) then Dumped
    else if OurFrames(Mine(r), g, n) < r.udTotal then OnAir(OurFrames(Mine(r), g, n))
    else Done
  }

  /** The packet goes out at all: it asks for a real slot that is ours, and it came no later than its target. */
  predicate GoesOut(r: Radio)
    requires |r.slots| == SLOTS
  {
    r.udEpoc > 0 && r.udTimeslot < SLOTS && r.lifetime <= Target(r) && CanTxAt(r, Target(r))
  }

  /** The chunk of the packet that goes out in tick n, if any. */
  function ChunkAt(r: Radio, n: nat): Option<nat>
    requires |r.slots| == SLOTS && n >= r.lifetime
  {
    if GoesOut(r) && Target(r) <= n && CanTxAt(r, n) && OurFrames(Mine(r), Target(r), n) < r.udTotal
    then Some(OurFrames(Mine(r), Target(r), n)) else None
  }

  /** A packet just made current: waiting, nothing consumed, at least one chunk. */
  predicate Begun(r: Radio) {
    Consistent(r) && InStep(r) && r.udState == Wait && r.udIndex == 0 && r.udTotal > 0
  }

  /** r is what became of the packet begun in r0. */
  predicate Follows(r0: Radio, r: Radio)
    requires |r0.slots| == SLOTS
  {
    && Consistent(r) && InStep(r) && r.lifetime >= r0.lifetime
    && r.slots == r0.slots && r.idMask == r0.idMask && r.header == r0.header && r.buffer == r0.buffer
    && r.udEpoc == r0.udEpoc && r.udTimeslot == r0.udTimeslot && r.udTotal == r0.udTotal
    && match StatusAt(r0, r.lifetime)
       case Waiting => r.udState == Wait && r.udIndex == 0
       case OnAir(k) => r.udState == Sending && r.udIndex == k
       case Dumped => r.udState == Dumping
       case Done => false
  }

  /** The switch moves the state along the packet's fate. */
  lemma DecideFollows(r0: Radio, r: Radio)
    requires Begun(r0) && Follows(r0, r)
    ensures var n := r.lifetime;
            Decide(r).0 == if r.udState != Wait then r.udState
                           else if r0.udEpoc == 0 then Wait
                           else if r0.udTimeslot >= SLOTS then (if n >= r0.udEpoc * FRAMES then Dumping else Wait)
                           else if n > Target(r0) then Dumping
                           else if n < Target(r0) then Wait
                           else if CanTxAt(r0, n) then Sending else Dumping
  {
    EpocInStep(r);
    var n := r.lifetime;
    assert n == n / FRAMES * FRAMES + n % FRAMES / LENGTH * LENGTH + n % FRAMES % LENGTH;
    assert n % FRAMES / LENGTH < SLOTS;
  }

  lemma OurFramesStep(c: Calendar, first: nat, n: nat)
    requires first <= n
    ensures OurFrames(c, first, n + 1) == OurFrames(c, first, n) + if Ours(c, n) then 1 else 0
  {
  }

  /** The state the switch leaves, in terms of the packet's fate. */
  lemma DecidedStatus(r0: Radio, r: Radio)
    requires Begun(r0) && Follows(r0, r)
    ensures Decide(r).0 == Sending <==> GoesOut(r0) && Target(r0) <= r.lifetime
    ensures Decide(r).0 == Sending ==> r.udIndex == OurFrames(Mine(r0), Target(r0), r.lifetime) < r0.udTotal
    ensures Decide(r).0 in {Wait, Sending, Dumping}
    ensures StatusAt(r0, r.lifetime + 1) == Waiting <==> Decide(r).0 == Wait
    ensures StatusAt(r0, r.lifetime + 1) == Dumped <==> Decide(r).0 == Dumping
  {
    DecideFollows(r0, r);
  }

  /** One frame sends exactly the chunk foretold, and either ends the packet or moves it along. */
  lemma TickFollows(r0: Radio, r: Radio)
    requires Begun(r0) && Follows(r0, r) && r.lifetime + 1 < TWO_32
    ensures FrameOut(r).Chunk? <==> ChunkAt(r0, r.lifetime).Some?
    ensures FrameOut(r).Chunk? ==> FrameOut(r) == Chunk(r0.buffer.value, ChunkAt(r0, r.lifetime).value * CHUNK)
    ensures Finishes(r) <==> StatusAt(r0, r.lifetime + 1) == Done
    ensures !Finishes(r) ==> Follows(r0, Tick(r))
  {
    var n := r.lifetime;
    DecidedStatus(r0, r);
    TickStaysInStep(r);
    U32OfSmall(n + 1);
    if Decide(r).0 == Sending {
      OurFramesStep(Mine(r0), Target(r0), n);
      U32OfSmall(r.udIndex + 1);
    }
  }

  // ---------- along a run

  datatype Sent = Sent(tick: nat, frame: Frame)

  /** The frames of a run, with the tick that sent each. */
  function Played(t: Trace, events: seq<Event>): seq<Sent>
    requires Consistent(t.radio) && forall e | e in events :: LegalEvent(e)
    decreases |events|
  {
    if events == [] then []
    else (if events[0].FrameTick? then [Sent(t.radio.lifetime, FrameOut(t.radio))] else [])
         + Played(Next(t, events[0]), events[1..])
  }

  /** Arrivals and frames; the schedule stays as it is. */
  predicate Plain(events: seq<Event>) {
    forall e | e in events :: !e.SetSlots?
  }

  function FramesPlayed(played: seq<Sent>): seq<Frame> {
    if played == [] then [] else [played[0].frame] + FramesPlayed(played[1..])
  }

  /** What a run plays is what its log gains; nothing finished is lost. */
  lemma {:induction false} PlayedIsLogged(t: Trace, events: seq<Event>)
    requires Consistent(t.radio) && forall e | e in events :: LegalEvent(e)
    ensures FramesOf(Run(t, events).log) == FramesOf(t.log) + FramesPlayed(Played(t, events))
    ensures |Played(t, events)| == Ticks(events)
    ensures t.finished <= Run(t, events).finished
    decreases |events|
  {
    if events == [] {
      assert FramesOf(t.log) + [] == FramesOf(t.log);
    } else {
      var t1, rest := Next(t, events[0]), events[1..];
      PlayedIsLogged(t1, rest);
      if events[0].FrameTick? {
        TickLogs(t);
        var f := FrameOut(t.radio);
        Assoc(FramesOf(t.log), [f], FramesPlayed(Played(t1, rest)));
        assert Played(t, events)[1..] == Played(t1, rest);
      } else {
        assert Played(t, events) == Played(t1, rest);
      }
    }
  }

  lemma TickLogs(t: Trace)
    requires Consistent(t.radio)
    ensures FramesOf(Next(t, FrameTick).log) == FramesOf(t.log) + [FrameOut(t.radio)]
    ensures t.finished <= Next(t, FrameTick).finished
  {
    assert Next(t, FrameTick).log[..|t.log|] == t.log;
  }

  lemma {:induction false} OurFramesMonotone(c: Calendar, first: nat, m: nat, n: nat)
    requires m <= n
    ensures OurFrames(c, first, m) <= OurFrames(c, first, n)
    decreases n
  {
    if m < n {
      OurFramesMonotone(c, first, m, n - 1);
    }
  }

  lemma DonePersists(r: Radio, m: nat, n: nat)
    requires |r.slots| == SLOTS && r.lifetime <= m <= n && StatusAt(r, m) == Done
    ensures StatusAt(r, n) == Done
  {
    OurFramesMonotone(Mine(r), Target(r), m, n);
  }

  /** A frame sends what was foretold for its tick, unless the packet is already through. */
  predicate AsForetold(r0: Radio, s: Sent)
    requires Consistent(r0) && r0.buffer.Some?
  {
    s.tick >= r0.lifetime && (StatusAt(r0, s.tick) == Done || Foretold(r0, s))
  }

  predicate Foretold(r0: Radio, s: Sent)
    requires Consistent(r0) && r0.buffer.Some? && s.tick >= r0.lifetime
  {
    match ChunkAt(r0, s.tick)
    case None => !s.frame.Chunk?
    case Some(k) => s.frame == Chunk(r0.buffer.value, k * CHUNK)
  }

  /** After the packet is through, nothing more is claimed. */
  lemma {:induction false} AfterDone(r0: Radio, t: Trace, events: seq<Event>)
    requires Begun(r0) && Consistent(t.radio) && Plain(events) && t.radio.lifetime + Ticks(events) < TWO_32
    requires t.radio.lifetime >= r0.lifetime && StatusAt(r0, t.radio.lifetime) == Done
    ensures forall s | s in Played(t, events) :: AsForetold(r0, s)
    decreases |events|
  {
    if events != [] {
      StillDone(r0, t, events[0]);
      AfterDone(r0, Next(t, events[0]), events[1..]);
      PlayedCons(t, events);
    }
  }

  lemma StillDone(r0: Radio, t: Trace, e: Event)
    requires Begun(r0) && Consistent(t.radio) && !e.SetSlots?
    requires e.FrameTick? ==> t.radio.lifetime + 1 < TWO_32
    requires t.radio.lifetime >= r0.lifetime && StatusAt(r0, t.radio.lifetime) == Done
    ensures var n := Next(t, e).radio.lifetime;
            n == t.radio.lifetime + (if e.FrameTick? then 1 else 0) && StatusAt(r0, n) == Done
  {
    if e.FrameTick? {
      U32OfSmall(t.radio.lifetime + 1);
      DonePersists(r0, t.radio.lifetime, t.radio.lifetime + 1);
    }
  }

  /** One tick inside a run: what it sends, and the packet's fate after it. */
  lemma TickInRun(r0: Radio, t: Trace)
    requires Begun(r0) && Follows(r0, t.radio) && t.radio.lifetime + 1 < TWO_32
    ensures var t1, m := Next(t, FrameTick), t.radio.lifetime;
            && Foretold(r0, Sent(m, FrameOut(t.radio))) && t1.radio.lifetime == m + 1
            && (StatusAt(r0, m + 1) == Done ==> t1.finished == t.finished + Current(r0))
            && (StatusAt(r0, m + 1) != Done ==> Follows(r0, t1.radio))
  {
    TickFollows(r0, t.radio);
    TickStaysInStep(t.radio);
  }

  lemma ArrivalFollows(r0: Radio, t: Trace, p: Packet)
    requires Begun(r0) && Follows(r0, t.radio)
    ensures var t1 := Next(t, Arrival(p));
            Follows(r0, t1.radio) && t1.radio.lifetime == t.radio.lifetime
  {
  }

  lemma {:induction false} PlayedCons(t: Trace, events: seq<Event>)
    requires Consistent(t.radio) && (forall e | e in events :: LegalEvent(e)) && events != []
    ensures forall s | s in Played(t, events) ::
              s in Played(Next(t, events[0]), events[1..])
              || (events[0].FrameTick? && s == Sent(t.radio.lifetime, FrameOut(t.radio)))
  {
  }

  /** The claim about a whole run: every frame is as foretold, and the packet's fate at the end. */
  ghost predicate GoesAsForetold(r0: Radio, t: Trace, events: seq<Event>, end: Trace)
    requires Begun(r0) && Consistent(t.radio) && Plain(events)
  {
    && (forall s | s in Played(t, events) :: AsForetold(r0, s))
    && t.radio.lifetime + Ticks(events) >= r0.lifetime
    && if StatusAt(r0, t.radio.lifetime + Ticks(events)) == Done then Current(r0)[0] in end.finished
       else Follows(r0, end.radio) && end.radio.lifetime == t.radio.lifetime + Ticks(events)
  }

  lemma ExtendArrival(r0: Radio, t: Trace, t1: Trace, events: seq<Event>, end: Trace)
    requires Begun(r0) && Consistent(t.radio) && Plain(events) && events != [] && events[0].Arrival?
    requires t1 == Next(t, events[0]) && t1.radio.lifetime == t.radio.lifetime
    requires GoesAsForetold(r0, t1, events[1..], end)
    ensures GoesAsForetold(r0, t, events, end)
  {
    PlayedCons(t, events);
  }

  lemma ExtendTick(r0: Radio, t: Trace, t1: Trace, events: seq<Event>, end: Trace)
    requires Begun(r0) && Consistent(t.radio) && Plain(events) && events != [] && events[0].FrameTick?
    requires t1 == Next(t, events[0]) && t1.radio.lifetime == t.radio.lifetime + 1
    requires AsForetold(r0, Sent(t.radio.lifetime, FrameOut(t.radio)))
    requires GoesAsForetold(r0, t1, events[1..], end)
    ensures GoesAsForetold(r0, t, events, end)
  {
    PlayedCons(t, events);
  }

  lemma {:induction false} FinishedInRun(r0: Radio, t: Trace, events: seq<Event>, end: Trace)
    requires Begun(r0) && Consistent(t.radio) && Plain(events) && t.radio.lifetime + Ticks(events) < TWO_32
    requires t.radio.lifetime >= r0.lifetime && StatusAt(r0, t.radio.lifetime) == Done
    requires Current(r0)[0] in end.finished
    ensures GoesAsForetold(r0, t, events, end)
  {
    AfterDone(r0, t, events);
    DonePersists(r0, t.radio.lifetime, t.radio.lifetime + Ticks(events));
  }

  lemma {:induction false} StaysFinished(t: Trace, events: seq<Event>, p: Packet)
    requires Consistent(t.radio) && (forall e | e in events :: LegalEvent(e)) && p in t.finished
    ensures p in Run(t, events).finished
  {
    PlayedIsLogged(t, events);
    var i :| 0 <= i < |t.finished| && t.finished[i] == p;
    assert Run(t, events).finished[i] == p;
  }

  /** In any run of frames and arrivals, every frame up to the packet's end sends what was foretold. */
  lemma {:induction false} RunFollows(r0: Radio, t: Trace, events: seq<Event>)
    requires Begun(r0) && Follows(r0, t.radio) && Plain(events)
    requires t.radio.lifetime + Ticks(events) < TWO_32
    ensures GoesAsForetold(r0, t, events, Run(t, events))
    decreases |events|
  {
    if events != [] {
      var t1, rest := Next(t, events[0]), events[1..];
      match events[0]
      case Arrival(p) =>
        ArrivalFollows(r0, t, p);
        RunFollows(r0, t1, rest);
        ExtendArrival(r0, t, t1, events, Run(t1, rest));
      case FrameTick =>
        TickInRun(r0, t);
        if StatusAt(r0, t1.radio.lifetime) == Done {
          assert Current(r0)[0] in t1.finished;
          StaysFinished(t1, rest, Current(r0)[0]);
          FinishedInRun(r0, t1, rest, Run(t1, rest));
        } else {
          RunFollows(r0, t1, rest);
        }
        ExtendTick(r0, t, t1, events, Run(t1, rest));
    }
  }

  /** A run from a schedule in step stays in step until the counter would wrap. */
  lemma {:induction false} RunStaysInStep(t: Trace, events: seq<Event>)
    requires Consistent(t.radio) && InStep(t.radio) && forall e | e in events :: LegalEvent(e)
    requires t.radio.lifetime + Ticks(events) < TWO_32
    ensures InStep(Run(t, events).radio) && Run(t, events).radio.lifetime == t.radio.lifetime + Ticks(events)
    decreases |events|
  {
    if events != [] {
      if events[0].FrameTick? {
        TickStaysInStep(t.radio);
      }
      RunStaysInStep(Next(t, events[0]), events[1..]);
    }
  }

  /** A packet that meets an idle transmitter begins at once. */
  lemma PacketsBegin(r: Radio, p: Packet)
    requires Consistent(r) && InStep(r) && WellSized(p) && r.header.None?
    ensures Begun(Receive(r, p)) && Current(Receive(r, p)) == [p]
  {
    U32OfSmall(|p.data| / CHUNK);
  }

  /** A packet that heads the queue begins in the frame that finishes the one before it. */
  lemma QueuedPacketsBegin(r: Radio)
    requires Consistent(r) && InStep(r) && Progressing(r) && Finishes(r) && r.lifetime + 1 < TWO_32
    requires r.queue != [] && WellSized(r.queue[0])
    ensures Begun(Tick(r)) && Current(Tick(r)) == [r.queue[0]]
  {
    FrameFacts(r);
    TickStaysInStep(r);
    U32OfSmall(|r.queue[0].data| / CHUNK);
  }

  // ---------- all slots ours

  lemma {:induction false} OurFramesAllOn(c: Calendar, first: nat, last: nat)
    requires first <= last && forall tick: nat :: Ours(c, tick)
    ensures OurFrames(c, first, last) == last - first
    decreases last
  {
    if first < last {
      OurFramesAllOn(c, first, last - 1);
    }
  }

  lemma AllOn(r: Radio)
    requires |r.slots| == SLOTS && forall tick: nat :: CanTxAt(r, tick)
    ensures forall tick: nat :: Ours(Mine(r), tick)
  {
    forall tick: nat ensures Ours(Mine(r), tick) {
      assert CanTxAt(r, tick);
    }
  }

  /** With all slots on: what the frame of one tick sends, up to the packet's end. */
  predicate OnSchedule(r: Radio, s: Sent)
    requires Consistent(r) && r.buffer.Some?
  {
    var g := Target(r);
    if r.lifetime > g || s.tick < g then !s.frame.Chunk?
    else s.tick < g + r.udTotal ==> s.frame == Chunk(r.buffer.value, (s.tick - g) * CHUNK)
  }

  lemma ForetoldOnSchedule(r: Radio, s: Sent)
    requires Begun(r) && r.udEpoc >= 1 && r.udTimeslot < SLOTS && forall tick: nat :: CanTxAt(r, tick)
    requires AsForetold(r, s)
    ensures OnSchedule(r, s)
  {
    if r.lifetime <= Target(r) <= s.tick {
      AllOn(r);
      OurFramesAllOn(Mine(r), Target(r), s.tick);
    }
  }

  /**
   * With all slots on, a packet begun before tick c for target g sends nothing before tick g and chunk k in tick
   * g + k if c <= g; if c > g it is dumped and sends nothing. What follows its last chunk is the next packet's.
   */
  lemma {:induction false} ExactTiming(t: Trace, events: seq<Event>)
    requires Begun(t.radio) && Plain(events) && t.radio.lifetime + Ticks(events) < TWO_32
    requires forall tick: nat :: CanTxAt(t.radio, tick)
    requires t.radio.udEpoc >= 1 && t.radio.udTimeslot < SLOTS
    ensures OnTime(t.radio, t, events, Run(t, events))
  {
    RunFollows(t.radio, t, events);
    ForetoldIsOnTime(t.radio, t, events, Run(t, events));
  }

  /** The whole run keeps to the schedule, and ends with the packet finished, or dumped if it came late. */
  ghost predicate OnTime(r: Radio, t: Trace, events: seq<Event>, end: Trace)
    requires Begun(r) && Consistent(t.radio) && Plain(events)
  {
    var last := t.radio.lifetime + Ticks(events);
    && (forall s | s in Played(t, events) :: OnSchedule(r, s))
    && (r.lifetime <= Target(r) && last >= Target(r) + r.udTotal ==> Current(r)[0] in end.finished)
    && (r.lifetime > Target(r) && last > r.lifetime ==> end.radio.udState == Dumping)
  }

  lemma ForetoldIsOnTime(r: Radio, t: Trace, events: seq<Event>, end: Trace)
    requires Begun(r) && r.udEpoc >= 1 && r.udTimeslot < SLOTS && forall tick: nat :: CanTxAt(r, tick)
    requires Consistent(t.radio) && Plain(events) && GoesAsForetold(r, t, events, end)
    ensures OnTime(r, t, events, end)
  {
    FramesOnSchedule(r, t, events, end);
    EndOnSchedule(r, t.radio.lifetime + Ticks(events));
  }

  lemma {:induction false} FramesOnSchedule(r: Radio, t: Trace, events: seq<Event>, end: Trace)
    requires Begun(r) && r.udEpoc >= 1 && r.udTimeslot < SLOTS && forall tick: nat :: CanTxAt(r, tick)
    requires Consistent(t.radio) && Plain(events) && GoesAsForetold(r, t, events, end)
    ensures forall s | s in Played(t, events) :: OnSchedule(r, s)
  {
    forall s | s in Played(t, events) ensures OnSchedule(r, s) {
      ForetoldOnSchedule(r, s);
    }
  }

  lemma EndOnSchedule(r: Radio, last: nat)
    requires Begun(r) && r.udEpoc >= 1 && r.udTimeslot < SLOTS && forall tick: nat :: CanTxAt(r, tick)
    requires last >= r.lifetime
    ensures r.lifetime <= Target(r) && last >= Target(r) + r.udTotal ==> StatusAt(r, last) == Done
    ensures r.lifetime > Target(r) && last > r.lifetime ==> StatusAt(r, last) == Dumped
  {
    if r.lifetime <= Target(r) <= last {
      AllOn(r);
      OurFramesAllOn(Mine(r), Target(r), last);
    }
  }

  /** Still before its target frame, or with none to wait for. */
  predicate StillWaits(r: Radio, n: nat) {
    || r.udEpoc == 0
    || (r.udTimeslot >= SLOTS && n <= r.udEpoc * FRAMES)
    || (r.udTimeslot < SLOTS && r.lifetime <= Target(r) && n <= Target(r))
  }

  /** The packet is current and in this state. */
  predicate CurrentIs(r: Radio, end: Radio, state: UdState)
    requires Coherent(r) && Coherent(end)
  {
    Current(end) == Current(r) && end.udState == state
  }

  /**
   * What has become of a begun packet at the end of any run is decided by its header, the slot mask and when it came:
   * it still waits, or it is going out or through, or it was dumped.
   */
  lemma {:induction false} FateOfPacket(t: Trace, events: seq<Event>)
    requires Begun(t.radio) && Plain(events) && Ticks(events) > 0 && t.radio.lifetime + Ticks(events) < TWO_32
    ensures MeetsFate(t.radio, t.radio.lifetime + Ticks(events), Run(t, events))
  {
    RunFollows(t.radio, t, events);
    ForetoldMeetsFate(t.radio, t, events, Run(t, events));
  }

  predicate MeetsFate(r: Radio, n: nat, end: Trace)
    requires Begun(r) && Consistent(end.radio)
  {
    if StillWaits(r, n) then CurrentIs(r, end.radio, Wait)
    else if GoesOut(r) then Current(r)[0] in end.finished || CurrentIs(r, end.radio, Sending)
    else CurrentIs(r, end.radio, Dumping)
  }

  lemma {:induction false} ForetoldMeetsFate(r: Radio, t: Trace, events: seq<Event>, end: Trace)
    requires Begun(r) && Consistent(t.radio) && Consistent(end.radio) && Plain(events)
    requires GoesAsForetold(r, t, events, end) && t.radio.lifetime + Ticks(events) > r.lifetime
    ensures MeetsFate(r, t.radio.lifetime + Ticks(events), end)
  {
    FateByStatus(r, t.radio.lifetime + Ticks(events));
  }

  lemma FateByStatus(r: Radio, n: nat)
    requires Begun(r) && n > r.lifetime
    ensures StatusAt(r, n) == Waiting <==> StillWaits(r, n)
    ensures !StillWaits(r, n) ==> (StatusAt(r, n).OnAir? || StatusAt(r, n).Done? <==> GoesOut(r))
  {
  }

  // ---------- our frames, one after another

  /** Our first frame from n on, or limit. */
  function NextOurs(c: Calendar, n: nat, limit: nat): nat
    decreases limit - n
  {
    if n >= limit || Ours(c, n) then n else NextOurs(c, n + 1, limit)
  }

  /** Our j-th frame from g on, g being ours; slots recur, so the next one is at most a period away. */
  function OurTick(c: Calendar, g: nat, j: nat): nat {
    if j == 0 then g
    else
      var before := OurTick(c, g, j - 1);
      NextOurs(c, before + 1, before + FRAMES)
  }

  lemma SlotsRecur(c: Calendar, n: nat)
    ensures Ours(c, n + FRAMES) == Ours(c, n)
  {
    assert (n + FRAMES) % FRAMES == n % FRAMES;
  }

  lemma {:induction false} NextOursIsOurs(c: Calendar, first: nat, n: nat, limit: nat)
    requires first <= n <= limit && Ours(c, limit)
    ensures var m := NextOurs(c, n, limit);
            n <= m && Ours(c, m) && OurFrames(c, first, m) == OurFrames(c, first, n)
    decreases limit - n
  {
    if n < limit && !Ours(c, n) {
      NextOursIsOurs(c, first, n + 1, limit);
      OurFramesStep(c, first, n);
    }
  }

  /** Frame OurTick(c, g, j) is ours, and exactly j frames of ours lie between g and it. */
  lemma {:induction false} OurTickMeaning(c: Calendar, g: nat, j: nat)
    requires Ours(c, g)
    ensures var m := OurTick(c, g, j); g <= m && Ours(c, m) && OurFrames(c, g, m) == j
    decreases j
  {
    if j > 0 {
      var before := OurTick(c, g, j - 1);
      OurTickMeaning(c, g, j - 1);
      SlotsRecur(c, before);
      OurFramesStep(c, g, before);
      NextOursIsOurs(c, g, before + 1, before + FRAMES);
    }
  }

  /** No other frame is like that. */
  lemma {:induction false} OurTickUnique(c: Calendar, g: nat, n: nat)
    requires Ours(c, g) && g <= n && Ours(c, n)
    ensures n == OurTick(c, g, OurFrames(c, g, n))
  {
    var m := OurTick(c, g, OurFrames(c, g, n));
    OurTickMeaning(c, g, OurFrames(c, g, n));
    if m < n {
      OursBetween(c, g, m, n);
    } else if n < m {
      OursBetween(c, g, n, m);
    }
  }

  lemma {:induction false} OursBetween(c: Calendar, g: nat, m: nat, n: nat)
    requires g <= m < n && Ours(c, m)
    ensures OurFrames(c, g, m) < OurFrames(c, g, n)
  {
    OurFramesStep(c, g, m);
    OurFramesMonotone(c, g, m + 1, n);
  }

  /** A frame is ours exactly when its slot has a bit in common with our mask. */
  lemma OursShareBit(c: Calendar, tick: nat)
    requires |c.slots| == 50
    ensures Ours(c, tick) <==> ShareBit(c.slots[tick % 25600 / 512], c.mask)
  {
    HitsShareBit(c.slots[tick % FRAMES / LENGTH], c.mask);
  }

  lemma {:induction false} RunKeepsCalendar(t: Trace, events: seq<Event>)
    requires Consistent(t.radio) && Plain(events)
    ensures Mine(Run(t, events).radio) == Mine(t.radio)
    decreases |events|
  {
    if events != [] {
      StepKeepsMasks(t, events[0]);
      RunKeepsCalendar(Next(t, events[0]), events[1..]);
    }
  }

  lemma {:induction false} OurTickAllOn(c: Calendar, g: nat, j: nat)
    requires forall tick: nat :: Ours(c, tick)
    ensures OurTick(c, g, j) == g + j
    decreases j
  {
    if j > 0 {
      OurTickAllOn(c, g, j - 1);
    }
  }

  // ---------- the timetable of a whole run

  // A chunk and the frame that sent it.
  datatype Slot = Slot(tick: int, chunk: Frame)

  /** The whole chunks that were played, with their ticks. */
  function ChunkSlots(played: seq<Sent>): seq<Slot> {
    if played == [] then []
    else (if Whole(played[0].frame) then [Slot(played[0].tick, played[0].frame)] else []) + ChunkSlots(played[1..])
  }

  /** The frame a packet's header asks for; negative for none. */
  function Due(p: Packet): int {
    (p.header.epoc - 1) * FRAMES + LENGTH * p.header.timeslot
  }

  /** The frame for chunk j of a packet: our j-th from the one asked for on. */
  function TickOf(c: Calendar, p: Packet, j: nat): int {
    if Due(p) < 0 then Due(p) else OurTick(c, Due(p), j)
  }

  /** The first k chunks of a packet and their frames. */
  function FirstSlots(c: Calendar, p: Packet, k: nat): seq<Slot> {
    if k == 0 then []
    else FirstSlots(c, p, k - 1) + [Slot(TickOf(c, p, k - 1), Chunk(p.data, (k - 1) * CHUNK))]
  }

  function AllSlots(c: Calendar, packets: seq<Packet>): seq<Slot> {
    if packets == [] then []
    else
      var last := packets[|packets| - 1];
      AllSlots(c, packets[..|packets| - 1]) + FirstSlots(c, last, |last.data| / CHUNK)
  }

  function CurrentSlots(r: Radio): seq<Slot>
    requires Consistent(r)
  {
    if r.header.Some? then FirstSlots(Mine(r), Current(r)[0], SentSoFar(r)) else []
  }

  /** The slots used so far: those of the finished packets, and of the current one as far as it has got. */
  function UsedSlots(t: Trace): seq<Slot>
    requires Consistent(t.radio)
  {
    AllSlots(Mine(t.radio), t.finished) + CurrentSlots(t.radio)
  }

  /** The packet has sent a chunk in each of our frames since the one it asked for, which is ours. */
  predicate SendsSinceTarget(r: Radio) {
    && 0 <= Target(r) <= r.lifetime && Ours(Mine(r), Target(r))
    && (r.udTotal > 0 ==> OurFrames(Mine(r), Target(r), r.lifetime) == r.udIndex)
  }

  predicate HeaderRead(r: Radio)
    requires r.header.Some?
  {
    r.udEpoc == r.header.value.epoc && r.udTimeslot == r.header.value.timeslot
  }

  predicate Punctual(r: Radio) {
    && Consistent(r) && InStep(r) && Progressing(r)
    && (r.header.Some? ==> HeaderRead(r)) && (r.udState == Sending ==> SendsSinceTarget(r))
  }

  predicate OnTimetable(t: Trace) {
    Inv(t) && Punctual(t.radio)
  }

  lemma ArrivalOnTimetable(t: Trace, p: Packet)
    requires OnTimetable(t) && Countable(p)
    ensures OnTimetable(Next(t, Arrival(p))) && UsedSlots(Next(t, Arrival(p))) == UsedSlots(t)
  {
    StepKeeps(t, Arrival(p));
  }

  /** The switch lets a packet start in the frame it asks for and no other, and only if that is ours. */
  lemma DecidesOnTime(r: Radio)
    requires Punctual(r) && r.header.Some? && Decide(r).0 == Sending
    ensures SendsSinceTarget(r)
  {
    EpocInStep(r);
    var n := r.lifetime;
    assert n == n / FRAMES * FRAMES + n % FRAMES / LENGTH * LENGTH + n % FRAMES % LENGTH;
  }

  /** A frame that sends a whole chunk is the packet's next. */
  lemma SendsOnTime(r: Radio)
    requires Punctual(r) && Whole(FrameOut(r))
    ensures r.header.Some? && SentSoFar(r) == r.udIndex && r.lifetime == TickOf(Mine(r), Current(r)[0], r.udIndex)
  {
    FrameFacts(r);
    DecidesOnTime(r);
    OurTickUnique(Mine(r), Target(r), r.lifetime);
  }

  lemma TickPunctual(r: Radio)
    requires Punctual(r) && r.lifetime + 1 < TWO_32 && Progressing(Tick(r))
    ensures Punctual(Tick(r)) && Mine(Tick(r)) == Mine(r)
  {
    TickStaysInStep(r);
    FrameFacts(r);
    if r.header.Some? && Decide(r).0 == Sending {
      SendingStaysPunctual(r);
    }
  }

  lemma SendingStaysPunctual(r: Radio)
    requires Punctual(r) && r.lifetime + 1 < TWO_32 && r.header.Some? && Decide(r).0 == Sending
    ensures Tick(r).udState == Sending ==> SendsSinceTarget(Tick(r))
  {
    FrameFacts(r);
    DecidesOnTime(r);
    OurFramesStep(Mine(r), Target(r), r.lifetime);
    U32OfSmall(r.lifetime + 1);
    U32OfSmall(r.udIndex + if r.udTotal > 0 then 1 else 0);
  }

  lemma TickOnTimetable(t: Trace)
    requires OnTimetable(t) && t.radio.lifetime + 1 < TWO_32
    ensures OnTimetable(Next(t, FrameTick))
  {
    StepKeeps(t, FrameTick);
    TickPunctual(t.radio);
  }

  lemma {:induction false} AllSlotsStep(c: Calendar, packets: seq<Packet>, p: Packet)
    ensures AllSlots(c, packets + [p]) == AllSlots(c, packets) + FirstSlots(c, p, |p.data| / CHUNK)
  {
    PartsOfConcat(packets, [p]);
  }

  /** The slot a frame uses, if it sends a whole chunk. */
  function SlotNow(r: Radio): seq<Slot>
    requires Consistent(r)
  {
    if Whole(FrameOut(r)) then [Slot(r.lifetime, FrameOut(r))] else []
  }

  lemma TickUsesSlot(t: Trace)
    requires OnTimetable(t) && t.radio.lifetime + 1 < TWO_32
    ensures UsedSlots(Next(t, FrameTick)) == UsedSlots(t) + SlotNow(t.radio)
  {
    CurrentSlotsGrow(t.radio);
    Assoc(AllSlots(Mine(t.radio), t.finished), CurrentSlots(t.radio), SlotNow(t.radio));
    if Finishes(t.radio) {
      FinishUsesSlots(t);
    } else {
      ContinueUsesSlots(t);
    }
  }

  lemma FinishUsesSlots(t: Trace)
    requires OnTimetable(t) && t.radio.lifetime + 1 < TWO_32 && Finishes(t.radio)
    ensures UsedSlots(Next(t, FrameTick)) == AllSlots(Mine(t.radio), t.finished) + CurrentSlotsAfter(t.radio)
  {
    var r, t' := t.radio, Next(t, FrameTick);
    FrameFacts(r);
    TickPunctualInRun(t);
    FinishTick(t);
    AllSlotsStep(Mine(r), t.finished, Current(r)[0]);
    assert CurrentSlots(t'.radio) == [];
    AddNothing(AllSlots(Mine(r), t'.finished));
  }

  lemma ContinueUsesSlots(t: Trace)
    requires OnTimetable(t) && t.radio.lifetime + 1 < TWO_32 && !Finishes(t.radio)
    ensures UsedSlots(Next(t, FrameTick)) == AllSlots(Mine(t.radio), t.finished) + CurrentSlotsAfter(t.radio)
  {
    TickPunctualInRun(t);
    CurrentSlotsContinue(t.radio);
    AddNothing(t.finished);
  }

  lemma CurrentSlotsContinue(r: Radio)
    requires Punctual(r) && !Finishes(r) && Mine(Tick(r)) == Mine(r)
    ensures CurrentSlots(Tick(r)) == CurrentSlotsAfter(r)
  {
    FrameFacts(r);
  }

  lemma TickPunctualInRun(t: Trace)
    requires OnTimetable(t) && t.radio.lifetime + 1 < TWO_32
    ensures Punctual(Tick(t.radio)) && Mine(Tick(t.radio)) == Mine(t.radio)
  {
    StepKeeps(t, FrameTick);
    TickPunctual(t.radio);
  }

  /** What the current packet has used after this frame. */
  function CurrentSlotsAfter(r: Radio): seq<Slot>
    requires Consistent(r)
  {
    if r.header.Some?
    then FirstSlots(Mine(r), Current(r)[0], SentSoFar(r) + if Whole(FrameOut(r)) then 1 else 0)
    else []
  }

  lemma CurrentSlotsGrow(r: Radio)
    requires Punctual(r)
    ensures CurrentSlots(r) + SlotNow(r) == CurrentSlotsAfter(r)
  {
    FrameFacts(r);
    if Whole(FrameOut(r)) {
      SendsOnTime(r);
    } else {
      AddNothing(CurrentSlots(r));
    }
  }

  /** From a trace on the timetable, a run plays chunks exactly in the slots it uses. */
  lemma {:induction false} RunOnTimetable(t: Trace, events: seq<Event>)
    requires OnTimetable(t) && Plain(events) && t.radio.lifetime + Ticks(events) < TWO_32
    requires forall e | e in events && e.Arrival? :: Countable(e.p)
    ensures UsedSlots(Run(t, events)) == UsedSlots(t) + ChunkSlots(Played(t, events))
    decreases |events|
  {
    if events == [] {
      AddNothing(UsedSlots(t));
    } else {
      var t1, rest := Next(t, events[0]), events[1..];
      if events[0].FrameTick? {
        TickOnTimetable(t);
        TickUsesSlot(t);
        TickStaysInStep(t.radio);
        PlayedSlots(t, events);
        Assoc(UsedSlots(t), SlotNow(t.radio), ChunkSlots(Played(t1, rest)));
      } else {
        ArrivalOnTimetable(t, events[0].p);
        AddNothing(Played(t1, rest));
      }
      RunOnTimetable(t1, rest);
    }
  }

  lemma {:induction false} PlayedSlots(t: Trace, events: seq<Event>)
    requires Consistent(t.radio) && (forall e | e in events :: LegalEvent(e)) && events != [] && events[0].FrameTick?
    ensures ChunkSlots(Played(t, events)) == SlotNow(t.radio) + ChunkSlots(Played(Next(t, events[0]), events[1..]))
  {
    PartsOfConcat([Sent(t.radio.lifetime, FrameOut(t.radio))], Played(Next(t, events[0]), events[1..]));
  }

  /**
   * Under any fixed slot mask, the whole chunks of a whole run and the frames that sent them are, packet by packet in
   * the order they finished, chunk j in our j-th frame from the one the packet asked for; then those of the current
   * packet so far. Nothing else is sent.
   */
  lemma {:induction false} Timetable(t: Trace, events: seq<Event>)
    requires Fresh(t) && InStep(t.radio) && Plain(events) && t.radio.lifetime + Ticks(events) < TWO_32
    requires forall e | e in events && e.Arrival? :: Countable(e.p)
    ensures ChunkSlots(Played(t, events)) == UsedSlots(Run(t, events))
  {
    RunOnTimetable(t, events);
    AddNothing(ChunkSlots(Played(t, events)));
  }

  /** With all slots ours, that is one chunk a frame. */
  lemma TickOfAllOn(c: Calendar, p: Packet, j: nat)
    requires Due(p) >= 0 && forall tick: nat :: Ours(c, tick)
    ensures TickOf(c, p, j) == Due(p) + j
  {
    OurTickAllOn(c, Due(p), j);
  }

  // ---------- every frame, and every error

  /** Under a fixed mask, every frame of a run by its tick. */
  lemma {:induction false} PlayedFrames(t: Trace, events: seq<Event>)
    requires Consistent(t.radio) && Plain(events)
    ensures var r := t.radio;
            forall s | s in Played(t, events) :: FrameAt(s.frame, r.slots, r.idMask, r.tdmaMode, s.tick)
    decreases |events|
  {
    if events != [] {
      StepKeepsMasks(t, events[0]);
      FrameByTick(t.radio);
      PlayedFrames(Next(t, events[0]), events[1..]);
      PlayedCons(t, events);
    }
  }

  /** The error word for a waiting packet that asks for epoc e and slot s, by the tick. */
  function ErrorAt(e: Word, s: Word, ours: bool, tick: nat): seq<Word> {
    var g: int := (e - 1) * 25600 + 512 * s;
    if e == 0 || tick < (e - 1) * 25600 then []
    else if tick >= e * 25600 then [0x4400_0002]
    else if tick >= g + 512 then [0x4400_0007]
    else if tick > g then [0x4400_0005]
    else if tick == g && !ours then [0x4400_0004]
    else []
  }

  /**
   * What a waiting packet is told is decided by how late it is: its epoc over, its slot over, its first frame over, or
   * that frame not ours. It is dumped in just these cases.
   */
  lemma ErrorsByTick(r: Radio)
    requires Consistent(r) && InStep(r) && r.udState == Wait
    ensures ErrorReport(Decide(r).1)
            == ErrorAt(r.udEpoc, r.udTimeslot, ShareBit(r.slots[r.lifetime % 25600 / 512], r.idMask), r.lifetime)
    ensures Decide(r).0 == Dumping <==> Decide(r).1.Some?
  {
    var n := r.lifetime;
    EpocInStep(r);
    HitsShareBit(r.slots[n % FRAMES / LENGTH], r.idMask);
    TickParts(n);
  }

  lemma TickParts(n: nat)
    ensures n == n / FRAMES * FRAMES + n % FRAMES / LENGTH * LENGTH + n % FRAMES % LENGTH
    ensures n % FRAMES / LENGTH < SLOTS
  {
  }

  // ---------- the fill report

  function SignExtend(x: int, half: int): int
    requires half > 0
  {
    (x + half) % (2 * half) - half
  }

  /** Both fields sign-decoded. */
  function FillLevel(w: Word): int {
    SignExtend(w / 0x1_0000 % 0x100, 0x80) * FRAMES + SignExtend(w % 0x1_0000, 0x8000)
  }

  /** The frames still to go before the target, as an epoc difference and a frame difference. */
  lemma TimeToTarget(r: Radio)
    requires InStep(r)
    ensures Target(r) - r.lifetime == (r.udEpoc - EpocNow(r)) * FRAMES + (LENGTH * r.udTimeslot - r.lifetime % FRAMES)
  {
    EpocInStep(r);
  }

  lemma FillFields(epocs: int, frames: int)
    ensures FillWord(epocs, frames) / 0x1_0000 % 0x100 == epocs % 0x100
    ensures FillWord(epocs, frames) % 0x1_0000 == frames % 0x1_0000
  {
    var e, f := epocs % 0x100, frames % 0x1_0000;
    assert FillWord(epocs, frames) == (0x4600 + e) * 0x1_0000 + f;
  }

  lemma SignedByte(e: int)
    ensures var s := SignExtend(e % 0x100, 0x80); -128 <= s <= 127 && (s == e <==> -128 <= e <= 127)
  {
  }

  lemma SignedHalf(f: int)
    requires -0x8000 <= f < 0x8000
    ensures SignExtend(f % 0x1_0000, 0x8000) == f
  {
  }

  lemma ReportFields(r: Radio)
    requires InStep(r) && r.udTimeslot < SLOTS
    ensures var w, e, f := FillReport(r), r.udEpoc - EpocNow(r), LENGTH * r.udTimeslot - r.lifetime % FRAMES;
            w / 0x1_0000 % 0x100 == e % 0x100 && SignExtend(w % 0x1_0000, 0x8000) == f
            && Target(r) - r.lifetime == e * FRAMES + f
  {
    var e, f := r.udEpoc - EpocNow(r), LENGTH * r.udTimeslot - r.lifetime % FRAMES;
    FillFields(e, f);
    TimeToTarget(r);
    SignedHalf(f);
  }

  /** The fill report sign-decodes to exactly how early the packet is, just when the epoc difference fits a byte. */
  lemma FillReportExact(r: Radio)
    requires InStep(r) && r.udTimeslot < SLOTS
    ensures FillLevel(FillReport(r)) == Target(r) - r.lifetime <==> -128 <= r.udEpoc - EpocNow(r) <= 127
  {
    ReportFields(r);
    SignedByte(r.udEpoc - EpocNow(r));
  }
}
