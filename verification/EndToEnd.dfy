/** From the host's frames to the words received over the air: parser, mapper, timed transmitter, channel, receiver. */
module EndToEnd {
  import opened Seqs
  import opened Words
  import opened MapMov
  import opened BitChain
  import FB = FeedbackBus
  import FF = FeedbackFraming
  import UD = UserData
  import Runs = UserDataRuns
  import Timing = UserDataTiming

  // ---------- from the parser to the transmitter

  /** A header word that is not there reads as none; headers that the parser hands out have all sixteen. */
  function At(header: seq<Word>, i: nat): Word {
    if i < |header| then header[i] else 0
  }

  /** The transmitter reads its timeslot and epoc from the header's two sequence words. */
  function RadioPacket(u: (seq<Word>, seq<Word>)): UD.Packet {
    UD.Packet(UD.Header(At(u.0, 5), At(u.0, 6)), u.1)
  }

  function RadioPackets(us: seq<(seq<Word>, seq<Word>)>): seq<UD.Packet> {
    if us == [] then [] else [RadioPacket(us[0])] + RadioPackets(us[1..])
  }

  /** The user-data frames: vectors, type 2, of the fifth sub-type. */
  function UserFrames(frames: seq<FF.Frame>): seq<FF.Frame> {
    if frames == [] then []
    else
      var h := frames[0].header;
      (if |h| == 16 && h[0] == 2 && h[4] == 5 then [frames[0]] else []) + UserFrames(frames[1..])
  }

  function Bodies(frames: seq<FF.Frame>): seq<seq<Word>> {
    if frames == [] then [] else [frames[0].body] + Bodies(frames[1..])
  }

  /** A packet is what a user-data frame asks to be sent, and when. */
  predicate Becomes(p: UD.Packet, f: FF.Frame) {
    && |f.header| == 16 && p.header.timeslot == f.header[5] && p.header.epoc == f.header[6]
    && |f.body| % 8 == 0 && p.data == Accepted(f.body)
  }

  predicate BecomeAll(ps: seq<UD.Packet>, frames: seq<FF.Frame>) {
    |ps| == |frames| && forall i :: 0 <= i < |ps| ==> Becomes(ps[i], frames[i])
  }

  /** Each packet's data is its body expanded to whole frames of samples. */
  predicate Carry(ps: seq<UD.Packet>, bodies: seq<seq<Word>>) {
    && |ps| == |bodies|
    && forall i :: 0 <= i < |ps| ==> |bodies[i]| % 8 == 0 && ps[i].data == Accepted(bodies[i])
  }

  lemma BecomeCons(p: UD.Packet, ps: seq<UD.Packet>, f: FF.Frame, frames: seq<FF.Frame>)
    requires BecomeAll(ps, frames) && Becomes(p, f)
    ensures BecomeAll([p] + ps, [f] + frames)
  {
  }

  lemma {:induction false} FramesBecome(frames: seq<FF.Frame>)
    requires forall f | f in frames :: FF.Legal(f)
    ensures BecomeAll(RadioPackets(FB.UserData(FF.PacketsOf(frames))), UserFrames(frames))
  {
    if frames != [] {
      var f, later := frames[0], FB.UserData(FF.PacketsOf(frames[1..]));
      FramesBecome(frames[1..]);
      UserDataOfFrame(frames);
      if FB.IsMapMov(f.header) {
        var u := (f.header, Accepted(f.body));
        PartsOfConcat([u], later);
        BecomeCons(RadioPacket(u), RadioPackets(later), f, UserFrames(frames[1..]));
      } else {
        AddNothing(later);
        AddNothing(UserFrames(frames[1..]));
      }
    }
  }

  lemma {:induction false} BodyAt(frames: seq<FF.Frame>, i: nat)
    requires i < |frames|
    ensures |Bodies(frames)| == |frames| && Bodies(frames)[i] == frames[i].body
  {
    if i > 0 {
      BodyAt(frames[1..], i - 1);
    } else if |frames| > 1 {
      BodyAt(frames[1..], 0);
    }
  }

  lemma {:induction false} BecomeCarry(ps: seq<UD.Packet>, frames: seq<FF.Frame>)
    requires BecomeAll(ps, frames)
    ensures Carry(ps, Bodies(frames))
  {
    forall i | 0 <= i < |ps|
      ensures |Bodies(frames)| == |ps| && |Bodies(frames)[i]| % 8 == 0 && ps[i].data == Accepted(Bodies(frames)[i])
    {
      BodyAt(frames, i);
      assert Becomes(ps[i], frames[i]);
    }
    assert ps == [] ==> Bodies(frames) == [];
  }

  lemma {:induction false} UserDataOfFrame(frames: seq<FF.Frame>)
    requires frames != [] && FF.Legal(frames[0])
    ensures var f := frames[0];
            FB.UserData(FF.PacketsOf(frames))
            == (if FB.IsMapMov(f.header) then [(f.header, Accepted(f.body))] else [])
               + FB.UserData(FF.PacketsOf(frames[1..]))
  {
    var events := FF.PacketsOf(frames);
    assert events[0] == FB.Packet(frames[0].header, frames[0].body) && events[1..] == FF.PacketsOf(frames[1..]);
  }

  // ---------- chunks and the words they convey

  /** Slicing a buffer stops at its end. */
  function SamplesOf(f: UD.Frame): seq<Word> {
    if f.Chunk? then
      var n := |f.buffer|;
      f.buffer[if f.offset < n then f.offset else n..if f.offset + UD.CHUNK < n then f.offset + UD.CHUNK else n]
    else []
  }

  /** A chunk that is the expansion of eight words. */
  predicate ConveysOne(f: UD.Frame, group: seq<Word>) {
    Runs.Whole(f) && |group| == 8 && SamplesOf(f) == Accepted(group)
  }

  predicate Conveys(chunks: seq<UD.Frame>, groups: seq<seq<Word>>) {
    |chunks| == |groups| && forall i | 0 <= i < |chunks| :: ConveysOne(chunks[i], groups[i])
  }

  lemma ConveysMore(a: seq<UD.Frame>, v: seq<seq<Word>>, b: seq<UD.Frame>, w: seq<seq<Word>>)
    requires Conveys(a, v) && Conveys(b, w)
    ensures Conveys(a + b, v + w)
  {
  }

  /** The first k groups of eight words. */
  function FirstGroups(body: seq<Word>, k: nat): seq<seq<Word>>
    requires 8 * k <= |body|
  {
    if k == 0 then [] else FirstGroups(body, k - 1) + [body[8 * (k - 1)..8 * k]]
  }

  function AllGroups(bodies: seq<seq<Word>>): seq<seq<Word>> {
    if bodies == [] then []
    else
      var last := bodies[|bodies| - 1];
      AllGroups(bodies[..|bodies| - 1]) + FirstGroups(last, |last| / 8)
  }

  lemma {:induction false} SpreadConcat(d: seq<Dibit>, e: seq<Dibit>)
    requires |d| % 128 == 0
    ensures Spread(d + e) == Spread(d) + Spread(e)
    decreases |d|
  {
    if d == [] {
      AddNothing(e);
      AddNothing(Spread(e));
    } else {
      SliceOfConcat(d, e, 0, 128);
      DropOfConcat(d, e, 128);
      SpreadConcat(d[128..], e);
      Assoc(FramePoints(d[..128], 1024), Spread(d[128..]), Spread(e));
    }
  }

  lemma AcceptedConcat(a: seq<Word>, b: seq<Word>)
    requires |a| % 8 == 0 && |b| % 8 == 0
    ensures Accepted(a + b) == Accepted(a) + Accepted(b)
  {
    DibitsOfConcat(a, b);
    SpreadConcat(DibitsOf(a), DibitsOf(b));
  }

  lemma AcceptedParts(a: seq<Word>, g: seq<Word>, rest: seq<Word>)
    requires |a| % 8 == 0 && |g| % 8 == 0 && |rest| % 8 == 0
    ensures Accepted((a + g) + rest) == (Accepted(a) + Accepted(g)) + Accepted(rest)
  {
    AcceptedConcat(a, g);
    AcceptedConcat(a + g, rest);
  }

  /** Chunk j of an expanded body is the expansion of its words 8j .. 8j + 8. */
  lemma ChunkConveysGroup(p: UD.Packet, body: seq<Word>, j: nat)
    requires |body| % 8 == 0 && p.data == Accepted(body) && 8 * j + 8 <= |body|
    ensures ConveysOne(UD.Chunk(p.data, j * UD.CHUNK), body[8 * j..8 * (j + 1)])
  {
    var a, g, rest := body[..8 * j], body[8 * j..8 * (j + 1)], body[8 * (j + 1)..];
    AcceptedParts(a, g, rest);
    ThreeParts(body, 8 * j, 8 * (j + 1));
    MiddlePart(Accepted(a), Accepted(g), Accepted(rest), p.data, j * UD.CHUNK);
  }

  lemma MiddlePart(x: seq<Word>, y: seq<Word>, z: seq<Word>, all: seq<Word>, n: nat)
    requires all == (x + y) + z && |x| == n && |y| == UD.CHUNK
    ensures n + UD.CHUNK <= |all| && all[n..n + UD.CHUNK] == y
  {
  }

  lemma {:induction false} FirstChunksConvey(p: UD.Packet, body: seq<Word>, k: nat)
    requires |body| % 8 == 0 && p.data == Accepted(body) && 8 * k <= |body|
    ensures Conveys(Runs.FirstChunks(p, k), FirstGroups(body, k))
    decreases k
  {
    if k > 0 {
      FirstChunksConvey(p, body, k - 1);
      ChunkConveysGroup(p, body, k - 1);
      ConveysMore(Runs.FirstChunks(p, k - 1), FirstGroups(body, k - 1),
                  [UD.Chunk(p.data, (k - 1) * UD.CHUNK)], [body[8 * (k - 1)..8 * k]]);
    }
  }

  lemma ChunkCount(p: UD.Packet, body: seq<Word>)
    requires |body| % 8 == 0 && p.data == Accepted(body)
    ensures |p.data| / UD.CHUNK == |body| / 8 && |p.data| % UD.CHUNK == 0
  {
  }

  lemma {:induction false} AllChunksConvey(ps: seq<UD.Packet>, bodies: seq<seq<Word>>)
    requires Carry(ps, bodies)
    ensures Conveys(Runs.AllChunks(ps), AllGroups(bodies))
    decreases |ps|
  {
    if ps != [] {
      var n := |ps| - 1;
      AllChunksConvey(ps[..n], bodies[..n]);
      ChunkCount(ps[n], bodies[n]);
      FirstChunksConvey(ps[n], bodies[n], |bodies[n]| / 8);
      ConveysMore(Runs.AllChunks(ps[..n]), AllGroups(bodies[..n]),
                  Runs.FirstChunks(ps[n], |ps[n].data| / UD.CHUNK), FirstGroups(bodies[n], |bodies[n]| / 8));
    }
  }

  lemma OneChunk<T>(c: seq<T>)
    ensures Flatten([c]) == c
  {
    AddNothing(c);
  }

  lemma {:induction false} FlattenGroups(body: seq<Word>, k: nat)
    requires 8 * k <= |body|
    ensures Flatten(FirstGroups(body, k)) == body[..8 * k]
    decreases k
  {
    if k > 0 {
      var last := body[8 * (k - 1)..8 * k];
      FlattenGroups(body, k - 1);
      FlattenConcat(FirstGroups(body, k - 1), [last]);
      OneChunk(last);
      assert body[..8 * k] == body[..8 * (k - 1)] + last;
    }
  }

  lemma {:induction false} FlattenAllGroups(bodies: seq<seq<Word>>)
    requires forall i :: 0 <= i < |bodies| ==> |bodies[i]| % 8 == 0
    ensures Flatten(AllGroups(bodies)) == Flatten(bodies)
    decreases |bodies|
  {
    if bodies != [] {
      var n := |bodies| - 1;
      var last := bodies[n];
      FlattenAllGroups(bodies[..n]);
      FlattenGroups(last, |last| / 8);
      FlattenConcat(AllGroups(bodies[..n]), FirstGroups(last, |last| / 8));
      FlattenConcat(bodies[..n], [last]);
      OneChunk(last);
      assert bodies == bodies[..n] + [last] && last[..|last|] == last;
    }
  }

  // ---------- what a run sends

  lemma {:induction false} RunArrivals(t: Runs.Trace, events: seq<Runs.Event>)
    requires UD.Consistent(t.radio) && forall e | e in events :: Runs.LegalEvent(e)
    ensures Runs.Run(t, events).arrived == t.arrived + Runs.Arrivals(events)
    decreases |events|
  {
    if events == [] {
      AddNothing(t.arrived);
    } else {
      var now := if events[0].Arrival? then [events[0].p] else [];
      RunArrivals(Runs.Next(t, events[0]), events[1..]);
      Assoc(t.arrived, now, Runs.Arrivals(events[1..]));
      AddNothing(t.arrived);
    }
  }

  /** A packet whose data is an expanded body has few enough chunks to count. */
  lemma {:induction false} BodiesCountable(events: seq<Runs.Event>, bodies: seq<seq<Word>>)
    requires Carry(Runs.Arrivals(events), bodies)
    requires forall i :: 0 <= i < |bodies| ==> |bodies[i]| < TWO_32
    ensures forall e | e in events :: e.Arrival? ==> Runs.Countable(e.p)
  {
    var ps := Runs.Arrivals(events);
    forall e | e in events && e.Arrival?
      ensures Runs.Countable(e.p)
    {
      ArrivalListed(events, e);
      var i :| 0 <= i < |ps| && ps[i] == e.p;
      ChunkCount(e.p, bodies[i]);
    }
  }

  /** The length word of a legal user-data frame keeps its body short enough to count. */
  lemma {:induction false} LegalBodiesShort(frames: seq<FF.Frame>)
    requires forall f | f in frames :: FF.Legal(f)
    ensures forall f | f in UserFrames(frames) :: |f.body| < TWO_32
  {
    if frames != [] {
      LegalBodiesShort(frames[1..]);
      var f := frames[0];
      assert f in frames;
      if FB.IsMapMov(f.header) {
        ExpandedIsLonger(|f.body|);
      }
    }
  }

  lemma ExpandedIsLonger(n: nat)
    requires PostMapMovCount(n) < TWO_32
    ensures n < TWO_32
  {
  }

  lemma {:induction false} ArrivalListed(events: seq<Runs.Event>, e: Runs.Event)
    requires e in events && e.Arrival?
    ensures e.p in Runs.Arrivals(events)
  {
    if events[0] != e {
      ArrivalListed(events[1..], e);
    }
  }

  /** The groups of eight words sent so far: whole bodies, then the current one as far as it has got. */
  function GroupsSoFar(end: Runs.Trace, bodies: seq<seq<Word>>): seq<seq<Word>>
    requires Runs.Inv(end) && Carry(end.arrived, bodies)
  {
    var n := |end.finished|;
    AllGroups(bodies[..n])
    + if end.radio.header.Some? then
        CurrentCarried(end, bodies);
        FirstGroups(bodies[n], Runs.SentSoFar(end.radio))
      else []
  }

  lemma CurrentCarried(end: Runs.Trace, bodies: seq<seq<Word>>)
    requires Runs.Inv(end) && Carry(end.arrived, bodies)
    ensures var n := |end.finished|;
            && n <= |bodies| && Carry(end.finished, bodies[..n])
            && (end.radio.header.Some? ==>
                  n < |bodies| && 8 * Runs.SentSoFar(end.radio) <= |bodies[n]| && |bodies[n]| % 8 == 0
                  && Runs.Current(end.radio)[0].data == Accepted(bodies[n]))
            && (end.radio.header.None? ==> bodies[..n] == bodies)
  {
    var n, current := |end.finished|, Runs.Current(end.radio);
    Assoc(end.finished, current, end.radio.queue);
    PartsOfConcat(end.finished, current + end.radio.queue);
    if end.radio.header.Some? {
      assert end.arrived[n] == current[0];
      ChunkCount(current[0], bodies[n]);
    } else {
      assert current + end.radio.queue == [];
    }
  }

  /** The whole chunks of a run convey these groups, which are a beginning of all the words; all of them when idle. */
  lemma {:induction false} GroupsConveyed(end: Runs.Trace, bodies: seq<seq<Word>>)
    requires Runs.Inv(end) && Carry(end.arrived, bodies)
    ensures Conveys(Runs.WholeChunks(end.log), GroupsSoFar(end, bodies))
    ensures Flatten(GroupsSoFar(end, bodies)) <= Flatten(bodies)
    ensures end.radio.udState == UD.NotActive ==> Flatten(GroupsSoFar(end, bodies)) == Flatten(bodies)
  {
    var n, k := |end.finished|, Runs.SentSoFar(end.radio);
    CurrentCarried(end, bodies);
    AllChunksConvey(end.finished, bodies[..n]);
    FlattenAllGroups(bodies[..n]);
    if end.radio.header.Some? {
      var p, more := Runs.Current(end.radio)[0], FirstGroups(bodies[n], k);
      FirstChunksConvey(p, bodies[n], k);
      ConveysMore(Runs.AllChunks(end.finished), AllGroups(bodies[..n]), Runs.FirstChunks(p, k), more);
      FlattenConcat(AllGroups(bodies[..n]), more);
      FlattenGroups(bodies[n], k);
      SplitBodies(bodies, n);
      PrefixGrows(Flatten(bodies[..n]), bodies[n][..8 * k], bodies[n], Flatten(bodies[n + 1..]));
    } else {
      AddNothing(Runs.AllChunks(end.finished));
      AddNothing(AllGroups(bodies[..n]));
    }
  }

  lemma {:induction false} SplitBodies(bodies: seq<seq<Word>>, n: nat)
    requires n < |bodies|
    ensures Flatten(bodies) == Flatten(bodies[..n]) + (bodies[n] + Flatten(bodies[n + 1..]))
  {
    FlattenConcat(bodies[..n], bodies[n..]);
    SplitAt(bodies, n);
    TailOfTail(bodies, n);
  }

  lemma PrefixGrows(words: seq<Word>, more: seq<Word>, body: seq<Word>, rest: seq<Word>)
    requires more <= body
    ensures words + more <= words + (body + rest)
  {
    assert body == more + body[|more|..];
  }

  /** Every run keeps the transmitter's promises about packets that carry bodies. */
  lemma {:induction false} RunCarries(t: Runs.Trace, events: seq<Runs.Event>, bodies: seq<seq<Word>>)
    requires Runs.Fresh(t) && forall e | e in events :: Runs.LegalEvent(e)
    requires Carry(Runs.Arrivals(events), bodies)
    requires forall i :: 0 <= i < |bodies| ==> |bodies[i]| < TWO_32
    ensures Runs.Inv(Runs.Run(t, events)) && Carry(Runs.Run(t, events).arrived, bodies)
  {
    BodiesCountable(events, bodies);
    RunArrivals(t, events);
    AddNothing(Runs.Arrivals(events));
    Runs.FreshIsInv(t);
    Runs.RunKeeps(t, events);
  }

  // ---------- what is on the air

  /**
    * The samples of every frame of a run: a frame with a chunk sends what slicing leaves of it, 1024 samples or none
    * if its body is empty; a frame with the counter pattern or silence may send any 1024 samples.
    */
  predicate OnAir(played: seq<Timing.Sent>, tx: seq<Word>) {
    if played == [] then tx == []
    else
      var f := played[0].frame;
      var n := if f.Chunk? then |SamplesOf(f)| else 1024;
      n <= |tx| && (f.Chunk? ==> tx[..n] == SamplesOf(f)) && OnAir(played[1..], tx[n..])
  }

  // Eight words, and the frame they were received in.
  datatype Heard = Heard(tick: int, words: seq<Word>)

  /** Of the words received, eight to a frame of samples, those from the frames that sent a whole chunk. */
  function HeardIn(played: seq<Timing.Sent>, received: seq<Word>): seq<Heard> {
    if played == [] then []
    else
      var f, n := played[0].frame, if |received| < 8 then |received| else 8;
      if Runs.Whole(f) then [Heard(played[0].tick, received[..n])] + HeardIn(played[1..], received[n..])
      else if f.Chunk? then HeardIn(played[1..], received)
      else HeardIn(played[1..], received[n..])
  }

  function HeardWords(heard: seq<Heard>): seq<Word> {
    if heard == [] then [] else heard[0].words + HeardWords(heard[1..])
  }

  function ChunksIn(slots: seq<Timing.Slot>): seq<UD.Frame> {
    if slots == [] then [] else [slots[0].chunk] + ChunksIn(slots[1..])
  }

  /** The ticks of the slots with the words of the groups. */
  function Timed(slots: seq<Timing.Slot>, groups: seq<seq<Word>>): seq<Heard>
    requires |slots| == |groups|
  {
    if slots == [] then [] else [Heard(slots[0].tick, groups[0])] + Timed(slots[1..], groups[1..])
  }

  /** A chunk is whole or puts nothing on the air. */
  predicate Clean(played: seq<Timing.Sent>) {
    forall s | s in played :: s.frame.Chunk? ==> Runs.Whole(s.frame) || SamplesOf(s.frame) == []
  }

  lemma {:induction false} FrameOnAir(tx: seq<Word>, rx: seq<Word>)
    requires CarriesSigns(tx, rx, true) && |tx| >= 1024
    ensures |rx| == |tx| && CarriesSigns(tx[..1024], rx[..1024], true) && CarriesSigns(tx[1024..], rx[1024..], true)
    ensures |Received(rx[..1024])| == 8 && Received(rx) == Received(rx[..1024]) + Received(rx[1024..])
    ensures |Received(rx)| >= 8
    ensures Received(rx)[..8] == Received(rx[..1024]) && Received(rx)[8..] == Received(rx[1024..])
  {
    FrameCarriesAlone(tx, rx, true);
    SplitAt(rx, 1024);
    ReceivedConcat(rx[..1024], rx[1024..]);
    PartsOfConcat(Received(rx[..1024]), Received(rx[1024..]));
  }

  /** The receiver treats every frame on its own, and hears the group that each whole chunk conveys. */
  lemma {:induction false} HearsGroups(played: seq<Timing.Sent>, tx: seq<Word>, rx: seq<Word>, groups: seq<seq<Word>>)
    requires OnAir(played, tx) && CarriesSigns(tx, rx, true) && Clean(played)
    requires Conveys(ChunksIn(Timing.ChunkSlots(played)), groups)
    ensures |Timing.ChunkSlots(played)| == |groups|
    ensures HeardIn(played, Received(rx)) == Timed(Timing.ChunkSlots(played), groups)
    decreases |played|
  {
    var slots := Timing.ChunkSlots(played);
    SlotsAndChunks(slots);
    if played != [] {
      var f, rest := played[0].frame, played[1..];
      assert played[0] in played && Clean(rest);
      if Runs.Whole(f) {
        SlotFirst(played);
        FrameOnAir(tx, rx);
        ConveysRest(slots, groups);
        FrameRoundTrip(groups[0], rx[..1024]);
        HearsGroups(rest, tx[1024..], rx[1024..], groups[1..]);
      } else if f.Chunk? {
        AddNothing(Timing.ChunkSlots(rest));
        assert tx[0..] == tx;
        HearsGroups(rest, tx, rx, groups);
      } else {
        AddNothing(Timing.ChunkSlots(rest));
        FrameOnAir(tx, rx);
        HearsGroups(rest, tx[1024..], rx[1024..], groups);
      }
    }
  }

  lemma {:induction false} SlotFirst(played: seq<Timing.Sent>)
    requires played != [] && Runs.Whole(played[0].frame)
    ensures var slots := Timing.ChunkSlots(played);
            slots != [] && slots[0] == Timing.Slot(played[0].tick, played[0].frame)
            && slots[1..] == Timing.ChunkSlots(played[1..])
  {
    PartsOfConcat([Timing.Slot(played[0].tick, played[0].frame)], Timing.ChunkSlots(played[1..]));
  }

  lemma {:induction false} SlotsAndChunks(slots: seq<Timing.Slot>)
    ensures |ChunksIn(slots)| == |slots|
  {
    if slots != [] {
      SlotsAndChunks(slots[1..]);
    }
  }

  lemma {:induction false} ConveysRest(slots: seq<Timing.Slot>, groups: seq<seq<Word>>)
    requires slots != [] && Conveys(ChunksIn(slots), groups)
    ensures groups != [] && ConveysOne(slots[0].chunk, groups[0]) && Conveys(ChunksIn(slots[1..]), groups[1..])
  {
    var chunks := ChunksIn(slots);
    PartsOfConcat([slots[0].chunk], ChunksIn(slots[1..]));
    assert ConveysOne(chunks[0], groups[0]);
    forall i | 0 <= i < |chunks| - 1
      ensures ConveysOne(chunks[1..][i], groups[1..][i])
    {
      assert ConveysOne(chunks[i + 1], groups[i + 1]);
    }
  }

  lemma {:induction false} TimedWords(slots: seq<Timing.Slot>, groups: seq<seq<Word>>)
    requires |slots| == |groups|
    ensures HeardWords(Timed(slots, groups)) == Flatten(groups)
  {
    if slots != [] {
      TimedWords(slots[1..], groups[1..]);
      PartsOfConcat([Heard(slots[0].tick, groups[0])], Timed(slots[1..], groups[1..]));
    }
  }

  // ---------- every run, from end to end

  lemma {:induction false} PlayedChunks(t: Runs.Trace, events: seq<Runs.Event>)
    requires UD.Consistent(t.radio) && forall e | e in events :: Runs.LegalEvent(e)
    ensures Runs.WholeChunks(Runs.Run(t, events).log)
            == Runs.WholeChunks(t.log) + ChunksIn(Timing.ChunkSlots(Timing.Played(t, events)))
    decreases |events|
  {
    if events == [] {
      AddNothing(Runs.WholeChunks(t.log));
    } else {
      var t1, rest := Runs.Next(t, events[0]), events[1..];
      var later := ChunksIn(Timing.ChunkSlots(Timing.Played(t1, rest)));
      PlayedChunks(t1, rest);
      if events[0].FrameTick? {
        var f := UD.FrameOut(t.radio);
        Timing.PlayedSlots(t, events);
        SlotNowChunk(t.radio, Timing.ChunkSlots(Timing.Played(t1, rest)));
        Runs.ChunksStep(t.log, t1.log[|t.log|]);
        Assoc(Runs.WholeChunks(t.log), if Runs.Whole(f) then [f] else [], later);
        AddNothing(Runs.WholeChunks(t.log));
      } else {
        AddNothing(Timing.Played(t1, rest));
      }
    }
  }

  lemma {:induction false} SlotNowChunk(r: UD.Radio, later: seq<Timing.Slot>)
    requires UD.Consistent(r)
    ensures var f := UD.FrameOut(r);
            ChunksIn(Timing.SlotNow(r) + later) == (if Runs.Whole(f) then [f] else []) + ChunksIn(later)
  {
    PartsOfConcat(Timing.SlotNow(r), later);
    AddNothing(later);
    AddNothing(ChunksIn(later));
  }

  lemma {:induction false} LogGrows(t: Runs.Trace, events: seq<Runs.Event>)
    requires UD.Consistent(t.radio) && forall e | e in events :: Runs.LegalEvent(e)
    ensures t.log <= Runs.Run(t, events).log
    decreases |events|
  {
    if events != [] {
      LogGrows(Runs.Next(t, events[0]), events[1..]);
    }
  }

  lemma {:induction false} PlayedSourced(t: Runs.Trace, events: seq<Runs.Event>, arrived: seq<UD.Packet>)
    requires UD.Consistent(t.radio) && forall e | e in events :: Runs.LegalEvent(e)
    requires forall e | e in Runs.Run(t, events).log :: Runs.Sourced(e.frame, arrived)
    ensures forall s | s in Timing.Played(t, events) :: Runs.Sourced(s.frame, arrived)
    decreases |events|
  {
    if events != [] {
      var t1, rest := Runs.Next(t, events[0]), events[1..];
      PlayedSourced(t1, rest, arrived);
      LogGrows(t1, rest);
      Timing.PlayedCons(t, events);
      if events[0].FrameTick? {
        assert t1.log[|t.log|] == Runs.Run(t, events).log[|t.log|];
      }
    }
  }

  /** A chunk of an expanded body lies inside its buffer, or past its end. */
  lemma SourcedIsClean(f: UD.Frame, arrived: seq<UD.Packet>, bodies: seq<seq<Word>>)
    requires Carry(arrived, bodies) && Runs.Sourced(f, arrived) && f.Chunk?
    ensures Runs.Whole(f) || SamplesOf(f) == []
  {
    SourceLength(f, arrived, bodies);
    InsideOrPast(f.offset, |f.buffer|);
  }

  lemma SourceLength(f: UD.Frame, arrived: seq<UD.Packet>, bodies: seq<seq<Word>>)
    requires Carry(arrived, bodies) && Runs.Sourced(f, arrived) && f.Chunk?
    ensures |f.buffer| % UD.CHUNK == 0
  {
    var p :| p in arrived && p.data == f.buffer;
    var i :| 0 <= i < |arrived| && arrived[i] == p;
    ChunkCount(p, bodies[i]);
  }

  lemma InsideOrPast(offset: nat, n: nat)
    requires offset % UD.CHUNK == 0 && n % UD.CHUNK == 0
    ensures offset + UD.CHUNK <= n || offset >= n
  {
  }

  lemma {:induction false} PlayedClean(t: Runs.Trace, events: seq<Runs.Event>, bodies: seq<seq<Word>>)
    requires UD.Consistent(t.radio) && forall e | e in events :: Runs.LegalEvent(e)
    requires Runs.Inv(Runs.Run(t, events)) && Carry(Runs.Run(t, events).arrived, bodies)
    ensures Clean(Timing.Played(t, events))
  {
    var arrived := Runs.Run(t, events).arrived;
    PlayedSourced(t, events, arrived);
    forall s | s in Timing.Played(t, events) && s.frame.Chunk?
      ensures Runs.Whole(s.frame) || SamplesOf(s.frame) == []
    {
      SourcedIsClean(s.frame, arrived, bodies);
    }
  }

  /** The transmitter's part and the receiver's: packets with expanded bodies arrive, and their words are heard. */
  lemma {:induction false} RunIsHeard(bodies: seq<seq<Word>>, t: Runs.Trace, events: seq<Runs.Event>,
                                      tx: seq<Word>, rx: seq<Word>)
    requires Runs.Fresh(t) && forall e | e in events :: Runs.LegalEvent(e)
    requires Carry(Runs.Arrivals(events), bodies)
    requires forall i :: 0 <= i < |bodies| ==> |bodies[i]| < TWO_32
    requires OnAir(Timing.Played(t, events), tx) && CarriesSigns(tx, rx, true)
    ensures var played, end := Timing.Played(t, events), Runs.Run(t, events);
            && Runs.Inv(end) && Carry(end.arrived, bodies)
            && |Timing.ChunkSlots(played)| == |GroupsSoFar(end, bodies)|
            && HeardIn(played, Received(rx)) == Timed(Timing.ChunkSlots(played), GroupsSoFar(end, bodies))
            && HeardWords(HeardIn(played, Received(rx))) == Flatten(GroupsSoFar(end, bodies))
  {
    var played, end := Timing.Played(t, events), Runs.Run(t, events);
    RunCarries(t, events, bodies);
    GroupsConveyed(end, bodies);
    PlayedChunks(t, events);
    AddNothing(ChunksIn(Timing.ChunkSlots(played)));
    PlayedClean(t, events, bodies);
    HearsGroups(played, tx, rx, GroupsSoFar(end, bodies));
    TimedWords(Timing.ChunkSlots(played), GroupsSoFar(end, bodies));
  }

  /** The host's part: each user-data frame becomes a packet with its timeslot, its epoc and its expanded body. */
  lemma {:induction false} ParserHandsOn(frames: seq<FF.Frame>, gaps: seq<nat>, chunks: seq<seq<Byte>>)
    requires Sent(frames, gaps, chunks)
    ensures BecomeAll(HandedOn(chunks), UserFrames(frames))
  {
    FF.BytesOfFrames(frames, gaps, chunks);
    FF.FramingRoundTrip(frames, gaps, FF.WordChunks(chunks));
    FF.UserDataOfPackets(FF.Feed([], FF.WordChunks(chunks)).0);
    FramesBecome(frames);
  }

  /** Legal frames as bytes, low byte first, joined by any runs of zero words and cut anywhere between words. */
  ghost predicate Sent(frames: seq<FF.Frame>, gaps: seq<nat>, chunks: seq<seq<Byte>>) {
    && |gaps| == |frames| + 1 && (forall f | f in frames :: FF.Legal(f))
    && Flatten(chunks) == BytesOf(FF.Wire(frames, gaps)) && forall c | c in chunks :: |c| % 4 == 0
  }

  /** The packets that the parser hands on to the transmitter. */
  function HandedOn(chunks: seq<seq<Byte>>): seq<UD.Packet> {
    RadioPackets(FB.UserData(FF.Feed([], FF.WordChunks(chunks)).0))
  }

  /** Of the packets that the parser hands on, the first ones arrive in a run. */
  ghost predicate HandedOver(frames: seq<FF.Frame>, gaps: seq<nat>, chunks: seq<seq<Byte>>, events: seq<Runs.Event>) {
    && Sent(frames, gaps, chunks)
    && (forall e | e in events :: Runs.LegalEvent(e)) && Runs.Arrivals(events) <= HandedOn(chunks)
  }

  /** The user-data frames whose packets have arrived. */
  function ArrivedFrames(frames: seq<FF.Frame>, events: seq<Runs.Event>): seq<FF.Frame> {
    var all, n := UserFrames(frames), |Runs.Arrivals(events)|;
    if n <= |all| then all[..n] else all
  }

  lemma {:induction false} HandedOverBecome(frames: seq<FF.Frame>, gaps: seq<nat>, chunks: seq<seq<Byte>>,
                                            events: seq<Runs.Event>)
    requires HandedOver(frames, gaps, chunks, events)
    ensures var arrived := ArrivedFrames(frames, events);
            && BecomeAll(Runs.Arrivals(events), arrived) && Carry(Runs.Arrivals(events), Bodies(arrived))
            && forall i :: 0 <= i < |Bodies(arrived)| ==> |Bodies(arrived)[i]| < TWO_32
  {
    var arrived := ArrivedFrames(frames, events);
    ParserHandsOn(frames, gaps, chunks);
    LegalBodiesShort(frames);
    BecomeCarry(Runs.Arrivals(events), arrived);
    forall i | 0 <= i < |Bodies(arrived)| ensures |Bodies(arrived)[i]| < TWO_32 {
      BodyAt(arrived, i);
      assert arrived[i] in UserFrames(frames);
    }
  }

  /**
    * The host's legal frames, user data among them, joined by any zeros and cut anywhere, reach the parser; the user
    * data it hands on arrives at the transmitter, at any times and under any slot masks; all the frames of the run go
    * over a mirroring channel. At any time the words received from the frames that sent a chunk are exactly the first
    * words of the user data that has arrived, eight to a chunk; and all of it once the transmitter is idle again.
    */
  lemma {:induction false} OverTheAir(frames: seq<FF.Frame>, gaps: seq<nat>, chunks: seq<seq<Byte>>,
                   t: Runs.Trace, events: seq<Runs.Event>, tx: seq<Word>, rx: seq<Word>)
    requires HandedOver(frames, gaps, chunks, events) && Runs.Fresh(t)
    requires OnAir(Timing.Played(t, events), tx) && CarriesSigns(tx, rx, true)
    ensures var end := Runs.Run(t, events);
            var words := HeardWords(HeardIn(Timing.Played(t, events), Received(rx)));
            var sent := Flatten(Bodies(ArrivedFrames(frames, events)));
            && words <= sent && |words| == 8 * |Runs.WholeChunks(end.log)|
            && (end.radio.udState == UD.NotActive ==> words == sent)
  {
    var end, bodies := Runs.Run(t, events), Bodies(ArrivedFrames(frames, events));
    HandedOverBecome(frames, gaps, chunks, events);
    RunIsHeard(bodies, t, events, tx, rx);
    GroupsConveyed(end, bodies);
    EightToAGroup(Runs.WholeChunks(end.log), GroupsSoFar(end, bodies));
  }

  lemma {:induction false} EightToAGroup(chunks: seq<UD.Frame>, groups: seq<seq<Word>>)
    requires Conveys(chunks, groups)
    ensures |Flatten(groups)| == 8 * |chunks|
  {
    if groups != [] {
      assert ConveysOne(chunks[0], groups[0]);
      forall i | 0 <= i < |chunks| - 1 ensures ConveysOne(chunks[1..][i], groups[1..][i]) {
        assert ConveysOne(chunks[i + 1], groups[i + 1]);
      }
      EightToAGroup(chunks[1..], groups[1..]);
    }
  }

  // ---------- and at the right time

  /** The frame that a user-data frame asks to be sent from: its epoc, counted from one, and its timeslot. */
  function AskedFor(f: FF.Frame): int
    requires |f.header| == 16
  {
    var timeslot: int, epoc: int := f.header[5], f.header[6];
    (epoc - 1) * 25600 + 512 * timeslot
  }

  /** Our j-th frame from then on. */
  function TickFor(c: Timing.Calendar, f: FF.Frame, j: nat): int
    requires |f.header| == 16
  {
    if AskedFor(f) < 0 then AskedFor(f) else Timing.OurTick(c, AskedFor(f), j)
  }

  /** The first k groups of eight words of a user-data frame, each in its own frame of the air. */
  function FirstHeard(c: Timing.Calendar, f: FF.Frame, k: nat): seq<Heard>
    requires |f.header| == 16 && 8 * k <= |f.body|
  {
    if k == 0 then [] else FirstHeard(c, f, k - 1) + [Heard(TickFor(c, f, k - 1), f.body[8 * (k - 1)..8 * k])]
  }

  predicate Headed(frames: seq<FF.Frame>) {
    forall f | f in frames :: |f.header| == 16
  }

  function AllHeard(c: Timing.Calendar, frames: seq<FF.Frame>): seq<Heard>
    requires Headed(frames)
    decreases |frames|
  {
    if frames == [] then []
    else
      var last := frames[|frames| - 1];
      AllHeard(c, frames[..|frames| - 1]) + FirstHeard(c, last, |last.body| / 8)
  }

  /** Frame n is the current packet's, if there is one, and has got no further than its body. */
  predicate HeardUpTo(end: Runs.Trace, frames: seq<FF.Frame>)
    requires UD.Consistent(end.radio)
  {
    var n := |end.finished|;
    && Headed(frames) && n <= |frames|
    && (end.radio.header.Some? ==> n < |frames| && 8 * Runs.SentSoFar(end.radio) <= |frames[n].body|)
  }

  /** What there is to be heard: the finished frames' words, then the current one's as far as it has got. */
  function HeardSoFar(c: Timing.Calendar, end: Runs.Trace, frames: seq<FF.Frame>): seq<Heard>
    requires UD.Consistent(end.radio) && HeardUpTo(end, frames)
  {
    var n := |end.finished|;
    AllHeard(c, frames[..n])
    + if end.radio.header.Some? then FirstHeard(c, frames[n], Runs.SentSoFar(end.radio)) else []
  }

  lemma {:induction false} TimedConcat(a: seq<Timing.Slot>, v: seq<seq<Word>>,
                                       b: seq<Timing.Slot>, w: seq<seq<Word>>)
    requires |a| == |v| && |b| == |w|
    ensures Timed(a + b, v + w) == Timed(a, v) + Timed(b, w)
    decreases |a|
  {
    if a == [] {
      AddNothing(b);
      AddNothing(w);
      AddNothing(Timed(b, w));
    } else {
      DropOfConcat(a, b, 1);
      DropOfConcat(v, w, 1);
      TimedConcat(a[1..], v[1..], b, w);
      Assoc([Heard(a[0].tick, v[0])], Timed(a[1..], v[1..]), Timed(b, w));
    }
  }

  lemma TimedOne(slot: Timing.Slot, group: seq<Word>)
    ensures Timed([slot], [group]) == [Heard(slot.tick, group)]
  {
    AddNothing([Heard(slot.tick, group)]);
  }

  lemma {:induction false} FirstAreTimed(c: Timing.Calendar, p: UD.Packet, f: FF.Frame, k: nat)
    requires Becomes(p, f) && 8 * k <= |f.body|
    ensures |Timing.FirstSlots(c, p, k)| == |FirstGroups(f.body, k)|
    ensures Timed(Timing.FirstSlots(c, p, k), FirstGroups(f.body, k)) == FirstHeard(c, f, k)
    decreases k
  {
    if k > 0 {
      var slot := Timing.Slot(Timing.TickOf(c, p, k - 1), UD.Chunk(p.data, (k - 1) * UD.CHUNK));
      var group := f.body[8 * (k - 1)..8 * k];
      FirstAreTimed(c, p, f, k - 1);
      SameTick(c, p, f, k - 1);
      TimedConcat(Timing.FirstSlots(c, p, k - 1), FirstGroups(f.body, k - 1), [slot], [group]);
      TimedOne(slot, group);
    }
  }

  lemma SameTick(c: Timing.Calendar, p: UD.Packet, f: FF.Frame, j: nat)
    requires Becomes(p, f)
    ensures Timing.TickOf(c, p, j) == TickFor(c, f, j)
  {
  }

  lemma {:induction false} AllAreTimed(c: Timing.Calendar, ps: seq<UD.Packet>, frames: seq<FF.Frame>)
    requires BecomeAll(ps, frames) && Headed(frames)
    ensures |Timing.AllSlots(c, ps)| == |AllGroups(Bodies(frames))|
    ensures Timed(Timing.AllSlots(c, ps), AllGroups(Bodies(frames))) == AllHeard(c, frames)
    decreases |ps|
  {
    if ps != [] {
      var n := |ps| - 1;
      BecomeInit(ps, frames);
      AllAreTimed(c, ps[..n], frames[..n]);
      LastIsTimed(c, ps[n], frames[n]);
      AppendLast(c, ps, frames);
      TimedConcat(Timing.AllSlots(c, ps[..n]), AllGroups(Bodies(frames[..n])),
                  Timing.FirstSlots(c, ps[n], |frames[n].body| / 8), FirstGroups(frames[n].body, |frames[n].body| / 8));
    }
  }

  lemma BecomeInit(ps: seq<UD.Packet>, frames: seq<FF.Frame>)
    requires BecomeAll(ps, frames) && Headed(frames) && ps != []
    ensures var n := |ps| - 1;
            Becomes(ps[n], frames[n]) && BecomeAll(ps[..n], frames[..n]) && Headed(frames[..n])
  {
  }

  lemma AppendLast(c: Timing.Calendar, ps: seq<UD.Packet>, frames: seq<FF.Frame>)
    requires ps != [] && |ps| == |frames| && Headed(frames) && Headed(frames[..|ps| - 1])
    requires |ps[|ps| - 1].data| / UD.CHUNK == |frames[|ps| - 1].body| / 8
    ensures var n := |ps| - 1;
            var k := |frames[n].body| / 8;
            && Timing.AllSlots(c, ps) == Timing.AllSlots(c, ps[..n]) + Timing.FirstSlots(c, ps[n], k)
            && AllGroups(Bodies(frames)) == AllGroups(Bodies(frames[..n])) + FirstGroups(frames[n].body, k)
            && AllHeard(c, frames) == AllHeard(c, frames[..n]) + FirstHeard(c, frames[n], k)
  {
    LastBody(frames);
  }

  lemma {:induction false} LastIsTimed(c: Timing.Calendar, p: UD.Packet, f: FF.Frame)
    requires Becomes(p, f)
    ensures var k := |f.body| / 8;
            && |p.data| / UD.CHUNK == k && |Timing.FirstSlots(c, p, k)| == |FirstGroups(f.body, k)|
            && Timed(Timing.FirstSlots(c, p, k), FirstGroups(f.body, k)) == FirstHeard(c, f, k)
  {
    ChunkCount(p, f.body);
    FirstAreTimed(c, p, f, |f.body| / 8);
  }

  lemma {:induction false} TakeBodies(frames: seq<FF.Frame>, n: nat)
    requires n <= |frames|
    ensures |Bodies(frames)| == |frames| && Bodies(frames)[..n] == Bodies(frames[..n])
    decreases |frames|
  {
    if frames != [] {
      TakeBodies(frames[1..], if n > 0 then n - 1 else 0);
      if n > 0 {
        assert frames[..n][1..] == frames[1..][..n - 1];
      }
    }
  }

  lemma {:induction false} LastBody(frames: seq<FF.Frame>)
    requires frames != []
    ensures var n := |frames| - 1;
            && |Bodies(frames)| == |frames| && Bodies(frames)[n] == frames[n].body
            && Bodies(frames)[..n] == Bodies(frames[..n])
  {
    TakeBodies(frames, |frames| - 1);
    BodyAt(frames, |frames| - 1);
  }

  lemma {:induction false} UsedAreTimed(end: Runs.Trace, frames: seq<FF.Frame>)
    requires Runs.Inv(end) && BecomeAll(end.arrived, frames) && Carry(end.arrived, Bodies(frames))
    ensures |Timing.UsedSlots(end)| == |GroupsSoFar(end, Bodies(frames))| && HeardUpTo(end, frames)
    ensures Timed(Timing.UsedSlots(end), GroupsSoFar(end, Bodies(frames)))
            == HeardSoFar(Timing.Mine(end.radio), end, frames)
  {
    var c, n := Timing.Mine(end.radio), |end.finished|;
    AreHeaded(end.arrived, frames);
    CurrentCarried(end, Bodies(frames));
    CurrentBecomes(end, frames);
    TakeBodies(frames, n);
    AllAreTimed(c, end.finished, frames[..n]);
    if end.radio.header.Some? {
      var p, k := Runs.Current(end.radio)[0], Runs.SentSoFar(end.radio);
      BodyAt(frames, n);
      FirstAreTimed(c, p, frames[n], k);
      TimedConcat(Timing.AllSlots(c, end.finished), AllGroups(Bodies(frames[..n])),
                  Timing.FirstSlots(c, p, k), FirstGroups(frames[n].body, k));
    } else {
      AddNothing(Timing.AllSlots(c, end.finished));
      AddNothing(AllGroups(Bodies(frames[..n])));
      AddNothing(AllHeard(c, frames[..n]));
    }
  }

  lemma AreHeaded(ps: seq<UD.Packet>, frames: seq<FF.Frame>)
    requires BecomeAll(ps, frames)
    ensures Headed(frames)
  {
    forall f | f in frames ensures |f.header| == 16 {
      var i :| 0 <= i < |frames| && frames[i] == f;
      assert Becomes(ps[i], f);
    }
  }

  lemma CurrentBecomes(end: Runs.Trace, frames: seq<FF.Frame>)
    requires Runs.Inv(end) && BecomeAll(end.arrived, frames)
    ensures var n := |end.finished|;
            && n <= |frames| && BecomeAll(end.finished, frames[..n])
            && (end.radio.header.Some? ==> n < |frames| && Becomes(Runs.Current(end.radio)[0], frames[n]))
  {
    var n, current := |end.finished|, Runs.Current(end.radio);
    Assoc(end.finished, current, end.radio.queue);
    PartsOfConcat(end.finished, current + end.radio.queue);
    if end.radio.header.Some? {
      assert end.arrived[n] == current[0];
    }
  }

  /**
    * Under a fixed slot mask, moreover, what is heard and when is exactly this: of each user-data frame in turn, words
    * 8j .. 8j + 8 of its body in our j-th frame from the one that its header's epoc and timeslot ask for. (With all
    * slots ours that frame is the j-th from then on.)
    */
  lemma {:induction false} OnTimeOverTheAir(frames: seq<FF.Frame>, gaps: seq<nat>, chunks: seq<seq<Byte>>,
                         t: Runs.Trace, events: seq<Runs.Event>, tx: seq<Word>, rx: seq<Word>)
    requires HandedOver(frames, gaps, chunks, events) && Runs.Fresh(t)
    requires OnAir(Timing.Played(t, events), tx) && CarriesSigns(tx, rx, true)
    requires Timing.InStep(t.radio) && Timing.Plain(events) && t.radio.lifetime + Runs.Ticks(events) < TWO_32
    ensures var end, arrived := Runs.Run(t, events), ArrivedFrames(frames, events);
            && HeardUpTo(end, arrived)
            && HeardIn(Timing.Played(t, events), Received(rx)) == HeardSoFar(Timing.Mine(t.radio), end, arrived)
  {
    var end, arrived := Runs.Run(t, events), ArrivedFrames(frames, events);
    HandedOverBecome(frames, gaps, chunks, events);
    RunIsHeard(Bodies(arrived), t, events, tx, rx);
    RunArrivals(t, events);
    AddNothing(Runs.Arrivals(events));
    BodiesCountable(events, Bodies(arrived));
    Timing.Timetable(t, events);
    Timing.RunKeepsCalendar(t, events);
    UsedAreTimed(end, arrived);
  }

  // ---------- the parser never hands the mapper what it cannot take

  /** Whatever the stream, every user-data body the parser emits is whole groups of eight words. */
  lemma {:induction false} MapperNeverThrows(b: seq<Word>)
    ensures forall e | e in FF.Parse(b).0 && e.Packet? && FB.IsMapMov(e.header) :: |e.body| % 8 == 0
    decreases |b|
  {
    var s := FF.Strip(b);
    if |s| >= HEADER_WORDS && FB.Ready(s) {
      FB.LengthFacts(s);
      var front := FB.FrontEvent(s);
      if front.Packet? && FB.IsMapMov(front.header) {
        assert FB.IsMapMov(s);
      }
      MapperNeverThrows(FB.AfterFront(s));
    }
  }
}
