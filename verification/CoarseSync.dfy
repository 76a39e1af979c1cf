/** Coarse synchronisation: 1280-sample chunks re-cut into 1024-sample blocks, each correlated with the one before. */
module CoarseSync {
  import opened Seqs
  import opened Wrappers

  const BLOCK: int := 1024
  const CHUNK: int := 1280
  const TABLE: int := 2560

  // Samples are opaque here; only which of them meet matters.
  type Samples = seq<int>

  /** One correlation: two blocks and the slice of the exponential they are multiplied with. */
  datatype Correlation = Correlation(previous: Samples, current: Samples, offset: nat)

  /** What the stream pushes: a block of zeros, or the first 1024 samples of a chunk passed through. */
  datatype Push = ZeroBlock | Through(block: Samples)

  // ---------- the exponential

  function Max(a: int, b: int): int {
    if a > b then a else b
  }

  /** Which 256-sample step of the exponential correlation arg starts at. */
  function ExpIndexArg(arg: nat): nat {
    5 - Max(arg - 1, 0) % 5
  }

  function ExpOffsetArg(arg: nat): nat {
    ExpIndexArg(arg) * 0x100
  }

  /** The pre-sliced exponentials, in the order they are used. */
  function ExpCache(i: nat): nat
    requires i < 5
  {
    ExpOffsetArg(i + 1)
  }

  /**
   * The cached slice for correlation t starts where the direct one would, which continues the period of 1280
   * samples, and stays inside the table.
   */
  lemma CachedExponential(t: nat)
    requires t >= 1
    ensures ExpCache((t - 1) % 5) == ExpOffsetArg(t)
    ensures (ExpOffsetArg(t) - BLOCK * (t - 1)) % CHUNK == 0
    ensures 0 < ExpOffsetArg(t) <= CHUNK && ExpOffsetArg(t) + BLOCK <= TABLE
  {
    var m, q := (t - 1) % 5, (t - 1) / 5;
    assert t - 1 == 5 * q + m;
    assert ExpOffsetArg(t) - BLOCK * (t - 1) == CHUNK * (1 - m - 4 * q);
    MultipleOfChunk(1 - m - 4 * q);
  }

  lemma MultipleOfChunk(n: int)
    ensures CHUNK * n % CHUNK == 0
  {
  }

  // ---------- the stream as a function

  datatype Sync = Sync(
    ofdmNum: int, pending: bool, pendingAt: Option<nat>, doing: bool, lifetime: nat,
    chunk0: Samples, capture: Samples, frame: nat, sum: seq<Correlation>,
    pushed: seq<Push>, callbacks: seq<seq<Correlation>>)

  /** One turn of the loop: the next block of the capture is correlated with the one before. */
  function Correlate(s: Sync): (s': Sync)
    requires |s.capture| >= BLOCK && s.frame > 0
    ensures |s'.capture| == |s.capture| - BLOCK
  {
    var use := s.capture[..BLOCK];
    var sum := s.sum + [Correlation(s.chunk0, use, ExpCache((s.frame - 1) % 5))];
    var last := s.frame == s.ofdmNum - 1;
    s.(chunk0 := use, capture := s.capture[BLOCK..], frame := s.frame + 1, lifetime := s.lifetime + 1,
       sum := sum, pushed := s.pushed + [ZeroBlock],
       doing := s.doing && !last, callbacks := if last then s.callbacks + [sum] else s.callbacks)
  }

  function Drain(s: Sync): Sync
    requires s.frame > 0
    decreases |s.capture|
  {
    if |s.capture| >= BLOCK then Drain(Correlate(s)) else s
  }

  /** A chunk starts a run if one is asked for, now or at this lifetime frame. */
  function Begin(s: Sync): Sync {
    var s1 := if !s.doing && s.pendingAt == Some(s.lifetime) then s.(pending := true, pendingAt := None) else s;
    if !s1.doing && s1.pending
    then s1.(doing := true, pending := false, chunk0 := [], capture := [], frame := 0, sum := [])
    else s1
  }

  function Transform(s: Sync, chunk: Samples): Sync
    requires |chunk| == CHUNK
  {
    var b := Begin(s);
    if !b.doing then b.(lifetime := b.lifetime + 1, pushed := b.pushed + [Through(chunk[..BLOCK])])
    else if b.frame == 0 then
      b.(chunk0 := chunk[..BLOCK], capture := chunk[BLOCK..], frame := 1, lifetime := b.lifetime + 1,
         pushed := b.pushed + [ZeroBlock])
    else Drain(b.(capture := b.capture + chunk))
  }

  // ---------- the stream object

  class CoarseSyncStream {
    const ofdmNum: int
    var pendingTrigger: bool
    var pendingTriggerAt: Option<nat>
    var doingCoarse: bool
    var lifetimeFrame: nat
    var chunk0: Samples
    var capture: Samples
    var triggeredFrame: nat
    var cumulativeSum: seq<Correlation>
    var exp: seq<nat>
    var pushed: seq<Push>
    var callbacks: seq<seq<Correlation>>

    function View(): Sync
      reads this
    {
      Sync(ofdmNum, pendingTrigger, pendingTriggerAt, doingCoarse, lifetimeFrame,
           chunk0, capture, triggeredFrame, cumulativeSum, pushed, callbacks)
    }

    ghost predicate Valid()
      reads this
    {
      |exp| == 5 && forall i | 0 <= i < 5 :: exp[i] == ExpCache(i)
    }

    /** Returns null where the source's constructor throws; the third argument must be a function. */
    static method Create(ofdmNum: int, triggerAtStart: bool, hasCallback: bool) returns (s: CoarseSyncStream?)
      ensures s != null <==> ofdmNum % 4 == 0 && ofdmNum % 5 == 0 && hasCallback
      ensures s != null ==> fresh(s) && s.Valid()
      ensures s != null ==> s.View() == Sync(ofdmNum, triggerAtStart, None, false, 0, [], [], 0, [], [], [])
    {
      if ofdmNum % 4 != 0 || ofdmNum % 5 != 0 {
        return null;
      }
      if !hasCallback {
        return null;
      }
      s := new CoarseSyncStream(ofdmNum, triggerAtStart);
    }

    constructor (ofdmNum: int, triggerAtStart: bool)
      ensures Valid()
      ensures View() == Sync(ofdmNum, triggerAtStart, None, false, 0, [], [], 0, [], [], [])
    {
      this.ofdmNum := ofdmNum;
      pendingTrigger, pendingTriggerAt, doingCoarse, lifetimeFrame := triggerAtStart, None, false, 0;
      chunk0, capture, triggeredFrame, cumulativeSum := [], [], 0, [];
      exp, pushed, callbacks := [], [], [];
      new;
      for i := 0 to 5
        invariant |exp| == i && forall k | 0 <= k < i :: exp[k] == ExpCache(k)
        invariant View() == Sync(ofdmNum, triggerAtStart, None, false, 0, [], [], 0, [], [], [])
      {
        exp := exp + [ExpOffsetArg(i + 1)];
      }
    }

    method TriggerCoarse()
      modifies this`pendingTrigger
      ensures View() == old(View()).(pending := true)
    {
      pendingTrigger := true;
    }

    method TriggerCoarseAt(x: nat)
      modifies this`pendingTriggerAt
      ensures View() == old(View()).(pendingAt := Some(x))
    {
      pendingTriggerAt := Some(x);
    }

    method BeginIfTriggered()
      modifies this`pendingTrigger, this`pendingTriggerAt, this`doingCoarse,
               this`chunk0, this`capture, this`triggeredFrame, this`cumulativeSum
      ensures View() == Begin(old(View()))
    {
      if !doingCoarse && pendingTriggerAt.Some? {
        if pendingTriggerAt.value == lifetimeFrame {
          pendingTrigger := true;
          pendingTriggerAt := None;
        }
      }
      if !doingCoarse && pendingTrigger {
        doingCoarse := true;
        pendingTrigger := false;
        chunk0, capture, triggeredFrame, cumulativeSum := [], [], 0, [];
      }
    }

    method CorrelateNext()
      requires Valid() && |capture| >= BLOCK && triggeredFrame > 0
      modifies this
      ensures Valid() && exp == old(exp) && View() == Correlate(old(View()))
    {
      var use := capture[..BLOCK];
      capture := capture[BLOCK..];
      cumulativeSum := cumulativeSum + [Correlation(chunk0, use, exp[(triggeredFrame - 1) % 5])];
      if triggeredFrame == ofdmNum - 1 {
        callbacks := callbacks + [cumulativeSum];
        doingCoarse := false;
      }
      chunk0 := use;
      triggeredFrame := triggeredFrame + 1;
      lifetimeFrame := lifetimeFrame + 1;
      pushed := pushed + [ZeroBlock];
    }

    /** Returns false, changing nothing, where the source throws. */
    method TransformChunk(chunk: Samples) returns (ok: bool)
      requires Valid()
      modifies this
      ensures Valid() && ok == (|chunk| == CHUNK)
      ensures View() == if ok then Transform(old(View()), chunk) else old(View())
    {
      if |chunk| != CHUNK {
        return false;
      }
      BeginIfTriggered();
      if doingCoarse {
        if triggeredFrame == 0 {
          chunk0 := chunk[..BLOCK];
          capture := chunk[BLOCK..];
          triggeredFrame := 1;
          lifetimeFrame := lifetimeFrame + 1;
          pushed := pushed + [ZeroBlock];
          return true;
        }
        capture := capture + chunk;
        ghost var s := View();
        while |capture| >= BLOCK
          invariant Valid() && triggeredFrame > 0 && Drain(View()) == Drain(s)
          decreases |capture|
        {
          CorrelateNext();
        }
      } else {
        lifetimeFrame := lifetimeFrame + 1;
        pushed := pushed + [Through(chunk[..BLOCK])];
      }
      return true;
    }
  }

  // ---------- a triggered run

  datatype Event = Data(chunk: Samples) | Trigger | TriggerAt(frame: nat)

  predicate WellSized(events: seq<Event>) {
    forall e | e in events :: e.Data? ==> |e.chunk| == CHUNK
  }

  function Next(s: Sync, e: Event): Sync
    requires e.Data? ==> |e.chunk| == CHUNK
  {
    match e
    case Data(chunk) => Transform(s, chunk)
    case Trigger => s.(pending := true)
    case TriggerAt(frame) => s.(pendingAt := Some(frame))
  }

  function Run(s: Sync, events: seq<Event>): Sync
    requires WellSized(events)
    decreases |events|
  {
    if events == [] then s else Run(Next(s, events[0]), events[1..])
  }

  /** The samples that came in, joined. */
  function Input(events: seq<Event>): Samples {
    if events == [] then [] else (if events[0].Data? then events[0].chunk else []) + Input(events[1..])
  }

  function Block(x: Samples, i: nat): Samples
    requires BLOCK * (i + 1) <= |x|
  {
    x[BLOCK * i..BLOCK * (i + 1)]
  }

  /** Correlations 1 to n - 1 of an input: number t pairs sample blocks t - 1 and t. */
  function Correlations(x: Samples, n: nat): seq<Correlation>
    requires BLOCK * n <= |x|
  {
    if n <= 1 then []
    else Correlations(x, n - 1) + [Correlation(Block(x, n - 2), Block(x, n - 1), ExpOffsetArg(n - 1))]
  }

  /** s is a run in progress: x came in since the chunk before which the stream was s0. */
  predicate Busy(s0: Sync, s: Sync, x: Samples) {
    && s.doing && s.frame >= 1 && BLOCK * s.frame <= |x| && (s.ofdmNum > 0 ==> s.frame < s.ofdmNum)
    && s.ofdmNum == s0.ofdmNum && s.callbacks == s0.callbacks && s.lifetime == s0.lifetime + s.frame
    && s.chunk0 == Block(x, s.frame - 1) && s.capture == x[BLOCK * s.frame..]
    && s.sum == Correlations(x, s.frame) && s.pushed == s0.pushed + Repeat(ZeroBlock, s.frame)
  }

  /** s has just finished the run that took in x. */
  predicate Finished(s0: Sync, s: Sync, x: Samples) {
    && !s.doing && s.frame == s.ofdmNum == s0.ofdmNum && s.ofdmNum >= 1 && BLOCK * s.ofdmNum <= |x|
    && s.capture == x[BLOCK * s.ofdmNum..] && s.pushed == s0.pushed + Repeat(ZeroBlock, s.ofdmNum)
    && s.callbacks == s0.callbacks + [Correlations(x, s.ofdmNum)] && s.lifetime == s0.lifetime + s.ofdmNum
  }

  lemma {:induction false} CorrelationsExtend(x: Samples, c: Samples, n: nat)
    requires BLOCK * n <= |x|
    ensures Correlations(x + c, n) == Correlations(x, n)
  {
    if n > 1 {
      CorrelationsExtend(x, c, n - 1);
      assert Block(x + c, n - 1) == Block(x, n - 1) && Block(x + c, n - 2) == Block(x, n - 2);
    }
  }

  lemma CorrelateKeeps(s0: Sync, s: Sync, x: Samples)
    requires Busy(s0, s, x) && |s.capture| >= BLOCK
    ensures var s' := Correlate(s);
            if s.frame == s.ofdmNum - 1 then Finished(s0, s', x) else Busy(s0, s', x)
  {
    CachedExponential(s.frame);
    var f, s' := s.frame, Correlate(s);
    assert s.capture[..BLOCK] == Block(x, f) && s.capture[BLOCK..] == x[BLOCK * (f + 1)..];
    RepeatLast(ZeroBlock, f);
    Assoc(s0.pushed, Repeat(ZeroBlock, f), [ZeroBlock]);
  }

  /** Draining consumes every whole block of the input, or ends with the last one wanted. */
  lemma {:induction false} DrainKeeps(s0: Sync, s: Sync, x: Samples)
    requires Busy(s0, s, x) && (s.ofdmNum > 0 ==> |x| < BLOCK * (s.ofdmNum + 1))
    ensures var s' := Drain(s);
            if s.ofdmNum > 0 && |x| >= BLOCK * s.ofdmNum then Finished(s0, s', x)
            else Busy(s0, s', x) && |s'.capture| < BLOCK
    decreases |s.capture|
  {
    if |s.capture| >= BLOCK {
      CorrelateKeeps(s0, s, x);
      if s.frame == s.ofdmNum - 1 {
        assert |Correlate(s).capture| < BLOCK;
      } else {
        DrainKeeps(s0, Correlate(s), x);
      }
    }
  }

  /** k whole chunks so far, and no whole block left in the capture. */
  predicate Underway(s0: Sync, s: Sync, x: Samples, k: nat) {
    Busy(s0, s, x) && |x| == CHUNK * k && |s.capture| < BLOCK
  }

  lemma CaptureChunk(s0: Sync, s: Sync, x: Samples, chunk: Samples)
    requires Busy(s0, s, x)
    ensures Busy(s0, s.(capture := s.capture + chunk), x + chunk)
  {
    CorrelationsExtend(x, chunk, s.frame);
    SliceOfConcat(x, chunk, BLOCK * (s.frame - 1), BLOCK * s.frame);
    DropOfConcat(x, chunk, BLOCK * s.frame);
  }

  /** Where k chunks of a run of 20 m frames, which is 16 m chunks, have led. */
  predicate Reached(s0: Sync, s: Sync, x: Samples, k: nat, m: int) {
    if m > 0 && k == 16 * m then Finished(s0, s, x) else Underway(s0, s, x, k)
  }

  /** A chunk in the middle of a run. */
  lemma ChunkKeeps(s0: Sync, s: Sync, x: Samples, k: nat, m: int, chunk: Samples)
    requires Underway(s0, s, x, k) && s0.ofdmNum == 20 * m && |chunk| == CHUNK
    requires m > 0 ==> k < 16 * m
    ensures Reached(s0, Transform(s, chunk), x + chunk, k + 1, m)
  {
    CaptureChunk(s0, s, x, chunk);
    assert Begin(s) == s;
    DrainKeeps(s0, s.(capture := s.capture + chunk), x + chunk);
  }

  lemma TriggerKeeps(s0: Sync, s: Sync, x: Samples, k: nat, event: Event)
    requires Underway(s0, s, x, k) && !event.Data?
    ensures Underway(s0, Next(s, event), x, k)
  {
  }

  /** A run is asked for: now, or for this very lifetime frame. */
  predicate Asked(s: Sync) {
    s.pending || s.pendingAt == Some(s.lifetime)
  }

  /** An idle stream starts a run exactly if one is asked for. */
  lemma BeginsIfAsked(s: Sync)
    requires !s.doing
    ensures Begin(s).doing <==> Asked(s)
  {
  }

  /** What is still asked for once a run has begun. */
  function LeftAsked(s: Sync): Option<nat> {
    if s.pendingAt == Some(s.lifetime) then None else s.pendingAt
  }

  /** The chunk that starts a run uses up what asked for it. */
  lemma FirstChunk(s: Sync, chunk: Samples, m: int)
    requires !s.doing && Asked(s) && s.ofdmNum == 20 * m && |chunk| == CHUNK
    ensures var s' := Transform(s, chunk);
            Underway(s, s', chunk, 1) && !s'.pending && s'.pendingAt == LeftAsked(s)
  {
    RepeatLast(ZeroBlock, 0);
  }

  /** The frame to trigger at after some events, if it was at before. */
  function LastAt(at: Option<nat>, events: seq<Event>): Option<nat>
    decreases |events|
  {
    if events == [] then at
    else LastAt(if events[0].TriggerAt? then Some(events[0].frame) else at, events[1..])
  }

  /** Draining leaves alone what is asked for. */
  lemma {:induction false} DrainKeepsAsked(s: Sync)
    requires s.frame > 0
    ensures Drain(s).pending == s.pending && Drain(s).pendingAt == s.pendingAt
    decreases |s.capture|
  {
    if |s.capture| >= BLOCK {
      DrainKeepsAsked(Correlate(s));
    }
  }

  lemma StepKeepsAsked(s: Sync, event: Event)
    requires s.doing && s.frame > 0 && (event.Data? ==> |event.chunk| == CHUNK)
    ensures var s' := Next(s, event);
            && s'.pending == (s.pending || event.Trigger?)
            && s'.pendingAt == if event.TriggerAt? then Some(event.frame) else s.pendingAt
  {
    if event.Data? {
      assert Begin(s) == s;
      DrainKeepsAsked(s.(capture := s.capture + event.chunk));
    }
  }

  lemma {:induction false} NoDataKeepsAsked(s: Sync, events: seq<Event>)
    requires WellSized(events) && Chunks(events) == 0
    ensures Run(s, events).pending == (s.pending || Trigger in events)
    ensures Run(s, events).pendingAt == LastAt(s.pendingAt, events)
    decreases |events|
  {
    if events != [] {
      NoDataKeepsAsked(Next(s, events[0]), events[1..]);
    }
  }

  /** In a run, triggers are noted and nothing else. */
  lemma {:induction false} RunKeepsAsked(s0: Sync, s: Sync, x: Samples, k: nat, m: int, events: seq<Event>)
    requires Underway(s0, s, x, k) && s0.ofdmNum == 20 * m && WellSized(events)
    requires m > 0 ==> k < 16 * m && k + Chunks(events) <= 16 * m
    ensures Run(s, events).pending == (s.pending || Trigger in events)
    ensures Run(s, events).pendingAt == LastAt(s.pendingAt, events)
    decreases |events|
  {
    if events != [] {
      var e, s1, rest := events[0], Next(s, events[0]), events[1..];
      StepKeepsAsked(s, e);
      if e.Data? {
        ChunkKeeps(s0, s, x, k, m, e.chunk);
        if m > 0 && k + 1 == 16 * m {
          NoDataKeepsAsked(s1, rest);
        } else {
          RunKeepsAsked(s0, s1, x + e.chunk, k + 1, m, rest);
        }
      } else {
        TriggerKeeps(s0, s, x, k, e);
        RunKeepsAsked(s0, s1, x, k, m, rest);
      }
    }
  }

  function Chunks(events: seq<Event>): nat {
    if events == [] then 0 else (if events[0].Data? then 1 else 0) + Chunks(events[1..])
  }

  lemma {:induction false} NoDataKeepsFinished(s0: Sync, s: Sync, x: Samples, events: seq<Event>)
    requires Finished(s0, s, x) && WellSized(events) && Chunks(events) == 0
    ensures Finished(s0, Run(s, events), x) && Input(events) == []
    decreases |events|
  {
    if events != [] {
      NoDataKeepsFinished(s0, Next(s, events[0]), x, events[1..]);
    }
  }

  /** From the middle of a run, any further chunks and triggers up to its end. */
  lemma {:induction false} RunKeeps(s0: Sync, s: Sync, x: Samples, k: nat, m: int, events: seq<Event>)
    requires Underway(s0, s, x, k) && s0.ofdmNum == 20 * m && WellSized(events)
    requires m > 0 ==> k < 16 * m && k + Chunks(events) <= 16 * m
    ensures Reached(s0, Run(s, events), x + Input(events), k + Chunks(events), m)
    decreases |events|, 1
  {
    if events == [] {
      AddNothing(x);
    } else if events[0].Data? {
      RunKeepsData(s0, s, x, k, m, events[0].chunk, events);
    } else {
      TriggerKeeps(s0, s, x, k, events[0]);
      RunKeeps(s0, Next(s, events[0]), x, k, m, events[1..]);
      AddNothing(Input(events[1..]));
    }
  }

  lemma {:induction false} RunKeepsData(s0: Sync, s: Sync, x: Samples, k: nat, m: int,
                                        chunk: Samples, events: seq<Event>)
    requires Underway(s0, s, x, k) && s0.ofdmNum == 20 * m && WellSized(events)
    requires m > 0 ==> k < 16 * m && k + Chunks(events) <= 16 * m
    requires events != [] && events[0] == Data(chunk)
    ensures Reached(s0, Run(s, events), x + Input(events), k + Chunks(events), m)
    decreases |events|, 0
  {
    var s1, rest := Next(s, events[0]), events[1..];
    ChunkKeeps(s0, s, x, k, m, chunk);
    Assoc(x, chunk, Input(rest));
    if m > 0 && k + 1 == 16 * m {
      NoDataKeepsFinished(s0, s1, x + chunk, rest);
      AddNothing(x + chunk);
    } else {
      RunKeeps(s0, s1, x + chunk, k + 1, m, rest);
    }
  }

  lemma Twenty(n: int)
    requires n % 4 == 0 && n % 5 == 0
    ensures n == 20 * (n / 20) && 4 * n / 5 == 16 * (n / 20)
  {
  }

  /**
   * After a trigger: the run ends with the 4 N / 5-th chunk and no sooner, having pushed N zero blocks and called
   * back once with the correlations 1 .. N - 1 of neighbouring blocks of the joined input, and nothing is left over.
   * Triggers that come meanwhile do not disturb it.
   */
  lemma {:induction false} TriggeredRun(s: Sync, chunk: Samples, events: seq<Event>)
    requires !s.doing && Asked(s) && s.ofdmNum % 4 == 0 && s.ofdmNum % 5 == 0 && s.ofdmNum > 0
    requires |chunk| == CHUNK && WellSized(events) && 1 + Chunks(events) <= 4 * s.ofdmNum / 5
    ensures var end, x := Run(Next(s, Data(chunk)), events), chunk + Input(events);
            if 1 + Chunks(events) == 4 * s.ofdmNum / 5 then Finished(s, end, x) && end.capture == []
            else Busy(s, end, x)
  {
    var m := s.ofdmNum / 20;
    Twenty(s.ofdmNum);
    FirstChunk(s, chunk, m);
    RunKeeps(s, Next(s, Data(chunk)), chunk, 1, m, events);
    InputSize(events);
  }

  /** The triggers that come meanwhile, and no others, are still to be answered at its end. */
  lemma {:induction false} AskedAfterRun(s: Sync, chunk: Samples, events: seq<Event>)
    requires !s.doing && Asked(s) && s.ofdmNum % 4 == 0 && s.ofdmNum % 5 == 0 && s.ofdmNum > 0
    requires |chunk| == CHUNK && WellSized(events) && 1 + Chunks(events) <= 4 * s.ofdmNum / 5
    ensures var end := Run(Next(s, Data(chunk)), events);
            (end.pending <==> Trigger in events) && end.pendingAt == LastAt(LeftAsked(s), events)
  {
    var m := s.ofdmNum / 20;
    Twenty(s.ofdmNum);
    FirstChunk(s, chunk, m);
    RunKeepsAsked(s, Next(s, Data(chunk)), chunk, 1, m, events);
  }

  lemma {:induction false} InputSize(events: seq<Event>)
    requires WellSized(events)
    ensures |Input(events)| == CHUNK * Chunks(events)
  {
    if events != [] {
      InputSize(events[1..]);
    }
  }

  /** The constructor lets N = 0 and negative N through; such a run never ends. */
  lemma {:induction false} NoEndWithoutFrames(s: Sync, chunk: Samples, events: seq<Event>)
    requires !s.doing && Asked(s) && s.ofdmNum % 4 == 0 && s.ofdmNum % 5 == 0 && s.ofdmNum <= 0
    requires |chunk| == CHUNK && WellSized(events)
    ensures var end := Run(Next(s, Data(chunk)), events); end.doing && end.callbacks == s.callbacks
  {
    var m := s.ofdmNum / 20;
    Twenty(s.ofdmNum);
    FirstChunk(s, chunk, m);
    RunKeeps(s, Next(s, Data(chunk)), chunk, 1, m, events);
  }

  /** When no run is asked for, the first 1024 samples of a chunk pass through, and nothing else changes. */
  lemma PassesThrough(s: Sync, chunk: Samples)
    requires !s.doing && !Asked(s) && |chunk| == CHUNK
    ensures Transform(s, chunk)
            == s.(pushed := s.pushed + [Through(chunk[..BLOCK])], lifetime := s.lifetime + 1)
  {
  }

  predicate OnlyData(events: seq<Event>) {
    forall e | e in events :: e.Data? && |e.chunk| == CHUNK
  }

  function Throughs(events: seq<Event>): seq<Push>
    requires OnlyData(events)
  {
    if events == [] then [] else [Through(events[0].chunk[..BLOCK])] + Throughs(events[1..])
  }

  lemma {:induction false} Quiet(s: Sync, events: seq<Event>)
    requires !s.doing && !s.pending && s.pendingAt.None? && OnlyData(events)
    ensures Run(s, events) == s.(pushed := s.pushed + Throughs(events), lifetime := s.lifetime + |events|)
    decreases |events|
  {
    if events == [] {
      AddNothing(s.pushed);
    } else {
      PassesThrough(s, events[0].chunk);
      Quiet(Next(s, events[0]), events[1..]);
      Assoc(s.pushed, [Through(events[0].chunk[..BLOCK])], Throughs(events[1..]));
    }
  }

  /** Asked once, a stream runs once: N zero blocks and one callback, and from then on everything passes through. */
  lemma {:induction false} OneTriggerOneRun(s: Sync, chunk: Samples, during: seq<Event>, after: seq<Event>)
    requires !s.doing && Asked(s) && LeftAsked(s).None?
    requires s.ofdmNum % 4 == 0 && s.ofdmNum % 5 == 0 && s.ofdmNum > 0
    requires |chunk| == CHUNK && OnlyData(during) && OnlyData(after) && 1 + |during| == 4 * s.ofdmNum / 5
    ensures var end := Run(Run(Next(s, Data(chunk)), during), after);
            && !end.doing && !end.pending && |end.callbacks| == |s.callbacks| + 1
            && end.pushed == (s.pushed + Repeat(ZeroBlock, s.ofdmNum)) + Throughs(after)
  {
    ChunksOfData(during);
    NothingAsked(during);
    TriggeredRun(s, chunk, during);
    AskedAfterRun(s, chunk, during);
    Quiet(Run(Next(s, Data(chunk)), during), after);
  }

  lemma {:induction false} ChunksOfData(events: seq<Event>)
    requires OnlyData(events)
    ensures Chunks(events) == |events|
  {
    if events != [] {
      ChunksOfData(events[1..]);
    }
  }

  lemma {:induction false} NothingAsked(events: seq<Event>)
    requires OnlyData(events)
    ensures Trigger !in events && LastAt(None, events) == None
    decreases |events|
  {
    if events != [] {
      assert events[0] in events;
      NothingAsked(events[1..]);
    }
  }

  /** The lifetime frame, by which runs are asked for in advance, counts what has been pushed. */
  lemma {:induction false} LifetimeCounts(s: Sync, events: seq<Event>)
    requires WellSized(events)
    ensures Run(s, events).lifetime - s.lifetime == |Run(s, events).pushed| - |s.pushed|
    decreases |events|
  {
    if events != [] {
      StepCounts(s, events[0]);
      LifetimeCounts(Next(s, events[0]), events[1..]);
    }
  }

  lemma StepCounts(s: Sync, event: Event)
    requires event.Data? ==> |event.chunk| == CHUNK
    ensures Next(s, event).lifetime - s.lifetime == |Next(s, event).pushed| - |s.pushed|
  {
    if event.Data? && Begin(s).doing && Begin(s).frame > 0 {
      DrainCounts(Begin(s).(capture := Begin(s).capture + event.chunk));
    }
  }

  lemma {:induction false} DrainCounts(s: Sync)
    requires s.frame > 0
    ensures Drain(s).lifetime - s.lifetime == |Drain(s).pushed| - |s.pushed|
    decreases |s.capture|
  {
    if |s.capture| >= BLOCK {
      DrainCounts(Correlate(s));
    }
  }
}
