/** Rate keeping in queue mode: calls that come too fast wait in line for a timer. */
module RateKeep {
  import opened Seqs

  // A callback is a token; running it is an entry in the log.
  type Callback = int

  // The readings of the system clock, in ms, in the order they are taken. Nothing is assumed of them unless said.
  type Clock = nat -> int

  datatype State = State(
    start: int, rate: real, sent: nat, blocked: seq<Callback>, timers: nat, ran: seq<Callback>, readings: nat)

  // ---------- the keeper as a function

  /** At clock reading now, one more call keeps to the rate. */
  predicate Allowed(s: State, now: int) {
    (now - s.start) as real * s.rate - s.sent as real >= 1.0
  }

  function Read(s: State): State {
    s.(readings := s.readings + 1)
  }

  function RunOne(s: State, cb: Callback): State {
    s.(sent := s.sent + 1, ran := s.ran + [cb])
  }

  /** Runs blocked calls, oldest first, as long as each reading of the clock allows one. */
  function Service(s: State, clock: Clock): State
    decreases |s.blocked|
  {
    if s.blocked == [] then s
    else if Allowed(s, clock(s.readings)) then
      Service(RunOne(Read(s), s.blocked[0]).(blocked := s.blocked[1..]), clock)
    else Read(s)
  }

  /** Then sets a timer if more calls wait than timers are out. */
  function ServiceAll(s: State, clock: Clock): State {
    var t := Service(s, clock);
    if |t.blocked| > t.timers then Read(t).(timers := t.timers + 1) else t
  }

  function DoQueue(s: State, cb: Callback, clock: Clock): State {
    if |s.blocked| > 0 then ServiceAll(s.(blocked := s.blocked + [cb]), clock)
    else if Allowed(s, clock(s.readings)) then RunOne(Read(s), cb)
    else Read(s).(blocked := [cb], timers := s.timers + 1)
  }

  function TimerFires(s: State, clock: Clock): State
    requires s.timers > 0
  {
    ServiceAll(s.(timers := s.timers - 1), clock)
  }

  function Reset(s: State, clock: Clock): State {
    Read(s).(start := clock(s.readings), sent := 0)
  }

  // ---------- the keeper object

  class RateKeeper {
    const clock: Clock
    const rate: real
    var startTime: int
    var sent: nat
    var blockedCalls: seq<Callback>
    var outstandingFutureTimers: nat
    var ran: seq<Callback>
    var readings: nat

    function View(): State
      reads this
    {
      State(startTime, rate, sent, blockedCalls, outstandingFutureTimers, ran, readings)
    }

    /** The rate is given per second. */
    constructor (ratePerSecond: real, clock: Clock)
      ensures View() == State(clock(0), ratePerSecond / 1000.0, 0, [], 0, [], 1) && this.clock == clock
      ensures rate * 1000.0 == ratePerSecond
    {
      this.clock := clock;
      this.rate := ratePerSecond / 1000.0;
      startTime, sent, blockedCalls, outstandingFutureTimers, ran, readings := clock(0), 0, [], 0, [], 1;
    }

    method Now() returns (now: int)
      modifies this`readings
      ensures now == clock(old(readings)) && readings == old(readings) + 1
    {
      now := clock(readings);
      readings := readings + 1;
    }

    method ResetStart()
      modifies this`startTime, this`sent, this`readings
      ensures View() == Reset(old(View()), clock)
    {
      startTime := Now();
      sent := 0;
    }

    /** The delay handed to the timer is not modelled: a timer fires at some later time. */
    method ScheduleFutureService()
      modifies this`outstandingFutureTimers
      ensures outstandingFutureTimers == old(outstandingFutureTimers) + 1
    {
      outstandingFutureTimers := outstandingFutureTimers + 1;
    }

    method DoQueueMode(cb: Callback) returns (ranNow: bool)
      modifies this
      ensures View() == DoQueue(old(View()), cb, clock)
      ensures ranNow == (old(blockedCalls) == [] && Allowed(old(View()), clock(old(readings))))
    {
      if |blockedCalls| > 0 {
        blockedCalls := blockedCalls + [cb];
        ServiceAllBlocked();
        return false;
      }
      var now := Now();
      var target := (now - startTime) as real * rate;
      if target - sent as real >= 1.0 {
        sent := sent + 1;
        ran := ran + [cb];
        return true;
      }
      blockedCalls := blockedCalls + [cb];
      ScheduleFutureService();
      return false;
    }

    method ServiceBlockedCall() returns (ok: bool)
      modifies this
      ensures ok == (old(blockedCalls) != [] && Allowed(old(View()), clock(old(readings))))
      ensures var s := old(View());
              View() == if s.blocked == [] then s
                        else if ok then RunOne(Read(s), s.blocked[0]).(blocked := s.blocked[1..]) else Read(s)
    {
      if |blockedCalls| == 0 {
        return false;
      }
      var now := Now();
      var target := (now - startTime) as real * rate;
      if target - sent as real >= 1.0 {
        sent := sent + 1;
        var cb := blockedCalls[0];
        blockedCalls := blockedCalls[1..];
        ran := ran + [cb];
        return true;
      }
      return false;
    }

    method ServiceAllBlocked()
      modifies this
      ensures View() == ServiceAll(old(View()), clock)
    {
      var ret := true;
      while ret
        invariant Service(old(View()), clock) == if ret then Service(View(), clock) else View()
        decreases ret, |blockedCalls|
      {
        ret := ServiceBlockedCall();
      }
      if |blockedCalls| > outstandingFutureTimers {
        var now := Now();
        ScheduleFutureService();
      }
    }

    method OnTimer()
      requires outstandingFutureTimers > 0
      modifies this
      ensures View() == TimerFires(old(View()), clock)
    {
      outstandingFutureTimers := outstandingFutureTimers - 1;
      ServiceAllBlocked();
    }
  }

  // ---------- what every run keeps

  /** Calls run once each, in the order they came, and no waiting call is without a timer to wake it. */
  predicate Inv(s: State, submitted: seq<Callback>) {
    && s.ran + s.blocked == submitted
    && (s.blocked != [] ==> s.timers > 0)
  }

  lemma {:induction false} ServiceKeepsOrder(s: State, clock: Clock)
    ensures var t := Service(s, clock);
            t.ran + t.blocked == s.ran + s.blocked && t.timers == s.timers && s.ran <= t.ran
    decreases |s.blocked|
  {
    if s.blocked != [] && Allowed(s, clock(s.readings)) {
      MoveFirst(s.ran, s.blocked);
      ServiceKeepsOrder(RunOne(Read(s), s.blocked[0]).(blocked := s.blocked[1..]), clock);
    }
  }

  lemma ServiceAllKeeps(s: State, clock: Clock)
    ensures Inv(ServiceAll(s, clock), s.ran + s.blocked)
  {
    ServiceKeepsOrder(s, clock);
  }

  datatype Event = Call(cb: Callback) | Timer | ResetNow

  /** A timer fires only while one is out. */
  function Next(s: State, e: Event, clock: Clock): State {
    match e
    case Call(cb) => DoQueue(s, cb, clock)
    case Timer => if s.timers > 0 then TimerFires(s, clock) else s
    case ResetNow => Reset(s, clock)
  }

  function Run(s: State, events: seq<Event>, clock: Clock): State
    decreases |events|
  {
    if events == [] then s else Run(Next(s, events[0], clock), events[1..], clock)
  }

  function Calls(events: seq<Event>): seq<Callback> {
    if events == [] then [] else CallOf(events[0]) + Calls(events[1..])
  }

  function CallOf(e: Event): seq<Callback> {
    if e.Call? then [e.cb] else []
  }

  lemma NextKeeps(s: State, e: Event, clock: Clock, submitted: seq<Callback>)
    requires Inv(s, submitted)
    ensures Inv(Next(s, e, clock), submitted + CallOf(e))
  {
    AddNothing(submitted);
    match e
    case Call(cb) =>
      Assoc(s.ran, s.blocked, [cb]);
      if |s.blocked| > 0 {
        ServiceAllKeeps(s.(blocked := s.blocked + [cb]), clock);
      } else {
        assert s.ran + [] == s.ran && (s.ran + [cb]) + [] == s.ran + [cb];
      }
    case Timer =>
      if s.timers > 0 {
        ServiceAllKeeps(s.(timers := s.timers - 1), clock);
      }
    case ResetNow =>
  }

  /** In every run, for any clock: order, exactly-once and no lost wakeup. */
  lemma {:induction false} EveryRun(s: State, events: seq<Event>, clock: Clock, submitted: seq<Callback>)
    requires Inv(s, submitted)
    ensures Inv(Run(s, events, clock), submitted + Calls(events))
    decreases |events|
  {
    if events == [] {
      AddNothing(submitted);
    } else {
      NextKeeps(s, events[0], clock, submitted);
      EveryRun(Next(s, events[0], clock), events[1..], clock, submitted + CallOf(events[0]));
      Assoc(submitted, CallOf(events[0]), Calls(events[1..]));
    }
  }

  /** A timer that fires when the rate allows another call runs the oldest waiting one. */
  lemma WakeupRunsOldest(s: State, clock: Clock)
    requires s.timers > 0 && s.blocked != []
    requires (clock(s.readings) - s.start) as real * s.rate >= (s.sent + 1) as real
    ensures s.ran + [s.blocked[0]] <= TimerFires(s, clock).ran
  {
    var t := s.(timers := s.timers - 1);
    ServiceKeepsOrder(RunOne(Read(t), t.blocked[0]).(blocked := t.blocked[1..]), clock);
  }

  /** Some reading in [from, s.readings) was too early for one more call. */
  ghost predicate FoundEarly(s: State, from: nat, clock: Clock) {
    exists i: nat :: from <= i < s.readings && TooEarly(s, clock(i))
  }

  /** By now, the rate does not yet allow as many calls as have been sent and one more. */
  predicate TooEarly(s: State, now: int) {
    (now - s.start) as real * s.rate < (s.sent + 1) as real
  }

  lemma AllowedUnlessEarly(s: State, now: int)
    ensures Allowed(s, now) <==> !TooEarly(s, now)
  {
  }

  lemma {:induction false} ServiceCatchesUp(s: State, clock: Clock)
    ensures var t := Service(s, clock);
            t.readings >= s.readings && (t.blocked != [] ==> FoundEarly(t, s.readings, clock))
    decreases |s.blocked|
  {
    if s.blocked != [] {
      if Allowed(s, clock(s.readings)) {
        var u := RunOne(Read(s), s.blocked[0]).(blocked := s.blocked[1..]);
        ServiceCatchesUp(u, clock);
        EarlierFrom(Service(u, clock), s.readings, u.readings, clock);
      } else {
        AllowedUnlessEarly(s, clock(s.readings));
        assert TooEarly(Read(s), clock(s.readings));
      }
    }
  }

  lemma EarlierFrom(s: State, from: nat, later: nat, clock: Clock)
    requires from <= later
    ensures FoundEarly(s, later, clock) ==> FoundEarly(s, from, clock)
  {
  }

  lemma ServiceAllCatchesUp(s: State, clock: Clock)
    ensures var t := ServiceAll(s, clock); t.blocked != [] ==> FoundEarly(t, s.readings, clock)
  {
    ServiceCatchesUp(s, clock);
    StaysEarly(Service(s, clock), ServiceAll(s, clock), s.readings, clock);
  }

  /** Timers and later readings do not matter. */
  lemma StaysEarly(t: State, u: State, from: nat, clock: Clock)
    requires t.start == u.start && t.rate == u.rate && t.sent == u.sent && t.readings <= u.readings
    ensures FoundEarly(t, from, clock) ==> FoundEarly(u, from, clock)
  {
    if FoundEarly(t, from, clock) {
      var i: nat :| from <= i < t.readings && TooEarly(t, clock(i));
      assert TooEarly(u, clock(i));
    }
  }

  /** No call is left waiting by a call or a timer unless the clock was just read too early for it. */
  lemma WaitsOnlyIfEarly(s: State, e: Event, clock: Clock)
    requires e.Call? || (e.Timer? && s.timers > 0)
    ensures var t := Next(s, e, clock); t.blocked != [] ==> FoundEarly(t, s.readings, clock)
  {
    match e
    case Call(cb) =>
      if |s.blocked| > 0 {
        ServiceAllCatchesUp(s.(blocked := s.blocked + [cb]), clock);
      } else if !Allowed(s, clock(s.readings)) {
        AllowedUnlessEarly(s, clock(s.readings));
        assert TooEarly(DoQueue(s, cb, clock), clock(s.readings));
      }
    case Timer =>
      ServiceAllCatchesUp(s.(timers := s.timers - 1), clock);
  }

  // ---------- the rate

  ghost predicate Monotone(clock: Clock) {
    forall i: nat, j: nat :: i <= j ==> clock(i) <= clock(j)
  }

  /** By the last reading of the clock, no more calls have been sent than the rate allows since the start. */
  predicate WithinRate(s: State, clock: Clock) {
    s.sent > 0 ==> s.readings > 0 && s.sent as real <= (clock(s.readings - 1) - s.start) as real * s.rate
  }

  lemma LaterAllowsMore(a: int, b: int, rate: real)
    requires a <= b && rate >= 0.0
    ensures a as real * rate <= b as real * rate
  {
  }

  lemma ReadKeepsRate(s: State, clock: Clock)
    requires Monotone(clock) && s.rate >= 0.0 && WithinRate(s, clock)
    ensures WithinRate(Read(s), clock)
    ensures Allowed(s, clock(s.readings)) ==> WithinRate(Read(s).(sent := s.sent + 1), clock)
  {
    if s.sent > 0 {
      LaterAllowsMore(clock(s.readings - 1) - s.start, clock(s.readings) - s.start, s.rate);
    }
  }

  lemma {:induction false} ServiceKeepsRate(s: State, clock: Clock)
    requires Monotone(clock) && s.rate >= 0.0 && WithinRate(s, clock)
    ensures WithinRate(Service(s, clock), clock) && Service(s, clock).rate == s.rate
    decreases |s.blocked|
  {
    if s.blocked != [] {
      ReadKeepsRate(s, clock);
      if Allowed(s, clock(s.readings)) {
        ServiceKeepsRate(RunOne(Read(s), s.blocked[0]).(blocked := s.blocked[1..]), clock);
      }
    }
  }

  lemma ServiceAllKeepsRate(s: State, clock: Clock)
    requires Monotone(clock) && s.rate >= 0.0 && WithinRate(s, clock)
    ensures WithinRate(ServiceAll(s, clock), clock) && ServiceAll(s, clock).rate == s.rate
  {
    var t := Service(s, clock);
    ServiceKeepsRate(s, clock);
    ReadKeepsRate(t, clock);
    assert WithinRate(Read(t), clock);
    assert Read(t).(timers := t.timers + 1).start == Read(t).start;
  }

  lemma CallKeepsRate(s: State, cb: Callback, clock: Clock)
    requires Monotone(clock) && s.rate >= 0.0 && WithinRate(s, clock)
    ensures WithinRate(DoQueue(s, cb, clock), clock) && DoQueue(s, cb, clock).rate == s.rate
  {
    if |s.blocked| > 0 {
      ServiceAllKeepsRate(s.(blocked := s.blocked + [cb]), clock);
    } else {
      ReadKeepsRate(s, clock);
    }
  }

  lemma NextKeepsRate(s: State, e: Event, clock: Clock)
    requires Monotone(clock) && s.rate >= 0.0 && WithinRate(s, clock)
    ensures WithinRate(Next(s, e, clock), clock) && Next(s, e, clock).rate == s.rate
  {
    match e
    case Call(cb) => CallKeepsRate(s, cb, clock);
    case Timer =>
      if s.timers > 0 {
        ServiceAllKeepsRate(s.(timers := s.timers - 1), clock);
      }
    case ResetNow =>
  }

  /** In every run with a clock that never goes back, the rate is never exceeded. */
  lemma {:induction false} RateHolds(s: State, events: seq<Event>, clock: Clock)
    requires Monotone(clock) && s.rate >= 0.0 && WithinRate(s, clock)
    ensures WithinRate(Run(s, events, clock), clock)
    decreases |events|
  {
    if events != [] {
      NextKeepsRate(s, events[0], clock);
      RateHolds(Next(s, events[0], clock), events[1..], clock);
    }
  }

  /** As many calls have been sent as the rate allows by now: time since the start times rate, rounded down. */
  predicate SentFully(s: State, now: int) {
    s.sent == ((now - s.start) as real * s.rate).Floor
  }

  lemma FloorIs(x: real, n: nat)
    requires n as real <= x < (n + 1) as real
    ensures x.Floor == n
  {
  }

  /** What a call or timer leaves as it is. */
  lemma {:induction false} ServiceKeepsStart(s: State, clock: Clock)
    ensures Service(s, clock).start == s.start
    decreases |s.blocked|
  {
    if s.blocked != [] && Allowed(s, clock(s.readings)) {
      ServiceKeepsStart(RunOne(Read(s), s.blocked[0]).(blocked := s.blocked[1..]), clock);
    }
  }

  lemma NextKeepsStart(s: State, e: Event, clock: Clock)
    requires !e.ResetNow?
    ensures Next(s, e, clock).start == s.start
  {
    match e
    case Call(cb) => ServiceKeepsStart(s.(blocked := s.blocked + [cb]), clock);
    case Timer => ServiceKeepsStart(s.(timers := if s.timers > 0 then s.timers - 1 else 0), clock);
  }

  /**
   * A call or timer at one moment: afterwards nobody waits, or exactly as many calls have been sent as the rate allows
   * by then.
   */
  lemma SentOrNobodyWaits(s: State, e: Event, clock: Clock, now: int)
    requires Monotone(clock) && s.rate >= 0.0 && WithinRate(s, clock) && s.start <= now
    requires (e.Call? || (e.Timer? && s.timers > 0)) && forall i: nat | i >= s.readings :: clock(i) == now
    ensures var t := Next(s, e, clock);
            t.start == s.start && t.rate == s.rate && (t.blocked == [] || SentFully(t, now))
  {
    var t := Next(s, e, clock);
    NextKeepsRate(s, e, clock);
    NextKeepsStart(s, e, clock);
    if t.blocked != [] {
      WaitsOnlyIfEarly(s, e, clock);
      SentExactly(t, s.readings, clock, now);
    }
  }

  lemma SentExactly(t: State, from: nat, clock: Clock, now: int)
    requires WithinRate(t, clock) && FoundEarly(t, from, clock) && t.rate >= 0.0 && t.start <= now
    requires forall i: nat | i >= from :: clock(i) == now
    ensures SentFully(t, now)
  {
    var i: nat :| from <= i < t.readings && TooEarly(t, clock(i));
    assert clock(i) == now && clock(t.readings - 1) == now;
    BetweenIsFloor(now - t.start, t.rate, t.sent);
  }

  lemma BetweenIsFloor(time: nat, rate: real, sent: nat)
    requires rate >= 0.0 && time as real * rate < (sent + 1) as real
    requires sent > 0 ==> sent as real <= time as real * rate
    ensures sent == (time as real * rate).Floor
  {
    LaterAllowsMore(0, time, rate);
    FloorIs(time as real * rate, sent);
  }

  // ---------- since the last reset

  /** Calls sent are calls run since the start. */
  predicate CountsRuns(s: State, before: nat) {
    |s.ran| == before + s.sent
  }

  lemma {:induction false} ServiceCountsRuns(s: State, clock: Clock, before: nat)
    requires CountsRuns(s, before)
    ensures CountsRuns(Service(s, clock), before)
    decreases |s.blocked|
  {
    if s.blocked != [] && Allowed(s, clock(s.readings)) {
      ServiceCountsRuns(RunOne(Read(s), s.blocked[0]).(blocked := s.blocked[1..]), clock, before);
    }
  }

  lemma NextCountsRuns(s: State, e: Event, clock: Clock, before: nat)
    requires CountsRuns(s, before) && !e.ResetNow?
    ensures CountsRuns(Next(s, e, clock), before)
  {
    match e
    case Call(cb) => ServiceCountsRuns(s.(blocked := s.blocked + [cb]), clock, before);
    case Timer => ServiceCountsRuns(s.(timers := if s.timers > 0 then s.timers - 1 else 0), clock, before);
  }

  lemma {:induction false} RunCountsRuns(s: State, events: seq<Event>, clock: Clock, before: nat)
    requires CountsRuns(s, before) && ResetNow !in events
    ensures CountsRuns(Run(s, events, clock), before)
    ensures Run(s, events, clock).start == s.start && Run(s, events, clock).rate == s.rate
    decreases |events|
  {
    if events != [] {
      NextCountsRuns(s, events[0], clock, before);
      NextKeepsStart(s, events[0], clock);
      NextKeepsSetRate(s, events[0], clock);
      RunCountsRuns(Next(s, events[0], clock), events[1..], clock, before);
    }
  }

  lemma {:induction false} ServiceKeepsSetRate(s: State, clock: Clock)
    ensures Service(s, clock).rate == s.rate
    decreases |s.blocked|
  {
    if s.blocked != [] && Allowed(s, clock(s.readings)) {
      ServiceKeepsSetRate(RunOne(Read(s), s.blocked[0]).(blocked := s.blocked[1..]), clock);
    }
  }

  lemma NextKeepsSetRate(s: State, e: Event, clock: Clock)
    ensures Next(s, e, clock).rate == s.rate
  {
    match e
    case Call(cb) => ServiceKeepsSetRate(s.(blocked := s.blocked + [cb]), clock);
    case Timer => ServiceKeepsSetRate(s.(timers := if s.timers > 0 then s.timers - 1 else 0), clock);
    case ResetNow =>
  }

  /**
   * After a reset, with a clock that never goes back, the calls counted are the callbacks run since, and never more
   * than the rate allows for the time since.
   */
  lemma {:induction false} ResetStartsAnew(s: State, events: seq<Event>, clock: Clock)
    requires Monotone(clock) && s.rate >= 0.0 && ResetNow !in events
    ensures var end := Run(Next(s, ResetNow, clock), events, clock);
            && |end.ran| == |s.ran| + end.sent && end.start == clock(s.readings) && end.rate == s.rate
            && WithinRate(end, clock)
  {
    var s0 := Next(s, ResetNow, clock);
    RateHolds(s0, events, clock);
    RunCountsRuns(s0, events, clock, |s.ran|);
  }

  // ---------- the timers that are out

  /** A timer that fires is out no longer; one more is set just if more calls then wait than timers are out. */
  lemma TimersAfterTimer(s: State, clock: Clock)
    requires s.timers > 0
    ensures var t := Next(s, Timer, clock);
            t.timers == s.timers - 1 + if |t.blocked| > s.timers - 1 then 1 else 0
  {
    ServiceKeepsOrder(s.(timers := s.timers - 1), clock);
  }

  /** A call sets one more timer if it finds nobody waiting and must wait, or if too few are out for all who wait. */
  lemma TimersAfterCall(s: State, cb: Callback, clock: Clock)
    ensures var t := Next(s, Call(cb), clock);
            t.timers == s.timers + if t.blocked != [] && (s.blocked == [] || |t.blocked| > s.timers) then 1 else 0
  {
    ServiceKeepsOrder(s.(blocked := s.blocked + [cb]), clock);
  }
}
