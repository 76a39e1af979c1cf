/** Events on their way from native threads to JavaScript: pairs of words through one shared vector. */
module EventQueue {
  import opened Seqs
  import opened Words
  import opened Wrappers

  datatype Pair = Pair(d1: Word, d2: Word)

  /** The cast of a native size to 32 bits. */
  function Truncate(v: nat): Word {
    v % TWO_32
  }

  /** Words arrive as they are; of anything larger, what 32 bits hold. */
  lemma TruncateKeepsWords(v: Word, high: nat)
    ensures Truncate(v) == v && Truncate(high * 0x1_0000_0000 + v) == v
  {
  }

  function WordsOf(pairs: seq<Pair>): seq<Word> {
    if pairs == [] then [] else [pairs[0].d1, pairs[0].d2] + WordsOf(pairs[1..])
  }

  // ---------- the catcher: words back into pairs

  datatype Catcher = Catcher(state: Option<Word>, emitted: seq<Pair>)

  function Cb(c: Catcher, x: Word): Catcher {
    match c.state
    case None => c.(state := Some(x))
    case Some(a) => Catcher(None, c.emitted + [Pair(a, x)])
  }

  function CbAll(c: Catcher, words: seq<Word>): Catcher
    decreases |words|
  {
    if words == [] then c else CbAll(Cb(c, words[0]), words[1..])
  }

  /** Every word the catcher was ever given. */
  function Seen(c: Catcher): seq<Word> {
    WordsOf(c.emitted) + if c.state.Some? then [c.state.value] else []
  }

  class CatchCustomEvent {
    var state: Option<Word>
    var emitted: seq<Pair>

    function View(): Catcher
      reads this
    {
      Catcher(state, emitted)
    }

    constructor ()
      ensures View() == Catcher(None, [])
    {
      state, emitted := None, [];
    }

    method OnWord(x: Word)
      modifies this
      ensures View() == Cb(old(View()), x)
    {
      if state == None {
        state := Some(x);
      } else {
        var a := state.value;
        emitted := emitted + [Pair(a, x)];
        state := None;
      }
    }
  }

  // ---------- the native side

  class CToJavascript {
    var work: seq<Word>

    constructor ()
      ensures work == []
    {
      work := [];
    }

    /** Both words go in under one lock. */
    method HasEvent(d1: nat, d2: nat)
      modifies this
      ensures work == old(work) + WordsOf([Pair(Truncate(d1), Truncate(d2))])
    {
      var first, second: Word := d1 % TWO_32, d2 % TWO_32;
      ghost var before := work;
      work := work + [first];
      work := work + [second];
      assert WordsOf([Pair(first, second)]) == [first, second] + WordsOf([]);
      Assoc(before, [first], [second]);
    }

    /** Copies the vector and empties it, under the same lock. */
    method TakeWork() returns (workCopy: seq<Word>)
      modifies this
      ensures workCopy == old(work) && work == []
    {
      workCopy := work;
      work := [];
    }

    /** One completed wait: what was in the vector is dispatched word by word, outside the lock. */
    method OnOK(catcher: CatchCustomEvent)
      modifies this, catcher
      ensures work == [] && catcher.View() == CbAll(old(catcher.View()), old(work))
    {
      var workCopy := TakeWork();
      assert workCopy[0..] == workCopy;
      for i := 0 to |workCopy|
        invariant work == []
        invariant CbAll(catcher.View(), workCopy[i..]) == CbAll(old(catcher.View()), old(work))
      {
        assert workCopy[i..][1..] == workCopy[i + 1..];
        catcher.OnWord(workCopy[i]);
      }
    }
  }

  // ---------- any interleaving of producers and the JavaScript thread

  /** The shared vector, the copy now being dispatched, and the catcher. */
  datatype State = State(work: seq<Word>, batch: seq<Word>, catcher: Catcher)

  // A producer pushes; the JavaScript thread takes the vector, or dispatches the next word of its copy.
  datatype Step = Push(d1: nat, d2: nat) | Take | Dispatch

  /** The vector is taken only after it is found non-empty and the copy before it is through. */
  function Next(s: State, e: Step): State {
    match e
    case Push(d1, d2) => s.(work := s.work + [Truncate(d1), Truncate(d2)])
    case Take => if s.work != [] && s.batch == [] then s.(work := [], batch := s.work) else s
    case Dispatch => if s.batch != [] then s.(batch := s.batch[1..], catcher := Cb(s.catcher, s.batch[0])) else s
  }

  function Run(s: State, steps: seq<Step>): State
    decreases |steps|
  {
    if steps == [] then s else Run(Next(s, steps[0]), steps[1..])
  }

  function PushOf(e: Step): seq<Pair> {
    if e.Push? then [Pair(Truncate(e.d1), Truncate(e.d2))] else []
  }

  /** The pairs pushed, in the order the lock let them through. */
  function Pushes(steps: seq<Step>): seq<Pair> {
    if steps == [] then [] else PushOf(steps[0]) + Pushes(steps[1..])
  }

  /** Every word is in one place, in order, and the vector always holds whole pairs. */
  predicate Inv(s: State, pushed: seq<Pair>) {
    && Seen(s.catcher) + (s.batch + s.work) == WordsOf(pushed)
    && |s.work| % 2 == 0
  }

  lemma {:induction false} WordsOfConcat(a: seq<Pair>, b: seq<Pair>)
    ensures WordsOf(a + b) == WordsOf(a) + WordsOf(b)
  {
    if a == [] {
      AddNothing(b);
    } else {
      WordsOfConcat(a[1..], b);
      assert (a + b)[1..] == a[1..] + b;
      Assoc([a[0].d1, a[0].d2], WordsOf(a[1..]), WordsOf(b));
    }
  }

  lemma {:induction false} WordsOfLength(pairs: seq<Pair>)
    ensures |WordsOf(pairs)| == 2 * |pairs|
  {
    if pairs != [] {
      WordsOfLength(pairs[1..]);
    }
  }

  lemma OnePair(p: Pair)
    ensures WordsOf([p]) == [p.d1, p.d2]
  {
    assert WordsOf([p]) == [p.d1, p.d2] + WordsOf([]);
  }

  lemma CbSees(c: Catcher, x: Word)
    ensures Seen(Cb(c, x)) == Seen(c) + [x]
  {
    match c.state
    case None =>
      assert Seen(c) == WordsOf(c.emitted);
    case Some(a) =>
      WordsOfConcat(c.emitted, [Pair(a, x)]);
      OnePair(Pair(a, x));
      Assoc(WordsOf(c.emitted), [a], [x]);
  }

  lemma NextKeeps(s: State, e: Step, pushed: seq<Pair>)
    requires Inv(s, pushed)
    ensures Inv(Next(s, e), pushed + PushOf(e))
  {
    AddNothing(pushed);
    match e
    case Push(d1, d2) =>
      var p := Pair(Truncate(d1), Truncate(d2));
      OnePair(p);
      WordsOfConcat(pushed, [p]);
      Assoc(s.batch, s.work, [p.d1, p.d2]);
      Assoc(Seen(s.catcher), s.batch + s.work, [p.d1, p.d2]);
    case Take =>
      assert s.batch == [] ==> s.work + [] == s.batch + s.work;
    case Dispatch =>
      if s.batch != [] {
        CbSees(s.catcher, s.batch[0]);
        Assoc([s.batch[0]], s.batch[1..], s.work);
        assert [s.batch[0]] + s.batch[1..] == s.batch;
        Assoc(Seen(s.catcher), [s.batch[0]], s.batch[1..] + s.work);
      }
  }

  lemma {:induction false} RunKeeps(s: State, steps: seq<Step>, pushed: seq<Pair>)
    requires Inv(s, pushed)
    ensures Inv(Run(s, steps), pushed + Pushes(steps))
    decreases |steps|
  {
    if steps == [] {
      AddNothing(pushed);
    } else {
      NextKeeps(s, steps[0], pushed);
      RunKeeps(Next(s, steps[0]), steps[1..], pushed + PushOf(steps[0]));
      Assoc(pushed, PushOf(steps[0]), Pushes(steps[1..]));
    }
  }

  /** If the words of some pairs begin with the words of others, the pairs do too. */
  lemma {:induction false} PairsBegin(a: seq<Pair>, rest: seq<Word>, all: seq<Pair>)
    requires WordsOf(a) + rest == WordsOf(all)
    ensures a <= all
  {
    WordsOfLength(a);
    WordsOfLength(all);
    if a != [] {
      var head, tail := [a[0].d1, a[0].d2], WordsOf(a[1..]);
      assert WordsOf(a) + rest == head + (tail + rest);
      assert (head + (tail + rest))[0] == head[0] && (head + (tail + rest))[1] == head[1];
      assert (head + (tail + rest))[2..] == tail + rest;
      assert ([all[0].d1, all[0].d2] + WordsOf(all[1..]))[2..] == WordsOf(all[1..]);
      PairsBegin(a[1..], rest, all[1..]);
      assert a == [a[0]] + a[1..] && all == [all[0]] + all[1..];
    }
  }

  const START: State := State([], [], Catcher(None, []))

  /**
    * In every interleaving the pairs emitted are a beginning of the pairs pushed, in lock order: none lost, doubled or
    * put together from two events. Between two copies the catcher holds no half pair, and once the vector is empty as
    * well every pair has been emitted.
    */
  lemma {:induction false} EveryInterleaving(steps: seq<Step>)
    ensures var s, pushed := Run(START, steps), Pushes(steps);
            && s.catcher.emitted <= pushed
            && (s.batch == [] ==> s.catcher.state == None)
            && (s.batch == [] && s.work == [] ==> s.catcher.emitted == pushed)
            && 2 * |s.catcher.emitted| + |Half(s)| + |s.batch| + |s.work| == 2 * |pushed|
  {
    var s, pushed := Run(START, steps), Pushes(steps);
    assert Seen(START.catcher) == [] && WordsOf([]) == [];
    assert [] + (START.batch + START.work) == WordsOf([]);
    RunKeeps(START, steps, []);
    assert [] + pushed == pushed;
    Assoc(WordsOf(s.catcher.emitted), Half(s), s.batch + s.work);
    WordsOfLength(s.catcher.emitted);
    WordsOfLength(pushed);
    PairsBegin(s.catcher.emitted, Half(s) + (s.batch + s.work), pushed);
  }

  function Half(s: State): seq<Word> {
    if s.catcher.state.Some? then [s.catcher.state.value] else []
  }

  /** The JavaScript thread alone: n dispatches. */
  function Dispatches(n: nat): seq<Step> {
    if n == 0 then [] else [Dispatch] + Dispatches(n - 1)
  }

  lemma {:induction false} DispatchesEmpty(s: State)
    ensures var t := Run(s, Dispatches(|s.batch|));
            t.batch == [] && t.work == s.work && t.catcher == CbAll(s.catcher, s.batch)
    ensures Pushes(Dispatches(|s.batch|)) == []
    decreases |s.batch|
  {
    if s.batch != [] {
      var steps := Dispatches(|s.batch|);
      assert steps[0] == Dispatch && steps[1..] == Dispatches(|s.batch| - 1);
      DispatchesEmpty(Next(s, Dispatch));
    }
  }

  lemma {:induction false} RunConcat(s: State, a: seq<Step>, b: seq<Step>)
    ensures Run(s, a + b) == Run(Run(s, a), b) && Pushes(a + b) == Pushes(a) + Pushes(b)
    decreases |a|
  {
    if a == [] {
      assert a + b == b && [] + Pushes(b) == Pushes(b);
    } else {
      DropOfConcat(a, b, 1);
      RunConcat(Next(s, a[0]), a[1..], b);
      Assoc(PushOf(a[0]), Pushes(a[1..]), Pushes(b));
    }
  }

  /** The steps with which the JavaScript thread catches up when no producer runs. */
  function CatchUp(s: State): seq<Step> {
    Dispatches(|s.batch|) + ([Take] + Dispatches(|s.work|))
  }

  /** From any point of any run, catching up emits every pair pushed so far. */
  lemma {:induction false} CatchingUpEmitsAll(steps: seq<Step>)
    ensures var s := Run(START, steps);
            var t := Run(s, CatchUp(s));
            t.catcher == Catcher(None, Pushes(steps)) && t.work == [] && t.batch == []
  {
    var s := Run(START, steps);
    var first, second := Dispatches(|s.batch|), [Take] + Dispatches(|s.work|);
    DispatchesEmpty(s);
    RunConcat(s, first, second);
    var u := Run(s, first);
    var v := Next(u, Take);
    assert second[0] == Take && second[1..] == Dispatches(|s.work|);
    if s.work == [] {
      assert Dispatches(|s.work|) == [];
    }
    DispatchesEmpty(v);
    assert Pushes(second) == [] + [];
    RunConcat(START, steps, CatchUp(s));
    assert Pushes(steps) + [] == Pushes(steps);
    EveryInterleaving(steps + CatchUp(s));
  }
}
