/** Byte streams that cut what flows through them into pieces of one size. */
module Reblock {
  import opened Seqs
  import opened Words

  type Bytes = seq<Byte>

  // ---------- cutting

  /** The whole pieces of n bytes that data holds from index i on, and what is left over. No piece has size zero. */
  function Pieces(data: Bytes, i: nat, n: nat): seq<Bytes>
    requires i <= |data|
    decreases |data| - i
  {
    if n == 0 || i + n > |data| then [] else [data[i..i + n]] + Pieces(data, i + n, n)
  }

  function Rest(data: Bytes, i: nat, n: nat): (r: Bytes)
    requires i <= |data|
    ensures (n > 0 ==> |r| < n) && |r| <= |data| - i
    decreases |data| - i
  {
    if n == 0 || i + n > |data| then data[i..] else Rest(data, i + n, n)
  }

  lemma {:induction false} PiecesTile(data: Bytes, i: nat, n: nat)
    requires i <= |data|
    ensures Flatten(Pieces(data, i, n)) + Rest(data, i, n) == data[i..]
    decreases |data| - i
  {
    if n > 0 && i + n <= |data| {
      var head, more := data[i..i + n], Pieces(data, i + n, n);
      PiecesTile(data, i + n, n);
      assert ([head] + more)[1..] == more;
      Assoc(head, Flatten(more), Rest(data, i + n, n));
      assert head + data[i + n..] == data[i..];
    }
  }

  lemma {:induction false} PiecesSized(data: Bytes, i: nat, n: nat)
    requires i <= |data|
    ensures forall p <- Pieces(data, i, n) :: |p| == n
    decreases |data| - i
  {
    if n > 0 && i + n <= |data| {
      PiecesSized(data, i + n, n);
    }
  }

  /** Piece k is bytes k*n up to (k+1)*n. */
  lemma {:induction false} PieceAt(data: Bytes, i: nat, n: nat, k: nat)
    requires i <= |data| && k < |Pieces(data, i, n)|
    ensures 0 <= i + k * n <= i + k * n + n <= |data|
    ensures Pieces(data, i, n)[k] == data[i + k * n..i + k * n + n]
    decreases k
  {
    if k > 0 {
      PieceAt(data, i + n, n, k - 1);
      assert (k - 1) * n + n == k * n;
    }
  }

  /** Only the bytes from i on matter. */
  lemma {:induction false} PiecesShift(data: Bytes, i: nat, j: nat, n: nat)
    requires i + j <= |data|
    ensures Pieces(data, i + j, n) == Pieces(data[i..], j, n) && Rest(data, i + j, n) == Rest(data[i..], j, n)
    decreases |data| - j
  {
    if n > 0 && i + j + n <= |data| {
      PiecesShift(data, i, j + n, n);
      assert data[i..][j..j + n] == data[i + j..i + j + n];
    } else {
      assert data[i..][j..] == data[i + j..];
    }
  }

  /** Cutting can stop anywhere and go on from what was left over. */
  lemma {:induction false} PiecesContinue(a: Bytes, b: Bytes, i: nat, n: nat)
    requires i <= |a|
    ensures Pieces(a + b, i, n) == Pieces(a, i, n) + Pieces(Rest(a, i, n) + b, 0, n)
    ensures Rest(a + b, i, n) == Rest(Rest(a, i, n) + b, 0, n)
    decreases |a| - i
  {
    if n == 0 || i + n > |a| {
      PiecesShift(a + b, i, 0, n);
      DropOfConcat(a, b, i);
      assert [] + Pieces(a + b, i, n) == Pieces(a + b, i, n);
    } else {
      SliceOfConcat(a, b, i, i + n);
      PiecesContinue(a, b, i + n, n);
      Assoc([a[i..i + n]], Pieces(a, i + n, n), Pieces(Rest(a, i + n, n) + b, 0, n));
    }
  }

  lemma MultipleAtLeast(k: int, n: nat)
    requires k >= 1
    ensures k * n >= n
  {
  }

  /** Quotient and remainder are unique. */
  lemma DivisionUnique(p: int, m: nat, q: int, r: nat, n: nat)
    requires m < n && r < n && p * n + m == q * n + r
    ensures m == r
  {
    assert (q - p) * n == q * n - p * n && (p - q) * n == p * n - q * n;
    if q > p {
      MultipleAtLeast(q - p, n);
    } else if q < p {
      MultipleAtLeast(p - q, n);
    }
  }

  lemma LessOne(len: nat, n: nat)
    requires 0 < n <= len
    ensures (len - n) % n == len % n
  {
    var q, p := len / n, (len - n) / n;
    assert (q - 1) * n == q * n - n;
    DivisionUnique(p, (len - n) % n, q - 1, len % n, n);
  }

  lemma {:induction false} RestLength(data: Bytes, i: nat, n: nat, left: nat)
    requires n > 0 && i + left == |data|
    ensures |Rest(data, i, n)| == left % n
    decreases left
  {
    if n <= left {
      LessOne(left, n);
      RestLength(data, i + n, n, left - n);
    } else {
      SmallRemainder(left, n);
    }
  }

  lemma SmallRemainder(left: nat, n: nat)
    requires left < n
    ensures left % n == left
  {
  }

  /** Where cutting stops: what lies behind is exactly the rest. */
  method FindCutoff(data: Bytes, n: nat) returns (cutoff: nat)
    requires n > 0
    ensures cutoff == |data| - |Rest(data, 0, n)|
  {
    RestLength(data, 0, n, |data|);
    var rem := |data| % n;
    cutoff := |data| - rem;
  }

  /** One turn of a cutting loop: below the cutoff a whole piece is there, and cutting goes on behind it. */
  lemma CutStep(data: Bytes, i: nat, n: nat)
    requires n > 0 && i < |data| - |Rest(data, 0, n)| && Rest(data, i, n) == Rest(data, 0, n)
    ensures i + n <= |data| - |Rest(data, 0, n)| && Rest(data, i + n, n) == Rest(data, 0, n)
    ensures Pieces(data, i, n) == [data[i..i + n]] + Pieces(data, i + n, n)
  {
  }

  lemma {:induction false} CutEnd(data: Bytes, n: nat)
    ensures var i := |data| - |Rest(data, 0, n)|;
            Rest(data, i, n) == Rest(data, 0, n) ==> Pieces(data, i, n) == [] && data[i..] == Rest(data, 0, n)
  {
  }

  /** The pieces cut before index i, which is where the next one starts or the rest does. */
  ghost predicate Cutting(data: Bytes, n: nat, i: nat, whole: seq<Bytes>)
    requires n > 0
  {
    && i <= |data| - |Rest(data, 0, n)| && Rest(data, i, n) == Rest(data, 0, n)
    && whole + Pieces(data, i, n) == Pieces(data, 0, n)
  }

  lemma {:induction false} CutMore(data: Bytes, n: nat, i: nat, whole: seq<Bytes>)
    requires n > 0 && Cutting(data, n, i, whole) && i < |data| - |Rest(data, 0, n)|
    ensures i + n <= |data| && Cutting(data, n, i + n, whole + [data[i..i + n]])
  {
    CutStep(data, i, n);
    Assoc(whole, [data[i..i + n]], Pieces(data, i + n, n));
  }

  lemma {:induction false} CutAll(data: Bytes, n: nat, whole: seq<Bytes>)
    requires n > 0 && Cutting(data, n, |data| - |Rest(data, 0, n)|, whole)
    ensures whole == Pieces(data, 0, n) && data[|data| - |Rest(data, 0, n)|..] == Rest(data, 0, n)
  {
    CutEnd(data, n);
    AddNothing(whole);
  }

  // ---------- the turnstile

  datatype Turnstile = Turnstile(capture: Bytes, pending: int)

  /** How many bytes of all the stream drops before it cuts. */
  function Dump(pending: int, all: Bytes): (d: nat)
    ensures d <= |all|
  {
    if pending <= 0 then 0 else if pending < |all| then pending else |all|
  }

  function Transform(s: Turnstile, n: nat, input: Bytes): Turnstile
  {
    var all := s.capture + input;
    var d := Dump(s.pending, all);
    Turnstile(Rest(all, d, n), s.pending - d)
  }

  function Pushed(s: Turnstile, n: nat, input: Bytes): seq<Bytes>
  {
    var all := s.capture + input;
    Pieces(all, Dump(s.pending, all), n)
  }

  class ByteTurnstileStream {
    const chunk: nat
    var capture: Bytes
    var pendingAdvance: int

    function View(): Turnstile
      reads this
    {
      Turnstile(capture, pendingAdvance)
    }

    constructor (chunk: nat)
      ensures this.chunk == chunk && View() == Turnstile([], 0)
    {
      this.chunk := chunk;
      capture, pendingAdvance := [], 0;
    }

    method Advance(count: int)
      modifies this`pendingAdvance
      ensures pendingAdvance == old(pendingAdvance) + count
    {
      pendingAdvance := pendingAdvance + count;
    }

    /** Drops what is still to be dropped, as far as there is data. */
    method Trim(all: Bytes) returns (longData: Bytes)
      modifies this`pendingAdvance
      ensures var d := Dump(old(pendingAdvance), all);
              longData == all[d..] && pendingAdvance == old(pendingAdvance) - d
    {
      longData := all;
      if pendingAdvance > 0 {
        var dump := if pendingAdvance < |longData| then pendingAdvance else |longData|;
        longData := longData[dump..];
        pendingAdvance := pendingAdvance - dump;
      }
    }

    /** Pushes the whole pieces and keeps the rest. */
    method PushPieces(longData: Bytes) returns (pushed: seq<Bytes>)
      requires chunk > 0
      modifies this`capture
      ensures capture == Rest(longData, 0, chunk) && pushed == Pieces(longData, 0, chunk)
    {
      var cutoff := FindCutoff(longData, chunk);
      var i := 0;
      pushed := [];
      AddNothing(Pieces(longData, 0, chunk));
      while i < cutoff
        invariant 0 <= i <= cutoff && Cutting(longData, chunk, i, pushed)
      {
        CutMore(longData, chunk, i, pushed);
        pushed := pushed + [longData[i..i + chunk]];
        i := i + chunk;
      }
      CutAll(longData, chunk, pushed);
      capture := longData[cutoff..];
    }

    method OnChunk(input: Bytes) returns (pushed: seq<Bytes>)
      modifies this
      ensures View() == Transform(old(View()), chunk, input)
      ensures pushed == Pushed(old(View()), chunk, input)
    {
      ghost var d := Dump(pendingAdvance, capture + input);
      var longData := Trim(capture + input);
      PiecesShift(capture + input, d, 0, chunk);
      if chunk == 0 {
        // A remainder by zero is not a number: no index is below it, and a slice from it starts at the front.
        assert longData[0..] == longData;
        capture := longData;
        return [];
      }
      pushed := PushPieces(longData);
    }

    method Erase()
      modifies this`capture
      ensures capture == []
    {
      capture := [];
    }
  }

  // ---------- what every run of the turnstile keeps

  datatype Event = Advance(count: int) | Input(data: Bytes)

  // The input is cut into segments: some go out, the others are dropped.
  datatype Segment = Out(data: Bytes) | Dropped(data: Bytes)

  function Next(s: Turnstile, n: nat, e: Event): Turnstile
  {
    match e
    case Advance(count) => s.(pending := s.pending + count)
    case Input(data) => Transform(s, n, data)
  }

  function Run(s: Turnstile, n: nat, events: seq<Event>): Turnstile
    decreases |events|
  {
    if events == [] then s else Run(Next(s, n, events[0]), n, events[1..])
  }

  function Outs(pieces: seq<Bytes>): seq<Segment> {
    if pieces == [] then [] else [Out(pieces[0])] + Outs(pieces[1..])
  }

  /** What one event did to the bytes, front to back. */
  function SegmentsOf(s: Turnstile, n: nat, e: Event): seq<Segment>
  {
    match e
    case Advance(_) => []
    case Input(data) =>
      var all := s.capture + data;
      [Dropped(all[..Dump(s.pending, all)])] + Outs(Pushed(s, n, data))
  }

  function Log(s: Turnstile, n: nat, events: seq<Event>): seq<Segment>
    decreases |events|
  {
    if events == [] then [] else SegmentsOf(s, n, events[0]) + Log(Next(s, n, events[0]), n, events[1..])
  }

  /** The bytes of the segments, those dropped, and the pieces that went out. */
  function Data(log: seq<Segment>): Bytes {
    if log == [] then [] else log[0].data + Data(log[1..])
  }

  function DroppedBytes(log: seq<Segment>): nat {
    if log == [] then 0 else (if log[0].Dropped? then |log[0].data| else 0) + DroppedBytes(log[1..])
  }

  function Output(log: seq<Segment>): seq<Bytes> {
    if log == [] then [] else (if log[0].Out? then [log[0].data] else []) + Output(log[1..])
  }

  function InputOf(e: Event): Bytes {
    if e.Input? then e.data else []
  }

  function Inputs(events: seq<Event>): Bytes {
    if events == [] then [] else InputOf(events[0]) + Inputs(events[1..])
  }

  function Advanced(events: seq<Event>): int {
    if events == [] then 0 else (if events[0].Advance? then events[0].count else 0) + Advanced(events[1..])
  }

  lemma {:induction false} LogConcat(a: seq<Segment>, b: seq<Segment>)
    ensures Data(a + b) == Data(a) + Data(b)
    ensures DroppedBytes(a + b) == DroppedBytes(a) + DroppedBytes(b)
    ensures Output(a + b) == Output(a) + Output(b)
  {
    if a == [] {
      AddNothing(b);
      assert [] + Data(b) == Data(b) && [] + Output(b) == Output(b);
    } else {
      LogConcat(a[1..], b);
      assert (a + b)[1..] == a[1..] + b && (a + b)[0] == a[0];
      Assoc(a[0].data, Data(a[1..]), Data(b));
      Assoc(if a[0].Out? then [a[0].data] else [], Output(a[1..]), Output(b));
    }
  }

  lemma {:induction false} OutsMeaning(pieces: seq<Bytes>)
    ensures Data(Outs(pieces)) == Flatten(pieces)
    ensures DroppedBytes(Outs(pieces)) == 0 && Output(Outs(pieces)) == pieces
  {
    if pieces != [] {
      OutsMeaning(pieces[1..]);
      assert Outs(pieces)[1..] == Outs(pieces[1..]);
      assert [pieces[0]] + pieces[1..] == pieces;
    }
  }

  lemma {:induction false} DropThenOuts(first: Bytes, pieces: seq<Bytes>)
    ensures var segments := [Dropped(first)] + Outs(pieces);
            && Data(segments) == first + Flatten(pieces)
            && DroppedBytes(segments) == |first| && Output(segments) == pieces
  {
    var segments := [Dropped(first)] + Outs(pieces);
    OutsMeaning(pieces);
    assert segments[0] == Dropped(first) && segments[1..] == Outs(pieces);
    assert [] + pieces == pieces;
  }

  lemma {:induction false} CutTiles(all: Bytes, d: nat, n: nat)
    requires d <= |all|
    ensures (all[..d] + Flatten(Pieces(all, d, n))) + Rest(all, d, n) == all
  {
    PiecesTile(all, d, n);
    Assoc(all[..d], Flatten(Pieces(all, d, n)), Rest(all, d, n));
    assert all[..d] + all[d..] == all;
  }

  lemma InputConserves(s: Turnstile, n: nat, data: Bytes)
    ensures var segments, t := SegmentsOf(s, n, Input(data)), Transform(s, n, data);
            && Data(segments) + t.capture == s.capture + data && (n > 0 ==> |t.capture| < n)
            && DroppedBytes(segments) == s.pending - t.pending
            && Output(segments) == Pushed(s, n, data)
  {
    var all := s.capture + data;
    var d := Dump(s.pending, all);
    DropThenOuts(all[..d], Pieces(all, d, n));
    CutTiles(all, d, n);
  }

  /** One event: nothing is lost, doubled or reordered, and every byte dropped was asked for. */
  lemma StepConserves(s: Turnstile, n: nat, e: Event)
    ensures var segments, t := SegmentsOf(s, n, e), Next(s, n, e);
            && Data(segments) + t.capture == s.capture + InputOf(e)
            && DroppedBytes(segments) == s.pending + Advanced([e]) - t.pending
            && (e.Input? ==> (n > 0 ==> |t.capture| < n) && Output(segments) == Pushed(s, n, e.data))
            && (e.Advance? ==> t.capture == s.capture && segments == [])
  {
    match e
    case Advance(_) =>
      assert [] + s.capture == s.capture + [];
    case Input(data) =>
      InputConserves(s, n, data);
  }

  /**
    * In every run the segments, laid end to end with the capture, are the whole input, so bytes go missing only where
    * a segment was dropped, between whole pieces; and the dropped bytes are those asked for and no longer pending.
    */
  lemma {:induction false} Conservation(s: Turnstile, n: nat, events: seq<Event>)
    requires n > 0 ==> |s.capture| < n
    ensures var t := Run(s, n, events);
            && Data(Log(s, n, events)) + t.capture == s.capture + Inputs(events)
            && DroppedBytes(Log(s, n, events)) == s.pending + Advanced(events) - t.pending
            && (n > 0 ==> |t.capture| < n)
    ensures forall p <- Output(Log(s, n, events)) :: |p| == n
    decreases |events|
  {
    if events == [] {
      assert [] + s.capture == s.capture + [];
    } else {
      var e, rest := events[0], events[1..];
      var t := Next(s, n, e);
      var now, later := SegmentsOf(s, n, e), Log(t, n, rest);
      StepConserves(s, n, e);
      if e.Input? {
        var all := s.capture + e.data;
        PiecesSized(all, Dump(s.pending, all), n);
      }
      Conservation(t, n, rest);
      LogConcat(now, later);
      Assoc(Data(now), Data(later), Run(t, n, rest).capture);
      Assoc(Data(now), t.capture, Inputs(rest));
      Assoc(s.capture, InputOf(e), Inputs(rest));
    }
  }

  function AsInputs(chunks: seq<Bytes>): seq<Event> {
    if chunks == [] then [] else [Input(chunks[0])] + AsInputs(chunks[1..])
  }

  /** Two inputs in a row are as good as one. */
  lemma TwoInputsAreOne(s: Turnstile, n: nat, a: Bytes, b: Bytes)
    ensures Transform(Transform(s, n, a), n, b) == Transform(s, n, a + b)
    ensures Pushed(s, n, a) + Pushed(Transform(s, n, a), n, b) == Pushed(s, n, a + b)
  {
    var all := s.capture + a;
    var d := Dump(s.pending, all);
    var t := Transform(s, n, a);
    Assoc(s.capture, a, b);
    PiecesContinue(all, b, d, n);
    if s.pending > |all| {
      assert t.capture + b == b;
      PiecesShift(all + b, |all|, Dump(t.pending, b), n);
      assert (all + b)[|all|..] == b;
      assert [] + Pushed(t, n, b) == Pushed(t, n, b);
    }
  }

  /** How the input between two advances is split makes no difference to what goes out or to the state. */
  lemma {:induction false} ChunkInvariance(s: Turnstile, n: nat, chunks: seq<Bytes>)
    requires chunks != []
    ensures Run(s, n, AsInputs(chunks)) == Transform(s, n, Flatten(chunks))
    ensures Output(Log(s, n, AsInputs(chunks))) == Pushed(s, n, Flatten(chunks))
    decreases |chunks|
  {
    var c, rest := chunks[0], chunks[1..];
    var t := Transform(s, n, c);
    var now := SegmentsOf(s, n, Input(c));
    assert AsInputs(chunks)[0] == Input(c) && AsInputs(chunks)[1..] == AsInputs(rest);
    StepConserves(s, n, Input(c));
    LogConcat(now, Log(t, n, AsInputs(rest)));
    if rest == [] {
      assert Flatten(chunks) == c;
      assert Output(now) + [] == Output(now);
    } else {
      ChunkInvariance(t, n, rest);
      TwoInputsAreOne(s, n, c, Flatten(rest));
    }
  }

  /** Advancing by count makes exactly the next count bytes that have not gone out disappear, however they arrive. */
  lemma {:induction false} AdvanceDropsNext(capture: Bytes, n: nat, count: nat, chunks: seq<Bytes>)
    requires chunks != [] && count <= |capture| + |Flatten(chunks)|
    ensures var s := Turnstile(capture, 0);
            Output(Log(Next(s, n, Advance(count)), n, AsInputs(chunks)))
            == Pieces(capture + Flatten(chunks), count, n)
    ensures Run(Turnstile(capture, count), n, AsInputs(chunks)).pending == 0
  {
    ChunkInvariance(Turnstile(capture, count), n, chunks);
  }

  // ---------- removing a prefix of every piece

  function WithoutPrefix(piece: Bytes, cp: nat): Bytes {
    if cp >= |piece| then [] else piece[cp..]
  }

  function WithoutPrefixes(pieces: seq<Bytes>, cp: nat): (r: seq<Bytes>)
    ensures |r| == |pieces|
  {
    if pieces == [] then [] else [WithoutPrefix(pieces[0], cp)] + WithoutPrefixes(pieces[1..], cp)
  }

  lemma {:induction false} WithoutPrefixesConcat(a: seq<Bytes>, b: seq<Bytes>, cp: nat)
    ensures WithoutPrefixes(a + b, cp) == WithoutPrefixes(a, cp) + WithoutPrefixes(b, cp)
  {
    if a == [] {
      assert a + b == b && [] + WithoutPrefixes(b, cp) == WithoutPrefixes(b, cp);
    } else {
      WithoutPrefixesConcat(a[1..], b, cp);
      assert (a + b)[1..] == a[1..] + b && (a + b)[0] == a[0];
      Assoc([WithoutPrefix(a[0], cp)], WithoutPrefixes(a[1..], cp), WithoutPrefixes(b, cp));
    }
  }

  lemma {:induction false} RemoveMore(was: Bytes, fed: Bytes, c: Bytes, n: nat, cp: nat)
    ensures var now := Rest(was + fed, 0, n);
            && WithoutPrefixes(Pieces(was + fed, 0, n), cp) + WithoutPrefixes(Pieces(now + c, 0, n), cp)
               == WithoutPrefixes(Pieces(was + (fed + c), 0, n), cp)
            && Rest(now + c, 0, n) == Rest(was + (fed + c), 0, n)
  {
    Assoc(was, fed, c);
    PiecesContinue(was + fed, c, 0, n);
    WithoutPrefixesConcat(Pieces(was + fed, 0, n), Pieces(Rest(was + fed, 0, n) + c, 0, n), cp);
  }

  lemma {:induction false} WithoutPrefixesLast(pieces: seq<Bytes>, last: Bytes, cp: nat)
    ensures WithoutPrefixes(pieces + [last], cp) == WithoutPrefixes(pieces, cp) + [WithoutPrefix(last, cp)]
  {
    WithoutPrefixesConcat(pieces, [last], cp);
    assert WithoutPrefixes([last], cp) == [WithoutPrefix(last, cp)] + [];
  }

  class RemoveCpStream {
    const chunk: nat
    const cp: nat
    var capture: Bytes

    constructor (chunk: nat, cp: nat)
      ensures this.chunk == chunk && this.cp == cp && capture == []
    {
      this.chunk, this.cp := chunk, cp;
      capture := [];
    }

    /** Pushes the whole pieces and keeps the rest. */
    method PushPieces(longData: Bytes) returns (pushed: seq<Bytes>)
      requires chunk > 0
      modifies this
      ensures capture == Rest(longData, 0, chunk)
      ensures pushed == WithoutPrefixes(Pieces(longData, 0, chunk), cp)
    {
      var cutoff := FindCutoff(longData, chunk);
      var i := 0;
      pushed := [];
      ghost var whole: seq<Bytes> := [];
      AddNothing(Pieces(longData, 0, chunk));
      while i < cutoff
        invariant 0 <= i <= cutoff && Cutting(longData, chunk, i, whole)
        invariant pushed == WithoutPrefixes(whole, cp)
      {
        CutMore(longData, chunk, i, whole);
        WithoutPrefixesLast(whole, longData[i..i + chunk], cp);
        whole := whole + [longData[i..i + chunk]];
        var piece := if cp >= chunk then [] else longData[i + cp..i + chunk];
        assert piece == WithoutPrefix(longData[i..i + chunk], cp);
        pushed := pushed + [piece];
        i := i + chunk;
      }
      CutAll(longData, chunk, whole);
      capture := longData[cutoff..];
    }

    method OnChunk(input: Bytes) returns (pushed: seq<Bytes>)
      modifies this
      ensures capture == Rest(old(capture) + input, 0, chunk)
      ensures pushed == WithoutPrefixes(Pieces(old(capture) + input, 0, chunk), cp)
    {
      var longData := capture + input;
      if chunk == 0 {
        // A remainder by zero is not a number: no index is below it, and a slice from it starts at the front.
        assert longData[0..] == longData;
        capture := longData;
        return [];
      }
      pushed := PushPieces(longData);
    }

    /** Fed in any chunks, the stream puts out every piece of the joined input without its prefix. */
    method Feed(chunks: seq<Bytes>) returns (pushed: seq<Bytes>)
      requires chunk > 0 ==> |capture| < chunk
      modifies this
      ensures pushed == WithoutPrefixes(Pieces(old(capture) + Flatten(chunks), 0, chunk), cp)
      ensures capture == Rest(old(capture) + Flatten(chunks), 0, chunk) && (chunk > 0 ==> |capture| < chunk)
    {
      ghost var was := capture;
      pushed := [];
      ghost var fed: Bytes := [];
      AddNothing(was);
      for k := 0 to |chunks|
        invariant fed + Flatten(chunks[k..]) == Flatten(chunks)
        invariant pushed == WithoutPrefixes(Pieces(was + fed, 0, chunk), cp)
        invariant capture == Rest(was + fed, 0, chunk)
      {
        var c := chunks[k];
        assert chunks[k..][1..] == chunks[k + 1..];
        Assoc(fed, c, Flatten(chunks[k + 1..]));
        RemoveMore(was, fed, c, chunk, cp);
        var more := OnChunk(c);
        pushed := pushed + more;
        fed := fed + c;
      }
      assert chunks[|chunks|..] == [] && fed + [] == fed;
    }
  }

  // ---------- numbering every piece

  function Succ(w: Word): Word {
    if w == TWO_32 - 1 then 0 else w + 1
  }

  function Numbered(pieces: seq<Bytes>, counter: Word): (r: seq<Bytes>)
    ensures |r| == |pieces|
    decreases |pieces|
  {
    if pieces == [] then [] else [BytesOfWord(counter) + pieces[0]] + Numbered(pieces[1..], Succ(counter))
  }

  function CounterAfter(counter: Word, count: nat): Word
    decreases count
  {
    if count == 0 then counter else CounterAfter(Succ(counter), count - 1)
  }

  lemma {:induction false} CounterCounts(counter: Word, count: nat)
    ensures CounterAfter(counter, count) == (counter + count) % TWO_32
    decreases count
  {
    if count > 0 {
      CounterCounts(Succ(counter), count - 1);
    }
  }

  lemma {:induction false} NumberedConcat(a: seq<Bytes>, b: seq<Bytes>, counter: Word)
    ensures Numbered(a + b, counter) == Numbered(a, counter) + Numbered(b, CounterAfter(counter, |a|))
    ensures CounterAfter(CounterAfter(counter, |a|), |b|) == CounterAfter(counter, |a + b|)
  {
    if a == [] {
      assert a + b == b && [] + Numbered(b, counter) == Numbered(b, counter);
    } else {
      NumberedConcat(a[1..], b, Succ(counter));
      assert (a + b)[1..] == a[1..] + b && (a + b)[0] == a[0];
      var first := BytesOfWord(counter) + a[0];
      Assoc([first], Numbered(a[1..], Succ(counter)), Numbered(b, CounterAfter(Succ(counter), |a[1..]|)));
    }
  }

  /** Piece k carries the number k places after the first. */
  lemma {:induction false} NumberedAt(pieces: seq<Bytes>, counter: Word, k: nat)
    requires k < |pieces|
    ensures Numbered(pieces, counter)[k] == BytesOfWord(CounterAfter(counter, k)) + pieces[k]
    decreases |pieces|
  {
    if k > 0 {
      NumberedAt(pieces[1..], Succ(counter), k - 1);
    }
  }

  lemma {:induction false} NumberMore(was: Bytes, fed: Bytes, c: Bytes, n: nat, first: Word)
    ensures var now, counter := Rest(was + fed, 0, n), CounterAfter(first, |Pieces(was + fed, 0, n)|);
            && Numbered(Pieces(was + fed, 0, n), first) + Numbered(Pieces(now + c, 0, n), counter)
               == Numbered(Pieces(was + (fed + c), 0, n), first)
            && CounterAfter(counter, |Pieces(now + c, 0, n)|) == CounterAfter(first, |Pieces(was + (fed + c), 0, n)|)
            && Rest(now + c, 0, n) == Rest(was + (fed + c), 0, n)
  {
    Assoc(was, fed, c);
    PiecesContinue(was + fed, c, 0, n);
    NumberedConcat(Pieces(was + fed, 0, n), Pieces(Rest(was + fed, 0, n) + c, 0, n), first);
  }

  lemma {:induction false} NumberedLast(pieces: seq<Bytes>, last: Bytes, first: Word)
    ensures var counter := CounterAfter(first, |pieces|);
            && Numbered(pieces + [last], first) == Numbered(pieces, first) + [BytesOfWord(counter) + last]
            && CounterAfter(first, |pieces + [last]|) == Succ(counter)
  {
    var counter := CounterAfter(first, |pieces|);
    NumberedConcat(pieces, [last], first);
    assert Numbered([last], counter) == [BytesOfWord(counter) + last] + [];
    assert CounterAfter(counter, 1) == CounterAfter(Succ(counter), 0);
  }

  class AddCounterStream {
    const chunk: nat
    var capture: Bytes
    var counter: Word

    constructor (chunk: nat)
      ensures this.chunk == chunk && capture == [] && counter == 0
    {
      this.chunk := chunk;
      capture, counter := [], 0;
    }

    /** Pushes the whole pieces and keeps the rest. */
    method PushPieces(longData: Bytes) returns (pushed: seq<Bytes>)
      requires chunk > 0
      modifies this
      ensures capture == Rest(longData, 0, chunk)
      ensures pushed == Numbered(Pieces(longData, 0, chunk), old(counter))
      ensures counter == CounterAfter(old(counter), |Pieces(longData, 0, chunk)|)
    {
      var cutoff := FindCutoff(longData, chunk);
      var i := 0;
      pushed := [];
      ghost var whole: seq<Bytes> := [];
      AddNothing(Pieces(longData, 0, chunk));
      while i < cutoff
        invariant 0 <= i <= cutoff && Cutting(longData, chunk, i, whole)
        invariant pushed == Numbered(whole, old(counter)) && counter == CounterAfter(old(counter), |whole|)
      {
        CutMore(longData, chunk, i, whole);
        NumberedLast(whole, longData[i..i + chunk], old(counter));
        whole := whole + [longData[i..i + chunk]];
        pushed := pushed + [BytesOfWord(counter) + longData[i..i + chunk]];
        counter := Succ(counter);
        i := i + chunk;
      }
      CutAll(longData, chunk, whole);
      capture := longData[cutoff..];
    }

    method OnChunk(input: Bytes) returns (pushed: seq<Bytes>)
      modifies this
      ensures capture == Rest(old(capture) + input, 0, chunk)
      ensures pushed == Numbered(Pieces(old(capture) + input, 0, chunk), old(counter))
      ensures counter == CounterAfter(old(counter), |Pieces(old(capture) + input, 0, chunk)|)
    {
      var longData := capture + input;
      if chunk == 0 {
        // A remainder by zero is not a number: no index is below it, and a slice from it starts at the front.
        assert longData[0..] == longData;
        capture := longData;
        return [];
      }
      pushed := PushPieces(longData);
    }

    /** Fed in any chunks, the stream numbers the pieces of the joined input in order. */
    method Feed(chunks: seq<Bytes>) returns (pushed: seq<Bytes>)
      requires chunk > 0 ==> |capture| < chunk
      modifies this
      ensures pushed == Numbered(Pieces(old(capture) + Flatten(chunks), 0, chunk), old(counter))
      ensures capture == Rest(old(capture) + Flatten(chunks), 0, chunk) && (chunk > 0 ==> |capture| < chunk)
      ensures counter == CounterAfter(old(counter), |Pieces(old(capture) + Flatten(chunks), 0, chunk)|)
    {
      ghost var was, first := capture, counter;
      pushed := [];
      ghost var fed: Bytes := [];
      AddNothing(was);
      for k := 0 to |chunks|
        invariant fed + Flatten(chunks[k..]) == Flatten(chunks)
        invariant pushed == Numbered(Pieces(was + fed, 0, chunk), first)
        invariant counter == CounterAfter(first, |Pieces(was + fed, 0, chunk)|)
        invariant capture == Rest(was + fed, 0, chunk)
      {
        var c := chunks[k];
        assert chunks[k..][1..] == chunks[k + 1..];
        Assoc(fed, c, Flatten(chunks[k + 1..]));
        NumberMore(was, fed, c, chunk, first);
        var more := OnChunk(c);
        pushed := pushed + more;
        fed := fed + c;
      }
      assert chunks[|chunks|..] == [] && fed + [] == fed;
    }
  }

  // ---------- one stream undoes the other

  /** Cutting the numbered pieces four bytes longer and dropping four bytes of each gives the pieces back. */
  lemma {:induction false} NumberThenRemove(pieces: seq<Bytes>, n: nat, counter: Word)
    requires forall p <- pieces :: |p| == n
    ensures var wire := Flatten(Numbered(pieces, counter));
            WithoutPrefixes(Pieces(wire, 0, n + 4), 4) == pieces && Rest(wire, 0, n + 4) == []
    decreases |pieces|
  {
    if pieces != [] {
      var others := Numbered(pieces[1..], Succ(counter));
      NumberThenRemove(pieces[1..], n, Succ(counter));
      assert Numbered(pieces, counter)[1..] == others;
      RemoveFirst(BytesOfWord(counter), pieces[0], Flatten(others), n);
      assert [pieces[0]] + pieces[1..] == pieces;
    }
  }

  lemma RemoveFirst(prefix: Bytes, piece: Bytes, rest: Bytes, n: nat)
    requires |prefix| == 4 && |piece| == n
    ensures var wire := (prefix + piece) + rest;
            && WithoutPrefixes(Pieces(wire, 0, n + 4), 4) == [piece] + WithoutPrefixes(Pieces(rest, 0, n + 4), 4)
            && Rest(wire, 0, n + 4) == Rest(rest, 0, n + 4)
  {
    FirstPieceOf(prefix + piece, rest, n + 4);
    WithoutFirstPrefix(prefix + piece, Pieces(rest, 0, n + 4), 4);
    assert (prefix + piece)[4..] == piece;
  }

  lemma {:induction false} FirstPieceOf(first: Bytes, rest: Bytes, n: nat)
    requires n > 0 && |first| == n
    ensures Pieces(first + rest, 0, n) == [first] + Pieces(rest, 0, n) && Rest(first + rest, 0, n) == Rest(rest, 0, n)
  {
    var wire := first + rest;
    assert wire[0..n] == first && wire[n..] == rest;
    PiecesShift(wire, n, 0, n);
  }

  lemma {:induction false} WithoutFirstPrefix(first: Bytes, rest: seq<Bytes>, cp: nat)
    ensures WithoutPrefixes([first] + rest, cp) == [WithoutPrefix(first, cp)] + WithoutPrefixes(rest, cp)
  {
    assert ([first] + rest)[1..] == rest;
  }

  /** The two streams in a row, each fed in chunks of its own, put out the pieces of the input. */
  method NumberAndRemove(n: nat, input: seq<Bytes>, wire: seq<Bytes>) returns (out: seq<Bytes>)
    requires Flatten(wire) == Flatten(Numbered(Pieces(Flatten(input), 0, n), 0))
    ensures out == Pieces(Flatten(input), 0, n)
  {
    var add := new AddCounterStream(n);
    var remove := new RemoveCpStream(n + 4, 4);
    assert [] + Flatten(input) == Flatten(input);
    var sent := add.Feed(input);
    assert [] + Flatten(wire) == Flatten(wire);
    out := remove.Feed(wire);
    PiecesSized(Flatten(input), 0, n);
    NumberThenRemove(Pieces(Flatten(input), 0, n), n, 0);
  }
}
