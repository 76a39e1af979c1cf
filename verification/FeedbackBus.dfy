/** The feedback-bus parser: re-frames a stream of words, arriving in arbitrary pieces, into packets. */
module FeedbackBus {
  import opened Words
  import opened MapMov
  import opened Seqs
  import opened Wrappers

  const TYPE_STREAM: Word := 1
  const TYPE_VECTOR: Word := 2
  const TYPE_RINGBUS: Word := 3
  const TYPE_FLUSH: Word := 0
  const VEC_TX_USER_DATA: Word := 5
  const FRAME_PRIMITIVE_WORDS: int := 4

  /** Header or body words that a comparison reads past the end are `undefined`: every comparison fails. */
  datatype WordLength = WordLength(error: bool, advance: Option<int>, mapmov: bool)

  predicate IsMapMov(v: seq<Word>) {
    |v| > 4 && v[0] == TYPE_VECTOR && v[4] == VEC_TX_USER_DATA
  }

  function FeedbackWordLength(v: seq<Word>): WordLength
    requires v != []
  {
    if v[0] == TYPE_STREAM || v[0] == TYPE_VECTOR then
      if |v| < 2 then WordLength(false, None, false)
      else if v[1] < HEADER_WORDS then WordLength(true, Some(1), false)
      else if IsMapMov(v) then WordLength(false, Some(PreMapMovCount(v[1]) + HEADER_WORDS), true)
      else WordLength(false, Some(v[1]), false)
    else if v[0] == TYPE_RINGBUS then
      if |v| >= 2 && (v[1] > HEADER_WORDS || v[1] < FRAME_PRIMITIVE_WORDS) then WordLength(true, Some(1), false)
      else WordLength(false, Some(HEADER_WORDS), false)
    else WordLength(v[0] != TYPE_FLUSH, Some(1), false)
  }

  /** What the parser notifies: a packet under its (type, vtype) tag, or a one-word header whose vtype is missing. */
  datatype Event = Packet(header: seq<Word>, body: seq<Word>) | Stray(kind: Word)

  type Events = seq<Event>

  function LeadingZeros(b: seq<Word>): (z: nat)
    ensures z <= |b| && (z < |b| ==> b[z] != 0)
    ensures forall i | 0 <= i < z :: b[i] == 0
  {
    if b == [] || b[0] != 0 then 0 else 1 + LeadingZeros(b[1..])
  }

  /** Leading zeros go, unless there is nothing else. */
  function Trim(b: seq<Word>): (t: seq<Word>)
    ensures |t| <= |b|
  {
    var z := LeadingZeros(b);
    if z == |b| then b else b[z..]
  }

  /** A complete, legal packet is at least a header long, and a user-data body is whole eight-word groups. */
  lemma LengthFacts(v: seq<Word>)
    requires v != [] && v[0] != 0
    ensures var l := FeedbackWordLength(v);
            && (!l.error && l.advance.Some? ==> l.advance.value >= HEADER_WORDS)
            && (!l.error && l.advance.None? ==> |v| == 1)
            && (l.mapmov ==> !l.error && IsMapMov(v) && (l.advance.value - HEADER_WORDS) % 8 == 0)
            && (IsMapMov(v) && !l.error ==> l.mapmov)
  {
  }

  lemma TrimFacts(b: seq<Word>)
    ensures (forall i | 0 <= i < |b| :: b[i] == 0) || (Trim(b) != [] && Trim(b)[0] != 0)
  {
  }

  /** The front of a trimmed buffer is a complete packet, or a lone header word that reads as one. */
  predicate Ready(s: seq<Word>) {
    s != [] && s[0] != 0 &&
    var l := FeedbackWordLength(s);
    !l.error && (l.advance.None? || l.advance.value <= |s|)
  }

  function FrontEvent(s: seq<Word>): Event
    requires Ready(s)
  {
    LengthFacts(s);
    match FeedbackWordLength(s).advance
    case None => Stray(s[0])
    case Some(n) => Packet(s[..HEADER_WORDS], s[HEADER_WORDS..n])
  }

  function AfterFront(s: seq<Word>): (rest: seq<Word>)
    requires Ready(s)
    ensures (|s| == 1 && rest == s) || |rest| <= |s| - HEADER_WORDS
  {
    LengthFacts(s);
    match FeedbackWordLength(s).advance
    case None => s
    case Some(n) => s[n..]
  }

  /** One scan of the buffer: what is notified, and what stays in the buffer. */
  function Scan(b: seq<Word>): (r: (Events, seq<Word>))
    decreases |b|
  {
    var s := Trim(b);
    if |b| < HEADER_WORDS then ([], b)
    else if !Ready(s) then ([], s)
    else
      var r := Scan(AfterFront(s));
      ([FrontEvent(s)] + r.0, r.1)
  }

  // ---------- user data

  /** What the user-data listener gets for one notification: a mapmov packet's header and expanded body. */
  function UserDataOf(e: Event): seq<(seq<Word>, seq<Word>)> {
    if e.Packet? && IsMapMov(e.header) && |e.body| % 8 == 0 then [(e.header, Accepted(e.body))] else []
  }

  function UserData(events: Events): seq<(seq<Word>, seq<Word>)> {
    if events == [] then [] else UserDataOf(events[0]) + UserData(events[1..])
  }

  lemma {:induction false} UserDataConcat(a: Events, b: Events)
    ensures UserData(a + b) == UserData(a) + UserData(b)
  {
    if a == [] {
      AddNothing(b);
    } else {
      UserDataConcat(a[1..], b);
      assert (a + b)[1..] == a[1..] + b;
      Assoc(UserDataOf(a[0]), UserData(a[1..]), UserData(b));
    }
  }

  lemma UserDataOne(e: Event)
    ensures UserData([e]) == UserDataOf(e)
  {
    assert UserDataOf(e) + [] == UserDataOf(e);
  }

  // ---------- the parser object

  function WordOfBytes(bytes: seq<Byte>, x: nat): Word
    requires x + 4 <= |bytes|
  {
    var b0: int, b1: int, b2: int, b3: int := bytes[x], bytes[x + 1], bytes[x + 2], bytes[x + 3];
    b0 + 0x100 * b1 + 0x1_0000 * b2 + 0x100_0000 * b3
  }

  function WordsOf(bytes: seq<Byte>): (w: seq<Word>)
    ensures |w| == |bytes| / 4
  {
    if |bytes| < 4 then []
    else [WordOfBytes(bytes, 0)] + WordsOf(bytes[4..])
  }

  lemma WordsOfStep(bytes: seq<Byte>, x: nat)
    requires x + 4 <= |bytes|
    ensures WordsOf(bytes[x..]) == [WordOfBytes(bytes, x)] + WordsOf(bytes[x + 4..])
  {
    assert bytes[x..][4..] == bytes[x + 4..];
    assert WordOfBytes(bytes[x..], 0) == WordOfBytes(bytes, x);
  }

  /** The words written out low byte first are read back, whatever they are. */
  lemma {:induction false} WordsOfBytes(ws: seq<Word>)
    ensures WordsOf(BytesOf(ws)) == ws
  {
    if ws != [] {
      var first, rest := BytesOfWord(ws[0]), BytesOf(ws[1..]);
      WordsOfBytes(ws[1..]);
      BytesOfWordMean(ws[0]);
      PartsOfConcat(first, rest);
      FourBytes(first, rest);
      SplitFirst(ws);
    }
  }

  lemma FourBytes(first: seq<Byte>, rest: seq<Byte>)
    requires |first| == 4
    ensures WordOfBytes(first + rest, 0) == WordOfBytes(first, 0)
  {
  }

  method ToWords(bytes: seq<Byte>) returns (words: seq<Word>)
    requires |bytes| % 4 == 0
    ensures words == WordsOf(bytes)
  {
    words := [];
    var x := 0;
    ghost var n := |bytes| / 4;
    assert bytes[0..] == bytes;
    while x < |bytes|
      invariant x == 4 * |words| && |words| <= n
      invariant words + WordsOf(bytes[x..]) == WordsOf(bytes)
    {
      WordsOfStep(bytes, x);
      Assoc(words, [WordOfBytes(bytes, x)], WordsOf(bytes[x + 4..]));
      words := words + [WordOfBytes(bytes, x)];
      x := x + 4;
    }
  }

  class Parser {
    var buf: seq<Word>
    var mapmov: Mapper
    // Everything notified so far: under a tag, and to the user-data listener.
    var events: Events
    var userData: seq<(seq<Word>, seq<Word>)>

    ghost predicate Valid()
      reads this, mapmov
    {
      mapmov.Valid() && userData == UserData(events)
    }

    constructor ()
      ensures Valid() && fresh(mapmov) && buf == [] && events == []
    {
      buf, events, userData := [], [], [];
      mapmov := new Mapper();
      new;
      mapmov.Reset();
    }

    method TrimZeros()
      modifies this`buf
      ensures buf == Trim(old(buf))
    {
      for i := 0 to |buf|
        invariant buf == old(buf) && i <= LeadingZeros(buf)
      {
        if buf[i] != 0 {
          if i != 0 {
            buf := buf[i..];
          }
          return;
        }
      }
    }

    /** Returns false where the mapper would throw. */
    method HandleMapMovPacket(header: seq<Word>, body: seq<Word>) returns (ok: bool)
      requires mapmov.Valid()
      modifies this`userData
      ensures ok == (|body| % 8 == 0)
      ensures userData == if ok then old(userData) + [(header, Accepted(body))] else old(userData)
    {
      var r := mapmov.Accept(body);
      ok := r.Ok?;
      if ok {
        userData := userData + [(header, r.value)];
      }
    }

    /** Notifies a packet; the parser's own listener expands user-data packets and never throws. */
    method EmitPacket(header: seq<Word>, body: seq<Word>)
      requires Valid()
      requires IsMapMov(header) ==> |body| % 8 == 0
      modifies this`events, this`userData
      ensures Valid() && events == old(events) + [Packet(header, body)]
    {
      UserDataConcat(events, [Packet(header, body)]);
      UserDataOne(Packet(header, body));
      if IsMapMov(header) {
        var ok := HandleMapMovPacket(header, body);
        assert ok;
      }
      events := events + [Packet(header, body)];
    }

    /** Notifies the packet at the front and drops it from the buffer; an `undefined` advance drops nothing. */
    method TakeFront(l: WordLength)
      requires Valid() && Ready(buf) && l == FeedbackWordLength(buf)
      modifies this`events, this`userData, this`buf
      ensures Valid() && buf == AfterFront(old(buf))
      ensures events == old(events) + [FrontEvent(old(buf))]
    {
      LengthFacts(buf);
      if l.advance.None? {
        UserDataConcat(events, [Stray(buf[0])]);
        UserDataOne(Stray(buf[0]));
        events := events + [Stray(buf[0])];
      } else {
        var n := l.advance.value;
        var packet := buf[..n];
        var header, body := packet[..HEADER_WORDS], packet[HEADER_WORDS..];
        assert header == buf[..HEADER_WORDS] && body == buf[HEADER_WORDS..n];
        assert IsMapMov(header) == IsMapMov(buf);
        EmitPacket(header, body);
        buf := buf[n..];
      }
    }

    method BufGotLonger()
      requires Valid()
      modifies this
      ensures Valid() && mapmov == old(mapmov)
      ensures events == old(events) + Scan(old(buf)).0 && buf == Scan(old(buf)).1
      decreases |buf|
    {
      if |buf| < HEADER_WORDS {
        return;
      }
      ghost var b, es := buf, events;
      TrimZeros();
      for i := 0 to |buf|
        invariant buf == Trim(b) && events == es && userData == old(userData)
        invariant mapmov == old(mapmov)
        invariant i > 0 ==> !Ready(buf)
      {
        if buf[i] != 0 {
          TrimFacts(b);
          var l := FeedbackWordLength(buf);
          if l.advance.Some? && l.advance.value > |buf| {
            return;
          }
          if !l.error {
            // Only ever at i == 0, so the slices from i are slices from the front.
            ghost var s := buf;
            TakeFront(l);
            Assoc(es, [FrontEvent(s)], Scan(AfterFront(s)).0);
            if |buf| >= HEADER_WORDS {
              BufGotLonger();
            }
            return;
          }
        }
      }
    }

    /** Returns false, changing nothing, where the source throws. */
    method GotPacket(bytes: seq<Byte>) returns (ok: bool)
      requires Valid()
      modifies this
      ensures Valid() && mapmov == old(mapmov)
      ensures ok == (|bytes| % 4 == 0)
      ensures !ok ==> buf == old(buf) && events == old(events)
      ensures ok ==> events == old(events) + Scan(old(buf) + WordsOf(bytes)).0
      ensures ok ==> buf == Scan(old(buf) + WordsOf(bytes)).1
    {
      if |bytes| % 4 != 0 {
        return false;
      }
      var words := ToWords(bytes);
      buf := buf + words;
      BufGotLonger();
      return true;
    }
  }
}
