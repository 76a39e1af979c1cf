/** What the feedback-bus parser promises about whole streams: piece boundaries do not matter, and frames round-trip. */
module FeedbackFraming {
  import opened Seqs
  import opened Wrappers
  import opened Words
  import opened MapMov
  import opened FeedbackBus

  // ---------- the parser as a function of the whole stream

  function Strip(b: seq<Word>): (s: seq<Word>)
    ensures |s| <= |b| && (s != [] ==> s[0] != 0)
  {
    b[LeadingZeros(b)..]
  }

  function Packets(events: Events): Events {
    if events == [] then [] else (if events[0].Packet? then [events[0]] else []) + Packets(events[1..])
  }

  /** All complete packets of a stream, and the unparsed suffix after the last one. */
  function Parse(b: seq<Word>): (r: (Events, seq<Word>))
    decreases |b|
  {
    var s := Strip(b);
    if |s| >= HEADER_WORDS && Ready(s) then
      var r := Parse(AfterFront(s));
      ([FrontEvent(s)] + r.0, r.1)
    else ([], b)
  }

  /** The parser's notifications and buffer after a run of pieces. */
  function Feed(buf: seq<Word>, chunks: seq<seq<Word>>): (r: (Events, seq<Word>))
    decreases |chunks|
  {
    if chunks == [] then ([], buf)
    else
      var first := Scan(buf + chunks[0]);
      var r := Feed(first.1, chunks[1..]);
      (first.0 + r.0, r.1)
  }

  // ---------- leading zeros

  lemma {:induction false} StripConcat(x: seq<Word>, y: seq<Word>)
    ensures Strip(x + y) == Strip(Strip(x) + y)
    ensures Strip(x) != [] ==> Strip(x + y) == Strip(x) + y
  {
    if x == [] {
      assert x + y == y && Strip(x) + y == y;
    } else if x[0] != 0 {
      assert Strip(x) == x;
      assert Strip(x + y) == x + y;
    } else {
      StripConcat(x[1..], y);
      assert (x + y)[1..] == x[1..] + y;
      assert Strip(x + y) == Strip(x[1..] + y) && Strip(x) == Strip(x[1..]);
    }
  }

  lemma StripMaximal(b: seq<Word>)
    ensures Strip(b) == [] <==> forall i | 0 <= i < |b| :: b[i] == 0
    ensures Strip(b) != [] ==> Trim(b) == Strip(b)
    ensures Strip(Trim(b)) == Strip(b)
  {
  }

  // ---------- parsing

  lemma {:induction false} ParseByStrip(x: seq<Word>, y: seq<Word>)
    requires Strip(x) == Strip(y)
    ensures Parse(x).0 == Parse(y).0
    ensures Strip(Parse(x).1) == Strip(Parse(y).1)
  {
  }

  /** A header decides its packet's length, whatever follows. */
  lemma ReadyExtends(s: seq<Word>, c: seq<Word>)
    requires |s| >= HEADER_WORDS && Ready(s)
    ensures Ready(s + c) && FrontEvent(s + c) == FrontEvent(s) && AfterFront(s + c) == AfterFront(s) + c
  {
    LengthFacts(s);
    assert FeedbackWordLength(s + c) == FeedbackWordLength(s);
    var n := FeedbackWordLength(s).advance.value;
    assert (s + c)[..HEADER_WORDS] == s[..HEADER_WORDS];
    assert (s + c)[HEADER_WORDS..n] == s[HEADER_WORDS..n];
    assert (s + c)[n..] == s[n..] + c;
  }

  /** Parsing a stream is parsing a prefix, then the leftover with the rest. */
  lemma {:induction false} ParseConcat(b: seq<Word>, c: seq<Word>)
    ensures Parse(b + c).0 == Parse(b).0 + Parse(Parse(b).1 + c).0
    ensures Parse(b + c).1 == Parse(Parse(b).1 + c).1
    decreases |b|
  {
    var s := Strip(b);
    if |s| >= HEADER_WORDS && Ready(s) {
      StripConcat(b, c);
      ReadyExtends(s, c);
      var rest := AfterFront(s);
      ParseConcat(rest, c);
      Assoc([FrontEvent(s)], Parse(rest).0, Parse(Parse(rest).1 + c).0);
    }
  }

  lemma {:induction false} ParseLeftover(b: seq<Word>)
    ensures Parse(Parse(b).1) == ([], Parse(b).1)
    decreases |b|
  {
    var s := Strip(b);
    if |s| >= HEADER_WORDS && Ready(s) {
      ParseLeftover(AfterFront(s));
    }
  }

  lemma {:induction false} PacketsConcat(a: Events, b: Events)
    ensures Packets(a + b) == Packets(a) + Packets(b)
  {
    if a == [] {
      AddNothing(b);
    } else {
      PacketsConcat(a[1..], b);
      assert (a + b)[1..] == a[1..] + b;
      Assoc(if a[0].Packet? then [a[0]] else [], Packets(a[1..]), Packets(b));
    }
  }

  /** A stray notification follows the packets exactly when sixteen or more unparsed words strip to a lone 1 or 2. */
  function StrayOf(tail: seq<Word>): Events {
    var s := Strip(tail);
    if |tail| >= HEADER_WORDS && |s| == 1 && (s[0] == TYPE_STREAM || s[0] == TYPE_VECTOR) then [Stray(s[0])] else []
  }

  /** One scan notifies all complete packets of the buffer, then possibly one stray. */
  lemma {:induction false} ScanIsParse(b: seq<Word>)
    ensures Scan(b).0 == Parse(b).0 + StrayOf(Parse(b).1)
    ensures Strip(Scan(b).1) == Strip(Parse(b).1)
    decreases |b|
  {
    StripMaximal(b);
    var s := Trim(b);
    if |b| >= HEADER_WORDS && Ready(s) {
      LengthFacts(s);
      if |s| >= HEADER_WORDS {
        ScanIsParse(AfterFront(s));
        Assoc([FrontEvent(s)], Parse(AfterFront(s)).0, StrayOf(Parse(AfterFront(s)).1));
      }
    }
  }

  lemma {:induction false} ParseHasOnlyPackets(b: seq<Word>)
    ensures Packets(Parse(b).0) == Parse(b).0
    decreases |b|
  {
    var s := Strip(b);
    if |s| >= HEADER_WORDS && Ready(s) {
      LengthFacts(s);
      ParseHasOnlyPackets(AfterFront(s));
      assert Parse(b).0[1..] == Parse(AfterFront(s)).0;
    }
  }

  lemma {:induction false} ScanPackets(b: seq<Word>)
    ensures Packets(Scan(b).0) == Parse(b).0
  {
    ScanIsParse(b);
    ParseHasOnlyPackets(b);
    PacketsConcat(Parse(b).0, StrayOf(Parse(b).1));
    assert Packets(StrayOf(Parse(b).1)) == [];
  }

  /** Leading zeros of the leftover make no difference to what follows. */
  lemma {:induction false} LeftoverByStrip(x: seq<Word>, y: seq<Word>, c: seq<Word>)
    requires Strip(x) == Strip(y)
    ensures Parse(x + c).0 == Parse(y + c).0
    ensures Strip(Parse(x + c).1) == Strip(Parse(y + c).1)
  {
    StripConcat(x, c);
    StripConcat(y, c);
    ParseByStrip(x + c, y + c);
  }

  /** Fed in any pieces, the parser notifies exactly the packets of the concatenated stream. */
  lemma {:induction false} FeedIsParse(buf: seq<Word>, chunks: seq<seq<Word>>)
    requires Parse(buf).0 == []
    ensures Packets(Feed(buf, chunks).0) == Parse(buf + Flatten(chunks)).0
    ensures Strip(Feed(buf, chunks).1) == Strip(Parse(buf + Flatten(chunks)).1)
    decreases |chunks|
  {
    if chunks == [] {
      AddNothing(buf);
    } else {
      var b, rest := buf + chunks[0], Flatten(chunks[1..]);
      var first := Scan(b);
      ScanIsParse(b);
      ScanPackets(b);
      ParseLeftover(b);
      ParseByStrip(first.1, Parse(b).1);
      FeedIsParse(first.1, chunks[1..]);
      LeftoverByStrip(first.1, Parse(b).1, rest);
      ParseConcat(b, rest);
      PacketsConcat(first.0, Feed(first.1, chunks[1..]).0);
      Assoc(buf, chunks[0], rest);
    }
  }

  lemma {:induction false} FreshFeed(chunks: seq<seq<Word>>)
    ensures Packets(Feed([], chunks).0) == Parse(Flatten(chunks)).0
    ensures Strip(Feed([], chunks).1) == Strip(Parse(Flatten(chunks)).1)
  {
    FeedIsParse([], chunks);
    assert [] + Flatten(chunks) == Flatten(chunks);
  }

  /** Any two ways of cutting one stream notify the same packets and leave the same words to be parsed. */
  lemma {:induction false} ChunkInvariance(c1: seq<seq<Word>>, c2: seq<seq<Word>>)
    requires Flatten(c1) == Flatten(c2)
    ensures Packets(Feed([], c1).0) == Packets(Feed([], c2).0)
    ensures Strip(Feed([], c1).1) == Strip(Feed([], c2).1)
  {
    FreshFeed(c1);
    FreshFeed(c2);
  }

  /** User data handed on depends on the packets only. */
  lemma {:induction false} UserDataOfPackets(events: Events)
    ensures UserData(events) == UserData(Packets(events))
  {
    if events != [] {
      var e, rest := events[0], events[1..];
      UserDataOfPackets(rest);
      if e.Packet? {
        UserDataConcat([e], Packets(rest));
        UserDataOne(e);
      } else {
        assert Packets(events) == Packets(rest);
      }
    }
  }

  /** A header word after zeros, alone or followed by a length, in one scan. */
  lemma {:induction false} HeaderAfterZeros(tail: seq<Word>)
    requires 0 < |tail| < HEADER_WORDS && tail[0] == TYPE_VECTOR
    ensures Scan(Repeat<Word>(0, 15) + tail) == (if |tail| == 1 then [Stray(TYPE_VECTOR)] else [], tail)
  {
    var b := Repeat<Word>(0, 15) + tail;
    StripZeros(15, tail);
    StripMaximal(b);
    LengthFacts(tail);
    assert Trim(b) == tail;
    assert [Stray(TYPE_VECTOR)] + [] == [Stray(TYPE_VECTOR)];
    assert Scan(tail) == ([], tail);
  }

  /** The stray notifications do depend on the cut: one stream, two cuts, one stray or none. */
  lemma StraysDependOnChunks(h: seq<Word>, t: seq<Word>)
    requires h == [TYPE_VECTOR] && t == [16]
    ensures Flatten([Repeat<Word>(0, 15) + (h + t)]) == Flatten([Repeat<Word>(0, 15) + h, t])
    ensures Feed([], [Repeat<Word>(0, 15) + (h + t)]).0 == []
    ensures Feed([], [Repeat<Word>(0, 15) + h, t]).0 == [Stray(TYPE_VECTOR)]
  {
    FlattenPair(Repeat<Word>(0, 15) + h, t);
    FlattenPair(Repeat<Word>(0, 15) + (h + t), t);
    Assoc(Repeat<Word>(0, 15), h, t);
    assert [] + (Repeat<Word>(0, 15) + (h + t)) == Repeat<Word>(0, 15) + (h + t);
    FeedOne([], Repeat<Word>(0, 15) + (h + t));
    HeaderAfterZeros(h + t);
    SplitCut(h, t);
  }

  lemma SplitCut(h: seq<Word>, t: seq<Word>)
    requires h == [TYPE_VECTOR] && t == [16]
    ensures Feed([], [Repeat<Word>(0, 15) + h, t]).0 == [Stray(TYPE_VECTOR)]
  {
    var cut := [Repeat<Word>(0, 15) + h, t];
    HeaderAfterZeros(h);
    assert [] + cut[0] == Repeat<Word>(0, 15) + h && cut[1..] == [t];
    FeedOne(h, t);
    assert Scan(h + t) == ([], h + t);
  }

  lemma {:induction false} FeedOne(buf: seq<Word>, c: seq<Word>)
    ensures Feed(buf, [c]) == Scan(buf + c)
  {
    assert Scan(buf + c).0 + [] == Scan(buf + c).0;
  }

  lemma FlattenPair(x: seq<Word>, y: seq<Word>)
    ensures Flatten([x]) == x && Flatten([x, y]) == x + y
  {
    assert [x, y][1..] == [y] && [x][1..] == [] && [y][1..] == [];
    assert y + [] == y && x + [] == x;
  }

  // ---------- when a stray is notified

  function Strays(events: Events): Events {
    if events == [] then [] else (if events[0].Stray? then [events[0]] else []) + Strays(events[1..])
  }

  /** A stray at every cut, but not at empty pieces, where the stream so far leaves a lone header word after zeros. */
  function CutStrays(before: seq<Word>, chunks: seq<seq<Word>>): Events
    decreases |chunks|
  {
    if chunks == [] then []
    else (if chunks[0] == [] then [] else StrayOf(Parse(before + chunks[0]).1))
         + CutStrays(before + chunks[0], chunks[1..])
  }

  lemma {:induction false} StraysConcat(a: Events, b: Events)
    ensures Strays(a + b) == Strays(a) + Strays(b)
  {
    if a == [] {
      AddNothing(b);
      AddNothing(Strays(b));
    } else {
      StraysConcat(a[1..], b);
      DropOfConcat(a, b, 1);
      Assoc(if a[0].Stray? then [a[0]] else [], Strays(a[1..]), Strays(b));
    }
  }

  lemma {:induction false} ParseHasNoStrays(b: seq<Word>)
    ensures Strays(Parse(b).0) == []
    decreases |b|
  {
    var s := Strip(b);
    if |s| >= HEADER_WORDS && Ready(s) {
      LengthFacts(s);
      ParseHasNoStrays(AfterFront(s));
      PartsOfConcat([FrontEvent(s)], Parse(AfterFront(s)).0);
    }
  }

  lemma {:induction false} ScanStrays(b: seq<Word>)
    ensures Strays(Scan(b).0) == StrayOf(Parse(b).1)
  {
    ScanIsParse(b);
    ParseHasNoStrays(b);
    StraysConcat(Parse(b).0, StrayOf(Parse(b).1));
    AddNothing(StrayOf(Parse(b).1));
  }

  /** Scanning again without new words changes nothing. */
  lemma {:induction false} ScanSettles(b: seq<Word>)
    ensures Scan(Scan(b).1) == ([], Scan(b).1)
    decreases |b|
  {
    var s := Trim(b);
    StripMaximal(b);
    if |b| >= HEADER_WORDS && Ready(s) {
      LengthFacts(s);
      if |s| >= HEADER_WORDS {
        ScanSettles(AfterFront(s));
      }
    } else {
      StripMaximal(s);
    }
  }

  /** Leftover zeros stay in the buffer as they are. */
  lemma {:induction false} ScanKeepsZeros(b: seq<Word>)
    requires Strip(Parse(b).1) == []
    ensures Scan(b).1 == Parse(b).1
    decreases |b|
  {
    var s := Trim(b);
    StripMaximal(b);
    if |b| >= HEADER_WORDS && Ready(s) {
      LengthFacts(s);
      if |s| >= HEADER_WORDS {
        ScanKeepsZeros(AfterFront(s));
      }
    }
  }

  /** The buffer after feeding a stream: settled, and what the stream leaves but for zeros before a header begun. */
  predicate BufferOf(before: seq<Word>, buf: seq<Word>) {
    var tail := Parse(before).1;
    Strip(buf) == Strip(tail) && (Strip(buf) == [] ==> buf == tail) && Scan(buf) == ([], buf)
  }

  /** The next piece leaves the same as if nothing had been trimmed, but for zeros before a header that has begun. */
  lemma {:induction false} SameLeftover(before: seq<Word>, buf: seq<Word>, c: seq<Word>)
    requires BufferOf(before, buf) && c != []
    ensures StrayOf(Parse(buf + c).1) == StrayOf(Parse(before + c).1)
    ensures Strip(Parse(buf + c).1) == Strip(Parse(before + c).1)
    ensures Strip(Parse(buf + c).1) == [] ==> Parse(buf + c).1 == Parse(before + c).1
  {
    ParseConcat(before, c);
    if Strip(buf) != [] {
      HeaderBegun(buf, Parse(before).1, c);
    }
  }

  lemma {:induction false} HeaderBegun(x: seq<Word>, y: seq<Word>, c: seq<Word>)
    requires Strip(x) == Strip(y) != [] && c != []
    ensures StrayOf(Parse(x + c).1) == StrayOf(Parse(y + c).1)
    ensures Strip(Parse(x + c).1) == Strip(Parse(y + c).1)
    ensures Strip(Parse(x + c).1) == [] ==> Parse(x + c).1 == Parse(y + c).1
  {
    StripConcat(x, c);
    StripConcat(y, c);
    ParseByFront(x + c, Strip(x) + c);
    ParseByFront(y + c, Strip(x) + c);
  }

  /** What is left is what is left after the front packet; or all of it, which is no lone header word. */
  lemma {:induction false} ParseByFront(b: seq<Word>, s: seq<Word>)
    requires Strip(b) == s && |s| > 1
    ensures if |s| >= HEADER_WORDS && Ready(s) then Parse(b).1 == Parse(AfterFront(s)).1
            else Parse(b).1 == b && StrayOf(b) == []
  {
  }

  lemma {:induction false} PieceKeepsBuffer(before: seq<Word>, buf: seq<Word>, c: seq<Word>)
    requires BufferOf(before, buf) && c != []
    ensures BufferOf(before + c, Scan(buf + c).1)
  {
    SameLeftover(before, buf, c);
    ScanIsParse(buf + c);
    ScanSettles(buf + c);
    if Strip(Parse(buf + c).1) == [] {
      ScanKeepsZeros(buf + c);
    }
  }

  lemma {:induction false} StraysFrom(before: seq<Word>, buf: seq<Word>, chunks: seq<seq<Word>>)
    requires BufferOf(before, buf)
    ensures Strays(Feed(buf, chunks).0) == CutStrays(before, chunks)
    decreases |chunks|
  {
    if chunks != [] {
      var c, first := chunks[0], Scan(buf + chunks[0]);
      StraysConcat(first.0, Feed(first.1, chunks[1..]).0);
      if c == [] {
        AddNothing(buf);
        AddNothing(before);
        StraysFrom(before, buf, chunks[1..]);
      } else {
        ScanStrays(buf + c);
        SameLeftover(before, buf, c);
        PieceKeepsBuffer(before, buf, c);
        StraysFrom(before + c, first.1, chunks[1..]);
      }
    }
  }

  /** For every stream and every way of cutting it, exactly these strays are notified. */
  lemma {:induction false} StraysExactly(chunks: seq<seq<Word>>)
    ensures Strays(Feed([], chunks).0) == CutStrays([], chunks)
  {
    StraysFrom([], [], chunks);
  }

  // ---------- a bad header

  /** No packet is ever notified again, whatever follows. */
  ghost predicate Blocked(b: seq<Word>) {
    forall c: seq<Word> :: Parse(b + c).0 == []
  }

  predicate BadHeader(b: seq<Word>) {
    Strip(b) != [] && FeedbackWordLength(Strip(b)).error
  }

  lemma ErrorExtends(v: seq<Word>, c: seq<Word>)
    requires v != [] && FeedbackWordLength(v).error
    ensures v + c != [] && FeedbackWordLength(v + c).error
  {
  }

  lemma {:induction false} NothingReady(b: seq<Word>, s: seq<Word>)
    requires Strip(b) == s && s != [] && FeedbackWordLength(s).error
    ensures Parse(b).0 == []
  {
  }

  /** Words that complete a header which is not bad to a packet. */
  function Completion(s: seq<Word>): seq<Word> {
    if s == [] then [TYPE_RINGBUS, HEADER_WORDS] + Repeat<Word>(0, 14)
    else if |s| == 1 then [HEADER_WORDS] + Repeat<Word>(0, 14)
    else Repeat<Word>(0, s[1] + HEADER_WORDS)
  }

  lemma CompletionLength(s: seq<Word>)
    requires s != [] && s[0] != 0 && !FeedbackWordLength(s).error
    ensures var v := s + Completion(s);
            |v| >= HEADER_WORDS && !FeedbackWordLength(v).error && FeedbackWordLength(v).advance.Some?
            && FeedbackWordLength(v).advance.value <= |v|
  {
    var v := s + Completion(s);
    assert v[0] == s[0];
    if |s| == 1 {
      assert v[1] == HEADER_WORDS;
    } else {
      assert v[1] == s[1];
      ExpansionGrows(v[1]);
    }
  }

  lemma ExpansionGrows(y: nat)
    ensures y >= HEADER_WORDS ==> PreMapMovCount(y) + HEADER_WORDS <= y
  {
  }

  lemma {:induction false} CompletionIsPacket(b: seq<Word>)
    requires !BadHeader(b)
    ensures Parse(b + Completion(Strip(b))).0 != []
  {
    var s, c := Strip(b), Completion(Strip(b));
    StripConcat(b, c);
    if s == [] {
      AddNothing(c);
      assert Strip(c) == c && FeedbackWordLength(c) == WordLength(false, Some(HEADER_WORDS), false);
    } else {
      CompletionLength(s);
    }
  }

  lemma {:induction false} BadHeaderStays(b: seq<Word>, c: seq<Word>)
    requires BadHeader(b)
    ensures Parse(b + c).0 == []
  {
    StripConcat(b, c);
    ErrorExtends(Strip(b), c);
    NothingReady(b + c, Strip(b) + c);
  }

  /** The scan always looks at the front of the buffer again, so a bad header there is the end; and nothing else is. */
  lemma BlockedByBadHeader(b: seq<Word>)
    ensures Blocked(b) <==> BadHeader(b)
  {
    if BadHeader(b) {
      forall c: seq<Word> ensures Parse(b + c).0 == [] {
        BadHeaderStays(b, c);
      }
    } else {
      CompletionIsPacket(b);
    }
  }

  /** However a stream is cut, its packets end for good exactly when a bad header heads what it leaves unparsed. */
  lemma {:induction false} PacketsEndForGood(chunks: seq<seq<Word>>)
    ensures (forall more: seq<seq<Word>> :: Packets(Feed([], chunks + more).0) == Packets(Feed([], chunks).0))
            <==> BadHeader(Feed([], chunks).1)
  {
    var b := Parse(Flatten(chunks)).1;
    FreshFeed(chunks);
    BlockedByBadHeader(b);
    forall more: seq<seq<Word>>
      ensures Packets(Feed([], chunks + more).0) == Packets(Feed([], chunks).0) + Parse(b + Flatten(more)).0
    {
      FreshFeed(chunks + more);
      FlattenConcat(chunks, more);
      ParseConcat(Flatten(chunks), Flatten(more));
    }
    if !BadHeader(b) {
      var c: seq<Word> :| Parse(b + c).0 != [];
      FlattenPair(c, []);
      assert Packets(Feed([], chunks + [c]).0) != Packets(Feed([], chunks).0);
    }
  }

  // ---------- frames

  datatype Frame = Frame(header: seq<Word>, body: seq<Word>)

  /**
   * A frame whose type and length word go with its body: streams, 1, and vectors, 2, count all their words, but user
   * data, sub-type 5, has eight words to every 1024 counted; a ringbus frame, 3, has no body and a length of 4 to 16.
   */
  predicate Legal(f: Frame) {
    && |f.header| == 16
    && var kind, length: int, n := f.header[0], f.header[1], |f.body|;
    if kind == 3 then 4 <= length <= 16 && n == 0
    else if kind == 2 && f.header[4] == 5 then length >= 16 && n == (length - 16) / 1024 * 8
    else (kind == 1 || kind == 2) && length == 16 + n
  }

  /** Frames on the wire, a run of zeros before each and one at the end. */
  function Wire(frames: seq<Frame>, gaps: seq<nat>): seq<Word>
    requires |gaps| == |frames| + 1
  {
    Repeat<Word>(0, gaps[0]) +
    if frames == [] then [] else frames[0].header + (frames[0].body + Wire(frames[1..], gaps[1..]))
  }

  function PacketsOf(frames: seq<Frame>): Events {
    if frames == [] then [] else [Packet(frames[0].header, frames[0].body)] + PacketsOf(frames[1..])
  }

  /** The parser takes exactly header and body of a legal frame, and of no other. */
  lemma TakenIffLegal(f: Frame, rest: seq<Word>)
    requires |f.header| == HEADER_WORDS && f.header[0] != 0
    ensures var s := f.header + (f.body + rest);
            Legal(f) <==> Ready(s) && FrontEvent(s) == Packet(f.header, f.body) && AfterFront(s) == rest
  {
    var s := f.header + (f.body + rest);
    LengthFacts(s);
    LengthByHeader(f.header, f.body + rest);
    FrontParts(f.header, f.body, rest);
  }

  /** What the length of the packet at the front is, by its header. */
  lemma LengthByHeader(header: seq<Word>, rest: seq<Word>)
    requires |header| == HEADER_WORDS && header[0] != 0
    ensures var l := FeedbackWordLength(header + rest);
            && l.advance.Some?
            && forall n: nat :: !l.error && l.advance.value == HEADER_WORDS + n
                                <==> Legal(Frame(header, Repeat<Word>(0, n)))
  {
    assert (header + rest)[0] == header[0] && (header + rest)[1] == header[1] && (header + rest)[4] == header[4];
  }

  lemma FrontParts(header: seq<Word>, body: seq<Word>, rest: seq<Word>)
    requires |header| == HEADER_WORDS
    ensures var s := header + (body + rest);
            s[..HEADER_WORDS] == header && s[HEADER_WORDS..HEADER_WORDS + |body|] == body
            && s[HEADER_WORDS + |body|..] == rest
  {
  }

  lemma FrameIsReady(f: Frame, rest: seq<Word>)
    requires Legal(f)
    ensures var s := f.header + (f.body + rest);
            Ready(s) && FrontEvent(s) == Packet(f.header, f.body) && AfterFront(s) == rest
  {
    TakenIffLegal(f, rest);
  }

  lemma {:induction false} StripZeros(n: nat, s: seq<Word>)
    requires s == [] || s[0] != 0
    ensures Strip(Repeat<Word>(0, n) + s) == s
  {
    StripMaximal(Repeat<Word>(0, n));
    StripConcat(Repeat<Word>(0, n), s);
    assert [] + s == s;
    assert LeadingZeros(s) == 0;
  }

  lemma {:induction false} WireParses(frames: seq<Frame>, gaps: seq<nat>)
    requires |gaps| == |frames| + 1 && forall f | f in frames :: Legal(f)
    ensures Parse(Wire(frames, gaps)).0 == PacketsOf(frames)
    ensures Strip(Parse(Wire(frames, gaps)).1) == []
    decreases |frames|
  {
    if frames == [] {
      StripZeros(gaps[0], []);
    } else {
      var rest := Wire(frames[1..], gaps[1..]);
      var s := frames[0].header + (frames[0].body + rest);
      FrameIsReady(frames[0], rest);
      StripZeros(gaps[0], s);
      WireParses(frames[1..], gaps[1..]);
    }
  }

  /** Legal frames, joined by any runs of zeros and cut anywhere, come out once each, in order, with exact bodies. */
  lemma {:induction false} FramingRoundTrip(frames: seq<Frame>, gaps: seq<nat>, chunks: seq<seq<Word>>)
    requires |gaps| == |frames| + 1 && forall f | f in frames :: Legal(f)
    requires Flatten(chunks) == Wire(frames, gaps)
    ensures Packets(Feed([], chunks).0) == PacketsOf(frames)
    ensures Strip(Feed([], chunks).1) == []
  {
    FreshFeed(chunks);
    WireParses(frames, gaps);
  }

  /** A user-data frame with the expanded length comes out whole exactly when its body is whole eight-word groups. */
  lemma MapMovFrameExact(f: Frame)
    requires |f.header| == HEADER_WORDS && IsMapMov(f.header) && f.header[1] == PostMapMovCount(|f.body|)
    ensures Parse(f.header + f.body).0 == [Packet(f.header, f.body)] <==> |f.body| % 8 == 0
  {
    var s := f.header + f.body;
    assert s[0] == f.header[0] && s[1] == f.header[1] && s[4] == f.header[4];
    PreOfPostRoundsUp(|f.body|);
    if |f.body| % 8 == 0 {
      assert f.body + [] == f.body;
      FrameIsReady(f, []);
    } else {
      assert !Ready(s);
    }
  }

  // ---------- building frames

  const DST_PC: Word := 0x4000_0000
  const DST_HIGGS: Word := 0x8000_0000

  datatype LengthResult = Set(header: seq<Word>) | NegativeLength

  /** A fresh vector or stream header; the PC flag overrides the Higgs flag. */
  function NewHeader(kind: Word, destinations: Word, deliverHiggs: bool, deliverPc: bool, vtype: Word): (h: seq<Word>)
    ensures |h| == HEADER_WORDS
  {
    [kind, 0, destinations, if deliverPc then DST_PC else if deliverHiggs then DST_HIGGS else 0, vtype]
    + Repeat<Word>(0, 11)
  }

  function SetLength(header: seq<Word>, length: int): LengthResult
    requires |header| == HEADER_WORDS && HEADER_WORDS + length < TWO_32
  {
    if length < 0 then NegativeLength else Set(header[1 := HEADER_WORDS + length])
  }

  /** The library's own headers with their own length are legal for every type but user data, and only then. */
  lemma BuiltFramesAreLegal(kind: Word, destinations: Word, higgs: bool, pc: bool, vtype: Word, body: seq<Word>)
    requires kind == TYPE_STREAM || kind == TYPE_VECTOR
    requires HEADER_WORDS + |body| < TWO_32
    ensures var r := SetLength(NewHeader(kind, destinations, higgs, pc, vtype), |body|);
            r.Set? && (Legal(Frame(r.header, body)) <==>
                         !(kind == TYPE_VECTOR && vtype == VEC_TX_USER_DATA) || body == [])
  {
    PreOfPostRoundsUp(|body|);
  }

  // ---------- the parser object on bytes

  function WordChunks(chunks: seq<seq<Byte>>): (w: seq<seq<Word>>)
    ensures |w| == |chunks|
  {
    if chunks == [] then [] else [WordsOf(chunks[0])] + WordChunks(chunks[1..])
  }

  lemma {:induction false} WordsOfConcat(a: seq<Byte>, b: seq<Byte>)
    requires |a| % 4 == 0
    ensures WordsOf(a + b) == WordsOf(a) + WordsOf(b)
    decreases |a|
  {
    if a == [] {
      AddNothing(b);
    } else {
      assert (a + b)[4..] == a[4..] + b;
      assert WordOfBytes(a + b, 0) == WordOfBytes(a, 0);
      WordsOfConcat(a[4..], b);
      Assoc([WordOfBytes(a, 0)], WordsOf(a[4..]), WordsOf(b));
    }
  }

  lemma {:induction false} WordChunksFlatten(chunks: seq<seq<Byte>>)
    requires forall c | c in chunks :: |c| % 4 == 0
    ensures Flatten(WordChunks(chunks)) == WordsOf(Flatten(chunks))
  {
    if chunks != [] {
      WordChunksFlatten(chunks[1..]);
      WordsOfConcat(chunks[0], Flatten(chunks[1..]));
      assert WordChunks(chunks)[1..] == WordChunks(chunks[1..]);
    }
  }

  lemma {:induction false} FeedStep(buf: seq<Word>, chunks: seq<seq<Word>>, c: seq<Word>)
    ensures var r := Feed(buf, chunks);
            Feed(buf, chunks + [c]) == (r.0 + Scan(r.1 + c).0, Scan(r.1 + c).1)
    decreases |chunks|
  {
    if chunks == [] {
      assert chunks + [c] == [c];
      FeedOne(buf, c);
      assert [] + Scan(buf + c).0 == Scan(buf + c).0;
    } else {
      var first := Scan(buf + chunks[0]);
      FeedStep(first.1, chunks[1..], c);
      assert (chunks + [c])[1..] == chunks[1..] + [c];
      var r := Feed(first.1, chunks[1..]);
      Assoc(first.0, r.0, Scan(r.1 + c).0);
    }
  }

  /** A fresh parser given whole-word byte pieces notifies the packets, and the user data, of the whole stream. */
  method Deliver(chunks: seq<seq<Byte>>) returns (p: Parser)
    requires forall c | c in chunks :: |c| % 4 == 0
    ensures Packets(p.events) == Parse(WordsOf(Flatten(chunks))).0
    ensures p.userData == UserData(Parse(WordsOf(Flatten(chunks))).0)
    ensures Strip(p.buf) == Strip(Parse(WordsOf(Flatten(chunks))).1)
  {
    p := new Parser();
    for i := 0 to |chunks|
      invariant p.Valid() && fresh(p) && fresh(p.mapmov)
      invariant (p.events, p.buf) == Feed([], WordChunks(chunks)[..i])
    {
      WordChunkAt(chunks, i);
      FeedStep([], WordChunks(chunks)[..i], WordsOf(chunks[i]));
      assert WordChunks(chunks)[..i + 1] == WordChunks(chunks)[..i] + [WordsOf(chunks[i])];
      var ok := p.GotPacket(chunks[i]);
    }
    assert WordChunks(chunks)[..|chunks|] == WordChunks(chunks);
    FreshFeed(WordChunks(chunks));
    WordChunksFlatten(chunks);
    UserDataOfPackets(p.events);
  }

  /** Legal frames written out as bytes, whole words in each piece, are the stream of the frames. */
  lemma {:induction false} BytesOfFrames(frames: seq<Frame>, gaps: seq<nat>, chunks: seq<seq<Byte>>)
    requires |gaps| == |frames| + 1 && Flatten(chunks) == BytesOf(Wire(frames, gaps))
    requires forall c | c in chunks :: |c| % 4 == 0
    ensures Flatten(WordChunks(chunks)) == Wire(frames, gaps) == WordsOf(Flatten(chunks))
  {
    WordChunksFlatten(chunks);
    WordsOfBytes(Wire(frames, gaps));
  }

  /** Legal frames as bytes, joined by any runs of zeros and cut anywhere between words, all come out of the parser. */
  method DeliverFrames(ghost frames: seq<Frame>, ghost gaps: seq<nat>, chunks: seq<seq<Byte>>) returns (p: Parser)
    requires |gaps| == |frames| + 1 && forall f | f in frames :: Legal(f)
    requires Flatten(chunks) == BytesOf(Wire(frames, gaps)) && forall c | c in chunks :: |c| % 4 == 0
    ensures Packets(p.events) == PacketsOf(frames) && p.userData == UserData(PacketsOf(frames))
    ensures Strip(p.buf) == []
  {
    p := Deliver(chunks);
    BytesOfFrames(frames, gaps, chunks);
    WireParses(frames, gaps);
  }

  lemma {:induction false} WordChunkAt(chunks: seq<seq<Byte>>, i: nat)
    requires i < |chunks|
    ensures WordChunks(chunks)[i] == WordsOf(chunks[i])
  {
    if i > 0 {
      WordChunkAt(chunks[1..], i - 1);
    }
  }
}
