/** Text over the ringbus: three characters a word on the way out, split at zero characters on the way in. */
module Rpc {
  import opened Seqs
  import opened Words

  // A text is a sequence of 16-bit character codes.
  type Code = c: int | 0 <= c < 0x1_0000
  type Text = seq<Code>

  const NODEJS_RCP_PCCMD: nat := 0x2300_0000

  // ---------- splitting at zeros

  /** What has come since the last zero, and the texts delivered. */
  datatype Splitter = Splitter(tail: Text, delivered: seq<Text>)

  function Feed(s: Splitter, c: Code): Splitter {
    if c != 0 then s.(tail := s.tail + [c])
    else Splitter([], if s.tail == [] then s.delivered else s.delivered + [s.tail])
  }

  function FeedAll(s: Splitter, text: Text): Splitter
    decreases |text|
  {
    if text == [] then s else FeedAll(Feed(s, text[0]), text[1..])
  }

  /** Decoding bytes as ascii drops the top bit of each. */
  function Ascii(data: seq<Byte>): (t: Text)
    ensures |t| == |data|
  {
    if data == [] then [] else [data[0] % 128] + Ascii(data[1..])
  }

  lemma {:induction false} FeedConcat(s: Splitter, a: Text, b: Text)
    ensures FeedAll(s, a + b) == FeedAll(FeedAll(s, a), b)
    decreases |a|
  {
    if a == [] {
      AddNothing(b);
    } else {
      DropOfConcat(a, b, 1);
      FeedConcat(Feed(s, a[0]), a[1..], b);
    }
  }

  lemma {:induction false} AsciiConcat(a: seq<Byte>, b: seq<Byte>)
    ensures Ascii(a + b) == Ascii(a) + Ascii(b)
  {
    if a == [] {
      AddNothing(b);
    } else {
      DropOfConcat(a, b, 1);
      AsciiConcat(a[1..], b);
      Assoc([a[0] % 128], Ascii(a[1..]), Ascii(b));
    }
  }

  lemma {:induction false} FeedOneMore(s: Splitter, a: Text, c: Code)
    ensures FeedAll(s, a + [c]) == Feed(FeedAll(s, a), c)
  {
    FeedConcat(s, a, [c]);
    assert FeedAll(FeedAll(s, a), [c]) == FeedAll(Feed(FeedAll(s, a), c), []);
  }

  /** Characters other than zero only pile up. */
  lemma {:induction false} FeedPlain(s: Splitter, text: Text)
    requires 0 !in text
    ensures FeedAll(s, text) == Splitter(s.tail + text, s.delivered)
    decreases |text|
  {
    if text == [] {
      assert s.tail + text == s.tail;
    } else {
      FeedPlain(Feed(s, text[0]), text[1..]);
      MoveFirst(s.tail, text);
    }
  }

  predicate Clean(buffer: Text, prev: nat, i: nat)
    requires i <= |buffer|
  {
    forall k :: prev <= k < i ==> buffer[k] != 0
  }

  /** What is still to come of a scan that has delivered some texts and is looking at index i. */
  function Scan(buffer: Text, prev: nat, i: nat, delivered: seq<Text>): Splitter
    requires prev <= i <= |buffer|
  {
    FeedAll(Splitter(buffer[prev..i], delivered), buffer[i..])
  }

  lemma {:induction false} ScanStart(tail: Text, delivered: seq<Text>, more: Text)
    requires 0 !in tail
    ensures Scan(tail + more, 0, 0, delivered) == FeedAll(Splitter(tail, delivered), more)
  {
    var buffer := tail + more;
    assert buffer[0..0] == [] && buffer[0..] == buffer && [] + tail == tail;
    FeedPlain(Splitter([], delivered), tail);
    FeedConcat(Splitter([], delivered), tail, more);
  }

  /** The texts before index prev have been delivered, and what is to come leads to goal. */
  ghost predicate Scanning(buffer: Text, prev: nat, i: nat, delivered: seq<Text>, goal: Splitter) {
    prev <= i <= |buffer| && Clean(buffer, prev, i) && Scan(buffer, prev, i, delivered) == goal
  }

  lemma ScanStep(buffer: Text, prev: nat, i: nat, delivered: seq<Text>, goal: Splitter)
    requires i < |buffer| && Scanning(buffer, prev, i, delivered, goal)
    ensures buffer[i] != 0 ==> Scanning(buffer, prev, i + 1, delivered, goal)
    ensures prev <= i
    ensures buffer[i] == 0 ==>
              Scanning(buffer, i + 1, i + 1, if prev != i then delivered + [buffer[prev..i]] else delivered, goal)
  {
    TailOfTail(buffer, i);
    OneMore(buffer, prev, i);
    assert buffer[i + 1..i + 1] == [];
  }

  lemma ScanEnd(buffer: Text, prev: nat, delivered: seq<Text>, goal: Splitter)
    requires Scanning(buffer, prev, |buffer|, delivered, goal)
    ensures prev <= |buffer| && 0 !in buffer[prev..] && goal == Splitter(buffer[prev..], delivered)
    ensures buffer[0..] == buffer
  {
    assert buffer[|buffer|..] == [] && buffer[prev..|buffer|] == buffer[prev..];
  }

  class NullBufferSplit {
    var stringBuffer: Text
    var delivered: seq<Text>

    /** Between calls the buffer holds no zero. */
    predicate Valid()
      reads this
    {
      0 !in stringBuffer
    }

    function View(): Splitter
      reads this
    {
      Splitter(stringBuffer, delivered)
    }

    constructor ()
      ensures Valid() && View() == Splitter([], [])
    {
      stringBuffer, delivered := [], [];
    }

    /** Looks at the whole buffer again each time; an empty text is not delivered. */
    method AddData(data: seq<Byte>)
      requires Valid()
      modifies this
      ensures Valid() && View() == FeedAll(old(View()), Ascii(data))
    {
      var asStr := Ascii(data);
      ghost var goal := FeedAll(View(), asStr);
      ScanStart(stringBuffer, delivered, asStr);
      stringBuffer := stringBuffer + asStr;
      var buffer := stringBuffer;
      var largestSlice := -1;
      var prevSlice := 0;
      var i := 0;
      while i < |buffer|
        invariant 0 <= prevSlice && i <= |buffer| && prevSlice == largestSlice + 1
        invariant stringBuffer == buffer && Scanning(buffer, prevSlice, i, delivered, goal)
      {
        ScanStep(buffer, prevSlice, i, delivered, goal);
        if buffer[i] == 0 {
          if prevSlice != i {
            delivered := delivered + [buffer[prevSlice..i]];
          }
          largestSlice := i;
          prevSlice := i + 1;
        }
        i := i + 1;
      }
      ScanEnd(buffer, prevSlice, delivered, goal);
      if largestSlice != -1 {
        stringBuffer := stringBuffer[largestSlice + 1..];
      }
    }

    /** A word off the ringbus: its three low bytes, highest first. */
    method OnRing(x: nat)
      requires Valid()
      modifies this
      ensures Valid() && View() == FeedAll(old(View()), Ascii(Unpack(x)))
    {
      AddData([x / 0x1_0000 % 256, x / 256 % 256, x % 256]);
    }

    /** Words as they come, one by one. */
    method OnRingWords(words: seq<nat>)
      requires Valid()
      modifies this
      ensures Valid() && View() == FeedAll(old(View()), Ascii(UnpackAll(words)))
    {
      for k := 0 to |words|
        invariant Valid() && View() == FeedAll(old(View()), Ascii(UnpackAll(words[..k])))
      {
        OneMoreWord(old(View()), words[..k], words[k]);
        FirstAndOneMore(words, k);
        OnRing(words[k]);
      }
      assert words[..|words|] == words;
    }
  }

  // ---------- packing three characters a word

  function Unpack(x: nat): (b: seq<Byte>)
    ensures |b| == 3
  {
    [x / 0x1_0000 % 256, x / 256 % 256, x % 256]
  }

  function UnpackAll(words: seq<nat>): seq<Byte> {
    if words == [] then [] else Unpack(words[0]) + UnpackAll(words[1..])
  }

  /** The low byte of each character. */
  function Low(text: Text): (b: seq<Byte>)
    ensures |b| == |text|
  {
    if text == [] then [] else [text[0] % 256] + Low(text[1..])
  }

  /** Up to three bytes in the low half of a word, the first one highest; the places are disjoint, so + is or. */
  function Value(held: seq<Byte>): nat
    requires |held| <= 3
  {
    (if |held| > 0 then held[0] as int * 0x1_0000 else 0) + (if |held| > 1 then held[1] as int * 256 else 0)
    + if |held| > 2 then held[2] as int else 0
  }

  /** The words sent for the rest of a text when held is already in the word being filled. */
  function PackFrom(held: seq<Byte>, text: Text): seq<nat>
    requires |held| < 3
    decreases |text|
  {
    if text == [] then [NODEJS_RCP_PCCMD]
    else
      var more := held + [text[0] % 256];
      if |more| == 3 || |text| == 1 then [NODEJS_RCP_PCCMD + Value(more)] + PackFrom([], text[1..])
      else PackFrom(more, text[1..])
  }

  function Pack(text: Text): seq<nat> {
    PackFrom([], text)
  }

  function PackAll(texts: seq<Text>): seq<nat> {
    if texts == [] then [] else Pack(texts[0]) + PackAll(texts[1..])
  }

  /** The words sent for the first i characters, and the word being filled. */
  ghost predicate Packing(str: Text, i: nat, sent: seq<nat>, word: int, held: seq<Byte>) {
    && i <= |str| && |held| < 3 && word == Value(held)
    && (if i < |str| then |held| == i % 3 else held == [])
    && sent + PackFrom(held, str[i..]) == Pack(str)
  }

  lemma PackStep(str: Text, i: nat, sent: seq<nat>, word: nat, held: seq<Byte>)
    requires i < |str| && Packing(str, i, sent, word, held)
    ensures var c: int, place := str[i], if i % 3 == 0 then 0x1_0000 else if i % 3 == 1 then 256 else 1;
            var more, word' := held + [c % 256], word + c % 256 * place;
            if i % 3 == 2 || i + 1 == |str| then Packing(str, i + 1, sent + [NODEJS_RCP_PCCMD + word'], 0, [])
            else Packing(str, i + 1, sent, word', more)
  {
    var more := held + [str[i] % 256];
    TailOfTail(str, i);
    assert PackFrom(held, str[i..])
        == if i % 3 == 2 || i + 1 == |str| then [NODEJS_RCP_PCCMD + Value(more)] + PackFrom([], str[i + 1..])
           else PackFrom(more, str[i + 1..]);
    Assoc(sent, [NODEJS_RCP_PCCMD + Value(more)], PackFrom([], str[i + 1..]));
  }

  method SendToHiggsRpcRaw(str: Text) returns (sent: seq<nat>)
    ensures sent == Pack(str)
  {
    var word: nat := 0;
    ghost var held: seq<Byte> := [];
    sent := [];
    var i := 0;
    NothingPacked(str);
    while i < |str|
      invariant 0 <= i <= |str| && Packing(str, i, sent, word, held)
    {
      PackStep(str, i, sent, word, held);
      var c: int := str[i];
      var mod := i % 3;
      if mod == 0 {
        word := word + c % 256 * 0x1_0000;
      } else if mod == 1 {
        word := word + c % 256 * 256;
      } else {
        word := word + c % 256;
      }
      held := held + [c % 256];
      if mod == 2 || i + 1 == |str| {
        sent := sent + [NODEJS_RCP_PCCMD + word];
        word := 0;
        held := [];
      }
      i := i + 1;
    }
    sent := sent + [NODEJS_RCP_PCCMD];
  }

  lemma NothingPacked(str: Text)
    ensures Packing(str, 0, [], 0, [])
  {
    assert str[0..] == str;
  }

  /** A text with one zero byte after it. */
  function Prepare(text: Text): seq<Byte> {
    Low(text) + [0]
  }

  /** Every word of a packed text goes out as the command 0x23. */
  lemma {:induction false} PackedAreCommands(held: seq<Byte>, text: Text)
    requires |held| < 3
    ensures forall w | w in PackFrom(held, text) :: w / 0x100_0000 == 0x23
    decreases |text|
  {
    if text != [] {
      var more := held + [text[0] % 256];
      CommandWord(more);
      PackedAreCommands(if |more| == 3 || |text| == 1 then [] else more, text[1..]);
    } else {
      CommandWord([]);
    }
  }

  lemma CommandWord(held: seq<Byte>)
    requires |held| <= 3
    ensures (NODEJS_RCP_PCCMD + Value(held)) / 0x100_0000 == 0x23
  {
  }

  // ---------- the round trip

  lemma ThreePlaces(x: nat, a: Byte, b: Byte, c: Byte)
    requires x == NODEJS_RCP_PCCMD + a as int * 0x1_0000 + b as int * 256 + c as int
    ensures Unpack(x) == [a, b, c]
  {
    var low := b as int * 256 + c as int;
    assert x == (0x2300 + a as int) * 0x1_0000 + low && low < 0x1_0000;
    assert x / 0x1_0000 == 0x2300 + a as int && (0x2300 + a as int) % 256 == a as int;
    assert x / 256 == (0x23_0000 + a as int * 256) + b as int;
  }

  lemma {:induction false} UnpackValue(held: seq<Byte>, x: nat)
    requires |held| <= 3 && x == NODEJS_RCP_PCCMD + Value(held)
    ensures Unpack(x) == held + Repeat<Byte>(0, 3 - |held|)
  {
    var a: Byte := if |held| > 0 then held[0] else 0;
    var b: Byte := if |held| > 1 then held[1] else 0;
    var c: Byte := if |held| > 2 then held[2] else 0;
    ThreePlaces(x, a, b, c);
    PadToThree(held, a, b, c);
  }

  lemma {:induction false} PadToThree(held: seq<Byte>, a: Byte, b: Byte, c: Byte)
    requires |held| <= 3
    requires a == (if |held| > 0 then held[0] else 0) && b == (if |held| > 1 then held[1] else 0)
    requires c == if |held| > 2 then held[2] else 0
    ensures held + Repeat<Byte>(0, 3 - |held|) == [a, b, c]
  {
  }

  lemma {:induction false} UnpackConcat(a: seq<nat>, b: seq<nat>)
    ensures UnpackAll(a + b) == UnpackAll(a) + UnpackAll(b)
  {
    if a == [] {
      AddNothing(b);
    } else {
      DropOfConcat(a, b, 1);
      UnpackConcat(a[1..], b);
      Assoc(Unpack(a[0]), UnpackAll(a[1..]), UnpackAll(b));
    }
  }

  lemma UnpackOne(x: nat)
    ensures UnpackAll([x]) == Unpack(x)
  {
    assert UnpackAll([x]) == Unpack(x) + [];
  }

  lemma {:induction false} FeedWord(s: Splitter, word: nat, rest: seq<nat>)
    ensures FeedAll(s, Ascii(UnpackAll([word] + rest)))
            == FeedAll(FeedAll(s, Ascii(Unpack(word))), Ascii(UnpackAll(rest)))
  {
    UnpackConcat([word], rest);
    UnpackOne(word);
    AsciiConcat(Unpack(word), UnpackAll(rest));
    FeedConcat(s, Ascii(Unpack(word)), Ascii(UnpackAll(rest)));
  }

  /** Zeros with nothing before them do nothing. */
  lemma {:induction false} MoreZeros(s: Splitter, n: nat)
    requires s.tail == []
    ensures FeedAll(s, Ascii(Repeat<Byte>(0, n))) == s
    decreases n
  {
    if n > 0 {
      assert Ascii(Repeat<Byte>(0, n))[1..] == Ascii(Repeat<Byte>(0, n - 1));
      MoreZeros(s, n - 1);
    }
  }

  /** What follows the first zero in a word, and the word that ends a text, change nothing. */
  lemma {:induction false} PackFeeds(s: Splitter, held: seq<Byte>, text: Text)
    requires |held| < 3 && (text == [] ==> held == [])
    ensures FeedAll(s, Ascii(UnpackAll(PackFrom(held, text)))) == Feed(FeedAll(s, Ascii(held + Low(text))), 0)
    decreases |text|
  {
    if text == [] {
      EndWord(s);
      assert held + Low(text) == [];
    } else {
      var c, rest := text[0] % 256, text[1..];
      var more := held + [c];
      Assoc(held, [c], Low(rest));
      if |more| == 3 || |text| == 1 {
        var t := FeedAll(s, Ascii(more + Repeat<Byte>(0, 3 - |more|)));
        PackFeeds(t, [], rest);
        assert [] + Low(rest) == Low(rest);
        CompleteWord(s, more, Low(rest), PackFrom([], rest));
      } else {
        PackFeeds(s, more, rest);
      }
    }
  }

  lemma {:induction false} EndWord(s: Splitter)
    ensures FeedAll(s, Ascii(UnpackAll([NODEJS_RCP_PCCMD]))) == Feed(s, 0)
  {
    UnpackValue([], NODEJS_RCP_PCCMD);
    UnpackOne(NODEJS_RCP_PCCMD);
    assert [] + Repeat<Byte>(0, 3) == Repeat<Byte>(0, 3) && Ascii(Repeat<Byte>(0, 3))[1..] == Ascii(Repeat<Byte>(0, 2));
    MoreZeros(Feed(s, 0), 2);
  }

  /** A word with the bytes in it, padded if nothing follows in the text. */
  lemma CompleteWord(s: Splitter, more: seq<Byte>, low: seq<Byte>, rest: seq<nat>)
    requires |more| <= 3 && (|more| == 3 || low == [])
    requires var t := FeedAll(s, Ascii(more + Repeat<Byte>(0, 3 - |more|)));
             FeedAll(t, Ascii(UnpackAll(rest))) == Feed(FeedAll(t, Ascii(low)), 0)
    ensures FeedAll(s, Ascii(UnpackAll([NODEJS_RCP_PCCMD + Value(more)] + rest)))
            == Feed(FeedAll(s, Ascii(more + low)), 0)
  {
    var word := NODEJS_RCP_PCCMD + Value(more);
    FeedWord(s, word, rest);
    UnpackValue(more, word);
    PaddingIsHarmless(s, more, 3 - |more|, low);
  }

  lemma {:induction false} PaddingIsHarmless(s: Splitter, more: seq<Byte>, n: nat, rest: seq<Byte>)
    requires n == 0 || rest == []
    ensures Feed(FeedAll(FeedAll(s, Ascii(more + Repeat<Byte>(0, n))), Ascii(rest)), 0)
            == Feed(FeedAll(s, Ascii(more + rest)), 0)
  {
    AddNothing(more);
    if n == 0 {
      AsciiConcat(more, rest);
      FeedConcat(s, Ascii(more), Ascii(rest));
    } else {
      AsciiConcat(more, Repeat<Byte>(0, n));
      FeedConcat(s, Ascii(more), Ascii(Repeat<Byte>(0, n)));
      ZerosEndText(FeedAll(s, Ascii(more)), n);
    }
  }

  lemma {:induction false} ZerosEndText(s: Splitter, n: nat)
    requires n > 0
    ensures Feed(FeedAll(s, Ascii(Repeat<Byte>(0, n))), 0) == Feed(s, 0)
  {
    assert Repeat<Byte>(0, n)[1..] == Repeat<Byte>(0, n - 1);
    MoreZeros(Feed(s, 0), n - 1);
  }

  predicate Plain(text: Text) {
    forall i :: 0 <= i < |text| ==> 1 <= text[i] <= 127
  }

  /** Not empty, and every character survives the byte and the ascii decoding and is not the separator. */
  predicate Legal(text: Text) {
    text != [] && Plain(text)
  }

  predicate AllLegal(texts: seq<Text>) {
    forall i :: 0 <= i < |texts| ==> Legal(texts[i])
  }

  lemma {:induction false} AsciiOfLow(text: Text)
    requires Plain(text)
    ensures Ascii(Low(text)) == text
  {
    if text != [] {
      AsciiOfLow(text[1..]);
      assert [text[0]] + text[1..] == text;
    }
  }

  lemma {:induction false} LegalIsDelivered(s: Splitter, text: Text)
    requires s.tail == [] && Legal(text)
    ensures Feed(FeedAll(s, Ascii(Low(text))), 0) == Splitter([], s.delivered + [text])
  {
    AsciiOfLow(text);
    FeedPlain(s, text);
    assert [] + text == text;
  }

  lemma {:induction false} AllAreDelivered(s: Splitter, texts: seq<Text>)
    requires s.tail == [] && AllLegal(texts)
    ensures FeedAll(s, Ascii(UnpackAll(PackAll(texts)))) == Splitter([], s.delivered + texts)
    decreases |texts|
  {
    if texts == [] {
      assert s.delivered + texts == s.delivered;
    } else {
      var words, rest := Pack(texts[0]), PackAll(texts[1..]);
      UnpackConcat(words, rest);
      AsciiConcat(UnpackAll(words), UnpackAll(rest));
      FeedConcat(s, Ascii(UnpackAll(words)), Ascii(UnpackAll(rest)));
      PackFeeds(s, [], texts[0]);
      assert [] + Low(texts[0]) == Low(texts[0]);
      LegalIsDelivered(s, texts[0]);
      AllAreDelivered(Splitter([], s.delivered + [texts[0]]), texts[1..]);
      MoveFirst(s.delivered, texts);
    }
  }

  /** Only legal texts ever come out. */
  lemma {:induction false} OnlyLegalComesOut(s: Splitter, data: seq<Byte>)
    requires AllLegal(s.delivered) && (s.tail != [] ==> Legal(s.tail))
    ensures AllLegal(FeedAll(s, Ascii(data)).delivered)
    decreases |data|
  {
    if data != [] {
      var t := Feed(s, Ascii(data)[0]);
      assert AllLegal(t.delivered) && (t.tail != [] ==> Legal(t.tail));
      assert Ascii(data)[1..] == Ascii(data[1..]);
      OnlyLegalComesOut(t, data[1..]);
    }
  }

  function FeedChunks(s: Splitter, chunks: seq<seq<Byte>>): Splitter
    decreases |chunks|
  {
    if chunks == [] then s else FeedChunks(FeedAll(s, Ascii(chunks[0])), chunks[1..])
  }

  lemma {:induction false} ChunkInvariance(s: Splitter, chunks: seq<seq<Byte>>)
    ensures FeedChunks(s, chunks) == FeedAll(s, Ascii(Flatten(chunks)))
    decreases |chunks|
  {
    if chunks != [] {
      ChunkInvariance(FeedAll(s, Ascii(chunks[0])), chunks[1..]);
      AsciiConcat(chunks[0], Flatten(chunks[1..]));
      FeedConcat(s, Ascii(chunks[0]), Ascii(Flatten(chunks[1..])));
    }
  }

  const START: Splitter := Splitter([], [])

  lemma {:induction false} Decoded(texts: seq<Text>)
    ensures var s := FeedAll(START, Ascii(UnpackAll(PackAll(texts))));
            && (s.delivered == texts <==> AllLegal(texts))
            && (AllLegal(texts) ==> s == Splitter([], texts))
  {
    if AllLegal(texts) {
      AllAreDelivered(START, texts);
      assert START.delivered + texts == texts;
    }
    OnlyLegalComesOut(START, UnpackAll(PackAll(texts)));
  }

  /**
    * Any texts, packed into words, unpacked and fed to the splitter in any chunks, come out as exactly the same list
    * if and only if none is empty and all their characters lie in 1..127.
    */
  lemma {:induction false} RoundTrip(texts: seq<Text>, chunks: seq<seq<Byte>>)
    requires Flatten(chunks) == UnpackAll(PackAll(texts))
    ensures FeedChunks(START, chunks) == Splitter([], texts) <==> AllLegal(texts)
  {
    ChunkInvariance(START, chunks);
    Decoded(texts);
  }

  /** The same holds for texts that are sent with a zero byte after each. */
  lemma {:induction false} PreparedRoundTrip(text: Text, chunks: seq<seq<Byte>>)
    requires Flatten(chunks) == Prepare(text)
    ensures FeedChunks(START, chunks) == Splitter([], [text]) <==> Legal(text)
  {
    ChunkInvariance(START, chunks);
    AsciiConcat(Low(text), [0]);
    assert Ascii([0]) == [0 % 128] + Ascii([]) == [0];
    FeedOneMore(START, Ascii(Low(text)), 0);
    if Legal(text) {
      LegalIsDelivered(START, text);
      assert START.delivered + [text] == [text];
    }
    OnlyLegalComesOut(START, Prepare(text));
    var t := FeedChunks(START, chunks);
    assert t == Splitter([], [text]) ==> Legal(t.delivered[0]);
  }

  /** Sender and receiver joined by the ringbus, one word at a time. */
  method Converse(texts: seq<Text>) returns (heard: seq<Text>)
    ensures heard == texts <==> AllLegal(texts)
  {
    var split := new NullBufferSplit();
    ghost var words: seq<nat> := [];
    assert [] + PackAll(texts) == PackAll(texts);
    for i := 0 to |texts|
      invariant split.Valid() && fresh(split)
      invariant words + PackAll(texts[i..]) == PackAll(texts)
      invariant split.View() == FeedAll(START, Ascii(UnpackAll(words)))
    {
      assert texts[i..][1..] == texts[i + 1..];
      var sent := SendToHiggsRpcRaw(texts[i]);
      Assoc(words, sent, PackAll(texts[i + 1..]));
      split.OnRingWords(sent);
      UnpackConcat(words, sent);
      AsciiConcat(UnpackAll(words), UnpackAll(sent));
      FeedConcat(START, Ascii(UnpackAll(words)), Ascii(UnpackAll(sent)));
      words := words + sent;
    }
    assert words + [] == words && PackAll(texts[|texts|..]) == [];
    heard := split.delivered;
    Decoded(texts);
  }

  lemma {:induction false} OneMoreWord(s: Splitter, words: seq<nat>, x: nat)
    ensures FeedAll(s, Ascii(UnpackAll(words + [x]))) == FeedAll(FeedAll(s, Ascii(UnpackAll(words))), Ascii(Unpack(x)))
  {
    UnpackConcat(words, [x]);
    UnpackOne(x);
    AsciiConcat(UnpackAll(words), Unpack(x));
    FeedConcat(s, Ascii(UnpackAll(words)), Ascii(Unpack(x)));
  }
}
