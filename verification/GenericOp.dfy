/** The generic operator: a variable's value travels as two half words, and is put together again on arrival. */
module GenericOp {
  import opened Seqs
  import opened Wrappers

  // ---------- sending

  const GET: bv32 := 4

  function OpCode(operation: string): bv32 {
    if operation == "zero" then 0
    else if operation == "add" then 1
    else if operation == "sub" then 2
    else if operation == "set" then 3
    else GET // "get", and every illegal name
  }

  function OpWords(code: bv32, sel: bv32, val: bv32, rbType: bv32): (words: seq<bv32>)
    ensures |words| == 2
  {
    var valLow := val & 0xffff;
    var valHigh := (val >> 16) & 0xffff;
    var opSel := (code | ((sel & 0xf) << 4)) << 16;
    var opSelHigh := opSel | 0x80000;
    [opSel | valLow | rbType, opSelHigh | valHigh | rbType]
  }

  /** The two ringbus words of an operation: low half first, then high half with bit 19 set. */
  function Op(operation: string, sel: bv32, val: bv32, rbType: bv32): (words: seq<bv32>)
    ensures |words| == 2
  {
    OpWords(OpCode(operation), sel, val, rbType)
  }

  // ---------- what a word says

  // The variable and the operation on it.
  datatype Key = Key(op: bv32, sel: bv32)

  datatype Message = Message(high: bool, key: Key, data: bv32)

  function Decode(w: bv32): Message {
    Message((w >> 19) & 1 == 1, Key((w >> 16) & 7, (w >> 20) & 0xf), w & 0xffff)
  }

  function Join(low: bv32, high: bv32): bv32 {
    ((high << 16) & 0xffff_0000) | low
  }

  datatype Call = Call(sel: bv32, value: bv32)

  /** The low half that waits for its high half, and what it belongs to. */
  datatype Store = Store(data: bv32, key: Option<Key>)

  const START: Store := Store(0, None)

  function Step(s: Store, m: Message): Store {
    if !m.high then Store(m.data, Some(m.key))
    else if s.key == Some(m.key) && m.key.op == GET then s
    else s.(key := None)
  }

  function CallsOf(s: Store, m: Message): seq<Call> {
    if m.high && s.key == Some(m.key) && m.key.op == GET then [Call(m.key.sel, Join(s.data, m.data))] else []
  }

  function Run(s: Store, ms: seq<Message>): Store
    decreases |ms|
  {
    if ms == [] then s else Run(Step(s, ms[0]), ms[1..])
  }

  function Calls(s: Store, ms: seq<Message>): seq<Call>
    decreases |ms|
  {
    if ms == [] then [] else CallsOf(s, ms[0]) + Calls(Step(s, ms[0]), ms[1..])
  }

  // ---------- the two receivers

  // -1 as a 32-bit word.
  const NO_OP: bv32 := 0xffff_ffff

  function Dmode(data: bv32): bv32 {
    (data >> 16) & 0xff
  }

  /** How a receiver stores an operation and selector: together, in the places they have in the word. */
  function Packed(key: Key): bv32 {
    key.op | (key.sel << 4)
  }

  predicate Fits(key: Key) {
    key.op & 7 == key.op && key.sel & 0xf == key.sel
  }

  lemma PackedIsInjective(a: Key, b: Key)
    requires Fits(a) && Fits(b)
    ensures Packed(a) == Packed(b) <==> a == b
    ensures Packed(a) != NO_OP
  {
    PackedParts(a.op, a.sel);
    PackedParts(b.op, b.sel);
  }

  lemma PackedParts(op: bv32, sel: bv32)
    requires op & 7 == op && sel & 0xf == sel
    ensures (op | (sel << 4)) & 7 == op && ((op | (sel << 4)) >> 4) & 0xf == sel
    ensures (op | (sel << 4)) != 0xffff_ffff
  {
  }

  lemma DecodeParts(data: bv32)
    ensures Fits(Decode(data).key)
    ensures var dmode := Dmode(data);
            && dmode & 7 == Decode(data).key.op
            && ((dmode & 8) >> 3 == 0 <==> !Decode(data).high)
            && (dmode & 0xf0) >> 4 == Decode(data).key.sel
            && dmode & (7 | 0xf0) == Packed(Decode(data).key)
  {
  }

  /** What a receiver reads off a word says the same as the word. */
  predicate ReadsAs(m: Message, op: bv32, high: bv32, sel: bv32, opSel: bv32, data16: bv32) {
    && op == m.key.op && (high == 0 <==> !m.high) && sel == m.key.sel && data16 == m.data
    && opSel == Packed(m.key) && Fits(m.key)
  }

  /** The storage fields of a receiver as a store. */
  ghost predicate Stores(storage: bv32, storageOp: bv32, s: Store) {
    && s.data == storage
    && match s.key
       case None => storageOp == NO_OP
       case Some(key) => Fits(key) && storageOp == Packed(key)
  }

  /** What the branches of a receiver do to its fields is what a step does to the store. */
  lemma BranchesAreSteps(storage: bv32, storageOp: bv32, s: Store, m: Message,
                         op: bv32, high: bv32, sel: bv32, opSel: bv32, data16: bv32)
    requires Stores(storage, storageOp, s) && ReadsAs(m, op, high, sel, opSel, data16)
    ensures high == 0 ==> Stores(data16, opSel, Step(s, m)) && CallsOf(s, m) == []
    ensures high != 0 && (storageOp != opSel || op != GET) ==>
              Stores(storage, NO_OP, Step(s, m)) && CallsOf(s, m) == []
    ensures high != 0 && storageOp == opSel && op == GET ==>
              Stores(storage, storageOp, Step(s, m)) && CallsOf(s, m) == [Call(sel, Join(storage, data16))]
  {
    SameKey(storage, storageOp, s, m.key);
  }

  lemma SameKey(storage: bv32, storageOp: bv32, s: Store, key: Key)
    requires Stores(storage, storageOp, s) && Fits(key)
    ensures storageOp == Packed(key) <==> s.key == Some(key)
  {
    PackedIsInjective(key, key);
    if s.key.Some? {
      PackedIsInjective(s.key.value, key);
    }
  }

  /** The same for a receiver that keeps the absence of an operation apart. */
  ghost predicate Keeps(storage: bv32, storageOp: Option<bv32>, s: Store) {
    Stores(storage, if storageOp.Some? then storageOp.value else NO_OP, s) && storageOp.Some? == s.key.Some?
  }

  lemma KeptBranchesAreSteps(storage: bv32, storageOp: Option<bv32>, s: Store, m: Message,
                             op: bv32, high: bv32, sel: bv32, opSel: bv32, data16: bv32)
    requires Keeps(storage, storageOp, s) && ReadsAs(m, op, high, sel, opSel, data16)
    ensures high == 0 ==> Keeps(data16, Some(opSel), Step(s, m)) && CallsOf(s, m) == []
    ensures high != 0 && (storageOp != Some(opSel) || op != GET) ==>
              Keeps(storage, None, Step(s, m)) && CallsOf(s, m) == []
    ensures high != 0 && storageOp == Some(opSel) && op == GET ==>
              Keeps(storage, storageOp, Step(s, m)) && CallsOf(s, m) == [Call(sel, Join(storage, data16))]
  {
    SameKey(storage, if storageOp.Some? then storageOp.value else NO_OP, s, m.key);
  }

  class DispatchGeneric {
    var hasCallback: bool
    var mask: bv32
    var storage: bv32
    var storageOp: bv32
    var calls: seq<Call>
    ghost var store: Store

    ghost predicate Valid()
      reads this
    {
      Stores(storage, storageOp, store)
    }

    constructor ()
      ensures Valid() && store == START && !hasCallback && mask == 0 && calls == []
    {
      hasCallback, mask, storage, storageOp, calls, store := false, 0, 0, NO_OP, [], START;
    }

    method SetCallback(mask: bv32)
      requires Valid()
      modifies this`hasCallback, this`mask
      ensures Valid() && hasCallback && this.mask == mask
    {
      hasCallback, this.mask := true, mask;
    }

    /** Words of another type, and all words before a callback is set, are passed over. */
    method GotWord(w: bv32)
      requires Valid()
      modifies this`storage, this`storageOp, this`calls, this`store
      ensures Valid()
      ensures var ms := if hasCallback then Matching([w], mask) else [];
              store == Run(old(store), ms) && calls == old(calls) + Calls(old(store), ms)
    {
      AddNothing(calls);
      if !hasCallback {
        return;
      }
      var kind := w & 0xff00_0000;
      MatchingOne(w, mask);
      OneMessage(store, Decode(w));
      if kind == mask {
        GotMatchingWord(w);
      }
    }

    static method ReadFields(data: bv32) returns (op: bv32, high: bv32, sel: bv32, opSel: bv32, data16: bv32)
      ensures ReadsAs(Decode(data), op, high, sel, opSel, data16)
    {
      DecodeParts(data);
      var dmode := (data >> 16) & 0xff;
      data16 := data & 0xffff;
      op := dmode & 0x7;
      high := (dmode & 0x8) >> 3;
      sel := (dmode & 0xf0) >> 4;
      opSel := dmode & (0x7 | 0xf0);
    }

    method GotMatchingWord(data: bv32)
      requires Valid()
      modifies this`storage, this`storageOp, this`calls, this`store
      ensures Valid() && store == Step(old(store), Decode(data))
      ensures calls == old(calls) + CallsOf(old(store), Decode(data))
    {
      var op, high, sel, opSel, data16 := ReadFields(data);
      BranchesAreSteps(storage, storageOp, store, Decode(data), op, high, sel, opSel, data16);
      AddNothing(calls);
      store := Step(store, Decode(data));
      if high == 0 {
        storage := data16;
        storageOp := opSel;
        return;
      }
      if storageOp != opSel {
        storageOp := NO_OP;
        return;
      }
      if op != 4 {
        storageOp := NO_OP;
        return;
      }
      var fullValue := ((data16 << 16) & 0xffff_0000) | storage;
      calls := calls + [Call(sel, fullValue)];
    }
  }

  /** The other receiver; its -1 is the absence of a stored operation. */
  class HandleOok {
    var storage: bv32
    var storageOp: Option<bv32>
    var calls: seq<Call>
    ghost var store: Store

    ghost predicate Valid()
      reads this
    {
      Keeps(storage, storageOp, store)
    }

    constructor ()
      ensures Valid() && store == START && calls == []
    {
      storage, storageOp, calls, store := 0, None, [], START;
    }

    static method ReadFields(data: bv32) returns (op: bv32, high: bv32, sel: bv32, opSel: bv32, data16: bv32)
      ensures ReadsAs(Decode(data), op, high, sel, opSel, data16)
    {
      DecodeParts(data);
      var dmode := (data >> 16) & 0xff;
      data16 := data & 0xffff;
      op := dmode & (0x7 >> 0);
      high := (dmode & 0x8) >> 3;
      sel := (dmode & 0xf0) >> 4;
      opSel := dmode & (0x7 | 0xf0);
    }

    method GotGenericOpRingbus(data: bv32)
      requires Valid()
      modifies this
      ensures Valid() && store == Step(old(store), Decode(data))
      ensures calls == old(calls) + CallsOf(old(store), Decode(data))
    {
      var op, high, sel, opSel, data16 := ReadFields(data);
      KeptBranchesAreSteps(storage, storageOp, store, Decode(data), op, high, sel, opSel, data16);
      AddNothing(calls);
      store := Step(store, Decode(data));
      if high == 0 {
        storage := data16;
        storageOp := Some(opSel);
        return;
      }
      if storageOp != Some(opSel) {
        storageOp := None;
        return;
      }
      if op != 4 {
        storageOp := None;
        return;
      }
      var fullValue := ((data16 << 16) & 0xffff_0000) | storage;
      calls := calls + [Call(sel, fullValue)];
    }
  }

  predicate Typed(w: bv32, mask: bv32) {
    w & 0xff00_0000 == mask
  }

  /** The words of one type, decoded. */
  function Matching(words: seq<bv32>, mask: bv32): seq<Message> {
    if words == [] then []
    else (if Typed(words[0], mask) then [Decode(words[0])] else []) + Matching(words[1..], mask)
  }

  lemma {:induction false} OneMessage(s: Store, m: Message)
    ensures Run(s, [m]) == Step(s, m) && Calls(s, [m]) == CallsOf(s, m)
  {
    assert Run(s, [m]) == Run(Step(s, m), []);
    assert Calls(s, [m]) == CallsOf(s, m) + Calls(Step(s, m), []);
  }

  lemma {:induction false} RunConcat(s: Store, a: seq<Message>, b: seq<Message>)
    ensures Run(s, a + b) == Run(Run(s, a), b) && Calls(s, a + b) == Calls(s, a) + Calls(Run(s, a), b)
    decreases |a|
  {
    if a == [] {
      assert a + b == b && [] + Calls(s, b) == Calls(s, b);
    } else {
      DropOfConcat(a, b, 1);
      RunConcat(Step(s, a[0]), a[1..], b);
      Assoc(CallsOf(s, a[0]), Calls(Step(s, a[0]), a[1..]), Calls(Run(s, a), b));
    }
  }

  lemma {:induction false} MatchingConcat(a: seq<bv32>, b: seq<bv32>, mask: bv32)
    ensures Matching(a + b, mask) == Matching(a, mask) + Matching(b, mask)
  {
    if a == [] {
      assert a + b == b && [] + Matching(b, mask) == Matching(b, mask);
    } else {
      DropOfConcat(a, b, 1);
      MatchingConcat(a[1..], b, mask);
      Assoc(if Typed(a[0], mask) then [Decode(a[0])] else [], Matching(a[1..], mask), Matching(b, mask));
    }
  }

  lemma {:induction false} OneMoreWord(words: seq<bv32>, i: nat, mask: bv32)
    requires i < |words|
    ensures var before, now := Matching(words[..i], mask), Matching([words[i]], mask);
            && Run(START, Matching(words[..i + 1], mask)) == Run(Run(START, before), now)
            && Calls(START, Matching(words[..i + 1], mask)) == Calls(START, before) + Calls(Run(START, before), now)
    ensures Matching([words[i]], mask) == if Typed(words[i], mask) then [Decode(words[i])] else []
  {
    assert words[..i + 1] == words[..i] + [words[i]];
    MatchingConcat(words[..i], [words[i]], mask);
    RunConcat(START, Matching(words[..i], mask), Matching([words[i]], mask));
    MatchingOne(words[i], mask);
  }

  lemma {:induction false} MatchingOne(w: bv32, mask: bv32)
    ensures Matching([w], mask) == if Typed(w, mask) then [Decode(w)] else []
  {
    assert Matching([w], mask) == (if Typed(w, mask) then [Decode(w)] else []) + Matching([], mask);
  }

  // ---------- both receivers make the same calls

  /** On any stream, the one that filters by type calls back exactly as the other does on the words of that type. */
  method ReceiversAgree(words: seq<bv32>, mask: bv32) returns (native: seq<Call>, script: seq<Call>)
    ensures native == script == Calls(START, Matching(words, mask))
  {
    var d := new DispatchGeneric();
    d.SetCallback(mask);
    var h := new HandleOok();
    for i := 0 to |words|
      invariant d.Valid() && h.Valid() && d.hasCallback && d.mask == mask && fresh(d) && fresh(h)
      invariant d.store == h.store == Run(START, Matching(words[..i], mask))
      invariant d.calls == h.calls == Calls(START, Matching(words[..i], mask))
    {
      OneMoreWord(words, i, mask);
      d.GotWord(words[i]);
      if Typed(words[i], mask) {
        OneMessage(h.store, Decode(words[i]));
        h.GotGenericOpRingbus(words[i]);
      }
    }
    assert words[..|words|] == words;
    native, script := d.calls, h.calls;
  }

  // ---------- when a call is made

  /** Message j is a low half with this key, and only high halves with the same key have come since. */
  ghost predicate Waiting(ms: seq<Message>, j: nat, key: Key) {
    && j < |ms| && !ms[j].high && ms[j].key == key
    && forall i :: j < i < |ms| ==> ms[i].high && ms[i].key == key
  }

  lemma WaitingGrows(ms: seq<Message>, m: Message, j: nat, key: Key)
    requires j < |ms|
    ensures Waiting(ms + [m], j, key) <==> Waiting(ms, j, key) && m.high && m.key == key
  {
    var all := ms + [m];
    assert all[|ms|] == m && forall i :: 0 <= i < |ms| ==> all[i] == ms[i];
  }

  /** The store holds a low half to get exactly when one is waiting, and it holds the latest. */
  lemma {:induction false} StoreMeaning(ms: seq<Message>, key: Key)
    requires key.op == GET
    ensures Run(START, ms).key == Some(key) <==> exists j: nat :: Waiting(ms, j, key)
    ensures forall j: nat :: Waiting(ms, j, key) ==> Run(START, ms).data == ms[j].data
    decreases |ms|
  {
    if ms != [] {
      var before, m := ms[..|ms| - 1], ms[|ms| - 1];
      assert ms == before + [m];
      StoreMeaning(before, key);
      RunConcat(START, before, [m]);
      OneMessage(Run(START, before), m);
      forall j: nat | j < |before|
        ensures Waiting(ms, j, key) <==> Waiting(before, j, key) && m.high && m.key == key
      {
        WaitingGrows(before, m, j, key);
      }
      if !m.high && m.key == key {
        assert Waiting(ms, |before|, key);
      }
      if Run(START, ms).key == Some(key) && m.high {
        var j: nat :| Waiting(before, j, key);
        assert Waiting(ms, j, key);
      }
    }
  }

  /**
    * After any stream, a message calls back if and only if it is a high half of a get whose low half came last among
    * the low halves, with nothing but high halves of the same get since. The call carries both halves.
    */
  lemma {:induction false} CallExactly(ms: seq<Message>, m: Message)
    ensures CallsOf(Run(START, ms), m) != []
            <==> m.high && m.key.op == GET && exists j: nat :: Waiting(ms, j, m.key)
    ensures forall j: nat :: Waiting(ms, j, m.key) && m.high && m.key.op == GET
                             ==> CallsOf(Run(START, ms), m) == [Call(m.key.sel, Join(ms[j].data, m.data))]
  {
    if m.key.op == GET {
      StoreMeaning(ms, m.key);
    }
  }

  // ---------- the round trip of one operation

  /** With a type that leaves the low 24 bits alone, the words of an operation say what was meant. */
  lemma OpSays(code: bv32, sel: bv32, val: bv32, rbType: bv32)
    requires rbType & 0x00ff_ffff == 0 && code & 7 == code
    ensures var words := OpWords(code, sel, val, rbType);
            && Typed(words[0], rbType) && Typed(words[1], rbType)
            && Decode(words[0]) == Message(false, Key(code, sel & 0xf), val & 0xffff)
            && Decode(words[1]) == Message(true, Key(code, sel & 0xf), (val >> 16) & 0xffff)
  {
  }

  lemma JoinHalves(val: bv32)
    ensures Join(val & 0xffff, (val >> 16) & 0xffff) == val
  {
  }

  const NAMES: seq<string> := ["zero", "add", "sub", "set", "get"]

  /** Both words of operation number k say so in bits 16 to 18. */
  lemma OperationNamed(k: nat, sel: bv32, val: bv32, rbType: bv32)
    requires k < 5 && rbType & 0x00ff_ffff == 0
    ensures var words := Op(NAMES[k], sel, val, rbType);
            (words[0] >> 16) & 7 == k as bv32 && (words[1] >> 16) & 7 == k as bv32
  {
    CodeOfName(k);
    OpSays(k as bv32, sel, val, rbType);
  }

  lemma CodeOfName(k: nat)
    requires k < 5
    ensures OpCode(NAMES[k]) == k as bv32 && k as bv32 & 7 == k as bv32
  {
    DifferentNames();
  }

  lemma DifferentNames()
    ensures forall i, j | 0 <= i < j < 5 :: NAMES[i] != NAMES[j]
  {
    assert NAMES[0][0] == 'z' && NAMES[1][0] == 'a' && NAMES[2][1] == 'u' && NAMES[3][0] == 's' && NAMES[4][0] == 'g';
    assert NAMES[3][1] == 'e' && NAMES[2][0] == 's';
  }

  lemma CodeFits(operation: string)
    ensures OpCode(operation) & 7 == OpCode(operation)
  {
  }

  /** A word's type never has low bits, so a type with low bits matches nothing. */
  lemma {:induction false} BadTypeMatchesNothing(words: seq<bv32>, mask: bv32)
    requires mask & 0x00ff_ffff != 0
    ensures Matching(words, mask) == []
  {
    if words != [] {
      assert (words[0] & 0xff00_0000) & 0x00ff_ffff == 0;
      BadTypeMatchesNothing(words[1..], mask);
    }
  }

  predicate Foreign(words: seq<bv32>, mask: bv32) {
    forall i :: 0 <= i < |words| ==> !Typed(words[i], mask)
  }

  lemma {:induction false} ForeignMatchesNothing(words: seq<bv32>, mask: bv32)
    requires Foreign(words, mask)
    ensures Matching(words, mask) == []
  {
    if words != [] {
      assert !Typed(words[0], mask);
      ForeignMatchesNothing(words[1..], mask);
    }
  }

  /** The two words on the bus, with words of other types before, between and after them. */
  function OnTheBus(a: seq<bv32>, words: seq<bv32>, b: seq<bv32>, c: seq<bv32>): seq<bv32>
    requires |words| == 2
  {
    a + ([words[0]] + (b + ([words[1]] + c)))
  }

  lemma {:induction false} MatchingOnTheBus(a: seq<bv32>, words: seq<bv32>, b: seq<bv32>, c: seq<bv32>, mask: bv32)
    requires |words| == 2 && Foreign(a, mask) && Foreign(b, mask) && Foreign(c, mask)
    requires Typed(words[0], mask) && Typed(words[1], mask)
    ensures Matching(OnTheBus(a, words, b, c), mask) == [Decode(words[0]), Decode(words[1])]
  {
    var w0, w1 := [words[0]], [words[1]];
    MatchingConcat(a, w0 + (b + (w1 + c)), mask);
    MatchingConcat(w0, b + (w1 + c), mask);
    MatchingConcat(b, w1 + c, mask);
    MatchingConcat(w1, c, mask);
    ForeignMatchesNothing(a, mask);
    ForeignMatchesNothing(b, mask);
    ForeignMatchesNothing(c, mask);
    MatchingOne(words[0], mask);
    MatchingOne(words[1], mask);
  }

  /**
    * From any state of the receiver, a get sent with its own type calls back exactly once, with the selector's low four
    * bits and the whole value, if and only if that type leaves the low 24 bits of the word alone. Any other operation
    * never calls back.
    */
  lemma {:induction false} OperationRoundTrip(s: Store, operation: string, sel: bv32, val: bv32, mask: bv32,
                           a: seq<bv32>, b: seq<bv32>, c: seq<bv32>)
    requires Foreign(a, mask) && Foreign(b, mask) && Foreign(c, mask)
    ensures var bus := OnTheBus(a, Op(operation, sel, val, mask), b, c);
            Calls(s, Matching(bus, mask))
            == if mask & 0x00ff_ffff == 0 && operation !in ["zero", "add", "sub", "set"] then [Call(sel & 0xf, val)]
               else []
  {
    var words, code := Op(operation, sel, val, mask), OpCode(operation);
    if mask & 0x00ff_ffff == 0 {
      CodeFits(operation);
      OpDelivered(s, code, sel, val, mask, a, b, c);
    } else {
      BadTypeMatchesNothing(OnTheBus(a, words, b, c), mask);
    }
  }

  lemma {:induction false} OpDelivered(s: Store, code: bv32, sel: bv32, val: bv32, mask: bv32,
                                       a: seq<bv32>, b: seq<bv32>, c: seq<bv32>)
    requires Foreign(a, mask) && Foreign(b, mask) && Foreign(c, mask)
    requires mask & 0x00ff_ffff == 0 && code & 7 == code
    ensures Calls(s, Matching(OnTheBus(a, OpWords(code, sel, val, mask), b, c), mask))
            == if code == GET then [Call(sel & 0xf, val)] else []
  {
    var words := OpWords(code, sel, val, mask);
    OpSays(code, sel, val, mask);
    MatchingOnTheBus(a, words, b, c, mask);
    JoinHalves(val);
    TwoMessages(s, Key(code, sel & 0xf), val & 0xffff, (val >> 16) & 0xffff);
  }

  lemma {:induction false} TwoMessages(s: Store, key: Key, low: bv32, high: bv32)
    ensures Calls(s, [Message(false, key, low), Message(true, key, high)])
            == if key.op == GET then [Call(key.sel, Join(low, high))] else []
  {
    var first, second := Message(false, key, low), Message(true, key, high);
    RunConcat(s, [first], [second]);
    assert [first] + [second] == [first, second];
    OneMessage(s, first);
    OneMessage(Step(s, first), second);
    assert [] + CallsOf(Step(s, first), second) == CallsOf(Step(s, first), second);
  }
}
