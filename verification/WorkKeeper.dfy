/** Keeps the work counts of peers within a tolerance of each other by holding back callbacks of peers too far ahead. */
module WorkKeeper {
  import opened Seqs
  import opened Wrappers

  // A callback is a token; running it is an entry in the log.
  type Callback = int

  datatype Peer = Peer(c: nat, cb: Option<Callback>)

  datatype Call = Call(id: nat, cb: Callback)

  datatype State = State(tolerance: int, peers: seq<Peer>, ran: seq<Call>, dropped: seq<Call>)

  // ---------- the keeper as a function

  /** The first of the n first peers with the least count. */
  function MinId(peers: seq<Peer>, n: nat): (k: nat)
    requires 0 < n <= |peers|
    ensures k < n && forall i | 0 <= i < n :: peers[k].c <= peers[i].c
    ensures forall i | 0 <= i < k :: peers[k].c < peers[i].c
  {
    if n == 1 then 0
    else
      var k := MinId(peers, n - 1);
      if peers[n - 1].c < peers[k].c then n - 1 else k
  }

  function Min(peers: seq<Peer>): (m: nat)
    requires peers != []
    ensures forall i | 0 <= i < |peers| :: m <= peers[i].c
  {
    peers[MinId(peers, |peers|)].c
  }

  predicate Releasable(p: Peer, min: int, tolerance: int) {
    p.cb.Some? && p.c - min < tolerance
  }

  /** The held callbacks of the first n peers that are within tolerance again, in peer order. */
  function ReleasedCalls(peers: seq<Peer>, n: nat, min: int, tolerance: int): seq<Call>
    requires n <= |peers|
  {
    if n == 0 then []
    else ReleasedCalls(peers, n - 1, min, tolerance)
         + if Releasable(peers[n - 1], min, tolerance) then [Call(n - 1, peers[n - 1].cb.value)] else []
  }

  function Released(p: Peer, min: int, tolerance: int): Peer {
    if Releasable(p, min, tolerance) then p.(cb := None) else p
  }

  function CallOthers(s: State): State
    requires s.peers != []
  {
    var min := Min(s.peers);
    s.(peers := seq(|s.peers|, i requires 0 <= i < |s.peers| => Released(s.peers[i], min, s.tolerance)),
       ran := s.ran + ReleasedCalls(s.peers, |s.peers|, min, s.tolerance))
  }

  function Counted(s: State, id: nat): State
    requires id < |s.peers|
  {
    s.(peers := s.peers[id := s.peers[id].(c := s.peers[id].c + 1)])
  }

  /** What becomes of a call that has been counted. */
  function Decide(t: State, id: nat, cb: Callback): State
    requires id < |t.peers|
  {
    if t.peers[id].c - Min(t.peers) < t.tolerance then CallOthers(t.(ran := t.ran + [Call(id, cb)]))
    else if t.peers[id].cb.Some? then t.(dropped := t.dropped + [Call(id, cb)])
    else t.(peers := t.peers[id := t.peers[id].(cb := Some(cb))])
  }

  /** A call among two peers or more. */
  function Do(s: State, id: nat, cb: Callback): State
    requires id < |s.peers|
  {
    Decide(Counted(s, id), id, cb)
  }

  // ---------- peers by id

  /** Peers are kept under their ids, which may come in any order; a call during which the source throws is lost. */
  datatype Book = Book(tolerance: int, peers: map<nat, Peer>, ran: seq<Call>, dropped: seq<Call>, lost: seq<Call>)

  /** The ids are 0, 1, .., with none left out. */
  predicate Gapless(peers: map<nat, Peer>) {
    forall id | 0 <= id < |peers| :: id in peers
  }

  function Rows(peers: map<nat, Peer>): (rows: seq<Peer>)
    requires Gapless(peers)
    ensures |rows| == |peers| && forall i | 0 <= i < |peers| :: rows[i] == peers[i]
  {
    seq(|peers|, i requires 0 <= i < |peers| => peers[i])
  }

  function ByIds(rows: seq<Peer>): (peers: map<nat, Peer>)
    ensures forall id: nat :: id in peers <==> id < |rows|
    ensures forall id: nat | id < |rows| :: peers[id] == rows[id]
  {
    map id: nat | id < |rows| :: rows[id]
  }

  /** The keeper's rows as a state. */
  function Sheet(b: Book): State
    requires Gapless(b.peers)
  {
    State(b.tolerance, Rows(b.peers), b.ran, b.dropped)
  }

  function AddKey(peers: map<nat, Peer>, id: nat): map<nat, Peer> {
    if id in peers then peers else peers[id := Peer(0, None)]
  }

  function Counting(peers: map<nat, Peer>, id: nat): map<nat, Peer>
    requires id in peers
  {
    peers[id := peers[id].(c := peers[id].c + 1)]
  }

  /** With two peers or more, the search for the least count reads every id below their number. */
  predicate Throws(peers: map<nat, Peer>, id: nat) {
    var joined := AddKey(peers, id);
    |joined| > 1 && !Gapless(joined)
  }

  /** A peer is registered when it first calls. */
  function Work(b: Book, id: nat, cb: Callback): Book {
    var joined, call := AddKey(b.peers, id), Call(id, cb);
    if |joined| == 1 then b.(peers := Counting(joined, id), ran := b.ran + [call])
    else if !Gapless(joined) then b.(peers := Counting(joined, id), lost := b.lost + [call])
    else
      GaplessKeys(joined);
      Posted(b, Do(Sheet(b.(peers := joined)), id, cb))
  }

  /** The book after its rows have become t. */
  function Posted(b: Book, t: State): Book {
    b.(peers := ByIds(t.peers), ran := t.ran, dropped := t.dropped)
  }

  lemma SubsetOfSameSize(a: set<nat>, b: set<nat>)
    requires a <= b && |a| == |b|
    ensures a == b
  {
    assert |b - a| == |b| - |a|;
    assert b - a == {};
  }

  function UpTo(n: nat): (ids: set<nat>)
    ensures |ids| == n && forall i: nat :: i in ids <==> i < n
  {
    if n == 0 then {} else UpTo(n - 1) + {n - 1}
  }

  lemma GaplessKeys(peers: map<nat, Peer>)
    requires Gapless(peers)
    ensures forall id: nat :: id in peers <==> id < |peers|
  {
    assert |peers.Keys| == |peers|;
    SubsetOfSameSize(UpTo(|peers|), peers.Keys);
  }

  lemma ByIdsRows(rows: seq<Peer>)
    ensures |ByIds(rows)| == |rows| && Gapless(ByIds(rows)) && Rows(ByIds(rows)) == rows
  {
    assert ByIds(rows).Keys == UpTo(|rows|);
    assert |ByIds(rows).Keys| == |ByIds(rows)|;
  }

  lemma RowsById(peers: map<nat, Peer>)
    requires Gapless(peers)
    ensures ByIds(Rows(peers)) == peers
  {
    GaplessKeys(peers);
  }

  lemma RowsUpdate(peers: map<nat, Peer>, id: nat, p: Peer)
    requires Gapless(peers) && id in peers
    ensures id < |peers| && |peers[id := p]| == |peers|
    ensures Gapless(peers[id := p]) && Rows(peers[id := p]) == Rows(peers)[id := p]
  {
    GaplessKeys(peers);
    assert peers[id := p].Keys == peers.Keys;
    assert |peers[id := p].Keys| == |peers[id := p]| && |peers.Keys| == |peers|;
  }

  /** The first n rows of s have been served, the others not yet. */
  ghost predicate Serving(s: State, peers: map<nat, Peer>, ran: seq<Call>, n: nat)
    requires s.peers != []
  {
    var min := Min(s.peers);
    && n <= |s.peers| == |peers| && Gapless(peers)
    && (forall i | 0 <= i < n :: peers[i] == Released(s.peers[i], min, s.tolerance))
    && (forall i | n <= i < |s.peers| :: peers[i] == s.peers[i])
    && ran == s.ran + ReleasedCalls(s.peers, n, min, s.tolerance)
  }

  lemma NoneServed(s: State, peers: map<nat, Peer>)
    requires s.peers != [] && Gapless(peers) && s.peers == Rows(peers)
    ensures Serving(s, peers, s.ran, 0)
  {
    AddNothing(s.ran);
  }

  lemma ServeStep(s: State, peers: map<nat, Peer>, ran: seq<Call>, n: nat)
    requires n < |s.peers| && Serving(s, peers, ran, n)
    ensures n in peers && |peers| == |s.peers| && Gapless(peers)
    ensures var p := peers[n];
            if Releasable(p, Min(s.peers), s.tolerance)
            then Serving(s, peers[n := p.(cb := None)], ran + [Call(n, p.cb.value)], n + 1)
            else Serving(s, peers, ran, n + 1)
  {
    var calls := ReleasedCalls(s.peers, n, Min(s.peers), s.tolerance);
    RowsUpdate(peers, n, peers[n].(cb := None));
    if Releasable(peers[n], Min(s.peers), s.tolerance) {
      Assoc(s.ran, calls, [Call(n, peers[n].cb.value)]);
    } else {
      AddNothing(calls);
    }
  }

  lemma AllServed(s: State, peers: map<nat, Peer>, ran: seq<Call>)
    requires s.peers != [] && Serving(s, peers, ran, |s.peers|)
    ensures Gapless(peers) && s.(peers := Rows(peers), ran := ran) == CallOthers(s)
  {
    assert Rows(peers) == CallOthers(s).peers;
  }

  lemma CountedSheet(b: Book, id: nat)
    requires Gapless(b.peers) && id in b.peers && Gapless(Counting(b.peers, id))
    ensures id < |b.peers| && Sheet(b.(peers := Counting(b.peers, id))) == Counted(Sheet(b), id)
  {
    RowsUpdate(b.peers, id, b.peers[id].(c := b.peers[id].c + 1));
  }

  lemma PostedSheet(b: Book, u: Book, t: State)
    requires u.tolerance == b.tolerance && u.lost == b.lost && Gapless(u.peers) && Sheet(u) == t
    ensures Posted(b, t) == u
  {
    RowsById(u.peers);
  }

  /** A call among others, when the caller has been counted and the rest of the book has become u. */
  lemma WorkIsDecide(b: Book, id: nat, cb: Callback, u: Book)
    requires var joined := AddKey(b.peers, id);
             && |joined| > 1 && Gapless(joined) && Gapless(Counting(joined, id)) && id < |Counting(joined, id)|
             && u.tolerance == b.tolerance && u.lost == b.lost && Gapless(u.peers)
             && Sheet(u) == Decide(Sheet(b.(peers := Counting(joined, id))), id, cb)
    ensures u == Work(b, id, cb)
  {
    var j := b.(peers := AddKey(b.peers, id));
    CountedSheet(j, id);
    PostedSheet(j, u, Do(Sheet(j), id, cb));
  }

  /** Nobody below n has a count greater than max, and peer k is the first to have it. */
  ghost predicate Greatest(peers: map<nat, Peer>, n: nat, k: nat, max: nat) {
    && k < n && k in peers && peers[k].c == max
    && forall i | 0 <= i < n :: i in peers && peers[i].c <= max && (i < k ==> peers[i].c < max)
  }

  /** Peer k is the first below n with the least count, min. */
  ghost predicate FirstLeast(peers: map<nat, Peer>, n: nat, k: nat, min: nat)
    requires Gapless(peers) && 0 < n <= |peers|
  {
    k == MinId(Rows(peers), n) && min == peers[k].c
  }

  // ---------- the keeper object

  class Keeper {
    const tolerance: int
    var peers: map<nat, Peer>
    var ran: seq<Call>
    var dropped: seq<Call>
    var lost: seq<Call>

    function View(): Book
      reads this
    {
      Book(tolerance, peers, ran, dropped, lost)
    }

    constructor (tolerance: int)
      ensures View() == Book(tolerance, map[], [], [], [])
    {
      this.tolerance := tolerance;
      peers, ran, dropped, lost := map[], [], [], [];
    }

    method Register(id: nat)
      modifies this`peers
      ensures peers == AddKey(old(peers), id)
    {
      if id !in peers {
        peers := peers[id := Peer(0, None)];
      }
    }

    /** Registers ids 0 .. n - 1. */
    method Peers(n: nat)
      modifies this`peers
      ensures forall id: nat :: id in peers <==> id in old(peers) || id < n
      ensures forall id | id in peers :: peers[id] == if id in old(peers) then old(peers)[id] else Peer(0, None)
    {
      for id := 0 to n
        invariant forall k: nat :: k in peers <==> k in old(peers) || k < id
        invariant forall k | k in peers :: peers[k] == if k in old(peers) then old(peers)[k] else Peer(0, None)
      {
        Register(id);
      }
    }

    /** The greatest and least counts, and who has them first; false where an id is missing and the source throws. */
    method MaxWork() returns (ok: bool, max: nat, maxid: nat, min: nat, minid: nat)
      requires |peers| > 0
      ensures ok <==> Gapless(peers)
      ensures ok ==> FirstLeast(peers, |peers|, minid, min)
      ensures ok ==> Greatest(peers, |peers|, maxid, max)
    {
      ok, max, maxid, min, minid := true, 0, 0, 0, 0;
      for id := 0 to |peers|
        invariant ok && forall i | 0 <= i < id :: i in peers
        invariant id > 0 ==> Greatest(peers, id, maxid, max)
        invariant id > 0 && Gapless(peers) ==> FirstLeast(peers, id, minid, min)
      {
        if id !in peers {
          ok := false;
          return;
        }
        var p := peers[id];
        if id == 0 {
          max, maxid, min, minid := p.c, id, p.c, id;
        } else {
          if p.c > max {
            max, maxid := p.c, id;
          }
          if p.c < min {
            min, minid := p.c, id;
          }
        }
      }
    }

    /** Lets go whoever is within tolerance of the least count again. */
    method RunOthers()
      requires |peers| > 0 && Gapless(peers)
      modifies this`peers, this`ran
      ensures Gapless(peers) && Sheet(View()) == CallOthers(Sheet(old(View())))
    {
      var ok, max, maxid, min, minid := MaxWork();
      ghost var was := Sheet(View());
      NoneServed(was, peers);
      for id := 0 to |peers|
        invariant Serving(was, peers, ran, id)
      {
        ServeStep(was, peers, ran, id);
        var peer := peers[id];
        if peer.cb.Some? && peer.c - min < tolerance {
          var copy := peer.cb.value;
          peers := peers[id := peer.(cb := None)];
          ran := ran + [Call(id, copy)];
        }
      }
      AllServed(was, peers, ran);
    }

    /** Returns false where the source throws. */
    method DoWork(id: nat, cb: Callback) returns (ok: bool)
      modifies this
      ensures View() == Work(old(View()), id, cb) && ok == !Throws(old(peers), id)
    {
      Register(id);
      ghost var before, joined := old(View()), peers;
      peers := peers[id := peers[id].(c := peers[id].c + 1)];
      CountingKeepsKeys(joined, id);
      if |peers| == 1 {
        ran := ran + [Call(id, cb)];
        return true;
      }
      var max, maxid, min, minid;
      ok, max, maxid, min, minid := MaxWork();
      if !ok {
        lost := lost + [Call(id, cb)];
        return;
      }
      GaplessKeys(peers);
      assert id in peers;
      AllowOrHold(id, cb, min);
      WorkIsDecide(before, id, cb, View());
    }

    /** Runs the call and lets others go, or holds it, or drops it. */
    method AllowOrHold(id: nat, cb: Callback, min: nat)
      requires Gapless(peers) && id < |peers| && min == Min(Rows(peers))
      modifies this
      ensures Gapless(peers) && lost == old(lost) && Sheet(View()) == Decide(Sheet(old(View())), id, cb)
    {
      var delta := peers[id].c - min;
      if delta < tolerance {
        ran := ran + [Call(id, cb)];
        RunOthers();
      } else if peers[id].cb.Some? {
        dropped := dropped + [Call(id, cb)];
      } else {
        RowsUpdate(peers, id, peers[id].(cb := Some(cb)));
        peers := peers[id := peers[id].(cb := Some(cb))];
      }
    }
  }

  // ---------- what every run keeps

  /** Within tolerance of the least, and holding a callback exactly at the limit. */
  predicate Fair(p: Peer, min: int, tolerance: int) {
    p.c <= min + tolerance && (p.cb.Some? <==> p.c == min + tolerance)
  }

  predicate Balanced(s: State) {
    s.peers != [] && forall i | 0 <= i < |s.peers| :: Fair(s.peers[i], Min(s.peers), s.tolerance)
  }

  /** A caller that waits for its callback before it calls again. */
  predicate Waits(s: State, id: nat) {
    id < |s.peers| && s.peers[id].cb.None?
  }

  lemma MinIs(peers: seq<Peer>, k: nat)
    requires k < |peers| && forall i | 0 <= i < |peers| :: peers[k].c <= peers[i].c
    ensures Min(peers) == peers[k].c
  {
  }

  lemma MinAfterCount(s: State, id: nat)
    requires id < |s.peers|
    ensures var t := Counted(s, id); Min(s.peers) <= Min(t.peers) <= Min(s.peers) + 1
  {
    var t := Counted(s, id);
    var k := MinId(s.peers, |s.peers|);
    assert t.peers[k].c <= s.peers[k].c + 1;
    var j := MinId(t.peers, |t.peers|);
    assert s.peers[j].c <= t.peers[j].c;
  }

  lemma MinByCounts(a: seq<Peer>, b: seq<Peer>)
    requires |a| == |b| > 0 && forall i | 0 <= i < |a| :: a[i].c == b[i].c
    ensures Min(a) == Min(b)
  {
    MinIs(b, MinId(a, |a|));
  }

  lemma ReleasedAt(s: State, i: nat)
    requires i < |s.peers|
    ensures |CallOthers(s).peers| == |s.peers|
    ensures CallOthers(s).peers[i] == Released(s.peers[i], Min(s.peers), s.tolerance)
  {
  }

  lemma CallOthersKeepsMin(s: State)
    requires s.peers != []
    ensures CallOthers(s).peers != [] && Min(CallOthers(s).peers) == Min(s.peers)
  {
    forall i | 0 <= i < |s.peers| ensures CallOthers(s).peers[i].c == s.peers[i].c {
      ReleasedAt(s, i);
    }
    MinByCounts(CallOthers(s).peers, s.peers);
  }

  /** Where a peer of a balanced keeper stands after one more call that is within tolerance. */
  lemma FairAfterRelease(p: Peer, min: int, min': int, tolerance: int, counted: bool)
    requires tolerance >= 1 && Fair(p, min, tolerance) && min <= p.c && min <= min' <= min + 1
    requires counted ==> p.cb.None? && p.c + 1 - min' < tolerance
    ensures Fair(Released(if counted then p.(c := p.c + 1) else p, min', tolerance), min', tolerance)
  {
  }

  lemma RunKeepsBalance(s: State, id: nat, t: State)
    requires Balanced(s) && Waits(s, id) && s.tolerance >= 1
    requires t.peers == Counted(s, id).peers && t.tolerance == s.tolerance
    requires t.peers[id].c - Min(t.peers) < s.tolerance
    ensures Balanced(CallOthers(t))
  {
    MinAfterCount(s, id);
    CallOthersKeepsMin(t);
    var u, min, min' := CallOthers(t), Min(s.peers), Min(t.peers);
    forall i | 0 <= i < |u.peers| ensures Fair(u.peers[i], min', s.tolerance) {
      ReleasedAt(t, i);
      FairAfterRelease(s.peers[i], min, min', s.tolerance, i == id);
    }
  }

  lemma HoldKeepsBalance(s: State, id: nat, cb: Callback)
    requires Balanced(s) && Waits(s, id) && s.tolerance >= 1
    requires Counted(s, id).peers[id].c - Min(Counted(s, id).peers) >= s.tolerance
    ensures Balanced(Do(s, id, cb))
  {
    var t, u := Counted(s, id), Do(s, id, cb);
    MinAfterCount(s, id);
    MinByCounts(t.peers, u.peers);
    assert Fair(s.peers[id], Min(s.peers), s.tolerance);
    forall i | 0 <= i < |u.peers| ensures Fair(u.peers[i], Min(u.peers), s.tolerance) {
      assert Fair(s.peers[i], Min(s.peers), s.tolerance);
    }
  }

  /** Every waiting call keeps the balance, and nothing is dropped. */
  lemma DoKeepsBalance(s: State, id: nat, cb: Callback)
    requires Balanced(s) && Waits(s, id) && s.tolerance >= 1
    ensures Balanced(Do(s, id, cb)) && Do(s, id, cb).dropped == s.dropped
    ensures Do(s, id, cb).tolerance == s.tolerance && |Do(s, id, cb).peers| == |s.peers|
  {
    var t := Counted(s, id);
    if t.peers[id].c - Min(t.peers) < s.tolerance {
      RunKeepsBalance(s, id, t.(ran := s.ran + [Call(id, cb)]));
    } else {
      HoldKeepsBalance(s, id, cb);
    }
  }

  // ---------- a peer that joins

  /** What a peer's standing must be for the balance to survive a newcomer. */
  predicate NotTooFar(p: Peer, tolerance: int) {
    p.c <= tolerance || (p.c == tolerance + 1 && p.cb.Some?)
  }

  /** Without the newcomer the others are balanced, with m as their least count. */
  predicate OthersBalanced(s: State, id: nat, m: nat) {
    && id < |s.peers| && s.peers[id] == Peer(0, None)
    && (forall i | 0 <= i < |s.peers| && i != id :: m <= s.peers[i].c && Fair(s.peers[i], m, s.tolerance))
    && exists j :: 0 <= j < |s.peers| && j != id && s.peers[j].c == m
  }

  /** After its first call the newcomer has one count, and that or zero is the least. */
  lemma MinAfterJoin(s: State, id: nat, m: nat)
    requires OthersBalanced(s, id, m)
    ensures Min(Counted(s, id).peers) == if m == 0 then 0 else 1
  {
    var t := Counted(s, id);
    var j :| 0 <= j < |s.peers| && j != id && s.peers[j].c == m;
    assert t.peers[j].c == m && t.peers[id].c == 1;
    MinIs(t.peers, if m == 0 then j else id);
  }

  /** Peer by peer. */
  lemma FairAfterJoin(p: Peer, m: nat, tolerance: int)
    requires tolerance >= 1 && m <= p.c && Fair(p, m, tolerance)
    ensures var min := if m == 0 then 0 else 1;
            Fair(Released(p, min, tolerance), min, tolerance) <==> NotTooFar(p, tolerance)
  {
  }

  /** The balance survives a newcomer's first call if and only if no other peer is too far ahead. */
  lemma JoinExactly(s: State, id: nat, cb: Callback, m: nat)
    requires OthersBalanced(s, id, m) && s.tolerance >= 1
    ensures Balanced(Do(s, id, cb)) <==> forall i | 0 <= i < |s.peers| && i != id :: NotTooFar(s.peers[i], s.tolerance)
    ensures Do(s, id, cb).tolerance == s.tolerance && |Do(s, id, cb).peers| == |s.peers|
  {
    var t, u := Counted(s, id), Do(s, id, cb);
    var min := if m == 0 then 0 else 1;
    MinAfterJoin(s, id, m);
    if 1 - min < s.tolerance {
      var r := t.(ran := t.ran + [Call(id, cb)]);
      CallOthersKeepsMin(r);
      forall i | 0 <= i < |s.peers| && i != id
        ensures Fair(u.peers[i], Min(u.peers), s.tolerance) <==> NotTooFar(s.peers[i], s.tolerance)
      {
        ReleasedAt(r, i);
        FairAfterJoin(s.peers[i], m, s.tolerance);
      }
      ReleasedAt(r, id);
    } else {
      MinByCounts(t.peers, u.peers);
      forall i | 0 <= i < |s.peers| && i != id
        ensures Fair(u.peers[i], Min(u.peers), s.tolerance) && NotTooFar(s.peers[i], s.tolerance)
      {
        assert u.peers[i] == s.peers[i];
      }
    }
    assert Fair(u.peers[id], Min(u.peers), s.tolerance);
  }

  // ---------- who runs first

  /** Nobody twice, and lower ids first. */
  predicate Ascending(calls: seq<Call>) {
    forall i, j | 0 <= i < j < |calls| :: calls[i].id < calls[j].id
  }

  lemma {:induction false} ReleasedAscend(peers: seq<Peer>, n: nat, min: int, tolerance: int)
    requires n <= |peers|
    ensures var calls := ReleasedCalls(peers, n, min, tolerance);
            Ascending(calls) && forall c | c in calls :: c.id < n
  {
    if n > 0 {
      var calls, p := ReleasedCalls(peers, n - 1, min, tolerance), peers[n - 1];
      ReleasedAscend(peers, n - 1, min, tolerance);
      if Releasable(p, min, tolerance) {
        AscendOneMore(calls, Call(n - 1, p.cb.value));
      } else {
        AddNothing(calls);
      }
    }
  }

  lemma AscendOneMore(calls: seq<Call>, c: Call)
    requires Ascending(calls) && forall d | d in calls :: d.id < c.id
    ensures Ascending(calls + [c]) && forall d | d in calls + [c] :: d.id < c.id + 1
  {
  }

  /** A call that lets anyone run lets its caller run first, and then those who were held, lower ids first. */
  lemma CallerFirst(s: State, id: nat, cb: Callback)
    requires id < |s.peers| && Do(s, id, cb).ran != s.ran
    ensures exists others: seq<Call> :: Ascending(others) && Do(s, id, cb).ran == (s.ran + [Call(id, cb)]) + others
  {
    var t := Counted(s, id);
    var others := ReleasedCalls(t.peers, |t.peers|, Min(t.peers), t.tolerance);
    ReleasedAscend(t.peers, |t.peers|, Min(t.peers), t.tolerance);
    assert Do(s, id, cb).ran == (s.ran + [Call(id, cb)]) + others;
  }

  /** A call that comes while its caller is held is lost and counted, and what is held stays held. */
  lemma CallWhileHeld(s: State, id: nat, cb: Callback)
    requires Balanced(s) && id < |s.peers| && s.peers[id].cb.Some? && s.tolerance >= 1
    ensures var u := Do(s, id, cb);
            && u.ran == s.ran && u.dropped == s.dropped + [Call(id, cb)]
            && u.peers[id] == Peer(s.peers[id].c + 1, s.peers[id].cb)
            && forall i | 0 <= i < |s.peers| && i != id :: u.peers[i] == s.peers[i]
  {
    var t := Counted(s, id);
    var k := MinId(s.peers, |s.peers|);
    assert Fair(s.peers[id], Min(s.peers), s.tolerance) && Fair(s.peers[k], Min(s.peers), s.tolerance);
    assert t.peers[k] == s.peers[k];
    MinIs(t.peers, k);
  }

  // ---------- every callback runs once

  /** The callbacks of one peer, in order. */
  function By(log: seq<Call>, id: nat): seq<Callback> {
    if log == [] then [] else By(log[..|log| - 1], id) + if log[|log| - 1].id == id then [log[|log| - 1].cb] else []
  }

  function Held(p: Peer): seq<Callback> {
    if p.cb.Some? then [p.cb.value] else []
  }

  /** One peer's calls: what ran, then what is held, is what was kept; and every call counts once. */
  predicate DeliveredTo(p: Peer, ran: seq<Call>, kept: seq<Call>, all: seq<Call>, id: nat) {
    By(ran, id) + Held(p) == By(kept, id) && p.c == |By(all, id)|
  }

  /** Peer by peer, and nobody else has called or run. */
  ghost predicate Delivered(s: State, kept: seq<Call>, all: seq<Call>) {
    && (forall k: nat | k < |s.peers| :: DeliveredTo(s.peers[k], s.ran, kept, all, k))
    && (forall k: nat | k >= |s.peers| :: NeverHeardOf(s.ran, kept, all, k))
  }

  predicate NeverHeardOf(ran: seq<Call>, kept: seq<Call>, all: seq<Call>, id: nat) {
    By(ran, id) == [] && By(kept, id) == [] && By(all, id) == []
  }

  lemma {:induction false} ByStep(log: seq<Call>, c: Call, id: nat)
    ensures By(log + [c], id) == if c.id == id then By(log, id) + [c.cb] else By(log, id)
  {
    assert (log + [c])[..|log|] == log && By(log, id) + [] == By(log, id);
  }

  lemma {:induction false} ByConcat(a: seq<Call>, b: seq<Call>, id: nat)
    ensures By(a + b, id) == By(a, id) + By(b, id)
    decreases |b|
  {
    if b == [] {
      assert a + b == a && By(a, id) + [] == By(a, id);
    } else {
      var init, last := b[..|b| - 1], b[|b| - 1];
      ByConcat(a, init, id);
      assert a + b == (a + init) + [last] && b == init + [last];
      ByStep(a + init, last, id);
      ByStep(init, last, id);
      Assoc(By(a, id), By(init, id), [last.cb]);
    }
  }

  /** A peer let go runs exactly its held callback, and nobody else runs. */
  lemma {:induction false} ByReleased(peers: seq<Peer>, n: nat, min: int, tolerance: int, id: nat)
    requires n <= |peers|
    ensures var calls := ReleasedCalls(peers, n, min, tolerance);
            && (id < n && Releasable(peers[id], min, tolerance) ==> By(calls, id) == [peers[id].cb.value])
            && (id >= n || !Releasable(peers[id], min, tolerance) ==> By(calls, id) == [])
  {
    if n > 0 {
      var calls, p := ReleasedCalls(peers, n - 1, min, tolerance), peers[n - 1];
      ByReleased(peers, n - 1, min, tolerance, id);
      if Releasable(p, min, tolerance) {
        ByStep(calls, Call(n - 1, p.cb.value), id);
        assert [] + [p.cb.value] == [p.cb.value];
      } else {
        AddNothing(calls);
      }
    }
  }

  lemma ReleaseDeliversTo(s: State, kept: seq<Call>, all: seq<Call>, k: nat)
    requires k < |s.peers| && DeliveredTo(s.peers[k], s.ran, kept, all, k)
    ensures |CallOthers(s).peers| == |s.peers|
    ensures DeliveredTo(CallOthers(s).peers[k], CallOthers(s).ran, kept, all, k)
  {
    var p, calls := s.peers[k], ReleasedCalls(s.peers, |s.peers|, Min(s.peers), s.tolerance);
    ReleasedAt(s, k);
    ByConcat(s.ran, calls, k);
    ByReleased(s.peers, |s.peers|, Min(s.peers), s.tolerance, k);
    ReleaseMovesHeld(p, Min(s.peers), s.tolerance, By(s.ran, k), By(calls, k));
  }

  lemma ReleaseMovesHeld(p: Peer, min: int, tolerance: int, ran: seq<Callback>, now: seq<Callback>)
    requires now == (if Releasable(p, min, tolerance) then [p.cb.value] else [])
    ensures (ran + now) + Held(Released(p, min, tolerance)) == ran + Held(p)
  {
    AddNothing(ran);
    AddNothing(ran + now);
  }

  lemma CallOthersDelivers(s: State, kept: seq<Call>, all: seq<Call>)
    requires s.peers != [] && Delivered(s, kept, all)
    ensures Delivered(CallOthers(s), kept, all)
  {
    var u := CallOthers(s);
    forall k: nat | k < |u.peers|
      ensures DeliveredTo(u.peers[k], u.ran, kept, all, k)
    {
      ReleaseDeliversTo(s, kept, all, k);
    }
    forall k: nat | k >= |u.peers|
      ensures NeverHeardOf(u.ran, kept, all, k)
    {
      NeverReleased(s, kept, all, k);
    }
  }

  lemma NeverReleased(s: State, kept: seq<Call>, all: seq<Call>, k: nat)
    requires s.peers != [] && k >= |s.peers| && NeverHeardOf(s.ran, kept, all, k)
    ensures NeverHeardOf(CallOthers(s).ran, kept, all, k)
  {
    ByConcat(s.ran, ReleasedCalls(s.peers, |s.peers|, Min(s.peers), s.tolerance), k);
    ByReleased(s.peers, |s.peers|, Min(s.peers), s.tolerance, k);
  }

  /** One more call of peer id, seen by peer k: the caller runs it, or holds it. */
  lemma CallSeenBy(p: Peer, ran: seq<Call>, kept: seq<Call>, all: seq<Call>, id: nat, cb: Callback, k: nat)
    requires DeliveredTo(p, ran, kept, all, k) && (k == id ==> p.cb.None?)
    ensures var c, q := Call(id, cb), if k == id then p.(c := p.c + 1) else p;
            && DeliveredTo(q, ran + [c], kept + [c], all + [c], k)
            && DeliveredTo(if k == id then q.(cb := Some(cb)) else q, ran, kept + [c], all + [c], k)
            && DeliveredTo(q, ran, kept, all + [c], k)
  {
    ByStep(ran, Call(id, cb), k);
    ByStep(kept, Call(id, cb), k);
    ByStep(all, Call(id, cb), k);
    assert k == id ==> By(ran, k) + [] == By(ran, k) && (By(ran, k) + [cb]) + [] == By(ran, k) + [cb];
  }

  lemma NotSeenBy(ran: seq<Call>, kept: seq<Call>, all: seq<Call>, id: nat, cb: Callback, k: nat)
    requires k != id && NeverHeardOf(ran, kept, all, k)
    ensures var c := Call(id, cb);
            NeverHeardOf(ran + [c], kept + [c], all + [c], k) && NeverHeardOf(ran, kept + [c], all + [c], k)
            && NeverHeardOf(ran, kept, all + [c], k)
  {
    ByStep(ran, Call(id, cb), k);
    ByStep(kept, Call(id, cb), k);
    ByStep(all, Call(id, cb), k);
  }

  lemma DoDelivers(s: State, id: nat, cb: Callback, kept: seq<Call>, all: seq<Call>)
    requires Waits(s, id) && Delivered(s, kept, all)
    ensures Delivered(Do(s, id, cb), kept + [Call(id, cb)], all + [Call(id, cb)]) && Do(s, id, cb).dropped == s.dropped
  {
    var t, u, c := Counted(s, id), Do(s, id, cb), Call(id, cb);
    var r := t.(ran := s.ran + [c]);
    var h := t.(peers := t.peers[id := t.peers[id].(cb := Some(cb))]);
    forall k: nat | k < |s.peers|
      ensures DeliveredTo(r.peers[k], r.ran, kept + [c], all + [c], k)
      ensures DeliveredTo(h.peers[k], h.ran, kept + [c], all + [c], k)
    {
      CallSeenBy(s.peers[k], s.ran, kept, all, id, cb, k);
    }
    forall k: nat | k >= |s.peers|
      ensures NeverHeardOf(r.ran, kept + [c], all + [c], k) && NeverHeardOf(h.ran, kept + [c], all + [c], k)
    {
      NotSeenBy(s.ran, kept, all, id, cb, k);
    }
    if t.peers[id].c - Min(t.peers) < s.tolerance {
      CallOthersDelivers(r, kept + [c], all + [c]);
    }
  }

  // ---------- the keeper's calls, whatever their ids

  /** A caller that waits for its callback before it calls again. */
  predicate WaitsIn(b: Book, id: nat) {
    id in b.peers ==> b.peers[id].cb.None?
  }

  ghost predicate BookDelivered(b: Book, kept: seq<Call>, all: seq<Call>) {
    forall k: nat :: Seen(b.peers, b.ran, kept, all, k)
  }

  predicate Seen(peers: map<nat, Peer>, ran: seq<Call>, kept: seq<Call>, all: seq<Call>, k: nat) {
    if k in peers then DeliveredTo(peers[k], ran, kept, all, k) else NeverHeardOf(ran, kept, all, k)
  }

  lemma KeyDelivers(b: Book, id: nat, kept: seq<Call>, all: seq<Call>)
    requires BookDelivered(b, kept, all)
    ensures BookDelivered(b.(peers := AddKey(b.peers, id)), kept, all)
  {
    forall k: nat
      ensures Seen(AddKey(b.peers, id), b.ran, kept, all, k)
    {
      assert Seen(b.peers, b.ran, kept, all, k);
    }
  }

  /** Every call is delivered, but for those that throw; nothing is dropped. */
  lemma WorkDelivers(b: Book, id: nat, cb: Callback, kept: seq<Call>, all: seq<Call>)
    requires WaitsIn(b, id) && BookDelivered(b, kept, all)
    ensures var c := Call(id, cb);
            BookDelivered(Work(b, id, cb), if Throws(b.peers, id) then kept else kept + [c], all + [c])
    ensures Work(b, id, cb).dropped == b.dropped && Work(b, id, cb).tolerance == b.tolerance
  {
    var j := b.(peers := AddKey(b.peers, id));
    KeyDelivers(b, id, kept, all);
    SizeAfterKey(b.peers, id);
    if |j.peers| > 1 && Gapless(j.peers) {
      GaplessWorkDelivers(j, id, cb, kept, all);
    } else {
      CountingDelivers(j, id, cb, kept, all);
    }
  }

  /** A call that runs at once, and one that throws. */
  lemma CountingDelivers(j: Book, id: nat, cb: Callback, kept: seq<Call>, all: seq<Call>)
    requires id in j.peers && j.peers[id].cb.None? && BookDelivered(j, kept, all)
    ensures var c, counted := Call(id, cb), Counting(j.peers, id);
            && BookDelivered(j.(peers := counted, ran := j.ran + [c]), kept + [c], all + [c])
            && BookDelivered(j.(peers := counted, lost := j.lost + [c]), kept, all + [c])
  {
    var c, counted := Call(id, cb), Counting(j.peers, id);
    forall k: nat
      ensures Seen(counted, j.ran + [c], kept + [c], all + [c], k) && Seen(counted, j.ran, kept, all + [c], k)
    {
      assert Seen(j.peers, j.ran, kept, all, k);
      if k in j.peers {
        CallSeenBy(j.peers[k], j.ran, kept, all, id, cb, k);
      } else {
        NotSeenBy(j.ran, kept, all, id, cb, k);
      }
    }
  }

  lemma GaplessWorkDelivers(j: Book, id: nat, cb: Callback, kept: seq<Call>, all: seq<Call>)
    requires id in j.peers && Gapless(j.peers) && |j.peers| > 1
    requires j.peers[id].cb.None? && BookDelivered(j, kept, all)
    ensures BookDelivered(Work(j, id, cb), kept + [Call(id, cb)], all + [Call(id, cb)])
    ensures Work(j, id, cb).dropped == j.dropped
  {
    GaplessKeys(j.peers);
    SheetDelivers(j, kept, all);
    DoDelivers(Sheet(j), id, cb, kept, all);
    PostedDelivers(j, Do(Sheet(j), id, cb), kept + [Call(id, cb)], all + [Call(id, cb)]);
  }

  lemma SheetDelivers(b: Book, kept: seq<Call>, all: seq<Call>)
    requires Gapless(b.peers) && BookDelivered(b, kept, all)
    ensures Delivered(Sheet(b), kept, all)
  {
    GaplessKeys(b.peers);
    forall k: nat
      ensures k < |b.peers| ==> DeliveredTo(Sheet(b).peers[k], b.ran, kept, all, k)
      ensures k >= |b.peers| ==> NeverHeardOf(b.ran, kept, all, k)
    {
      assert Seen(b.peers, b.ran, kept, all, k) && (k in b.peers <==> k < |b.peers|);
    }
  }

  lemma PostedDelivers(b: Book, t: State, kept: seq<Call>, all: seq<Call>)
    requires Delivered(t, kept, all)
    ensures BookDelivered(Posted(b, t), kept, all)
  {
    forall k: nat
      ensures Seen(ByIds(t.peers), t.ran, kept, all, k)
    {
      assert k in ByIds(t.peers) <==> k < |t.peers|;
    }
  }

  // ---------- the balance, whatever the ids

  /** Alone and not blocked, or numbered without gaps and balanced. */
  predicate BookBalanced(b: Book) {
    if |b.peers| <= 1 then forall id | id in b.peers :: b.peers[id].cb.None?
    else Gapless(b.peers) && Balanced(Sheet(b))
  }

  /** A newcomer among others leaves no gap, and finds none of them too far ahead. */
  predicate JoinsWell(b: Book, id: nat) {
    id !in b.peers && |b.peers| > 0 ==>
      Gapless(AddKey(b.peers, id)) && forall k | k in b.peers :: NotTooFar(b.peers[k], b.tolerance)
  }

  /** A call keeps the balance if and only if its caller is known or joins well. */
  lemma WorkBalance(b: Book, id: nat, cb: Callback)
    requires BookBalanced(b) && WaitsIn(b, id) && b.tolerance >= 1
    ensures BookBalanced(Work(b, id, cb)) <==> JoinsWell(b, id)
    ensures BookBalanced(Work(b, id, cb)) ==> Work(b, id, cb).lost == b.lost && !Throws(b.peers, id)
  {
    var joined := AddKey(b.peers, id);
    SizeAfterKey(b.peers, id);
    if |joined| == 1 {
      LoneKey(joined, id);
    } else if !Gapless(joined) {
      CountingKeepsKeys(joined, id);
    } else if id in b.peers {
      GaplessKeys(joined);
      DoKeepsBalance(Sheet(b), id, cb);
      ByIdsRows(Do(Sheet(b), id, cb).peers);
    } else {
      JoinBalance(b, id, cb);
    }
  }

  lemma SizeAfterKey(peers: map<nat, Peer>, id: nat)
    ensures |AddKey(peers, id)| == if id in peers then |peers| else |peers| + 1
  {
    var joined := AddKey(peers, id);
    assert joined.Keys == peers.Keys + {id};
    assert |joined.Keys| == |joined| && |peers.Keys| == |peers|;
  }

  lemma LoneKey(peers: map<nat, Peer>, id: nat)
    requires |peers| == 1 && id in peers
    ensures forall k | k in peers :: k == id
    ensures |Counting(peers, id)| == 1 && forall k | k in Counting(peers, id) :: k == id
  {
    assert |peers.Keys| == |peers|;
    SubsetOfSameSize({id}, peers.Keys);
    CountingKeepsKeys(peers, id);
  }

  lemma CountingKeepsKeys(peers: map<nat, Peer>, id: nat)
    requires id in peers
    ensures |Counting(peers, id)| == |peers| && (Gapless(Counting(peers, id)) <==> Gapless(peers))
  {
    var counted := Counting(peers, id);
    assert counted.Keys == peers.Keys && |counted.Keys| == |counted| && |peers.Keys| == |peers|;
  }

  lemma JoinBalance(b: Book, id: nat, cb: Callback)
    requires BookBalanced(b) && b.tolerance >= 1 && id !in b.peers && |b.peers| > 0
    requires Gapless(AddKey(b.peers, id))
    ensures BookBalanced(Work(b, id, cb)) <==> forall k | k in b.peers :: NotTooFar(b.peers[k], b.tolerance)
    ensures Work(b, id, cb).lost == b.lost
  {
    var joined := AddKey(b.peers, id);
    var s := Sheet(b.(peers := joined));
    SizeAfterKey(b.peers, id);
    GaplessKeys(joined);
    var m := OthersOfNewcomer(b, id);
    JoinExactly(s, id, cb, m);
    ByIdsRows(Do(s, id, cb).peers);
    SameOthers(b, id);
  }

  lemma SameOthers(b: Book, id: nat)
    requires id !in b.peers && Gapless(AddKey(b.peers, id))
    ensures var rows := Rows(AddKey(b.peers, id));
            (forall k | k in b.peers :: NotTooFar(b.peers[k], b.tolerance))
            <==> forall i | 0 <= i < |rows| && i != id :: NotTooFar(rows[i], b.tolerance)
  {
    var joined := AddKey(b.peers, id);
    GaplessKeys(joined);
    forall i: nat | i != id
      ensures i in b.peers <==> i < |joined|
      ensures i in b.peers ==> Rows(joined)[i] == b.peers[i]
    {
      assert i in b.peers <==> i in joined;
    }
  }

  /** The peers a newcomer meets are balanced. */
  lemma OthersOfNewcomer(b: Book, id: nat) returns (m: nat)
    requires BookBalanced(b) && b.tolerance >= 1 && id !in b.peers && |b.peers| > 0
    requires Gapless(AddKey(b.peers, id))
    ensures OthersBalanced(Sheet(b.(peers := AddKey(b.peers, id))), id, m)
  {
    if |b.peers| == 1 {
      m := LoneOther(b, id);
    } else {
      var joined, rows := AddKey(b.peers, id), Rows(b.peers);
      var s := Sheet(b.(peers := joined));
      SizeAfterKey(b.peers, id);
      GaplessKeys(joined);
      GaplessKeys(b.peers);
      m := Min(rows);
      var j := MinId(rows, |rows|);
      assert id in joined && s.peers[id] == Peer(0, None);
      assert j in b.peers && s.peers[j].c == m;
      forall i | 0 <= i < |s.peers| && i != id
        ensures m <= s.peers[i].c && Fair(s.peers[i], m, s.tolerance)
      {
        assert i in joined && i in b.peers && s.peers[i] == rows[i];
      }
    }
  }

  lemma LoneOther(b: Book, id: nat) returns (m: nat)
    requires BookBalanced(b) && b.tolerance >= 1 && id !in b.peers && |b.peers| == 1
    requires Gapless(AddKey(b.peers, id))
    ensures OthersBalanced(Sheet(b.(peers := AddKey(b.peers, id))), id, m)
  {
    var joined := AddKey(b.peers, id);
    var s := Sheet(b.(peers := joined));
    SizeAfterKey(b.peers, id);
    GaplessKeys(joined);
    var j := if id == 0 then 1 else 0;
    assert j in joined && j in b.peers;
    m := b.peers[j].c;
    assert id in joined && |s.peers| == 2 && s.peers[id] == Peer(0, None) && s.peers[j] == b.peers[j];
    assert forall i | 0 <= i < |s.peers| && i != id :: s.peers[i] == b.peers[j];
  }

  // ---------- over whole runs

  function Run(b: Book, calls: seq<Call>): Book
    decreases |calls|
  {
    if calls == [] then b else Run(Work(b, calls[0].id, calls[0].cb), calls[1..])
  }

  /** No caller calls while its callback is held. */
  predicate AllWait(b: Book, calls: seq<Call>)
    decreases |calls|
  {
    calls != [] ==> WaitsIn(b, calls[0].id) && AllWait(Work(b, calls[0].id, calls[0].cb), calls[1..])
  }

  /** The calls that do not throw. */
  function Kept(b: Book, calls: seq<Call>): seq<Call>
    decreases |calls|
  {
    if calls == [] then []
    else (if Throws(b.peers, calls[0].id) then [] else [calls[0]])
         + Kept(Work(b, calls[0].id, calls[0].cb), calls[1..])
  }

  predicate StaysBalanced(b: Book, calls: seq<Call>)
    decreases |calls|
  {
    BookBalanced(b) && (calls != [] ==> StaysBalanced(Work(b, calls[0].id, calls[0].cb), calls[1..]))
  }

  predicate AllJoinWell(b: Book, calls: seq<Call>)
    decreases |calls|
  {
    calls != [] ==> JoinsWell(b, calls[0].id) && AllJoinWell(Work(b, calls[0].id, calls[0].cb), calls[1..])
  }

  lemma {:induction false} RunDelivers(b: Book, calls: seq<Call>, kept: seq<Call>, all: seq<Call>)
    requires AllWait(b, calls) && BookDelivered(b, kept, all)
    ensures BookDelivered(Run(b, calls), kept + Kept(b, calls), all + calls) && Run(b, calls).dropped == b.dropped
    decreases |calls|
  {
    if calls == [] {
      AddNothing(kept);
      AddNothing(all);
    } else {
      var b', now := Work(b, calls[0].id, calls[0].cb), if Throws(b.peers, calls[0].id) then [] else [calls[0]];
      StepDelivers(b, calls[0], b', kept, all, kept + now);
      RunDelivers(b', calls[1..], kept + now, all + [calls[0]]);
      Assoc(kept, now, Kept(b', calls[1..]));
      MoveFirst(all, calls);
    }
  }

  lemma StepDelivers(b: Book, c: Call, b': Book, kept: seq<Call>, all: seq<Call>, kept': seq<Call>)
    requires WaitsIn(b, c.id) && BookDelivered(b, kept, all) && b' == Work(b, c.id, c.cb)
    requires kept' == kept + (if Throws(b.peers, c.id) then [] else [c])
    ensures BookDelivered(b', kept', all + [c]) && b'.dropped == b.dropped
  {
    WorkDelivers(b, c.id, c.cb, kept, all);
    AddNothing(kept);
  }

  /** A balanced keeper stays balanced through a run if and only if everyone who joins during it joins well. */
  lemma {:induction false} RunBalance(b: Book, calls: seq<Call>)
    requires BookBalanced(b) && AllWait(b, calls) && b.tolerance >= 1
    ensures StaysBalanced(b, calls) <==> AllJoinWell(b, calls)
    decreases |calls|
  {
    if calls != [] {
      var c, rest := calls[0], calls[1..];
      var b' := Work(b, c.id, c.cb);
      WorkBalance(b, c.id, c.cb);
      WorkTolerance(b, c.id, c.cb);
      if BookBalanced(b') {
        RunBalance(b', rest);
      } else {
        NotBalanced(b', rest);
      }
    }
  }

  /** Through a run that stays balanced no call throws. */
  lemma {:induction false} BalancedRunKeepsAll(b: Book, calls: seq<Call>)
    requires StaysBalanced(b, calls) && AllWait(b, calls) && b.tolerance >= 1
    ensures Kept(b, calls) == calls
    decreases |calls|
  {
    if calls != [] {
      var b', rest := Work(b, calls[0].id, calls[0].cb), calls[1..];
      BalancedStep(b, calls[0].id, calls[0].cb, b', rest);
      BalancedRunKeepsAll(b', rest);
      SplitFirst(calls);
    }
  }

  lemma {:induction false} BalancedRunEnds(b: Book, calls: seq<Call>)
    requires StaysBalanced(b, calls) && AllWait(b, calls) && b.tolerance >= 1
    ensures Run(b, calls).lost == b.lost && BookBalanced(Run(b, calls))
    decreases |calls|
  {
    if calls != [] {
      var b', rest := Work(b, calls[0].id, calls[0].cb), calls[1..];
      BalancedStep(b, calls[0].id, calls[0].cb, b', rest);
      BalancedRunEnds(b', rest);
    }
  }

  lemma {:induction false} BalancedStep(b: Book, id: nat, cb: Callback, b': Book, rest: seq<Call>)
    requires b' == Work(b, id, cb)
    requires BookBalanced(b) && WaitsIn(b, id) && StaysBalanced(b', rest) && b.tolerance >= 1
    ensures b'.lost == b.lost && !Throws(b.peers, id) && b'.tolerance == b.tolerance
  {
    StartsBalanced(b', rest);
    WorkBalance(b, id, cb);
    WorkTolerance(b, id, cb);
  }

  lemma {:induction false} StartsBalanced(b: Book, calls: seq<Call>)
    requires StaysBalanced(b, calls)
    ensures BookBalanced(b)
  {
  }

  lemma {:induction false} NotBalanced(b: Book, calls: seq<Call>)
    requires !BookBalanced(b)
    ensures !StaysBalanced(b, calls)
  {
  }

  lemma WorkTolerance(b: Book, id: nat, cb: Callback)
    ensures Work(b, id, cb).tolerance == b.tolerance
  {
  }

  /** What balance means at any one moment. */
  lemma BalanceMeans(b: Book)
    requires BookBalanced(b) && b.tolerance >= 1
    ensures forall i, j | i in b.peers && j in b.peers :: b.peers[i].c - b.peers[j].c <= b.tolerance
    ensures forall i | i in b.peers ::
              b.peers[i].cb.Some? <==> exists j :: j in b.peers && b.peers[i].c == b.peers[j].c + b.tolerance
  {
    if |b.peers| > 1 {
      var rows := Rows(b.peers);
      GaplessKeys(b.peers);
      var least := MinId(rows, |rows|);
      forall i | i in b.peers
        ensures Min(rows) <= b.peers[i].c && Fair(b.peers[i], Min(rows), b.tolerance)
      {
        assert b.peers[i] == rows[i];
      }
      assert b.peers[least].c == Min(rows);
    } else {
      forall i, j | i in b.peers && j in b.peers ensures i == j {
        LoneKey(b.peers, i);
      }
    }
  }

  /** n registered peers that have done nothing. */
  function Registered(n: nat, tolerance: int): Book {
    Book(tolerance, ByIds(seq(n, _ => Peer(0, None))), [], [], [])
  }

  /** Peers that are registered beforehand join nobody. */
  lemma {:induction false} NobodyJoins(b: Book, calls: seq<Call>, n: nat)
    requires (forall id: nat :: id in b.peers <==> id < n) && forall c | c in calls :: c.id < n
    ensures AllJoinWell(b, calls)
    decreases |calls|
  {
    if calls != [] {
      WorkKeys(b, calls[0].id, calls[0].cb);
      NobodyJoins(Work(b, calls[0].id, calls[0].cb), calls[1..], n);
    }
  }

  lemma WorkKeys(b: Book, id: nat, cb: Callback)
    requires id in b.peers
    ensures Work(b, id, cb).peers.Keys == b.peers.Keys
  {
    if |b.peers| != 1 && Gapless(b.peers) {
      GaplessKeys(b.peers);
      DoKeepsSize(Sheet(b), id, cb);
    }
  }

  lemma DoKeepsSize(s: State, id: nat, cb: Callback)
    requires id < |s.peers|
    ensures |Do(s, id, cb).peers| == |s.peers|
  {
  }

  lemma FreshDelivered(n: nat, tolerance: int)
    requires tolerance >= 1
    ensures BookDelivered(Registered(n, tolerance), [], []) && BookBalanced(Registered(n, tolerance))
  {
    var b, rows := Registered(n, tolerance), seq(n, _ => Peer(0, None));
    ByIdsRows(rows);
    if n > 0 {
      MinIs(rows, 0);
    }
  }

  /**
   * However peers with whatever ids call, some registered beforehand and others on the way, as long as each waits for
   * its callback: nothing is dropped, and each peer's callbacks run once each in order, but for the one it holds and
   * those whose call threw. The keeper is balanced throughout if and only if everyone who joins does so without a gap
   * and finds nobody too far ahead; then no call throws.
   */
  lemma {:induction false} EveryRun(n: nat, tolerance: int, calls: seq<Call>)
    requires tolerance >= 1 && AllWait(Registered(n, tolerance), calls)
    ensures var b := Registered(n, tolerance);
            var end := Run(b, calls);
            && end.dropped == [] && BookDelivered(end, Kept(b, calls), calls)
            && (StaysBalanced(b, calls) <==> AllJoinWell(b, calls))
            && (AllJoinWell(b, calls) ==> BookBalanced(end) && end.lost == [] && Kept(b, calls) == calls)
            && ((forall c | c in calls :: c.id < n) ==> AllJoinWell(b, calls))
  {
    var b := Registered(n, tolerance);
    FreshDelivered(n, tolerance);
    RunDelivers(b, calls, [], []);
    assert [] + Kept(b, calls) == Kept(b, calls) && [] + calls == calls;
    RunBalance(b, calls);
    if AllJoinWell(b, calls) {
      BalancedRunKeepsAll(b, calls);
      BalancedRunEnds(b, calls);
    }
    if forall c | c in calls :: c.id < n {
      assert forall id: nat :: id in b.peers <==> id < |seq(n, _ => Peer(0, None))|;
      NobodyJoins(b, calls, n);
    }
  }

  /** Without a positive tolerance no callback of two or more peers ever runs. */
  lemma {:induction false} StuckWithoutTolerance(b: Book, calls: seq<Call>)
    requires |b.peers| > 1 && b.tolerance <= 0
    ensures Run(b, calls).ran == b.ran
    decreases |calls|
  {
    if calls != [] {
      StuckStep(b, calls[0].id, calls[0].cb);
      StuckWithoutTolerance(Work(b, calls[0].id, calls[0].cb), calls[1..]);
    }
  }

  lemma StuckStep(b: Book, id: nat, cb: Callback)
    requires |b.peers| > 1 && b.tolerance <= 0
    ensures var b' := Work(b, id, cb);
            b'.ran == b.ran && |b'.peers| > 1 && b'.tolerance == b.tolerance
  {
    var joined := AddKey(b.peers, id);
    SizeAfterKey(b.peers, id);
    if Gapless(joined) {
      GaplessKeys(joined);
      var s := Sheet(b.(peers := joined));
      assert id in joined;
      DoKeepsSize(s, id, cb);
      ByIdsRows(Do(s, id, cb).peers);
    } else {
      CountingKeepsKeys(joined, id);
    }
  }
}
