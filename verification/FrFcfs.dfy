/** The per-bank request queues: first-ready first-come-first-served with a limit on row hits. */
module FrFcfs {
  import opened IntrusiveList

  /** id tells requests apart; bank counts through all ranks; hits is the place in a run of requests for the
      same row. */
  datatype Request = Request(id: nat, rank: nat, bank: nat, row: int, write: bool, arrival: nat, hits: nat)

  datatype Row = Row(open: bool, openRow: int, curHits: nat)

  /** The last request for this row, or -1. */
  function LastOf(q: seq<Request>, row: int): (i: int)
    ensures -1 <= i < |q|
  {
    if q == [] then -1
    else if q[|q| - 1].row == row then |q| - 1
    else LastOf(q[..|q| - 1], row)
  }

  lemma {:induction false} LastOfIs(q: seq<Request>, row: int)
    ensures var i := LastOf(q, row); (i >= 0 ==> q[i].row == row) && forall j :: i < j < |q| ==> q[j].row != row
  {
    if q != [] && q[|q| - 1].row != row { LastOfIs(q[..|q| - 1], row); }
  }

  /** Where request r goes, and its number in its run. */
  function Place(q: seq<Request>, r: Request, b: Row, limit: nat): (nat, nat) {
    var i := LastOf(q, r.row);
    if i >= 0 then (if q[i].hits < limit then (i + 1, q[i].hits + 1) else (|q|, 0))
    else if b.open && r.row == b.openRow && b.curHits < limit && q == [] then (0, b.curHits + 1)
    else (|q|, 0)
  }

  function Inserted(q: seq<Request>, k: nat, r: Request): seq<Request>
    requires k <= |q|
  {
    q[..k] + [r] + q[k..]
  }

  function Queued(q: seq<Request>, r: Request, b: Row, limit: nat): seq<Request> {
    var (k, h) := Place(q, r, b, limit);
    Inserted(q, k, r.(hits := h))
  }

  // ---------------------------------------------------------------- runs of row hits

  /** The queue is a sequence of same-row runs numbered consecutively, none beyond the limit. */
  ghost predicate RunOk(q: seq<Request>, limit: nat, i: nat)
    requires i < |q|
  {
    q[i].hits <= limit && (i > 0 && q[i].hits != 0 ==> q[i].row == q[i - 1].row && q[i].hits == q[i - 1].hits + 1)
  }

  ghost predicate Runs(q: seq<Request>, limit: nat) { forall i :: 0 <= i < |q| ==> RunOk(q, limit, i) }

  lemma QueuedRuns(q: seq<Request>, r: Request, b: Row, limit: nat)
    requires Runs(q, limit)
    ensures Runs(Queued(q, r, b, limit), limit)
  {
    var (k, h) := Place(q, r, b, limit);
    var w := Queued(q, r, b, limit);
    LastOfIs(q, r.row);
    forall i | 0 <= i < |w| ensures RunOk(w, limit, i) {
      if i < k { assert RunOk(q, limit, i); }
      if i > k { assert RunOk(q, limit, i - 1); }
      if i == k && k > 0 { assert RunOk(q, limit, k - 1); }
    }
  }

  lemma ServedRuns(q: seq<Request>, limit: nat)
    requires Runs(q, limit) && q != []
    ensures Runs(q[1..], limit)
  {
    forall i | 0 <= i < |q[1..]| ensures RunOk(q[1..], limit, i) { assert RunOk(q, limit, i + 1); }
  }

  // ---------------------------------------------------------------- arrival order

  /** The requests for one row, in queue order. */
  function OfRow(q: seq<Request>, row: int): seq<nat> {
    if q == [] then [] else (if q[0].row == row then [q[0].id] else []) + OfRow(q[1..], row)
  }

  lemma Assoc(a: seq<nat>, b: seq<nat>, c: seq<nat>)
    ensures a + (b + c) == a + b + c
  {}

  lemma {:induction false} OfRowConcat(p: seq<Request>, q: seq<Request>, row: int)
    ensures OfRow(p + q, row) == OfRow(p, row) + OfRow(q, row)
  {
    if p == [] {
      assert p + q == q;
    } else {
      assert (p + q)[0] == p[0] && (p + q)[1..] == p[1..] + q;
      OfRowConcat(p[1..], q, row);
      var h := if p[0].row == row then [p[0].id] else [];
      Assoc(h, OfRow(p[1..], row), OfRow(q, row));
    }
  }

  lemma {:induction false} OfRowNone(q: seq<Request>, row: int)
    requires forall j :: 0 <= j < |q| ==> q[j].row != row
    ensures OfRow(q, row) == []
  {
    if q != [] { OfRowNone(q[1..], row); }
  }

  /** A new request goes behind every request for its row; no other row's order changes. */
  lemma SameRowInOrder(q: seq<Request>, r: Request, b: Row, limit: nat, row: int)
    ensures OfRow(Queued(q, r, b, limit), row) == OfRow(q, row) + if row == r.row then [r.id] else []
  {
    var (k, h) := Place(q, r, b, limit);
    LastOfIs(q, r.row);
    OfRowInserted(q, k, r.(hits := h), row);
    if row == r.row { OfRowNone(q[k..], row); }
  }

  lemma OfRowInserted(q: seq<Request>, k: nat, x: Request, row: int)
    requires k <= |q|
    ensures OfRow(Inserted(q, k, x), row) == OfRow(q[..k], row) + (if x.row == row then [x.id] else []) + OfRow(q[k..], row)
    ensures OfRow(q, row) == OfRow(q[..k], row) + OfRow(q[k..], row)
  {
    assert q == q[..k] + q[k..];
    OfRowConcat(q[..k], q[k..], row);
    OfRowConcat(q[..k] + [x], q[k..], row);
    OfRowConcat(q[..k], [x], row);
    assert [x][1..] == [];
  }

  // ---------------------------------------------------------------- bounded overtaking

  /** What request j may cost those behind it: itself, and the row hits its run may still take in. */
  ghost function Cost(q: seq<Request>, limit: nat, j: nat): int
    requires j + 1 < |q|
  {
    1 + if q[j + 1].hits == 0 then limit - q[j].hits else 0
  }

  /** The most requests that can be served before the one at i. */
  ghost function Ahead(q: seq<Request>, limit: nat, i: nat): int
    requires i < |q|
  {
    if i == 0 then 0 else Ahead(q, limit, i - 1) + Cost(q, limit, i - 1)
  }

  lemma {:induction false} AheadAtLeast(q: seq<Request>, limit: nat, i: nat)
    requires Runs(q, limit) && i < |q|
    ensures Ahead(q, limit, i) >= i
  {
    if i > 0 {
      assert RunOk(q, limit, i - 1);
      AheadAtLeast(q, limit, i - 1);
    }
  }

  lemma {:induction false} AheadPrefix(q: seq<Request>, w: seq<Request>, limit: nat, i: nat)
    requires i < |q| && i < |w| && forall j :: 0 <= j <= i ==> q[j] == w[j]
    ensures Ahead(q, limit, i) == Ahead(w, limit, i)
  {
    if i > 0 { AheadPrefix(q, w, limit, i - 1); }
  }

  /** Queueing a request never raises what can be served before one already there. */
  lemma {:induction false} QueuedAhead(q: seq<Request>, r: Request, b: Row, limit: nat, i: nat)
    requires Runs(q, limit) && i < |q|
    ensures var (k, _) := Place(q, r, b, limit); var w := Queued(q, r, b, limit);
      var i' := if i < k then i else i + 1;
      w[i'] == q[i] && Ahead(w, limit, i') == Ahead(q, limit, i)
  {
    var (k, h) := Place(q, r, b, limit);
    var w := Queued(q, r, b, limit);
    LastOfIs(q, r.row);
    if i < k {
      AheadPrefix(q, w, limit, i);
    } else if i == k {
      AheadPrefix(q, w, limit, k - 1);
      assert RunOk(q, limit, k);
    } else {
      QueuedAhead(q, r, b, limit, i - 1);
    }
  }

  /** Serving the front lowers it, by one at least. */
  lemma {:induction false} ServedAhead(q: seq<Request>, limit: nat, i: nat)
    requires Runs(q, limit) && 0 < i < |q|
    ensures Ahead(q[1..], limit, i - 1) == Ahead(q, limit, i) - Cost(q, limit, 0)
    ensures Cost(q, limit, 0) >= 1
  {
    assert RunOk(q, limit, 0);
    if i > 1 { ServedAhead(q, limit, i - 1); }
  }

  // ---------------------------------------------------------------- whole runs

  /** What happens to a bank queue: a request is queued, with the row buffer in any state, or the front is served. */
  datatype Op = Queue(r: Request, b: Row) | Serve

  /** How many requests are served before the one now at i, or up to the end of ops. */
  ghost function ServedBefore(q: seq<Request>, limit: nat, i: nat, ops: seq<Op>): (nat, bool)
    requires i < |q|
    decreases |ops|
  {
    if ops == [] then (0, false)
    else match ops[0]
      case Queue(r, b) =>
        var (k, _) := Place(q, r, b, limit);
        ServedBefore(Queued(q, r, b, limit), limit, if i < k then i else i + 1, ops[1..])
      case Serve =>
        if i == 0 then (0, true)
        else var (n, done) := ServedBefore(q[1..], limit, i - 1, ops[1..]); (n + 1, done)
  }

  ghost function Serves(ops: seq<Op>): nat { if ops == [] then 0 else (if ops[0].Serve? then 1 else 0) + Serves(ops[1..]) }

  /** However many requests keep arriving, a queued request is overtaken by no more than was due when it stood
      at i: at most Ahead(q, limit, i) services come first, and the next one is its own. */
  lemma {:induction false} BoundedOvertaking(q: seq<Request>, limit: nat, i: nat, ops: seq<Op>)
    requires Runs(q, limit) && i < |q|
    ensures ServedBefore(q, limit, i, ops).0 <= Ahead(q, limit, i)
    ensures Serves(ops) > Ahead(q, limit, i) ==> ServedBefore(q, limit, i, ops).1
    decreases |ops|
  {
    AheadAtLeast(q, limit, i);
    if ops != [] {
      match ops[0]
      case Queue(r, b) =>
        QueuedRuns(q, r, b, limit);
        QueuedAhead(q, r, b, limit, i);
        var (k, _) := Place(q, r, b, limit);
        BoundedOvertaking(Queued(q, r, b, limit), limit, if i < k then i else i + 1, ops[1..]);
      case Serve =>
        if i > 0 {
          ServedRuns(q, limit);
          ServedAhead(q, limit, i);
          BoundedOvertaking(q[1..], limit, i - 1, ops[1..]);
        }
    }
  }

  // ---------------------------------------------------------------- row hits are taken, up to the limit

  /** j is the next request for the row of i. */
  ghost predicate NextOfRow(q: seq<Request>, i: int, j: int) {
    0 <= i < j < |q| && q[i].row == q[j].row && forall k :: i < k < j ==> q[k].row != q[j].row
  }

  /** A request starts a new run of its row only if the run before it is full. */
  ghost predicate RunsFull(q: seq<Request>, limit: nat) {
    forall i, j :: NextOfRow(q, i, j) && q[j].hits == 0 ==> q[i].hits == limit
  }

  lemma QueuedFull(q: seq<Request>, r: Request, b: Row, limit: nat)
    requires Runs(q, limit) && RunsFull(q, limit)
    ensures RunsFull(Queued(q, r, b, limit), limit)
  {
    var (k, h) := Place(q, r, b, limit);
    var w := Queued(q, r, b, limit);
    LastOfIs(q, r.row);
    forall i, j | NextOfRow(w, i, j) && w[j].hits == 0 ensures w[i].hits == limit {
      if j == k {
        assert w[i] == q[i] && RunOk(q, limit, i);
        var l := LastOf(q, r.row);
        assert 0 <= l < k ==> w[l] == q[l];
      } else if i != k {
        InsertedNext(q, k, r.(hits := h), i, j);
      }
    }
  }

  lemma InsertedNext(q: seq<Request>, k: nat, x: Request, i: int, j: int)
    requires k <= |q| && NextOfRow(Inserted(q, k, x), i, j) && i != k && j != k
    ensures NextOfRow(q, if i < k then i else i - 1, if j < k then j else j - 1)
  {
    var w, i', j' := Inserted(q, k, x), if i < k then i else i - 1, if j < k then j else j - 1;
    forall n | i' < n < j' ensures q[n].row != q[j'].row { assert q[n] == w[if n < k then n else n + 1]; }
  }

  lemma ServedFull(q: seq<Request>, limit: nat)
    requires q != [] && RunsFull(q, limit)
    ensures RunsFull(q[1..], limit)
  {
    var w := q[1..];
    forall i, j | NextOfRow(w, i, j) && w[j].hits == 0 ensures w[i].hits == limit {
      assert NextOfRow(q, i + 1, j + 1) by {
        forall n | i + 1 < n < j + 1 ensures q[n].row != q[j + 1].row { assert w[n - 1] == q[n]; }
      }
    }
  }

  // ---------------------------------------------------------------- a bank, from its first request on

  /** What a bank with one list has served, what it has queued, and its row buffer. */
  datatype BankState = BankState(served: seq<Request>, q: seq<Request>, b: Row)

  /** A service may close the row behind it, and so does a refresh. */
  datatype Event = Arrive(r: Request) | ServeFront(closes: bool) | Close

  function Next(s: BankState, e: Event, limit: nat): BankState {
    match e
    case Arrive(r) => s.(q := Queued(s.q, r, s.b, limit))
    case ServeFront(closes) =>
      if s.q == [] then s
      else BankState(s.served + [s.q[0]], s.q[1..], Row(!closes, s.q[0].row, s.q[0].hits))
    case Close => s.(b := s.b.(open := false))
  }

  function History(events: seq<Event>, limit: nat): BankState {
    if events == [] then BankState([], [], Row(false, 0, 0)) else Next(History(events[..|events| - 1], limit), events[|events| - 1], limit)
  }

  ghost predicate BankOk(s: BankState, limit: nat) {
    && Runs(s.served + s.q, limit) && RunsFull(s.q, limit)
    && (s.b.open ==> s.served != [] && var last := s.served[|s.served| - 1]; s.b.openRow == last.row && s.b.curHits == last.hits)
  }

  lemma TailRuns(s: seq<Request>, q: seq<Request>, limit: nat)
    requires Runs(s + q, limit)
    ensures Runs(q, limit)
  {
    forall i | 0 <= i < |q| ensures RunOk(q, limit, i) { assert RunOk(s + q, limit, |s| + i); }
  }

  lemma ArriveKeeps(s: BankState, r: Request, limit: nat)
    requires BankOk(s, limit)
    ensures BankOk(Next(s, Arrive(r), limit), limit)
  {
    TailRuns(s.served, s.q, limit);
    QueuedFull(s.q, r, s.b, limit);
    QueuedRuns(s.q, r, s.b, limit);
    var n, q, w := |s.served|, s.served + s.q, s.served + Queued(s.q, r, s.b, limit);
    forall i | 0 <= i < |w| ensures RunOk(w, limit, i) {
      if i < n { assert RunOk(q, limit, i); }
      if i >= n { assert RunOk(Queued(s.q, r, s.b, limit), limit, i - n); }
      if i == n && s.q != [] { assert RunOk(q, limit, n); }
      if i == n > 0 { assert RunOk(q, limit, n - 1); }
    }
  }

  lemma {:induction false} HistoryOk(events: seq<Event>, limit: nat)
    ensures BankOk(History(events, limit), limit)
  {
    if events != [] {
      var s, e := History(events[..|events| - 1], limit), events[|events| - 1];
      HistoryOk(events[..|events| - 1], limit);
      match e
      case Arrive(r) => ArriveKeeps(s, r, limit);
      case ServeFront(closes) =>
        if s.q != [] {
          assert s.served + [s.q[0]] + s.q[1..] == s.served + s.q;
          ServedFull(s.q, limit);
        }
      case Close => assert BankOk(s, limit);
    }
  }

  lemma {:induction false} RunLength(q: seq<Request>, limit: nat, i: nat, n: nat)
    requires Runs(q, limit) && i + n < |q| && forall k :: i < k <= i + n ==> q[k].hits != 0
    ensures q[i + n].hits == q[i].hits + n <= limit
  {
    assert RunOk(q, limit, i + n);
    if n > 0 { RunLength(q, limit, i, n - 1); }
  }

  /** However requests arrive, one at a time included, a bank never serves more than limit row hits on end. */
  lemma HitsLimited(events: seq<Event>, limit: nat, i: nat, n: nat)
    requires var t := History(events, limit).served; i + n < |t| && forall k :: i < k <= i + n ==> t[k].hits != 0
    ensures n <= limit
  {
    var s := History(events, limit);
    HistoryOk(events, limit);
    var q := s.served + s.q;
    forall k | i < k <= i + n ensures q[k].hits != 0 { assert q[k] == s.served[k]; }
    RunLength(q, limit, i, n);
  }

  /** A request for the open row that finds no queue is a hit, numbered on, while the limit allows. */
  lemma OpenRowHit(s: BankState, r: Request, limit: nat)
    requires BankOk(s, limit) && s.q == [] && s.b.open
    ensures var last := s.served[|s.served| - 1];
      Next(s, Arrive(r), limit).q == [r.(hits := if r.row == last.row && last.hits < limit then last.hits + 1 else 0)]
  {
  }

  // ---------------------------------------------------------------- the loop over the list

  ghost function Contents(l: InList<Request>): seq<Request>
    reads l, l.nodes
  {
    seq(|l.nodes|, i requires 0 <= i < |l.nodes| reads l, l.nodes => l.nodes[i].elem)
  }

  /** The walk back from the tail to the last request for this row. */
  method FindLastOf(q: InList<Request>, row: int) returns (m: Node?<Request>)
    requires q.Valid()
    ensures m == At(q.nodes, LastOf(Contents(q), row))
  {
    ghost var s := Contents(q);
    ghost var k := |s|;
    m := q.tail;
    assert s[..k] == s;
    while m != null && m.elem.row != row
      invariant 0 <= k <= |s| && m == At(q.nodes, k - 1) && LastOf(s, row) == LastOf(s[..k], row)
      decreases k
    {
      assert q.LinkOk(q.nodes, k - 1);
      assert s[..k][..k - 1] == s[..k - 1];
      m := m.prev;
      k := k - 1;
    }
  }

  /** Queues e in its bank's list. */
  method QueueRequest(q: InList<Request>, e: Node<Request>, b: Row, limit: nat)
    requires q.Valid() && e.Detached()
    modifies q, q.nodes`next, q.nodes`prev, e
    ensures q.Valid() && Contents(q) == Queued(old(Contents(q)), old(e.elem), b, limit)
  {
    var m := FindLastOf(q, e.elem.row);
    if m != null {
      QueueBehind(q, m, e, b, limit);
    } else {
      QueueUnmatched(q, e, b, limit);
    }
  }

  /** m is the last request for e's row. */
  method QueueBehind(q: InList<Request>, m: Node<Request>, e: Node<Request>, ghost b: Row, limit: nat)
    requires q.Valid() && e.Detached() && m == At(q.nodes, LastOf(Contents(q), e.elem.row))
    modifies q, q.nodes`next, q.nodes`prev, e
    ensures q.Valid() && Contents(q) == Queued(old(Contents(q)), old(e.elem), b, limit)
  {
    if m.elem.hits < limit {
      InsertHit(q, m, e, m.elem.hits + 1, LastOf(Contents(q), e.elem.row));
    } else {
      AppendFresh(q, e);
    }
  }

  /** No request for e's row is queued. */
  method QueueUnmatched(q: InList<Request>, e: Node<Request>, b: Row, limit: nat)
    requires q.Valid() && e.Detached() && LastOf(Contents(q), e.elem.row) == -1
    modifies q, q.nodes`next, q.nodes`prev, e
    ensures q.Valid() && Contents(q) == Queued(old(Contents(q)), old(e.elem), b, limit)
  {
    q.Apart(e);
    if b.open && e.elem.row == b.openRow && b.curHits < limit && q.Empty() {
      e.elem := e.elem.(hits := b.curHits + 1);
      q.PushFront(e);
      assert Contents(q) == Inserted(old(Contents(q)), 0, e.elem);
    } else {
      AppendFresh(q, e);
    }
  }

  method InsertHit(q: InList<Request>, m: Node<Request>, e: Node<Request>, hits: nat, ghost i: nat)
    requires q.Valid() && e.Detached() && i < |q.nodes| && q.nodes[i] == m
    modifies q, q.nodes`next, q.nodes`prev, e
    ensures q.Valid() && Contents(q) == Inserted(old(Contents(q)), i + 1, old(e.elem).(hits := hits))
  {
    q.Apart(e);
    e.elem := e.elem.(hits := hits);
    q.InsertAfter(m, e, i);
  }

  method AppendFresh(q: InList<Request>, e: Node<Request>)
    requires q.Valid() && e.Detached()
    modifies q, q.nodes`next, q.nodes`prev, e
    ensures q.Valid() && Contents(q) == Inserted(old(Contents(q)), |old(Contents(q))|, old(e.elem).(hits := 0))
  {
    q.Apart(e);
    e.elem := e.elem.(hits := 0);
    q.PushBack(e);
  }
}
