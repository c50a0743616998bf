/** The data bus of a detailed memory channel: an earliest-fit allocator over a short log of transfers. */
module DataBus {
  /** A read waits tCAS for its data and a write tCWD; depth is the length of the log.  A rank left alone for more
      than powerDownCycle cycles powers down, unless that is 0, and its next access pays tXP. */
  datatype Params = Params(tTrans: nat, tTransCrit: nat, tRTRS: nat, tCAS: nat, tCWD: nat, depth: nat,
                           ranks: nat, powerDownCycle: nat, tXP: nat)
  {
    ghost predicate Valid() { tTrans > 0 && depth > 0 && tTransCrit <= tTrans && ranks > 0 }
    function Wait(write: bool): nat { if write then tCWD else tCAS }
    function Slot(): nat { tTrans + tRTRS }

    /** Powering down costs nothing, never happens, or concerns the channel's only rank. */
    predicate Harmless() { tXP == 0 || powerDownCycle == 0 || ranks == 1 }
  }

  /** A transfer occupies the bus from start up to end. */
  datatype Transfer = Transfer(start: nat, end: nat)

  predicate Le(a: Transfer, b: Transfer) { a.start < b.start || (a.start == b.start && a.end <= b.end) }

  /** A slot at x and logged transfer b come closer than tRTRS. */
  predicate Clash(p: Params, x: nat, b: Transfer) { b.start < x + p.Slot() && x < b.end + p.tRTRS }

  predicate Apart(p: Params, a: Transfer, b: Transfer) { a.end + p.tRTRS <= b.start || b.end + p.tRTRS <= a.start }

  /** Sorted, each as long as a transfer at least, and each tRTRS clear of the next. */
  ghost predicate LogOk(p: Params, log: seq<Transfer>) {
    && (forall i :: 0 <= i < |log| ==> Long(p, log[i]))
    && (forall i, j :: 0 <= i < j < |log| ==> Clear(p, log[i], log[j]))
  }

  ghost predicate Long(p: Params, a: Transfer) { a.start + p.tTrans <= a.end }

  ghost predicate Clear(p: Params, a: Transfer, b: Transfer) { a.end + p.tRTRS <= b.start }

  // ---------------------------------------------------------------- finding a slot

  /** The scan of the log from entry i on, with x the slot found so far. */
  function Scan(p: Params, log: seq<Transfer>, i: nat, x: nat): nat
    requires i <= |log|
    decreases |log| - i
  {
    if i == |log| then x
    else
      var busStart, busEnd, end := log[i].start, log[i].end + p.tRTRS, x + p.Slot();
      if (busStart < end <= busEnd) || (busStart <= x < busEnd) then Scan(p, log, i + 1, busEnd)
      else if busStart > end then x
      else Scan(p, log, i + 1, x)
  }

  ghost predicate Fits(p: Params, log: seq<Transfer>, x: nat) { forall i :: 0 <= i < |log| ==> !Clash(p, x, log[i]) }

  ghost predicate Earliest(p: Params, log: seq<Transfer>, from: nat, x: nat) {
    x >= from && Fits(p, log, x) && forall y :: from <= y < x ==> !Fits(p, log, y)
  }

  /** On an ordered log, the scan finds the first slot that keeps its distance from every transfer in it. */
  lemma {:induction false} ScanEarliest(p: Params, log: seq<Transfer>, i: nat, from: nat, x: nat)
    requires p.Valid() && LogOk(p, log) && i <= |log| && from <= x
    requires forall j :: 0 <= j < i ==> !Clash(p, x, log[j])
    requires forall y :: from <= y < x ==> !Fits(p, log, y)
    ensures Earliest(p, log, from, Scan(p, log, i, x))
    decreases |log| - i
  {
    if i < |log| {
      var busEnd := log[i].end + p.tRTRS;
      assert Long(p, log[i]);
      assert forall j :: i < j < |log| ==> Clear(p, log[i], log[j]);
      if Clash(p, x, log[i]) {
        forall y | x <= y < busEnd ensures !Fits(p, log, y) { assert Clash(p, y, log[i]); }
        ScanEarliest(p, log, i + 1, from, busEnd);
      } else if log[i].start <= x + p.Slot() {
        ScanEarliest(p, log, i + 1, from, x);
      }
    }
  }

  // ---------------------------------------------------------------- logging a transfer

  /** How many entries of a sorted log go before t. */
  function Place(log: seq<Transfer>, t: Transfer): (k: nat)
    ensures k <= |log|
  {
    if log == [] || Le(log[|log| - 1], t) then |log| else Place(log[..|log| - 1], t)
  }

  lemma {:induction false} PlaceIs(log: seq<Transfer>, t: Transfer)
    ensures var k := Place(log, t); (k > 0 ==> Le(log[k - 1], t)) && forall i :: k <= i < |log| ==> !Le(log[i], t)
  {
    if log != [] && !Le(log[|log| - 1], t) { PlaceIs(log[..|log| - 1], t); }
  }

  function Insert(log: seq<Transfer>, t: Transfer): (w: seq<Transfer>)
    ensures |w| == |log| + 1
    ensures var k := Place(log, t); forall i :: 0 <= i < |w| ==> w[i] == if i < k then log[i] else if i == k then t else log[i - 1]
  {
    var k := Place(log, t);
    log[..k] + [t] + log[k..]
  }

  function Sort(log: seq<Transfer>): (w: seq<Transfer>)
    ensures |w| == |log|
  {
    if log == [] then [] else Insert(Sort(log[..|log| - 1]), log[|log| - 1])
  }

  ghost predicate Sorted(log: seq<Transfer>) { forall i, j :: 0 <= i < j < |log| ==> Le(log[i], log[j]) }

  lemma InsertSorted(log: seq<Transfer>, t: Transfer)
    requires Sorted(log)
    ensures Sorted(Insert(log, t))
  {
    PlaceIs(log, t);
    var k, w := Place(log, t), Insert(log, t);
    forall i | 0 <= i < k ensures Le(log[i], t) { assert i < k - 1 ==> Le(log[i], log[k - 1]); }
  }

  lemma InsertContents(log: seq<Transfer>, t: Transfer)
    ensures multiset(Insert(log, t)) == multiset(log) + multiset{t}
  {
    var k := Place(log, t);
    assert log == log[..k] + log[k..];
  }

  /** The log's sort puts its entries in order and keeps them all. */
  lemma {:induction false} SortSorts(log: seq<Transfer>)
    ensures Sorted(Sort(log)) && multiset(Sort(log)) == multiset(log)
  {
    if log != [] {
      var n := |log| - 1;
      SortSorts(log[..n]);
      InsertSorted(Sort(log[..n]), log[n]);
      InsertContents(Sort(log[..n]), log[n]);
      assert log == log[..n] + [log[n]];
    }
  }

  lemma {:induction false} SortedStays(log: seq<Transfer>)
    requires Sorted(log)
    ensures Sort(log) == log
  {
    if log != [] {
      var n := |log| - 1;
      SortedStays(log[..n]);
      assert log == log[..n] + [log[n]];
      assert n > 0 ==> Le(log[n - 1], log[n]);
    }
  }

  /** Past the depth, the oldest entry goes and the next one blocks all before it. */
  function Trimmed(p: Params, log: seq<Transfer>): (w: seq<Transfer>)
    requires p.depth > 0
    ensures |log| <= p.depth ==> w == log
    ensures |log| > p.depth ==> |w| == |log| - 1 && w[0] == log[1].(start := 0) && forall i :: 0 < i < |w| ==> w[i] == log[i + 1]
  {
    if |log| > p.depth then log[1..][0 := log[1].(start := 0)] else log
  }

  function Logged(p: Params, log: seq<Transfer>, t: Transfer): seq<Transfer>
    requires p.depth > 0
  {
    Trimmed(p, Sort(log + [t]))
  }

  lemma InsertClear(p: Params, log: seq<Transfer>, t: Transfer, i: nat)
    requires p.Valid() && LogOk(p, log) && Fits(p, log, t.start) && t.end == t.start + p.tTrans && i < |log|
    ensures if i < Place(log, t) then Clear(p, log[i], t) else Clear(p, t, log[i])
  {
    PlaceIs(log, t);
    var k := Place(log, t);
    assert !Clash(p, t.start, log[i]) && Long(p, log[i]);
    if i + 1 < k { assert Clear(p, log[i], log[k - 1]) && Long(p, log[k - 1]); }
  }

  /** A slot that fits keeps the log in order. */
  lemma InsertOk(p: Params, log: seq<Transfer>, t: Transfer)
    requires p.Valid() && LogOk(p, log) && Fits(p, log, t.start) && t.end == t.start + p.tTrans
    ensures LogOk(p, Insert(log, t))
  {
    var k, w := Place(log, t), Insert(log, t);
    forall i | 0 <= i < |w| ensures Long(p, w[i]) { assert i != k ==> Long(p, log[if i < k then i else i - 1]); }
    forall i, j | 0 <= i < j < |w| ensures Clear(p, w[i], w[j]) {
      if i == k {
        InsertClear(p, log, t, j - 1);
      } else if j == k {
        InsertClear(p, log, t, i);
      } else {
        assert Clear(p, log[if i < k then i else i - 1], log[if j < k then j else j - 1]);
      }
    }
  }

  lemma TrimOk(p: Params, log: seq<Transfer>)
    requires p.Valid() && LogOk(p, log) && |log| <= p.depth + 1
    ensures LogOk(p, Trimmed(p, log)) && |Trimmed(p, log)| <= p.depth
  {
    var w := Trimmed(p, log);
    if |log| > p.depth {
      forall i | 0 <= i < |w| ensures Long(p, w[i]) { assert Long(p, log[i + 1]); }
      forall i, j | 0 <= i < j < |w| ensures Clear(p, w[i], w[j]) { assert Clear(p, log[i + 1], log[j + 1]); }
    }
  }

  lemma LoggedIs(p: Params, log: seq<Transfer>, t: Transfer)
    requires p.Valid() && LogOk(p, log)
    ensures Logged(p, log, t) == Trimmed(p, Insert(log, t))
  {
    forall i, j | 0 <= i < j < |log| ensures Le(log[i], log[j]) { assert Clear(p, log[i], log[j]) && Long(p, log[i]); }
    SortedStays(log);
    assert (log + [t])[..|log|] == log;
  }

  ghost predicate Covers(a: Transfer, t: Transfer) { a.start <= t.start && t.end <= a.end }

  ghost predicate CoveredIn(log: seq<Transfer>, t: Transfer) { exists i :: 0 <= i < |log| && Covers(log[i], t) }

  /** Every transfer there ever was lies within an entry of the log. */
  ghost predicate AllCovered(log: seq<Transfer>, past: seq<Transfer>) { forall k :: 0 <= k < |past| ==> CoveredIn(log, past[k]) }

  lemma InsertCovers(log: seq<Transfer>, t: Transfer, x: Transfer)
    requires CoveredIn(log, x) || x == t
    ensures CoveredIn(Insert(log, t), x)
  {
    var k, w := Place(log, t), Insert(log, t);
    if x == t {
      assert Covers(w[k], x);
    } else {
      var i :| 0 <= i < |log| && Covers(log[i], x);
      assert Covers(w[if i < k then i else i + 1], x);
    }
  }

  lemma TrimCovers(p: Params, log: seq<Transfer>, x: Transfer)
    requires p.Valid() && LogOk(p, log) && CoveredIn(log, x)
    ensures CoveredIn(Trimmed(p, log), x)
  {
    var i :| 0 <= i < |log| && Covers(log[i], x);
    var w := Trimmed(p, log);
    if |log| > p.depth {
      assert Clear(p, log[0], log[1]) && Long(p, log[1]);
      assert Covers(w[if i <= 1 then 0 else i - 1], x);
    }
  }

  // ---------------------------------------------------------------- the channel

  /** lastAccess has the end of each rank's latest transfer. */
  class Channel {
    const p: Params
    var accessLog: seq<Transfer>
    var lastAccess: seq<nat>
    ghost var past: seq<Transfer>

    ghost function State(): Bus
      reads this
    {
      Bus(accessLog, lastAccess, past)
    }

    /** The log is in order, and all transfers so far are pairwise tRTRS apart. */
    ghost predicate Valid()
      reads this
    {
      BusOk(p, State())
    }

    constructor (p: Params)
      requires p.Valid()
      ensures Valid() && this.p == p && State() == Start(p)
    {
      this.p := p;
      accessLog, past := [], [];
      lastAccess := seq(p.ranks, _ => 0);
    }

    /** The first cycle, from rdwrStart on, in which a column command can be issued so that its data keeps tRTRS
        from every logged transfer. */
    method CalcInterIssueCycle(write: bool, rdwrStart: nat) returns (issue: nat)
      requires Valid()
      ensures issue >= rdwrStart && Earliest(p, accessLog, rdwrStart + p.Wait(write), issue + p.Wait(write))
    {
      ScanEarliest(p, accessLog, 0, rdwrStart + p.Wait(write), rdwrStart + p.Wait(write));
      issue := FindSlot(write, rdwrStart);
    }

    method FindSlot(write: bool, rdwrStart: nat) returns (issue: nat)
      ensures issue >= rdwrStart && issue + p.Wait(write) == Scan(p, accessLog, 0, rdwrStart + p.Wait(write))
    {
      var tWait := p.Wait(write);
      var tSlot := p.tTrans + p.tRTRS;
      var tStart := rdwrStart + tWait;
      var tEnd := tStart + tSlot;
      var i := 0;
      while i < |accessLog|
        invariant 0 <= i <= |accessLog| && tEnd == tStart + tSlot && tStart >= rdwrStart + tWait
        invariant Scan(p, accessLog, i, tStart) == Scan(p, accessLog, 0, rdwrStart + tWait)
      {
        var busStart := accessLog[i].start;
        var busEnd := accessLog[i].end + p.tRTRS;
        if (busStart < tEnd && tEnd <= busEnd) || (busStart <= tStart && tStart < busEnd) {
          tStart := busEnd;
          tEnd := tStart + tSlot;
        } else if busStart > tEnd {
          break;
        }
        i := i + 1;
      }
      issue := tStart - tWait;
    }

    method UpdateDataBusCycle(start: nat, end: nat)
      requires p.depth > 0
      modifies this`accessLog
      ensures accessLog == Logged(p, old(accessLog), Transfer(start, end))
    {
      accessLog := Sort(accessLog + [Transfer(start, end)]);
      if |accessLog| > p.depth {
        accessLog := accessLog[1..];
        accessLog := accessLog[0 := accessLog[0].(start := 0)];
      }
    }

    /** What it costs to wake the rank. */
    method GetPowerDownPenalty(rank: nat, arrival: nat) returns (penalty: nat)
      requires rank < |lastAccess|
      ensures penalty == Penalty(p, lastAccess[rank], arrival)
      ensures penalty > 0 ==> arrival > lastAccess[rank] + p.powerDownCycle
    {
      penalty := 0;
      if p.powerDownCycle != 0 {
        var lastPowerDownCycle := lastAccess[rank] + p.powerDownCycle;
        if arrival > lastPowerDownCycle { penalty := p.tXP; }
      }
    }

    /** The bus side of one access: rdwrStart is the first cycle the banks allow. */
    method Access(rank: nat, write: bool, arrival: nat, rdwrStart: nat) returns (latency: nat)
      requires p.Valid() && |lastAccess| == p.ranks && rank < p.ranks && arrival <= rdwrStart
      modifies this
      ensures State() == Served(p, old(State()), Request(rank, write, arrival, rdwrStart))
      ensures old(Valid()) && (p.Harmless() || Penalty(p, old(lastAccess[rank]), arrival) == 0) ==> Valid()
      ensures arrival + latency == old(Scan(p, accessLog, 0, rdwrStart + p.Wait(write))) + Penalty(p, old(lastAccess[rank]), arrival) + p.tTransCrit
    {
      ghost var s, r := State(), Request(rank, write, arrival, rdwrStart);
      var penalty := GetPowerDownPenalty(rank, arrival);
      if Valid() && (p.Harmless() || penalty == 0) { ServedOk(p, s, r); }
      var issue := FindSlot(write, rdwrStart);
      latency := Reserve(rank, write, arrival, issue, penalty, TransferOf(p, s, r));
    }

    /** Transfers the data of a column command issued at issue, the penalty later. */
    method Reserve(rank: nat, write: bool, arrival: nat, issue: nat, penalty: nat, ghost t: Transfer) returns (latency: nat)
      requires p.Valid() && arrival <= issue && rank < |lastAccess|
      requires t.start == issue + p.Wait(write) + penalty && t.end == t.start + p.tTrans
      modifies this
      ensures accessLog == Logged(p, old(accessLog), t) && past == old(past) + [t]
      ensures lastAccess == old(lastAccess)[rank := Max(old(lastAccess[rank]), t.end)]
      ensures arrival + latency + p.tTrans - p.tTransCrit == t.end
    {
      var issueDelay := issue - arrival;
      var dataDelay := p.Wait(write) + p.tTransCrit;
      latency := issueDelay + dataDelay + penalty;
      var latencyMem := latency + (p.tTrans - p.tTransCrit);
      var busEnd := arrival + latencyMem;
      var busStart := busEnd - p.tTrans;
      assert t == Transfer(busStart, busEnd);
      lastAccess := lastAccess[rank := Max(lastAccess[rank], busEnd)];
      UpdateDataBusCycle(busStart, busEnd);
      past := past + [t];
    }
  }

  ghost predicate PastApart(p: Params, past: seq<Transfer>) { forall i, j :: 0 <= i < j < |past| ==> Apart(p, past[i], past[j]) }

  // ---------------------------------------------------------------- whole runs

  /** from is the first cycle in which the banks allow the column command. */
  datatype Request = Request(rank: nat, write: bool, arrival: nat, from: nat)

  datatype Bus = Bus(log: seq<Transfer>, last: seq<nat>, past: seq<Transfer>)

  function Start(p: Params): Bus { Bus([], seq(p.ranks, _ => 0), []) }

  predicate RequestOk(p: Params, r: Request) { r.rank < p.ranks && r.arrival <= r.from }

  ghost predicate BusOk(p: Params, s: Bus) {
    && p.Valid() && LogOk(p, s.log) && |s.log| <= p.depth && AllCovered(s.log, s.past) && PastApart(p, s.past)
    && |s.last| == p.ranks && (p.ranks == 1 ==> EndBy(s.log, s.last[0]))
  }

  /** With one rank, its last access is the last of the channel. */
  ghost predicate EndBy(log: seq<Transfer>, c: nat) { forall i :: 0 <= i < |log| ==> log[i].end <= c }

  function Max(a: nat, b: nat): nat { if a >= b then a else b }

  function Penalty(p: Params, last: nat, arrival: nat): nat {
    if p.powerDownCycle != 0 && arrival > last + p.powerDownCycle then p.tXP else 0
  }

  /** The slot found, moved by the penalty. */
  function TransferOf(p: Params, s: Bus, r: Request): Transfer
    requires r.rank < |s.last|
  {
    var x := Scan(p, s.log, 0, r.from + p.Wait(r.write)) + Penalty(p, s.last[r.rank], r.arrival);
    Transfer(x, x + p.tTrans)
  }

  function Served(p: Params, s: Bus, r: Request): Bus
    requires p.depth > 0 && r.rank < |s.last|
  {
    var t := TransferOf(p, s, r);
    Bus(Logged(p, s.log, t), s.last[r.rank := Max(s.last[r.rank], t.end)], s.past + [t])
  }

  /** The moved slot still fits: it was not moved, or everything logged had ended when the access arrived. */
  lemma MovedFits(p: Params, s: Bus, r: Request)
    requires BusOk(p, s) && RequestOk(p, r) && (p.Harmless() || Penalty(p, s.last[r.rank], r.arrival) == 0)
    ensures Fits(p, s.log, TransferOf(p, s, r).start)
  {
    var from := r.from + p.Wait(r.write);
    ScanEarliest(p, s.log, 0, from, from);
    var x, t := Scan(p, s.log, 0, from), TransferOf(p, s, r);
    forall i | 0 <= i < |s.log| ensures !Clash(p, t.start, s.log[i]) {
      assert !Clash(p, x, s.log[i]) && Long(p, s.log[i]);
    }
  }

  /** An access whose penalty does no harm keeps all transfers there ever were apart. */
  lemma ServedOk(p: Params, s: Bus, r: Request)
    requires BusOk(p, s) && RequestOk(p, r) && (p.Harmless() || Penalty(p, s.last[r.rank], r.arrival) == 0)
    ensures BusOk(p, Served(p, s, r))
  {
    var t := TransferOf(p, s, r);
    MovedFits(p, s, r);
    LoggedIs(p, s.log, t);
    InsertOk(p, s.log, t);
    TrimOk(p, Insert(s.log, t));
    StillCovered(p, s, t);
    StillApart(p, s, t);
    if p.ranks == 1 { StillEndBy(p, s.log, t, s.last[0]); }
  }

  lemma StillEndBy(p: Params, log: seq<Transfer>, t: Transfer, c: nat)
    requires p.depth > 0 && EndBy(log, c)
    ensures EndBy(Trimmed(p, Insert(log, t)), Max(c, t.end))
  {
    var s := Insert(log, t);
    assert EndBy(s, Max(c, t.end));
  }

  lemma StillCovered(p: Params, s: Bus, t: Transfer)
    requires p.Valid() && LogOk(p, Insert(s.log, t)) && AllCovered(s.log, s.past)
    ensures AllCovered(Trimmed(p, Insert(s.log, t)), s.past + [t])
  {
    var w, u := Trimmed(p, Insert(s.log, t)), s.past + [t];
    forall k | 0 <= k < |u| ensures CoveredIn(w, u[k]) {
      assert k < |s.past| ==> CoveredIn(s.log, s.past[k]);
      InsertCovers(s.log, t, u[k]);
      TrimCovers(p, Insert(s.log, t), u[k]);
    }
  }

  /** Being clear of the log is being clear of the past. */
  lemma StillApart(p: Params, s: Bus, t: Transfer)
    requires AllCovered(s.log, s.past) && PastApart(p, s.past) && Fits(p, s.log, t.start) && t.end == t.start + p.tTrans
    ensures PastApart(p, s.past + [t])
  {
    forall k | 0 <= k < |s.past| ensures Apart(p, s.past[k], t) {
      assert CoveredIn(s.log, s.past[k]);
      var i :| 0 <= i < |s.log| && Covers(s.log[i], s.past[k]);
      assert !Clash(p, t.start, s.log[i]);
    }
  }

  ghost predicate AllOk(p: Params, reqs: seq<Request>) { forall k :: 0 <= k < |reqs| ==> RequestOk(p, reqs[k]) }

  /** The channel after these accesses. */
  ghost function Run(p: Params, reqs: seq<Request>): (s: Bus)
    requires p.depth > 0 && AllOk(p, reqs)
    ensures |s.last| == p.ranks
  {
    if reqs == [] then Start(p) else Served(p, Run(p, reqs[..|reqs| - 1]), reqs[|reqs| - 1])
  }

  lemma {:induction false} RunOk(p: Params, reqs: seq<Request>)
    requires p.Valid() && p.Harmless() && AllOk(p, reqs)
    ensures BusOk(p, Run(p, reqs))
  {
    if reqs != [] {
      RunOk(p, reqs[..|reqs| - 1]);
      ServedOk(p, Run(p, reqs[..|reqs| - 1]), reqs[|reqs| - 1]);
    }
  }

  // ---------------------------------------------------------------- who pays, and what is remembered

  ghost predicate OfRank(reqs: seq<Request>, past: seq<Transfer>, rank: nat, k: int) {
    0 <= k < |reqs| && k < |past| && reqs[k].rank == rank
  }

  /** c is the end of the rank's latest transfer, or 0 if it had none. */
  ghost predicate LatestEnd(reqs: seq<Request>, past: seq<Transfer>, rank: nat, c: nat) {
    && (forall k :: OfRank(reqs, past, rank, k) ==> past[k].end <= c)
    && (c == 0 || exists k :: OfRank(reqs, past, rank, k) && past[k].end == c)
  }

  lemma LatestStep(reqs: seq<Request>, past: seq<Transfer>, rank: nat, c: nat, r: Request, t: Transfer)
    requires LatestEnd(reqs, past, rank, c) && |past| == |reqs|
    ensures LatestEnd(reqs + [r], past + [t], rank, if r.rank == rank then Max(c, t.end) else c)
  {
    var q, w, n := reqs + [r], past + [t], |reqs|;
    var d := if r.rank == rank then Max(c, t.end) else c;
    forall k | OfRank(q, w, rank, k) ensures w[k].end <= d {
      if k < n { assert OfRank(reqs, past, rank, k); }
    }
    if d != 0 && d == c {
      var k :| OfRank(reqs, past, rank, k) && past[k].end == c;
      assert OfRank(q, w, rank, k) && w[k].end == d;
    } else if d != 0 {
      assert OfRank(q, w, rank, n) && w[n].end == d;
    }
  }

  lemma {:induction false} LastIsLatest(p: Params, reqs: seq<Request>, rank: nat)
    requires p.depth > 0 && AllOk(p, reqs) && rank < p.ranks
    ensures var s := Run(p, reqs); |s.past| == |reqs| && LatestEnd(reqs, s.past, rank, s.last[rank])
  {
    if reqs != [] {
      var n := |reqs| - 1;
      var s, r := Run(p, reqs[..n]), reqs[n];
      LastIsLatest(p, reqs[..n], rank);
      LatestStep(reqs[..n], s.past, rank, s.last[rank], r, TransferOf(p, s, r));
      assert reqs[..n] + [r] == reqs;
    }
  }

  /** The rank has been left alone for more than powerDownCycle cycles, if ranks power down at all. */
  ghost predicate PoweredDown(p: Params, reqs: seq<Request>, past: seq<Transfer>, r: Request) {
    && p.powerDownCycle != 0 && r.arrival > p.powerDownCycle
    && forall k :: OfRank(reqs, past, r.rank, k) ==> r.arrival > past[k].end + p.powerDownCycle
  }

  /** In every run, an access pays tXP exactly if its rank has powered down. */
  lemma PaysExactly(p: Params, reqs: seq<Request>, r: Request)
    requires p.Valid() && AllOk(p, reqs) && RequestOk(p, r)
    ensures var s := Run(p, reqs);
      TransferOf(p, s, r).start == Scan(p, s.log, 0, r.from + p.Wait(r.write)) + if PoweredDown(p, reqs, s.past, r) then p.tXP else 0
  {
    var s := Run(p, reqs);
    LastIsLatest(p, reqs, r.rank);
    if s.last[r.rank] != 0 {
      var k :| OfRank(reqs, s.past, r.rank, k) && s.past[k].end == s.last[r.rank];
    }
  }

  /** The log has as many entries as it may, and what it has dropped ended no later than its oldest entry, which
      blocks the bus from the start. */
  ghost predicate Remembers(p: Params, s: Bus) {
    && |s.log| == (if |s.past| < p.depth then |s.past| else p.depth)
    && forall k :: 0 <= k < |s.past| ==> Remembered(s.log, s.past[k])
  }

  ghost predicate Remembered(log: seq<Transfer>, t: Transfer) { t in log || (log != [] && log[0].start == 0 && t.end <= log[0].end) }

  lemma InsertRemembers(log: seq<Transfer>, t: Transfer, x: Transfer, p: Params)
    requires p.Valid() && LogOk(p, Insert(log, t)) && (Remembered(log, x) || x == t)
    ensures Remembered(Insert(log, t), x)
  {
    var k, w := Place(log, t), Insert(log, t);
    assert |w| > 1 ==> Clear(p, w[0], w[1]) && Long(p, w[0]);
    if x == t {
      assert w[k] == x;
    } else if x in log {
      var i :| 0 <= i < |log| && log[i] == x;
      assert w[if i < k then i else i + 1] == x;
    }
  }

  lemma TrimRemembers(p: Params, log: seq<Transfer>, x: Transfer)
    requires p.Valid() && LogOk(p, log) && Remembered(log, x)
    ensures Remembered(Trimmed(p, log), x)
  {
    if |log| > p.depth {
      assert Clear(p, log[0], log[1]) && Long(p, log[1]);
      if x in log {
        var i :| 0 <= i < |log| && log[i] == x;
        if i > 1 { assert Trimmed(p, log)[i - 1] == x; }
      }
    }
  }

  /** In every run of a channel in which powering down is harmless. */
  lemma {:induction false} RunRemembers(p: Params, reqs: seq<Request>)
    requires p.Valid() && p.Harmless() && AllOk(p, reqs)
    ensures Remembers(p, Run(p, reqs))
  {
    if reqs != [] {
      var n := |reqs| - 1;
      var s, r := Run(p, reqs[..n]), reqs[n];
      RunRemembers(p, reqs[..n]);
      RunOk(p, reqs[..n]);
      ServedRemembers(p, s, r);
    }
  }

  lemma ServedRemembers(p: Params, s: Bus, r: Request)
    requires BusOk(p, s) && RequestOk(p, r) && p.Harmless() && Remembers(p, s)
    ensures Remembers(p, Served(p, s, r))
  {
    var t, u := TransferOf(p, s, r), Served(p, s, r);
    MovedFits(p, s, r);
    LoggedIs(p, s.log, t);
    InsertOk(p, s.log, t);
    forall k | 0 <= k < |u.past| ensures Remembered(u.log, u.past[k]) {
      assert k < |s.past| ==> Remembered(s.log, s.past[k]);
      InsertRemembers(s.log, t, u.past[k], p);
      TrimRemembers(p, Insert(s.log, t), u.past[k]);
    }
  }

  // ---------------------------------------------------------------- when transfers stay apart

  ghost predicate InOrder(reqs: seq<Request>) { forall i, j :: 0 <= i < j < |reqs| ==> reqs[i].arrival <= reqs[j].arrival }

  /** In every run, or in every run whose accesses arrive in order, transfers keep their distance. */
  ghost predicate AlwaysApart(p: Params, inOrder: bool)
    requires p.depth > 0
  {
    forall reqs: seq<Request> ::
      AllOk(p, reqs) && (inOrder ==> InOrder(reqs)) ==> PastApart(p, Run(p, reqs).past)
  }

  /** Rank 0 is held up by its banks; rank 1 has powered down, and its transfer fits before the other until the
      penalty moves it. */
  function Held(p: Params): Request { Request(0, false, 0, p.powerDownCycle + 1 + Max(p.tXP, p.Slot())) }

  function Woken(p: Params): Request { Request(1, false, p.powerDownCycle + 1, p.powerDownCycle + 1) }

  lemma AfterHeld(p: Params)
    requires p.Valid() && !p.Harmless()
    ensures var t := Transfer(Held(p).from + p.tCAS, Held(p).from + p.tCAS + p.tTrans);
      Run(p, [Held(p)]) == Bus([t], Start(p).last[0 := t.end], [t])
  {
    var r, t := Held(p), Transfer(Held(p).from + p.tCAS, Held(p).from + p.tCAS + p.tTrans);
    assert [r][..0] == [];
    assert Scan(p, [], 0, r.from + p.tCAS) == r.from + p.tCAS;
    LoggedIs(p, [], t);
    assert Insert([], t) == [t];
    assert TransferOf(p, Start(p), r) == t;
  }

  lemma AfterWoken(p: Params)
    requires p.Valid() && !p.Harmless()
    ensures AllOk(p, [Held(p), Woken(p)])
    ensures var past := Run(p, [Held(p), Woken(p)]).past; |past| == 2 && !Apart(p, past[0], past[1])
  {
    AfterHeld(p);
    var q, s := [Held(p), Woken(p)], Run(p, [Held(p)]);
    assert q[..1] == [Held(p)];
    var t := s.log[0];
    assert Scan(p, [t], 0, Woken(p).from + p.tCAS) == Woken(p).from + p.tCAS;
    assert TransferOf(p, s, Woken(p)).start == Woken(p).from + p.tCAS + p.tXP;
  }

  /** The bus stays free of collisions, in all runs and also in those in arrival order, exactly when powering down
      costs nothing, never happens, or there is one rank. */
  lemma ApartExactly(p: Params, inOrder: bool)
    requires p.Valid()
    ensures AlwaysApart(p, inOrder) <==> p.tXP == 0 || p.powerDownCycle == 0 || p.ranks == 1
  {
    if p.Harmless() {
      forall reqs: seq<Request> | AllOk(p, reqs) && (inOrder ==> InOrder(reqs))
        ensures PastApart(p, Run(p, reqs).past)
      {
        RunOk(p, reqs);
      }
    } else {
      var q := [Held(p), Woken(p)];
      AfterWoken(p);
      assert AllOk(p, q);
      assert InOrder(q);
      assert !PastApart(p, Run(p, q).past);
    }
  }
}
