/** The DDR memory controller: request queues, the scheduler and its wake-up events. */
module DdrMemory {
  import opened Arithmetic
  import opened DdrClock
  import opened DdrTiming
  import opened DdrActivates
  import opened DdrLeast
  import opened DdrQueues
  import FrFcfs
  import opened ActWindow

  type Request = FrFcfs.Request

  datatype Cycle = At(cycle: nat) | Never

  /** How a wake-up was arrived at: the scheduler's wish, whether it served a request, whether an overflowed request
      was taken in, and whether that came first in its bank. */
  datatype Asking = Asking(again: Cycle, served: bool, took: bool, first: bool)

  predicate Before(a: nat, b: Cycle) { b.Never? || a < b.cycle }

  function Nearer(at: Cycle, c: nat): Cycle { if Before(c, at) then At(c) else at }

  // ---------------------------------------------------------------- scheduling events

  datatype State = Idle | Queued | Running | Annulled

  /** cycle is the system cycle at which the simulator will run a queued event. */
  datatype Event = Event(state: State, cycle: nat)

  ghost predicate EventOk(ev: seq<Event>, free: seq<nat>, next: int, e: nat)
    requires e < |ev|
  {
    match ev[e].state
    case Idle => e in free
    case Queued => e == next
    case Annulled => true
    case Running => false
  }

  /** The only un-annulled event is the next one, queued for exactly the cycle it is wanted in; every idle event
      is on the free list, once. */
  ghost predicate EventsOk(c: Clocks, ev: seq<Event>, free: seq<nat>, next: int, at: Cycle) {
    && c.Valid() && -1 <= next < |ev|
    && (forall i :: 0 <= i < |free| ==> free[i] < |ev| && ev[free[i]].state == Idle)
    && (forall i, j :: 0 <= i < j < |free| ==> free[i] != free[j])
    && (forall e :: 0 <= e < |ev| ==> EventOk(ev, free, next, e))
    && (if next == -1 then at == Never else ev[next].state == Queued && at == At(c.ToMem(ev[next].cycle)))
  }

  /** The running event may be queued again, or be done. */
  lemma EventAgain(c: Clocks, ev: seq<Event>, free: seq<nat>, e: nat, at: Cycle)
    requires e < |ev| && EventsOk(c, ev, free, e, at)
    ensures forall next: nat :: EventsOk(c, ev[e := Event(Queued, next)], free, e, At(c.ToMem(next)))
    ensures EventsOk(c, ev[e := ev[e].(state := Annulled)], free, -1, Never)
  {
    var done := ev[e := ev[e].(state := Annulled)];
    forall i | 0 <= i < |ev| ensures EventOk(done, free, -1, i) { assert EventOk(ev, free, e, i); }
    forall next: nat ensures EventsOk(c, ev[e := Event(Queued, next)], free, e, At(c.ToMem(next))) {
      var again := ev[e := Event(Queued, next)];
      forall i | 0 <= i < |ev| ensures EventOk(again, free, e, i) { assert EventOk(ev, free, e, i); }
    }
  }

  lemma WakeNonzero(c: Clocks, k: nat, now: nat)
    requires c.Valid() && k >= 1
    ensures WakeAt(c, k, now) > 0
  {
    var p := (2 * k - 1) * c.sys;
    MulMono(1, 2 * k - 1, c.sys);
    DivBounds(p, c.mem);
    if p / c.mem < 2 { MulMono(p / c.mem + 1, 2, c.mem); }
  }

  lemma NextWake(c: Clocks, k: nat, now: nat)
    requires c.Valid() && c.ToMem(now) <= k
    ensures k >= 1 && c.ToMem(WakeAt(c, k, now)) == k && WakeAt(c, k, now) >= now && WakeAt(c, k, now) > 0
  {
    WakesInCycle(c, k, now);
    WakeNonzero(c, k, now);
  }

  // ---------------------------------------------------------------- when a request can be served

  function ActAt(p: Params, x: Bank, arrival: nat, win: nat): nat {
    var pre := if x.open then Max(arrival, x.minPre) else x.minPre;
    Max(Max(arrival, Max(pre + p.tRP, x.lastAct + p.tRRD)), win + p.tFAW)
  }

  /** The first cycle in which the bank can take the column command of r. */
  function MinCmd(p: Params, x: Bank, r: Request, win: nat): nat {
    if x.open && r.row == x.openRow then Max(r.arrival, x.lastCmd + 1)
    else ActAt(p, x, r.arrival, win) + p.tRCD
  }

  /** A precharge, an ACT and a column command in cycle c that the bank and its rank allow. */
  predicate Feasible(p: Params, x: Bank, r: Request, win: nat, pre: nat, act: nat, c: nat) {
    && pre >= x.minPre && (x.open ==> pre >= r.arrival)
    && act >= r.arrival && act >= pre + p.tRP && act >= x.lastAct + p.tRRD && act >= win + p.tFAW
    && c >= act + p.tRCD
  }

  ghost predicate CanTake(p: Params, x: Bank, r: Request, win: nat, c: nat) {
    if x.open && r.row == x.openRow then c >= r.arrival && c > x.lastCmd
    else exists pre, act :: Feasible(p, x, r, win, pre, act, c)
  }

  /** No earlier cycle will do, whatever the precharge and the ACT. */
  lemma MinCmdLeast(p: Params, x: Bank, r: Request, win: nat, c: nat)
    ensures CanTake(p, x, r, win, c) <==> c >= MinCmd(p, x, r, win)
  {
    var pre := if x.open then Max(r.arrival, x.minPre) else x.minPre;
    if c >= MinCmd(p, x, r, win) && !(x.open && r.row == x.openRow) { assert Feasible(p, x, r, win, pre, ActAt(p, x, r.arrival, win), c); }
  }

  /** The ACTs of all ranks once r has gone out. */
  ghost function ActsAfter(p: Params, acts: seq<seq<nat>>, x: Bank, r: Request, win: nat): seq<seq<nat>>
    requires r.rank < |acts|
  {
    if x.open && r.row == x.openRow then acts else acts[r.rank := acts[r.rank] + [ActAt(p, x, r.arrival, win)]]
  }

  /** What a ready request sends. */
  ghost function Sent(p: Params, x: Bank, r: Request, win: nat, cmd: nat, closes: bool): seq<Cmd> {
    var col := Col(r.bank, r.row, cmd, r.write, closes);
    if x.open && r.row == x.openRow then [col]
    else if x.open then [Pre(r.bank, Max(r.arrival, x.minPre)), Act(r.bank, r.row, ActAt(p, x, r.arrival, win), r.rank), col]
    else [Act(r.bank, r.row, ActAt(p, x, r.arrival, win), r.rank), col]
  }

  /** The bank afterwards. */
  function BankAfter(p: Params, x: Bank, r: Request, win: nat, cmd: nat, closes: bool): Bank {
    var act := ActAt(p, x, r.arrival, win);
    var y := if x.open && r.row == x.openRow then x
             else if x.open then Activated(Precharged(x, Max(r.arrival, x.minPre)), r.row, act)
             else Activated(x, r.row, act);
    Column(p, y, cmd, r.write, closes, r.hits)
  }

  function TimingAfter(p: Params, t: Timing, r: Request, win: nat, cmd: nat, closes: bool): Timing
    requires r.bank < |t.banks|
  {
    Timing(t.banks[r.bank := BankAfter(p, t.banks[r.bank], r, win, cmd, closes)], cmd + p.tCL + p.tBL, r.write)
  }

  lemma IssueHit(p: Params, t: Timing, log: seq<Cmd>, r: Request, win: nat, cur: nat, closes: bool)
    requires TimingOk(p, t, log) && r.bank < |t.banks| && cur >= MinCmd(p, t.banks[r.bank], r, win)
    requires t.banks[r.bank].open && r.row == t.banks[r.bank].openRow
    ensures var cmd := BusFree(p, t, r.write, cur);
      TimingOk(p, TimingAfter(p, t, r, win, cmd, closes), log + Sent(p, t.banks[r.bank], r, win, cmd, closes))
  {
    ColumnKeeps(p, t, log, r.bank, BusFree(p, t, r.write, cur), r.write, closes, r.hits, cur);
  }

  lemma IssueClosed(p: Params, t: Timing, log: seq<Cmd>, r: Request, act: nat, cmd: nat, cur: nat, closes: bool)
    requires TimingOk(p, t, log) && r.bank < |t.banks| && !t.banks[r.bank].open && cmd >= BusFree(p, t, r.write, cur)
    requires act >= t.banks[r.bank].minPre + p.tRP && act >= t.banks[r.bank].lastAct && cmd >= act + p.tRCD
    ensures var y := Column(p, Activated(t.banks[r.bank], r.row, act), cmd, r.write, closes, r.hits);
      TimingOk(p, Timing(t.banks[r.bank := y], cmd + p.tCL + p.tBL, r.write),
               log + [Act(r.bank, r.row, act, r.rank), Col(r.bank, r.row, cmd, r.write, closes)])
  {
    ActivateKeeps(p, t, log, r.bank, r.rank, r.row, act, cmd, r.write, closes, r.hits, cur);
    var t1 := t.(banks := t.banks[r.bank := Activated(t.banks[r.bank], r.row, act)]);
    var y := Column(p, Activated(t.banks[r.bank], r.row, act), cmd, r.write, closes, r.hits);
    assert AfterColumn(p, t1, r.bank, cmd, r.write, closes, r.hits).banks == t.banks[r.bank := y];
  }

  lemma IssueConflict(p: Params, t: Timing, log: seq<Cmd>, r: Request, pre: nat, act: nat, cmd: nat, cur: nat, closes: bool)
    requires TimingOk(p, t, log) && r.bank < |t.banks| && t.banks[r.bank].open && cmd >= BusFree(p, t, r.write, cur)
    requires pre >= t.banks[r.bank].minPre && act >= pre + p.tRP && act >= t.banks[r.bank].lastAct && cmd >= act + p.tRCD
    ensures var y := Column(p, Activated(Precharged(t.banks[r.bank], pre), r.row, act), cmd, r.write, closes, r.hits);
      TimingOk(p, Timing(t.banks[r.bank := y], cmd + p.tCL + p.tBL, r.write),
               log + [Pre(r.bank, pre), Act(r.bank, r.row, act, r.rank), Col(r.bank, r.row, cmd, r.write, closes)])
  {
    PrechargeKeeps(p, t, log, r.bank, pre);
    var t1 := t.(banks := t.banks[r.bank := Precharged(t.banks[r.bank], pre)]);
    IssueClosed(p, t1, log + [Pre(r.bank, pre)], r, act, cmd, cur, closes);
    var y := Column(p, Activated(Precharged(t.banks[r.bank], pre), r.row, act), cmd, r.write, closes, r.hits);
    assert t1.banks[r.bank := y] == t.banks[r.bank := y];
    assert log + [Pre(r.bank, pre)] + [Act(r.bank, r.row, act, r.rank), Col(r.bank, r.row, cmd, r.write, closes)]
        == log + [Pre(r.bank, pre), Act(r.bank, r.row, act, r.rank), Col(r.bank, r.row, cmd, r.write, closes)];
  }

  /** A request that is ready goes out as soon as the bus is free, and every rule of the device is kept. */
  lemma IssueKeeps(p: Params, t: Timing, log: seq<Cmd>, r: Request, win: nat, cur: nat, closes: bool)
    requires TimingOk(p, t, log) && r.bank < |t.banks| && cur >= MinCmd(p, t.banks[r.bank], r, win)
    ensures var cmd := BusFree(p, t, r.write, cur);
      TimingOk(p, TimingAfter(p, t, r, win, cmd, closes), log + Sent(p, t.banks[r.bank], r, win, cmd, closes))
  {
    var x, cmd, act := t.banks[r.bank], BusFree(p, t, r.write, cur), ActAt(p, t.banks[r.bank], r.arrival, win);
    if x.open && r.row == x.openRow {
      IssueHit(p, t, log, r, win, cur, closes);
    } else if x.open {
      IssueConflict(p, t, log, r, Max(r.arrival, x.minPre), act, cmd, cur, closes);
    } else {
      IssueClosed(p, t, log, r, act, cmd, cur, closes);
    }
  }

  /** Serving r turns t into u: its commands were sent, and only its bank and the bus changed. */
  ghost predicate IssuedAs(p: Params, t: Timing, log: seq<Cmd>, u: Timing, sent: seq<Cmd>, r: Request, win: nat, cur: nat, nextHit: bool) {
    && t.minResp >= p.tCL && r.bank < |t.banks|
    && (var cmd, closes := BusFree(p, t, r.write, cur), p.closedPage && !nextHit;
       && sent == log + Sent(p, t.banks[r.bank], r, win, cmd, closes)
       && u == TimingAfter(p, t, r, win, cmd, closes)
       && t.banks[r.bank].lastCmd < cmd && t.banks[r.bank].minPre <= u.banks[r.bank].minPre)
  }

  /** How many requests have been served: each sends one column command. */
  ghost function Cols(log: seq<Cmd>): nat {
    if log == [] then 0 else Cols(log[..|log| - 1]) + if log[|log| - 1].Col? then 1 else 0
  }

  lemma ColsAppend(log: seq<Cmd>, c: Cmd)
    ensures Cols(log + [c]) == Cols(log) + if c.Col? then 1 else 0
  {
    assert (log + [c])[..|log|] == log;
  }

  lemma ColsSent(p: Params, log: seq<Cmd>, x: Bank, r: Request, win: nat, cmd: nat, closes: bool)
    ensures Cols(log + Sent(p, x, r, win, cmd, closes)) == Cols(log) + 1
  {
    var col := Col(r.bank, r.row, cmd, r.write, closes);
    if x.open && r.row == x.openRow {
      ColsAppend(log, col);
    } else {
      var act := Act(r.bank, r.row, ActAt(p, x, r.arrival, win), r.rank);
      var log1 := if x.open then log + [Pre(r.bank, Max(r.arrival, x.minPre))] else log;
      if x.open { ColsAppend(log, Pre(r.bank, Max(r.arrival, x.minPre))); }
      ColsAppend(log1, act);
      ColsAppend(log1 + [act], col);
      assert log + Sent(p, x, r, win, cmd, closes) == log1 + [act] + [col];
    }
  }

  lemma SentRecorded(p: Params, log: seq<Cmd>, acts: seq<seq<nat>>, x: Bank, r: Request, win: nat, cmd: nat, closes: bool)
    requires AllRecorded(log, acts) && r.rank < |acts|
    ensures AllRecorded(log + Sent(p, x, r, win, cmd, closes), ActsAfter(p, acts, x, r, win))
  {
    var col := Col(r.bank, r.row, cmd, r.write, closes);
    if x.open && r.row == x.openRow {
      AllRecordedOther(log, col, acts);
    } else {
      var act := Act(r.bank, r.row, ActAt(p, x, r.arrival, win), r.rank);
      var log1 := if x.open then log + [Pre(r.bank, Max(r.arrival, x.minPre))] else log;
      if x.open { AllRecordedOther(log, Pre(r.bank, Max(r.arrival, x.minPre)), acts); }
      AllRecordedAct(log1, act, acts);
      AllRecordedOther(log1 + [act], col, acts[r.rank := acts[r.rank] + [act.cycle]]);
      assert log + Sent(p, x, r, win, cmd, closes) == log1 + [act] + [col];
    }
  }

  /** The log only grows, and no bank's precharge time goes back. */
  ghost predicate Grown(t: Timing, log: seq<Cmd>, u: Timing, log': seq<Cmd>) {
    log <= log' && |u.banks| == |t.banks| && forall b :: 0 <= b < |t.banks| ==> t.banks[b].minPre <= u.banks[b].minPre
  }

  /** A column command has just been sent, and the bus is taken up to the end of its burst. */
  predicate AfterColumnSent(p: Params, u: Timing, sent: seq<Cmd>) {
    sent != [] && sent[|sent| - 1].Col? && u.minResp == sent[|sent| - 1].cycle + p.tCL + p.tBL
  }

  lemma IssuedGrown(p: Params, t: Timing, log: seq<Cmd>, u: Timing, sent: seq<Cmd>, r: Request, win: nat, cur: nat, nextHit: bool)
    requires IssuedAs(p, t, log, u, sent, r, win, cur, nextHit)
    ensures Grown(t, log, u, sent) && Cols(sent) == Cols(log) + 1 && u.minResp >= cur + p.tCL && AfterColumnSent(p, u, sent)
  {
    ColsSent(p, log, t.banks[r.bank], r, win, BusFree(p, t, r.write, cur), p.closedPage && !nextHit);
  }

  /** The row of a request just served is open afterwards, counting its hits; only with a closed-page policy is it
      closed, and then exactly if the next request of the list does not go on with it. */
  lemma PagePolicy(p: Params, t: Timing, log: seq<Cmd>, u: Timing, sent: seq<Cmd>, r: Request, win: nat, cur: nat, list: seq<Request>, limit: nat)
    requires IssuedAs(p, t, log, u, sent, r, win, cur, Continues(list)) && FrFcfs.Runs(list, limit) && list != [] && list[0] == r
    ensures u.banks[r.bank].openRow == r.row && u.banks[r.bank].curHits == r.hits
    ensures u.banks[r.bank].open <==> !p.closedPage || (|list| > 1 && list[1].hits != 0)
    ensures p.closedPage && u.banks[r.bank].open ==> list[1].row == r.row
  {
    if |list| > 1 { assert FrFcfs.RunOk(list, limit, 1); }
  }

  /** The controller's early note of the precharge time makes no difference once the row is open. */
  lemma ColumnAfter(p: Params, x: Bank, r: Request, win: nat, cmd: nat, closes: bool, y: Bank)
    requires y == if r.row == x.openRow && x.open then x
                  else x.(open := true, openRow := r.row, lastAct := ActAt(p, x, r.arrival, win),
                          minPre := if x.open then Max(r.arrival, x.minPre) + p.tRAS else x.minPre)
    ensures Column(p, y, cmd, r.write, closes, r.hits) == BankAfter(p, x, r, win, cmd, closes)
  {
  }

  /** Commands to one bank are sent in order, and its precharge time never goes back. */
  lemma IssueAdvances(p: Params, t: Timing, log: seq<Cmd>, r: Request, win: nat, cur: nat, closes: bool)
    requires TimingOk(p, t, log) && r.bank < |t.banks| && cur >= MinCmd(p, t.banks[r.bank], r, win)
    ensures var cmd := BusFree(p, t, r.write, cur);
      t.banks[r.bank].lastCmd < cmd && BankAfter(p, t.banks[r.bank], r, win, cmd, closes).minPre >= t.banks[r.bank].minPre
  {
    assert BankOk(p, log, t.banks[r.bank], r.bank);
  }

  /** The log is legal, what is remembered of it is exact, and the ACTs in it are those the rank windows have seen. */
  ghost predicate Sound(p: Params, t: Timing, log: seq<Cmd>, acts: seq<seq<nat>>) {
    TimingOk(p, t, log) && Tight(p, t, log) && AllRecorded(log, acts)
  }

  lemma OpenedTight(p: Params, t: Timing, log: seq<Cmd>, r: Request, act: nat, cmd: nat, closes: bool)
    requires Tight(p, t, log) && r.bank < |t.banks| && !t.banks[r.bank].open && t.banks[r.bank].minPre <= act
    ensures var y := Column(p, Activated(t.banks[r.bank], r.row, act), cmd, r.write, closes, r.hits);
      Tight(p, Timing(t.banks[r.bank := y], cmd + p.tCL + p.tBL, r.write),
            log + [Act(r.bank, r.row, act, r.rank), Col(r.bank, r.row, cmd, r.write, closes)])
  {
    var b, a, col := r.bank, Act(r.bank, r.row, act, r.rank), Col(r.bank, r.row, cmd, r.write, closes);
    var x := Activated(t.banks[b], r.row, act).(minPre := act + p.tRAS);
    var t1 := t.(banks := t.banks[b := x]);
    ActivateTight(p, t, log, b, r.rank, r.row, act);
    RowAppend(log, a, b);
    ColumnTight(p, t1, log + [a], b, cmd, r.write, closes, r.hits);
    assert log + [a] + [col] == log + [a, col];
    assert Column(p, x, cmd, r.write, closes, r.hits) == Column(p, Activated(t.banks[b], r.row, act), cmd, r.write, closes, r.hits);
    assert t1.banks[b := Column(p, x, cmd, r.write, closes, r.hits)] == t.banks[b := Column(p, x, cmd, r.write, closes, r.hits)];
  }

  lemma SentTight(p: Params, t: Timing, log: seq<Cmd>, r: Request, win: nat, cmd: nat, closes: bool)
    requires TimingOk(p, t, log) && Tight(p, t, log) && r.bank < |t.banks|
    ensures Tight(p, TimingAfter(p, t, r, win, cmd, closes), log + Sent(p, t.banks[r.bank], r, win, cmd, closes))
  {
    var b, x, act := r.bank, t.banks[r.bank], ActAt(p, t.banks[r.bank], r.arrival, win);
    assert BankOk(p, log, x, b);
    if x.open && r.row == x.openRow {
      ColumnTight(p, t, log, b, cmd, r.write, closes, r.hits);
    } else if x.open {
      var pre := Max(r.arrival, x.minPre);
      var c := Pre(b, pre);
      var t1 := t.(banks := t.banks[b := Precharged(x, pre)]);
      PrechargeTight(p, t, log, b, pre);
      OpenedTight(p, t1, log + [c], r, act, cmd, closes);
      assert log + [c] + [Act(b, r.row, act, r.rank), Col(b, r.row, cmd, r.write, closes)] == log + Sent(p, x, r, win, cmd, closes);
      var y := Column(p, Activated(Precharged(x, pre), r.row, act), cmd, r.write, closes, r.hits);
      assert t1.banks[b := y] == t.banks[b := y];
    } else {
      OpenedTight(p, t, log, r, act, cmd, closes);
    }
  }

  lemma IssueResult(p: Params, t: Timing, log: seq<Cmd>, acts: seq<seq<nat>>, r: Request, win: nat, cur: nat, nextHit: bool)
    requires Sound(p, t, log, acts) && r.bank < |t.banks| && r.rank < |acts| && cur >= MinCmd(p, t.banks[r.bank], r, win)
    ensures var cmd, closes, x := BusFree(p, t, r.write, cur), p.closedPage && !nextHit, t.banks[r.bank];
      var u, sent := TimingAfter(p, t, r, win, cmd, closes), log + Sent(p, x, r, win, cmd, closes);
      Sound(p, u, sent, ActsAfter(p, acts, x, r, win)) && IssuedAs(p, t, log, u, sent, r, win, cur, nextHit)
  {
    var closes := p.closedPage && !nextHit;
    IssueKeeps(p, t, log, r, win, cur, closes);
    IssueAdvances(p, t, log, r, win, cur, closes);
    SentRecorded(p, log, acts, t.banks[r.bank], r, win, BusFree(p, t, r.write, cur), closes);
    SentTight(p, t, log, r, win, BusFree(p, t, r.write, cur), closes);
  }

  method RecordColumn(p: Params, bank: Bank, cmdCycle: nat, write: bool, closes: bool, hits: nat) returns (x: Bank)
    ensures x == Column(p, bank, cmdCycle, write, closes, hits)
  {
    x := bank;
    if closes { x := x.(open := false); }
    var respCycle := cmdCycle + p.tCL + p.tBL;
    x := x.(minPre := Max(x.minPre, Max(x.lastAct + p.tRAS, if write then respCycle + p.tWR else cmdCycle + p.tRTP)));
    x := x.(lastCmd := cmdCycle);
    x := x.(curHits := hits);
  }

  ghost predicate Located(q: seq<Request>, numBanks: nat, numRanks: nat) {
    forall k :: 0 <= k < |q| ==> q[k].bank < numBanks && q[k].rank < numRanks
  }

  ghost predicate QueueOk(q: seq<Request>, lists: seq<seq<Request>>, limit: nat, nextId: nat, numBanks: nat, numRanks: nat) {
    |lists| == numBanks && Filed(q, lists, limit, nextId) && Located(q, numBanks, numRanks)
  }

  lemma ServedOk(q: seq<Request>, lists: seq<seq<Request>>, limit: nat, nextId: nat, numBanks: nat, numRanks: nat, k: nat)
    requires QueueOk(q, lists, limit, nextId, numBanks, numRanks) && k < |q| && First(lists, q[k])
    ensures lists[q[k].bank][0] == q[k]
    ensures QueueOk(Without(q, k), lists[q[k].bank := lists[q[k].bank][1..]], limit, nextId, numBanks, numRanks)
  {
    FirstIs(q, lists, limit, nextId, k);
    ServedFiled(q, lists, limit, nextId, k);
  }

  lemma QueuedOk(q: seq<Request>, lists: seq<seq<Request>>, limit: nat, nextId: nat, numBanks: nat, numRanks: nat, r: Request, row: FrFcfs.Row)
    requires QueueOk(q, lists, limit, nextId, numBanks, numRanks) && r.bank < numBanks && r.rank < numRanks && r.id == nextId
    ensures var x := r.(hits := FrFcfs.Place(lists[r.bank], r, row, limit).1);
      QueueOk(q + [x], lists[r.bank := FrFcfs.Queued(lists[r.bank], r, row, limit)], limit, nextId + 1, numBanks, numRanks)
    ensures q == [] ==> lists[r.bank] == []
  {
    QueuedFiled(q, lists, limit, nextId, r, row);
    assert ListOk(q, lists[r.bank], r.bank, limit);
  }

  lemma LaterOk(q: seq<Request>, lists: seq<seq<Request>>, limit: nat, nextId: nat, numBanks: nat, numRanks: nat)
    requires QueueOk(q, lists, limit, nextId, numBanks, numRanks)
    ensures QueueOk(q, lists, limit, nextId + 1, numBanks, numRanks)
  {
    LaterId(q, lists, limit, nextId);
  }

  /** The request behind the first in its bank continues the same run of row hits. */
  predicate Continues(list: seq<Request>) { |list| > 1 && list[1].hits != 0 }

  function RowBuffer(x: Bank): FrFcfs.Row { FrFcfs.Row(x.open, x.openRow, x.curHits) }

  /** r has been put into its bank's list, in FR-FCFS order. */
  ghost predicate Enlisted(lists: seq<seq<Request>>, lists': seq<seq<Request>>, r: Request, x: Bank, limit: nat, first: bool) {
    && r.bank < |lists| && lists' == lists[r.bank := FrFcfs.Queued(lists[r.bank], r, RowBuffer(x), limit)]
    && first == First(lists', r)
  }

  /** r has joined the end of one of the two queues. */
  ghost predicate QueuedIn(toWr: bool, r: Request, rd: seq<Request>, wr: seq<Request>, rd': seq<Request>, wr': seq<Request>) {
    if toWr then wr' == wr + [r] && rd' == rd else rd' == rd + [r] && wr' == wr
  }

  predicate Taken(took: bool, overflow: seq<Request>, overflow': seq<Request>) {
    if took then overflow != [] && overflow' == overflow[1..] else overflow' == overflow
  }

  /** A refresh starts in the first cycle, from memCycle on, in which every bank has finished. */
  ghost predicate StartsAt(banks: seq<Bank>, memCycle: nat, start: nat) {
    && start >= memCycle && (forall b :: 0 <= b < |banks| ==> banks[b].minPre <= start && banks[b].lastCmd <= start)
    && (start == memCycle || exists b :: 0 <= b < |banks| && (start == banks[b].minPre || start == banks[b].lastCmd))
  }

  ghost predicate AllRefreshed(p: Params, banks: seq<Bank>, banks': seq<Bank>, start: nat)
    requires p.tRFC >= p.tRP
  {
    |banks'| == |banks| && forall b :: 0 <= b < |banks| ==> banks'[b] == Refreshed(p, banks[b], start)
  }

  lemma RefreshSound(p: Params, t: Timing, u: Timing, log: seq<Cmd>, acts: seq<seq<nat>>, memCycle: nat, start: nat)
    requires Sound(p, t, log, acts) && u.minResp == t.minResp && u.lastWrite == t.lastWrite
    requires AllRefreshed(p, t.banks, u.banks, start) && StartsAt(t.banks, memCycle, start)
    ensures Sound(p, u, log + [Ref(start)], acts) && Grown(t, log, u, log + [Ref(start)])
    ensures forall b :: 0 <= b < |u.banks| ==> !u.banks[b].open
  {
    RefreshKeeps(p, t, u, log, start);
    RefreshTight(p, t, u, log, start);
    AllRecordedOther(log, Ref(start), acts);
  }

  /** Request k has left one of the two queues. */
  ghost predicate Served(rd: seq<Request>, wr: seq<Request>, rd': seq<Request>, wr': seq<Request>, fromWr: bool, k: nat) {
    if fromWr then k < |wr| && wr' == Without(wr, k) && rd' == rd
    else k < |rd| && rd' == Without(rd, k) && wr' == wr
  }

  /** Nothing happened, or request k was served. */
  ghost predicate Scheduled(rd: seq<Request>, wr: seq<Request>, t: Timing, log: seq<Cmd>,
                            rd': seq<Request>, wr': seq<Request>, u: Timing, log': seq<Cmd>, fromWr: bool, k: int)
  {
    && (k == -1 ==> rd' == rd && wr' == wr && u == t && log' == log)
    && (k != -1 ==> 0 <= k && Served(rd, wr, rd', wr', fromWr, k))
    && Grown(t, log, u, log') && Cols(log') + |rd'| + |wr'| == Cols(log) + |rd| + |wr|
  }

  // ---------------------------------------------------------------- the controller

  class Controller {
    const p: Params
    const clocks: Clocks
    const depth: nat
    const limit: nat
    const deferredWrites: bool
    const windows: seq<Window>
    const numBanks: nat
    const numRanks: nat

    var banks: seq<Bank>
    var minResp: nat
    var lastWrite: bool
    ghost var log: seq<Cmd>
    ghost var acts: seq<seq<nat>>   // of each rank

    var rd: seq<Request>
    var wr: seq<Request>
    var overflow: seq<Request>
    var rdLists: seq<seq<Request>>
    var wrLists: seq<seq<Request>>
    var nextId: nat

    var events: seq<Event>
    var free: seq<nat>
    var nextEvent: int
    var nextCycle: Cycle

    ghost function Now(): Timing
      reads this`banks, this`minResp, this`lastWrite
    {
      Timing(banks, minResp, lastWrite)
    }

    /** Every rule of the device is kept, and each rank's window has seen all its ACTs. */
    ghost predicate TimingValid()
      reads this`banks, this`minResp, this`lastWrite, this`log, this`acts
    {
      var sound := Sound(p, Now(), log, acts);
      sound
    }

    predicate Placed(r: Request) { r.bank < numBanks && r.rank < numRanks }

    ghost predicate QueuesValid()
      reads this`rd, this`wr, this`overflow, this`rdLists, this`wrLists, this`nextId
    {
      var rdOk, wrOk := QueueOk(rd, rdLists, limit, nextId, numBanks, numRanks), QueueOk(wr, wrLists, limit, nextId, numBanks, numRanks);
      rdOk && wrOk && Located(overflow, numBanks, numRanks)
    }

    ghost predicate EventsValid()
      reads this`events, this`free, this`nextEvent, this`nextCycle
    {
      var ok := EventsOk(clocks, events, free, nextEvent, nextCycle);
      ok
    }

    /** Each rank has a window of its own, which has seen the rank's ACTs. */
    ghost predicate Sized()
      reads this`banks, this`acts
    {
      |banks| == numBanks && |acts| == numRanks
    }

    ghost predicate WindowsValid()
      reads this`banks, this`acts, windows
    {
      && Sized() && |windows| == numRanks
      && (forall i :: 0 <= i < |windows| ==> WindowOk(windows[i], acts[i]))
      && (forall i, j :: 0 <= i < j < |windows| ==> windows[i] != windows[j])
    }

    /** A window of four ACTs, each let in by the tFAW rule. */
    ghost predicate WindowOk(w: Window, seen: seq<nat>)
      reads w
    {
      w.Valid() && |w.buf| == 4 && w.acts == seen && Allowed(4, p.tFAW, seen)
    }

    /** Some request is queued exactly if a wake-up is. */
    ghost predicate NothingStranded()
      reads this`rd, this`wr, this`overflow, this`nextEvent
    {
      && (nextEvent != -1 <==> rd != [] || wr != [] || overflow != [])
      && (overflow != [] ==> rd != [] || wr != [])
    }

    ghost function Pending(): nat
      reads this`rd, this`wr, this`overflow
    {
      |rd| + |wr| + |overflow|
    }

    ghost predicate Valid()
      reads this, windows
    {
      depth > 0 && TimingValid() && QueuesValid() && EventsValid() && WindowsValid() && NothingStranded()
    }

    ghost function Win(r: Request): nat
      requires Sized() && Placed(r)
      reads this`banks, this`acts
    {
      After(4, acts[r.rank])[0]
    }

    ghost function Min(r: Request): nat
      requires Sized() && Placed(r)
      reads this`banks, this`acts
    {
      MinCmd(p, banks[r.bank], r, Win(r))
    }

    constructor (p: Params, clocks: Clocks, depth: nat, limit: nat, deferredWrites: bool, ranks: seq<Window>, numBanks: nat)
      requires p.Valid() && clocks.Valid() && depth > 0
      requires forall i :: 0 <= i < |ranks| ==> ranks[i].Valid() && |ranks[i].buf| == 4 && ranks[i].acts == []
      requires forall i, j :: 0 <= i < j < |ranks| ==> ranks[i] != ranks[j]
      ensures Valid() && log == [] && rd == wr == overflow == [] && |banks| == numBanks && windows == ranks
    {
      this.p, this.clocks, this.depth, this.limit, this.deferredWrites, windows := p, clocks, depth, limit, deferredWrites, ranks;
      banks := seq(numBanks, _ => Bank(false, 0, 0, 0, 0, 0));
      minResp, lastWrite, log := p.tCL + p.tBL + 1, false, [];
      this.numBanks, numRanks, acts := numBanks, |ranks|, seq(|ranks|, _ => []);
      rd, wr, overflow, nextId := [], [], [], 0;
      rdLists, wrLists := seq(numBanks, _ => []), seq(numBanks, _ => []);
      events, free, nextEvent, nextCycle := [], [], -1, Never;
    }

    method FindMinCmdCycle(r: Request) returns (m: nat)
      requires Placed(r) && WindowsValid()
      ensures m == Min(r) && forall c: nat :: CanTake(p, banks[r.bank], r, Win(r), c) <==> m <= c
    {
      forall c: nat ensures CanTake(p, banks[r.bank], r, Win(r), c) <==> Min(r) <= c { MinCmdLeast(p, banks[r.bank], r, Win(r), c); }
      var bank := banks[r.bank];
      m := Max(r.arrival, bank.lastCmd + 1);
      if r.row == bank.openRow && bank.open {
      } else {
        var preCycle;
        if !bank.open {
          preCycle := bank.minPre;
        } else {
          preCycle := Max(r.arrival, bank.minPre);
        }
        var actCycle := Max(r.arrival, Max(preCycle + p.tRP, bank.lastAct + p.tRRD));
        actCycle := Max(actCycle, windows[r.rank].MinActCycle() + p.tFAW);
        m := actCycle + p.tRCD;
      }
    }

    /** Opens the row of r; afterwards minCmd is the first cycle for its column command. */
    method Activate(r: Request, bank: Bank) returns (x: Bank, actCycle: nat)
      requires Placed(r) && WindowsValid() && !(r.row == bank.openRow && bank.open)
      modifies this`acts, windows[r.rank]
      ensures WindowsValid() && actCycle == ActAt(p, bank, r.arrival, old(Win(r)))
      ensures acts == old(acts)[r.rank := old(acts)[r.rank] + [actCycle]]
      ensures x == bank.(open := true, openRow := r.row, lastAct := actCycle,
                         minPre := if bank.open then Max(r.arrival, bank.minPre) + p.tRAS else bank.minPre)
    {
      var preIssued := bank.open;
      var preCycle := if !bank.open then bank.minPre else Max(r.arrival, bank.minPre);
      actCycle := Max(r.arrival, Max(preCycle + p.tRP, bank.lastAct + p.tRRD));
      actCycle := Max(actCycle, windows[r.rank].MinActCycle() + p.tFAW);
      x := bank.(open := true, openRow := r.row);
      if preIssued { x := x.(minPre := preCycle + p.tRAS); }
      RecordAct(r.rank, actCycle);
      x := x.(lastAct := actCycle);
    }

    method RecordAct(rank: nat, actCycle: nat)
      requires rank < |windows| && WindowsValid() && windows[rank].MinActCycle() + p.tFAW <= actCycle
      modifies this`acts, windows[rank]
      ensures WindowsValid() && acts == old(acts)[rank := old(acts)[rank] + [actCycle]]
    {
      assert WindowOk(windows[rank], acts[rank]);
      AfterAppend(4, acts[rank], actCycle);
      windows[rank].AddActivation(actCycle);
      acts := acts[rank := acts[rank] + [actCycle]];
      assert WindowOk(windows[rank], acts[rank]);
    }

    /** The cycle of r's column command, and its bank afterwards. */
    method Access(r: Request, curCycle: nat, closes: bool) returns (bank: Bank, cmdCycle: nat)
      requires Placed(r) && WindowsValid() && Min(r) <= curCycle && minResp >= p.tCL
      modifies this`acts, windows[r.rank]
      ensures WindowsValid() && cmdCycle == BusFree(p, Now(), r.write, curCycle)
      ensures bank == BankAfter(p, banks[r.bank], r, old(Win(r)), cmdCycle, closes)
      ensures acts == ActsAfter(p, old(acts), banks[r.bank], r, old(Win(r)))
    {
      bank := banks[r.bank];
      var minCmdCycle := Max(curCycle, minResp - p.tCL);
      if lastWrite && !r.write { minCmdCycle := Max(minCmdCycle, minResp + p.tWTR); }
      if !(r.row == bank.openRow && bank.open) {
        var actCycle;
        bank, actCycle := Activate(r, bank);
        minCmdCycle := Max(minCmdCycle, actCycle + p.tRCD);
      }
      assert minCmdCycle == BusFree(p, Now(), r.write, curCycle);
      cmdCycle := Max(minCmdCycle, minResp - p.tCL);
      ColumnAfter(p, banks[r.bank], r, old(Win(r)), cmdCycle, closes, bank);
      bank := RecordColumn(p, bank, cmdCycle, r.write, closes, r.hits);
    }

    /** The second half of scheduling: sends the commands of a ready request; nextHit says that the request behind
        it continues its run. */
    method Issue(r: Request, curCycle: nat, nextHit: bool)
      requires Placed(r) && WindowsValid() && TimingValid() && Min(r) <= curCycle
      modifies this`banks, this`minResp, this`lastWrite, this`log, this`acts, windows[r.rank]
      ensures WindowsValid() && TimingValid() && |banks| == old(|banks|)
      ensures IssuedAs(p, old(Now()), old(log), Now(), log, r, old(Win(r)), curCycle, nextHit)
    {
      var closes := p.closedPage && !nextHit;
      ghost var t, win, x := Now(), Win(r), banks[r.bank];
      ghost var cmd := BusFree(p, t, r.write, curCycle);
      ghost var u, sent, acts' := TimingAfter(p, t, r, win, cmd, closes), log + Sent(p, x, r, win, cmd, closes), ActsAfter(p, acts, x, r, win);
      IssueResult(p, t, log, acts, r, win, curCycle, nextHit);
      assert Sound(p, u, sent, acts') && IssuedAs(p, t, log, u, sent, r, win, curCycle, nextHit);
      SendCommands(r, curCycle, closes, u, sent);
    }

    method SendCommands(r: Request, curCycle: nat, closes: bool, ghost u: Timing, ghost sent: seq<Cmd>)
      requires Placed(r) && WindowsValid() && Min(r) <= curCycle && minResp >= p.tCL
      requires u == TimingAfter(p, Now(), r, Win(r), BusFree(p, Now(), r.write, curCycle), closes)
      modifies this`banks, this`minResp, this`lastWrite, this`log, this`acts, windows[r.rank]
      ensures WindowsValid() && Now() == u && log == sent && acts == old(ActsAfter(p, acts, banks[r.bank], r, Win(r)))
    {
      var bank, cmdCycle := Access(r, curCycle, closes);
      minResp := cmdCycle + p.tCL + p.tBL;
      lastWrite := r.write;
      banks := banks[r.bank := bank];
      log := sent;
    }

    // -------------------------------------------------------------- choosing a request

    /** Of the requests that are first in their banks, number k is the oldest that is ready. */
    ghost predicate FirstReady(q: seq<Request>, lists: seq<seq<Request>>, k: nat, curCycle: nat)
      requires Sized() && forall i :: 0 <= i < |q| ==> Placed(q[i])
      reads this`banks, this`acts
    {
      && k < |q| && First(lists, q[k]) && Min(q[k]) <= curCycle
      && forall i :: 0 <= i < k && First(lists, q[i]) ==> Min(q[i]) > curCycle
    }

    /** r has to wait, until soonest at least. */
    ghost predicate NotReady(r: Request, curCycle: nat, soonest: Cycle)
      requires Sized() && Placed(r)
      reads this`banks, this`acts
    {
      Min(r) > curCycle && soonest.At? && soonest.cycle <= Min(r)
    }

    /** The first request, in arrival order, that is first in its bank and ready; without one, the earliest cycle in
        which one will be. */
    method FindReady(q: seq<Request>, lists: seq<seq<Request>>, curCycle: nat) returns (k: int, soonest: Cycle)
      requires WindowsValid() && forall i :: 0 <= i < |q| ==> Placed(q[i])
      ensures -1 <= k < |q|
      ensures k != -1 ==> FirstReady(q, lists, k, curCycle)
      ensures k == -1 ==> forall i :: 0 <= i < |q| && First(lists, q[i]) ==> NotReady(q[i], curCycle, soonest)
      ensures k == -1 && soonest.At? ==> soonest.cycle > curCycle && exists i :: 0 <= i < |q| && First(lists, q[i]) && Min(q[i]) == soonest.cycle
    {
      soonest := Never;
      ghost var at := 0;
      for i := 0 to |q|
        invariant forall j :: 0 <= j < i && First(lists, q[j]) ==> NotReady(q[j], curCycle, soonest)
        invariant soonest.At? ==> soonest.cycle > curCycle && 0 <= at < i && First(lists, q[at]) && Min(q[at]) == soonest.cycle
      {
        if First(lists, q[i]) {
          var minCmdCycle := FindMinCmdCycle(q[i]);
          if minCmdCycle <= curCycle { return i, soonest; }
          if Before(minCmdCycle, soonest) {
            soonest := At(minCmdCycle);
            at := i;
          }
        }
      }
      k := -1;
    }

    ghost predicate ReadyIn(isWriteQueue: bool, k: nat, curCycle: nat)
      requires QueuesValid() && Sized()
      reads this
    {
      if isWriteQueue then FirstReady(wr, wrLists, k, curCycle) else FirstReady(rd, rdLists, k, curCycle)
    }

    /** In cycle c some request that is first in its bank is ready. */
    ghost predicate SomeReady(fromWr: bool, c: nat)
      requires QueuesValid() && Sized()
      reads this`banks, this`rd, this`wr, this`rdLists, this`wrLists, this`overflow, this`nextId, this`acts
    {
      if fromWr then exists i :: 0 <= i < |wr| && First(wrLists, wr[i]) && Min(wr[i]) <= c
      else exists i :: 0 <= i < |rd| && First(rdLists, rd[i]) && Min(rd[i]) <= c
    }

    /** In cycle c a request can be served: the bus is near enough, and one is ready in the queue whose turn it is. */
    ghost predicate CanServe(c: nat)
      requires QueuesValid() && Sized()
      reads this`banks, this`rd, this`wr, this`rdLists, this`wrLists, this`overflow, this`nextId, this`minResp, this`lastWrite, this`acts
    {
      (rd != [] || wr != []) && c + p.tCL >= minResp && SomeReady(rd == [] || PrioWrites(), c)
    }

    /** c is the first cycle, after curCycle, in which some request that is first in its bank will be ready. */
    ghost predicate FirstReadyAt(fromWr: bool, c: nat, curCycle: nat)
      requires QueuesValid() && Sized()
      reads this`banks, this`rd, this`wr, this`rdLists, this`wrLists, this`overflow, this`nextId, this`acts
    {
      c > curCycle && SomeReady(fromWr, c) && forall x :: 0 <= x < c ==> !SomeReady(fromWr, x)
    }

    /** What to wait for when nothing was served: with the bus taken, the cycle in which it comes near enough; else
        the first cycle in which a request is ready in the queue whose turn it is. */
    ghost predicate NextUse(again: Cycle, curCycle: nat)
      requires QueuesValid() && Sized()
      reads this`banks, this`rd, this`wr, this`rdLists, this`wrLists, this`overflow, this`nextId, this`minResp, this`lastWrite, this`acts
    {
      if again == Never then rd == [] && wr == []
      else if curCycle + p.tCL < minResp then again.cycle + p.tCL == minResp
      else FirstReadyAt(rd == [] || PrioWrites(), again.cycle, curCycle)
    }

    /** What to wait for after a service: the first cycle in which another column command may follow. */
    ghost predicate NextColumn(again: Cycle)
      reads this`log
    {
      again.At? ==> log != [] && log[|log| - 1].Col? && again.cycle == log[|log| - 1].cycle + p.tBL
    }

    /** So a wake-up between now and then would have served nothing. */
    lemma NoneBefore(again: Cycle, curCycle: nat, c: nat)
      requires QueuesValid() && Sized() && curCycle < c && Before(c, again)
      requires NextUse(again, curCycle) || (again.At? && NextColumn(again) && AfterColumnSent(p, Now(), log))
      ensures !CanServe(c)
    {
    }

    /** Writes are drained from three quarters of the queue down to one quarter, and in between what was being served
        goes on. */
    lemma WriteDrain()
      ensures |wr| > 3 * depth / 4 ==> PrioWrites()
      ensures |wr| <= depth / 4 ==> !PrioWrites()
      ensures depth / 4 < |wr| <= 3 * depth / 4 ==> (PrioWrites() <==> lastWrite)
    {
    }

    predicate PrioWrites()
      reads this`wr, this`lastWrite
    {
      |wr| > 3 * depth / 4 || (lastWrite && |wr| > depth / 4)
    }

    /** Serves request k of one queue: its commands go out, and it leaves its queue and the front of its bank. */
    method Serve(k: nat, isWriteQueue: bool, curCycle: nat)
      requires QueuesValid() && WindowsValid() && TimingValid()
      requires ReadyIn(isWriteQueue, k, curCycle)
      modifies this`banks, this`minResp, this`lastWrite, this`log, this`rd, this`wr, this`rdLists, this`wrLists
      modifies this`acts, windows
      ensures QueuesValid() && WindowsValid() && TimingValid()
      ensures Served(old(rd), old(wr), rd, wr, isWriteQueue, k)
      ensures var r := (if isWriteQueue then old(wr) else old(rd))[k];
        IssuedAs(p, old(Now()), old(log), Now(), log, r, old(Win(r)), curCycle, Continues((if isWriteQueue then old(wrLists) else old(rdLists))[r.bank]))
      ensures Grown(old(Now()), old(log), Now(), log) && Cols(log) == Cols(old(log)) + 1 && minResp >= curCycle + p.tCL
      ensures AfterColumnSent(p, Now(), log)
    {
      if isWriteQueue {
        ServeWrite(k, curCycle);
        IssuedGrown(p, old(Now()), old(log), Now(), log, old(wr)[k], old(Win(wr[k])), curCycle, Continues(old(wrLists)[old(wr)[k].bank]));
      } else {
        ServeRead(k, curCycle);
        IssuedGrown(p, old(Now()), old(log), Now(), log, old(rd)[k], old(Win(rd[k])), curCycle, Continues(old(rdLists)[old(rd)[k].bank]));
      }
    }

    method ServeWrite(k: nat, curCycle: nat)
      requires QueuesValid() && WindowsValid() && TimingValid() && k < |wr| && First(wrLists, wr[k]) && Min(wr[k]) <= curCycle
      modifies this`banks, this`minResp, this`lastWrite, this`log, this`wr, this`wrLists
      modifies this`acts, windows
      ensures QueuesValid() && WindowsValid() && TimingValid() && wr == Without(old(wr), k)
      ensures IssuedAs(p, old(Now()), old(log), Now(), log, old(wr)[k], old(Win(wr[k])), curCycle, Continues(old(wrLists)[old(wr)[k].bank]))
    {
      var r := wr[k];
      ServedOk(wr, wrLists, limit, nextId, numBanks, numRanks, k);
      Issue(r, curCycle, Continues(wrLists[r.bank]));
      DequeueWrite(k);
    }

    method DequeueWrite(k: nat)
      requires QueuesValid() && k < |wr| && First(wrLists, wr[k])
      modifies this`wr, this`wrLists
      ensures QueuesValid() && wr == Without(old(wr), k)
    {
      ServedOk(wr, wrLists, limit, nextId, numBanks, numRanks, k);
      var bank := wr[k].bank;
      wr := Without(wr, k);
      wrLists := wrLists[bank := wrLists[bank][1..]];
    }

    method ServeRead(k: nat, curCycle: nat)
      requires QueuesValid() && WindowsValid() && TimingValid() && k < |rd| && First(rdLists, rd[k]) && Min(rd[k]) <= curCycle
      modifies this`banks, this`minResp, this`lastWrite, this`log, this`rd, this`rdLists
      modifies this`acts, windows
      ensures QueuesValid() && WindowsValid() && TimingValid() && rd == Without(old(rd), k)
      ensures IssuedAs(p, old(Now()), old(log), Now(), log, old(rd)[k], old(Win(rd[k])), curCycle, Continues(old(rdLists)[old(rd)[k].bank]))
    {
      var r := rd[k];
      ServedOk(rd, rdLists, limit, nextId, numBanks, numRanks, k);
      Issue(r, curCycle, Continues(rdLists[r.bank]));
      DequeueRead(k);
    }

    method DequeueRead(k: nat)
      requires QueuesValid() && k < |rd| && First(rdLists, rd[k])
      modifies this`rd, this`rdLists
      ensures QueuesValid() && rd == Without(old(rd), k)
    {
      ServedOk(rd, rdLists, limit, nextId, numBanks, numRanks, k);
      var bank := rd[k].bank;
      rd := Without(rd, k);
      rdLists := rdLists[bank := rdLists[bank][1..]];
    }

    /** Looks for a ready request in one of the queues, which is not empty. */
    method Pick(isWriteQueue: bool, curCycle: nat) returns (k: int, soonest: Cycle)
      requires QueuesValid() && WindowsValid() && (if isWriteQueue then wr else rd) != []
      ensures k == -1 ==> soonest.At? && FirstReadyAt(isWriteQueue, soonest.cycle, curCycle)
      ensures k != -1 ==> 0 <= k && ReadyIn(isWriteQueue, k, curCycle)
    {
      if isWriteQueue {
        ghost var f := SomeFirst(wr, wrLists, limit, nextId);
        k, soonest := FindReady(wr, wrLists, curCycle);
      } else {
        ghost var f := SomeFirst(rd, rdLists, limit, nextId);
        k, soonest := FindReady(rd, rdLists, curCycle);
      }
    }

    /** Serves request k and says when to look again. */
    method ServeNext(k: nat, isWriteQueue: bool, curCycle: nat) returns (again: Cycle)
      requires QueuesValid() && WindowsValid() && ReadyIn(isWriteQueue, k, curCycle) && TimingValid()
      modifies this`banks, this`minResp, this`lastWrite, this`log, this`rd, this`wr, this`rdLists, this`wrLists
      modifies this`acts, windows
      ensures QueuesValid() && WindowsValid() && TimingValid()
      ensures again == Never <==> rd == [] && wr == []
      ensures again != Never ==> again.cycle >= curCycle && again.cycle + p.tCL == minResp
      ensures NextColumn(again)
      ensures Scheduled(old(rd), old(wr), old(Now()), old(log), rd, wr, Now(), log, isWriteQueue, k)
    {
      Serve(k, isWriteQueue, curCycle);
      again := if rd == [] && wr == [] then Never else At(minResp - p.tCL);
    }

    /** Serves at most one request, and says when to look again: never, exactly if nothing is left to serve. */
    method TrySchedule(curCycle: nat) returns (again: Cycle, ghost k: int, isWriteQueue: bool)
      requires QueuesValid() && WindowsValid() && TimingValid()
      modifies this`banks, this`minResp, this`lastWrite, this`log, this`rd, this`wr, this`rdLists, this`wrLists
      modifies this`acts, windows
      ensures QueuesValid() && WindowsValid() && TimingValid()
      ensures again == Never <==> rd == [] && wr == []
      ensures again != Never ==> again.cycle >= curCycle
      ensures Scheduled(old(rd), old(wr), old(Now()), old(log), rd, wr, Now(), log, isWriteQueue, k)
      ensures k != -1 ==> 0 <= k && old(ReadyIn(isWriteQueue, k, curCycle))
      ensures (k != -1 <==> old(CanServe(curCycle))) && isWriteQueue == old(rd == [] || PrioWrites())
      ensures if k == -1 then old(NextUse(again, curCycle)) else NextColumn(again)
      ensures minResp >= p.tCL + p.tBL
    {
      var ready;
      ready, again, isWriteQueue := Decide(curCycle);
      k := ready;
      if ready != -1 { again := ServeNext(ready, isWriteQueue, curCycle); }
    }

    /** Picks the request to serve now, or says what to wait for. */
    method Decide(curCycle: nat) returns (ready: int, again: Cycle, isWriteQueue: bool)
      requires QueuesValid() && WindowsValid() && minResp >= p.tCL
      ensures isWriteQueue == (rd == [] || PrioWrites()) && (ready != -1 <==> CanServe(curCycle))
      ensures ready != -1 ==> 0 <= ready && ReadyIn(isWriteQueue, ready, curCycle)
      ensures ready == -1 ==> NextUse(again, curCycle) && (again == Never <==> rd == [] && wr == []) && (again.At? ==> again.cycle > curCycle)
    {
      isWriteQueue := rd == [] || PrioWrites();
      if rd == [] && wr == [] { return -1, Never, isWriteQueue; }
      if curCycle + p.tCL < minResp { return -1, At(minResp - p.tCL), isWriteQueue; }
      ready, again := Pick(isWriteQueue, curCycle);
    }

    // -------------------------------------------------------------- accepting requests

    /** Gives a request a place in its queue and, in FR-FCFS order, in its bank. */
    method File(req: Request, memCycle: nat) returns (r: Request, first: bool)
      requires QueuesValid() && Sized() && Placed(req)
      modifies this`rd, this`wr, this`rdLists, this`wrLists, this`nextId
      ensures QueuesValid() && Placed(r) && r == req.(id := old(nextId), arrival := memCycle, hits := r.hits)
      ensures QueuedIn(deferredWrites && req.write, r, old(rd), old(wr), rd, wr)
      ensures var x := req.(id := old(nextId), arrival := memCycle);
        if deferredWrites && req.write then Enlisted(old(wrLists), wrLists, x, banks[req.bank], limit, first) && rdLists == old(rdLists)
        else Enlisted(old(rdLists), rdLists, x, banks[req.bank], limit, first) && wrLists == old(wrLists)
      ensures old(rd == [] && wr == []) ==> first
    {
      r := req.(id := nextId, arrival := memCycle);
      if deferredWrites && req.write {
        first, r := FileWrite(r);
      } else {
        first, r := FileRead(r);
      }
    }

    method FileWrite(req: Request) returns (first: bool, r: Request)
      requires QueuesValid() && Sized() && Placed(req) && req.id == nextId
      modifies this`wr, this`wrLists, this`nextId
      ensures QueuesValid() && r == req.(hits := r.hits) && wr == old(wr) + [r]
      ensures Enlisted(old(wrLists), wrLists, req, banks[req.bank], limit, first) && (old(wr) == [] ==> first)
    {
      var row := RowBuffer(banks[req.bank]);
      QueuedOk(wr, wrLists, limit, nextId, numBanks, numRanks, req, row);
      LaterOk(rd, rdLists, limit, nextId, numBanks, numRanks);
      var list := wrLists[req.bank];
      r := req.(hits := FrFcfs.Place(list, req, row, limit).1);
      wr := wr + [r];
      wrLists := wrLists[req.bank := FrFcfs.Queued(list, req, row, limit)];
      nextId := nextId + 1;
      first := First(wrLists, r);
    }

    method FileRead(req: Request) returns (first: bool, r: Request)
      requires QueuesValid() && Sized() && Placed(req) && req.id == nextId
      modifies this`rd, this`rdLists, this`nextId
      ensures QueuesValid() && r == req.(hits := r.hits) && rd == old(rd) + [r]
      ensures Enlisted(old(rdLists), rdLists, req, banks[req.bank], limit, first) && (old(rd) == [] ==> first)
    {
      var row := RowBuffer(banks[req.bank]);
      QueuedOk(rd, rdLists, limit, nextId, numBanks, numRanks, req, row);
      LaterOk(wr, wrLists, limit, nextId, numBanks, numRanks);
      var list := rdLists[req.bank];
      r := req.(hits := FrFcfs.Place(list, req, row, limit).1);
      rd := rd + [r];
      rdLists := rdLists[req.bank := FrFcfs.Queued(list, req, row, limit)];
      nextId := nextId + 1;
      first := First(rdLists, r);
    }

    /** A request arrives: it overflows if either queue is full, and else is filed. */
    method Enqueue(req: Request, sysCycle: nat) returns (ghost r: Request)
      requires Valid() && Placed(req)
      modifies this`rd, this`wr, this`overflow, this`rdLists, this`wrLists, this`nextId
      modifies this`events, this`free, this`nextEvent, this`nextCycle
      ensures Valid() && Pending() == old(Pending()) + 1
      ensures r == req.(arrival := clocks.ToMem(sysCycle), id := r.id, hits := r.hits)
      ensures if old(|rd| >= depth || |wr| >= depth) then overflow == old(overflow) + [r] && rd == old(rd) && wr == old(wr) && nextCycle == old(nextCycle)
              else overflow == old(overflow) && Accepted(r, old(rd), old(wr), old(nextCycle))
    {
      var memCycle := clocks.ToMem(sysCycle);
      if |rd| >= depth || |wr| >= depth {
        Spill(req, memCycle);
        r := req.(arrival := memCycle);
      } else {
        r := Accept(req, memCycle, sysCycle);
      }
    }

    /** r has joined the end of its queue; if it is first in its bank it may have brought the wake-up forward. */
    ghost predicate Accepted(r: Request, rd0: seq<Request>, wr0: seq<Request>, at: Cycle)
      reads this`banks, this`acts, this`minResp, this`rd, this`wr, this`rdLists, this`wrLists, this`nextCycle
    {
      && Placed(r) && Sized() && minResp >= p.tCL + p.tBL
      && QueuedIn(deferredWrites && r.write, r, rd0, wr0, rd, wr) && nextCycle == WakeNow(at, r, r.arrival)
    }

    /** A newcomer that is first in its bank may bring the wake-up forward; another leaves it. */
    ghost function WakeNow(at: Cycle, r: Request, memCycle: nat): Cycle
      requires Placed(r) && Sized() && minResp >= p.tCL + p.tBL
      reads this`banks, this`minResp, this`rdLists, this`wrLists, this`acts
    {
      if First(if deferredWrites && r.write then wrLists else rdLists, r) then Nearer(at, Wanted(r, memCycle)) else at
    }

    method Spill(req: Request, memCycle: nat)
      requires QueuesValid() && Placed(req)
      modifies this`overflow
      ensures QueuesValid() && overflow == old(overflow) + [req.(arrival := memCycle)]
    {
      overflow := overflow + [req.(arrival := memCycle)];
    }

    method Accept(req: Request, memCycle: nat, sysCycle: nat) returns (ghost r: Request)
      requires QueuesValid() && EventsValid() && WindowsValid() && NothingStranded()
      requires Placed(req) && minResp >= p.tCL + p.tBL && memCycle == clocks.ToMem(sysCycle)
      modifies this`rd, this`wr, this`rdLists, this`wrLists, this`nextId
      modifies this`events, this`free, this`nextEvent, this`nextCycle
      ensures QueuesValid() && EventsValid() && NothingStranded()
      ensures r == req.(arrival := memCycle, id := r.id, hits := r.hits)
      ensures Accepted(r, old(rd), old(wr), old(nextCycle))
    {
      var x, first := File(req, memCycle);
      r := x;
      if first { WakeFor(x, memCycle, sysCycle); }
    }

    /** The first cycle in which r, first in its bank, could go out if nothing else did. */
    ghost function Wanted(r: Request, memCycle: nat): nat
      requires Placed(r) && Sized() && minResp >= p.tCL + p.tBL
      reads this`banks, this`minResp, this`acts
    {
      Max(Max(memCycle, minResp - p.tCL - p.tBL), Min(r))
    }

    /** Has the controller woken in time for r, which is first in its bank. */
    method WakeFor(r: Request, memCycle: nat, sysCycle: nat)
      requires EventsValid() && WindowsValid() && Placed(r) && minResp >= p.tCL + p.tBL && memCycle == clocks.ToMem(sysCycle)
      modifies this`events, this`free, this`nextEvent, this`nextCycle
      ensures EventsValid() && nextEvent != -1 && nextCycle == Nearer(old(nextCycle), Wanted(r, memCycle))
      ensures nextCycle == old(nextCycle) || events[nextEvent].cycle >= sysCycle
    {
      var minSchedCycle := Max(memCycle, minResp - p.tCL - p.tBL);
      if Before(minSchedCycle, nextCycle) {
        var m := FindMinCmdCycle(r);
        minSchedCycle := Max(minSchedCycle, m);
      }
      if Before(minSchedCycle, nextCycle) { Wake(minSchedCycle, sysCycle); }
    }

    /** Queues the wake-up for an earlier cycle; the event that was to do it is annulled. */
    method Wake(minSchedCycle: nat, sysCycle: nat)
      requires EventsValid() && Before(minSchedCycle, nextCycle) && clocks.ToMem(sysCycle) <= minSchedCycle
      modifies this`events, this`free, this`nextEvent, this`nextCycle
      ensures EventsValid() && nextCycle == At(minSchedCycle) && nextEvent != -1
      ensures events[nextEvent].cycle >= sysCycle
    {
      WakesInCycle(clocks, minSchedCycle, sysCycle);
      if nextEvent != -1 { events := events[nextEvent := events[nextEvent].(state := Annulled)]; }
      nextEvent := -1;
      nextCycle := Never;
      assert EventsValid() by {
        forall e | 0 <= e < |events| ensures EventOk(events, free, -1, e) { assert old(EventOk(events, free, nextEvent, e)); }
      }
      QueueEvent(WakeAt(clocks, minSchedCycle, sysCycle));
      nextCycle := At(minSchedCycle);
    }

    /** Takes an event from the free list, or makes one, and queues it. */
    method QueueEvent(cycle: nat)
      requires EventsValid() && nextEvent == -1
      modifies this`events, this`free, this`nextEvent, this`nextCycle
      ensures EventsValid() && nextCycle == At(clocks.ToMem(cycle)) && nextEvent != -1 && events[nextEvent].cycle == cycle
    {
      ghost var ev, fr := events, free;
      if free != [] {
        nextEvent := free[0];
        free := free[1..];
        events := events[nextEvent := Event(Queued, cycle)];
      } else {
        nextEvent := |events|;
        events := events + [Event(Queued, cycle)];
      }
      nextCycle := At(clocks.ToMem(cycle));
      forall e | 0 <= e < |events| ensures EventOk(events, free, nextEvent, e) {
        if e < |ev| { assert EventOk(ev, fr, -1, e); }
      }
    }

    // -------------------------------------------------------------- waking up

    /** One wake-up: serves a request if one is ready, takes in an overflowed one, and asks for the next wake-up;
        0 asks for none. */
    method Tick(sysCycle: nat) returns (next: nat, ghost a: Asking)
      requires clocks.Valid() && depth > 0 && TimingValid() && QueuesValid() && WindowsValid()
      requires nextCycle == At(clocks.ToMem(sysCycle))
      modifies this`banks, this`minResp, this`lastWrite, this`log, this`rd, this`wr, this`rdLists, this`wrLists
      modifies this`overflow, this`nextId, this`nextCycle, this`nextEvent, this`acts, windows
      ensures TimingValid() && QueuesValid() && WindowsValid()
      ensures next == 0 <==> rd == [] && wr == [] && overflow == []
      ensures overflow != [] ==> rd != [] || wr != []
      ensures if next == 0 then nextCycle == Never && nextEvent == -1
              else nextCycle == At(clocks.ToMem(next)) && nextEvent == old(nextEvent) && next >= sysCycle
      ensures a.served <==> old(CanServe(clocks.ToMem(sysCycle)))
      ensures if a.served then NextColumn(a.again) else old(NextUse(a.again, clocks.ToMem(sysCycle)))
      ensures minResp >= p.tCL + p.tBL && nextCycle == Sooner(a.again, a.took && a.first, clocks.ToMem(sysCycle))
      ensures Taken(a.took, old(overflow), overflow) && (overflow != [] && !a.took ==> |rd| >= depth || |wr| >= depth)
      ensures Grown(old(Now()), old(log), Now(), log) && Cols(log) + Pending() == old(Cols(log) + Pending())
    {
      var memCycle := clocks.ToMem(sysCycle);
      var c;
      c, a := Advance(memCycle);
      next := AskFor(c, sysCycle);
    }

    /** Notes the next wake-up, and translates it into a system cycle. */
    method AskFor(c: Cycle, sysCycle: nat) returns (next: nat)
      requires clocks.Valid() && (c.At? ==> clocks.ToMem(sysCycle) <= c.cycle)
      modifies this`nextCycle, this`nextEvent
      ensures nextCycle == c && (next == 0 <==> c == Never)
      ensures if next == 0 then nextEvent == -1 else c == At(clocks.ToMem(next)) && nextEvent == old(nextEvent) && next >= sysCycle
    {
      nextCycle := c;
      if c == Never {
        nextEvent := -1;
        return 0;
      }
      NextWake(clocks, c.cycle, sysCycle);
      next := WakeAt(clocks, c.cycle, sysCycle);
    }

    /** The wake-up asked for is the scheduler's, or a nearer one for an overflowed request that comes first in its bank. */
    method Advance(memCycle: nat) returns (minSchedCycle: Cycle, ghost a: Asking)
      requires depth > 0 && TimingValid() && QueuesValid() && WindowsValid()
      modifies this`banks, this`minResp, this`lastWrite, this`log, this`rd, this`wr, this`rdLists, this`wrLists
      modifies this`overflow, this`nextId, this`acts, windows
      ensures TimingValid() && QueuesValid() && WindowsValid()
      ensures minSchedCycle == Never <==> rd == [] && wr == [] && overflow == []
      ensures overflow != [] ==> rd != [] || wr != []
      ensures minSchedCycle != Never ==> minSchedCycle.cycle >= memCycle
      ensures Grown(old(Now()), old(log), Now(), log) && Cols(log) + Pending() == old(Cols(log) + Pending())
      ensures a.served <==> old(CanServe(memCycle))
      ensures if a.served then NextColumn(a.again) else old(NextUse(a.again, memCycle))
      ensures minResp >= p.tCL + p.tBL && minSchedCycle == Sooner(a.again, a.took && a.first, memCycle)
      ensures Taken(a.took, old(overflow), overflow) && (overflow != [] && !a.took ==> |rd| >= depth || |wr| >= depth)
    {
      ghost var k, took, first;
      var fromWr, again;
      again, k, fromWr := TrySchedule(memCycle);
      minSchedCycle, took, first := Refill(memCycle, again);
      a := Asking(again, k != -1, took, first);
    }

    /** Takes in one overflowed request if both queues have room. */
    method Refill(memCycle: nat, again: Cycle) returns (c: Cycle, ghost took: bool, ghost first: bool)
      requires depth > 0 && QueuesValid() && WindowsValid() && minResp >= p.tCL + p.tBL
      requires (again == Never <==> rd == [] && wr == []) && (again != Never ==> again.cycle >= memCycle)
      modifies this`overflow, this`rd, this`wr, this`rdLists, this`wrLists, this`nextId
      ensures QueuesValid() && Pending() == old(Pending()) && (old(|rd| < depth && |wr| < depth && overflow != []) <==> took)
      ensures c == Never <==> rd == [] && wr == [] && overflow == []
      ensures overflow != [] ==> rd != [] || wr != []
      ensures c != Never ==> c.cycle >= memCycle
      ensures c == Sooner(again, took && first, memCycle)
      ensures Taken(took, old(overflow), overflow) && (overflow != [] && !took ==> |rd| >= depth || |wr| >= depth)
    {
      c, took, first := again, false, false;
      if |rd| < depth && |wr| < depth && overflow != [] {
        var r, f;
        c, r, f := TakeOverflow(memCycle, again);
        took, first := true, f;
      }
    }

    /** The wake-up a request that comes first in its bank needs, if that is sooner: the controller looks as soon as
        the bus can be used after the burst under way. */
    function Sooner(again: Cycle, joins: bool, memCycle: nat): Cycle
      requires minResp >= p.tCL + p.tBL
      reads this`minResp
    {
      var queued := Max(memCycle, minResp - p.tCL - p.tBL);
      if joins && Before(queued, again) then At(queued) else again
    }

    /** Moves the oldest overflowed request into its queue; it may be ready sooner than the rest. */
    method TakeOverflow(memCycle: nat, soonest: Cycle) returns (c: Cycle, r: Request, first: bool)
      requires QueuesValid() && WindowsValid() && minResp >= p.tCL + p.tBL && overflow != []
      requires (soonest == Never <==> rd == [] && wr == []) && (soonest != Never ==> soonest.cycle >= memCycle)
      modifies this`overflow, this`rd, this`wr, this`rdLists, this`wrLists, this`nextId
      ensures QueuesValid() && overflow == old(overflow)[1..] && (rd != [] || wr != [])
      ensures |rd| + |wr| == old(|rd| + |wr|) + 1
      ensures c.At? && c.cycle >= memCycle && (soonest.At? ==> c.cycle <= soonest.cycle)
      ensures c == Sooner(soonest, first, memCycle)
      ensures QueuedIn(deferredWrites && r.write, r, old(rd), old(wr), rd, wr) && r == old(overflow)[0].(id := r.id, arrival := memCycle, hits := r.hits)
      ensures first == First(if deferredWrites && r.write then wrLists else rdLists, r)
    {
      var req := overflow[0];
      overflow := overflow[1..];
      r, first := File(req, memCycle);
      c := soonest;
      if first { c := LookSooner(r, memCycle, soonest); }
    }

    method LookSooner(r: Request, memCycle: nat, soonest: Cycle) returns (c: Cycle)
      requires Placed(r) && WindowsValid() && minResp >= p.tCL + p.tBL
      ensures c == Sooner(soonest, true, memCycle)
    {
      c := soonest;
      var queued := Max(memCycle, minResp - p.tCL - p.tBL);
      if Before(queued, c) {
        var m := FindMinCmdCycle(r);
        c := At(Max(queued, m));
      }
      if Before(queued, c) { c := At(queued); }
    }

    /** The simulator runs an event that is queued or annulled.  Every request that goes has been served by one
        column command; an annulled event changes nothing. */
    method Simulate(e: nat)
      requires Valid() && e < |events| && events[e].state in {Queued, Annulled}
      modifies this, windows
      ensures Valid() && Grown(old(Now()), old(log), Now(), log) && Cols(log) + Pending() == old(Cols(log) + Pending())
      ensures old(events[e].state) == Annulled ==> Now() == old(Now()) && log == old(log) && nextEvent == old(nextEvent) && nextCycle == old(nextCycle)
    {
      if events[e].state == Queued {
        assert EventOk(events, free, nextEvent, e);
        RunTick(e);
      } else {
        assert events[e := events[e].(state := Annulled)] == events;
        Recycle(e);
      }
    }

    method RunTick(e: nat)
      requires Valid() && e < |events| && e == nextEvent
      modifies this, windows
      ensures Valid() && Grown(old(Now()), old(log), Now(), log) && Cols(log) + Pending() == old(Cols(log) + Pending())
    {
      ghost var ev, at := events, nextCycle;
      events := events[e := events[e].(state := Running)];
      ghost var a;
      var next;
      next, a := Tick(events[e].cycle);
      Requeue(e, next, ev, at);
    }

    /** What becomes of the running event: it is queued for the next wake-up, or it is done. */
    method Requeue(e: nat, next: nat, ghost ev: seq<Event>, ghost at: Cycle)
      requires e < |ev| && EventsOk(clocks, ev, free, e, at) && events == ev[e := ev[e].(state := Running)]
      requires if next == 0 then nextCycle == Never && nextEvent == -1 else nextCycle == At(clocks.ToMem(next)) && nextEvent == e
      modifies this`events, this`free
      ensures EventsValid()
    {
      EventAgain(clocks, ev, free, e, at);
      if next != 0 {
        events := events[e := Event(Queued, next)];
        assert events == ev[e := Event(Queued, next)];
      } else {
        assert events[e := events[e].(state := Annulled)] == ev[e := ev[e].(state := Annulled)];
        Recycle(e);
      }
    }

    /** A finished event, never the next one and never one already on the list, goes on the free list. */
    method Recycle(e: nat)
      requires e < |events| && events[e].state in {Running, Annulled}
      requires EventsOk(clocks, events[e := events[e].(state := Annulled)], free, nextEvent, nextCycle)
      modifies this`events, this`free
      ensures EventsValid() && events == old(events)[e := old(events)[e].(state := Idle)] && free == [e] + old(free)
    {
      ghost var ev, fr := events[e := events[e].(state := Annulled)], free;
      events := events[e := events[e].(state := Idle)];
      free := [e] + free;
      assert free[0] == e;
      forall i | 0 <= i < |events| ensures EventOk(events, free, nextEvent, i) {
        assert EventOk(ev, fr, nextEvent, i);
        if i in fr { var j :| 0 <= j < |fr| && fr[j] == i; assert free[j + 1] == i; }
      }
    }

    // -------------------------------------------------------------- four activates

    /** In every run, two of any five ACTs to a rank are tFAW apart, although its window may get out of order. */
    lemma RankActivates(rank: nat, s: set<nat>)
      requires Valid() && rank < |windows| && |s| > 4 && forall i :: i in s ==> i < |log| && IsAct(log[i], rank)
      ensures exists i, j :: i in s && j in s && i < j && log[i].Act? && log[j].Act? && log[i].cycle + p.tFAW <= log[j].cycle
    {
      assert WindowOk(windows[rank], acts[rank]) && Recorded(log, rank, acts[rank]);
      FourActivates(log, rank, p.tFAW, acts[rank], s);
    }

    // -------------------------------------------------------------- refresh

    /** Closes every bank for a refresh that starts once all have finished. */
    method Refresh(sysCycle: nat)
      requires Valid()
      modifies this`banks, this`log
      ensures Valid() && Grown(old(Now()), old(log), Now(), log)
      ensures |log| == |old(log)| + 1 && log[|log| - 1].Ref? && StartsAt(old(banks), clocks.ToMem(sysCycle), log[|log| - 1].start)
      ensures forall b :: 0 <= b < |banks| ==> !banks[b].open
    {
      RefreshBanks(clocks.ToMem(sysCycle));
    }

    method RefreshBanks(memCycle: nat)
      requires TimingValid()
      modifies this`banks, this`log
      ensures TimingValid() && Grown(old(Now()), old(log), Now(), log)
      ensures |log| == |old(log)| + 1 && log[|log| - 1].Ref? && StartsAt(old(banks), memCycle, log[|log| - 1].start)
      ensures forall b :: 0 <= b < |banks| ==> !banks[b].open
    {
      var start := RefreshStart(memCycle);
      ghost var t := Now();
      CloseBanks(start);
      RefreshSound(p, t, Now(), log, acts, memCycle, start);
      log := log + [Ref(start)];
    }

    method RefreshStart(memCycle: nat) returns (start: nat)
      ensures StartsAt(banks, memCycle, start)
    {
      start := memCycle;
      for i := 0 to |banks|
        invariant start >= memCycle && forall b :: 0 <= b < i ==> banks[b].minPre <= start && banks[b].lastCmd <= start
        invariant start == memCycle || exists b :: 0 <= b < i && (start == banks[b].minPre || start == banks[b].lastCmd)
      {
        start := Max(start, Max(banks[i].minPre, banks[i].lastCmd));
      }
    }

    method CloseBanks(start: nat)
      requires p.tRFC >= p.tRP
      modifies this`banks
      ensures AllRefreshed(p, old(banks), banks, start)
    {
      for i := 0 to |banks|
        invariant |banks| == old(|banks|)
        invariant forall b :: 0 <= b < i ==> banks[b] == Refreshed(p, old(banks)[b], start)
        invariant forall b :: i <= b < |banks| ==> banks[b] == old(banks)[b]
      {
        var refreshDoneCycle := start + p.tRFC;
        banks := banks[i := banks[i].(minPre := refreshDoneCycle - p.tRP, open := false)];
      }
    }
  }
}
