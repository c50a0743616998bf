/** Bank and bus timing of the DDR3 controller: which commands are sent when, over whole runs. */
module DdrTiming {
  datatype Params = Params(tBL: nat, tCL: nat, tRCD: nat, tRTP: nat, tRP: nat, tRRD: nat, tRAS: nat, tFAW: nat,
                           tWTR: nat, tWR: nat, tRFC: nat, closedPage: bool)
  {
    ghost predicate Valid() { tRFC >= tRP && tRCD > 0 }
  }

  datatype Bank = Bank(open: bool, openRow: int, minPre: nat, lastAct: nat, lastCmd: nat, curHits: nat)

  datatype Timing = Timing(banks: seq<Bank>, minResp: nat, lastWrite: bool)

  /** What goes over the command bus.  A column command may close its row behind it. */
  datatype Cmd =
    | Pre(bank: nat, cycle: nat)
    | Act(bank: nat, row: int, cycle: nat, rank: nat)
    | Col(bank: nat, row: int, cycle: nat, write: bool, closes: bool)
    | Ref(start: nat)

  function Max(a: nat, b: nat): nat { if a >= b then a else b }

  /** From a column command to the precharge of its row. */
  function Recovery(p: Params, write: bool): nat { if write then p.tCL + p.tBL + p.tWR else p.tRTP }

  // ---------------------------------------------------------------- what the device demands

  /** Two commands, a sent before b. */
  ghost predicate PairOk(p: Params, a: Cmd, b: Cmd) {
    && (a.Col? && b.Col? ==> a.cycle + p.tBL <= b.cycle)
    && (a.Col? && b.Col? && a.write && !b.write ==> a.cycle + p.tCL + p.tBL + p.tWTR <= b.cycle)
    && (a.Act? && b.Act? && a.bank == b.bank ==> a.cycle + p.tRAS + p.tRP <= b.cycle)
    && (a.Act? && b.Col? && a.bank == b.bank ==> a.cycle + p.tRCD <= b.cycle)
    && (a.Act? && b.Pre? && a.bank == b.bank ==> a.cycle + p.tRAS <= b.cycle)
    && (a.Col? && b.Pre? && a.bank == b.bank ==> a.cycle + Recovery(p, a.write) <= b.cycle)
    && (a.Col? && b.Act? && a.bank == b.bank ==> a.cycle + Recovery(p, a.write) + p.tRP <= b.cycle)
    && (a.Pre? && b.Act? && a.bank == b.bank ==> a.cycle + p.tRP <= b.cycle)
    && (a.Ref? && b.Act? ==> a.start + p.tRFC <= b.cycle)
    && (a.Act? && b.Ref? ==> a.cycle + p.tRAS <= b.start)
    && (a.Col? && b.Ref? ==> a.cycle + Recovery(p, a.write) <= b.start)
  }

  datatype Row = Closed | Open(row: int)

  /** The row a bank has open after these commands. */
  ghost function RowOf(log: seq<Cmd>, b: nat): Row {
    if log == [] then Closed
    else match log[|log| - 1]
      case Pre(c, _) => if c == b then Closed else RowOf(log[..|log| - 1], b)
      case Act(c, row, _, _) => if c == b then Open(row) else RowOf(log[..|log| - 1], b)
      case Col(c, _, _, _, closes) => if c == b && closes then Closed else RowOf(log[..|log| - 1], b)
      case Ref(_) => Closed
  }

  /** A row is opened in a closed bank, and a column command finds its row open. */
  ghost predicate RowOk(log: seq<Cmd>, c: Cmd) {
    match c
    case Act(b, _, _, _) => RowOf(log, b) == Closed
    case Col(b, row, _, _, _) => RowOf(log, b) == Open(row)
    case _ => true
  }

  ghost predicate Legal(p: Params, log: seq<Cmd>) {
    && (forall i, j :: 0 <= i < j < |log| ==> PairOk(p, log[i], log[j]))
    && (forall j :: 0 <= j < |log| ==> RowOk(log[..j], log[j]))
  }

  lemma LegalAppend(p: Params, log: seq<Cmd>, c: Cmd)
    requires Legal(p, log) && RowOk(log, c) && forall i :: 0 <= i < |log| ==> PairOk(p, log[i], c)
    ensures Legal(p, log + [c])
  {
    var w := log + [c];
    forall j | 0 <= j < |w| ensures RowOk(w[..j], w[j]) {
      assert w[..j] == log[..j];
      if j == |log| { assert log[..j] == log; }
    }
  }

  lemma RowAppend(log: seq<Cmd>, c: Cmd, b: nat)
    ensures RowOf(log + [c], b) == match c
      case Pre(d, _) => if d == b then Closed else RowOf(log, b)
      case Act(d, row, _, _) => if d == b then Open(row) else RowOf(log, b)
      case Col(d, _, _, _, closes) => if d == b && closes then Closed else RowOf(log, b)
      case Ref(_) => Closed
  {
    assert (log + [c])[..|log|] == log;
  }

  /** Bursts occupy the data bus one after the other. */
  lemma BurstsDisjoint(p: Params, log: seq<Cmd>, i: nat, j: nat, x: nat)
    requires Legal(p, log) && i < |log| && j < |log| && i != j && log[i].Col? && log[j].Col?
    ensures !(log[i].cycle + p.tCL <= x < log[i].cycle + p.tCL + p.tBL && log[j].cycle + p.tCL <= x < log[j].cycle + p.tCL + p.tBL)
  {
    if i < j { assert PairOk(p, log[i], log[j]); } else { assert PairOk(p, log[j], log[i]); }
  }

  // ---------------------------------------------------------------- what the controller remembers of it

  ghost predicate Below(p: Params, c: Cmd, x: Bank, b: nat) {
    match c
    case Pre(d, cycle) => d == b ==> cycle <= x.minPre
    case Act(d, _, cycle, _) => d == b ==> cycle + p.tRAS <= x.minPre && cycle <= x.lastAct && (x.open ==> cycle + p.tRCD <= x.lastCmd)
    case Col(d, _, cycle, write, _) => d == b ==> cycle + Recovery(p, write) <= x.minPre && cycle <= x.lastCmd
    case Ref(start) => start + p.tRFC <= x.minPre + p.tRP
  }

  ghost predicate BankOk(p: Params, log: seq<Cmd>, x: Bank, b: nat) {
    && x.lastCmd <= x.minPre
    && RowOf(log, b) == (if x.open then Open(x.openRow) else Closed)
    && forall i :: 0 <= i < |log| ==> Below(p, log[i], x, b)
  }

  ghost predicate BusOk(p: Params, c: Cmd, minResp: nat, lastWrite: bool) {
    c.Col? ==> && c.cycle + p.tCL + p.tBL <= minResp
               && (c.write && !lastWrite ==> c.cycle + p.tCL + p.tBL + p.tWTR + p.tCL <= minResp)
  }

  ghost predicate Known(c: Cmd, n: nat) { !c.Ref? ==> c.bank < n }

  ghost predicate TimingOk(p: Params, t: Timing, log: seq<Cmd>) {
    && p.Valid() && Legal(p, log) && t.minResp >= p.tCL + p.tBL
    && (forall b :: 0 <= b < |t.banks| ==> BankOk(p, log, t.banks[b], b))
    && (forall i :: 0 <= i < |log| ==> BusOk(p, log[i], t.minResp, t.lastWrite))
    && (forall i :: 0 <= i < |log| ==> Known(log[i], |t.banks|))
  }

  // ---------------------------------------------------------------- precharge

  function Precharged(x: Bank, pre: nat): Bank { x.(open := false, minPre := pre) }

  lemma PrechargeKeeps(p: Params, t: Timing, log: seq<Cmd>, b: nat, pre: nat)
    requires TimingOk(p, t, log) && b < |t.banks| && t.banks[b].open && pre >= t.banks[b].minPre
    ensures TimingOk(p, t.(banks := t.banks[b := Precharged(t.banks[b], pre)]), log + [Pre(b, pre)])
  {
    var c := Pre(b, pre);
    var w, u := log + [c], t.(banks := t.banks[b := Precharged(t.banks[b], pre)]);
    assert BankOk(p, log, t.banks[b], b);
    forall i | 0 <= i < |log| ensures PairOk(p, log[i], c) { assert Below(p, log[i], t.banks[b], b); }
    LegalAppend(p, log, c);
    forall d | 0 <= d < |u.banks| ensures BankOk(p, w, u.banks[d], d) {
      assert BankOk(p, log, t.banks[d], d);
      RowAppend(log, c, d);
      forall i | 0 <= i < |w| ensures Below(p, w[i], u.banks[d], d) { if i < |log| { assert Below(p, log[i], t.banks[d], d); } }
    }
  }

  // ---------------------------------------------------------------- column commands

  /** The earliest a column command may go out for the bus. */
  function BusFree(p: Params, t: Timing, write: bool, cur: nat): nat
    requires t.minResp >= p.tCL
  {
    var c := Max(cur, t.minResp - p.tCL);
    if t.lastWrite && !write then Max(c, t.minResp + p.tWTR) else c
  }

  function Column(p: Params, x: Bank, cmd: nat, write: bool, closes: bool, hits: nat): Bank {
    x.(open := x.open && !closes, minPre := Max(x.minPre, Max(x.lastAct + p.tRAS, cmd + Recovery(p, write))),
       lastCmd := cmd, curHits := hits)
  }

  function AfterColumn(p: Params, t: Timing, b: nat, cmd: nat, write: bool, closes: bool, hits: nat): Timing
    requires b < |t.banks|
  {
    Timing(t.banks[b := Column(p, t.banks[b], cmd, write, closes, hits)], cmd + p.tCL + p.tBL, write)
  }

  /** A row hit. */
  lemma ColumnKeeps(p: Params, t: Timing, log: seq<Cmd>, b: nat, cmd: nat, write: bool, closes: bool, hits: nat, cur: nat)
    requires TimingOk(p, t, log) && b < |t.banks| && t.banks[b].open
    requires cmd > t.banks[b].lastCmd && cmd >= BusFree(p, t, write, cur)
    ensures TimingOk(p, AfterColumn(p, t, b, cmd, write, closes, hits), log + [Col(b, t.banks[b].openRow, cmd, write, closes)])
  {
    var c := Col(b, t.banks[b].openRow, cmd, write, closes);
    var w, u := log + [c], AfterColumn(p, t, b, cmd, write, closes, hits);
    assert BankOk(p, log, t.banks[b], b);
    forall i | 0 <= i < |log| ensures PairOk(p, log[i], c) {
      assert Below(p, log[i], t.banks[b], b) && BusOk(p, log[i], t.minResp, t.lastWrite);
    }
    LegalAppend(p, log, c);
    forall d | 0 <= d < |u.banks| ensures BankOk(p, w, u.banks[d], d) {
      assert BankOk(p, log, t.banks[d], d);
      RowAppend(log, c, d);
      forall i | 0 <= i < |w| ensures Below(p, w[i], u.banks[d], d) { if i < |log| { assert Below(p, log[i], t.banks[d], d); } }
    }
    forall i | 0 <= i < |w| ensures BusOk(p, w[i], u.minResp, u.lastWrite) {
      if i < |log| { assert BusOk(p, log[i], t.minResp, t.lastWrite); }
    }
  }

  function Activated(x: Bank, row: int, act: nat): Bank { x.(open := true, openRow := row, lastAct := act) }

  /** A closed bank gets its row opened and read or written. */
  lemma ActivateKeeps(p: Params, t: Timing, log: seq<Cmd>, b: nat, rank: nat, row: int, act: nat, cmd: nat, write: bool, closes: bool, hits: nat, cur: nat)
    requires TimingOk(p, t, log) && b < |t.banks| && !t.banks[b].open
    requires act >= t.banks[b].minPre + p.tRP && cmd >= act + p.tRCD && cmd >= BusFree(p, t, write, cur) && act >= t.banks[b].lastAct
    ensures var t1 := t.(banks := t.banks[b := Activated(t.banks[b], row, act)]);
      TimingOk(p, AfterColumn(p, t1, b, cmd, write, closes, hits), log + [Act(b, row, act, rank), Col(b, row, cmd, write, closes)])
  {
    var c1, c2 := Act(b, row, act, rank), Col(b, row, cmd, write, closes);
    var t1 := t.(banks := t.banks[b := Activated(t.banks[b], row, act)]);
    var w, u := log + [c1] + [c2], AfterColumn(p, t1, b, cmd, write, closes, hits);
    assert log + [c1, c2] == w;
    ActivateLegal(p, t, log, b, rank, row, act, cmd, write, closes, cur);
    forall d | 0 <= d < |u.banks| ensures BankOk(p, w, u.banks[d], d) {
      assert BankOk(p, log, t.banks[d], d);
      RowAppend(log, c1, d);
      RowAppend(log + [c1], c2, d);
      if d != b { BankAside(p, log, t.banks[d], d, c1, c2); } else { ActivateBank(p, log, t.banks[b], b, rank, row, act, cmd, write, closes, hits); }
    }
    forall i | 0 <= i < |w| ensures BusOk(p, w[i], u.minResp, u.lastWrite) && Known(w[i], |u.banks|) {
      if i < |log| { assert BusOk(p, log[i], t.minResp, t.lastWrite) && Known(log[i], |t.banks|); }
    }
  }

  lemma BankAside(p: Params, log: seq<Cmd>, x: Bank, d: nat, c1: Cmd, c2: Cmd)
    requires BankOk(p, log, x, d) && c1.Act? && c2.Col? && c1.bank != d && c2.bank != d
    requires RowOf(log + [c1] + [c2], d) == RowOf(log, d)
    ensures BankOk(p, log + [c1] + [c2], x, d)
  {
    var w := log + [c1] + [c2];
    forall i | 0 <= i < |w| ensures Below(p, w[i], x, d) { if i < |log| { assert Below(p, log[i], x, d); } }
  }

  lemma ActivateBank(p: Params, log: seq<Cmd>, x: Bank, b: nat, rank: nat, row: int, act: nat, cmd: nat, write: bool, closes: bool, hits: nat)
    requires BankOk(p, log, x, b) && act >= x.minPre + p.tRP && act >= x.lastAct && cmd >= act + p.tRCD
    requires RowOf(log + [Act(b, row, act, rank)] + [Col(b, row, cmd, write, closes)], b) == if closes then Closed else Open(row)
    ensures BankOk(p, log + [Act(b, row, act, rank)] + [Col(b, row, cmd, write, closes)], Column(p, Activated(x, row, act), cmd, write, closes, hits), b)
  {
    var w := log + [Act(b, row, act, rank)] + [Col(b, row, cmd, write, closes)];
    var y := Column(p, Activated(x, row, act), cmd, write, closes, hits);
    forall i | 0 <= i < |w| ensures Below(p, w[i], y, b) { if i < |log| { assert Below(p, log[i], x, b); } }
  }

  lemma ActivateLegal(p: Params, t: Timing, log: seq<Cmd>, b: nat, rank: nat, row: int, act: nat, cmd: nat, write: bool, closes: bool, cur: nat)
    requires TimingOk(p, t, log) && b < |t.banks| && !t.banks[b].open
    requires act >= t.banks[b].minPre + p.tRP && cmd >= act + p.tRCD && cmd >= BusFree(p, t, write, cur)
    ensures Legal(p, log + [Act(b, row, act, rank)] + [Col(b, row, cmd, write, closes)])
  {
    var c1, c2 := Act(b, row, act, rank), Col(b, row, cmd, write, closes);
    assert BankOk(p, log, t.banks[b], b);
    forall i | 0 <= i < |log| ensures PairOk(p, log[i], c1) && PairOk(p, log[i], c2) {
      assert Below(p, log[i], t.banks[b], b) && BusOk(p, log[i], t.minResp, t.lastWrite);
    }
    LegalAppend(p, log, c1);
    RowAppend(log, c1, b);
    LegalAppend(p, log + [c1], c2);
  }

  // ---------------------------------------------------------------- refresh

  function Refreshed(p: Params, x: Bank, start: nat): Bank
    requires p.tRFC >= p.tRP
  {
    x.(open := false, minPre := start + p.tRFC - p.tRP)
  }

  lemma RefreshKeeps(p: Params, t: Timing, u: Timing, log: seq<Cmd>, start: nat)
    requires TimingOk(p, t, log) && forall b :: 0 <= b < |t.banks| ==> t.banks[b].minPre <= start
    requires u.minResp == t.minResp && u.lastWrite == t.lastWrite && |u.banks| == |t.banks|
    requires forall b :: 0 <= b < |t.banks| ==> u.banks[b] == Refreshed(p, t.banks[b], start)
    ensures TimingOk(p, u, log + [Ref(start)])
  {
    var c := Ref(start);
    var w := log + [c];
    forall i | 0 <= i < |log| ensures PairOk(p, log[i], c) {
      assert Known(log[i], |t.banks|);
      if !log[i].Ref? {
        assert BankOk(p, log, t.banks[log[i].bank], log[i].bank);
        assert Below(p, log[i], t.banks[log[i].bank], log[i].bank);
      }
    }
    LegalAppend(p, log, c);
    forall d | 0 <= d < |u.banks| ensures BankOk(p, w, u.banks[d], d) {
      assert BankOk(p, log, t.banks[d], d);
      RowAppend(log, c, d);
      forall i | 0 <= i < |w| ensures Below(p, w[i], u.banks[d], d) { if i < |log| { assert Below(p, log[i], t.banks[d], d); } }
    }
  }
}
