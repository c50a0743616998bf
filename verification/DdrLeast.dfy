/** The controller holds nothing back: what it remembers of a bank and of the bus is no more than the commands sent
    demand. */
module DdrLeast {
  import opened DdrTiming

  // ---------------------------------------------------------------- what is remembered exactly

  /** The bus state is that left by the last column command. */
  ghost predicate BusIs(p: Params, log: seq<Cmd>, minResp: nat, lastWrite: bool) {
    if log == [] then minResp == p.tCL + p.tBL + 1 && !lastWrite
    else
      var c := log[|log| - 1];
      if c.Col? then minResp == c.cycle + p.tCL + p.tBL && lastWrite == c.write else BusIs(p, log[..|log| - 1], minResp, lastWrite)
  }

  /** v is the cycle of the last ACT to bank b, 0 without one. */
  ghost predicate LastActIs(log: seq<Cmd>, b: nat, v: nat) {
    if log == [] then v == 0
    else
      var c := log[|log| - 1];
      if c.Act? && c.bank == b then v == c.cycle else LastActIs(log[..|log| - 1], b, v)
  }

  ghost predicate LastColIs(log: seq<Cmd>, b: nat, v: nat) {
    if log == [] then v == 0
    else
      var c := log[|log| - 1];
      if c.Col? && c.bank == b then v == c.cycle else LastColIs(log[..|log| - 1], b, v)
  }

  /** Command c allows bank b to be precharged from v on, and no earlier. */
  ghost predicate Sets(p: Params, c: Cmd, b: nat, v: nat) {
    match c
    case Pre(d, cycle) => d == b && v == cycle
    case Act(d, _, cycle, _) => d == b && v == cycle + p.tRAS
    case Col(d, _, cycle, write, _) => d == b && v == cycle + Recovery(p, write)
    case Ref(start) => v + p.tRP == start + p.tRFC
  }

  ghost predicate SetAt(p: Params, log: seq<Cmd>, b: nat, v: nat, open: bool, i: int) {
    0 <= i < |log| && Sets(p, log[i], b, v) && (open ==> log[i].Act? || log[i].Col?)
  }

  ghost predicate BankTight(p: Params, log: seq<Cmd>, x: Bank, b: nat) {
    && LastActIs(log, b, x.lastAct) && LastColIs(log, b, x.lastCmd)
    && (x.open || x.minPre > 0 ==> exists i :: SetAt(p, log, b, x.minPre, x.open, i))
  }

  ghost predicate Tight(p: Params, t: Timing, log: seq<Cmd>) {
    BusIs(p, log, t.minResp, t.lastWrite) && forall b :: 0 <= b < |t.banks| ==> BankTight(p, log, t.banks[b], b)
  }

  // ---------------------------------------------------------------- every command keeps it

  lemma AppendIs(p: Params, log: seq<Cmd>, c: Cmd)
    ensures forall r, w :: BusIs(p, log, r, w) && !c.Col? ==> BusIs(p, log + [c], r, w)
    ensures forall b, v :: LastActIs(log, b, v) && !(c.Act? && c.bank == b) ==> LastActIs(log + [c], b, v)
    ensures forall b, v :: LastColIs(log, b, v) && !(c.Col? && c.bank == b) ==> LastColIs(log + [c], b, v)
    ensures c.Col? ==> BusIs(p, log + [c], c.cycle + p.tCL + p.tBL, c.write) && LastColIs(log + [c], c.bank, c.cycle)
    ensures c.Act? ==> LastActIs(log + [c], c.bank, c.cycle)
  {
    assert (log + [c])[..|log|] == log;
  }

  /** A bank that a command does not concern. */
  lemma AsideTight(p: Params, log: seq<Cmd>, c: Cmd, x: Bank, b: nat)
    requires BankTight(p, log, x, b) && !c.Ref? && c.bank != b
    ensures BankTight(p, log + [c], x, b)
  {
    AppendIs(p, log, c);
    if x.open || x.minPre > 0 {
      var i :| SetAt(p, log, b, x.minPre, x.open, i);
      assert SetAt(p, log + [c], b, x.minPre, x.open, i);
    }
  }

  lemma PrechargeTight(p: Params, t: Timing, log: seq<Cmd>, b: nat, pre: nat)
    requires Tight(p, t, log) && b < |t.banks|
    ensures Tight(p, t.(banks := t.banks[b := Precharged(t.banks[b], pre)]), log + [Pre(b, pre)])
  {
    var c := Pre(b, pre);
    var u := t.(banks := t.banks[b := Precharged(t.banks[b], pre)]);
    AppendIs(p, log, c);
    forall d | 0 <= d < |u.banks| ensures BankTight(p, log + [c], u.banks[d], d) {
      assert BankTight(p, log, t.banks[d], d);
      if d != b { AsideTight(p, log, c, t.banks[d], d); } else { assert SetAt(p, log + [c], b, pre, false, |log|); }
    }
  }

  lemma {:induction false} OpenHasAct(log: seq<Cmd>, b: nat, row: int, v: nat) returns (i: nat)
    requires RowOf(log, b) == Open(row) && LastActIs(log, b, v)
    ensures i < |log| && log[i].Act? && log[i].bank == b && log[i].cycle == v
  {
    var n := |log| - 1;
    if log[n].Act? && log[n].bank == b { i := n; } else { i := OpenHasAct(log[..n], b, row, v); }
  }

  lemma ColumnBankTight(p: Params, log: seq<Cmd>, x: Bank, b: nat, row: int, cmd: nat, write: bool, closes: bool, hits: nat)
    requires BankTight(p, log, x, b) && x.open && RowOf(log, b) == Open(row)
    ensures BankTight(p, log + [Col(b, row, cmd, write, closes)], Column(p, x, cmd, write, closes, hits), b)
  {
    var c := Col(b, row, cmd, write, closes);
    var w, y := log + [c], Column(p, x, cmd, write, closes, hits);
    AppendIs(p, log, c);
    var i :| SetAt(p, log, b, x.minPre, x.open, i);
    var a := OpenHasAct(log, b, row, x.lastAct);
    if y.minPre == x.minPre {
      assert SetAt(p, w, b, y.minPre, y.open, i);
    } else if y.minPre == x.lastAct + p.tRAS {
      assert SetAt(p, w, b, y.minPre, y.open, a);
    } else {
      assert SetAt(p, w, b, y.minPre, y.open, |log|);
    }
  }

  lemma ColumnTight(p: Params, t: Timing, log: seq<Cmd>, b: nat, cmd: nat, write: bool, closes: bool, hits: nat)
    requires Tight(p, t, log) && b < |t.banks| && t.banks[b].open && RowOf(log, b) == Open(t.banks[b].openRow)
    ensures Tight(p, AfterColumn(p, t, b, cmd, write, closes, hits), log + [Col(b, t.banks[b].openRow, cmd, write, closes)])
  {
    var c := Col(b, t.banks[b].openRow, cmd, write, closes);
    var u := AfterColumn(p, t, b, cmd, write, closes, hits);
    AppendIs(p, log, c);
    forall d | 0 <= d < |u.banks| ensures BankTight(p, log + [c], u.banks[d], d) {
      assert BankTight(p, log, t.banks[d], d);
      if d != b { AsideTight(p, log, c, t.banks[d], d); } else { ColumnBankTight(p, log, t.banks[b], b, t.banks[b].openRow, cmd, write, closes, hits); }
    }
  }

  /** A row is opened: from then on its ACT decides when it may be closed. */
  lemma ActivateTight(p: Params, t: Timing, log: seq<Cmd>, b: nat, rank: nat, row: int, act: nat)
    requires Tight(p, t, log) && b < |t.banks| && !t.banks[b].open
    ensures Tight(p, t.(banks := t.banks[b := Activated(t.banks[b], row, act).(minPre := act + p.tRAS)]), log + [Act(b, row, act, rank)])
  {
    var c := Act(b, row, act, rank);
    var u := t.(banks := t.banks[b := Activated(t.banks[b], row, act).(minPre := act + p.tRAS)]);
    AppendIs(p, log, c);
    forall d | 0 <= d < |u.banks| ensures BankTight(p, log + [c], u.banks[d], d) {
      assert BankTight(p, log, t.banks[d], d);
      if d != b { AsideTight(p, log, c, t.banks[d], d); } else { assert SetAt(p, log + [c], b, act + p.tRAS, true, |log|); }
    }
  }

  lemma RefreshTight(p: Params, t: Timing, u: Timing, log: seq<Cmd>, start: nat)
    requires Tight(p, t, log) && p.tRFC >= p.tRP
    requires u.minResp == t.minResp && u.lastWrite == t.lastWrite && |u.banks| == |t.banks|
    requires forall b :: 0 <= b < |t.banks| ==> u.banks[b] == Refreshed(p, t.banks[b], start)
    ensures Tight(p, u, log + [Ref(start)])
  {
    var c := Ref(start);
    AppendIs(p, log, c);
    forall d | 0 <= d < |u.banks| ensures BankTight(p, log + [c], u.banks[d], d) {
      assert BankTight(p, log, t.banks[d], d);
      assert SetAt(p, log + [c], d, u.banks[d].minPre, false, |log|);
    }
  }

  // ---------------------------------------------------------------- so nothing could be sent earlier

  /** An open row could not be closed before the cycle remembered without breaking a rule. */
  lemma PrechargeLeast(p: Params, t: Timing, log: seq<Cmd>, b: nat, c: nat)
    requires TimingOk(p, t, log) && Tight(p, t, log) && b < |t.banks| && t.banks[b].open
    ensures c >= t.banks[b].minPre <==> forall i :: 0 <= i < |log| ==> PairOk(p, log[i], Pre(b, c))
  {
    assert BankOk(p, log, t.banks[b], b) && BankTight(p, log, t.banks[b], b);
    if c >= t.banks[b].minPre {
      forall i | 0 <= i < |log| ensures PairOk(p, log[i], Pre(b, c)) { assert Below(p, log[i], t.banks[b], b); }
    } else {
      var i :| SetAt(p, log, b, t.banks[b].minPre, true, i);
      assert !PairOk(p, log[i], Pre(b, c));
    }
  }

  ghost predicate IsCol(log: seq<Cmd>, i: int) { 0 <= i < |log| && log[i].Col? }

  lemma {:induction false} BusHasCol(p: Params, log: seq<Cmd>, minResp: nat, lastWrite: bool) returns (i: int)
    requires BusIs(p, log, minResp, lastWrite)
    ensures if i == -1 then minResp == p.tCL + p.tBL + 1 && !lastWrite && forall j :: !IsCol(log, j)
            else IsCol(log, i) && minResp == log[i].cycle + p.tCL + p.tBL && lastWrite == log[i].write
  {
    if log == [] {
      i := -1;
    } else if log[|log| - 1].Col? {
      i := |log| - 1;
    } else {
      i := BusHasCol(p, log[..|log| - 1], minResp, lastWrite);
      if i == -1 {
        forall j ensures !IsCol(log, j) { assert !IsCol(log[..|log| - 1], j); }
      }
    }
  }

  /** Once a column command has been sent, the next goes out in the first cycle, from cur on, in which it breaks no
      rule of the bus. */
  lemma BusFreeLeast(p: Params, t: Timing, log: seq<Cmd>, write: bool, cur: nat, c: nat, k: int)
    requires TimingOk(p, t, log) && Tight(p, t, log) && IsCol(log, k) && c >= cur
    ensures c >= BusFree(p, t, write, cur) <==>
      forall i :: IsCol(log, i) ==> log[i].cycle + p.tBL <= c && (log[i].write && !write ==> log[i].cycle + p.tCL + p.tBL + p.tWTR <= c)
  {
    var last := BusHasCol(p, log, t.minResp, t.lastWrite);
    if c >= BusFree(p, t, write, cur) {
      forall i | IsCol(log, i)
        ensures log[i].cycle + p.tBL <= c && (log[i].write && !write ==> log[i].cycle + p.tCL + p.tBL + p.tWTR <= c)
      {
        assert BusOk(p, log[i], t.minResp, t.lastWrite);
      }
    }
  }
}
