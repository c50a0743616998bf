/** The four-activate window: what the rank windows make of the commands sent. */
module DdrActivates {
  import opened DdrTiming
  import opened ActWindow

  ghost predicate IsAct(c: Cmd, rank: nat) { c.Act? && c.rank == rank }

  /** acts are the cycles of the ACTs sent to a rank. */
  ghost predicate Recorded(log: seq<Cmd>, rank: nat, acts: seq<nat>) {
    if log == [] then acts == []
    else
      var n, k := |log| - 1, |acts| - 1;
      if IsAct(log[n], rank) then acts != [] && acts[k] == log[n].cycle && Recorded(log[..n], rank, acts[..k])
      else Recorded(log[..n], rank, acts)
  }

  lemma RecordedAct(log: seq<Cmd>, c: Cmd, rank: nat, acts: seq<nat>)
    requires Recorded(log, rank, acts) && IsAct(c, rank)
    ensures Recorded(log + [c], rank, acts + [c.cycle])
  {
    assert (log + [c])[..|log|] == log && (acts + [c.cycle])[..|acts|] == acts;
  }

  lemma RecordedOther(log: seq<Cmd>, c: Cmd, rank: nat, acts: seq<nat>)
    requires Recorded(log, rank, acts) && !IsAct(c, rank)
    ensures Recorded(log + [c], rank, acts)
  {
    assert (log + [c])[..|log|] == log;
  }

  /** How many of the commands are ACTs to the rank. */
  ghost function Count(log: seq<Cmd>, rank: nat): nat {
    if log == [] then 0 else Count(log[..|log| - 1], rank) + if IsAct(log[|log| - 1], rank) then 1 else 0
  }

  /** The ACT at i is recorded at its number. */
  lemma {:induction false} CountIs(log: seq<Cmd>, rank: nat, acts: seq<nat>, i: nat)
    requires Recorded(log, rank, acts) && i < |log| && IsAct(log[i], rank)
    ensures Count(log[..i], rank) < |acts| == Count(log, rank) && acts[Count(log[..i], rank)] == log[i].cycle
    decreases |log|
  {
    var n := |log| - 1;
    RecordedCount(log, rank, acts);
    if i < n {
      CountIs(log[..n], rank, if IsAct(log[n], rank) then acts[..|acts| - 1] else acts, i);
      assert log[..n][..i] == log[..i];
    } else {
      RecordedCount(log[..n], rank, acts[..|acts| - 1]);
    }
  }

  lemma {:induction false} RecordedCount(log: seq<Cmd>, rank: nat, acts: seq<nat>)
    requires Recorded(log, rank, acts)
    ensures |acts| == Count(log, rank)
    decreases |log|
  {
    if log != [] {
      var n := |log| - 1;
      RecordedCount(log[..n], rank, if IsAct(log[n], rank) then acts[..|acts| - 1] else acts);
    }
  }

  lemma {:induction false} CountGrows(log: seq<Cmd>, rank: nat, i: nat, j: nat)
    requires i < j <= |log| && IsAct(log[i], rank)
    ensures Count(log[..i], rank) < Count(log[..j], rank)
    decreases j
  {
    var n := j - 1;
    assert log[..j][..n] == log[..n];
    if i < n { CountGrows(log, rank, i, n); }
  }

  ghost function ChainOf(log: seq<Cmd>, rank: nat, chain: seq<nat>, i: nat): nat {
    if i < |log| && Count(log[..i], rank) < |chain| then chain[Count(log[..i], rank)] else 0
  }

  lemma ChainGap(log: seq<Cmd>, rank: nat, gap: nat, acts: seq<nat>, chain: seq<nat>, last: seq<nat>, i: nat, j: nat)
    requires Recorded(log, rank, acts) && Chained(4, gap, acts, chain, last)
    requires i < j < |log| && IsAct(log[i], rank) && IsAct(log[j], rank) && ChainOf(log, rank, chain, i) == ChainOf(log, rank, chain, j)
    ensures log[i].cycle + gap <= log[j].cycle
  {
    CountIs(log, rank, acts, i);
    CountIs(log, rank, acts, j);
    CountGrows(log, rank, i, j);
  }

  /** If the rank's window let in every ACT, two of any five ACTs to the rank are at least gap apart: no more than
      four fall within the gap. */
  lemma FourActivates(log: seq<Cmd>, rank: nat, gap: nat, acts: seq<nat>, s: set<nat>)
    requires Recorded(log, rank, acts) && Allowed(4, gap, acts)
    requires |s| > 4 && forall i :: i in s ==> i < |log| && IsAct(log[i], rank)
    ensures exists i, j :: i in s && j in s && i < j && log[i].Act? && log[j].Act? && log[i].cycle + gap <= log[j].cycle
  {
    var chain, last := Chains(4, gap, acts);
    var f := (i: nat) => ChainOf(log, rank, chain, i);
    forall i | i in s ensures f(i) < 4 { CountIs(log, rank, acts, i); }
    if forall i, j :: i in s && j in s && i < j ==> f(i) != f(j) { Injective(s, f, 4); }
    var i, j :| i in s && j in s && i < j && f(i) == f(j);
    ChainGap(log, rank, gap, acts, chain, last, i, j);
  }

  // ---------------------------------------------------------------- all ranks

  ghost predicate AllRecorded(log: seq<Cmd>, acts: seq<seq<nat>>) { forall i :: 0 <= i < |acts| ==> Recorded(log, i, acts[i]) }

  lemma AllRecordedAct(log: seq<Cmd>, c: Cmd, acts: seq<seq<nat>>)
    requires AllRecorded(log, acts) && c.Act? && c.rank < |acts|
    ensures AllRecorded(log + [c], acts[c.rank := acts[c.rank] + [c.cycle]])
  {
    var w := acts[c.rank := acts[c.rank] + [c.cycle]];
    forall i | 0 <= i < |w| ensures Recorded(log + [c], i, w[i]) {
      assert Recorded(log, i, acts[i]);
      if i == c.rank { RecordedAct(log, c, i, acts[i]); } else { RecordedOther(log, c, i, acts[i]); }
    }
  }

  lemma AllRecordedOther(log: seq<Cmd>, c: Cmd, acts: seq<seq<nat>>)
    requires AllRecorded(log, acts) && !c.Act?
    ensures AllRecorded(log + [c], acts)
  {
    forall i | 0 <= i < |acts| ensures Recorded(log + [c], i, acts[i]) {
      assert Recorded(log, i, acts[i]);
      RecordedOther(log, c, i, acts[i]);
    }
  }
}
