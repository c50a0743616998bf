/** The join-leave barrier with parallelism control. */
module Barrier {
  datatype Status = OFFLINE | WAITING | RUNNING | LEFT

  datatype Info = Info(state: Status, futexWord: int, lastIdx: nat)

  /** A snapshot of the barrier.  ran: threads woken in this phase since they last joined;
      placed: threads whose lastIdx has been written since they were appended to the run list;
      at: where each listed thread is on the run list. */
  datatype View = View(threads: seq<Info>, run: seq<nat>, size: nat, cur: nat, running: int, left: int,
                       ran: set<nat>, placed: set<nat>, at: seq<nat>)

  // ---------------------------------------------------------------- counting

  ghost function Count(ts: seq<Info>, x: Status): nat {
    if ts == [] then 0 else Count(ts[..|ts| - 1], x) + (if ts[|ts| - 1].state == x then 1 else 0)
  }

  function One(b: bool): int { if b then 1 else 0 }

  lemma {:induction false} CountUpdate(ts: seq<Info>, t: nat, info: Info, x: Status)
    requires t < |ts|
    ensures Count(ts[t := info], x) == Count(ts, x) - One(ts[t].state == x) + One(info.state == x)
  {
    var n := |ts| - 1;
    if t == n {
      assert ts[t := info][..n] == ts[..n];
    } else {
      assert ts[t := info][..n] == ts[..n][t := info];
      CountUpdate(ts[..n], t, info, x);
    }
  }

  lemma {:induction false} CountNone(ts: seq<Info>, x: Status)
    ensures Count(ts, x) == 0 <==> forall t :: 0 <= t < |ts| ==> ts[t].state != x
  {
    if ts != [] {
      var n := |ts| - 1;
      CountNone(ts[..n], x);
      assert forall t :: 0 <= t < n ==> ts[..n][t] == ts[t];
    }
  }

  lemma {:induction false} CountAll(ts: seq<Info>)
    ensures Count(ts, OFFLINE) + Count(ts, WAITING) + Count(ts, RUNNING) + Count(ts, LEFT) == |ts|
  {
    if ts != [] { CountAll(ts[..|ts| - 1]); }
  }

  // ---------------------------------------------------------------- the invariant

  ghost predicate Shape(v: View) {
    |v.run| == |v.at| == |v.threads| && v.cur <= v.size <= |v.run|
  }

  /** Run list entry i is a thread that is not OFFLINE and is listed only here. */
  ghost predicate SlotOk(v: View, i: nat)
    requires Shape(v) && i < v.size
  {
    v.run[i] < |v.threads| && v.at[v.run[i]] == i && !v.threads[v.run[i]].state.OFFLINE?
  }

  /** A thread that is not OFFLINE is listed; it runs only before the cursor, and waits before the
      cursor only if it has run; lastIdx is right once the thread has been woken since it was appended;
      the futex word of a waiting thread is 1. */
  ghost predicate ThreadOk(v: View, t: nat)
    requires Shape(v) && t < |v.threads|
  {
    var x := v.threads[t];
    && (!x.state.OFFLINE? ==> v.at[t] < v.size && v.run[v.at[t]] == t)
    && (x.state.RUNNING? ==> v.at[t] < v.cur && t in v.ran)
    && (x.state.WAITING? ==> x.futexWord == 1 && (v.at[t] < v.cur ==> t in v.ran))
    && (x.state.RUNNING? || x.state.LEFT? ==> t in v.placed)
    && (t in v.placed && !x.state.OFFLINE? ==> x.lastIdx == v.at[t])
  }

  ghost predicate Lists(v: View) {
    && Shape(v)
    && (forall i :: 0 <= i < v.size ==> SlotOk(v, i))
    && (forall t :: 0 <= t < |v.threads| ==> ThreadOk(v, t))
  }

  ghost predicate CountsOk(v: View) {
    && v.running == Count(v.threads, RUNNING)
    && v.left == Count(v.threads, LEFT)
    && v.size == Count(v.threads, WAITING) + v.running + v.left
  }

  ghost predicate Core(v: View) { Lists(v) && CountsOk(v) }

  ghost predicate SomeoneWaits(v: View) { exists t :: 0 <= t < |v.threads| && v.threads[t].state.WAITING? }

  /** What must be true of the barrier at the moment a phase ends. */
  ghost predicate PhaseComplete(v: View) {
    && (forall t :: 0 <= t < |v.threads| ==> !v.threads[t].state.RUNNING?)
    && (forall t :: 0 <= t < |v.threads| && v.threads[t].state.WAITING? ==> t in v.ran)
    && SomeoneWaits(v)
  }

  // ---------------------------------------------------------------- one wake-up

  function Woken(v: View): View
    requires v.cur < |v.run| && v.run[v.cur] < |v.threads|
  {
    var t := v.run[v.cur];
    v.(threads := v.threads[t := Info(RUNNING, 0, v.cur)], cur := v.cur + 1, running := v.running + 1,
       ran := v.ran + {t}, placed := v.placed + {t})
  }

  lemma WokenList(v: View)
    requires Lists(v) && v.cur < v.size && SlotOk(v, v.cur) && v.threads[v.run[v.cur]].state.WAITING?
    ensures Lists(Woken(v))
  {
    var w, t := Woken(v), v.run[v.cur];
    assert SlotOk(v, v.cur);
    forall i | 0 <= i < w.size ensures SlotOk(w, i) { assert SlotOk(v, i); }
    forall u | 0 <= u < |w.threads| ensures ThreadOk(w, u) { assert ThreadOk(v, u); }
  }

  lemma WokenKeeps(v: View)
    requires Core(v) && v.cur < v.size && SlotOk(v, v.cur) && v.threads[v.run[v.cur]].state.WAITING?
    ensures v.threads[v.run[v.cur]].futexWord == 1 && Core(Woken(v))
  {
    assert SlotOk(v, v.cur);
    WokenList(v);
    var t, info := v.run[v.cur], Info(RUNNING, 0, v.cur);
    assert ThreadOk(v, t);
    CountUpdate(v.threads, t, info, RUNNING);
    CountUpdate(v.threads, t, info, WAITING);
    CountUpdate(v.threads, t, info, LEFT);
  }

  lemma SkippedKeeps(v: View)
    requires Core(v) && v.cur < v.size && SlotOk(v, v.cur) && !v.threads[v.run[v.cur]].state.WAITING?
    ensures Core(v.(cur := v.cur + 1)) && v.threads[v.run[v.cur]].state.LEFT?
  {
    var w := v.(cur := v.cur + 1);
    assert SlotOk(v, v.cur) && ThreadOk(v, v.run[v.cur]);
    forall i | 0 <= i < w.size ensures SlotOk(w, i) { assert SlotOk(v, i); }
    forall u | 0 <= u < |w.threads| ensures ThreadOk(w, u) { assert ThreadOk(v, u); }
  }

  // ---------------------------------------------------------------- status changes of one thread

  function Restate(v: View, t: nat, info: Info): View
    requires t < |v.threads|
  {
    v.(threads := v.threads[t := info])
  }

  lemma RestateCounts(v: View, t: nat, info: Info)
    requires t < |v.threads| && CountsOk(v)
    ensures var w := Restate(v, t, info);
      && Count(w.threads, RUNNING) == v.running - One(v.threads[t].state.RUNNING?) + One(info.state.RUNNING?)
      && Count(w.threads, LEFT) == v.left - One(v.threads[t].state.LEFT?) + One(info.state.LEFT?)
      && Count(w.threads, WAITING) == Count(v.threads, WAITING) - One(v.threads[t].state.WAITING?) + One(info.state.WAITING?)
  {
    CountUpdate(v.threads, t, info, RUNNING);
    CountUpdate(v.threads, t, info, LEFT);
    CountUpdate(v.threads, t, info, WAITING);
  }

  /** join of an OFFLINE thread: appended to the run list, lastIdx untouched. */
  function Appended(v: View, t: nat): View
    requires t < |v.threads| && v.size < |v.run| && t < |v.at|
  {
    v.(threads := v.threads[t := v.threads[t].(state := WAITING, futexWord := 1)],
       run := v.run[v.size := t], at := v.at[t := v.size], size := v.size + 1, ran := v.ran - {t}, placed := v.placed - {t})
  }

  lemma AppendedList(v: View, t: nat)
    requires Lists(v) && t < |v.threads| && v.threads[t].state.OFFLINE? && v.size < |v.run|
    ensures Lists(Appended(v, t))
  {
    var w := Appended(v, t);
    forall i | 0 <= i < w.size ensures SlotOk(w, i) { if i < v.size { assert SlotOk(v, i); } }
    forall u | 0 <= u < |w.threads| ensures ThreadOk(w, u) { assert ThreadOk(v, u); }
  }

  lemma AppendedKeeps(v: View, t: nat)
    requires Core(v) && t < |v.threads| && v.threads[t].state.OFFLINE?
    ensures v.size < |v.run| && Core(Appended(v, t))
  {
    CountAll(v.threads);
    CountNone(v.threads, OFFLINE);
    RestateCounts(v, t, v.threads[t].(state := WAITING, futexWord := 1));
    AppendedList(v, t);
  }

  /** join of a LEFT thread that the cursor is about to reach. */
  function Rejoined(v: View, t: nat, cur: nat): View
    requires t < |v.threads|
  {
    v.(threads := v.threads[t := v.threads[t].(state := WAITING, futexWord := 1)], left := v.left - 1, cur := cur, ran := v.ran - {t})
  }

  lemma RejoinedList(v: View, t: nat, cur: nat)
    requires Lists(v) && t < |v.threads| && v.threads[t].state.LEFT?
    requires v.at[t] >= cur && (cur == v.cur || (cur == v.cur - 1 && v.at[t] == cur))
    ensures Lists(Rejoined(v, t, cur))
  {
    var w := Rejoined(v, t, cur);
    assert ThreadOk(v, t);
    forall i | 0 <= i < w.size ensures SlotOk(w, i) { assert SlotOk(v, i); }
    forall u | 0 <= u < |w.threads| ensures ThreadOk(w, u) { assert ThreadOk(v, u); }
  }

  lemma RejoinedKeeps(v: View, t: nat, cur: nat)
    requires Core(v) && t < |v.threads| && v.threads[t].state.LEFT?
    requires v.at[t] >= cur && (cur == v.cur || (cur == v.cur - 1 && v.at[t] == cur))
    ensures Core(Rejoined(v, t, cur))
  {
    RestateCounts(v, t, v.threads[t].(state := WAITING, futexWord := 1));
    RejoinedList(v, t, cur);
  }

  function Stopped(v: View, t: nat, info: Info, left: int): View
    requires t < |v.threads|
  {
    v.(threads := v.threads[t := info], running := v.running - One(v.threads[t].state.RUNNING?), left := left)
  }

  lemma StoppedList(v: View, t: nat, info: Info, left: int)
    requires Lists(v) && t < |v.threads| && info.lastIdx == v.threads[t].lastIdx && t in v.placed
    requires v.threads[t].state.RUNNING? || (v.threads[t].state.WAITING? && info.state.LEFT?)
    requires info.state.LEFT? || (info.state.WAITING? && info.futexWord == 1)
    ensures Lists(Stopped(v, t, info, left))
  {
    var w := Stopped(v, t, info, left);
    assert ThreadOk(v, t);
    forall i | 0 <= i < w.size ensures SlotOk(w, i) { assert SlotOk(v, i); }
    forall u | 0 <= u < |w.threads| ensures ThreadOk(w, u) { assert ThreadOk(v, u); }
  }

  lemma StoppedCounts(v: View, t: nat, info: Info)
    requires CountsOk(v) && t < |v.threads|
    requires v.threads[t].state.RUNNING? || (v.threads[t].state.WAITING? && info.state.LEFT?)
    requires info.state.LEFT? || info.state.WAITING?
    ensures CountsOk(Stopped(v, t, info, v.left + One(info.state.LEFT?)))
  {
    RestateCounts(v, t, info);
  }

  /** leave, or sync, of a thread. */
  lemma StoppedKeeps(v: View, t: nat, info: Info)
    requires Core(v) && t < |v.threads| && info.lastIdx == v.threads[t].lastIdx && t in v.placed
    requires v.threads[t].state.RUNNING? || (v.threads[t].state.WAITING? && info.state.LEFT?)
    requires info.state.LEFT? || (info.state.WAITING? && info.futexWord == 1)
    ensures Core(Stopped(v, t, info, v.left + One(info.state.LEFT?)))
  {
    StoppedCounts(v, t, info);
    StoppedList(v, t, info, v.left + One(info.state.LEFT?));
  }

  /** The thread's lastIdx says where it is listed. */
  predicate KnowsPlace(v: View, t: nat)
    requires t < |v.threads|
  {
    v.threads[t].lastIdx < v.size <= |v.run| && v.run[v.threads[t].lastIdx] == t
  }

  lemma PlacedKeeps(v: View, t: nat)
    requires Core(v) && t < |v.threads| && KnowsPlace(v, t)
    ensures Core(v.(placed := v.placed + {t}))
  {
    var w := v.(placed := v.placed + {t});
    assert SlotOk(v, v.threads[t].lastIdx);
    forall i | 0 <= i < w.size ensures SlotOk(w, i) { assert SlotOk(v, i); }
    forall u | 0 <= u < |w.threads| ensures ThreadOk(w, u) { assert ThreadOk(v, u); }
  }

  /** What rejoining asks of a thread that left: if the cursor is past its lastIdx, that entry is its own, as the
      code asserts before it swaps it; if not, the cursor has yet to come to the thread. */
  predicate RejoinOk(v: View, t: nat)
    requires t < |v.threads| && t < |v.at|
  {
    var l := v.threads[t].lastIdx;
    if v.cur > l then l < |v.run| && v.run[l] == t else v.at[t] >= v.cur
  }

  /** A waiting thread may leave, and rejoin wherever the cursor then stands, exactly if its lastIdx is right. */
  lemma LeaveExactly(v: View, t: nat)
    requires Core(v) && t < |v.threads| && v.threads[t].state.WAITING?
    ensures var w := Stopped(v, t, v.threads[t].(state := LEFT), v.left + 1);
      (forall c :: w.cur <= c <= w.size ==> RejoinOk(w.(cur := c), t)) <==> KnowsPlace(v, t)
  {
    var w := Stopped(v, t, v.threads[t].(state := LEFT), v.left + 1);
    assert ThreadOk(v, t);
    var l := v.threads[t].lastIdx;
    if l < v.size { assert SlotOk(v, l); }
    if forall c :: w.cur <= c <= w.size ==> RejoinOk(w.(cur := c), t) { assert RejoinOk(w.(cur := w.size), t); }
  }

  // ---------------------------------------------------------------- moves on the run list

  /** Two run list entries change places, and both threads learn their new index. */
  function Swapped(v: View, i: nat, j: nat): View
    requires i < |v.run| && j < |v.run| && v.run[i] < |v.threads| && v.run[j] < |v.threads| && |v.at| == |v.threads|
  {
    var a, b := v.run[i], v.run[j];
    var ts := v.threads[a := v.threads[a].(lastIdx := j)];
    v.(run := v.run[i := b][j := a], at := v.at[a := j][b := i],
       threads := ts[b := ts[b].(lastIdx := i)], placed := v.placed + {a, b})
  }

  lemma SwappedKeeps(v: View, i: nat, j: nat)
    requires Core(v) && i < v.size && j < v.size && (v.cur == 0 || (i < v.cur && j < v.cur))
    ensures SlotOk(v, i) && SlotOk(v, j)
    ensures Core(Swapped(v, i, j))
    ensures var w := Swapped(v, i, j); forall t :: 0 <= t < |v.threads| ==> w.threads[t].state == v.threads[t].state
  {
    assert SlotOk(v, i) && SlotOk(v, j);
    var a, b := v.run[i], v.run[j];
    var ia := v.threads[a].(lastIdx := j);
    RestateCounts(v, a, ia);
    var v1 := Restate(v, a, ia);
    RestateCounts(v1, b, v1.threads[b].(lastIdx := i));
    SwappedList(v, i, j);
  }

  lemma SwappedList(v: View, i: nat, j: nat)
    requires Lists(v) && i < v.size && j < v.size && (v.cur == 0 || (i < v.cur && j < v.cur))
    requires SlotOk(v, i) && SlotOk(v, j)
    ensures Lists(Swapped(v, i, j))
  {
    var w, a, b := Swapped(v, i, j), v.run[i], v.run[j];
    assert ThreadOk(v, a) && ThreadOk(v, b);
    forall k | 0 <= k < w.size ensures SlotOk(w, k) { assert SlotOk(v, k); }
    forall u | 0 <= u < |w.threads| ensures ThreadOk(w, u) {
      assert ThreadOk(v, u);
      if u != a && u != b && !v.threads[u].state.OFFLINE? { assert w.run[w.at[u]] == u; }
    }
  }

  /** The cleanup pass drops the LEFT thread at i and moves the last thread into its place. */
  function Dropped(v: View, i: nat): View
    requires i < v.size <= |v.run| && v.run[i] < |v.threads| && v.run[v.size - 1] < |v.threads| && |v.at| == |v.threads|
  {
    var a, b := v.run[i], v.run[v.size - 1];
    var ts := v.threads[a := v.threads[a].(state := OFFLINE)];
    v.(run := v.run[i := b], at := v.at[b := i], threads := ts[b := ts[b].(lastIdx := i)], size := v.size - 1, left := v.left - 1)
  }

  lemma DroppedKeeps(v: View, i: nat)
    requires Core(v) && v.cur == 0 && i < v.size && SlotOk(v, i) && v.threads[v.run[i]].state.LEFT?
    ensures SlotOk(v, v.size - 1) && Core(Dropped(v, i))
  {
    assert SlotOk(v, v.size - 1);
    var a, b := v.run[i], v.run[v.size - 1];
    var ia := v.threads[a].(state := OFFLINE);
    RestateCounts(v, a, ia);
    var v1 := Restate(v, a, ia).(left := v.left - 1, size := v.size - 1);
    RestateCounts(v1, b, v1.threads[b].(lastIdx := i));
    DroppedList(v, i);
  }

  lemma DroppedList(v: View, i: nat)
    requires Lists(v) && v.cur == 0 && i < v.size && SlotOk(v, i) && SlotOk(v, v.size - 1) && v.threads[v.run[i]].state.LEFT?
    ensures Lists(Dropped(v, i))
  {
    var w, a, b := Dropped(v, i), v.run[i], v.run[v.size - 1];
    assert ThreadOk(v, a) && ThreadOk(v, b);
    forall k | 0 <= k < w.size ensures SlotOk(w, k) { assert SlotOk(v, k); }
    forall u | 0 <= u < |w.threads| ensures ThreadOk(w, u) { assert ThreadOk(v, u); }
  }

  lemma NewPhaseKeeps(v: View)
    requires Core(v) && v.running == 0
    ensures Core(v.(cur := 0, ran := {}))
  {
    var w := v.(cur := 0, ran := {});
    CountNone(v.threads, RUNNING);
    forall i | 0 <= i < w.size ensures SlotOk(w, i) { assert SlotOk(v, i); }
    forall u | 0 <= u < |w.threads| ensures ThreadOk(w, u) { assert ThreadOk(v, u); }
  }

  /** At the end of the list with nobody running: either all have left, or the phase is complete. */
  lemma EndOfList(v: View)
    requires Core(v) && v.cur == v.size && v.running == 0
    ensures v.left == v.size ==> !SomeoneWaits(v)
    ensures v.left != v.size ==> PhaseComplete(v)
  {
    CountNone(v.threads, RUNNING);
    CountNone(v.threads, WAITING);
    forall t | 0 <= t < |v.threads| && v.threads[t].state.WAITING? ensures t in v.ran { assert ThreadOk(v, t); }
  }

  // ---------------------------------------------------------------- the barrier

  /** From ts to ts' some waiting threads were woken and nothing else changed status. */
  ghost predicate OnlyWoke(ts: seq<Info>, ts': seq<Info>) {
    && |ts'| == |ts|
    && forall t :: 0 <= t < |ts| ==> ts'[t].state == ts[t].state || (ts[t].state.WAITING? && ts'[t].state.RUNNING?)
  }

  /** w is v after the cursor moved on, waking every waiting thread it passed. */
  ghost predicate Advanced(v: View, w: View) {
    && w.run == v.run && w.size == v.size && w.left == v.left && w.at == v.at
    && v.cur <= w.cur && v.running <= w.running
    && OnlyWoke(v.threads, w.threads)
    && |v.at| == |v.threads|
    && forall t :: 0 <= t < |v.threads| && v.cur <= v.at[t] < w.cur ==> !w.threads[t].state.WAITING?
  }

  lemma AdvancedWoken(v: View, w: View)
    requires Advanced(v, w) && Lists(w) && w.cur < w.size && SlotOk(w, w.cur) && w.threads[w.run[w.cur]].state.WAITING?
    ensures Advanced(v, Woken(w))
  {
    forall t | 0 <= t < |v.threads| && v.cur <= v.at[t] < w.cur + 1 ensures !Woken(w).threads[t].state.WAITING? { assert ThreadOk(w, t); }
  }

  lemma AdvancedSkipped(v: View, w: View)
    requires Advanced(v, w) && Lists(w) && w.cur < w.size && SlotOk(w, w.cur) && !w.threads[w.run[w.cur]].state.WAITING?
    ensures Advanced(v, w.(cur := w.cur + 1))
  {
    forall t | 0 <= t < |v.threads| && v.cur <= v.at[t] < w.cur + 1 ensures !w.threads[t].state.WAITING? { assert ThreadOk(w, t); }
  }

  /** Status after a phase end: with cleanup the LEFT threads, and no others, go OFFLINE. */
  ghost predicate AfterPhase(ts: seq<Info>, ts': seq<Info>, cleanup: bool) {
    && |ts'| == |ts|
    && forall t :: 0 <= t < |ts| ==> ts'[t].state == if cleanup && ts[t].state.LEFT? then OFFLINE else ts[t].state
  }

  /** A phase has ended in between: threads were woken, and with cleanup the LEFT ones went OFFLINE. */
  ghost predicate NewPhase(ts: seq<Info>, ts': seq<Info>, cleanup: bool) {
    && |ts'| == |ts|
    && forall t :: 0 <= t < |ts| ==>
         || ts'[t].state == (if cleanup && ts[t].state.LEFT? then OFFLINE else ts[t].state)
         || (ts[t].state.WAITING? && ts'[t].state.RUNNING?)
  }

  lemma PhaseBetween(a: seq<Info>, b: seq<Info>, c: seq<Info>, d: seq<Info>, cleanup: bool)
    requires OnlyWoke(a, b) && AfterPhase(b, c, cleanup) && OnlyWoke(c, d)
    ensures NewPhase(a, d, cleanup)
  {}

  class JoinLeaveBarrier {
    const parallelThreads: nat
    var threads: seq<Info>
    var runList: seq<nat>
    var runListSize: nat
    var curThreadIdx: nat
    var runningThreads: int
    var leftThreads: int
    var phaseCount: nat

    ghost var view: View         // the fields above, with the history the invariant needs
    ghost var ended: seq<View>   // the barrier at the end of every phase so far

    ghost predicate Matches(v: View)
      reads this
    {
      && v.threads == threads && v.run == runList && v.size == runListSize && v.cur == curThreadIdx
      && v.running == runningThreads && v.left == leftThreads
    }

    ghost predicate Valid()
      reads this
    {
      && parallelThreads >= 1
      && Matches(view) && Core(view)
      && runningThreads <= parallelThreads
      && phaseCount == |ended| && forall i :: 0 <= i < |ended| ==> PhaseComplete(ended[i])
    }

    /** Between operations: if any thread waits, at least one is running; and as many run as may, unless the cursor
        has passed every thread on the list. */
    ghost predicate Settled()
      reads this
    {
      && Valid() && (SomeoneWaits(view) ==> runningThreads >= 1)
      && (runningThreads == parallelThreads || curThreadIdx == runListSize)
    }

    constructor (parallelThreads: nat, maxThreads: nat)
      requires parallelThreads >= 1
      ensures Settled() && view == Unused(maxThreads) && |threads| == maxThreads && forall t :: 0 <= t < maxThreads ==> threads[t].state.OFFLINE?
    {
      this.parallelThreads := parallelThreads;
      threads := seq(maxThreads, _ => Info(OFFLINE, 0, 0));
      runList := seq(maxThreads, _ => 0);
      runListSize, curThreadIdx, runningThreads, leftThreads, phaseCount := 0, 0, 0, 0, 0;
      ended := [];
      new;
      view := Unused(maxThreads);
      UnusedCore(maxThreads);
    }

    /** Wakes threads from the cursor on while there is room. */
    method CheckRunList()
      requires Valid()
      modifies this
      ensures Valid() && phaseCount == old(phaseCount) && ended == old(ended)
      ensures Advanced(old(view), view)
      ensures runningThreads == parallelThreads || curThreadIdx == runListSize
    {
      ghost var v0 := view;
      while runningThreads < parallelThreads && curThreadIdx < runListSize
        invariant Valid() && phaseCount == old(phaseCount) && ended == old(ended)
        invariant Advanced(v0, view)
        decreases runListSize - curThreadIdx
      {
        WakeOne(v0);
      }
    }

    method WakeOne(ghost v0: View)
      requires Valid() && Advanced(v0, view) && runningThreads < parallelThreads && curThreadIdx < runListSize
      modifies this
      ensures Valid() && phaseCount == old(phaseCount) && ended == old(ended) && Advanced(v0, view)
      ensures runListSize == old(runListSize) && curThreadIdx == old(curThreadIdx) + 1
    {
      var idx := curThreadIdx;
      curThreadIdx := curThreadIdx + 1;
      assert SlotOk(view, idx);
      var wtid := runList[idx];
      if threads[wtid].state == WAITING {
        WokenKeeps(view);
        AdvancedWoken(v0, view);
        assert threads[wtid].futexWord == 1;  // the compare-and-swap succeeds: no wakeup race
        threads := threads[wtid := Info(RUNNING, 0, idx)];
        runningThreads := runningThreads + 1;
        view := Woken(view);
      } else {
        SkippedKeeps(view);
        AdvancedSkipped(v0, view);
        view := view.(cur := view.cur + 1);
      }
    }

    /** Ends the phase if the list is exhausted and nobody runs; otherwise does nothing. */
    method CheckEndPhase()
      requires Valid()
      modifies this
      ensures Valid()
      ensures if old(curThreadIdx == runListSize && runningThreads == 0 && leftThreads != runListSize)
              then ended == old(ended + [view]) && curThreadIdx == 0 && runningThreads == 0
                   && AfterPhase(old(threads), threads, old(phaseCount) % 32 == 0)
              else ended == old(ended) && view == old(view)
    {
      if curThreadIdx == runListSize && runningThreads == 0 {
        EndOfList(view);
        if leftThreads == runListSize { return; }
        NextPhase();
        if (phaseCount - 1) % 32 == 0 {
          Cleanup();
        }
        if parallelThreads < runListSize {
          Shuffle();
        }
      }
    }

    method NextPhase()
      requires Valid() && runningThreads == 0 && PhaseComplete(view)
      modifies this`curThreadIdx, this`phaseCount, this`view, this`ended
      ensures Valid() && ended == old(ended + [view]) && curThreadIdx == 0 && phaseCount == old(phaseCount) + 1
    {
      NewPhaseKeeps(view);
      ended := ended + [view];
      view := view.(cur := 0, ran := {});
      curThreadIdx := 0;
      phaseCount := phaseCount + 1;
    }

    /** OFFLINEs the threads that LEFT, packing the run list in place. */
    method Cleanup()
      requires Valid() && curThreadIdx == 0 && runningThreads == 0
      modifies this`threads, this`runList, this`runListSize, this`leftThreads, this`view
      ensures Valid()
      ensures AfterPhase(old(threads), threads, true)
      ensures leftThreads == 0 && runListSize == old(runListSize - leftThreads)
    {
      ghost var ts := threads;
      var idx, newSize := 0, runListSize;
      while idx < newSize
        invariant 0 <= idx <= newSize == view.size <= runListSize && Core(view)
        invariant view.threads == threads && view.run == runList && view.cur == 0 && view.running == 0
        invariant view.left == leftThreads - (runListSize - newSize)
        invariant runListSize == old(runListSize) && leftThreads == old(leftThreads)
        invariant PartlyClean(ts, threads, runList, idx)
        decreases newSize - idx
      {
        assert SlotOk(view, idx);
        var wtid := runList[idx];
        if threads[wtid].state == LEFT {
          DropLeft(ts, idx, newSize);
          newSize := newSize - 1;
        } else {
          idx := idx + 1;
        }
      }
      CleanAtEnd(ts, view);
      assert runListSize - newSize == leftThreads;
      leftThreads := 0;
      runListSize := newSize;
    }

    method DropLeft(ghost ts: seq<Info>, idx: nat, newSize: nat)
      requires Core(view) && view.threads == threads && view.run == runList && view.cur == 0 && view.size == newSize
      requires idx < newSize && SlotOk(view, idx) && threads[runList[idx]].state == LEFT
      requires PartlyClean(ts, threads, runList, idx)
      modifies this`threads, this`runList, this`view
      ensures Core(view) && view.threads == threads && view.run == runList && view.cur == 0 && view.size == newSize - 1
      ensures view.left == old(view.left) - 1 && view.running == old(view.running)
      ensures PartlyClean(ts, threads, runList, idx)
    {
      DroppedKeeps(view, idx);
      DroppedClean(ts, view, idx);
      view := Dropped(view, idx);
      var wtid := runList[idx];
      threads := threads[wtid := threads[wtid].(state := OFFLINE)];
      var stid := runList[newSize - 1];
      runList := runList[idx := stid];
      threads := threads[stid := threads[stid].(lastIdx := idx)];
    }

    /** Fisher-Yates: any swaps may happen, so any order may result; every thread keeps track of its place. */
    method Shuffle()
      requires Valid() && curThreadIdx == 0 && runListSize > 1
      modifies this`threads, this`runList, this`view
      ensures Valid()
      ensures AfterPhase(old(threads), threads, false)
    {
      ghost var ts := threads;
      var i := runListSize - 1;
      while i > 0
        invariant 0 <= i < runListSize && Valid()
        invariant AfterPhase(ts, threads, false)
      {
        var j :| 0 <= j <= i;
        SwappedKeeps(view, i, j);
        view := Swapped(view, i, j);
        var itid, jtid := runList[i], runList[j];
        runList := runList[i := jtid][j := itid];
        threads := threads[itid := threads[itid].(lastIdx := j)];
        threads := threads[jtid := threads[jtid].(lastIdx := i)];
        i := i - 1;
      }
    }

    /** checkRunList, checkEndPhase, checkRunList. */
    method TryWakeNext()
      requires Valid()
      modifies this
      ensures Settled()
      ensures ended == old(ended) || (|ended| == |old(ended)| + 1 && ended[..|old(ended)|] == old(ended))
      ensures ended == old(ended) ==> OnlyWoke(old(threads), threads)
      ensures ended != old(ended) ==> NewPhase(old(threads), threads, old(phaseCount) % 32 == 0)
      ensures WaitsAhead(old(view)) ==> ended == old(ended)
    {
      CheckRunList();
      WaiterStopsPhase(old(view), view);
      if curThreadIdx == runListSize && runningThreads == 0 { EndOfList(view); }
      ghost var ts := threads;
      CheckEndPhase();
      assert view.running >= 1 || !SomeoneWaits(view) || view.cur == 0;
      ghost var v := view;
      CheckRunList();
      Progress(v, view, parallelThreads);
      if ended != old(ended) { PhaseBetween(old(threads), ts, v.threads, threads, old(phaseCount) % 32 == 0); }
    }

    /** A thread joins, or rejoins after having left; a phase never ends here. */
    method Join(tid: nat)
      requires Settled() && tid < |threads| && (threads[tid].state == LEFT || threads[tid].state == OFFLINE)
      modifies this
      ensures Settled() && ended == old(ended)
      ensures OnlyWoke(old(threads)[tid := old(threads[tid]).(state := WAITING)], threads)
    {
      if threads[tid].state == OFFLINE {
        Append(tid);
      } else {
        Rejoin(tid);
      }
      TryWakeNext();
    }

    method Append(tid: nat)
      requires Valid() && tid < |threads| && threads[tid].state == OFFLINE
      modifies this`threads, this`runList, this`runListSize, this`view
      ensures Valid() && WaitsAhead(view) && StillToRun(view, tid)
      ensures AfterPhase(old(threads)[tid := old(threads[tid]).(state := WAITING)], threads, false)
    {
      AppendedKeeps(view, tid);
      view := Appended(view, tid);
      runList := runList[runListSize := tid];
      runListSize := runListSize + 1;
      threads := threads[tid := threads[tid].(state := WAITING, futexWord := 1)];
      assert view.threads[tid].state.WAITING? && view.at[tid] >= view.cur && ThreadOk(view, tid);
    }

    /** If the cursor has passed the thread it takes the place just before the cursor, which steps back. */
    method Rejoin(tid: nat)
      requires Valid() && tid < |threads| && threads[tid].state == LEFT
      modifies this`threads, this`runList, this`curThreadIdx, this`leftThreads, this`view
      ensures curThreadIdx == old(curThreadIdx) || (curThreadIdx == old(curThreadIdx) - 1 < |runList| && runList[curThreadIdx] == tid)
      ensures Valid() && WaitsAhead(view) && StillToRun(view, tid)
      ensures AfterPhase(old(threads)[tid := old(threads[tid]).(state := WAITING)], threads, false)
    {
      assert ThreadOk(view, tid);
      leftThreads := leftThreads - 1;
      var lastIdx := threads[tid].lastIdx;
      if curThreadIdx > lastIdx {
        curThreadIdx := curThreadIdx - 1;
        SwapTo(tid, lastIdx, curThreadIdx);
      }
      RejoinedKeeps(view, tid, curThreadIdx);
      view := Rejoined(view, tid, curThreadIdx);
      threads := threads[tid := threads[tid].(state := WAITING, futexWord := 1)];
      assert view.threads[tid].state.WAITING? && view.at[tid] >= view.cur && ThreadOk(view, tid);
    }

    method SwapTo(tid: nat, lastIdx: nat, idx: nat)
      requires Core(view) && view.threads == threads && view.run == runList && lastIdx < view.cur && idx < view.cur
      requires tid < |threads| && view.at[tid] == lastIdx && !threads[tid].state.OFFLINE?
      modifies this`threads, this`runList, this`view
      ensures AfterPhase(old(threads), threads, false)
      ensures Core(view) && view.threads == threads && view.run == runList && view.at[tid] == idx
      ensures view.size == old(view.size) && view.cur == old(view.cur)
      ensures view.running == old(view.running) && view.left == old(view.left)
    {
      assert ThreadOk(view, tid);
      assert tid == runList[lastIdx];
      SwappedKeeps(view, lastIdx, idx);
      view := Swapped(view, lastIdx, idx);
      var otherTid := runList[idx];
      runList := runList[lastIdx := otherTid][idx := tid];
      threads := threads[tid := threads[tid].(lastIdx := idx)];
      threads := threads[otherTid := threads[otherTid].(lastIdx := lastIdx)];
    }

    /** A running thread leaves, which may end the phase; or a waiting one does, which is marked and no more.  The
        barrier stays sound if the thread's lastIdx is right, as it is from its first wake-up on. */
    method Leave(tid: nat)
      requires Settled() && tid < |threads| && (threads[tid].state == RUNNING || threads[tid].state == WAITING)
      modifies this
      ensures old(threads[tid].state == RUNNING || KnowsPlace(view, tid)) ==> Settled()
      ensures old(ended) <= ended && |ended| <= |old(ended)| + 1
      ensures old(threads[tid].state) == WAITING ==>
        && ended == old(ended) && threads == old(threads)[tid := old(threads[tid]).(state := LEFT)] && leftThreads == old(leftThreads) + 1
        && runList == old(runList) && runListSize == old(runListSize) && curThreadIdx == old(curThreadIdx)
        && runningThreads == old(runningThreads) && phaseCount == old(phaseCount)
      ensures ended == old(ended) ==> OnlyWoke(old(threads)[tid := old(threads[tid]).(state := LEFT)], threads)
      ensures ended != old(ended) ==> NewPhase(old(threads)[tid := old(threads[tid]).(state := LEFT)], threads, old(phaseCount) % 32 == 0)
    {
      if threads[tid].state == RUNNING { LeaveRunning(tid); } else { LeaveWaiting(tid); }
    }

    method LeaveRunning(tid: nat)
      requires Settled() && tid < |threads| && threads[tid].state == RUNNING
      modifies this
      ensures Settled() && old(ended) <= ended && |ended| <= |old(ended)| + 1
      ensures ended == old(ended) ==> OnlyWoke(old(threads)[tid := old(threads[tid]).(state := LEFT)], threads)
      ensures ended != old(ended) ==> NewPhase(old(threads)[tid := old(threads[tid]).(state := LEFT)], threads, old(phaseCount) % 32 == 0)
    {
      assert ThreadOk(view, tid);
      var info := threads[tid].(state := LEFT);
      StoppedKeeps(view, tid, info);
      view := Stopped(view, tid, info, view.left + 1);
      threads := threads[tid := info];
      leftThreads := leftThreads + 1;
      runningThreads := runningThreads - 1;
      TryWakeNext();
    }

    method LeaveWaiting(tid: nat)
      requires Settled() && tid < |threads| && threads[tid].state == WAITING
      modifies this`threads, this`leftThreads, this`view
      ensures old(KnowsPlace(view, tid)) ==> Settled()
      ensures threads == old(threads)[tid := old(threads[tid]).(state := LEFT)] && leftThreads == old(leftThreads) + 1
    {
      assert ThreadOk(view, tid) && SomeoneWaits(view);
      var info := threads[tid].(state := LEFT);
      if KnowsPlace(view, tid) {
        PlacedKeeps(view, tid);
        view := view.(placed := view.placed + {tid});
        StoppedKeeps(view, tid, info);
      }
      view := Stopped(view, tid, info, view.left + 1);
      threads := threads[tid := info];
      leftThreads := leftThreads + 1;
    }

    /** A running thread arrives at the barrier. */
    method Sync(tid: nat)
      requires Settled() && tid < |threads| && threads[tid].state == RUNNING
      modifies this
      ensures Settled() && old(ended) <= ended && |ended| <= |old(ended)| + 1
      ensures ended == old(ended) ==> OnlyWoke(old(threads)[tid := old(threads[tid]).(state := WAITING)], threads)
      ensures ended != old(ended) ==> NewPhase(old(threads)[tid := old(threads[tid]).(state := WAITING)], threads, old(phaseCount) % 32 == 0)
    {
      assert ThreadOk(view, tid);
      var info := threads[tid].(state := WAITING, futexWord := 1);
      StoppedKeeps(view, tid, info);
      view := Stopped(view, tid, info, view.left);
      threads := threads[tid := info];
      runningThreads := runningThreads - 1;
      TryWakeNext();
    }
  }

  /** t waits on the run list, and the cursor has yet to come to it. */
  ghost predicate StillToRun(v: View, t: nat) {
    && |v.at| == |v.threads| && t < |v.threads| && v.threads[t].state.WAITING?
    && v.cur <= v.at[t] < v.size <= |v.run| && v.run[v.at[t]] == t
  }

  /** A waiting thread the cursor has not reached. */
  ghost predicate WaitsAhead(v: View) {
    |v.at| == |v.threads| && exists t :: 0 <= t < |v.threads| && v.threads[t].state.WAITING? && v.at[t] >= v.cur
  }

  lemma WaiterStopsPhase(v: View, w: View)
    requires Core(v) && Core(w) && Advanced(v, w)
    ensures WaitsAhead(v) ==> !(w.cur == w.size && w.running == 0)
  {
    if WaitsAhead(v) && w.cur == w.size {
      var t :| 0 <= t < |v.threads| && v.threads[t].state.WAITING? && v.at[t] >= v.cur;
      assert ThreadOk(v, t);
      assert w.threads[t].state.RUNNING?;
      CountNone(w.threads, RUNNING);
    }
  }

  /** After the last wake-up round somebody runs, or nobody waits. */
  lemma Progress(v: View, w: View, par: nat)
    requires Core(v) && Core(w) && Advanced(v, w) && par >= 1 && (w.running == par || w.cur == w.size)
    requires v.running >= 1 || !SomeoneWaits(v) || v.cur == 0
    ensures SomeoneWaits(w) ==> w.running >= 1
  {
    if SomeoneWaits(w) && w.running != par {
      var t :| 0 <= t < |w.threads| && w.threads[t].state.WAITING?;
      assert ThreadOk(w, t);
    }
  }

  /** The barrier before anybody has joined. */
  function Unused(n: nat): View { View(seq(n, _ => Info(OFFLINE, 0, 0)), seq(n, _ => 0), 0, 0, 0, 0, {}, {}, seq(n, _ => 0)) }

  lemma UnusedCore(n: nat)
    ensures Core(Unused(n))
  {
    CountNone(Unused(n).threads, RUNNING);
    CountNone(Unused(n).threads, WAITING);
    CountNone(Unused(n).threads, LEFT);
  }

  /** Where lastIdx goes wrong, one thread being allowed to run at a time: thread 0 joins and is woken, thread 1
      joins behind it and is not, so nothing has written its lastIdx, which is 0 from the start.  If it leaves now,
      the cursor is past that entry and the entry is thread 0's. */
  lemma StaleLastIdx(n: nat) returns (v: View)
    requires n >= 2
    ensures v == Appended(Woken(Appended(Unused(n), 0)), 1) && Core(v) && v.running == 1
    ensures v.threads[1].state.WAITING? && !KnowsPlace(v, 1)
    ensures !RejoinOk(Stopped(v, 1, v.threads[1].(state := LEFT), v.left + 1), 1)
  {
    v := FirstJoin(n);
    AppendedKeeps(v, 1);
    v := Appended(v, 1);
  }

  lemma FirstJoin(n: nat) returns (v: View)
    requires n >= 2
    ensures v == Woken(Appended(Unused(n), 0)) && Core(v) && |v.threads| == |v.run| == |v.at| == n
    ensures v.size == v.cur == v.running == 1 && v.run[0] == 0 && v.threads[1] == Info(OFFLINE, 0, 0)
  {
    UnusedCore(n);
    AppendedKeeps(Unused(n), 0);
    v := Appended(Unused(n), 0);
    assert SlotOk(v, 0);
    WokenKeeps(v);
    v := Woken(v);
  }

  /** The cleanup pass up to position idx. */
  ghost predicate PartlyClean(ts: seq<Info>, threads: seq<Info>, run: seq<nat>, idx: nat) {
    && |threads| == |ts| && idx <= |run|
    && (forall t :: 0 <= t < |ts| ==> threads[t].state == ts[t].state || (ts[t].state.LEFT? && threads[t].state.OFFLINE?))
    && (forall i :: 0 <= i < idx ==> run[i] < |ts| && !threads[run[i]].state.LEFT?)
  }

  lemma DroppedClean(ts: seq<Info>, v: View, idx: nat)
    requires Lists(v) && idx < v.size && SlotOk(v, idx) && SlotOk(v, v.size - 1)
    requires v.threads[v.run[idx]].state.LEFT? && PartlyClean(ts, v.threads, v.run, idx)
    ensures PartlyClean(ts, Dropped(v, idx).threads, Dropped(v, idx).run, idx)
  {
  }

  lemma CleanAtEnd(ts: seq<Info>, v: View)
    requires Core(v) && PartlyClean(ts, v.threads, v.run, v.size)
    ensures v.left == 0 && AfterPhase(ts, v.threads, true)
  {
    forall t | 0 <= t < |v.threads| ensures !v.threads[t].state.LEFT? {
      assert ThreadOk(v, t);
    }
    CountNone(v.threads, LEFT);
  }
}
