/** The reader-writer mutex: rb serializes entry, wq is held by the writer or by the readers as a group,
    readers counts them.  rb and wq are binary semaphores; module Futex shows the locks behave as such. */
module RwMutex {
  type Tid = nat

  datatype Pc =
    | Out
    | RdWantRb                // rdLock: about to lock rb
    | RdCount                 // holds rb, about to add 1 to readers
    | RdWantWq                // was the first reader, about to lock wq
    | RdLeaveRb               // reader admitted, about to unlock rb
    | Reading
    | RdFreeWq(again: bool)   // was the last reader, about to unlock wq (again: upgrading)
    | WrWantRb
    | WrWantWq                // holds rb, about to lock wq
    | WrLeaveRb               // writer admitted, about to unlock rb
    | Writing
    | DownFreeWq              // downgrading, a reader waits for wq, about to unlock it

  datatype State = State(wq: bool, rb: bool, readers: int, pc: map<Tid, Pc>)

  datatype Step =
    | RdLock(t: Tid) | WrLock(t: Tid) | RdUnlock(t: Tid) | WrUnlock(t: Tid) | Upgrade(t: Tid) | Downgrade(t: Tid)
    | LockRb(t: Tid) | Count(t: Tid) | LockWq(t: Tid) | UnlockRb(t: Tid) | UnlockWq(t: Tid)

  ghost predicate Enabled(s: State, a: Step) {
    && a.t in s.pc
    && var pc := s.pc[a.t];
       match a
       case RdLock(_) => pc.Out?
       case WrLock(_) => pc.Out?
       case RdUnlock(_) => pc.Reading?
       case Upgrade(_) => pc.Reading?
       case WrUnlock(_) => pc.Writing?
       case Downgrade(_) => pc.Writing?
       case LockRb(_) => !s.rb && (pc.RdWantRb? || pc.WrWantRb?)
       case Count(_) => pc.RdCount?
       case LockWq(_) => !s.wq && (pc.RdWantWq? || pc.WrWantWq?)
       case UnlockRb(_) => pc.RdLeaveRb? || pc.WrLeaveRb?
       case UnlockWq(_) => pc.RdFreeWq? || pc.DownFreeWq?
  }

  function At(s: State, t: Tid, pc: Pc): State { s.(pc := s.pc[t := pc]) }

  ghost function Leave(s: State, t: Tid, again: bool): State {
    At(s.(readers := s.readers - 1), t, if s.readers == 1 then RdFreeWq(again) else if again then WrWantRb else Out)
  }

  ghost function Apply(s: State, a: Step): State
    requires Enabled(s, a)
  {
    var t, pc := a.t, s.pc[a.t];
    match a
    case RdLock(_) => At(s, t, RdWantRb)
    case WrLock(_) => At(s, t, WrWantRb)
    case RdUnlock(_) => Leave(s, t, false)
    case Upgrade(_) => Leave(s, t, true)
    case WrUnlock(_) => At(s.(wq := false), t, Out)
    case Downgrade(_) => At(s.(readers := s.readers + 1), t, if s.readers == 0 then Reading else DownFreeWq)
    case LockRb(_) => At(s.(rb := true), t, if pc.RdWantRb? then RdCount else WrWantWq)
    case Count(_) => At(s.(readers := s.readers + 1), t, if s.readers == 0 then RdWantWq else RdLeaveRb)
    case LockWq(_) => At(s.(wq := true), t, if pc.RdWantWq? then RdLeaveRb else WrLeaveRb)
    case UnlockRb(_) => At(s.(rb := false), t, if pc.RdLeaveRb? then Reading else Writing)
    case UnlockWq(_) => At(s.(wq := false), t, if pc.DownFreeWq? then Reading else if pc.again then WrWantRb else Out)
  }

  ghost predicate Init(s: State) { !s.wq && !s.rb && s.readers == 0 && forall t :: t in s.pc ==> s.pc[t].Out? }

  // ---------------------------------------------------------------- roles

  predicate InRb(pc: Pc) { pc.RdCount? || pc.RdWantWq? || pc.RdLeaveRb? || pc.WrWantWq? || pc.WrLeaveRb? }
  /** Threads that by themselves account for wq being locked. */
  predicate OwnsWq(pc: Pc) { pc.WrLeaveRb? || pc.Writing? || pc.DownFreeWq? || pc.RdFreeWq? }
  predicate Counted(pc: Pc) { pc.RdWantWq? || pc.RdLeaveRb? || pc.Reading? || pc.DownFreeWq? }
  predicate Reader(pc: Pc) { pc.RdLeaveRb? || pc.Reading? }
  predicate Writer(pc: Pc) { pc.WrLeaveRb? || pc.Writing? }

  ghost function CountedSet(s: State): set<Tid> { set t | t in s.pc && Counted(s.pc[t]) }
  ghost predicate FirstWaits(s: State) { exists t :: t in s.pc && s.pc[t].RdWantWq? }
  ghost predicate Owned(s: State) { exists t :: t in s.pc && OwnsWq(s.pc[t]) }

  ghost predicate RbOk(s: State) {
    && (forall t, u :: t in s.pc && u in s.pc && InRb(s.pc[t]) && InRb(s.pc[u]) ==> t == u)
    && (s.rb <==> exists t :: t in s.pc && InRb(s.pc[t]))
  }

  ghost predicate OneOwner(s: State) {
    forall t, u :: t in s.pc && u in s.pc && OwnsWq(s.pc[t]) && OwnsWq(s.pc[u]) ==> t == u
  }

  ghost predicate WqOk(s: State) {
    // wq is locked by its single owner, or by the group of readers once the first of them has it
    && (s.wq <==> Owned(s) || (s.readers > 0 && !FirstWaits(s)))
    && (Owned(s) && s.readers > 0 ==> FirstWaits(s))
    && (forall t :: t in s.pc && s.pc[t].DownFreeWq? ==> FirstWaits(s))
  }

  /** While a single owner has wq, only the waiting first reader and a downgrading writer are counted. */
  ghost predicate NoReaderWithOwner(s: State) {
    forall t, u :: t in s.pc && u in s.pc && OwnsWq(s.pc[t]) ==> !Reader(s.pc[u])
  }

  ghost predicate Inv(s: State) {
    RbOk(s) && OneOwner(s) && s.readers == |CountedSet(s)| && WqOk(s) && NoReaderWithOwner(s)
  }

  // ---------------------------------------------------------------- every step keeps the invariant

  lemma CountedAfter(s: State, r: State, t: Tid)
    requires t in s.pc && t in r.pc && r.pc == s.pc[t := r.pc[t]]
    ensures CountedSet(r) == (if Counted(r.pc[t]) then CountedSet(s) + {t} else CountedSet(s) - {t})
    ensures Counted(s.pc[t]) && !Counted(r.pc[t]) ==> |CountedSet(r)| == |CountedSet(s)| - 1
    ensures !Counted(s.pc[t]) && Counted(r.pc[t]) ==> |CountedSet(r)| == |CountedSet(s)| + 1
    ensures Counted(s.pc[t]) == Counted(r.pc[t]) ==> |CountedSet(r)| == |CountedSet(s)|
  {
    assert t in CountedSet(s) <==> Counted(s.pc[t]);
    assert CountedSet(s) + {t} == if Counted(s.pc[t]) then CountedSet(s) else CountedSet(s) + {t};
    assert CountedSet(s) - {t} == if Counted(s.pc[t]) then CountedSet(s) - {t} else CountedSet(s);
  }

  /** A counted thread makes readers positive; if it is the only one, it is the only one. */
  lemma CountFacts(s: State, t: Tid)
    requires Inv(s) && t in s.pc
    ensures Counted(s.pc[t]) ==> s.readers >= 1
    ensures Counted(s.pc[t]) && s.readers == 1 ==> forall u :: u in s.pc && Counted(s.pc[u]) ==> u == t
    ensures s.readers == 0 ==> forall u :: u in s.pc ==> !Counted(s.pc[u])
    ensures s.readers >= 0
  {
    var c := CountedSet(s);
    if Counted(s.pc[t]) {
      assert t in c;
      if s.readers == 1 {
        forall u | u in s.pc && Counted(s.pc[u]) ensures u == t {
          assert u in c;
          if u != t { assert {t, u} <= c; Subset({t, u}, c); }
        }
      }
    }
    if s.readers == 0 {
      assert c == {};
      forall u | u in s.pc ensures !Counted(s.pc[u]) { assert u !in c; }
    }
  }

  lemma Subset(a: set<Tid>, b: set<Tid>)
    requires a <= b
    ensures |a| <= |b|
  {
    assert b == a + (b - a);
  }

  /** What a writer can see in readers: nobody, or the one reader that waits for wq. */
  lemma WriterSees(s: State, t: Tid)
    requires Inv(s) && t in s.pc && Writer(s.pc[t])
    ensures 0 <= s.readers <= 1 && (s.readers == 1 <==> FirstWaits(s)) && s.wq
  {
    assert Owned(s);
    var c := CountedSet(s);
    if FirstWaits(s) {
      var u :| u in s.pc && s.pc[u].RdWantWq?;
      assert u in c;
      forall v | v in c ensures v == u { assert OwnsWq(s.pc[t]); }
      assert c == {u};
    }
  }

  /** A step that neither enters nor leaves these roles keeps them occupied as they were. */
  lemma SameOwners(s: State, r: State, t: Tid)
    requires t in s.pc && t in r.pc && r.pc == s.pc[t := r.pc[t]]
    ensures OwnsWq(r.pc[t]) ==> Owned(r)
    ensures OwnsWq(s.pc[t]) == OwnsWq(r.pc[t]) ==> Owned(s) == Owned(r)
    ensures OwnsWq(s.pc[t]) && OneOwner(s) && !OwnsWq(r.pc[t]) ==> !Owned(r)
    ensures r.pc[t].RdWantWq? ==> FirstWaits(r)
    ensures s.pc[t].RdWantWq? == r.pc[t].RdWantWq? ==> FirstWaits(s) == FirstWaits(r)
  {
    assert forall u :: u != t && u in s.pc ==> r.pc[u] == s.pc[u];
  }

  lemma RbFrame(s: State, r: State, t: Tid)
    requires t in s.pc && t in r.pc && r.pc == s.pc[t := r.pc[t]] && RbOk(s)
    requires InRb(s.pc[t]) == InRb(r.pc[t]) ==> r.rb == s.rb
    requires !InRb(s.pc[t]) && InRb(r.pc[t]) ==> !s.rb && r.rb
    requires InRb(s.pc[t]) && !InRb(r.pc[t]) ==> !r.rb
    ensures RbOk(r)
  {
    assert forall u :: u != t && u in s.pc ==> r.pc[u] == s.pc[u];
    if s.rb { var u :| u in s.pc && InRb(s.pc[u]); assert u == t || InRb(r.pc[u]); }
  }

  lemma RbAfter(s: State, a: Step)
    requires RbOk(s) && Enabled(s, a)
    ensures RbOk(Apply(s, a))
  {
    RbFrame(s, Apply(s, a), a.t);
  }

  lemma CountAfter(s: State, a: Step)
    requires s.readers == |CountedSet(s)| && Enabled(s, a)
    ensures Apply(s, a).readers == |CountedSet(Apply(s, a))|
  {
    CountedAfter(s, Apply(s, a), a.t);
  }

  /** A thread becomes owner only when wq was free, or when it is the last reader of the group. */
  lemma NewOwner(s: State, a: Step)
    requires Inv(s) && Enabled(s, a) && !OwnsWq(s.pc[a.t]) && OwnsWq(Apply(s, a).pc[a.t])
    ensures !Owned(s)
    ensures forall u :: u in s.pc && u != a.t ==> !Reader(s.pc[u])
  {
    CountFacts(s, a.t);
    if a.LockWq? {
      assert InRb(s.pc[a.t]) && !FirstWaits(s);
    } else {
      assert Reader(s.pc[a.t]);
    }
  }

  lemma OwnerAfter(s: State, a: Step)
    requires Inv(s) && Enabled(s, a)
    ensures OneOwner(Apply(s, a))
  {
    var r, t := Apply(s, a), a.t;
    assert forall u :: u != t && u in s.pc ==> r.pc[u] == s.pc[u];
    if !OwnsWq(s.pc[t]) && OwnsWq(r.pc[t]) { NewOwner(s, a); }
  }

  /** A thread becomes a reader only while nobody owns wq alone. */
  lemma NewReader(s: State, a: Step)
    requires Inv(s) && Enabled(s, a) && !Reader(s.pc[a.t]) && Reader(Apply(s, a).pc[a.t])
    ensures forall u :: u in s.pc && u != a.t ==> !OwnsWq(s.pc[u])
  {
    if a.Count? {
      CountFacts(s, a.t);
      assert InRb(s.pc[a.t]) && !FirstWaits(s);
    } else if a.LockWq? {
      assert !Owned(s);
    } else {
      assert OwnsWq(s.pc[a.t]);
    }
  }

  lemma ReaderFrame(s: State, r: State, t: Tid)
    requires t in s.pc && t in r.pc && r.pc == s.pc[t := r.pc[t]] && NoReaderWithOwner(s)
    requires !OwnsWq(s.pc[t]) && OwnsWq(r.pc[t]) ==> forall u :: u in s.pc && u != t ==> !Reader(s.pc[u])
    requires !Reader(s.pc[t]) && Reader(r.pc[t]) ==> forall u :: u in s.pc && u != t ==> !OwnsWq(s.pc[u])
    ensures NoReaderWithOwner(r)
  {
    assert forall u :: u != t && u in s.pc ==> r.pc[u] == s.pc[u];
  }

  lemma ReaderAfter(s: State, a: Step)
    requires Inv(s) && Enabled(s, a)
    ensures NoReaderWithOwner(Apply(s, a))
  {
    var r, t := Apply(s, a), a.t;
    if !OwnsWq(s.pc[t]) && OwnsWq(r.pc[t]) { NewOwner(s, a); }
    if !Reader(s.pc[t]) && Reader(r.pc[t]) { NewReader(s, a); }
    ReaderFrame(s, r, t);
  }

  lemma WqAfterReader(s: State, a: Step)
    requires Inv(s) && Enabled(s, a) && (a.RdUnlock? || a.Upgrade? || a.Count?)
    ensures WqOk(Apply(s, a))
  {
    var r, t := Apply(s, a), a.t;
    CountFacts(s, t);
    SameOwners(s, r, t);
    if a.Count? { assert InRb(s.pc[t]) && !FirstWaits(s); } else { assert Reader(s.pc[t]) && !Owned(s); }
    if s.readers == 1 && !a.Count? { assert !FirstWaits(s); }
  }

  lemma WqAfterWriter(s: State, a: Step)
    requires Inv(s) && Enabled(s, a) && (a.WrUnlock? || a.Downgrade?)
    ensures WqOk(Apply(s, a))
  {
    var r, t := Apply(s, a), a.t;
    WriterSees(s, t);
    assert OwnsWq(s.pc[t]);
    SameOwners(s, r, t);
  }

  lemma WqAfterLock(s: State, a: Step)
    requires Inv(s) && Enabled(s, a) && a.LockWq?
    ensures WqOk(Apply(s, a))
  {
    var r, t := Apply(s, a), a.t;
    CountFacts(s, t);
    SameOwners(s, r, t);
    assert InRb(s.pc[t]);
    if s.pc[t].WrWantWq? { assert !FirstWaits(s); } else { assert !FirstWaits(r); }
  }

  lemma WqAfterUnlock(s: State, a: Step)
    requires Inv(s) && Enabled(s, a) && a.UnlockWq?
    ensures WqOk(Apply(s, a))
  {
    var r, t := Apply(s, a), a.t;
    CountFacts(s, t);
    SameOwners(s, r, t);
    assert OwnsWq(s.pc[t]);
    assert Owned(s);
  }

  lemma WqAfter(s: State, a: Step)
    requires Inv(s) && Enabled(s, a)
    ensures WqOk(Apply(s, a))
  {
    match a
    case RdUnlock(_) => WqAfterReader(s, a);
    case Upgrade(_) => WqAfterReader(s, a);
    case Count(_) => WqAfterReader(s, a);
    case WrUnlock(_) => WqAfterWriter(s, a);
    case Downgrade(_) => WqAfterWriter(s, a);
    case LockWq(_) => WqAfterLock(s, a);
    case UnlockWq(_) => WqAfterUnlock(s, a);
    case _ => SameOwners(s, Apply(s, a), a.t);
  }

  lemma StepInv(s: State, a: Step)
    requires Inv(s) && Enabled(s, a)
    ensures Inv(Apply(s, a))
  {
    RbAfter(s, a);
    CountAfter(s, a);
    OwnerAfter(s, a);
    ReaderAfter(s, a);
    WqAfter(s, a);
  }

  // ---------------------------------------------------------------- every run

  ghost predicate IsRun(run: seq<State>, acts: seq<Step>) {
    && |run| == |acts| + 1 && Init(run[0])
    && forall i :: 0 <= i < |acts| ==> Enabled(run[i], acts[i]) && run[i + 1] == Apply(run[i], acts[i])
  }

  lemma {:induction false} RunInv(run: seq<State>, acts: seq<Step>, i: nat)
    requires IsRun(run, acts) && i <= |acts|
    ensures Inv(run[i])
  {
    if i == 0 {
      assert CountedSet(run[0]) == {};
    } else {
      RunInv(run, acts, i - 1);
      StepInv(run[i - 1], acts[i - 1]);
    }
  }

  /** A writer excludes every reader and every other writer, in every state of every run. */
  lemma WriterExcludes(run: seq<State>, acts: seq<Step>, i: nat, t: Tid, u: Tid)
    requires IsRun(run, acts) && i <= |acts|
    requires t in run[i].pc && u in run[i].pc && t != u && Writer(run[i].pc[t])
    ensures !Writer(run[i].pc[u]) && !Reader(run[i].pc[u]) && !run[i].pc[u].DownFreeWq?
  {
    RunInv(run, acts, i);
    assert OwnsWq(run[i].pc[t]);
  }

  predicate HasReadAccess(pc: Pc) { pc.Reading? || pc.DownFreeWq? }

  /** downgrade reads 0 or 1 from readers, and from then until the thread gives up its read access no
      other thread is a writer. */
  lemma DowngradeAtomic(run: seq<State>, acts: seq<Step>, i: nat, j: nat, u: Tid)
    requires IsRun(run, acts) && i < j <= |acts| && acts[i].Downgrade?
    requires forall k :: i < k <= j ==> acts[i].t in run[k].pc && HasReadAccess(run[k].pc[acts[i].t])
    requires u in run[j].pc
    ensures run[i].readers == 0 || run[i].readers == 1
    ensures !Writer(run[j].pc[u])
  {
    RunInv(run, acts, i);
    WriterSees(run[i], acts[i].t);
    RunInv(run, acts, j);
    var t := acts[i].t;
    assert HasReadAccess(run[j].pc[t]);
    if Writer(run[j].pc[u]) { WriterExcludes(run, acts, j, u, t); }
  }

  // ---------------------------------------------------------------- what a call ends with

  predicate IsCall(a: Step) { a.RdLock? || a.WrLock? || a.RdUnlock? || a.WrUnlock? || a.Upgrade? || a.Downgrade? }

  predicate AtRest(pc: Pc) { pc.Out? || pc.Reading? || pc.Writing? }

  /** What the caller is promised. */
  function Promised(a: Step): Pc
    requires IsCall(a)
  {
    if a.RdLock? || a.Downgrade? then Reading else if a.WrLock? || a.Upgrade? then Writing else Out
  }

  /** Where a caller may be on its way there. */
  predicate OnTheWay(end: Pc, pc: Pc) {
    match pc
    case RdWantRb | RdCount | RdWantWq | RdLeaveRb | DownFreeWq => end == Reading
    case WrWantRb | WrWantWq | WrLeaveRb => end == Writing
    case RdFreeWq(again) => end == if again then Writing else Out
    case _ => false
  }

  lemma StepOnTheWay(s: State, a: Step, t: Tid, end: Pc)
    requires Enabled(s, a) && t in s.pc && OnTheWay(end, s.pc[t])
    ensures var pc := Apply(s, a).pc; t in pc && (OnTheWay(end, pc[t]) || pc[t] == end)
  {
  }

  /** Whatever the others do, a call comes to rest only with what it promises: rdLock and downgrade as a reader,
      wrLock and upgrade as a writer, the unlocks outside. */
  lemma {:induction false} CallKeepsPromise(run: seq<State>, acts: seq<Step>, i: nat, j: nat)
    requires IsRun(run, acts) && i < j <= |acts| && IsCall(acts[i])
    requires forall k :: i < k < j ==> acts[i].t in run[k].pc && !AtRest(run[k].pc[acts[i].t])
    ensures var t, end := acts[i].t, Promised(acts[i]);
      t in run[j].pc && (OnTheWay(end, run[j].pc[t]) || run[j].pc[t] == end)
    decreases j
  {
    if i + 1 < j {
      CallKeepsPromise(run, acts, i, j - 1);
      StepOnTheWay(run[j - 1], acts[j - 1], acts[i].t, Promised(acts[i]));
    }
  }

  /** A reader that comes while others read is let in at once. */
  lemma ReadersShare(s: State, t: Tid, u: Tid)
    requires Inv(s) && Enabled(s, Count(t)) && u in s.pc && s.pc[u].Reading?
    ensures Apply(s, Count(t)).pc[t].RdLeaveRb?
  {
    assert u in CountedSet(s);
  }

  /** Nobody waits for ever: while some call is under way, a step of one can be taken, or some thread reads or
      writes, and so can unlock. */
  lemma NoDeadlock(s: State, t: Tid) returns (a: Step)
    requires Inv(s) && t in s.pc && !AtRest(s.pc[t])
    ensures (Enabled(s, a) && !IsCall(a)) || exists u :: u in s.pc && (s.pc[u].Reading? || s.pc[u].Writing?)
  {
    if u :| u in s.pc && s.pc[u].RdCount? {
      a := Count(u);
    } else if u :| u in s.pc && (s.pc[u].RdLeaveRb? || s.pc[u].WrLeaveRb?) {
      a := UnlockRb(u);
    } else if u :| u in s.pc && (s.pc[u].RdFreeWq? || s.pc[u].DownFreeWq?) {
      a := UnlockWq(u);
    } else if u :| u in s.pc && (s.pc[u].RdWantWq? || s.pc[u].WrWantWq?) {
      a := LockWq(u);
      if s.wq { HolderOfWq(s); }
    } else {
      a := LockRb(t);
    }
  }

  lemma HolderOfWq(s: State)
    requires Inv(s) && s.wq
    requires forall u :: u in s.pc ==> !s.pc[u].RdLeaveRb? && !s.pc[u].WrLeaveRb? && !s.pc[u].RdFreeWq? && !s.pc[u].DownFreeWq?
    ensures exists u :: u in s.pc && (s.pc[u].Reading? || s.pc[u].Writing?)
  {
    if Owned(s) {
      var u :| u in s.pc && OwnsWq(s.pc[u]);
      assert s.pc[u].Writing?;
    } else {
      assert CountedSet(s) != {};
      var u :| u in CountedSet(s);
      assert s.pc[u].RdWantWq? ==> FirstWaits(s);
      assert s.pc[u].Reading?;
    }
  }
}
