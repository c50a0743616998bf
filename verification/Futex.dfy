/** The futex lock as a protocol: one shared word, any number of threads, one step per atomic
    operation or system call.  The word is 0 (free), 1 (taken) or 2 (taken, someone may sleep). */
module Futex {
  type Tid = nat

  /** futex_lock, futex_lock_nospin and futex_trylock_nospin_timeout. */
  datatype Caller = Spinning | NoSpin | TryOnce

  function Attempts(k: Caller): nat { if k.Spinning? then 5 else 1 }

  datatype Pc =
    | Out                              // neither holds nor wants the lock
    | Test(k: Caller, left: nat)       // about to read the word
    | Cas(k: Caller, left: nat)        // read 0, about to compare-and-swap
    | Exchange(k: Caller)              // spun enough, about to exchange in 2
    | Wait(k: Caller)                  // about to call FUTEX_WAIT
    | Asleep(k: Caller)
    | Retry(k: Caller)                 // back from FUTEX_WAIT, about to exchange in 2
    | Holding
    | Store                            // decremented a 2, about to store 0
    | Wake                             // about to call FUTEX_WAKE

  datatype State = State(word: int, pc: map<Tid, Pc>)

  datatype Step =
    | Call(t: Tid, k: Caller)
    | DoTest(t: Tid)
    | DoCas(t: Tid)
    | DoExchange(t: Tid)
    | DoWait(t: Tid)
    | Interrupted(t: Tid)              // timeout or spurious return from FUTEX_WAIT
    | DoRetry(t: Tid)
    | Unlock(t: Tid)                   // fetch-and-add -1
    | DoStore(t: Tid)
    | WakeOne(t: Tid, u: Tid)
    | WakeNobody(t: Tid)
    | HandOver(t: Tid, u: Tid)         // u will unlock what t locked

  function NextAttempt(k: Caller, left: nat): Pc { if left <= 1 then Exchange(k) else Test(k, left - 1) }

  ghost predicate Enabled(s: State, a: Step) {
    && a.t in s.pc
    && match a
       case Call(t, k) => s.pc[t].Out?
       case DoTest(t) => s.pc[t].Test?
       case DoCas(t) => s.pc[t].Cas?
       case DoExchange(t) => s.pc[t].Exchange?
       case DoWait(t) => s.pc[t].Wait?
       case Interrupted(t) => s.pc[t].Asleep?
       case DoRetry(t) => s.pc[t].Retry?
       case Unlock(t) => s.pc[t].Holding?
       case DoStore(t) => s.pc[t].Store?
       case WakeOne(t, u) => s.pc[t].Wake? && u in s.pc && s.pc[u].Asleep?
       case WakeNobody(t) => s.pc[t].Wake? && forall u :: u in s.pc ==> !s.pc[u].Asleep?
       case HandOver(t, u) => s.pc[t].Holding? && u in s.pc && s.pc[u].Out?
  }

  function At(s: State, t: Tid, pc: Pc): State { s.(pc := s.pc[t := pc]) }

  ghost function Apply(s: State, a: Step): State
    requires Enabled(s, a)
  {
    var t, pc := a.t, s.pc[a.t];
    match a
    case Call(_, k) => At(s, t, Test(k, Attempts(k)))
    case DoTest(_) => At(s, t, if s.word == 0 then Cas(pc.k, pc.left) else NextAttempt(pc.k, pc.left))
    case DoCas(_) => if s.word == 0 then At(s.(word := 1), t, Holding) else At(s, t, NextAttempt(pc.k, pc.left))
    case DoExchange(_) => At(s.(word := 2), t, if s.word == 0 then Holding else Wait(pc.k))
    case DoWait(_) => At(s, t, if s.word == 2 then Asleep(pc.k) else Retry(pc.k))
    case Interrupted(_) => At(s, t, Retry(pc.k))
    case DoRetry(_) =>
      At(s.(word := 2), t, if s.word == 0 then Holding else if pc.k.TryOnce? then Out else Test(pc.k, Attempts(pc.k)))
    case Unlock(_) => At(s.(word := s.word - 1), t, if s.word == 1 then Out else Store)
    case DoStore(_) => At(s.(word := 0), t, Wake)
    case WakeOne(_, u) => At(At(s, u, Retry(s.pc[u].k)), t, Out)
    case WakeNobody(_) => At(s, t, Out)
    case HandOver(_, u) => At(At(s, t, Out), u, Holding)
  }

  ghost predicate Init(s: State) { s.word == 0 && forall t :: t in s.pc ==> s.pc[t].Out? }

  /** The lock is taken until the word goes back to 0. */
  predicate Owns(pc: Pc) { pc.Holding? || pc.Store? }
  ghost predicate Taken(s: State) { exists t :: t in s.pc && Owns(s.pc[t]) }

  /** u will wake a sleeper, or will put 2 into the word and so make the next release wake one. */
  predicate WillWake(pc: Pc) { pc.Store? || pc.Wake? || pc.Retry? }

  ghost predicate NoLostWakeup(s: State) {
    (exists t :: t in s.pc && s.pc[t].Asleep?) ==> s.word == 2 || exists u :: u in s.pc && WillWake(s.pc[u])
  }

  ghost predicate Inv(s: State) {
    && 0 <= s.word <= 2
    && (forall t, u :: t in s.pc && u in s.pc && Owns(s.pc[t]) && Owns(s.pc[u]) ==> t == u)
    && (s.word == 0 <==> !Taken(s))
    && NoLostWakeup(s)
  }

  /** One step, and what it means for the lock seen as a binary semaphore. */
  lemma StepInv(s: State, a: Step)
    requires Inv(s) && Enabled(s, a)
    ensures Inv(Apply(s, a))
  {
    var r, t := Apply(s, a), a.t;
    TakenAfter(s, a);
    forall v, w | v in r.pc && w in r.pc && Owns(r.pc[v]) && Owns(r.pc[w]) ensures v == w {
      if !Owns(s.pc[t]) && (v == t || w == t) { assert !Taken(s); }
    }
    StepWakeup(s, a);
  }

  lemma TakenAfter(s: State, a: Step)
    requires Inv(s) && Enabled(s, a)
    ensures 0 <= Apply(s, a).word <= 2
    ensures Apply(s, a).word == 0 <==> !Taken(Apply(s, a))
  {
    var r := Apply(s, a);
    if Taken(s) {
      var o :| o in s.pc && Owns(s.pc[o]);
      if a.HandOver? { assert Owns(r.pc[a.u]); }
      else if o == a.t { assert Owns(s.pc[a.t]); if r.word != 0 { assert Owns(r.pc[a.t]); } }
      else { assert Owns(r.pc[o]); }
    } else {
      assert !Owns(s.pc[a.t]);
      if r.word != 0 { assert Owns(r.pc[a.t]); }
    }
  }

  lemma StepWakeup(s: State, a: Step)
    requires Inv(s) && Enabled(s, a)
    ensures NoLostWakeup(Apply(s, a))
  {
    var r, t := Apply(s, a), a.t;
    if r.word != 2 && exists v :: v in r.pc && r.pc[v].Asleep? {
      var v :| v in r.pc && r.pc[v].Asleep?;
      assert s.pc[v].Asleep?;
      if s.word == 2 {
        assert WillWake(r.pc[t]);
      } else {
        var u :| u in s.pc && WillWake(s.pc[u]);
        if a.WakeOne? { assert WillWake(r.pc[a.u]); }
        else if u == t { assert WillWake(r.pc[t]); }
        else { assert WillWake(r.pc[u]); }
      }
    }
  }

  // ---------------------------------------------------------------- every run

  ghost predicate IsRun(run: seq<State>, acts: seq<Step>) {
    && |run| == |acts| + 1 && Init(run[0])
    && forall i :: 0 <= i < |acts| ==> Enabled(run[i], acts[i]) && run[i + 1] == Apply(run[i], acts[i])
  }

  ghost predicate Reachable(s: State) { exists run, acts :: IsRun(run, acts) && s == run[|acts|] }

  lemma {:induction false} RunInv(run: seq<State>, acts: seq<Step>, i: nat)
    requires IsRun(run, acts) && i <= |acts|
    ensures Inv(run[i])
  {
    if i > 0 {
      RunInv(run, acts, i - 1);
      StepInv(run[i - 1], acts[i - 1]);
    }
  }

  /** Mutual exclusion, and a sleeper is never forgotten: whenever a thread sleeps, the word is 2, or a
      releaser has yet to issue its wake, or an awake thread has yet to redo its exchange; so some
      thread other than the sleepers always has work to do. */
  lemma MutualExclusionAndWakeup(s: State)
    requires Reachable(s)
    ensures forall t, u :: t in s.pc && u in s.pc && s.pc[t].Holding? && Owns(s.pc[u]) ==> t == u
    ensures NoLostWakeup(s)
    ensures (exists t :: t in s.pc && s.pc[t].Asleep?) ==> exists u :: u in s.pc && (s.pc[u].Holding? || WillWake(s.pc[u]))
  {
    var run, acts :| IsRun(run, acts) && s == run[|acts|];
    RunInv(run, acts, |acts|);
    if s.word == 2 {
      var o :| o in s.pc && Owns(s.pc[o]);
      assert s.pc[o].Holding? || WillWake(s.pc[o]);
    }
  }

  /** The lock refines a binary semaphore: the only steps that take it start with it free and leave it
      with the stepping thread; the only steps that free it are taken by the owner. */
  lemma RefinesSemaphore(s: State, a: Step)
    requires Reachable(s) && Enabled(s, a)
    ensures var r := Apply(s, a);
      && (!Taken(s) && Taken(r) ==> r.pc[a.t].Holding? && !Owns(s.pc[a.t]))
      && (Taken(s) && !Taken(r) ==> Owns(s.pc[a.t]) && !Owns(r.pc[a.t]))
      && (!Owns(s.pc[a.t]) && Owns(r.pc[a.t]) ==> !Taken(s))
  {
    var run, acts :| IsRun(run, acts) && s == run[|acts|];
    RunInv(run, acts, |acts|);
    var r := Apply(s, a);
    if !Taken(s) { assert !Owns(s.pc[a.t]); }
    if !Taken(s) && Taken(r) { var o :| o in r.pc && Owns(r.pc[o]); assert o == a.t; }
    if Taken(s) {
      var o :| o in s.pc && Owns(s.pc[o]);
      if a.HandOver? { assert Owns(r.pc[a.u]); } else if o != a.t { assert Owns(r.pc[o]); }
    }
  }

  // ---------------------------------------------------------------- what a call ends with

  /** The attempts to take the lock. */
  predicate Tries(a: Step) { a.DoCas? || a.DoExchange? || a.DoRetry? }

  /** An attempt succeeds exactly if the lock is free. */
  lemma TakesExactlyIfFree(s: State, a: Step)
    requires Reachable(s) && Enabled(s, a) && Tries(a)
    ensures Apply(s, a).pc[a.t].Holding? <==> !Taken(s)
  {
    var run, acts :| IsRun(run, acts) && s == run[|acts|];
    RunInv(run, acts, |acts|);
  }

  /** Where a caller may be before its call returns. */
  predicate Calling(k: Caller, pc: Pc) {
    match pc
    case Test(l, _) => l == k
    case Cas(l, _) => l == k
    case Exchange(l) => l == k
    case Wait(l) => l == k
    case Asleep(l) => l == k
    case Retry(l) => l == k
    case _ => false
  }

  lemma StepCalling(s: State, a: Step, t: Tid, k: Caller)
    requires Enabled(s, a) && t in s.pc && Calling(k, s.pc[t])
    ensures var pc := Apply(s, a).pc;
      t in pc && (Calling(k, pc[t]) || pc[t].Holding? || (pc[t].Out? && k.TryOnce? && a == DoRetry(t) && s.word != 0))
  {
  }

  /** A call returns only with the lock; only the one with a timeout may give up, and only after finding the lock
      taken once more. */
  lemma {:induction false} CallReturnsHolding(run: seq<State>, acts: seq<Step>, i: nat, j: nat)
    requires IsRun(run, acts) && i < j <= |acts| && acts[i].Call?
    requires forall n :: i < n < j ==> acts[i].t in run[n].pc && !run[n].pc[acts[i].t].Holding? && !run[n].pc[acts[i].t].Out?
    ensures var t, k := acts[i].t, acts[i].k;
      && t in run[j].pc && (Calling(k, run[j].pc[t]) || run[j].pc[t].Holding? || (run[j].pc[t].Out? && k.TryOnce? && Taken(run[j - 1])))
    decreases j
  {
    if i + 1 < j {
      CallReturnsHolding(run, acts, i, j - 1);
      StepCalling(run[j - 1], acts[j - 1], acts[i].t, acts[i].k);
      RunInv(run, acts, j - 1);
    }
  }
}
