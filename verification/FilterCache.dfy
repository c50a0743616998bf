/** The filter array in front of an L1 cache: the core hits in it without a lock, while replacements, invalidations
    and context switches go on around it. */
module FilterCache {
  import Mesi

  type State = Mesi.State

  /** Lines are numbered from 0.  phys adds the process mask to a virtual line; it leaves the set index alone. */
  datatype Config = Config(numSets: nat, index: int -> nat, phys: int -> int) {
    ghost predicate Valid() {
      && (forall a :: index(a) < numSets)
      && (forall v :: index(phys(v)) == index(v))
      && (forall v, w :: 0 <= v && 0 <= w && v != w ==> phys(v) != phys(w))
      && (forall v :: 0 <= v ==> phys(v) != phys(-1))
    }
  }

  datatype Entry = Entry(rd: int, wr: int)

  /** A load or a store of virtual line v. */
  datatype Op = Op(v: int, load: bool)

  datatype CorePc =
    | Idle
    | Enter(op: Op)                   // filter lock taken
    | WantCc(op: Op)                  // filter lock dropped
    | InCc(op: Op)                    // controller lock held
    | Evicting(op: Op, victim: int)   // PUT at the parent, no lock held
    | Waiting(op: Op)                 // GET at the parent, no lock held
    | Ready(op: Op)                   // line granted, controller lock held
    | Holding(op: Op)                 // both locks held
    | Writing(op: Op)                 // filter lock held
    | HalfWritten(op: Op)
    | Written(op: Op)

  datatype InvPc =
    | Away
    | HasCc(line: int, exclusiveOnly: bool)
    | HasBoth(line: int, exclusiveOnly: bool)
    | Cleared(line: int, exclusiveOnly: bool)
    | Applied

  datatype Owner = Nobody | Core | Inv(t: nat) | Switch

  datatype St = St(filter: seq<Entry>, l1: int -> State, core: CorePc, inv: nat -> InvPc, cc: Owner, fl: Owner)

  function Put(l1: int -> State, a: int, s: State): int -> State { x => if x == a then s else l1(x) }

  function Go(inv: nat -> InvPc, t: nat, pc: InvPc): nat -> InvPc { (u: nat) => if u == t then pc else inv(u) }

  ghost predicate Init(c: Config, s: St) {
    && s.filter == seq(c.numSets, _ => Entry(0, 0)) && s.core == Idle && s.cc == Nobody && s.fl == Nobody
    && (forall a :: s.l1(a) == Mesi.I) && (forall n: nat :: s.inv(n) == Away)
  }

  /** The lock-free check in front of the L1. */
  predicate Hit(c: Config, s: St, op: Op)
    requires c.index(op.v) < |s.filter|
  {
    var e := s.filter[c.index(op.v)];
    op.v == if op.load then e.rd else e.wr
  }

  /** A request goes up unless the line is already held well enough. */
  predicate NeedsGrant(m: State, op: Op) { m == Mesi.I || (m == Mesi.S && !op.load) }

  // ---------------------------------------------------------------- steps

  datatype Step =
    | Begin(op: Op)              // the core misses in the filter and calls replace
    | DropFilter                 // the access starts: the filter is open to invalidations
    | TakeCc
    | Evict(victim: int)         // the array makes room in the line's set
    | EvictDone
    | Ask                        // the request goes to the parent
    | Grant(state: State)         // the parent answers and the controller lock is retaken
    | Held                       // no request is needed
    | TakeFilter
    | DropCc
    | WriteWr
    | WriteRd
    | Leave
    | InvBegin(n: nat, line: int, exclusiveOnly: bool)
    | InvFilter(n: nat)
    | InvClear(n: nat)
    | InvApply(n: nat)
    | InvLeave(n: nat)
    | SwitchBegin
    | SwitchClear(i: nat)
    | SwitchEnd

  ghost predicate Enabled(c: Config, s: St, a: Step) {
    match a
    case Begin(op) => s.core.Idle? && 0 <= op.v && c.index(op.v) < |s.filter| && !Hit(c, s, op) && s.fl == Nobody
    case DropFilter => s.core.Enter?
    case TakeCc => s.core.WantCc? && s.cc == Nobody
    case Evict(victim) => s.core.InCc? && s.l1(c.phys(s.core.op.v)) == Mesi.I && c.index(victim) == c.index(s.core.op.v)
    case EvictDone => s.core.Evicting? && s.cc == Nobody
    case Ask => s.core.InCc? && NeedsGrant(s.l1(c.phys(s.core.op.v)), s.core.op)
    case Grant(g) => s.core.Waiting? && s.cc == Nobody && (if s.core.op.load then g == Mesi.S || g == Mesi.E else g == Mesi.M)
    case Held => s.core.InCc? && !NeedsGrant(s.l1(c.phys(s.core.op.v)), s.core.op)
    case TakeFilter => s.core.Ready? && s.fl == Nobody
    case DropCc => s.core.Holding?
    case WriteWr => s.core.Writing? && c.index(s.core.op.v) < |s.filter|
    case WriteRd => s.core.HalfWritten? && c.index(s.core.op.v) < |s.filter|
    case Leave => s.core.Written?
    case InvBegin(n, line, _) => s.inv(n).Away? && s.cc == Nobody && line != c.phys(-1)
    case InvFilter(n) => s.inv(n).HasCc? && s.fl == Nobody
    case InvClear(n) => s.inv(n).HasBoth? && c.index(s.inv(n).line) < |s.filter|
    case InvApply(n) => s.inv(n).Cleared? && s.l1(s.inv(n).line) != Mesi.I && (s.inv(n).exclusiveOnly ==> s.l1(s.inv(n).line) != Mesi.S)
    case InvLeave(n) => s.inv(n).Applied?
    case SwitchBegin => s.fl == Nobody
    case SwitchClear(i) => s.fl == Switch && i < |s.filter|
    case SwitchEnd => s.fl == Switch
  }

  function Apply(c: Config, s: St, a: Step): St
    requires Enabled(c, s, a)
  {
    match a
    case Begin(op) => s.(core := Enter(op), fl := Core)
    case DropFilter => s.(core := WantCc(s.core.op), fl := Nobody)
    case TakeCc => s.(core := InCc(s.core.op), cc := Core)
    case Evict(victim) => s.(core := Evicting(s.core.op, victim), cc := Nobody)
    case EvictDone => s.(core := InCc(s.core.op), cc := Core, l1 := Put(s.l1, s.core.victim, Mesi.I))
    case Ask => s.(core := Waiting(s.core.op), cc := Nobody)
    case Grant(g) => s.(core := Ready(s.core.op), cc := Core, l1 := Put(s.l1, c.phys(s.core.op.v), g))
    case Held => s.(core := Ready(s.core.op), l1 := if s.core.op.load then s.l1 else Put(s.l1, c.phys(s.core.op.v), Mesi.M))
    case TakeFilter => s.(core := Holding(s.core.op), fl := Core)
    case DropCc => s.(core := Writing(s.core.op), cc := Nobody)
    case WriteWr =>
      var i, op := c.index(s.core.op.v), s.core.op;
      s.(core := HalfWritten(op), filter := s.filter[i := s.filter[i].(wr := if op.load then -1 else op.v)])
    case WriteRd =>
      var i, op := c.index(s.core.op.v), s.core.op;
      s.(core := Written(op), filter := s.filter[i := s.filter[i].(rd := op.v)])
    case Leave => s.(core := Idle, fl := Nobody)
    case InvBegin(n, line, x) => s.(inv := Go(s.inv, n, HasCc(line, x)), cc := Inv(n))
    case InvFilter(n) => s.(inv := Go(s.inv, n, HasBoth(s.inv(n).line, s.inv(n).exclusiveOnly)), fl := Inv(n))
    case InvClear(n) =>
      var i, p := c.index(s.inv(n).line), s.inv(n);
      s.(inv := Go(s.inv, n, Cleared(p.line, p.exclusiveOnly)),
         filter := if c.phys(s.filter[i].rd) == p.line then s.filter[i := Entry(-1, -1)] else s.filter)
    case InvApply(n) =>
      s.(inv := Go(s.inv, n, Applied), cc := Nobody, l1 := Put(s.l1, s.inv(n).line, if s.inv(n).exclusiveOnly then Mesi.S else Mesi.I))
    case InvLeave(n) => s.(inv := Go(s.inv, n, Away), fl := Nobody)
    case SwitchBegin => s.(fl := Switch)
    case SwitchClear(i) => s.(filter := s.filter[i := Entry(0, 0)])
    case SwitchEnd => s.(fl := Nobody)
  }

  // ---------------------------------------------------------------- the invariant

  ghost predicate CoreHasCc(p: CorePc) { p.InCc? || p.Ready? || p.Holding? }

  ghost predicate CoreHasFl(p: CorePc) { p.Enter? || p.Holding? || p.Writing? || p.HalfWritten? || p.Written? }

  ghost predicate InvHasCc(p: InvPc) { p.HasCc? || p.HasBoth? || p.Cleared? }

  ghost predicate InvHasFl(p: InvPc) { p.HasBoth? || p.Cleared? || p.Applied? }

  ghost predicate Locks(s: St) {
    && (s.cc == Core <==> CoreHasCc(s.core)) && (s.fl == Core <==> CoreHasFl(s.core))
    && forall n :: InvLocks(s, n)
  }

  ghost predicate InvLocks(s: St, n: nat) { (s.cc == Inv(n) <==> InvHasCc(s.inv(n))) && (s.fl == Inv(n) <==> InvHasFl(s.inv(n))) }

  /** The entry a replacement is about to overwrite: it may name a line that is already gone. */
  ghost predicate Stale(c: Config, p: CorePc, i: nat) {
    && !p.Idle? && !p.Enter? && !p.Written? && c.index(p.op.v) == i
  }

  ghost predicate InPlace(c: Config, e: Entry, i: nat) { -1 <= e.rd && (e.rd > 0 ==> c.index(e.rd) == i) }

  /** What an entry promises of the L1. */
  ghost predicate Good(c: Config, l1: int -> State, e: Entry) {
    && (e.rd > 0 ==> l1(c.phys(e.rd)) != Mesi.I)
    && (e.wr == 0 || e.wr == -1 || (e.wr == e.rd && l1(c.phys(e.wr)) == Mesi.M))
  }

  ghost predicate EntryOk(c: Config, s: St, i: nat)
    requires i < |s.filter|
  {
    InPlace(c, s.filter[i], i) && (Stale(c, s.core, i) || Good(c, s.l1, s.filter[i]))
  }

  ghost predicate CoreOk(c: Config, s: St) {
    && (!s.core.Idle? ==> 0 <= s.core.op.v && c.index(s.core.op.v) < |s.filter|)
    && (s.core.Evicting? ==> c.index(s.core.victim) == c.index(s.core.op.v))
    && (s.core.Ready? || s.core.Holding? || s.core.Writing? || s.core.HalfWritten? || s.core.Written? ==>
          !NeedsGrant(s.l1(c.phys(s.core.op.v)), s.core.op) && (!s.core.op.load ==> s.l1(c.phys(s.core.op.v)) == Mesi.M))
    && (s.core.HalfWritten? || s.core.Written? ==> s.filter[c.index(s.core.op.v)].wr == if s.core.op.load then -1 else s.core.op.v)
    && (s.core.Written? ==> s.filter[c.index(s.core.op.v)].rd == s.core.op.v)
  }

  /** Past this point the invalidated line is in no entry. */
  ghost predicate InvOk(c: Config, s: St, n: nat) {
    && (InvHasCc(s.inv(n)) ==> s.inv(n).line != c.phys(-1))
    && (s.inv(n).Cleared? ==>
          var i := c.index(s.inv(n).line); i < |s.filter| && c.phys(s.filter[i].rd) != s.inv(n).line)
  }

  ghost predicate Coherent(c: Config, s: St) {
    && c.Valid() && |s.filter| == c.numSets && Locks(s) && CoreOk(c, s)
    && (forall i :: 0 <= i < |s.filter| ==> EntryOk(c, s, i))
    && (forall n :: InvOk(c, s, n))
  }

  // ---------------------------------------------------------------- every step keeps it

  lemma LocksKept(c: Config, s: St, a: Step)
    requires Coherent(c, s) && Enabled(c, s, a)
    ensures Locks(Apply(c, s, a))
  {
    var t := Apply(c, s, a);
    if a.InvBegin? || a.InvFilter? || a.InvClear? || a.InvApply? || a.InvLeave? { assert InvLocks(s, a.n); }
    forall n ensures InvLocks(t, n) { assert InvLocks(s, n); }
  }

  lemma CoreKept(c: Config, s: St, a: Step)
    requires Coherent(c, s) && Enabled(c, s, a)
    ensures CoreOk(c, Apply(c, s, a))
  {
    if a.InvClear? || a.InvApply? { assert InvLocks(s, a.n); }
  }

  lemma EntriesKept(c: Config, s: St, a: Step, i: nat)
    requires Coherent(c, s) && Enabled(c, s, a) && i < |s.filter|
    ensures |Apply(c, s, a).filter| == |s.filter| && EntryOk(c, Apply(c, s, a), i)
  {
    assert EntryOk(c, s, i);
    if a.InvClear? || a.InvApply? { assert InvLocks(s, a.n) && InvOk(c, s, a.n); }
  }

  lemma InvsKept(c: Config, s: St, a: Step, n: nat)
    requires Coherent(c, s) && Enabled(c, s, a)
    ensures InvOk(c, Apply(c, s, a), n)
  {
    assert InvOk(c, s, n) && InvLocks(s, n);
    if a.InvClear? { assert InvLocks(s, a.n) && EntryOk(c, s, c.index(s.inv(a.n).line)); }
  }

  lemma StepInv(c: Config, s: St, a: Step)
    requires Coherent(c, s) && Enabled(c, s, a)
    ensures Coherent(c, Apply(c, s, a))
  {
    var t := Apply(c, s, a);
    LocksKept(c, s, a);
    CoreKept(c, s, a);
    forall i | 0 <= i < |t.filter| ensures EntryOk(c, t, i) { EntriesKept(c, s, a, i); }
    forall n ensures InvOk(c, t, n) { InvsKept(c, s, a, n); }
  }

  /** An entry stays until the core replaces it, a context switch clears it, or its own line is invalidated; and the
      invalidation of its line does clear it. */
  lemma EntryStays(c: Config, s: St, a: Step, i: nat)
    requires Coherent(c, s) && Enabled(c, s, a) && i < |s.filter|
    ensures |Apply(c, s, a).filter| == |s.filter|
    ensures Apply(c, s, a).filter[i] != s.filter[i] ==>
      || ((a.WriteWr? || a.WriteRd?) && c.index(s.core.op.v) == i)
      || a == SwitchClear(i)
      || (a.InvClear? && c.phys(s.filter[i].rd) == s.inv(a.n).line)
    ensures a.InvClear? && c.phys(s.filter[i].rd) == s.inv(a.n).line && s.filter[i].rd > 0 ==> Apply(c, s, a).filter[i] == Entry(-1, -1)
  {
    assert EntryOk(c, s, i);
    if a.InvClear? { assert EntryOk(c, s, c.index(s.inv(a.n).line)); }
  }

  // ---------------------------------------------------------------- whole runs

  ghost predicate Run(c: Config, run: seq<St>, steps: seq<Step>) {
    && |run| == |steps| + 1 && Init(c, run[0])
    && forall k :: 0 <= k < |steps| ==> Enabled(c, run[k], steps[k]) && run[k + 1] == Apply(c, run[k], steps[k])
  }

  lemma {:induction false} RunInv(c: Config, run: seq<St>, steps: seq<Step>, k: nat)
    requires c.Valid() && Run(c, run, steps) && k < |run|
    ensures Coherent(c, run[k])
  {
    if k == 0 {
      assert forall i :: 0 <= i < c.numSets ==> EntryOk(c, run[0], i);
    } else {
      RunInv(c, run, steps, k - 1);
      StepInv(c, run[k - 1], steps[k - 1]);
    }
  }

  /** A hit tells the truth about the L1. */
  ghost predicate Truthful(c: Config, s: St, op: Op)
    requires c.index(op.v) < |s.filter|
  {
    s.core.Idle? && Hit(c, s, op) ==> if op.load then s.l1(c.phys(op.v)) != Mesi.I else s.l1(c.phys(op.v)) == Mesi.M
  }

  lemma HitsTruthful(c: Config, run: seq<St>, steps: seq<Step>, k: nat, op: Op)
    requires c.Valid() && Run(c, run, steps) && k < |run| && op.v > 0
    ensures c.index(op.v) < |run[k].filter| && Truthful(c, run[k], op)
  {
    RunInv(c, run, steps, k);
    assert EntryOk(c, run[k], c.index(op.v));
  }

  /** An access that has gone through replace finds its line held for as long as the filter lock is. */
  lemma ReplaceSecures(c: Config, run: seq<St>, steps: seq<Step>, k: nat)
    requires c.Valid() && Run(c, run, steps) && k < |run| && run[k].core.Written?
    ensures var op := run[k].core.op;
      && c.index(op.v) < |run[k].filter|
      && run[k].filter[c.index(op.v)] == Entry(op.v, if op.load then -1 else op.v)
      && (if op.load then run[k].l1(c.phys(op.v)) != Mesi.I else run[k].l1(c.phys(op.v)) == Mesi.M)
  {
    RunInv(c, run, steps, k);
  }

  ghost predicate AlwaysTruthful(c: Config, op: Op) {
    forall run: seq<St>, steps, k :: Run(c, run, steps) && 0 <= k < |run| && c.index(op.v) < |run[k].filter| ==> Truthful(c, run[k], op)
  }

  /** Hits can be trusted exactly for lines other than 0, the value of a cleared entry. */
  lemma TrustedExactly(c: Config, op: Op)
    requires c.Valid() && 0 <= op.v
    ensures AlwaysTruthful(c, op) <==> op.v != 0
  {
    if op.v != 0 {
      forall run: seq<St>, steps, k | Run(c, run, steps) && 0 <= k < |run| ensures c.index(op.v) < |run[k].filter| && Truthful(c, run[k], op) {
        HitsTruthful(c, run, steps, k, op);
      }
    } else {
      var s := St(seq(c.numSets, _ => Entry(0, 0)), _ => Mesi.I, Idle, _ => Away, Nobody, Nobody);
      assert Run(c, [s], []) && c.index(op.v) < |[s][0].filter|;
      assert !Truthful(c, [s][0], op);
    }
  }
}
