/** One cache line in an inclusive MESI hierarchy of any depth and any fan-out.

    Caches are numbered 0..N-1 so that a parent has a smaller number than its children; cache 0 is
    the last level and talks to memory.  Every cache has a bottom state (its permissions with respect
    to its parent), a directory entry for its children, and at most one outstanding request.  A cache
    gives up its own lock while its request waits, so invalidations may reach it in between. */
module Mesi {
  datatype State = I | S | E | M
  datatype Access = GETS | GETX | PUTS | PUTX

  type Node = nat

  predicate IsGet(t: Access) { t.GETS? || t.GETX? }
  predicate Owned(x: State) { x.E? || x.M? }

  /** MESITopCC::Entry. */
  datatype Entry = Entry(numSharers: int, sharers: set<Node>, exclusive: bool) {
    predicate IsEmpty() { numSharers == 0 }
    predicate IsExclusive() { numSharers == 1 && exclusive }

    /** What an INV pass leaves behind: the exclusive bit stays as it was. */
    function Cleared(): Entry { this.(numSharers := 0, sharers := {}) }
    function Downgraded(): Entry { if IsExclusive() then this.(exclusive := false) else this }
    function Without(c: Node): Entry { Entry(numSharers - 1, sharers - {c}, exclusive) }
    function With(c: Node, excl: bool): Entry { Entry(numSharers + 1, sharers + {c}, excl) }
  }

  /** Whom a cache is working for while its own request is outstanding. */
  datatype Client = Core | Child(c: Node) | Evict

  /** Wait: request sent up, own lock released, parent not yet done.
      Ready: the parent has answered and the cache holds its locks again. */
  datatype Op = Idle | Wait(t: Access, init: State, client: Client) | Ready(t: Access, client: Client)

  datatype Topology = Topology(parent: seq<nat>) {
    ghost predicate Valid() {
      && |parent| > 0
      && forall c :: 0 < c < |parent| ==> parent[c] < c
    }
  }

  datatype Line = Line(st: seq<State>, dir: seq<Entry>, op: seq<Op>, present: set<Node>, dirty: bool)

  ghost predicate Shape(T: Topology, s: Line) {
    T.Valid() && |s.st| == |s.dir| == |s.op| == |T.parent|
  }

  // ---------------------------------------------------------------- invalidation of a subtree

  /** n is reached by the INV messages that p sends to its sharers. */
  ghost predicate Hit(T: Topology, dir: seq<Entry>, p: Node, n: Node)
    requires T.Valid() && |dir| == |T.parent| && n < |dir|
    decreases n
  {
    n > 0 && n in dir[T.parent[n]].sharers && (T.parent[n] == p || Hit(T, dir, p, T.parent[n]))
  }

  /** n is reached by the INVX messages that start at p: only exclusive holders are downgraded. */
  ghost predicate HitX(T: Topology, dir: seq<Entry>, p: Node, n: Node)
    requires T.Valid() && |dir| == |T.parent| && n < |dir|
    decreases n
  {
    && n > 0
    && n in dir[T.parent[n]].sharers && dir[T.parent[n]].IsExclusive()
    && (T.parent[n] == p || HitX(T, dir, p, T.parent[n]))
  }

  ghost function InvBelow(T: Topology, s: Line, p: Node): (r: Line)
    requires Shape(T, s) && p < |s.st|
  {
    s.(st := seq(|s.st|, n requires 0 <= n < |s.st| => if Hit(T, s.dir, p, n) then I else s.st[n]),
       dir := seq(|s.dir|, n requires 0 <= n < |s.dir| =>
                    if n == p || Hit(T, s.dir, p, n) then s.dir[n].Cleared() else s.dir[n]))
  }

  ghost function InvxBelow(T: Topology, s: Line, p: Node): (r: Line)
    requires Shape(T, s) && p < |s.st|
  {
    s.(st := seq(|s.st|, n requires 0 <= n < |s.st| => if HitX(T, s.dir, p, n) then S else s.st[n]),
       dir := seq(|s.dir|, n requires 0 <= n < |s.dir| =>
                    if n == p || HitX(T, s.dir, p, n) then s.dir[n].Downgraded() else s.dir[n]))
  }

  /** The reqWriteback flag after an INV (INVX) pass below p. */
  ghost predicate InvWriteback(T: Topology, s: Line, p: Node)
    requires Shape(T, s) && p < |s.st|
  {
    exists n :: 0 <= n < |s.st| && Hit(T, s.dir, p, n) && s.st[n].M?
  }

  ghost predicate InvxWriteback(T: Topology, s: Line, p: Node)
    requires Shape(T, s) && p < |s.st|
  {
    exists n :: 0 <= n < |s.st| && HitX(T, s.dir, p, n) && s.st[n].M?
  }

  /** processWritebackOnAccess, and the first lines of processEviction. */
  function Absorb(s: Line, p: Node, writeback: bool): Line
    requires p < |s.st|
  {
    if writeback then s.(st := s.st[p := M]) else s
  }

  // ---------------------------------------------------------------- the steps

  /** Result of CheckForMESIRace; Fail is an assertion failure or the panic. */
  datatype Race = Skip | Go(t: Access) | Fail

  function CheckRace(t: Access, st: State, init: State): Race {
    if st == init then Go(t)
    else match t
      case PUTS => if st.I? then Skip else if st.S? then Go(PUTS) else Fail
      case PUTX => if st.I? then Skip else if st.S? then Go(PUTS) else Fail
      case GETX => if init.S? && st.I? then Go(GETX) else Fail
      case GETS => Fail
  }

  /** An upgrading sharer is taken out of the sharer list before the others are invalidated. */
  function TakeOut(s: Line, p: Node, c: Node): Line
    requires p < |s.dir|
  {
    if c in s.dir[p].sharers then s.(dir := s.dir[p := s.dir[p].Without(c)]) else s
  }

  /** MESITopCC::processAccess for a GET, with the write-back it may induce in p. */
  ghost function Grant(T: Topology, s: Line, p: Node, c: Node, t: Access, noExcl: bool): (r: Line)
    requires Shape(T, s) && p < |s.st| && c < |s.st|
  {
    if t.GETS? then
      if s.dir[p].IsEmpty() && Owned(s.st[p]) && !noExcl then
        s.(dir := s.dir[p := Entry(1, s.dir[p].sharers + {c}, true)], st := s.st[c := E])
      else
        var s1 := if s.dir[p].IsExclusive() then Absorb(InvxBelow(T, s, p), p, InvxWriteback(T, s, p)) else s;
        s1.(dir := s1.dir[p := s1.dir[p].With(c, false)], st := s1.st[c := S])
    else
      var s0 := TakeOut(s, p, c);
      var s1 := Absorb(InvBelow(T, s0, p), p, InvWriteback(T, s0, p));
      s1.(dir := s1.dir[p := s1.dir[p].With(c, true)], st := s1.st[c := M])
  }

  /** c's request has been granted: c owns its locks again and goes on with its client. */
  function Granted(s: Line, c: Node): Line
    requires c < |s.op| && s.op[c].Wait?
  {
    s.(op := s.op[c := Ready(s.op[c].t, s.op[c].client)])
  }

  /** c's PUT is over: the slot is handed to another line. */
  function PutDone(s: Line, c: Node): Line
    requires c < |s.op|
  {
    s.(op := s.op[c := Idle], present := s.present - {c})
  }

  ghost function StartPut(T: Topology, s: Line, c: Node, t: Access): Line
    requires Shape(T, s) && 0 < c < |s.st|
  {
    var p := T.parent[c];
    var st := if t.PUTX? && s.st[p].E? then s.st[p := M] else s.st;
    PutDone(s.(st := st[c := I], dir := s.dir[p := s.dir[p].Without(c)]), c)
  }

  ghost function StartGet(T: Topology, s: Line, c: Node, t: Access, noExcl: bool): Line
    requires Shape(T, s) && 0 < c < |s.st| && s.op[c].Wait?
  {
    var p := T.parent[c];
    var s1 := s.(present := s.present + {p});
    if !Suffices(s.st[p], t) then s1.(op := s1.op[p := Wait(t, s.st[p], Child(c))])
    else if t.GETS? then Granted(Grant(T, s1, p, c, t, noExcl), c)
    else Granted(Grant(T, s1.(st := s1.st[p := M]), p, c, t, noExcl), c)
  }

  datatype Step =
    | CoreAccess(n: Node, t: Access)     // a load or store reaches terminal cache n
    | Start(c: Node, noExcl: bool)       // the parent of c takes its locks and handles c's request
    | Deliver(p: Node, c: Node, noExcl: bool) // p, having been answered, serves child c
    | CoreDone(n: Node)                  // n, having been answered, serves its core
    | EvictLine(n: Node)                 // n needs the slot for another line
    | Memory(noExcl: bool)               // memory answers the last-level cache

  /** p's own permissions suffice to answer t without asking its parent. */
  predicate Suffices(x: State, t: Access) { if t.GETS? then !x.I? else Owned(x) }

  /** No cache that must receive an invalidation holds its lock. */
  ghost predicate InvUnlocked(T: Topology, s: Line, p: Node)
    requires Shape(T, s) && p < |s.st|
  {
    forall n :: 0 <= n < |s.st| && Hit(T, s.dir, p, n) ==> !s.op[n].Ready?
  }

  ghost predicate InvxUnlocked(T: Topology, s: Line, p: Node)
    requires Shape(T, s) && p < |s.st|
  {
    forall n :: 0 <= n < |s.st| && HitX(T, s.dir, p, n) ==> !s.op[n].Ready?
  }

  ghost predicate GrantUnlocked(T: Topology, s: Line, p: Node, c: Node, t: Access)
    requires Shape(T, s) && p < |s.st|
  {
    if t.GETS? then InvxUnlocked(T, s, p) else InvUnlocked(T, TakeOut(s, p, c), p)
  }

  ghost predicate Enabled(T: Topology, s: Line, a: Step)
    requires Shape(T, s)
  {
    match a
    case CoreAccess(n, t) => n < |s.st| && s.op[n].Idle? && IsGet(t) && forall c :: 0 < c < |s.st| ==> T.parent[c] != n
    case Start(c, _) =>
      && 0 < c < |s.st| && s.op[c].Wait? && s.op[T.parent[c]].Idle?
      && (IsGet(s.op[c].t) && Suffices(s.st[T.parent[c]], s.op[c].t) ==> GrantUnlocked(T, s, T.parent[c], c, s.op[c].t))
    case Deliver(p, c, _) =>
      && p < |s.st| && c < |s.st| && s.op[p].Ready? && s.op[p].client == Child(c)
      && s.op[c].Wait? && GrantUnlocked(T, s, p, c, s.op[p].t)
    case CoreDone(n) => n < |s.st| && s.op[n].Ready? && s.op[n].client.Core?
    case EvictLine(n) => n < |s.st| && s.op[n].Idle? && n in s.present && InvUnlocked(T, s, n)
    case Memory(_) => s.op[0].Wait?
  }

  ghost function ApplyCoreAccess(s: Line, n: Node, t: Access): Line
    requires n < |s.st| && |s.op| == |s.st|
  {
    var s1 := s.(present := s.present + {n});
    if t.GETS? && !s.st[n].I? then s1
    else if t.GETX? && Owned(s.st[n]) then s1.(st := s1.st[n := M], dirty := true)
    else s1.(op := s1.op[n := Wait(t, s.st[n], Core)])
  }

  ghost function ApplyDeliver(T: Topology, s: Line, p: Node, c: Node, noExcl: bool): Line
    requires Shape(T, s) && p < |s.st| && c < |s.st| && s.op[p].Ready? && s.op[c].Wait?
  {
    Granted(Grant(T, s.(op := s.op[p := Idle]), p, c, s.op[p].t, noExcl), c)
  }

  /** The second half of an eviction: drop an invalid line, or send a PUT for a valid one. */
  function SendPut(s: Line, n: Node): Line
    requires n < |s.st| && |s.op| == |s.st|
  {
    if s.st[n].I? then s.(present := s.present - {n})
    else s.(op := s.op[n := Wait(if s.st[n].M? then PUTX else PUTS, s.st[n], Evict)])
  }

  ghost function ApplyEvict(T: Topology, s: Line, n: Node): Line
    requires Shape(T, s) && n < |s.st|
  {
    SendPut(Absorb(InvBelow(T, s, n), n, InvWriteback(T, s, n)), n)
  }

  ghost function ApplyMemory(s: Line, noExcl: bool): Line
    requires |s.st| > 0 && |s.op| == |s.st| && s.op[0].Wait?
  {
    match s.op[0].t
    case GETS => Granted(s.(st := s.st[0 := if noExcl then S else E]), 0)
    case GETX => Granted(s.(st := s.st[0 := M]), 0)
    case PUTS => PutDone(s.(st := s.st[0 := I]), 0)
    case PUTX => PutDone(s.(st := s.st[0 := I], dirty := false), 0)
  }

  ghost function Apply(T: Topology, s: Line, a: Step): Line
    requires Shape(T, s) && Enabled(T, s, a)
  {
    match a
    case CoreAccess(n, t) => ApplyCoreAccess(s, n, t)
    case Start(c, noExcl) =>
      (match CheckRace(s.op[c].t, s.st[c], s.op[c].init)
       case Skip => PutDone(s, c)
       case Go(t) => if IsGet(t) then StartGet(T, s, c, t, noExcl) else StartPut(T, s, c, t)
       case Fail => s)
    case Deliver(p, c, noExcl) => ApplyDeliver(T, s, p, c, noExcl)
    case CoreDone(n) => s.(op := s.op[n := Idle], dirty := s.dirty || s.op[n].t.GETX?)
    case EvictLine(n) => ApplyEvict(T, s, n)
    case Memory(noExcl) => ApplyMemory(s, noExcl)
  }

  // ---------------------------------------------------------------- what every step keeps

  ghost predicate EntryOk(T: Topology, e: Entry, n: Node) {
    && (forall c :: c in e.sharers ==> 0 < c < |T.parent| && T.parent[c] == n)
    && e.numSharers == |e.sharers|
    && (e.numSharers >= 2 ==> !e.exclusive)
  }

  /** Directory entry e and state ps of the parent against the state cs of child c. */
  predicate EdgeOk(e: Entry, ps: State, c: Node, cs: State) {
    && (c in e.sharers <==> !cs.I?)
    && (Owned(cs) ==> e.exclusive && Owned(ps))
    && (c in e.sharers && e.IsExclusive() ==> Owned(cs))
    && (!cs.I? ==> !ps.I?)
  }

  ghost predicate LocalOk(T: Topology, s: Line, n: Node)
    requires Shape(T, s) && n < |s.st|
  {
    && EntryOk(T, s.dir[n], n)
    && (n > 0 ==> EdgeOk(s.dir[T.parent[n]], s.st[T.parent[n]], n, s.st[n]))
    && (!s.st[n].I? ==> n in s.present)
  }

  ghost predicate ClientOk(T: Topology, s: Line, n: Node, t: Access, client: Client)
    requires Shape(T, s) && n < |s.st|
  {
    && IsGet(t) && !client.Evict?
    && (client.Child? ==>
          && 0 < client.c < |s.st| && T.parent[client.c] == n
          && s.op[client.c].Wait? && s.op[client.c].t == t)
  }

  ghost predicate OpOk(T: Topology, s: Line, n: Node)
    requires Shape(T, s) && n < |s.st|
  {
    match s.op[n]
    case Idle => true
    case Wait(t, init, client) =>
      && n in s.present
      && (match t
          case GETS => ClientOk(T, s, n, t, client) && init.I? && s.st[n].I?
          case GETX => ClientOk(T, s, n, t, client) && (init.I? || init.S?) && (s.st[n] == init || s.st[n].I?)
          case PUTS => client.Evict? && s.dir[n].sharers == {} && (init.S? || init.E?) && (s.st[n] == init || s.st[n].S? || s.st[n].I?)
          case PUTX => client.Evict? && s.dir[n].sharers == {} && init.M? && (s.st[n].M? || s.st[n].S? || s.st[n].I?))
    case Ready(t, client) =>
      ClientOk(T, s, n, t, client) && (if t.GETS? then s.st[n].S? || s.st[n].E? else s.st[n].M?)
  }

  ghost predicate NodeOk(T: Topology, s: Line, n: Node)
    requires Shape(T, s) && n < |s.st|
  {
    LocalOk(T, s, n) && OpOk(T, s, n)
  }

  ghost predicate Coherent(T: Topology, s: Line) {
    Shape(T, s) && forall n :: 0 <= n < |s.st| ==> NodeOk(T, s, n)
  }

  /** Written data that memory does not have yet is held in M by some cache. */
  ghost predicate DirtyHeld(s: Line) {
    s.dirty ==> exists n :: 0 <= n < |s.st| && s.st[n].M?
  }

  ghost predicate Inv(T: Topology, s: Line) { Coherent(T, s) && DirtyHeld(s) }

  ghost predicate Init(T: Topology, s: Line) {
    && Shape(T, s)
    && (forall n :: 0 <= n < |s.st| ==> s.st[n].I? && s.dir[n] == Entry(0, {}, false) && s.op[n].Idle?)
    && s.present == {} && !s.dirty
  }

  // ---------------------------------------------------------------- subtree lemmas

  lemma {:induction false} HitAbove(T: Topology, dir: seq<Entry>, p: Node, n: Node)
    requires T.Valid() && |dir| == |T.parent| && n < |dir|
    ensures Hit(T, dir, p, n) ==> p < n
    ensures HitX(T, dir, p, n) ==> p < n
    decreases n
  {
    if n > 0 && T.parent[n] != p { HitAbove(T, dir, p, T.parent[n]); }
  }

  /** An owner reached by p's INVs means p is an owner too. */
  lemma {:induction false} HitOwned(T: Topology, s: Line, p: Node, n: Node)
    requires Coherent(T, s) && p < |s.st| && n < |s.st|
    requires (Hit(T, s.dir, p, n) || HitX(T, s.dir, p, n)) && Owned(s.st[n])
    ensures Owned(s.st[p])
    decreases n
  {
    assert NodeOk(T, s, n);
    if T.parent[n] != p { HitOwned(T, s, p, T.parent[n]); }
  }

  /** A waiting cache may be invalidated or downgraded; a Ready one may not. */
  predicate MayBecome(op: Op, x: State, x': State) {
    x' == x || op.Idle? || (op.Wait? && (x'.I? || (Owned(x) && x'.S?)))
  }

  lemma OpFrame(T: Topology, s: Line, s': Line, n: Node)
    requires Shape(T, s) && Shape(T, s') && n < |s.st| && OpOk(T, s, n)
    requires s'.op[n] == s.op[n] && MayBecome(s.op[n], s.st[n], s'.st[n])
    requires s.op[n].Idle? || forall d :: 0 < d < |s.st| && T.parent[d] == n && s.op[d].Wait? ==> s'.op[d] == s.op[d]
    requires s.op[n].Idle? || s'.dir[n].sharers <= s.dir[n].sharers
    requires n in s.present ==> n in s'.present
    ensures OpOk(T, s', n)
  {
  }

  lemma InvNode(T: Topology, s: Line, p: Node, n: Node)
    requires Coherent(T, s) && p < |s.st| && InvUnlocked(T, s, p) && n < |s.st|
    ensures NodeOk(T, InvBelow(T, s, p), n)
  {
    assert NodeOk(T, s, n);
    HitAbove(T, s.dir, p, p);
    OpFrame(T, s, InvBelow(T, s, p), n);
  }

  lemma InvxNode(T: Topology, s: Line, p: Node, n: Node)
    requires Coherent(T, s) && p < |s.st| && InvxUnlocked(T, s, p) && n < |s.st|
    ensures NodeOk(T, InvxBelow(T, s, p), n)
  {
    assert NodeOk(T, s, n);
    HitAbove(T, s.dir, p, p);
    if n > 0 && Owned(s.st[n]) { SoleSharer(T, s, n); }
    OpFrame(T, s, InvxBelow(T, s, p), n);
  }

  lemma SoleSharer(T: Topology, s: Line, c: Node)
    requires Coherent(T, s) && 0 < c < |s.st| && Owned(s.st[c])
    ensures s.dir[T.parent[c]].sharers == {c} && s.dir[T.parent[c]].IsExclusive()
  {
    assert NodeOk(T, s, c) && NodeOk(T, s, T.parent[c]);
    Sole(T, s.dir[T.parent[c]], T.parent[c], c);
  }

  lemma Sole(T: Topology, e: Entry, p: Node, c: Node)
    requires EntryOk(T, e, p) && c in e.sharers && e.exclusive
    ensures e.sharers == {c} && e.IsExclusive()
  {
    assert e.sharers == {c} + (e.sharers - {c});
  }

  lemma InvKeeps(T: Topology, s: Line, p: Node)
    requires Coherent(T, s) && p < |s.st| && InvUnlocked(T, s, p)
    ensures Coherent(T, InvBelow(T, s, p))
    ensures InvBelow(T, s, p).dir[p].sharers == {} && InvBelow(T, s, p).st[p] == s.st[p]
  {
    HitAbove(T, s.dir, p, p);
    forall n | 0 <= n < |s.st| ensures NodeOk(T, InvBelow(T, s, p), n) { InvNode(T, s, p, n); }
  }

  lemma InvxKeeps(T: Topology, s: Line, p: Node)
    requires Coherent(T, s) && p < |s.st| && InvxUnlocked(T, s, p)
    ensures Coherent(T, InvxBelow(T, s, p))
    ensures !InvxBelow(T, s, p).dir[p].IsExclusive() && InvxBelow(T, s, p).st[p] == s.st[p]
  {
    HitAbove(T, s.dir, p, p);
    forall n | 0 <= n < |s.st| ensures NodeOk(T, InvxBelow(T, s, p), n) { InvxNode(T, s, p, n); }
  }

  // ---------------------------------------------------------------- what each step keeps

  /** E->M, or an induced write-back absorbed by an owner, is invisible to everyone else. */
  lemma UpgradeKeeps(T: Topology, s: Line, p: Node)
    requires Coherent(T, s) && p < |s.st| && Owned(s.st[p]) && s.op[p].Idle?
    ensures Coherent(T, s.(st := s.st[p := M]))
  {
    var r := s.(st := s.st[p := M]);
    forall n | 0 <= n < |s.st| ensures NodeOk(T, r, n) { assert NodeOk(T, s, n); }
  }

  lemma PresentKeeps(T: Topology, s: Line, p: Node)
    requires Coherent(T, s)
    ensures Coherent(T, s.(present := s.present + {p}))
  {
    var r := s.(present := s.present + {p});
    forall n | 0 <= n < |s.st| ensures NodeOk(T, r, n) { assert NodeOk(T, s, n); }
  }

  lemma IdleKeeps(T: Topology, s: Line, p: Node)
    requires Coherent(T, s) && p < |s.st| && s.op[p].Ready?
    ensures Coherent(T, s.(op := s.op[p := Idle]))
  {
    var r := s.(op := s.op[p := Idle]);
    forall n | 0 <= n < |s.st| ensures NodeOk(T, r, n) { assert NodeOk(T, s, n); }
  }

  /** Everything about pending requests in a grant by p to c. */
  lemma GrantOp(T: Topology, s: Line, s': Line, p: Node, c: Node, n: Node)
    requires Shape(T, s) && Shape(T, s') && 0 < c < |s.st| && T.parent[c] == p && n < |s.st|
    requires OpOk(T, s, n)
    requires s.op[c].Wait? && s.op[p].Idle? && s'.op == s.op[c := Ready(s.op[c].t, s.op[c].client)]
    requires IsGet(s.op[c].t) && (if s.op[c].t.GETS? then s'.st[c].S? || s'.st[c].E? else s'.st[c].M?)
    requires n != c ==> MayBecome(s.op[n], s.st[n], s'.st[n])
    requires n != p ==> s'.dir[n].sharers <= s.dir[n].sharers
    requires s'.present == s.present
    ensures OpOk(T, s', n)
  {
    if n == p {
    } else if n != c {
      OpFrame(T, s, s', n);
    }
  }

  lemma WithEntry(T: Topology, e: Entry, p: Node, c: Node, excl: bool)
    requires EntryOk(T, e, p) && 0 < c < |T.parent| && T.parent[c] == p && c !in e.sharers
    requires excl ==> e.sharers == {}
    ensures EntryOk(T, e.With(c, excl), p)
  {
  }

  /** c, waiting for a GETS, becomes a sharer of p. */
  lemma ShareNode(T: Topology, s: Line, p: Node, c: Node, n: Node)
    requires Shape(T, s) && 0 < c < |s.st| && T.parent[c] == p && n < |s.st|
    requires LocalOk(T, s, n) && LocalOk(T, s, c) && LocalOk(T, s, p)
    requires s.st[c].I? && c in s.present && !s.st[p].I? && !s.dir[p].IsExclusive()
    ensures LocalOk(T, s.(dir := s.dir[p := s.dir[p].With(c, false)], st := s.st[c := S]), n)
  {
    WithEntry(T, s.dir[p], p, c, false);
    if n > 0 && T.parent[n] == p && Owned(s.st[n]) { Sole(T, s.dir[p], p, n); }
  }

  /** c, waiting for a GETS, becomes the only sharer of p and gets E. */
  lemma GiveENode(T: Topology, s: Line, p: Node, c: Node, n: Node)
    requires Shape(T, s) && 0 < c < |s.st| && T.parent[c] == p && n < |s.st|
    requires LocalOk(T, s, n) && LocalOk(T, s, c) && LocalOk(T, s, p)
    requires s.st[c].I? && c in s.present && Owned(s.st[p]) && s.dir[p].IsEmpty()
    ensures LocalOk(T, s.(dir := s.dir[p := Entry(1, s.dir[p].sharers + {c}, true)], st := s.st[c := E]), n)
  {
    assert s.dir[p].sharers == {};
    WithEntry(T, s.dir[p], p, c, true);
  }

  /** After the INVX pass and its write-back, p is no longer exclusive. */
  lemma DowngradeKeeps(T: Topology, s: Line, p: Node)
    requires Coherent(T, s) && p < |s.st| && s.op[p].Idle? && InvxUnlocked(T, s, p)
    ensures var r := Absorb(InvxBelow(T, s, p), p, InvxWriteback(T, s, p));
      && Coherent(T, r) && !r.dir[p].IsExclusive() && (!s.st[p].I? ==> !r.st[p].I?)
      && r.op == s.op && r.present == s.present
  {
    InvxKeeps(T, s, p);
    if InvxWriteback(T, s, p) {
      var m :| 0 <= m < |s.st| && HitX(T, s.dir, p, m) && s.st[m].M?;
      HitOwned(T, s, p, m);
      UpgradeKeeps(T, InvxBelow(T, s, p), p);
    }
  }

  lemma ShareKeeps(T: Topology, s: Line, p: Node, c: Node)
    requires Coherent(T, s) && 0 < c < |s.st| && T.parent[c] == p
    requires s.op[c].Wait? && s.op[c].t.GETS? && s.op[p].Idle? && !s.st[p].I? && !s.dir[p].IsExclusive()
    ensures Coherent(T, Granted(s.(dir := s.dir[p := s.dir[p].With(c, false)], st := s.st[c := S]), c))
  {
    var r := Granted(s.(dir := s.dir[p := s.dir[p].With(c, false)], st := s.st[c := S]), c);
    forall n | 0 <= n < |s.st| ensures NodeOk(T, r, n) {
      assert NodeOk(T, s, n) && NodeOk(T, s, c) && NodeOk(T, s, p);
      ShareNode(T, s, p, c, n);
      GrantOp(T, s, r, p, c, n);
    }
  }

  lemma GiveEKeeps(T: Topology, s: Line, p: Node, c: Node)
    requires Coherent(T, s) && 0 < c < |s.st| && T.parent[c] == p
    requires s.op[c].Wait? && s.op[c].t.GETS? && s.op[p].Idle? && Owned(s.st[p]) && s.dir[p].IsEmpty()
    ensures Coherent(T, Granted(s.(dir := s.dir[p := Entry(1, s.dir[p].sharers + {c}, true)], st := s.st[c := E]), c))
  {
    var r := Granted(s.(dir := s.dir[p := Entry(1, s.dir[p].sharers + {c}, true)], st := s.st[c := E]), c);
    forall n | 0 <= n < |s.st| ensures NodeOk(T, r, n) {
      assert NodeOk(T, s, n) && NodeOk(T, s, c) && NodeOk(T, s, p);
      GiveENode(T, s, p, c, n);
      GrantOp(T, s, r, p, c, n);
    }
  }

  lemma GrantSKeeps(T: Topology, s: Line, p: Node, c: Node, noExcl: bool)
    requires Coherent(T, s) && 0 < c < |s.st| && T.parent[c] == p
    requires s.op[c].Wait? && s.op[c].t.GETS? && s.op[p].Idle? && !s.st[p].I?
    requires InvxUnlocked(T, s, p)
    ensures Coherent(T, Granted(Grant(T, s, p, c, GETS, noExcl), c))
  {
    if s.dir[p].IsEmpty() && Owned(s.st[p]) && !noExcl {
      GiveEKeeps(T, s, p, c);
    } else if s.dir[p].IsExclusive() {
      DowngradeKeeps(T, s, p);
      ShareKeeps(T, Absorb(InvxBelow(T, s, p), p, InvxWriteback(T, s, p)), p, c);
    } else {
      ShareKeeps(T, s, p, c);
    }
  }

  lemma TakeOutHit(T: Topology, s: Line, p: Node, c: Node)
    requires Shape(T, s) && 0 < c < |s.st| && T.parent[c] == p
    ensures !Hit(T, TakeOut(s, p, c).dir, p, c)
  {
    HitAbove(T, TakeOut(s, p, c).dir, p, p);
  }

  /** The state after a GETX, cache by cache. */
  lemma GrantXAt(T: Topology, s: Line, p: Node, c: Node, noExcl: bool, n: Node)
    requires Shape(T, s) && 0 < c < |s.st| && T.parent[c] == p && n < |s.st| && s.st[p].M?
    ensures var r, d0 := Grant(T, s, p, c, GETX, noExcl), TakeOut(s, p, c).dir;
      && Shape(T, r) && r.op == s.op && r.present == s.present && r.dirty == s.dirty
      && r.st[n] == (if n == c then M else if Hit(T, d0, p, n) then I else s.st[n])
      && r.dir[n] == (if n == p then Entry(1, {c}, true) else if Hit(T, d0, p, n) then s.dir[n].Cleared() else s.dir[n])
  {
    var s0 := TakeOut(s, p, c);
    HitAbove(T, s0.dir, p, p);
    var s1 := InvBelow(T, s0, p);
    assert s1.st[p] == M && Absorb(s1, p, true).st == s1.st;
    assert s1.dir[p].With(c, true) == Entry(1, {c}, true);
    assert Grant(T, s, p, c, GETX, noExcl) == s1.(dir := s1.dir[p := Entry(1, {c}, true)], st := s1.st[c := M]);
  }

  lemma GrantXNode(T: Topology, s: Line, p: Node, c: Node, noExcl: bool, n: Node)
    requires Shape(T, s) && 0 < c < |s.st| && T.parent[c] == p && n < |s.st| && s.st[p].M?
    requires LocalOk(T, s, n) && LocalOk(T, s, c) && LocalOk(T, s, p) && c in s.present
    ensures LocalOk(T, Grant(T, s, p, c, GETX, noExcl), n)
  {
    var d0 := TakeOut(s, p, c).dir;
    GrantXAt(T, s, p, c, noExcl, n);
    HitAbove(T, d0, p, p);
    TakeOutHit(T, s, p, c);
    if n > 0 { GrantXAt(T, s, p, c, noExcl, T.parent[n]); }
  }

  lemma GrantXKeeps(T: Topology, s: Line, p: Node, c: Node, noExcl: bool)
    requires Coherent(T, s) && 0 < c < |s.st| && T.parent[c] == p
    requires s.op[c].Wait? && s.op[c].t.GETX? && s.op[p].Idle? && s.st[p].M?
    requires InvUnlocked(T, TakeOut(s, p, c), p)
    ensures Coherent(T, Granted(Grant(T, s, p, c, GETX, noExcl), c))
  {
    var g := Grant(T, s, p, c, GETX, noExcl);
    var r := Granted(g, c);
    forall n | 0 <= n < |s.st| ensures NodeOk(T, r, n) {
      assert NodeOk(T, s, n) && NodeOk(T, s, c) && NodeOk(T, s, p);
      GrantXNode(T, s, p, c, noExcl, n);
      GrantXAt(T, s, p, c, noExcl, n);
      GrantXAt(T, s, p, c, noExcl, c);
      GrantOp(T, s, r, p, c, n);
    }
  }

  lemma PutNode(T: Topology, s: Line, c: Node, t: Access, n: Node)
    requires Shape(T, s) && 0 < c < |s.st| && n < |s.st| && !IsGet(t)
    requires LocalOk(T, s, n) && LocalOk(T, s, c) && LocalOk(T, s, T.parent[c])
    requires !s.st[c].I? && s.dir[c].sharers == {}
    ensures LocalOk(T, StartPut(T, s, c, t), n)
  {
    if n > 0 && T.parent[n] == T.parent[c] && Owned(s.st[n]) { Sole(T, s.dir[T.parent[c]], T.parent[c], n); }
  }

  lemma PutKeeps(T: Topology, s: Line, c: Node, t: Access)
    requires Coherent(T, s) && 0 < c < |s.st| && s.op[T.parent[c]].Idle?
    requires s.op[c].Wait? && s.op[c].client.Evict? && !s.st[c].I? && !IsGet(t)
    ensures Coherent(T, StartPut(T, s, c, t))
  {
    var r, p := StartPut(T, s, c, t), T.parent[c];
    forall n | 0 <= n < |s.st| ensures NodeOk(T, r, n) {
      assert NodeOk(T, s, n) && NodeOk(T, s, c) && NodeOk(T, s, p);
      PutNode(T, s, c, t, n);
      assert r.st[n] == s.st[n] || n == c || n == p;
      if n != c { OpFrame(T, s, r, n); }
    }
  }

  lemma SkipKeeps(T: Topology, s: Line, c: Node)
    requires Coherent(T, s) && c < |s.st| && s.op[c].Wait? && s.op[c].client.Evict? && s.st[c].I?
    requires c > 0 ==> s.op[T.parent[c]].Idle?
    ensures Coherent(T, PutDone(s, c))
  {
    var r := PutDone(s, c);
    forall n | 0 <= n < |s.st| ensures NodeOk(T, r, n) {
      assert NodeOk(T, s, n) && NodeOk(T, s, c);
      if n != c { OpFrame(T, s, r, n); }
    }
  }

  /** A cache that goes up on behalf of child c, or of its core, starts waiting. */
  lemma WaitKeeps(T: Topology, s: Line, p: Node, t: Access, client: Client)
    requires Coherent(T, s) && p < |s.st| && s.op[p].Idle? && p in s.present
    requires ClientOk(T, s, p, t, client) && !Suffices(s.st[p], t)
    ensures Coherent(T, s.(op := s.op[p := Wait(t, s.st[p], client)]))
  {
    var r := s.(op := s.op[p := Wait(t, s.st[p], client)]);
    forall n | 0 <= n < |s.st| ensures NodeOk(T, r, n) { assert NodeOk(T, s, n); }
  }

  lemma StartGetKeeps(T: Topology, s: Line, c: Node, t: Access, noExcl: bool)
    requires Coherent(T, s) && 0 < c < |s.st| && s.op[T.parent[c]].Idle?
    requires s.op[c].Wait? && IsGet(t) && s.op[c].t == t
    requires Suffices(s.st[T.parent[c]], t) ==> GrantUnlocked(T, s, T.parent[c], c, t)
    ensures Coherent(T, StartGet(T, s, c, t, noExcl))
  {
    var p := T.parent[c];
    PresentKeeps(T, s, p);
    var s1 := s.(present := s.present + {p});
    if !Suffices(s.st[p], t) {
      WaitKeeps(T, s1, p, t, Child(c));
    } else if t.GETS? {
      GrantSKeeps(T, s1, p, c, noExcl);
    } else {
      UpgradeKeeps(T, s1, p);
      var s2 := s1.(st := s1.st[p := M]);
      assert TakeOut(s2, p, c).dir == TakeOut(s, p, c).dir;
      GrantXKeeps(T, s2, p, c, noExcl);
    }
  }

  lemma DeliverKeeps(T: Topology, s: Line, p: Node, c: Node, noExcl: bool)
    requires Coherent(T, s) && Enabled(T, s, Deliver(p, c, noExcl))
    ensures Coherent(T, ApplyDeliver(T, s, p, c, noExcl))
  {
    assert NodeOk(T, s, p);
    IdleKeeps(T, s, p);
    var s1 := s.(op := s.op[p := Idle]);
    if s.op[p].t.GETS? {
      GrantSKeeps(T, s1, p, c, noExcl);
    } else {
      assert TakeOut(s1, p, c).dir == TakeOut(s, p, c).dir;
      GrantXKeeps(T, s1, p, c, noExcl);
    }
  }

  lemma StartKeeps(T: Topology, s: Line, c: Node, noExcl: bool)
    requires Coherent(T, s) && Enabled(T, s, Start(c, noExcl))
    ensures !CheckRace(s.op[c].t, s.st[c], s.op[c].init).Fail?
    ensures Coherent(T, Apply(T, s, Start(c, noExcl)))
  {
    assert NodeOk(T, s, c);
    match CheckRace(s.op[c].t, s.st[c], s.op[c].init)
    case Skip => SkipKeeps(T, s, c);
    case Go(t) => if IsGet(t) { StartGetKeeps(T, s, c, t, noExcl); } else { PutKeeps(T, s, c, t); }
  }

  lemma CoreKeeps(T: Topology, s: Line, n: Node, t: Access)
    requires Coherent(T, s) && n < |s.st| && s.op[n].Idle? && IsGet(t)
    ensures Coherent(T, ApplyCoreAccess(s, n, t))
  {
    PresentKeeps(T, s, n);
    var s1 := s.(present := s.present + {n});
    if !Suffices(s.st[n], t) {
      WaitKeeps(T, s1, n, t, Core);
    } else if t.GETX? {
      UpgradeKeeps(T, s1, n);
      var s2 := s1.(st := s1.st[n := M]);
      forall k | 0 <= k < |s.st| ensures NodeOk(T, s2.(dirty := true), k) { assert NodeOk(T, s2, k); }
    }
  }

  lemma CoreDoneKeeps(T: Topology, s: Line, n: Node)
    requires Coherent(T, s) && Enabled(T, s, CoreDone(n))
    ensures Coherent(T, Apply(T, s, CoreDone(n)))
  {
    IdleKeeps(T, s, n);
    var r := Apply(T, s, CoreDone(n));
    forall k | 0 <= k < |s.st| ensures NodeOk(T, r, k) { assert NodeOk(T, s.(op := s.op[n := Idle]), k); }
  }

  lemma SendPutKeeps(T: Topology, s: Line, n: Node)
    requires Coherent(T, s) && n < |s.st| && s.op[n].Idle? && n in s.present && s.dir[n].sharers == {}
    ensures Coherent(T, SendPut(s, n))
  {
    var r := SendPut(s, n);
    forall k | 0 <= k < |s.st| ensures NodeOk(T, r, k) {
      assert NodeOk(T, s, k) && NodeOk(T, s, n);
      if k != n { OpFrame(T, s, r, k); }
    }
  }

  lemma EvictKeeps(T: Topology, s: Line, n: Node)
    requires Coherent(T, s) && Enabled(T, s, EvictLine(n))
    ensures Coherent(T, ApplyEvict(T, s, n))
  {
    InvKeeps(T, s, n);
    if InvWriteback(T, s, n) {
      var m :| 0 <= m < |s.st| && Hit(T, s.dir, n, m) && s.st[m].M?;
      HitOwned(T, s, n, m);
      UpgradeKeeps(T, InvBelow(T, s, n), n);
    }
    SendPutKeeps(T, Absorb(InvBelow(T, s, n), n, InvWriteback(T, s, n)), n);
  }

  lemma MemoryKeeps(T: Topology, s: Line, noExcl: bool)
    requires Coherent(T, s) && s.op[0].Wait?
    ensures Coherent(T, ApplyMemory(s, noExcl))
  {
    var r := ApplyMemory(s, noExcl);
    forall k | 0 <= k < |s.st| ensures NodeOk(T, r, k) {
      assert NodeOk(T, s, k) && NodeOk(T, s, 0);
      if k != 0 { OpFrame(T, s, r, k); }
    }
  }

  lemma StepCoherent(T: Topology, s: Line, a: Step)
    requires Coherent(T, s) && Enabled(T, s, a)
    ensures Coherent(T, Apply(T, s, a))
  {
    match a
    case CoreAccess(n, t) => CoreKeeps(T, s, n, t);
    case Start(c, noExcl) => StartKeeps(T, s, c, noExcl);
    case Deliver(p, c, noExcl) => DeliverKeeps(T, s, p, c, noExcl);
    case CoreDone(n) => CoreDoneKeeps(T, s, n);
    case EvictLine(n) => EvictKeeps(T, s, n);
    case Memory(noExcl) => MemoryKeeps(T, s, noExcl);
  }

  // ---------------------------------------------------------------- dirty data

  /** A valid cache makes every cache above it valid, up to the last level. */
  lemma {:induction false} ValidUp(T: Topology, s: Line, n: Node)
    requires Coherent(T, s) && n < |s.st| && !s.st[n].I?
    ensures !s.st[0].I? && (n > 0 ==> s.dir[0].sharers != {})
    decreases n
  {
    assert NodeOk(T, s, n);
    if n > 0 { ValidUp(T, s, T.parent[n]); }
  }

  lemma GrantDirty(T: Topology, s: Line, p: Node, c: Node, t: Access, noExcl: bool)
    requires Coherent(T, s) && DirtyHeld(s) && 0 < c < |s.st| && T.parent[c] == p && s.op[c].Wait? && s.op[c].t == t
    requires IsGet(t) && (t.GETX? ==> s.st[p].M?)
    ensures DirtyHeld(Granted(Grant(T, s, p, c, t, noExcl), c))
  {
    var r := Granted(Grant(T, s, p, c, t, noExcl), c);
    if s.dirty {
      assert NodeOk(T, s, c);
      var m :| 0 <= m < |s.st| && s.st[m].M?;
      if t.GETX? {
        assert r.st[c].M?;
      } else if s.dir[p].IsExclusive() && HitX(T, s.dir, p, m) {
        assert InvxWriteback(T, s, p);
        assert r.st[p].M?;
      } else {
        assert r.st[m].M?;
      }
    }
  }

  lemma StartDirty(T: Topology, s: Line, c: Node, noExcl: bool)
    requires Coherent(T, s) && DirtyHeld(s) && Enabled(T, s, Start(c, noExcl))
    ensures DirtyHeld(Apply(T, s, Start(c, noExcl)))
  {
    assert NodeOk(T, s, c);
    var p, r := T.parent[c], Apply(T, s, Start(c, noExcl));
    var race := CheckRace(s.op[c].t, s.st[c], s.op[c].init);
    if s.dirty {
      var m :| 0 <= m < |s.st| && s.st[m].M?;
      var s1 := s.(present := s.present + {p});
      if race.Skip? || !IsGet(race.t) || !Suffices(s.st[p], race.t) {
        assert r.st[m].M? || r.st[p].M?;
      } else if race.t.GETS? {
        PresentKeeps(T, s, p);
        GrantDirty(T, s1, p, c, GETS, noExcl);
      } else {
        PresentKeeps(T, s, p);
        UpgradeKeeps(T, s1, p);
        var s2 := s1.(st := s1.st[p := M]);
        assert s2.st[p].M?;
        GrantDirty(T, s2, p, c, GETX, noExcl);
      }
    } else {
      assert !r.dirty;
    }
  }

  lemma EvictDirty(T: Topology, s: Line, n: Node)
    requires Coherent(T, s) && DirtyHeld(s) && Enabled(T, s, EvictLine(n))
    ensures DirtyHeld(ApplyEvict(T, s, n))
  {
    if s.dirty {
      var m :| 0 <= m < |s.st| && s.st[m].M?;
      var r := ApplyEvict(T, s, n);
      if Hit(T, s.dir, n, m) {
        assert InvWriteback(T, s, n);
        assert r.st[n].M?;
      } else {
        assert r.st[m].M?;
      }
    }
  }

  lemma StepDirty(T: Topology, s: Line, a: Step)
    requires Inv(T, s) && Enabled(T, s, a)
    ensures DirtyHeld(Apply(T, s, a))
  {
    match a
    case CoreAccess(n, t) =>
      var r := ApplyCoreAccess(s, n, t);
      if s.dirty { var m :| 0 <= m < |s.st| && s.st[m].M?; assert r.st[m].M?; }
      else if r.dirty { assert r.st[n].M?; }
    case Start(c, noExcl) => StartDirty(T, s, c, noExcl);
    case Deliver(p, c, noExcl) =>
      assert NodeOk(T, s, p);
      IdleKeeps(T, s, p);
      GrantDirty(T, s.(op := s.op[p := Idle]), p, c, s.op[p].t, noExcl);
    case CoreDone(n) =>
      assert NodeOk(T, s, n);
      if s.dirty { var m :| 0 <= m < |s.st| && s.st[m].M?; } else if s.op[n].t.GETX? { assert s.st[n].M?; }
    case EvictLine(n) => EvictDirty(T, s, n);
    case Memory(noExcl) =>
      var r := ApplyMemory(s, noExcl);
      if r.dirty {
        assert NodeOk(T, s, 0);
        var m :| 0 <= m < |s.st| && s.st[m].M?;
        ValidUp(T, s, m);
        assert r.st[m].M?;
      }
  }

  // ---------------------------------------------------------------- every reachable state

  ghost predicate IsRun(T: Topology, run: seq<Line>, acts: seq<Step>) {
    && |run| == |acts| + 1
    && Init(T, run[0])
    && forall i :: 0 <= i < |acts| ==> Shape(T, run[i]) && Enabled(T, run[i], acts[i]) && run[i + 1] == Apply(T, run[i], acts[i])
  }

  ghost predicate Reachable(T: Topology, s: Line) {
    exists run, acts :: IsRun(T, run, acts) && s == run[|acts|]
  }

  lemma {:induction false} RunInv(T: Topology, run: seq<Line>, acts: seq<Step>, i: nat)
    requires IsRun(T, run, acts) && i <= |acts|
    ensures Inv(T, run[i])
  {
    if i == 0 {
      forall n | 0 <= n < |run[0].st| ensures NodeOk(T, run[0], n) {}
    } else {
      RunInv(T, run, acts, i - 1);
      StepCoherent(T, run[i - 1], acts[i - 1]);
      StepDirty(T, run[i - 1], acts[i - 1]);
    }
  }

  lemma ReachableInv(T: Topology, s: Line)
    requires Reachable(T, s)
    ensures Inv(T, s)
  {
    var run, acts :| IsRun(T, run, acts) && s == run[|acts|];
    RunInv(T, run, acts, |acts|);
  }

  ghost function ValidChildren(T: Topology, s: Line, p: Node): set<Node>
    requires Shape(T, s)
  {
    set c | 0 < c < |s.st| && T.parent[c] == p && !s.st[c].I?
  }

  /** The directory is exact, inclusion holds, and an owning child is alone below an owning parent. */
  lemma DirectoryExact(T: Topology, s: Line, p: Node)
    requires Reachable(T, s) && Shape(T, s) && p < |s.st|
    ensures s.dir[p].sharers == ValidChildren(T, s, p)
    ensures s.dir[p].numSharers == |ValidChildren(T, s, p)|
    ensures ValidChildren(T, s, p) != {} ==> !s.st[p].I?
    ensures forall c :: c in ValidChildren(T, s, p) && Owned(s.st[c]) ==>
              ValidChildren(T, s, p) == {c} && s.dir[p].IsExclusive() && Owned(s.st[p])
  {
    ReachableInv(T, s);
    assert NodeOk(T, s, p);
    forall c | 0 < c < |s.st| && T.parent[c] == p
      ensures c in s.dir[p].sharers <==> !s.st[c].I?
      ensures !s.st[c].I? ==> !s.st[p].I?
      ensures Owned(s.st[c]) ==> s.dir[p].sharers == {c} && s.dir[p].IsExclusive() && Owned(s.st[p])
    {
      assert NodeOk(T, s, c);
      if Owned(s.st[c]) { SoleSharer(T, s, c); }
    }
  }

  /** Whatever invalidations arrived while c's request was on its way, the race check neither asserts
      nor panics; it skips exactly the PUTs of lines that are already gone; and a PUT that is not
      skipped finds the line, with c as a sharer, in the parent. */
  lemma RaceCheckNeverFails(T: Topology, s: Line, c: Node)
    requires Reachable(T, s) && Shape(T, s) && 0 < c < |s.st| && s.op[c].Wait?
    ensures var race, p := CheckRace(s.op[c].t, s.st[c], s.op[c].init), T.parent[c];
      && !race.Fail?
      && (race.Skip? <==> !IsGet(s.op[c].t) && s.st[c].I?)
      && (race.Go? && !IsGet(race.t) ==> p in s.present && !s.st[p].I? && c in s.dir[p].sharers)
      && (race.Go? && race.t.PUTX? ==> s.st[c].M? && s.dir[p].IsExclusive() && Owned(s.st[p]))
      && (race.Go? && race.t.GETS? ==> c !in s.dir[p].sharers)
      && (race.Go? && race.t.GETX? && c in s.dir[p].sharers ==> !s.dir[p].IsExclusive())
  {
    ReachableInv(T, s);
    assert NodeOk(T, s, c) && NodeOk(T, s, T.parent[c]);
    if Owned(s.st[c]) { SoleSharer(T, s, c); }
  }

  /** a is b or one of the caches above b. */
  ghost predicate Above(T: Topology, a: Node, b: Node)
    requires T.Valid() && b < |T.parent|
    decreases b
  {
    a == b || (b > 0 && Above(T, a, T.parent[b]))
  }

  lemma {:induction false} AboveOwned(T: Topology, s: Line, p: Node, a: Node) returns (d: Node)
    requires Coherent(T, s) && a < |s.st| && p != a && Above(T, p, a) && Owned(s.st[a])
    ensures 0 < d < |s.st| && T.parent[d] == p && Above(T, d, a) && Owned(s.st[d])
    decreases a
  {
    assert NodeOk(T, s, a);
    if T.parent[a] == p { d := a; } else { d := AboveOwned(T, s, p, T.parent[a]); }
  }

  lemma {:induction false} OwnerPath(T: Topology, s: Line, a: Node, b: Node)
    requires Coherent(T, s) && a < |s.st| && b < |s.st| && Owned(s.st[a]) && !s.st[b].I?
    ensures Above(T, a, b) || Above(T, b, a)
    decreases b
  {
    if b == 0 {
      RootAbove(T, a);
    } else if a != b {
      assert NodeOk(T, s, b);
      var p := T.parent[b];
      OwnerPath(T, s, a, p);
      if !Above(T, a, p) {
        var d := AboveOwned(T, s, p, a);
        SoleSharer(T, s, d);
      }
    }
  }

  lemma {:induction false} RootAbove(T: Topology, a: Node)
    requires T.Valid() && a < |T.parent|
    ensures Above(T, 0, a)
    decreases a
  {
    if a > 0 { RootAbove(T, T.parent[a]); }
  }

  ghost predicate Terminal(T: Topology, n: Node) { forall c :: 0 < c < |T.parent| ==> T.parent[c] != n }

  lemma {:induction false} TerminalAbove(T: Topology, a: Node, b: Node)
    requires T.Valid() && b < |T.parent| && Terminal(T, a) && Above(T, a, b)
    ensures a == b
    decreases b
  {
    if a != b { TerminalAbove(T, a, T.parent[b]); }
  }

  /** Single writer or many readers: an owner and any other valid copy lie on one path to memory, so
      a core that may write has the only copy among all cores. */
  lemma SingleWriter(T: Topology, s: Line, a: Node, b: Node)
    requires Reachable(T, s) && Shape(T, s) && a < |s.st| && b < |s.st| && Owned(s.st[a]) && !s.st[b].I?
    ensures Above(T, a, b) || Above(T, b, a)
    ensures Terminal(T, a) && Terminal(T, b) ==> a == b
  {
    ReachableInv(T, s);
    OwnerPath(T, s, a, b);
    if Terminal(T, a) && Terminal(T, b) {
      if Above(T, a, b) { TerminalAbove(T, a, b); } else { TerminalAbove(T, b, a); }
    }
  }

  /** The step that takes a written line to memory. */
  predicate WritesBack(s: Line, a: Step) {
    a.Memory? && |s.op| > 0 && s.op[0].Wait? && s.op[0].t.PUTX?
  }

  lemma StaysDirty(T: Topology, s: Line, a: Step)
    requires Shape(T, s) && Enabled(T, s, a) && s.dirty && !WritesBack(s, a)
    ensures Apply(T, s, a).dirty
  {
  }

  lemma {:induction false} DirtyUntilWrittenBack(T: Topology, run: seq<Line>, acts: seq<Step>, i: nat, j: nat)
    requires IsRun(T, run, acts) && i <= j <= |acts| && run[i].dirty
    requires forall k :: i <= k < j ==> !WritesBack(run[k], acts[k])
    ensures run[j].dirty
    decreases j
  {
    if i < j {
      DirtyUntilWrittenBack(T, run, acts, i, j - 1);
      StaysDirty(T, run[j - 1], acts[j - 1]);
    }
  }

  /** Between a write and the PUTX that takes it to memory, some cache holds the line in M. */
  lemma DirtyNeverLost(T: Topology, run: seq<Line>, acts: seq<Step>, i: nat, j: nat)
    requires IsRun(T, run, acts) && i <= j <= |acts| && run[i].dirty
    requires forall k :: i <= k < j ==> !WritesBack(run[k], acts[k])
    ensures exists n :: 0 <= n < |run[j].st| && run[j].st[n].M?
  {
    DirtyUntilWrittenBack(T, run, acts, i, j);
    RunInv(T, run, acts, j);
  }
}
