/** What a request is answered with, which copies it costs, and that it is answered at all. */
module MesiAnswers {
  import opened Mesi

  /** b is strictly below a. */
  ghost predicate Under(T: Topology, a: Node, b: Node)
    requires T.Valid() && b < |T.parent|
  {
    a != b && Above(T, a, b)
  }

  ghost predicate DirtyUnder(T: Topology, s: Line, p: Node)
    requires Shape(T, s)
  {
    exists n :: 0 <= n < |s.st| && Under(T, p, n) && s.st[n].M?
  }

  /** The state of n once p has granted c its GETS or GETX. */
  ghost function Answer(T: Topology, s: Line, p: Node, c: Node, t: Access, noExcl: bool, n: Node): State
    requires Shape(T, s) && p < |s.st| && n < |s.st|
  {
    if t.GETS? then
      if n == c then (if ValidChildren(T, s, p) == {} && Owned(s.st[p]) && !noExcl then E else S)
      else if n == p then (if DirtyUnder(T, s, p) then M else s.st[p])
      else if Under(T, p, n) && Owned(s.st[n]) then S
      else s.st[n]
    else
      if n == c || n == p then M
      else if Under(T, p, n) && !Under(T, c, n) then I
      else s.st[n]
  }

  // ---------------------------------------------------------------- which caches an invalidation reaches

  lemma {:induction false} AboveLe(T: Topology, a: Node, b: Node)
    requires T.Valid() && b < |T.parent| && Above(T, a, b)
    ensures a <= b
    decreases b
  {
    if a != b { AboveLe(T, a, T.parent[b]); }
  }

  /** INVs reach exactly the valid copies below p. */
  lemma {:induction false} HitIs(T: Topology, s: Line, p: Node, n: Node)
    requires Coherent(T, s) && p < |s.st| && n < |s.st|
    ensures Hit(T, s.dir, p, n) <==> Under(T, p, n) && !s.st[n].I?
    decreases n
  {
    assert NodeOk(T, s, n);
    assert Above(T, p, p);
    if n == p { HitAbove(T, s.dir, p, p); }
    if n > 0 && T.parent[n] != p { HitIs(T, s, p, T.parent[n]); }
  }

  /** INVXs reach exactly the owners below p. */
  lemma {:induction false} HitXIs(T: Topology, s: Line, p: Node, n: Node)
    requires Coherent(T, s) && p < |s.st| && n < |s.st|
    ensures HitX(T, s.dir, p, n) <==> Under(T, p, n) && Owned(s.st[n])
    decreases n
  {
    assert NodeOk(T, s, n);
    assert Above(T, p, p);
    if n == p { HitAbove(T, s.dir, p, p); }
    if n > 0 && Owned(s.st[n]) { SoleSharer(T, s, n); }
    if n > 0 && T.parent[n] != p { HitXIs(T, s, p, T.parent[n]); }
  }

  /** With c taken out, INVs reach the valid copies below p but for c and those below it. */
  lemma {:induction false} TakenOutIs(T: Topology, s: Line, p: Node, c: Node, n: Node)
    requires Coherent(T, s) && 0 < c < |s.st| && T.parent[c] == p && n < |s.st|
    ensures Hit(T, TakeOut(s, p, c).dir, p, n) <==> Under(T, p, n) && !Above(T, c, n) && !s.st[n].I?
    decreases n
  {
    assert NodeOk(T, s, n) && NodeOk(T, s, c);
    assert Above(T, p, p) && Above(T, c, c);
    if n == p { HitAbove(T, TakeOut(s, p, c).dir, p, p); }
    if n > 0 && T.parent[n] == p && n != c && Above(T, c, n) { AboveLe(T, c, p); }
    if n > 0 && T.parent[n] != p { TakenOutIs(T, s, p, c, T.parent[n]); }
  }

  lemma NoOwnersUnder(T: Topology, s: Line, p: Node, n: Node)
    requires Coherent(T, s) && p < |s.st| && n < |s.st| && Under(T, p, n) && Owned(s.st[n])
    ensures s.dir[p].IsExclusive() && !s.dir[p].IsEmpty()
  {
    var d := AboveOwned(T, s, p, n);
    SoleSharer(T, s, d);
  }

  lemma EmptyIs(T: Topology, s: Line, p: Node)
    requires Coherent(T, s) && p < |s.st|
    ensures s.dir[p].IsEmpty() <==> ValidChildren(T, s, p) == {}
  {
    assert NodeOk(T, s, p);
    forall c | 0 < c < |s.st| && T.parent[c] == p ensures c in s.dir[p].sharers <==> !s.st[c].I? { assert NodeOk(T, s, c); }
    assert s.dir[p].sharers == ValidChildren(T, s, p);
  }

  // ---------------------------------------------------------------- grants

  lemma ShareStates(T: Topology, s: Line, p: Node, c: Node, noExcl: bool, n: Node)
    requires Coherent(T, s) && 0 < c < |s.st| && T.parent[c] == p && n < |s.st|
    ensures Grant(T, s, p, c, GETS, noExcl).st[n] == Answer(T, s, p, c, GETS, noExcl, n)
  {
    EmptyIs(T, s, p);
    HitXIs(T, s, p, n);
    HitAbove(T, s.dir, p, p);
    if DirtyUnder(T, s, p) {
      var m :| 0 <= m < |s.st| && Under(T, p, m) && s.st[m].M?;
      NoOwnersUnder(T, s, p, m);
      HitXIs(T, s, p, m);
    }
    if InvxWriteback(T, s, p) {
      var m :| 0 <= m < |s.st| && HitX(T, s.dir, p, m) && s.st[m].M?;
      HitXIs(T, s, p, m);
    }
    if Under(T, p, n) && Owned(s.st[n]) { NoOwnersUnder(T, s, p, n); }
  }

  lemma UpgradeStates(T: Topology, s: Line, p: Node, c: Node, noExcl: bool, n: Node)
    requires Coherent(T, s) && 0 < c < |s.st| && T.parent[c] == p && n < |s.st| && s.st[p].M?
    ensures Grant(T, s, p, c, GETX, noExcl).st[n] == Answer(T, s, p, c, GETX, noExcl, n)
  {
    GrantXAt(T, s, p, c, noExcl, n);
    TakenOutIs(T, s, p, c, n);
  }

  /** A request that its parent can answer is answered, and its answer settles every cache's state.  In particular
      a GETS gets E exactly if no other child holds the line, the parent owns it, and nothing forbids it. */
  lemma StartAnswer(T: Topology, s: Line, c: Node, noExcl: bool)
    requires Reachable(T, s) && Shape(T, s) && Enabled(T, s, Start(c, noExcl)) && IsGet(s.op[c].t)
    requires Suffices(s.st[T.parent[c]], s.op[c].t)
    ensures var r, p := Apply(T, s, Start(c, noExcl)), T.parent[c];
      && |r.st| == |r.op| == |s.st| && r.op[c].Ready?
      && forall n :: 0 <= n < |s.st| ==> r.st[n] == Answer(T, s, p, c, s.op[c].t, noExcl, n)
  {
    ReachableInv(T, s);
    assert NodeOk(T, s, c);
    var p, t := T.parent[c], s.op[c].t;
    PresentKeeps(T, s, p);
    var s1 := s.(present := s.present + {p});
    if t.GETS? {
      GrantStates(T, s, s1, p, c, t, noExcl);
    } else {
      UpgradeKeeps(T, s1, p);
      var s2 := s1.(st := s1.st[p := M]);
      forall n | 0 <= n < |s.st| ensures Grant(T, s2, p, c, t, noExcl).st[n] == Answer(T, s, p, c, t, noExcl, n) {
        UpgradeStates(T, s2, p, c, noExcl, n);
      }
    }
  }

  lemma SameAnswer(T: Topology, s: Line, s': Line, p: Node, c: Node, t: Access, noExcl: bool, n: Node)
    requires Shape(T, s) && Shape(T, s') && s'.st == s.st && p < |s.st| && n < |s.st|
    ensures Answer(T, s', p, c, t, noExcl, n) == Answer(T, s, p, c, t, noExcl, n)
  {
    assert ValidChildren(T, s', p) == ValidChildren(T, s, p);
  }

  /** A request that its parent cannot answer goes up, and costs nobody anything yet. */
  lemma StartAsks(T: Topology, s: Line, c: Node, noExcl: bool)
    requires Reachable(T, s) && Shape(T, s) && Enabled(T, s, Start(c, noExcl)) && IsGet(s.op[c].t)
    requires !Suffices(s.st[T.parent[c]], s.op[c].t)
    ensures var r, p := Apply(T, s, Start(c, noExcl)), T.parent[c];
      r.st == s.st && r.dir == s.dir && r.op == s.op[p := Wait(s.op[c].t, s.st[p], Child(c))]
  {
    ReachableInv(T, s);
    assert NodeOk(T, s, c);
  }

  /** The same answer once the parent has been answered itself. */
  lemma DeliverAnswer(T: Topology, s: Line, p: Node, c: Node, noExcl: bool)
    requires Reachable(T, s) && Shape(T, s) && Enabled(T, s, Deliver(p, c, noExcl))
    ensures var r := Apply(T, s, Deliver(p, c, noExcl));
      && |r.st| == |r.op| == |s.st| && r.op[c].Ready? && r.op[p].Idle? && s.op[p].t == s.op[c].t
      && forall n :: 0 <= n < |s.st| ==> r.st[n] == Answer(T, s, p, c, s.op[c].t, noExcl, n)
  {
    ReachableInv(T, s);
    assert NodeOk(T, s, p) && NodeOk(T, s, c);
    IdleKeeps(T, s, p);
    var s1 := s.(op := s.op[p := Idle]);
    GrantStates(T, s, s1, p, c, s.op[p].t, noExcl);
  }

  lemma GrantStates(T: Topology, s: Line, s1: Line, p: Node, c: Node, t: Access, noExcl: bool)
    requires Shape(T, s) && Coherent(T, s1) && s1.st == s.st && 0 < c < |s.st| && T.parent[c] == p && IsGet(t) && (t.GETX? ==> s1.st[p].M?)
    ensures |Grant(T, s1, p, c, t, noExcl).st| == |s.st| && Grant(T, s1, p, c, t, noExcl).op == s1.op
    ensures forall n :: 0 <= n < |s.st| ==> Grant(T, s1, p, c, t, noExcl).st[n] == Answer(T, s, p, c, t, noExcl, n)
  {
    forall n | 0 <= n < |s.st| ensures Grant(T, s1, p, c, t, noExcl).st[n] == Answer(T, s, p, c, t, noExcl, n) {
      if t.GETS? { ShareStates(T, s1, p, c, noExcl, n); } else { UpgradeStates(T, s1, p, c, noExcl, n); }
      SameAnswer(T, s, s1, p, c, t, noExcl, n);
    }
  }

  /** Memory gives the last level E, or S if E is forbidden, M for a GETX, and takes a PUT. */
  lemma MemoryAnswer(T: Topology, s: Line, noExcl: bool)
    requires Reachable(T, s) && Shape(T, s) && Enabled(T, s, Memory(noExcl))
    ensures var r, t := Apply(T, s, Memory(noExcl)), s.op[0].t;
      && r.st == s.st[0 := if t.GETX? then M else if t.GETS? then (if noExcl then S else E) else I]
      && (if IsGet(t) then r.op[0].Ready? else r.op[0].Idle? && 0 !in r.present && (t.PUTX? ==> !r.dirty))
  {
  }

  /** An eviction takes every copy below with it, and a written one makes the victim M. */
  lemma EvictAnswer(T: Topology, s: Line, m: Node)
    requires Reachable(T, s) && Shape(T, s) && Enabled(T, s, EvictLine(m))
    ensures var r := Apply(T, s, EvictLine(m));
      |r.st| == |s.st| && forall n :: 0 <= n < |s.st| ==>
        r.st[n] == if Under(T, m, n) then I else if n == m && DirtyUnder(T, s, m) then M else s.st[n]
  {
    ReachableInv(T, s);
    HitAbove(T, s.dir, m, m);
    forall n | 0 <= n < |s.st|
      ensures Hit(T, s.dir, m, n) <==> Under(T, m, n) && !s.st[n].I?
    {
      HitIs(T, s, m, n);
    }
  }

  // ---------------------------------------------------------------- what a copy can be lost to

  /** The steps that may cost n its copy: its own PUT, a GETX for another cache below a common parent, an eviction
      above it. */
  ghost predicate Costs(T: Topology, s: Line, a: Step, n: Node)
    requires Shape(T, s) && n < |s.st|
  {
    match a
    case Start(c, _) =>
      0 < c < |s.st| && s.op[c].Wait? &&
      (if IsGet(s.op[c].t) then s.op[c].t.GETX? && Under(T, T.parent[c], n) && !Above(T, c, n) else n == c)
    case Deliver(p, c, _) => p < |s.st| && c < |s.st| && s.op[c].Wait? && s.op[c].t.GETX? && Under(T, p, n) && !Above(T, c, n)
    case EvictLine(m) => Under(T, m, n)
    case Memory(_) => n == 0 && s.op[0].Wait? && !IsGet(s.op[0].t)
    case _ => false
  }

  lemma StartCosts(T: Topology, s: Line, c: Node, noExcl: bool, n: Node)
    requires Reachable(T, s) && Shape(T, s) && Enabled(T, s, Start(c, noExcl)) && n < |s.st|
    ensures |Apply(T, s, Start(c, noExcl)).st| == |s.st|
    ensures !s.st[n].I? && Apply(T, s, Start(c, noExcl)).st[n].I? ==> Costs(T, s, Start(c, noExcl), n)
  {
    if IsGet(s.op[c].t) {
      assert Above(T, c, c);
      if Suffices(s.st[T.parent[c]], s.op[c].t) { StartAnswer(T, s, c, noExcl); } else { StartAsks(T, s, c, noExcl); }
    } else {
      RaceCheckNeverFails(T, s, c);
    }
  }

  lemma DeliverCosts(T: Topology, s: Line, p: Node, c: Node, noExcl: bool, n: Node)
    requires Reachable(T, s) && Shape(T, s) && Enabled(T, s, Deliver(p, c, noExcl)) && n < |s.st|
    ensures |Apply(T, s, Deliver(p, c, noExcl)).st| == |s.st|
    ensures !s.st[n].I? && Apply(T, s, Deliver(p, c, noExcl)).st[n].I? ==> Costs(T, s, Deliver(p, c, noExcl), n)
  {
    DeliverAnswer(T, s, p, c, noExcl);
    ReachableInv(T, s);
    assert NodeOk(T, s, p);
    AnswerCosts(T, s, p, c, s.op[c].t, noExcl, n);
  }

  lemma AnswerCosts(T: Topology, s: Line, p: Node, c: Node, t: Access, noExcl: bool, n: Node)
    requires Shape(T, s) && p < |s.st| && c < |s.st| && n < |s.st| && IsGet(t)
    ensures !s.st[n].I? && Answer(T, s, p, c, t, noExcl, n).I? ==> t.GETX? && Under(T, p, n) && !Above(T, c, n)
  {
    assert Above(T, c, c);
  }

  lemma CopiesLost(T: Topology, s: Line, a: Step, n: Node)
    requires Reachable(T, s) && Shape(T, s) && Enabled(T, s, a) && n < |s.st|
    ensures |Apply(T, s, a).st| == |s.st|
    ensures !s.st[n].I? && Apply(T, s, a).st[n].I? ==> Costs(T, s, a, n)
  {
    ReachableInv(T, s);
    match a
    case Start(c, noExcl) => StartCosts(T, s, c, noExcl, n);
    case Deliver(p, c, noExcl) => DeliverCosts(T, s, p, c, noExcl, n);
    case EvictLine(m) => EvictAnswer(T, s, m);
    case Memory(noExcl) => MemoryAnswer(T, s, noExcl);
    case _ =>
  }

  // ---------------------------------------------------------------- nobody waits for ever

  /** What moves a pending request on. */
  predicate Advances(a: Step) { a.Start? || a.Deliver? || a.CoreDone? || a.Memory? }

  /** A deepest cache that has been answered can serve its client. */
  lemma ReadyMoves(T: Topology, s: Line, n: Node) returns (a: Step)
    requires Coherent(T, s) && n < |s.st| && s.op[n].Ready? && forall m :: n < m < |s.st| ==> !s.op[m].Ready?
    ensures Advances(a) && Enabled(T, s, a)
  {
    assert NodeOk(T, s, n);
    if s.op[n].client.Core? {
      a := CoreDone(n);
    } else {
      var c := s.op[n].client.c;
      a := Deliver(n, c, false);
      forall m | 0 <= m < |s.st| && (Hit(T, TakeOut(s, n, c).dir, n, m) || HitX(T, s.dir, n, m)) ensures n < m {
        HitAbove(T, TakeOut(s, n, c).dir, n, m);
        HitAbove(T, s.dir, n, m);
      }
    }
  }

  /** With nobody answered, the topmost waiting cache is next. */
  lemma WaitMoves(T: Topology, s: Line, n: Node) returns (a: Step)
    requires Coherent(T, s) && n < |s.st| && s.op[n].Wait? && forall m :: 0 <= m < n ==> s.op[m].Idle?
    requires forall m :: 0 <= m < |s.st| ==> !s.op[m].Ready?
    ensures Advances(a) && Enabled(T, s, a)
  {
    a := if n == 0 then Memory(false) else Start(n, false);
  }

  lemma {:induction false} DeepestReady(s: Line, k: nat) returns (n: int)
    requires k <= |s.op|
    ensures -1 <= n < k && (n >= 0 ==> s.op[n].Ready?) && forall m :: n < m < k ==> !s.op[m].Ready?
  {
    if k == 0 {
      n := -1;
    } else if s.op[k - 1].Ready? {
      n := k - 1;
    } else {
      n := DeepestReady(s, k - 1);
    }
  }

  lemma {:induction false} TopmostBusy(s: Line, k: nat) returns (n: nat)
    requires k <= |s.op| && exists m :: k <= m < |s.op| && !s.op[m].Idle?
    requires forall m :: 0 <= m < k ==> s.op[m].Idle?
    ensures n < |s.op| && !s.op[n].Idle? && forall m :: 0 <= m < n ==> s.op[m].Idle?
    decreases |s.op| - k
  {
    if s.op[k].Idle? { n := TopmostBusy(s, k + 1); } else { n := k; }
  }

  /** While any request is pending, some step can move one on: the protocol cannot deadlock. */
  lemma NoDeadlock(T: Topology, s: Line) returns (a: Step)
    requires Reachable(T, s) && Shape(T, s) && exists n :: 0 <= n < |s.op| && !s.op[n].Idle?
    ensures Advances(a) && Enabled(T, s, a)
  {
    ReachableInv(T, s);
    var d := DeepestReady(s, |s.op|);
    if d >= 0 {
      a := ReadyMoves(T, s, d);
    } else {
      var n := TopmostBusy(s, 0);
      a := WaitMoves(T, s, n);
    }
  }
}
