/** The controller code itself: recursive invalidation loops, the race check and the parent's handling
    of a request, written as the controllers run them and proved to perform exactly the steps of
    module Mesi.  The source's own assertions appear as assertions here. */
module MesiControllers {
  import opened Mesi

  /** The child of p through which n hangs below p. */
  ghost function Branch(T: Topology, p: Node, n: Node): Node
    requires T.Valid() && n < |T.parent|
    decreases n
  {
    if n == 0 || T.parent[n] == p then n else Branch(T, p, T.parent[n])
  }

  /** p's INVs reach n through exactly one of p's sharers. */
  lemma {:induction false} HitSplit(T: Topology, dir: seq<Entry>, p: Node, n: Node)
    requires T.Valid() && |dir| == |T.parent| && n < |dir|
    ensures Hit(T, dir, p, n) ==>
              var b := Branch(T, p, n);
              0 < b <= n && T.parent[b] == p && b in dir[p].sharers && (n == b || Hit(T, dir, b, n))
    decreases n
  {
    if Hit(T, dir, p, n) && T.parent[n] != p { HitSplit(T, dir, p, T.parent[n]); }
  }

  lemma {:induction false} HitJoin(T: Topology, dir: seq<Entry>, p: Node, b: Node, n: Node)
    requires T.Valid() && |dir| == |T.parent| && n < |dir| && 0 < b < |dir|
    requires T.parent[b] == p && b in dir[p].sharers && (n == b || Hit(T, dir, b, n))
    ensures Hit(T, dir, p, n) && Branch(T, p, n) == b
    decreases n
  {
    if n != b {
      HitAbove(T, dir, b, n);
      if T.parent[n] == b { HitJoin(T, dir, p, b, b); } else { HitJoin(T, dir, p, b, T.parent[n]); }
      if T.parent[n] == p { HitAbove(T, dir, b, p); }
    }
  }

  /** Hit depends only on the entries below its starting point. */
  lemma {:induction false} HitFrame(T: Topology, d: seq<Entry>, d': seq<Entry>, b: Node, n: Node)
    requires T.Valid() && |d| == |d'| == |T.parent| && n < |d| && b < |d|
    requires forall q :: 0 <= q < |d| && (q == b || Hit(T, d, b, q)) ==> d'[q] == d[q]
    ensures Hit(T, d, b, n) <==> Hit(T, d', b, n)
    decreases n
  {
    if n > 0 && T.parent[n] != b { HitFrame(T, d, d', b, T.parent[n]); }
  }

  /** What p's invalidation loop needs below p. */
  ghost predicate InvReady(T: Topology, s: Line, p: Node) {
    && Shape(T, s) && p < |s.st|
    && EntryOk(T, s.dir[p], p)
    && forall n :: 0 <= n < |s.st| && Hit(T, s.dir, p, n) ==> EntryOk(T, s.dir[n], n) && !s.st[n].I?
  }

  ghost predicate Done(T: Topology, o: Line, p: Node, c: nat, n: Node)
    requires Shape(T, o) && n < |o.st|
  {
    Hit(T, o.dir, p, n) && Branch(T, p, n) < c
  }

  /** The sharers the loop has not reached yet. */
  ghost function From(sharers: set<Node>, c: nat): set<Node> { set d | d in sharers && d >= c }

  lemma FromStep(sharers: set<Node>, c: nat)
    ensures From(sharers, 0) == sharers
    ensures From(sharers, c + 1) == From(sharers, c) - {c}
    ensures (forall d :: d in sharers ==> d < c) ==> From(sharers, c) == {}
  {
  }

  /** The line after p has invalidated its sharers numbered below c. */
  ghost function InvUpTo(T: Topology, o: Line, p: Node, c: nat): Line
    requires Shape(T, o) && p < |o.st|
  {
    o.(st := seq(|o.st|, n requires 0 <= n < |o.st| => if Done(T, o, p, c, n) then I else o.st[n]),
       dir := seq(|o.dir|, n requires 0 <= n < |o.dir| =>
                    if n == p then o.dir[p].(sharers := From(o.dir[p].sharers, c))
                    else if Done(T, o, p, c, n) then o.dir[n].Cleared() else o.dir[n]))
  }

  ghost predicate WritebackUpTo(T: Topology, o: Line, p: Node, c: nat)
    requires Shape(T, o) && p < |o.st|
  {
    exists n :: 0 <= n < |o.st| && Done(T, o, p, c, n) && o.st[n].M?
  }

  /** The branch under c is untouched until the loop gets to c. */
  lemma BranchUntouched(T: Topology, o: Line, p: Node, c: Node, n: Node)
    requires InvReady(T, o, p) && c in o.dir[p].sharers && n < |o.st|
    ensures Hit(T, o.dir, c, n) <==> Hit(T, InvUpTo(T, o, p, c).dir, c, n)
    ensures n == c || Hit(T, o.dir, c, n) ==>
              !Done(T, o, p, c, n) && n != p && Hit(T, o.dir, p, n) && Done(T, o, p, c + 1, n)
  {
    var d' := InvUpTo(T, o, p, c).dir;
    HitAbove(T, o.dir, p, p);
    forall q | 0 <= q < |o.st| && (q == c || Hit(T, o.dir, c, q)) ensures d'[q] == o.dir[q] { HitJoin(T, o.dir, p, c, q); }
    HitFrame(T, o.dir, d', c, n);
    if n == c || Hit(T, o.dir, c, n) { HitJoin(T, o.dir, p, c, n); }
  }

  lemma BranchReady(T: Topology, o: Line, p: Node, c: Node)
    requires InvReady(T, o, p) && c in o.dir[p].sharers
    ensures InvReady(T, InvUpTo(T, o, p, c), c)
    ensures InvUpTo(T, o, p, c).st[c] == o.st[c] && !o.st[c].I?
    ensures WritebackUpTo(T, o, p, c + 1) <==>
              WritebackUpTo(T, o, p, c) || InvWriteback(T, InvUpTo(T, o, p, c), c) || o.st[c].M?
  {
    var s := InvUpTo(T, o, p, c);
    forall n | 0 <= n < |o.st|
      ensures Hit(T, o.dir, c, n) <==> Hit(T, s.dir, c, n)
      ensures n == c || Hit(T, o.dir, c, n) ==> s.dir[n] == o.dir[n] && s.st[n] == o.st[n] && Hit(T, o.dir, p, n) && Done(T, o, p, c + 1, n)
      ensures Done(T, o, p, c + 1, n) ==> Done(T, o, p, c, n) || n == c || Hit(T, s.dir, c, n)
    {
      BranchUntouched(T, o, p, c, n);
      HitSplit(T, o.dir, p, n);
    }
    if WritebackUpTo(T, o, p, c) {
      var n :| 0 <= n < |o.st| && Done(T, o, p, c, n) && o.st[n].M?;
      assert Done(T, o, p, c + 1, n);
    }
  }

  /** One iteration of the loop. */
  ghost function InvOne(T: Topology, s0: Line, p: Node, c: Node): Line
    requires Shape(T, s0) && p < |s0.st| && c < |s0.st|
  {
    var s := InvBelow(T, s0, c);
    s.(st := s.st[c := I], dir := s.dir[p := s.dir[p].(sharers := s.dir[p].sharers - {c})])
  }

  lemma InvOneAt(T: Topology, o: Line, p: Node, c: Node, n: Node)
    requires InvReady(T, o, p) && c in o.dir[p].sharers && n < |o.st|
    ensures InvOne(T, InvUpTo(T, o, p, c), p, c).st[n] == InvUpTo(T, o, p, c + 1).st[n]
    ensures InvOne(T, InvUpTo(T, o, p, c), p, c).dir[n] == InvUpTo(T, o, p, c + 1).dir[n]
  {
    BranchUntouched(T, o, p, c, n);
    HitSplit(T, o.dir, p, n);
    FromStep(o.dir[p].sharers, c);
    HitAbove(T, InvUpTo(T, o, p, c).dir, c, p);
    assert T.parent[c] == p;
  }

  lemma InvUpToStep(T: Topology, o: Line, p: Node, c: Node)
    requires InvReady(T, o, p) && c in o.dir[p].sharers
    ensures InvUpTo(T, o, p, c + 1) == InvOne(T, InvUpTo(T, o, p, c), p, c)
  {
    var r, r' := InvOne(T, InvUpTo(T, o, p, c), p, c), InvUpTo(T, o, p, c + 1);
    forall n | 0 <= n < |o.st| ensures r.st[n] == r'.st[n] && r.dir[n] == r'.dir[n] { InvOneAt(T, o, p, c, n); }
    assert r.st == r'.st && r.dir == r'.dir;
  }

  lemma InvUpToSkip(T: Topology, o: Line, p: Node, c: Node)
    requires InvReady(T, o, p) && c !in o.dir[p].sharers
    ensures InvUpTo(T, o, p, c + 1) == InvUpTo(T, o, p, c)
    ensures WritebackUpTo(T, o, p, c + 1) <==> WritebackUpTo(T, o, p, c)
  {
    forall n | 0 <= n < |o.st| ensures Done(T, o, p, c + 1, n) == Done(T, o, p, c, n) { HitSplit(T, o.dir, p, n); }
    FromStep(o.dir[p].sharers, c);
    assert From(o.dir[p].sharers, c) - {c} == From(o.dir[p].sharers, c);
    assert InvUpTo(T, o, p, c + 1).st == InvUpTo(T, o, p, c).st;
    assert InvUpTo(T, o, p, c + 1).dir == InvUpTo(T, o, p, c).dir;
  }

  lemma InvUpToEnds(T: Topology, o: Line, p: Node)
    requires InvReady(T, o, p)
    ensures InvUpTo(T, o, p, 0) == o && !WritebackUpTo(T, o, p, 0)
    ensures var s := InvUpTo(T, o, p, |o.st|); s.(dir := s.dir[p := s.dir[p].(numSharers := 0)]) == InvBelow(T, o, p)
    ensures WritebackUpTo(T, o, p, |o.st|) <==> InvWriteback(T, o, p)
  {
    forall n | 0 <= n < |o.st| ensures Done(T, o, p, |o.st|, n) == Hit(T, o.dir, p, n) { HitSplit(T, o.dir, p, n); }
    FromStep(o.dir[p].sharers, |o.st|);
    assert InvUpTo(T, o, p, 0).st == o.st && InvUpTo(T, o, p, 0).dir == o.dir;
    var s := InvUpTo(T, o, p, |o.st|);
    assert s.st == InvBelow(T, o, p).st;
    assert s.dir[p := s.dir[p].(numSharers := 0)] == InvBelow(T, o, p).dir;
  }

  // ---------------------------------------------------------------- downgrades follow one exclusive chain

  ghost predicate InvxReady(T: Topology, s: Line, p: Node) {
    && Shape(T, s) && p < |s.st|
    && EntryOk(T, s.dir[p], p)
    && forall n :: 0 <= n < |s.st| && HitX(T, s.dir, p, n) ==> EntryOk(T, s.dir[n], n) && Owned(s.st[n])
  }

  lemma {:induction false} HitXChain(T: Topology, dir: seq<Entry>, p: Node, b: Node, n: Node)
    requires T.Valid() && |dir| == |T.parent| && n < |dir| && 0 < b < |dir|
    requires T.parent[b] == p && dir[p].sharers == {b} && dir[p].IsExclusive()
    ensures HitX(T, dir, p, n) <==> n == b || HitX(T, dir, b, n)
    ensures HitX(T, dir, b, n) ==> n != b && n != p
    decreases n
  {
    HitAbove(T, dir, b, n);
    if n > 0 && T.parent[n] != p { HitXChain(T, dir, p, b, T.parent[n]); }
  }

  ghost function InvxOne(T: Topology, o: Line, p: Node, b: Node): Line
    requires Shape(T, o) && p < |o.st| && b < |o.st|
  {
    var s := InvxBelow(T, o, b);
    s.(st := s.st[b := S])
  }

  lemma InvxOneStep(T: Topology, o: Line, p: Node, b: Node)
    requires InvxReady(T, o, p) && o.dir[p].IsExclusive() && o.dir[p].sharers == {b}
    ensures 0 < b < |o.st| && T.parent[b] == p && InvxReady(T, o, b) && Owned(o.st[b])
    ensures var s := InvxOne(T, o, p, b);
            s.(dir := s.dir[p := s.dir[p].(exclusive := false)]) == InvxBelow(T, o, p) && s.dir[p] == o.dir[p]
    ensures InvxWriteback(T, o, p) <==> InvxWriteback(T, o, b) || o.st[b].M?
  {
    forall n | 0 <= n < |o.st|
      ensures HitX(T, o.dir, p, n) <==> n == b || HitX(T, o.dir, b, n)
      ensures HitX(T, o.dir, b, n) ==> n != b && n != p
    {
      HitXChain(T, o.dir, p, b, n);
    }
    assert HitX(T, o.dir, p, b);
    var s := InvxOne(T, o, p, b);
    assert s.st == InvxBelow(T, o, p).st;
    assert s.dir[p := s.dir[p].(exclusive := false)] == InvxBelow(T, o, p).dir;
  }

  lemma NoInvx(T: Topology, o: Line, p: Node)
    requires Shape(T, o) && p < |o.st| && !o.dir[p].IsExclusive()
    ensures InvxBelow(T, o, p) == o && !InvxWriteback(T, o, p)
  {
    forall n | 0 <= n < |o.st| ensures !HitX(T, o.dir, p, n) { NoHitX(T, o.dir, p, n); }
    assert InvxBelow(T, o, p).st == o.st && InvxBelow(T, o, p).dir == o.dir;
  }

  lemma {:induction false} NoHitX(T: Topology, dir: seq<Entry>, p: Node, n: Node)
    requires T.Valid() && |dir| == |T.parent| && n < |dir| && p < |dir| && !dir[p].IsExclusive()
    ensures !HitX(T, dir, p, n)
    decreases n
  {
    if n > 0 && T.parent[n] != p { NoHitX(T, dir, p, T.parent[n]); }
  }

  lemma TheSharer(e: Entry) returns (b: Node)
    requires |e.sharers| == 1
    ensures e.sharers == {b}
  {
    b :| b in e.sharers;
    assert |e.sharers - {b}| == 0;
  }

  // ---------------------------------------------------------------- the invariant licenses the loops

  lemma CoherentInvReady(T: Topology, s: Line, p: Node, c: Node)
    requires Coherent(T, s) && p < |s.st|
    ensures InvReady(T, TakeOut(s, p, c), p)
  {
    var s0 := TakeOut(s, p, c);
    assert NodeOk(T, s, p);
    forall n | 0 <= n < |s.st| && Hit(T, s0.dir, p, n) ensures EntryOk(T, s0.dir[n], n) && !s0.st[n].I? {
      assert NodeOk(T, s, n);
      HitAbove(T, s0.dir, p, n);
    }
  }

  lemma CoherentInvxReady(T: Topology, s: Line, p: Node)
    requires Coherent(T, s) && p < |s.st|
    ensures InvxReady(T, s, p)
  {
    assert NodeOk(T, s, p);
    forall n | 0 <= n < |s.st| && HitX(T, s.dir, p, n) ensures EntryOk(T, s.dir[n], n) && Owned(s.st[n]) {
      assert NodeOk(T, s, n);
    }
  }

  /** CheckForMESIRace, with its assertions; the panic is the branch that must not be reached. */
  method CheckForMESIRace(t: Access, state: State, initialState: State) returns (skipAccess: bool, t': Access)
    requires !CheckRace(t, state, initialState).Fail?
    ensures CheckRace(t, state, initialState) == if skipAccess then Skip else Go(t')
  {
    skipAccess, t' := false, t;
    if state != initialState {
      if t.PUTS? || t.PUTX? {
        if state.I? {
          skipAccess := true;
        } else {
          assert state.S?;
          if t.PUTX? { t' := PUTS; }
        }
      } else {
        assert t.GETX?;
        assert initialState.S?;
        assert state.I?;
      }
    }
  }

  class Hierarchy {
    const T: Topology
    var line: Line

    constructor (T: Topology, line: Line)
      requires Init(T, line)
      ensures this.T == T && this.line == line && Inv(T, line)
    {
      this.T, this.line := T, line;
      new;
      forall n | 0 <= n < |line.st| ensures NodeOk(T, line, n) {}
    }

    /** MESITopCC::sendInvalidates with type INV. */
    method SendInv(p: Node, reqWriteback: bool) returns (writeback: bool)
      requires InvReady(T, line, p)
      modifies this
      ensures line == InvBelow(T, old(line), p)
      ensures writeback == (reqWriteback || InvWriteback(T, old(line), p))
      decreases |T.parent| - p, 2
    {
      ghost var o := line;
      writeback := reqWriteback;
      if !line.dir[p].IsEmpty() {
        var sentInvs;
        writeback, sentInvs := InvalidateChildren(p, o, reqWriteback);
        InvUpToEnds(T, o, p);
        assert sentInvs == line.dir[p].numSharers;
        line := line.(dir := line.dir[p := line.dir[p].(numSharers := 0)]);
      } else {
        EmptyInv(T, o, p);
      }
    }

    /** The loop over the children of p, with the number of invalidations sent. */
    method InvalidateChildren(p: Node, ghost o: Line, reqWriteback: bool) returns (writeback: bool, sentInvs: nat)
      requires InvReady(T, o, p) && line == o
      modifies this
      ensures line == InvUpTo(T, o, p, |o.st|)
      ensures writeback == (reqWriteback || WritebackUpTo(T, o, p, |o.st|))
      ensures sentInvs == |o.dir[p].sharers|
      decreases |T.parent| - p, 1
    {
      InvUpToEnds(T, o, p);
      FromStep(o.dir[p].sharers, |o.st|);
      writeback, sentInvs := reqWriteback, 0;
      for c := 0 to |line.st|
        invariant line == InvUpTo(T, o, p, c)
        invariant writeback == (reqWriteback || WritebackUpTo(T, o, p, c))
        invariant sentInvs + |From(o.dir[p].sharers, c)| == |o.dir[p].sharers|
      {
        FromStep(o.dir[p].sharers, c);
        var sent;
        writeback, sent := InvalidateChild(p, c, o, writeback);
        if sent { sentInvs := sentInvs + 1; }
      }
    }

    /** One iteration of the loop: if c is a sharer it is invalidated and leaves the list. */
    method InvalidateChild(p: Node, c: Node, ghost o: Line, reqWriteback: bool) returns (writeback: bool, sent: bool)
      requires InvReady(T, o, p) && c < |o.st| && line == InvUpTo(T, o, p, c)
      requires WritebackUpTo(T, o, p, c) ==> reqWriteback
      modifies this
      ensures line == InvUpTo(T, o, p, c + 1)
      ensures writeback == (reqWriteback || WritebackUpTo(T, o, p, c + 1))
      ensures WritebackUpTo(T, o, p, c) ==> WritebackUpTo(T, o, p, c + 1)
      ensures sent == (c in o.dir[p].sharers)
      decreases |T.parent| - p, 0
    {
      sent := c in line.dir[p].sharers;
      if sent {
        BranchReady(T, o, p, c);
        InvUpToStep(T, o, p, c);
        writeback := ReceiveInv(c, reqWriteback);
        line := line.(dir := line.dir[p := line.dir[p].(sharers := line.dir[p].sharers - {c})]);
      } else {
        InvUpToSkip(T, o, p, c);
        writeback := reqWriteback;
      }
    }

    /** MESICC::processInv with type INV: first the caches below c, then c itself. */
    method ReceiveInv(c: Node, reqWriteback: bool) returns (writeback: bool)
      requires InvReady(T, line, c) && c > 0 && !line.st[c].I?
      modifies this
      ensures var s := InvBelow(T, old(line), c); line == s.(st := s.st[c := I])
      ensures writeback == (reqWriteback || InvWriteback(T, old(line), c) || old(line.st[c]).M?)
      decreases |T.parent| - c, 3
    {
      writeback := SendInv(c, reqWriteback);
      HitAbove(T, old(line.dir), c, c);
      assert !line.st[c].I?;
      if line.st[c].M? { writeback := true; }
      line := line.(st := line.st[c := I]);
    }

    /** MESITopCC::sendInvalidates with type INVX. */
    method SendInvx(p: Node, reqWriteback: bool) returns (writeback: bool)
      requires InvxReady(T, line, p)
      modifies this
      ensures line == InvxBelow(T, old(line), p)
      ensures writeback == (reqWriteback || InvxWriteback(T, old(line), p))
      decreases |T.parent| - p, 0
    {
      ghost var o := line;
      writeback := reqWriteback;
      if !line.dir[p].IsExclusive() {
        NoInvx(T, o, p);
        return;
      }
      ghost var b := TheSharer(o.dir[p]);
      InvxOneStep(T, o, p, b);
      var sentInvs := 0;
      for c := 0 to |line.st|
        invariant line == if c <= b then o else InvxOne(T, o, p, b)
        invariant writeback == (reqWriteback || (b < c && InvxWriteback(T, o, p)))
        invariant sentInvs == if c <= b then 0 else 1
      {
        if c in line.dir[p].sharers {
          writeback := ReceiveInvx(c, writeback);
          sentInvs := sentInvs + 1;
        }
      }
      assert sentInvs == line.dir[p].numSharers;
      assert line.dir[p].exclusive && line.dir[p].numSharers == 1;
      line := line.(dir := line.dir[p := line.dir[p].(exclusive := false)]);
    }

    /** MESICC::processInv with type INVX. */
    method ReceiveInvx(c: Node, reqWriteback: bool) returns (writeback: bool)
      requires InvxReady(T, line, c) && c > 0 && Owned(line.st[c])
      modifies this
      ensures line == InvxOne(T, old(line), T.parent[c], c)
      ensures writeback == (reqWriteback || InvxWriteback(T, old(line), c) || old(line.st[c]).M?)
      decreases |T.parent| - c, 1
    {
      writeback := SendInvx(c, reqWriteback);
      HitAbove(T, old(line.dir), c, c);
      assert line.st[c].E? || line.st[c].M?;
      if line.st[c].M? { writeback := true; }
      line := line.(st := line.st[c := S]);
    }

    /** MESITopCC::processAccess for GETS and GETX by child c, with processWritebackOnAccess. */
    method TopAccess(p: Node, c: Node, t: Access, noExcl: bool)
      requires Coherent(T, line) && 0 < c < |line.st| && T.parent[c] == p
      requires line.op[c].Wait? && line.op[c].t == t && IsGet(t) && (t.GETX? ==> line.st[p].M?)
      modifies this
      ensures line == Grant(T, old(line), p, c, t, noExcl)
    {
      ghost var o := line;
      assert NodeOk(T, line, c) && NodeOk(T, line, p);
      if t.GETS? {
        ShareAccess(p, c, noExcl);
      } else {
        CoherentInvReady(T, line, p, c);
        if c in line.dir[p].sharers {
          assert !line.dir[p].IsExclusive();
          line := line.(dir := line.dir[p := line.dir[p].Without(c)]);
        }
        assert line == TakeOut(o, p, c);
        var inducedWriteback := SendInv(p, false);
        GrantXAt(T, o, p, c, noExcl, p);
        assert line.dir[p].numSharers == 0;
        line := Absorb(line, p, inducedWriteback);
        line := line.(dir := line.dir[p := line.dir[p].With(c, true)], st := line.st[c := M]);
        assert line.dir[p].numSharers == 1;
      }
    }

    method ShareAccess(p: Node, c: Node, noExcl: bool)
      requires Coherent(T, line) && 0 < c < |line.st| && T.parent[c] == p
      requires line.op[c].Wait? && line.op[c].t.GETS?
      modifies this
      ensures line == Grant(T, old(line), p, c, GETS, noExcl)
    {
      assert NodeOk(T, line, c) && NodeOk(T, line, p);
      if line.dir[p].IsEmpty() && Owned(line.st[p]) && !noExcl {
        line := line.(dir := line.dir[p := Entry(1, line.dir[p].sharers + {c}, true)], st := line.st[c := E]);
      } else {
        assert c !in line.dir[p].sharers;
        if line.dir[p].IsExclusive() {
          CoherentInvxReady(T, line, p);
          var inducedWriteback := SendInvx(p, false);
          line := Absorb(line, p, inducedWriteback);
        }
        assert !line.dir[p].IsExclusive();
        line := line.(dir := line.dir[p := line.dir[p].With(c, false)], st := line.st[c := S]);
      }
    }

    /** Cache::access at the parent of c, from the race check to the reply or to the parent's own
        request; shouldAllocate's panic and the controllers' assertions cannot fire. */
    method HandleRequest(c: Node, noExcl: bool)
      requires Inv(T, line) && Enabled(T, line, Start(c, noExcl))
      modifies this
      ensures line == Apply(T, old(line), Start(c, noExcl))
      ensures Inv(T, line)
    {
      StepCoherent(T, line, Start(c, noExcl));
      StepDirty(T, line, Start(c, noExcl));
      assert NodeOk(T, line, c) && NodeOk(T, line, T.parent[c]);
      var p := T.parent[c];
      var skip, t := CheckForMESIRace(line.op[c].t, line.st[c], line.op[c].init);
      if skip {
        line := PutDone(line, c);
      } else if !IsGet(t) {
        assert p in line.present;
        assert !line.st[p].I?;
        assert t.PUTX? ==> Owned(line.st[p]);
        assert c in line.dir[p].sharers;
        if t.PUTX? && line.st[p].E? { line := line.(st := line.st[p := M]); }
        line := line.(dir := line.dir[p := line.dir[p].Without(c)], st := line.st[c := I]);
        line := PutDone(line, c);
      } else {
        HandleGet(p, c, t, noExcl);
      }
    }

    method HandleGet(p: Node, c: Node, t: Access, noExcl: bool)
      requires Coherent(T, line) && 0 < c < |line.st| && T.parent[c] == p && line.op[p].Idle?
      requires line.op[c].Wait? && line.op[c].t == t && IsGet(t)
      modifies this
      ensures line == StartGet(T, old(line), c, t, noExcl)
    {
      PresentKeeps(T, line, p);
      line := line.(present := line.present + {p});
      if !Suffices(line.st[p], t) {
        line := line.(op := line.op[p := Wait(t, line.st[p], Child(c))]);
      } else {
        if t.GETX? {
          UpgradeKeeps(T, line, p);
          line := line.(st := line.st[p := M]);
        }
        TopAccess(p, c, t, noExcl);
        line := Granted(line, c);
      }
    }

    /** The rest of MESICC::processAccess once p's own request has been answered: p serves the child it asked for. */
    method ResumeGet(p: Node, c: Node, noExcl: bool)
      requires Inv(T, line) && Enabled(T, line, Deliver(p, c, noExcl))
      modifies this
      ensures line == Apply(T, old(line), Deliver(p, c, noExcl))
      ensures Inv(T, line)
    {
      StepCoherent(T, line, Deliver(p, c, noExcl));
      StepDirty(T, line, Deliver(p, c, noExcl));
      assert NodeOk(T, line, p) && NodeOk(T, line, c);
      var t := line.op[p].t;
      IdleKeeps(T, line, p);
      line := line.(op := line.op[p := Idle]);
      TopAccess(p, c, t, noExcl);
      line := Granted(line, c);
    }

    /** MESICC::processEviction: invalidate below, then write back to the level above. */
    method ProcessEviction(n: Node)
      requires Inv(T, line) && Enabled(T, line, EvictLine(n))
      modifies this
      ensures line == Apply(T, old(line), EvictLine(n))
      ensures Inv(T, line)
    {
      StepCoherent(T, line, EvictLine(n));
      StepDirty(T, line, EvictLine(n));
      ghost var o := line;
      assert NodeOk(T, o, n);
      CoherentInvReady(T, line, n, n);
      var lowerLevelWriteback := SendInv(n, false);
      HitAbove(T, o.dir, n, n);
      if lowerLevelWriteback {
        ghost var m :| 0 <= m < |o.st| && Hit(T, o.dir, n, m) && o.st[m].M?;
        HitOwned(T, o, n, m);
        assert Owned(line.st[n]);
        line := line.(st := line.st[n := M]);
      }
      line := SendPut(line, n);
    }
  }

  lemma EmptyInv(T: Topology, o: Line, p: Node)
    requires InvReady(T, o, p) && o.dir[p].sharers == {}
    ensures InvBelow(T, o, p) == o && !InvWriteback(T, o, p)
  {
    forall n | 0 <= n < |o.st| ensures !Hit(T, o.dir, p, n) { HitSplit(T, o.dir, p, n); }
    assert InvBelow(T, o, p).st == o.st && InvBelow(T, o, p).dir == o.dir;
  }
}
