/** The activation window of a rank: a circular buffer of its last few ACT cycles. */
module ActWindow {
  ghost predicate Sorted(w: seq<nat>) { forall i, j :: 0 <= i < j < |w| ==> w[i] <= w[j] }

  /** How many of the newest entries are later than a. */
  function Later(w: seq<nat>, a: nat): (p: nat)
    ensures p <= |w|
  {
    if w == [] || w[|w| - 1] <= a then 0 else 1 + Later(w[..|w| - 1], a)
  }

  lemma {:induction false} LaterIs(w: seq<nat>, a: nat)
    ensures var k := |w| - Later(w, a); (k > 0 ==> w[k - 1] <= a) && forall i :: k <= i < |w| ==> w[i] > a
  {
    if w != [] && w[|w| - 1] > a { LaterIs(w[..|w| - 1], a); }
  }

  lemma {:induction false} LaterFrom(w: seq<nat>, a: nat, k: nat)
    requires k <= |w| && (forall i :: k <= i < |w| ==> w[i] > a) && (k > 0 ==> w[k - 1] <= a)
    ensures Later(w, a) == |w| - k
  {
    if k < |w| { LaterFrom(w[..|w| - 1], a, k); }
  }

  /** The window, oldest first, after the insertion loop.  If a is older than all but the entry it replaces, the
      loop comes round to a slot it has already overwritten. */
  function Pushed(w: seq<nat>, a: nat): (x: seq<nat>)
    requires w != [] && w[0] <= a
    ensures |x| == |w|
  {
    LaterIs(w, a);
    var n, k := |w|, |w| - Later(w, a);
    if k == 1 < n then [w[n - 1]] + w[1..n - 1] + [a]
    else w[1..k] + [a] + w[k..]
  }

  lemma InsertedBetween(x: seq<nat>, a: nat, y: seq<nat>)
    ensures multiset(x + [a] + y) == multiset(x + y) + multiset{a}
  {}

  lemma WrappedRound(b: nat, x: seq<nat>, a: nat)
    ensures multiset([b] + x + [a]) == multiset(x + [b]) + multiset{a}
  {}

  lemma LaterFewer(w: seq<nat>, a: nat)
    requires w != [] && w[0] <= a
    ensures Later(w, a) < |w|
  {
    LaterIs(w, a);
  }

  lemma InsertedAt(w: seq<nat>, k: nat, a: nat)
    requires 1 <= k <= |w|
    ensures multiset(w[1..k] + [a] + w[k..]) == multiset(w[1..]) + multiset{a}
  {
    InsertedBetween(w[1..k], a, w[k..]);
    assert w[1..k] + w[k..] == w[1..];
  }

  lemma WrappedAt(w: seq<nat>, a: nat)
    requires |w| > 1
    ensures multiset([w[|w| - 1]] + w[1..|w| - 1] + [a]) == multiset(w[1..]) + multiset{a}
  {
    WrappedRound(w[|w| - 1], w[1..|w| - 1], a);
    assert w[1..|w| - 1] + [w[|w| - 1]] == w[1..];
  }

  /** No entry but the oldest is ever lost. */
  lemma PushedContents(w: seq<nat>, a: nat)
    requires w != [] && w[0] <= a
    ensures multiset(Pushed(w, a)) == multiset(w[1..]) + multiset{a}
  {
    LaterFewer(w, a);
    var n, k, x := |w|, |w| - Later(w, a), Pushed(w, a);
    if k == 1 < n {
      assert x == [w[n - 1]] + w[1..n - 1] + [a];
      WrappedAt(w, a);
    } else {
      assert x == w[1..k] + [a] + w[k..];
      InsertedAt(w, k, a);
    }
  }

  /** The window stays in order exactly when the new ACT is no older than the second-oldest entry. */
  lemma SortedExactly(w: seq<nat>, a: nat)
    requires w != [] && w[0] <= a && Sorted(w)
    ensures Sorted(Pushed(w, a)) <==> |w| == 1 || a >= w[1]
  {
    LaterIs(w, a);
    var n, k, x := |w|, |w| - Later(w, a), Pushed(w, a);
    if k == 1 < n { assert x[0] == w[n - 1] && x[n - 1] == a && w[1] > a; }
  }

  /** When it does not, the window takes its newest entry for its oldest. */
  lemma OutOfOrder(w: seq<nat>, a: nat)
    requires w != [] && w[0] <= a && Sorted(w) && |w| > 1 && a < w[1]
    ensures Pushed(w, a)[0] == w[|w| - 1] && Pushed(w, a)[|w| - 1] == a
  {
    LaterIs(w, a);
  }

  // ---------------------------------------------------------------- what the window is for

  /** The window of n entries after these ACTs. */
  ghost function After(n: nat, acts: seq<nat>): (w: seq<nat>)
    ensures |w| == n
  {
    if acts == [] || n == 0 then seq(n, _ => 0)
    else
      var w, a := After(n, acts[..|acts| - 1]), acts[|acts| - 1];
      if w[0] <= a then Pushed(w, a) else w
  }

  /** Each ACT came at least gap after what was then taken for the oldest entry. */
  ghost predicate Allowed(n: nat, gap: nat, acts: seq<nat>) {
    n > 0 && (acts == [] || (var k := |acts| - 1; Allowed(n, gap, acts[..k]) && After(n, acts[..k])[0] + gap <= acts[k]))
  }

  lemma AfterAppend(n: nat, acts: seq<nat>, a: nat)
    requires n > 0 && After(n, acts)[0] <= a
    ensures After(n, acts + [a]) == Pushed(After(n, acts), a)
    ensures forall gap: nat {:trigger Allowed(n, gap, acts)} ::
      Allowed(n, gap, acts) && After(n, acts)[0] + gap <= a ==> Allowed(n, gap, acts + [a])
  {
    assert (acts + [a])[..|acts|] == acts;
  }

  /** With tFAW 20, ACTs at 40, 50, 60 and then 30 bring a window of four out of order: the last may well be older
      than those before it, since banks wait for different things. */
  lemma OutOfOrderExample() returns (acts: seq<nat>)
    ensures acts == [40, 50, 60] && Allowed(4, 20, acts) && After(4, acts) == [0, 40, 50, 60]
    ensures Allowed(4, 20, acts + [30]) && After(4, acts + [30]) == [60, 40, 50, 30]
  {
    acts := [];
    InOrderStep(acts, 40);
    acts := acts + [40];
    InOrderStep(acts, 50);
    acts := acts + [50];
    InOrderStep(acts, 60);
    acts := acts + [60];
    LaterFrom(After(4, acts), 30, 1);
    AfterAppend(4, acts, 30);
  }

  lemma InOrderStep(acts: seq<nat>, a: nat)
    requires Allowed(4, 20, acts) && After(4, acts)[0] + 20 <= a && After(4, acts)[3] <= a
    ensures Allowed(4, 20, acts + [a]) && After(4, acts + [a]) == After(4, acts)[1..] + [a]
  {
    var w := After(4, acts);
    AfterAppend(4, acts, a);
    LaterFrom(w, a, 4);
  }

  /** chain puts every ACT into one of n chains, in which ACTs are gap apart; last has the latest ACT of each. */
  ghost predicate Chained(n: nat, gap: nat, acts: seq<nat>, chain: seq<nat>, last: seq<nat>) {
    && |chain| == |acts| && |last| == n
    && (forall i :: 0 <= i < |acts| ==> chain[i] < n && acts[i] <= last[chain[i]])
    && (forall i, j :: 0 <= i < j < |acts| && chain[i] == chain[j] ==> acts[i] + gap <= acts[j])
  }

  lemma ChainStep(n: nat, gap: nat, acts: seq<nat>, chain: seq<nat>, last: seq<nat>, c: nat, a: nat)
    requires Chained(n, gap, acts, chain, last) && c < n && last[c] + gap <= a
    ensures Chained(n, gap, acts + [a], chain + [c], last[c := a])
  {}

  lemma Displaced(last: seq<nat>, w: seq<nat>, a: nat) returns (c: nat)
    requires w != [] && multiset(last) == multiset(w)
    ensures c < |last| && last[c] == w[0] && multiset(last[c := a]) == multiset(w[1..]) + multiset{a}
  {
    assert w == [w[0]] + w[1..];
    assert w[0] in multiset(last);
    c :| 0 <= c < |last| && last[c] == w[0];
  }

  /** In or out of order, an ACT displaces one entry and comes gap after it: it continues that entry's chain. */
  lemma {:induction false} Chains(n: nat, gap: nat, acts: seq<nat>) returns (chain: seq<nat>, last: seq<nat>)
    requires Allowed(n, gap, acts)
    ensures Chained(n, gap, acts, chain, last) && multiset(last) == multiset(After(n, acts))
  {
    if acts == [] {
      chain, last := [], After(n, acts);
    } else {
      var k := |acts| - 1;
      var w, a := After(n, acts[..k]), acts[k];
      chain, last := Chains(n, gap, acts[..k]);
      var c := Displaced(last, w, a);
      ChainStep(n, gap, acts[..k], chain, last, c, a);
      PushedContents(w, a);
      assert acts == acts[..k] + [a];
      chain, last := chain + [c], last[c := a];
    }
  }

  lemma {:induction false} Injective(s: set<nat>, f: nat -> nat, n: nat)
    requires forall i :: i in s ==> f(i) < n
    requires forall i, j :: i in s && j in s && i < j ==> f(i) != f(j)
    ensures |s| <= n
    decreases n
  {
    if n == 0 {
      assert s == {};
    } else if i :| i in s && f(i) == n - 1 {
      Injective(s - {i}, f, n - 1);
    } else {
      Injective(s, f, n - 1);
    }
  }

  /** Of any n + 1 ACTs, two are gap apart: the window does its work even when it gets out of order. */
  lemma SpanKept(n: nat, gap: nat, acts: seq<nat>, s: set<nat>)
    requires Allowed(n, gap, acts) && |s| > n && forall i :: i in s ==> i < |acts|
    ensures exists i, j :: i in s && j in s && i < j && acts[i] + gap <= acts[j]
  {
    var chain, last := Chains(n, gap, acts);
    var f := (i: nat) => if i < |chain| then chain[i] else 0;
    if forall i, j :: i in s && j in s && i < j ==> f(i) != f(j) { Injective(s, f, n); }
  }

  // ---------------------------------------------------------------- the circular buffer

  /** The slot of the entry that is c places younger than the oldest, which is at idx. */
  function Slot(idx: nat, n: nat, c: nat): (i: nat)
    requires idx < n && c <= n
    ensures i < n
  {
    if idx + c < n then idx + c else idx + c - n
  }

  /** The buffer's entries, oldest first. */
  function Entries(b: seq<nat>, idx: nat): (w: seq<nat>)
    requires idx < |b|
    ensures |w| == |b|
  {
    seq(|b|, c requires 0 <= c < |b| => b[Slot(idx, |b|, c)])
  }

  /** Entry c after j turns of the insertion loop. */
  function Shifted(w: seq<nat>, j: nat, c: nat): nat
    requires j <= |w| && c < |w|
  {
    if c == 0 then (if j == 0 then w[0] else w[|w| - 1])
    else if c > |w| - j then (if c == 1 then w[|w| - 1] else w[c - 1])
    else w[c]
  }

  ghost predicate Turned(b: seq<nat>, idx: nat, w: seq<nat>, j: nat) {
    && idx < |b| == |w| && j <= |w|
    && forall c :: 0 <= c < |w| ==> Entries(b, idx)[c] == Shifted(w, j, c)
  }

  lemma TurnStep(b: seq<nat>, idx: nat, w: seq<nat>, j: nat)
    requires Turned(b, idx, w, j) && j < |w|
    ensures Turned(b[Slot(idx, |w|, |w| - j) := b[Slot(idx, |w|, |w| - j - 1)]], idx, w, j + 1)
  {
    var x := b[Slot(idx, |w|, |w| - j) := b[Slot(idx, |w|, |w| - j - 1)]];
    assert Entries(b, idx)[|w| - j - 1] == Shifted(w, j, |w| - j - 1);
    forall c | 0 <= c < |w| ensures Entries(x, idx)[c] == Shifted(w, j + 1, c) {
      assert Entries(b, idx)[c] == Shifted(w, j, c);
    }
  }

  function PushedEntry(w: seq<nat>, k: nat, a: nat, c: nat): nat
    requires 1 <= k <= |w| && c < |w|
  {
    if k == 1 < |w| then (if c == 0 then w[|w| - 1] else if c == |w| - 1 then a else w[c])
    else if c < k - 1 then w[c + 1] else if c == k - 1 then a else w[c]
  }

  lemma PushedAt(w: seq<nat>, a: nat, c: nat)
    requires w != [] && w[0] <= a && c < |w|
    ensures 1 <= |w| - Later(w, a) && Pushed(w, a)[c] == PushedEntry(w, |w| - Later(w, a), a, c)
  {
    LaterIs(w, a);
  }

  /** The entry the loop looks at next. */
  lemma NextEntry(b: seq<nat>, idx: nat, w: seq<nat>, j: nat)
    requires Turned(b, idx, w, j) && j < |w|
    ensures var cur := Slot(idx, |w|, |w| - j);
      && Slot(idx, |w|, |w| - j - 1) == (if cur > 0 then cur - 1 else |w| - 1)
      && b[Slot(idx, |w|, |w| - j - 1)] == (if j == |w| - 1 then (if j == 0 then w[0] else w[|w| - 1]) else w[|w| - j - 1])
      && (Slot(idx, |w|, |w| - j - 1) == idx <==> j == |w| - 1)
  {
    assert Entries(b, idx)[|w| - j - 1] == Shifted(w, j, |w| - j - 1);
  }

  /** Writing a into the slot reached, and moving on, gives the new window. */
  lemma TurnEnd(b: seq<nat>, idx: nat, w: seq<nat>, j: nat, a: nat)
    requires Turned(b, idx, w, j) && w[0] <= a
    requires var p := Later(w, a); j == if p > 0 && p == |w| - 1 then |w| else p
    ensures var x := b[Slot(idx, |w|, |w| - j) := a]; Entries(x, Slot(idx, |w|, 1)) == Pushed(w, a)
  {
    var n := |w|;
    var x := b[Slot(idx, n, n - j) := a];
    forall c | 0 <= c < n ensures Entries(x, Slot(idx, n, 1))[c] == Pushed(w, a)[c] {
      PushedAt(w, a, c);
      TurnEndAt(b, idx, w, j, a, n - Later(w, a), c);
    }
  }

  lemma TurnEndAt(b: seq<nat>, idx: nat, w: seq<nat>, j: nat, a: nat, k: nat, c: nat)
    requires Turned(b, idx, w, j) && 1 <= k <= |w| && c < |w|
    requires j == if k == 1 < |w| then |w| else |w| - k
    ensures var x := b[Slot(idx, |w|, |w| - j) := a]; Entries(x, Slot(idx, |w|, 1))[c] == PushedEntry(w, k, a, c)
  {
    var n := |w|;
    var d := if c + 1 < n then c + 1 else 0;
    assert Slot(Slot(idx, n, 1), n, c) == Slot(idx, n, d);
    assert Entries(b, idx)[d] == Shifted(w, j, d);
  }

  /** acts has all ACTs recorded so far. */
  class Window {
    var buf: seq<nat>
    var idx: nat
    ghost var acts: seq<nat>

    ghost predicate Valid()
      reads this
    {
      idx < |buf| && Contents() == After(|buf|, acts)
    }

    ghost function Contents(): seq<nat>
      requires idx < |buf|
      reads this
    {
      Entries(buf, idx)
    }

    constructor (size: nat)
      requires size > 0
      ensures Valid() && |buf| == size && acts == []
    {
      buf := seq(size, _ => 0);
      idx := 0;
      acts := [];
    }

    function MinActCycle(): (a: nat)
      requires idx < |buf|
      reads this
      ensures a == Contents()[0]
    {
      buf[idx]
    }

    function Dec(i: nat): nat
      requires i < |buf|
      reads this
    {
      if i > 0 then i - 1 else |buf| - 1
    }

    method AddActivation(a: nat)
      requires Valid() && MinActCycle() <= a
      modifies this
      ensures Valid() && Contents() == Pushed(old(Contents()), a)
      ensures acts == old(acts) + [a] && |buf| == old(|buf|)
    {
      AfterAppend(|buf|, acts, a);
      Insert(a);
      acts := acts + [a];
    }

    method Insert(a: nat)
      requires idx < |buf| && MinActCycle() <= a
      modifies this`buf, this`idx
      ensures idx < |buf| == old(|buf|) && Contents() == Pushed(old(Contents()), a)
    {
      ghost var w, was, n := Contents(), idx, |buf|;
      ghost var j;
      var cur;
      cur, j := MakeRoom(a);
      TurnEnd(buf, was, w, j, a);
      buf := buf[cur := a];
      idx := if idx < |buf| - 1 then idx + 1 else 0;
      assert idx == Slot(was, n, 1);
    }

    /** One turn of the loop below. */
    method MoveUp(cur: nat, a: nat, ghost w: seq<nat>, ghost j: nat) returns (cur': nat)
      requires Turned(buf, idx, w, j) && j < |w| && cur == Slot(idx, |w|, |w| - j) && buf[Dec(cur)] > a
      modifies this`buf
      ensures Turned(buf, idx, w, j + 1) && cur' == Slot(idx, |w|, |w| - j - 1) && (cur' == idx <==> j == |w| - 1)
      ensures j < |w| - 1 ==> w[|w| - j - 1] > a
    {
      NextEntry(buf, idx, w, j);
      TurnStep(buf, idx, w, j);
      buf := buf[cur := buf[Dec(cur)]];
      cur' := Dec(cur);
    }

    /** Moves the entries later than a one slot up. */
    method MakeRoom(a: nat) returns (cur: nat, ghost j: nat)
      requires idx < |buf| && MinActCycle() <= a
      modifies this`buf
      ensures Turned(buf, idx, old(Contents()), j) && cur == Slot(idx, |buf|, |buf| - j)
      ensures var p := Later(old(Contents()), a); j == if p > 0 && p == |buf| - 1 then |buf| else p
    {
      ghost var w := Contents();
      ghost var n := |w|;
      cur, j := idx, 0;
      NextEntry(buf, idx, w, 0);
      while buf[Dec(cur)] > a
        invariant j < n && cur == Slot(idx, n, n - j) && Turned(buf, idx, w, j)
        invariant forall i :: n - j <= i < n ==> w[i] > a
        decreases n - j
      {
        cur := MoveUp(cur, a, w, j);
        j := j + 1;
        if cur == idx { break; }
      }
      if j < n {
        NextEntry(buf, idx, w, j);
        LaterFrom(w, a, n - j);
      } else {
        LaterFrom(w, a, 1);
      }
    }
  }
}
