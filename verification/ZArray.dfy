/** The zcache array: positions are found by hashing, lines move between positions, and an insertion
    relocates a chain of lines so that the chosen victim's position chain ends at the new line. */
module ZArray {
  import opened Arithmetic

  type Address = nat

  datatype Walk = Walk(pos: nat, lineId: nat, parentIdx: int)

  /** Geometry and hash functions; a hash is masked to a set index. */
  datatype Geometry = Geometry(ways: nat, numSets: nat, cands: nat, hash: (nat, Address) -> nat) {
    ghost predicate Valid() { ways > 1 && numSets > 0 && cands >= ways }

    function NumLines(): nat { ways * numSets }

    /** The position of addr in way w. */
    function Pos(w: nat, addr: Address): (p: nat)
      requires numSets > 0
    {
      w * numSets + hash(w, addr) % numSets
    }
  }

  lemma PosBounds(g: Geometry, w: nat, addr: Address)
    requires g.Valid() && w < g.ways
    ensures w * g.numSets <= g.Pos(w, addr) < w * g.numSets + g.numSets <= g.NumLines()
  {
    MulMono(w + 1, g.ways, g.numSets);
  }

  /** Positions of different ways never coincide. */
  lemma PosWay(g: Geometry, w: nat, w': nat, addr: Address, addr': Address)
    requires g.Valid() && w < g.ways && w' < g.ways && g.Pos(w, addr) == g.Pos(w', addr')
    ensures w == w'
  {
    PosBounds(g, w, addr);
    PosBounds(g, w', addr');
    if w < w' { MulMono(w + 1, w', g.numSets); }
    if w' < w { MulMono(w' + 1, w, g.numSets); }
  }

  // ---------------------------------------------------------------- what the arrays mean

  ghost predicate Permutation(lookup: seq<nat>) {
    && (forall i :: 0 <= i < |lookup| ==> lookup[i] < |lookup|)
    && (forall i, j :: 0 <= i < j < |lookup| ==> lookup[i] != lookup[j])
  }

  /** Line l sits at a position its address hashes to in way w. */
  ghost predicate SitsAt(g: Geometry, lookup: seq<nat>, addrs: seq<Address>, l: nat, w: nat)
    requires g.Valid() && |lookup| == |addrs| == g.NumLines() && l < |addrs|
  {
    w < g.ways && g.Pos(w, addrs[l]) < |lookup| && lookup[g.Pos(w, addrs[l])] == l
  }

  /** Every resident line can be found, and no address is resident twice; address 0 marks a free line. */
  ghost predicate Findable(g: Geometry, lookup: seq<nat>, addrs: seq<Address>) {
    && g.Valid() && |lookup| == |addrs| == g.NumLines()
    && Permutation(lookup)
    && (forall l :: 0 <= l < |addrs| && addrs[l] != 0 ==> exists w :: SitsAt(g, lookup, addrs, l, w))
    && (forall k, l :: 0 <= k < l < |addrs| && addrs[k] != 0 ==> addrs[k] != addrs[l])
  }

  /** ZArray::lookup as a function: the line in the first way that holds addr, or -1. */
  ghost function LookupFrom(g: Geometry, lookup: seq<nat>, addrs: seq<Address>, addr: Address, w: nat): (r: int)
    requires Findable(g, lookup, addrs) && w <= g.ways
    decreases g.ways - w
  {
    if w == g.ways then -1
    else
      PosBounds(g, w, addr);
      if addrs[lookup[g.Pos(w, addr)]] == addr then lookup[g.Pos(w, addr)]
      else LookupFrom(g, lookup, addrs, addr, w + 1)
  }

  ghost function Lookup(g: Geometry, lookup: seq<nat>, addrs: seq<Address>, addr: Address): int
    requires Findable(g, lookup, addrs)
  {
    LookupFrom(g, lookup, addrs, addr, 0)
  }

  lemma {:induction false} LookupSound(g: Geometry, lookup: seq<nat>, addrs: seq<Address>, addr: Address, w: nat)
    requires Findable(g, lookup, addrs) && w <= g.ways
    ensures var r := LookupFrom(g, lookup, addrs, addr, w);
      r == -1 || (0 <= r < |addrs| && addrs[r] == addr)
    ensures forall l, v :: w <= v && 0 <= l < |addrs| && addrs[l] == addr && SitsAt(g, lookup, addrs, l, v)
              ==> LookupFrom(g, lookup, addrs, addr, w) != -1
    decreases g.ways - w
  {
    if w < g.ways {
      PosBounds(g, w, addr);
      LookupSound(g, lookup, addrs, addr, w + 1);
    }
  }

  /** lookup returns the one line that holds addr, and -1 exactly when no line does. */
  lemma LookupExact(g: Geometry, lookup: seq<nat>, addrs: seq<Address>, addr: Address)
    requires Findable(g, lookup, addrs) && addr != 0
    ensures forall l :: 0 <= l < |addrs| && addrs[l] == addr ==> Lookup(g, lookup, addrs, addr) == l
    ensures addr !in addrs ==> Lookup(g, lookup, addrs, addr) == -1
  {
    LookupSound(g, lookup, addrs, addr, 0);
    forall l | 0 <= l < |addrs| && addrs[l] == addr ensures Lookup(g, lookup, addrs, addr) == l {
      var w :| SitsAt(g, lookup, addrs, l, w);
      var r := Lookup(g, lookup, addrs, addr);
      assert r != -1;
    }
  }

  // ---------------------------------------------------------------- the walk

  /** Candidate i of a walk for addr: a seed, or a place where an earlier candidate's line could go. */
  ghost predicate CandOk(g: Geometry, lookup: seq<nat>, addrs: seq<Address>, addr: Address, cs: seq<Walk>, i: int)
    requires g.Valid() && |lookup| == |addrs| == g.NumLines() && 0 <= i < |cs|
  {
    var c := cs[i];
    && c.pos < |lookup| && c.lineId == lookup[c.pos] && c.lineId < |addrs|
    && (if i < g.ways then c.parentIdx == -1 && c.pos == g.Pos(i, addr)
        else
          && 0 <= c.parentIdx && c.parentIdx + g.ways <= i
          && cs[c.parentIdx].lineId < |addrs| && cs[c.parentIdx].lineId != c.lineId
          && exists w: nat :: w < g.ways && c.pos == g.Pos(w, addrs[cs[c.parentIdx].lineId]))
  }

  /** If the way-w place of candidate j's line holds another line, it is a candidate with parent j. */
  ghost predicate Expanded(g: Geometry, lookup: seq<nat>, addrs: seq<Address>, cs: seq<Walk>, j: int, w: int)
    requires g.Valid() && |lookup| == |addrs| == g.NumLines() && 0 <= j < |cs| && 0 <= w < g.ways
  {
    && cs[j].lineId < |addrs|
    && var pos := g.Pos(w, addrs[cs[j].lineId]);
       pos < |lookup| && (lookup[pos] != cs[j].lineId ==> exists k :: g.ways <= k < |cs| && cs[k].parentIdx == j && cs[k].pos == pos)
  }

  /** cs after expanding candidates 0..n in order, and candidate n in its first v ways. */
  ghost predicate WalkOk(g: Geometry, lookup: seq<nat>, addrs: seq<Address>, addr: Address, cs: seq<Walk>, n: nat, v: nat) {
    && Findable(g, lookup, addrs)
    && |cs| >= g.ways && n < |cs| && v <= g.ways
    && (forall i :: 0 <= i < |cs| ==> CandOk(g, lookup, addrs, addr, cs, i))
    && (forall i :: g.ways <= i < |cs| ==> cs[i].parentIdx <= n)
    && (forall i, j :: g.ways <= i < j < |cs| ==> cs[i].parentIdx <= cs[j].parentIdx)
    && (forall j, w :: 0 <= j < n && 0 <= w < g.ways ==> Expanded(g, lookup, addrs, cs, j, w))
    && (forall w :: 0 <= w < v ==> Expanded(g, lookup, addrs, cs, n, w))
  }

  ghost predicate Occupied(addrs: seq<Address>, cs: seq<Walk>) {
    forall i :: 0 <= i < |cs| ==> cs[i].lineId < |addrs| && addrs[cs[i].lineId] != 0
  }

  lemma SeedStep(g: Geometry, lookup: seq<nat>, addrs: seq<Address>, addr: Address, cs: seq<Walk>)
    requires Findable(g, lookup, addrs) && |cs| < g.ways
    requires forall i :: 0 <= i < |cs| ==> CandOk(g, lookup, addrs, addr, cs, i)
    ensures var pos := g.Pos(|cs|, addr);
      && pos < |lookup|
      && forall i :: 0 <= i <= |cs| ==> CandOk(g, lookup, addrs, addr, cs + [Walk(pos, lookup[pos], -1)], i)
  {
    PosBounds(g, |cs|, addr);
    var pos := g.Pos(|cs|, addr);
    var cs' := cs + [Walk(pos, lookup[pos], -1)];
    forall i | 0 <= i <= |cs| ensures CandOk(g, lookup, addrs, addr, cs', i) {
      if i < |cs| { assert CandOk(g, lookup, addrs, addr, cs, i); }
    }
  }

  /** Adding one candidate, the way-v place of candidate n's line. */
  lemma WalkStep(g: Geometry, lookup: seq<nat>, addrs: seq<Address>, addr: Address, cs: seq<Walk>, n: nat, v: nat)
    requires WalkOk(g, lookup, addrs, addr, cs, n, v) && v < g.ways && n + g.ways <= |cs|
    ensures CandOk(g, lookup, addrs, addr, cs, n)
    ensures var pos := g.Pos(v, addrs[cs[n].lineId]);
      && pos < |lookup| && lookup[pos] < |addrs|
      && WalkOk(g, lookup, addrs, addr, Extend(g, lookup, addrs, cs, n, v), n, v + 1)
  {
    assert CandOk(g, lookup, addrs, addr, cs, n);
    var pos := g.Pos(v, addrs[cs[n].lineId]);
    PosBounds(g, v, addrs[cs[n].lineId]);
    var c := Walk(pos, lookup[pos], n);
    if c.lineId != cs[n].lineId {
      var cs' := cs + [c];
      forall i | 0 <= i < |cs'| ensures CandOk(g, lookup, addrs, addr, cs', i) {
        if i < |cs| { assert CandOk(g, lookup, addrs, addr, cs, i); }
      }
      forall j, w | 0 <= j <= n && 0 <= w < g.ways && (j < n || w < v) ensures Expanded(g, lookup, addrs, cs', j, w) {
        ExpandedMore(g, lookup, addrs, cs, c, j, w);
      }
      assert cs'[|cs|].parentIdx == n && cs'[|cs|].pos == pos;
      assert Expanded(g, lookup, addrs, cs', n, v);
    } else {
      assert Expanded(g, lookup, addrs, cs, n, v);
    }
  }

  /** The candidate list after looking at way v of candidate n: the line's own place is overwritten later. */
  ghost function Extend(g: Geometry, lookup: seq<nat>, addrs: seq<Address>, cs: seq<Walk>, n: nat, v: nat): seq<Walk>
    requires g.Valid() && n < |cs| && cs[n].lineId < |addrs| && g.Pos(v, addrs[cs[n].lineId]) < |lookup|
  {
    var pos := g.Pos(v, addrs[cs[n].lineId]);
    if lookup[pos] != cs[n].lineId then cs + [Walk(pos, lookup[pos], n)] else cs
  }

  lemma ExtendOk(g: Geometry, lookup: seq<nat>, addrs: seq<Address>, addr: Address, cs: seq<Walk>, n: nat, v: nat)
    requires WalkOk(g, lookup, addrs, addr, cs, n, v) && v < g.ways && n + g.ways <= |cs|
    requires cs[n].lineId < |addrs| && addrs[cs[n].lineId] != 0
    ensures var pos := g.Pos(v, addrs[cs[n].lineId]);
      && pos < |lookup| && lookup[pos] < |addrs|
      && var cs' := Extend(g, lookup, addrs, cs, n, v);
         && WalkOk(g, lookup, addrs, addr, cs', n, v + 1)
         && cs'[n] == cs[n]
         && (Occupied(addrs, cs') <==> Occupied(addrs, cs) && addrs[lookup[pos]] != 0)
  {
    WalkStep(g, lookup, addrs, addr, cs, n, v);
    var pos := g.Pos(v, addrs[cs[n].lineId]);
    OccupiedMore(addrs, cs, Walk(pos, lookup[pos], n));
  }

  lemma OccupiedMore(addrs: seq<Address>, cs: seq<Walk>, c: Walk)
    ensures Occupied(addrs, cs + [c]) <==> Occupied(addrs, cs) && c.lineId < |addrs| && addrs[c.lineId] != 0
  {
    var cs' := cs + [c];
    assert cs'[|cs|] == c && forall i :: 0 <= i < |cs| ==> cs'[i] == cs[i];
  }

  lemma ExpandedMore(g: Geometry, lookup: seq<nat>, addrs: seq<Address>, cs: seq<Walk>, c: Walk, j: int, w: int)
    requires g.Valid() && |lookup| == |addrs| == g.NumLines() && 0 <= j < |cs| && 0 <= w < g.ways
    requires Expanded(g, lookup, addrs, cs, j, w)
    ensures Expanded(g, lookup, addrs, cs + [c], j, w)
  {
    var pos := g.Pos(w, addrs[cs[j].lineId]);
    if lookup[pos] != cs[j].lineId {
      var k :| g.ways <= k < |cs| && cs[k].parentIdx == j && cs[k].pos == pos;
      assert (cs + [c])[k] == cs[k];
    }
  }

  lemma NextFringe(g: Geometry, lookup: seq<nat>, addrs: seq<Address>, addr: Address, cs: seq<Walk>, n: nat)
    requires WalkOk(g, lookup, addrs, addr, cs, n, g.ways) && n + 1 < |cs|
    ensures WalkOk(g, lookup, addrs, addr, cs, n + 1, 0)
  {
  }

  /** A resident line is at exactly one of its own places, so one expansion adds ways-1 candidates. */
  lemma OwnPlace(g: Geometry, lookup: seq<nat>, addrs: seq<Address>, l: nat) returns (w0: nat)
    requires Findable(g, lookup, addrs) && l < |addrs| && addrs[l] != 0
    ensures w0 < g.ways
    ensures forall w: nat :: w < g.ways ==> g.Pos(w, addrs[l]) < |lookup| && (lookup[g.Pos(w, addrs[l])] == l <==> w == w0)
  {
    w0 :| SitsAt(g, lookup, addrs, l, w0);
    forall w: nat | w < g.ways
      ensures g.Pos(w, addrs[l]) < |lookup| && (lookup[g.Pos(w, addrs[l])] == l <==> w == w0)
    {
      PosBounds(g, w, addrs[l]);
      if lookup[g.Pos(w, addrs[l])] == l {
        assert g.Pos(w, addrs[l]) == g.Pos(w0, addrs[l]);
        PosWay(g, w, w0, addrs[l], addrs[l]);
      }
    }
  }

  // ---------------------------------------------------------------- the relocation path

  /** i is the first candidate with its line. */
  /** The lines the replacement policy may choose from: those of the first cands candidates. */
  ghost function LineIds(cs: seq<Walk>, cands: nat): seq<nat> {
    seq(if |cs| > cands then cands else |cs|, i requires 0 <= i < |cs| => cs[i].lineId)
  }

  /** The line it chooses. */
  ghost function Chosen(cs: seq<Walk>, cands: nat, rank: seq<nat> -> nat): nat
    requires |cs| > 0 && cands > 0
  {
    var ids := LineIds(cs, cands);
    ids[rank(ids) % |ids|]
  }

  ghost predicate First(cs: seq<Walk>, i: int)
    requires 0 <= i < |cs|
  {
    forall k :: 0 <= k < i ==> cs[k].lineId != cs[i].lineId
  }

  /** If the parent's line was already candidate j, then i's line was already a child of j. */
  lemma EarlierChild(g: Geometry, lookup: seq<nat>, addrs: seq<Address>, addr: Address, cs: seq<Walk>, n: nat, i: nat, j: nat) returns (k: nat)
    requires WalkOk(g, lookup, addrs, addr, cs, n, 0) && g.ways <= i < |cs| && CandOk(g, lookup, addrs, addr, cs, i)
    requires j < cs[i].parentIdx && cs[j].lineId == cs[cs[i].parentIdx].lineId
    ensures k < i && cs[k].lineId == cs[i].lineId
  {
    var w: nat :| w < g.ways && cs[i].pos == g.Pos(w, addrs[cs[cs[i].parentIdx].lineId]);
    assert Expanded(g, lookup, addrs, cs, j, w);
    k :| g.ways <= k < |cs| && cs[k].parentIdx == j && cs[k].pos == cs[i].pos;
    assert CandOk(g, lookup, addrs, addr, cs, k);
  }

  /** On the path from a first occurrence every candidate is a first occurrence. */
  lemma ParentFirst(g: Geometry, lookup: seq<nat>, addrs: seq<Address>, addr: Address, cs: seq<Walk>, n: nat, i: nat)
    requires WalkOk(g, lookup, addrs, addr, cs, n, 0) && g.ways <= i < |cs| && First(cs, i)
    ensures CandOk(g, lookup, addrs, addr, cs, i) && First(cs, cs[i].parentIdx)
  {
    assert CandOk(g, lookup, addrs, addr, cs, i);
    var p := cs[i].parentIdx;
    forall j | 0 <= j < p ensures cs[j].lineId != cs[p].lineId {
      if cs[j].lineId == cs[p].lineId {
        var k := EarlierChild(g, lookup, addrs, addr, cs, n, i, j);
        assert false;
      }
    }
  }

  lemma PathBound(len: nat, ways: nat, cands: nat)
    requires ways > 1 && cands >= ways && len > 0 && (len - 1) * ways < cands
    ensures len <= cands / ways + 1
  {
    if len > cands / ways + 1 { MulMono(cands / ways + 1, len - 1, ways); }
  }

  /** path leads from its first candidate through parents, all of them first occurrences. */
  ghost predicate PathOk(cs: seq<Walk>, path: seq<nat>) {
    && (forall i :: 0 <= i < |path| ==> path[i] < |cs| && First(cs, path[i]))
    && (forall i, j :: 0 <= i < j < |path| ==> path[j] < path[i])
    && (forall i :: 0 <= i < |path| - 1 ==> cs[path[i]].parentIdx == path[i + 1])
  }

  /** The path so far starts at minIdx and idx comes next; every step goes back at least ways candidates. */
  ghost predicate PathUpTo(g: Geometry, cs: seq<Walk>, path: seq<nat>, minIdx: nat, idx: int) {
    && g.Valid() && PathOk(cs, path) && -1 <= idx < |cs|
    && (if |path| == 0 then idx == minIdx
        else path[0] == minIdx && cs[path[|path| - 1]].parentIdx == idx < path[|path| - 1])
    && (if idx >= 0 then First(cs, idx) && idx + |path| * g.ways <= minIdx else |path| > 0 && (|path| - 1) * g.ways <= minIdx)
  }

  lemma PathStep(g: Geometry, lookup: seq<nat>, addrs: seq<Address>, addr: Address, cs: seq<Walk>, n: nat, path: seq<nat>, minIdx: nat, idx: nat)
    requires WalkOk(g, lookup, addrs, addr, cs, n, 0) && PathUpTo(g, cs, path, minIdx, idx) && minIdx < g.cands
    ensures PathUpTo(g, cs, path + [idx], minIdx, cs[idx].parentIdx)
    ensures |path| <= g.cands / g.ways
  {
    assert CandOk(g, lookup, addrs, addr, cs, idx);
    if idx >= g.ways { ParentFirst(g, lookup, addrs, addr, cs, n, idx); }
    var path' := path + [idx];
    forall i, j | 0 <= i < j < |path'| ensures path'[j] < path'[i] {
      if j == |path| { assert path[|path| - 1] <= path[i]; }
    }
    assert (|path| + 1) * g.ways == |path| * g.ways + g.ways;
    PathBound(|path| + 1, g.ways, g.cands);
  }

  /** The positions along a complete path form a relocation chain for the line it starts from. */
  lemma PathRelocation(g: Geometry, lookup: seq<nat>, addrs: seq<Address>, addr: Address, cs: seq<Walk>, n: nat, path: seq<nat>, P: seq<nat>)
    requires WalkOk(g, lookup, addrs, addr, cs, n, 0) && PathOk(cs, path)
    requires |path| == |P| > 0 && forall i :: 0 <= i < |P| ==> P[i] == cs[path[i]].pos
    requires cs[path[|path| - 1]].parentIdx == -1
    ensures Relocation(g, lookup, addrs, addr, P, cs[path[0]].lineId)
  {
    forall i | 0 <= i < |P| ensures P[i] < |lookup| && lookup[P[i]] == cs[path[i]].lineId < |addrs| {
      assert CandOk(g, lookup, addrs, addr, cs, path[i]);
    }
    forall i, j | 0 <= i < j < |P| ensures P[i] != P[j] {
      assert First(cs, path[i]);
      assert cs[path[j]].lineId != cs[path[i]].lineId;
    }
    forall i | 0 <= i < |P| - 1 ensures CanMove(g, addrs[lookup[P[i + 1]]], P[i]) {
      assert CandOk(g, lookup, addrs, addr, cs, path[i]);
      assert cs[path[i]].parentIdx == path[i + 1];
    }
    assert CandOk(g, lookup, addrs, addr, cs, path[|path| - 1]);
  }

  /** P is a chain of positions along which lines can move so that addr takes the place of victim. */
  ghost predicate Relocation(g: Geometry, lookup: seq<nat>, addrs: seq<Address>, addr: Address, P: seq<nat>, victim: nat) {
    && g.Valid() && |lookup| == |addrs| == g.NumLines()
    && |P| > 0
    && (forall i :: 0 <= i < |P| ==> P[i] < |lookup|)
    && (forall i :: 0 <= i < |P| ==> lookup[P[i]] < |addrs|)
    && (forall i, j :: 0 <= i < j < |P| ==> P[i] != P[j])
    && lookup[P[0]] == victim
    && (forall i :: 0 <= i < |P| - 1 ==> CanMove(g, addrs[lookup[P[i + 1]]], P[i]))
    && CanMove(g, addr, P[|P| - 1])
  }

  ghost predicate CanMove(g: Geometry, addr: Address, pos: nat)
    requires g.Valid()
  {
    exists w: nat :: w < g.ways && pos == g.Pos(w, addr)
  }

  // ---------------------------------------------------------------- the moves

  /** lookup' is lookup with every line of P moved one position towards P[0], and the victim's line at the end. */
  ghost predicate Rotated(lookup: seq<nat>, lookup': seq<nat>, P: seq<nat>) {
    && |lookup'| == |lookup| && |P| > 0
    && (forall i :: 0 <= i < |P| ==> P[i] < |lookup|)
    && (forall i, j :: 0 <= i < j < |P| ==> P[i] != P[j])
    && (forall i :: 0 <= i < |P| - 1 ==> lookup'[P[i]] == lookup[P[i + 1]])
    && lookup'[P[|P| - 1]] == lookup[P[0]]
    && (forall q :: 0 <= q < |lookup| && q !in P ==> lookup'[q] == lookup[q])
  }

  /** Where the line now at q came from. */
  ghost predicate CameFrom(P: seq<nat>, q: nat, q': nat) {
    if q in P then exists i :: 0 <= i < |P| && P[i] == q && q' == P[if i == |P| - 1 then 0 else i + 1]
    else q' == q
  }

  lemma Source(lookup: seq<nat>, lookup': seq<nat>, P: seq<nat>, q: nat) returns (q': nat)
    requires Rotated(lookup, lookup', P) && q < |lookup|
    ensures q' < |lookup| && lookup'[q] == lookup[q'] && CameFrom(P, q, q')
  {
    if q in P {
      var i :| 0 <= i < |P| && P[i] == q;
      q' := P[if i == |P| - 1 then 0 else i + 1];
    } else {
      q' := q;
    }
  }

  lemma SourceInjective(P: seq<nat>, q: nat, r: nat, s: nat)
    requires forall i, j :: 0 <= i < j < |P| ==> P[i] != P[j]
    requires CameFrom(P, q, s) && CameFrom(P, r, s)
    ensures q == r
  {
  }

  lemma RotatedPermutation(lookup: seq<nat>, lookup': seq<nat>, P: seq<nat>)
    requires Rotated(lookup, lookup', P) && Permutation(lookup)
    ensures Permutation(lookup')
  {
    forall q | 0 <= q < |lookup'| ensures lookup'[q] < |lookup'| { var s := Source(lookup, lookup', P, q); }
    forall q, r | 0 <= q < r < |lookup'| ensures lookup'[q] != lookup'[r] {
      var s := Source(lookup, lookup', P, q);
      var s' := Source(lookup, lookup', P, r);
      if s == s' { SourceInjective(P, q, r, s); }
    }
  }

  /** After the moves every line is still findable, now with addr in the victim's line. */
  lemma RotatedFindable(g: Geometry, lookup: seq<nat>, lookup': seq<nat>, addrs: seq<Address>, addr: Address, P: seq<nat>, victim: nat)
    requires Findable(g, lookup, addrs) && addr != 0 && addr !in addrs
    requires Relocation(g, lookup, addrs, addr, P, victim) && Rotated(lookup, lookup', P)
    ensures Findable(g, lookup', addrs[victim := addr])
  {
    RotatedPermutation(lookup, lookup', P);
    var addrs' := addrs[victim := addr];
    forall l | 0 <= l < |addrs'| && addrs'[l] != 0 ensures exists w :: SitsAt(g, lookup', addrs', l, w) {
      if l == victim {
        var w: nat :| w < g.ways && P[|P| - 1] == g.Pos(w, addr);
        assert SitsAt(g, lookup', addrs', l, w);
      } else {
        StillSits(g, lookup, lookup', addrs, addrs', addr, P, victim, l);
      }
    }
  }

  lemma StillSits(g: Geometry, lookup: seq<nat>, lookup': seq<nat>, addrs: seq<Address>, addrs': seq<Address>,
                  addr: Address, P: seq<nat>, victim: nat, l: nat)
    requires Findable(g, lookup, addrs) && l < |addrs| && l != victim && addrs[l] != 0
    requires Relocation(g, lookup, addrs, addr, P, victim) && Rotated(lookup, lookup', P)
    requires addrs' == addrs[victim := addr]
    ensures exists w :: SitsAt(g, lookup', addrs', l, w)
  {
    var w :| SitsAt(g, lookup, addrs, l, w);
    var q := g.Pos(w, addrs[l]);
    if q in P {
      var i :| 0 <= i < |P| && P[i] == q;
      assert lookup[P[i - 1 + 1]] == l && CanMove(g, addrs[l], P[i - 1]);
      var v: nat :| v < g.ways && P[i - 1] == g.Pos(v, addrs[l]);
      assert SitsAt(g, lookup', addrs', l, v);
    } else {
      assert SitsAt(g, lookup', addrs', l, w);
    }
  }

  // ---------------------------------------------------------------- the array

  lemma WaysStep(n: nat, ways: nat)
    requires ways > 1
    ensures n <= n * (ways - 1)
    ensures (n + 1) * (ways - 1) == n * (ways - 1) + ways - 1
  {
    MulMono(1, ways - 1, n);
  }

  class ZCache {
    const g: Geometry
    const lookupArray: array<nat>  // position -> line
    const addrs: array<Address>    // line -> address, 0 if free
    const swapArray: array<nat>
    var swapArrayLen: nat

    ghost predicate Valid()
      reads this, lookupArray, addrs
    {
      && lookupArray != addrs && swapArray != lookupArray && swapArray != addrs
      && Findable(g, lookupArray[..], addrs[..])
      && swapArray.Length == g.cands / g.ways + 2
    }

    constructor (g: Geometry)
      requires g.Valid()
      ensures Valid() && this.g == g && fresh(lookupArray) && fresh(addrs) && fresh(swapArray)
      ensures forall a :: a != 0 ==> a !in addrs[..]
    {
      this.g := g;
      var n := g.NumLines();
      lookupArray := new nat[n](i => i);
      addrs := new Address[n](_ => 0);
      swapArray := new nat[g.cands / g.ways + 2](_ => 0);
      swapArrayLen := 0;
    }

    method LookupLine(addr: Address) returns (r: int)
      requires Valid() && addr != 0
      ensures r == Lookup(g, lookupArray[..], addrs[..], addr)
      ensures r == -1 <==> addr !in addrs[..]
      ensures r != -1 ==> 0 <= r < addrs.Length && addrs[r] == addr
    {
      LookupExact(g, lookupArray[..], addrs[..], addr);
      var w := 0;
      while w < g.ways
        invariant 0 <= w <= g.ways
        invariant Lookup(g, lookupArray[..], addrs[..], addr) == LookupFrom(g, lookupArray[..], addrs[..], addr, w)
      {
        PosBounds(g, w, addr);
        var lineId := lookupArray[g.Pos(w, addr)];
        if addrs[lineId] == addr { return lineId; }
        w := w + 1;
      }
      r := -1;
    }

    /** The seeds of the walk. */
    method Seeds(addr: Address, candidates: array<Walk>) returns (allValid: bool)
      requires Valid() && candidates.Length == g.cands + g.ways
      modifies candidates
      ensures WalkOk(g, lookupArray[..], addrs[..], addr, candidates[..g.ways], 0, 0)
      ensures allValid == Occupied(addrs[..], candidates[..g.ways])
    {
      ghost var lookup, lines := lookupArray[..], addrs[..];
      ghost var cs: seq<Walk> := [];
      allValid := true;
      for w := 0 to g.ways
        invariant Valid() && lookup == lookupArray[..] && lines == addrs[..] && |cs| == w && candidates[..w] == cs
        invariant forall i :: 0 <= i < w ==> CandOk(g, lookup, lines, addr, cs, i)
        invariant allValid == Occupied(lines, cs)
      {
        var valid;
        cs, valid := SeedOne(addr, candidates, w, cs);
        allValid := allValid && valid;
      }
    }

    method SeedOne(addr: Address, candidates: array<Walk>, w: nat, ghost cs: seq<Walk>) returns (ghost cs': seq<Walk>, valid: bool)
      requires Valid() && w < g.ways && w < candidates.Length && |cs| == w && candidates[..w] == cs
      requires forall i :: 0 <= i < w ==> CandOk(g, lookupArray[..], addrs[..], addr, cs, i)
      modifies candidates
      ensures |cs'| == w + 1 && candidates[..w + 1] == cs'
      ensures forall i :: 0 <= i <= w ==> CandOk(g, lookupArray[..], addrs[..], addr, cs', i)
      ensures Occupied(addrs[..], cs') == (Occupied(addrs[..], cs) && valid)
    {
      SeedStep(g, lookupArray[..], addrs[..], addr, cs);
      var pos := g.Pos(w, addr);
      var lineId := lookupArray[pos];
      candidates[w] := Walk(pos, lineId, -1);
      cs' := cs + [Walk(pos, lineId, -1)];
      OccupiedMore(addrs[..], cs, Walk(pos, lineId, -1));
      valid := addrs[lineId] != 0;
    }

    /** One fringe expansion: adds exactly ways-1 candidates. */
    method Expand(addr: Address, candidates: array<Walk>, num: nat, fringeStart: nat) returns (numCandidates: nat, allValid: bool)
      requires Valid() && num + g.ways <= candidates.Length && fringeStart + g.ways <= num
      requires WalkOk(g, lookupArray[..], addrs[..], addr, candidates[..num], fringeStart, 0)
      requires Occupied(addrs[..], candidates[..num])
      modifies candidates
      ensures numCandidates == num + g.ways - 1
      ensures WalkOk(g, lookupArray[..], addrs[..], addr, candidates[..numCandidates], fringeStart + 1, 0)
      ensures allValid == Occupied(addrs[..], candidates[..numCandidates])
    {
      ghost var lookup, lines, cs := lookupArray[..], addrs[..], candidates[..num];
      allValid, numCandidates := true, num;
      assert CandOk(g, lookup, lines, addr, cs, fringeStart);
      var fringeId := candidates[fringeStart].lineId;
      var fringeAddr := addrs[fringeId];
      assert fringeAddr != 0;
      ghost var w0 := OwnPlace(g, lookup, lines, fringeId);
      for w := 0 to g.ways
        invariant Valid() && lookup == lookupArray[..] && lines == addrs[..]
        invariant numCandidates == num + w - (if w0 < w then 1 else 0)
        invariant |cs| == numCandidates && candidates[..numCandidates] == cs
        invariant cs[fringeStart].lineId == fringeId
        invariant WalkOk(g, lookup, lines, addr, cs, fringeStart, w)
        invariant allValid == Occupied(lines, cs)
      {
        var valid, lineId;
        cs, lineId, valid := ExpandOne(addr, candidates, numCandidates, fringeStart, w, cs);
        allValid := allValid && valid;
        numCandidates := numCandidates + (if lineId != fringeId then 1 else 0);
      }
      NextFringe(g, lookup, lines, addr, cs, fringeStart);
    }

    /** Writes the candidate of way w; it counts only if it is not the fringe line itself. */
    method ExpandOne(addr: Address, candidates: array<Walk>, num: nat, fringeStart: nat, w: nat, ghost cs: seq<Walk>)
      returns (ghost cs': seq<Walk>, lineId: nat, valid: bool)
      requires Valid() && w < g.ways && num < candidates.Length && |cs| == num && candidates[..num] == cs && fringeStart + g.ways <= num
      requires WalkOk(g, lookupArray[..], addrs[..], addr, cs, fringeStart, w)
      requires cs[fringeStart].lineId < addrs.Length && addrs[cs[fringeStart].lineId] != 0
      modifies candidates
      ensures cs' == (if lineId != cs[fringeStart].lineId then cs + [candidates[num]] else cs) && candidates[..|cs'|] == cs'
      ensures cs'[fringeStart] == cs[fringeStart] && WalkOk(g, lookupArray[..], addrs[..], addr, cs', fringeStart, w + 1)
      ensures Occupied(addrs[..], cs') == (Occupied(addrs[..], cs) && valid)
      ensures var pos := g.Pos(w, addrs[cs[fringeStart].lineId]); pos < lookupArray.Length && lineId == lookupArray[pos]
    {
      ExtendOk(g, lookupArray[..], addrs[..], addr, cs, fringeStart, w);
      cs' := Extend(g, lookupArray[..], addrs[..], cs, fringeStart, w);
      var pos := g.Pos(w, addrs[candidates[fringeStart].lineId]);
      lineId := lookupArray[pos];
      candidates[num] := Walk(pos, lineId, fringeStart);
      valid := addrs[lineId] != 0;
    }

    /** The breadth-first walk.  At most cands + ways entries are written, and the number of candidates
        is ways plus ways-1 for every expansion. */
    method Explore(addr: Address, candidates: array<Walk>) returns (numCandidates: nat, fringeStart: nat)
      requires Valid() && candidates.Length == g.cands + g.ways
      modifies candidates
      ensures g.ways <= numCandidates < g.cands + g.ways
      ensures numCandidates == g.ways + fringeStart * (g.ways - 1)
      ensures WalkOk(g, lookupArray[..], addrs[..], addr, candidates[..numCandidates], fringeStart, 0)
      ensures numCandidates >= g.cands || !Occupied(addrs[..], candidates[..numCandidates])
    {
      var allValid := Seeds(addr, candidates);
      fringeStart, numCandidates := 0, g.ways;
      while numCandidates < g.cands && allValid
        invariant g.ways <= numCandidates < g.cands + g.ways
        invariant numCandidates == g.ways + fringeStart * (g.ways - 1)
        invariant WalkOk(g, lookupArray[..], addrs[..], addr, candidates[..numCandidates], fringeStart, 0)
        invariant allValid == Occupied(addrs[..], candidates[..numCandidates])
        decreases g.cands + g.ways - numCandidates
      {
        WaysStep(fringeStart, g.ways);
        numCandidates, allValid := Expand(addr, candidates, numCandidates, fringeStart);
        fringeStart := fringeStart + 1;
      }
    }

    /** Runs the walk, lets the replacement policy pick any candidate, and records the chain of moves. */
    method Preinsert(addr: Address, rank: seq<nat> -> nat) returns (best: nat, wbAddr: Address, ghost cs: seq<Walk>, ghost n: nat)
      requires Valid()
      modifies this`swapArrayLen, swapArray
      ensures Valid() && best < addrs.Length && wbAddr == addrs[best]
      ensures 0 < swapArrayLen <= g.cands / g.ways + 1 < swapArray.Length
      ensures Relocation(g, lookupArray[..], addrs[..], addr, swapArray[..swapArrayLen], best)
      ensures WalkOk(g, lookupArray[..], addrs[..], addr, cs, n, 0) && |cs| == g.ways + n * (g.ways - 1)
      ensures |cs| >= g.cands || !Occupied(addrs[..], cs)
      ensures best == Chosen(cs, g.cands, rank)
    {
      var candidates := new Walk[g.cands + g.ways](_ => Walk(0, 0, -1));
      var numCandidates, fringe := Explore(addr, candidates);
      cs, n := candidates[..numCandidates], fringe;
      var minIdx;
      best, minIdx := PickCandidate(candidates, numCandidates, rank, cs);
      assert CandOk(g, lookupArray[..], addrs[..], addr, cs, minIdx);
      FillSwapArray(addr, candidates, cs, fringe, minIdx);
      wbAddr := addrs[best];
    }

    /** The policy's choice, and the first candidate that has its line. */
    method PickCandidate(candidates: array<Walk>, numCandidates: nat, rank: seq<nat> -> nat, ghost cs: seq<Walk>) returns (best: nat, minIdx: nat)
      requires 0 < numCandidates <= candidates.Length && candidates[..numCandidates] == cs && g.cands > 0
      ensures best == Chosen(cs, g.cands, rank) && minIdx < |cs| && minIdx < g.cands && cs[minIdx].lineId == best && First(cs, minIdx)
    {
      var usable := if numCandidates > g.cands then g.cands else numCandidates;
      var ids := seq(usable, i requires 0 <= i < usable reads candidates => candidates[i].lineId);
      assert ids == LineIds(cs, g.cands);
      var picked := rank(ids) % usable;
      best := ids[picked];
      minIdx := 0;
      while candidates[minIdx].lineId != best
        invariant 0 <= minIdx <= picked
        invariant forall k :: 0 <= k < minIdx ==> cs[k].lineId != best
        decreases picked - minIdx
      {
        minIdx := minIdx + 1;
      }
    }

    method FillSwapArray(addr: Address, candidates: array<Walk>, ghost cs: seq<Walk>, ghost n: nat, minIdx: nat)
      requires Valid() && |cs| <= candidates.Length && candidates[..|cs|] == cs && minIdx < |cs| && minIdx < g.cands
      requires WalkOk(g, lookupArray[..], addrs[..], addr, cs, n, 0) && First(cs, minIdx)
      modifies this`swapArrayLen, swapArray
      ensures 0 < swapArrayLen <= g.cands / g.ways + 1
      ensures Relocation(g, lookupArray[..], addrs[..], addr, swapArray[..swapArrayLen], cs[minIdx].lineId)
    {
      ghost var lookup, lines := lookupArray[..], addrs[..];
      ghost var path: seq<nat> := [];
      var idx: int := minIdx;
      var swapIdx := 0;
      while idx >= 0
        invariant |path| == swapIdx <= g.cands / g.ways + 1
        invariant PathUpTo(g, cs, path, minIdx, idx)
        invariant forall i :: 0 <= i < swapIdx ==> swapArray[i] == cs[path[i]].pos
        decreases idx
      {
        PathStep(g, lookup, lines, addr, cs, n, path, minIdx, idx);
        path := path + [idx];
        swapArray[swapIdx] := candidates[idx].pos;
        swapIdx := swapIdx + 1;
        idx := candidates[idx].parentIdx;
      }
      swapArrayLen := swapIdx;
      PathRelocation(g, lookup, lines, addr, cs, n, path, swapArray[..swapIdx]);
    }

    /** Moves the chain and installs addr in the victim's line.  Every other resident address is still
        found at its old line; the victim's address is gone. */
    method Postinsert(addr: Address, candidate: nat)
      requires Valid() && addr != 0 && addr !in addrs[..]
      requires 0 < swapArrayLen <= swapArray.Length
      requires Relocation(g, lookupArray[..], addrs[..], addr, swapArray[..swapArrayLen], candidate)
      modifies lookupArray, addrs
      ensures Valid()
      ensures addrs[..] == old(addrs[..])[candidate := addr]
      ensures Lookup(g, lookupArray[..], addrs[..], addr) == candidate
      ensures forall a :: a != 0 && a != addr && a != old(addrs[candidate]) ==>
                Lookup(g, lookupArray[..], addrs[..], a) == old(Lookup(g, lookupArray[..], addrs[..], a))
      ensures old(addrs[candidate]) != 0 ==> Lookup(g, lookupArray[..], addrs[..], old(addrs[candidate])) == -1
    {
      ghost var P, lookup, lines := swapArray[..swapArrayLen], lookupArray[..], addrs[..];
      assert lookupArray[swapArray[0]] == candidate by { assert P[0] == swapArray[0]; }
      MoveChain(P, candidate);
      RotatedFindable(g, lookup, lookupArray[..], lines, addr, P, candidate);
      addrs[candidate] := addr;
      assert addrs[..] == lines[candidate := addr];
      LookupExact(g, lookupArray[..], addrs[..], addr);
      forall a | a != 0 && a != addr
        ensures a != lines[candidate] ==> Lookup(g, lookupArray[..], addrs[..], a) == Lookup(g, lookup, lines, a)
        ensures a == lines[candidate] ==> Lookup(g, lookupArray[..], addrs[..], a) == -1
      {
        LookupExact(g, lookupArray[..], addrs[..], a);
        LookupExact(g, lookup, lines, a);
        SameElsewhere(lines, candidate, addr, a);
      }
    }

    method MoveChain(ghost P: seq<nat>, candidate: nat)
      requires 0 < swapArrayLen <= swapArray.Length && P == swapArray[..swapArrayLen]
      requires swapArray != lookupArray
      requires forall i :: 0 <= i < |P| ==> P[i] < lookupArray.Length
      requires forall i, j :: 0 <= i < j < |P| ==> P[i] != P[j]
      requires lookupArray[P[0]] == candidate
      modifies lookupArray
      ensures Rotated(old(lookupArray[..]), lookupArray[..], P)
    {
      ghost var lookup := lookupArray[..];
      for i := 0 to swapArrayLen - 1
        invariant forall k :: 0 <= k < i ==> lookupArray[P[k]] == lookup[P[k + 1]]
        invariant forall k :: i <= k < |P| ==> lookupArray[P[k]] == lookup[P[k]]
        invariant forall q :: 0 <= q < |lookup| && q !in P ==> lookupArray[q] == lookup[q]
      {
        lookupArray[swapArray[i]] := lookupArray[swapArray[i + 1]];
      }
      lookupArray[swapArray[swapArrayLen - 1]] := candidate;
    }
  }

  lemma SameElsewhere(lines: seq<Address>, victim: nat, addr: Address, a: Address)
    requires victim < |lines| && a != 0 && a != addr
    requires forall k, l :: 0 <= k < l < |lines| && lines[k] != 0 ==> lines[k] != lines[l]
    ensures a != lines[victim] ==> forall l :: 0 <= l < |lines| ==> (lines[l] == a <==> lines[victim := addr][l] == a)
    ensures a != lines[victim] ==> (a in lines <==> a in lines[victim := addr])
    ensures a == lines[victim] ==> a !in lines[victim := addr]
  {
    var lines' := lines[victim := addr];
    if a != lines[victim] && a in lines {
      var l :| 0 <= l < |lines| && lines[l] == a;
      assert lines'[l] == a;
    }
  }
}
