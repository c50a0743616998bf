/** The Doppelganger tag and data arrays.  Tags whose lines have the same map value share one data line;
    they form a doubly linked list threaded through the tag array by index, and the data line points at
    its head. */
module Doppelganger {
  import opened Arithmetic

  datatype Tag = Tag(next: int, prev: int, addr: int, dataId: int)
  datatype Data = Data(mapValue: int, head: int)

  const NO_TAG := Tag(-1, -1, -1, -1)

  /** The two arrays, with the lists they encode: lists[d] runs from the oldest tag of data line d to its
      head, and pos[t] is where tag t stands in its list. */
  datatype Arrays = Arrays(tags: seq<Tag>, data: seq<Data>, lists: seq<seq<nat>>, pos: seq<nat>)

  ghost predicate Shape(v: Arrays) { |v.pos| == |v.tags| && |v.lists| == |v.data| }

  /** Element i of list d. */
  ghost predicate SlotOk(v: Arrays, d: nat, i: nat)
    requires Shape(v) && d < |v.data| && i < |v.lists[d]|
  {
    var t := v.lists[d][i];
    t < |v.tags| && v.tags[t].dataId == d && v.pos[t] == i
  }

  /** A tag in use stands in the list of its data line, linked to its neighbours; a free tag is unlinked. */
  ghost predicate TagOk(v: Arrays, t: nat)
    requires Shape(v) && t < |v.tags|
  {
    var x := v.tags[t];
    if x.dataId == -1 then x.next == -1 && x.prev == -1
    else
      && 0 <= x.dataId < |v.data|
      && var L, i := v.lists[x.dataId], v.pos[t];
         && i < |L| && L[i] == t
         && x.prev == (if i == 0 then -1 else L[i - 1])
         && x.next == (if i == |L| - 1 then -1 else L[i + 1])
  }

  ghost predicate HeadOk(v: Arrays, d: nat)
    requires Shape(v) && d < |v.data|
  {
    var L := v.lists[d];
    v.data[d].head == if L == [] then -1 else L[|L| - 1]
  }

  ghost predicate ListsOk(v: Arrays) {
    && Shape(v)
    && (forall d, i :: 0 <= d < |v.data| && 0 <= i < |v.lists[d]| ==> SlotOk(v, d, i))
    && (forall t :: 0 <= t < |v.tags| ==> TagOk(v, t))
    && (forall d :: 0 <= d < |v.data| ==> HeadOk(v, d))
  }

  // ---------------------------------------------------------------- unlinking a tag

  function UnlinkTags(tags: seq<Tag>, t: nat): seq<Tag>
    requires t < |tags| && -1 <= tags[t].prev < |tags| && -1 <= tags[t].next < |tags|
  {
    var p, n := tags[t].prev, tags[t].next;
    var ts := if p != -1 then tags[p := tags[p].(next := n)] else tags;
    (if n != -1 then ts[n := ts[n].(prev := p)] else ts)[t := NO_TAG]
  }

  function UnlinkData(data: seq<Data>, x: Tag): seq<Data>
    requires 0 <= x.dataId < |data|
  {
    if x.next != -1 then data
    else if x.prev != -1 then data[x.dataId := data[x.dataId].(head := x.prev)]
    else data[x.dataId := Data(-1, -1)]
  }

  ghost function Unlinked(v: Arrays, t: nat): Arrays
    requires ListsOk(v) && t < |v.tags| && v.tags[t].dataId != -1 && TagOk(v, t)
    requires -1 <= v.tags[t].prev < |v.tags| && -1 <= v.tags[t].next < |v.tags|
  {
    var d, i := v.tags[t].dataId, v.pos[t];
    var L := v.lists[d];
    Arrays(UnlinkTags(v.tags, t), UnlinkData(v.data, v.tags[t]),
           v.lists[d := L[..i] + L[i + 1..]],
           seq(|v.pos|, u requires 0 <= u < |v.pos| => if v.tags[u].dataId == d && v.pos[u] > i then v.pos[u] - 1 else v.pos[u]))
  }

  lemma LinksInRange(v: Arrays, t: nat)
    requires ListsOk(v) && t < |v.tags|
    ensures TagOk(v, t) && -1 <= v.tags[t].prev < |v.tags| && -1 <= v.tags[t].next < |v.tags|
  {
    assert TagOk(v, t);
    var x := v.tags[t];
    if x.dataId != -1 {
      if v.pos[t] > 0 { assert SlotOk(v, x.dataId, v.pos[t] - 1); }
      if v.pos[t] < |v.lists[x.dataId]| - 1 { assert SlotOk(v, x.dataId, v.pos[t] + 1); }
    }
  }

  /** v once tag t has been freed, if it was in use. */
  ghost function Freed(v: Arrays, t: nat): Arrays
    requires ListsOk(v) && t < |v.tags|
  {
    if v.tags[t].dataId == -1 then v else LinksInRange(v, t); Unlinked(v, t)
  }

  lemma UnlinkedKeeps(v: Arrays, t: nat)
    requires ListsOk(v) && t < |v.tags| && v.tags[t].dataId != -1
    ensures TagOk(v, t) && -1 <= v.tags[t].prev < |v.tags| && -1 <= v.tags[t].next < |v.tags|
    ensures ListsOk(Unlinked(v, t))
  {
    LinksInRange(v, t);
    var w, d, i := Unlinked(v, t), v.tags[t].dataId, v.pos[t];
    var L := v.lists[d];
    if i > 0 { assert SlotOk(v, d, i - 1); }
    if i < |L| - 1 { assert SlotOk(v, d, i + 1); }
    forall e, k | 0 <= e < |w.data| && 0 <= k < |w.lists[e]| ensures SlotOk(w, e, k) {
      if e == d { assert SlotOk(v, d, if k < i then k else k + 1); } else { assert SlotOk(v, e, k); }
    }
    forall u | 0 <= u < |w.tags| ensures TagOk(w, u) { UnlinkedTag(v, t, u); }
    forall e | 0 <= e < |w.data| ensures HeadOk(w, e) { assert HeadOk(v, e); }
  }

  lemma UnlinkedTag(v: Arrays, t: nat, u: nat)
    requires ListsOk(v) && t < |v.tags| && v.tags[t].dataId != -1 && TagOk(v, t)
    requires -1 <= v.tags[t].prev < |v.tags| && -1 <= v.tags[t].next < |v.tags| && u < |v.tags|
    ensures TagOk(Unlinked(v, t), u)
  {
    assert TagOk(v, u);
    var d, i := v.tags[t].dataId, v.pos[t];
    if i > 0 { assert SlotOk(v, d, i - 1); }
    if i < |v.lists[d]| - 1 { assert SlotOk(v, d, i + 1); }
  }

  // ---------------------------------------------------------------- linking a free tag

  function LinkTags(tags: seq<Tag>, data: seq<Data>, t: nat, d: nat): seq<Tag>
    requires t < |tags| && d < |data| && -1 <= data[d].head < |tags|
  {
    var h := data[d].head;
    var ts := if h != -1 then tags[t := tags[t].(prev := h)] else tags;
    var ts' := if h != -1 then ts[h := ts[h].(next := t)] else ts;
    ts'[t := ts'[t].(dataId := d)]
  }

  ghost function Linked(v: Arrays, t: nat, d: nat, mapValue: int): Arrays
    requires ListsOk(v) && t < |v.tags| && d < |v.data| && -1 <= v.data[d].head < |v.tags|
  {
    Arrays(LinkTags(v.tags, v.data, t, d), v.data[d := Data(mapValue, t)],
           v.lists[d := v.lists[d] + [t]], v.pos[t := |v.lists[d]|])
  }

  lemma HeadInRange(v: Arrays, d: nat)
    requires ListsOk(v) && d < |v.data|
    ensures HeadOk(v, d) && -1 <= v.data[d].head < |v.tags|
  {
    assert HeadOk(v, d);
    if v.lists[d] != [] { assert SlotOk(v, d, |v.lists[d]| - 1); }
  }

  lemma LinkedKeeps(v: Arrays, t: nat, d: nat, mapValue: int)
    requires ListsOk(v) && t < |v.tags| && d < |v.data| && v.tags[t].dataId == -1
    ensures -1 <= v.data[d].head < |v.tags| && ListsOk(Linked(v, t, d, mapValue))
  {
    HeadInRange(v, d);
    assert TagOk(v, t);
    var w, n := Linked(v, t, d, mapValue), |v.lists[d]|;
    if n > 0 { assert SlotOk(v, d, n - 1); }
    forall e, k | 0 <= e < |w.data| && 0 <= k < |w.lists[e]| ensures SlotOk(w, e, k) {
      if k < |v.lists[e]| { assert SlotOk(v, e, k); }
    }
    forall u | 0 <= u < |w.tags| ensures TagOk(w, u) { assert TagOk(v, u); }
    forall e | 0 <= e < |w.data| ensures HeadOk(w, e) { assert HeadOk(v, e); }
  }

  // ---------------------------------------------------------------- map values

  /** assoc ways; twice as many tag sets as data sets; hash is masked to a set index. */
  datatype Geometry = Geometry(assoc: nat, numSetsD: nat, hash: int -> nat) {
    ghost predicate Valid() { assoc > 0 && numSetsD > 0 }
    function NumData(): nat { numSetsD * assoc }
    function NumTags(): nat { 2 * numSetsD * assoc }
    function FirstD(m: int): nat requires numSetsD > 0 { hash(m) % numSetsD * assoc }
    function FirstT(a: int): nat requires numSetsD > 0 { hash(a) % (2 * numSetsD) * assoc }
  }

  lemma SetBounds(g: Geometry, x: int)
    requires g.Valid()
    ensures g.FirstD(x) + g.assoc <= g.NumData()
    ensures g.FirstT(x) + g.assoc <= g.NumTags()
  {
    MulMono(g.hash(x) % g.numSetsD + 1, g.numSetsD, g.assoc);
    MulMono(g.hash(x) % (2 * g.numSetsD) + 1, 2 * g.numSetsD, g.assoc);
  }

  ghost predicate Occupied(v: Arrays, d: nat)
    requires Shape(v) && d < |v.data|
  {
    v.lists[d] != []
  }

  /** An occupied data line sits in the set its map value hashes to. */
  ghost predicate Homed(g: Geometry, v: Arrays, d: nat)
    requires g.Valid() && Shape(v) && d < |v.data|
  {
    Occupied(v, d) ==> g.FirstD(v.data[d].mapValue) <= d < g.FirstD(v.data[d].mapValue) + g.assoc
  }

  /** The data array is a partial function from map values to data lines. */
  ghost predicate MapsOk(g: Geometry, v: Arrays) {
    && g.Valid() && Shape(v)
    && (forall d :: 0 <= d < |v.data| ==> Homed(g, v, d))
    && (forall d, e :: 0 <= d < e < |v.data| && Occupied(v, d) && Occupied(v, e) ==> v.data[d].mapValue != v.data[e].mapValue)
  }

  ghost predicate HasMap(v: Arrays, m: int)
    requires Shape(v)
  {
    exists d :: 0 <= d < |v.data| && Occupied(v, d) && v.data[d].mapValue == m
  }

  lemma MapInItsSet(g: Geometry, v: Arrays, m: int)
    requires MapsOk(g, v)
    ensures HasMap(v, m) ==> exists e :: g.FirstD(m) <= e < g.FirstD(m) + g.assoc && e < |v.data| && Occupied(v, e) && v.data[e].mapValue == m
  {
    if HasMap(v, m) {
      var e :| 0 <= e < |v.data| && Occupied(v, e) && v.data[e].mapValue == m;
      assert Homed(g, v, e);
    }
  }

  /** w has no more occupied lines than v, with the same map values. */
  lemma FewerMaps(g: Geometry, v: Arrays, w: Arrays)
    requires MapsOk(g, v) && Shape(w) && |w.data| == |v.data|
    requires forall d :: 0 <= d < |v.data| && Occupied(w, d) ==> Occupied(v, d) && w.data[d].mapValue == v.data[d].mapValue
    ensures MapsOk(g, w)
  {
    forall d | 0 <= d < |w.data| ensures Homed(g, w, d) { assert Homed(g, v, d); }
  }

  lemma UnlinkedMaps(g: Geometry, v: Arrays, t: nat)
    requires ListsOk(v) && MapsOk(g, v) && t < |v.tags| && v.tags[t].dataId != -1
    ensures TagOk(v, t) && -1 <= v.tags[t].prev < |v.tags| && -1 <= v.tags[t].next < |v.tags|
    ensures ListsOk(Unlinked(v, t)) && MapsOk(g, Unlinked(v, t))
    ensures forall m :: HasMap(Unlinked(v, t), m) ==> HasMap(v, m)
  {
    UnlinkedKeeps(v, t);
    var w := Unlinked(v, t);
    forall d | 0 <= d < |v.data| && Occupied(w, d) ensures Occupied(v, d) && w.data[d].mapValue == v.data[d].mapValue {}
    FewerMaps(g, v, w);
  }

  lemma LinkedMaps(g: Geometry, v: Arrays, t: nat, d: nat, m: int)
    requires ListsOk(v) && MapsOk(g, v) && t < |v.tags| && d < |v.data| && v.tags[t].dataId == -1
    requires if Occupied(v, d) then v.data[d].mapValue == m else !HasMap(v, m) && g.FirstD(m) <= d < g.FirstD(m) + g.assoc
    ensures -1 <= v.data[d].head < |v.tags| && ListsOk(Linked(v, t, d, m)) && MapsOk(g, Linked(v, t, d, m))
  {
    LinkedKeeps(v, t, d, m);
    var w := Linked(v, t, d, m);
    forall e | 0 <= e < |w.data| ensures Homed(g, w, e) { assert Homed(g, v, e); }
    forall e, e' | 0 <= e < e' < |w.data| && Occupied(w, e) && Occupied(w, e')
      ensures w.data[e].mapValue != w.data[e'].mapValue
    {
      if !Occupied(v, d) && e == d { assert Occupied(v, e'); }
      if !Occupied(v, d) && e' == d { assert Occupied(v, e); }
    }
  }

  // ---------------------------------------------------------------- draining a list

  /** What evicting list L from its head tells the coherence controller: every tag once. */
  ghost function Reports(v: Arrays, L: seq<nat>, n: nat): seq<(int, nat)>
    requires forall i :: 0 <= i < |L| ==> L[i] < |v.tags|
  {
    if L == [] then [] else [(v.tags[L[|L| - 1]].addr, L[|L| - 1] + n)] + Reports(v, L[..|L| - 1], n)
  }

  lemma {:induction false} ReportsEachOnce(v: Arrays, L: seq<nat>, n: nat)
    requires forall i :: 0 <= i < |L| ==> L[i] < |v.tags|
    ensures |Reports(v, L, n)| == |L|
    ensures forall i :: 0 <= i < |L| ==> Reports(v, L, n)[i] == (v.tags[L[|L| - 1 - i]].addr, L[|L| - 1 - i] + n)
  {
    if L != [] { ReportsEachOnce(v, L[..|L| - 1], n); }
  }

  /** w is v with the tags of list d beyond the first k gone. */
  ghost predicate Drained(v: Arrays, w: Arrays, d: nat, k: nat) {
    && Shape(v) && Shape(w) && d < |v.data| && |w.data| == |v.data| && |w.tags| == |v.tags| && k <= |v.lists[d]|
    && w.lists == v.lists[d := v.lists[d][..k]]
    && (forall e :: 0 <= e < |v.data| && e != d ==> w.data[e] == v.data[e])
    && (forall u :: 0 <= u < |v.tags| && v.tags[u].dataId != d ==> w.tags[u] == v.tags[u])
    && (forall u :: 0 <= u < |v.tags| && v.tags[u].dataId == d ==>
          if v.pos[u] < k then w.tags[u].addr == v.tags[u].addr && w.tags[u].dataId == d && w.pos[u] == v.pos[u] else w.tags[u] == NO_TAG)
  }

  ghost predicate InTags(v: Arrays, d: nat) {
    d < |v.lists| && forall i :: 0 <= i < |v.lists[d]| ==> v.lists[d][i] < |v.tags|
  }

  lemma DrainStart(v: Arrays, d: nat)
    requires ListsOk(v) && d < |v.data|
    ensures Drained(v, v, d, |v.lists[d]|) && v.lists[d][..|v.lists[d]|] == v.lists[d]
    ensures InTags(v, d)
  {
    assert v.lists[d][..|v.lists[d]|] == v.lists[d];
    assert v.lists[d := v.lists[d]] == v.lists;
    forall i | 0 <= i < |v.lists[d]| ensures v.lists[d][i] < |v.tags| { assert SlotOk(v, d, i); }
    forall u | 0 <= u < |v.tags| && v.tags[u].dataId == d ensures v.pos[u] < |v.lists[d]| { assert TagOk(v, u); }
  }

  lemma DrainStep(v: Arrays, w: Arrays, d: nat, k: nat)
    requires ListsOk(v) && ListsOk(w) && Drained(v, w, d, k) && k > 0
    ensures var t := v.lists[d][k - 1];
      && SlotOk(v, d, k - 1) && SlotOk(w, d, k - 1) && HeadOk(w, d) && w.data[d].head == t && w.tags[t].addr == v.tags[t].addr
      && TagOk(w, t) && -1 <= w.tags[t].prev < |w.tags| && w.tags[t].next == -1
      && Drained(v, Unlinked(w, t), d, k - 1)
  {
    assert SlotOk(v, d, k - 1) && SlotOk(w, d, k - 1) && HeadOk(w, d);
    var t := v.lists[d][k - 1];
    LinksInRange(w, t);
    if k > 1 { assert SlotOk(w, d, k - 2) && SlotOk(v, d, k - 2); }
    var x := Unlinked(w, t);
    assert w.lists[d][..k - 1] + w.lists[d][k - 1 + 1..] == v.lists[d][..k - 1];
    forall u | 0 <= u < |v.tags| && v.tags[u].dataId == d && v.pos[u] < k - 1
      ensures x.tags[u].addr == v.tags[u].addr && x.tags[u].dataId == d && x.pos[u] == v.pos[u] {}
    forall u | 0 <= u < |v.tags| && v.tags[u].dataId == d && v.pos[u] >= k - 1 ensures x.tags[u] == NO_TAG {
      assert TagOk(v, u);
    }
  }

  /** Tag t was put into the line of map value m: if m was unknown, every tag of the line that was taken over
      is gone, and every other tag keeps its address and data line. */
  ghost predicate Placed(v: Arrays, w: Arrays, t: nat, m: int) {
    && Shape(v) && |w.tags| == |v.tags| && t < |v.tags| && w.tags[t].addr == v.tags[t].addr
    && 0 <= w.tags[t].dataId < |w.data| && w.data[w.tags[t].dataId] == Data(m, t)
    && forall u :: 0 <= u < |v.tags| && u != t ==> OthersAfter(v, w, t, m, u)
  }

  ghost predicate OthersAfter(v: Arrays, w: Arrays, t: nat, m: int, u: nat)
    requires Shape(v) && |w.tags| == |v.tags| && t < |v.tags| && u < |v.tags|
  {
    if !HasMap(v, m) && v.tags[u].dataId == w.tags[t].dataId then w.tags[u] == NO_TAG
    else w.tags[u].addr == v.tags[u].addr && w.tags[u].dataId == v.tags[u].dataId
  }

  /** Line d is the first free line of the set of map value m, or no line of the set is free. */
  ghost predicate FreeFirst(g: Geometry, v: Arrays, m: int, d: int)
    requires g.Valid() && Shape(v)
  {
    forall e :: g.FirstD(m) <= e < g.FirstD(m) + g.assoc && e < |v.data| && !Occupied(v, e) ==> 0 <= d <= e && d < |v.data| && !Occupied(v, d)
  }

  lemma PlacedByLink(v: Arrays, t: nat, d: nat, m: int)
    requires ListsOk(v) && t < |v.tags| && d < |v.data| && v.tags[t].dataId == -1 && Occupied(v, d) && v.data[d].mapValue == m
    ensures -1 <= v.data[d].head < |v.tags| && Placed(v, Linked(v, t, d, m), t, m)
  {
    HeadInRange(v, d);
    assert SlotOk(v, d, |v.lists[d]| - 1);
    assert HasMap(v, m);
  }

  lemma PlacedByDrain(v: Arrays, x: Arrays, t: nat, d: nat, m: int)
    requires ListsOk(v) && ListsOk(x) && Drained(v, x, d, 0) && !HasMap(v, m)
    requires t < |v.tags| && v.tags[t].dataId == -1 && x.tags[t].dataId == -1
    ensures -1 <= x.data[d].head < |x.tags| && Placed(v, Linked(x, t, d, m), t, m)
  {
    HeadInRange(x, d);
    assert TagOk(v, t);
    var w := Linked(x, t, d, m);
    forall u | 0 <= u < |v.tags| && u != t ensures OthersAfter(v, w, t, m, u) {}
  }

  // ---------------------------------------------------------------- the array

  class DpgArray {
    const g: Geometry
    const tags: array<Tag>
    const data: array<Data>
    ghost var view: Arrays
    ghost var reported: seq<(int, nat)>   // evictions sent to the coherence controller

    ghost predicate Matches()
      reads this, tags, data
    {
      view.tags == tags[..] && view.data == data[..]
    }

    ghost predicate Valid()
      reads this, tags, data
    {
      && tags.Length == g.NumTags() && data.Length == g.NumData()
      && Matches() && ListsOk(view) && MapsOk(g, view)
    }

    constructor (g: Geometry)
      requires g.Valid()
      ensures Valid() && this.g == g && fresh(tags) && fresh(data) && reported == []
      ensures forall t :: 0 <= t < tags.Length ==> tags[t] == NO_TAG
    {
      this.g := g;
      tags := new Tag[g.NumTags()](_ => NO_TAG);
      data := new Data[g.NumData()](_ => Data(-1, -1));
      reported := [];
      new;
      view := Arrays(tags[..], data[..], seq(data.Length, _ => []), seq(tags.Length, _ => 0));
      forall u | 0 <= u < tags.Length ensures TagOk(view, u) {}
      forall d | 0 <= d < data.Length ensures HeadOk(view, d) && Homed(g, view, d) {}
    }

    /** Takes a tag out of its list; the last tag frees its data line. */
    method RemoveTag(t: nat)
      requires Valid() && t < tags.Length && tags[t].dataId != -1
      modifies this`view, tags, data
      ensures Valid()
      ensures old(TagOk(view, t) && -1 <= view.tags[t].prev < |view.tags| && -1 <= view.tags[t].next < |view.tags|)
      ensures view == Unlinked(old(view), t)
      ensures forall m :: HasMap(view, m) ==> old(HasMap(view, m))
    {
      UnlinkedMaps(g, view, t);
      ghost var v := view;
      var x := tags[t];
      assert x == v.tags[t];
      if x.prev != -1 {
        if x.next != -1 {
          tags[x.prev] := tags[x.prev].(next := x.next);
          tags[x.next] := tags[x.next].(prev := x.prev);
        } else {
          tags[x.prev] := tags[x.prev].(next := -1);
          data[x.dataId] := data[x.dataId].(head := x.prev);
        }
      } else {
        if x.next != -1 {
          tags[x.next] := tags[x.next].(prev := -1);
        } else {
          data[x.dataId] := Data(-1, -1);
        }
      }
      tags[t] := NO_TAG;
      view := Unlinked(v, t);
      assert tags[..] == UnlinkTags(v.tags, t);
      assert data[..] == UnlinkData(v.data, x);
    }

    /** Makes a free tag the new head of data line d. */
    method AddTag(t: nat, d: nat)
      requires Valid() && t < tags.Length && d < data.Length && tags[t].dataId == -1 && Occupied(view, d)
      modifies this`view, tags, data
      ensures Valid()
      ensures -1 <= old(view).data[d].head < |old(view).tags| && view == Linked(old(view), t, d, old(view).data[d].mapValue)
    {
      LinkedMaps(g, view, t, d, view.data[d].mapValue);
      ghost var v := view;
      assert v.tags[t] == tags[t] && v.data[d] == data[d];
      var h := data[d].head;
      if h != -1 {
        tags[t] := tags[t].(prev := h);
        tags[h] := tags[h].(next := t);
      }
      tags[t] := tags[t].(dataId := d);
      data[d] := data[d].(head := t);
      view := Linked(v, t, d, v.data[d].mapValue);
      assert tags[..] == LinkTags(v.tags, v.data, t, d);
      assert data[..] == v.data[d := Data(v.data[d].mapValue, t)];
    }

    /** A free data line takes map value m with t as its only tag. */
    method FillData(t: nat, d: nat, m: int)
      requires Valid() && t < tags.Length && d < data.Length && tags[t].dataId == -1 && !Occupied(view, d)
      requires !HasMap(view, m) && g.FirstD(m) <= d < g.FirstD(m) + g.assoc
      modifies this`view, tags, data
      ensures Valid()
      ensures -1 <= old(view).data[d].head < |old(view).tags| && view == Linked(old(view), t, d, m)
    {
      LinkedMaps(g, view, t, d, m);
      ghost var v := view;
      assert HeadOk(v, d);
      assert v.tags[t] == tags[t] && v.data[d] == data[d];
      tags[t] := tags[t].(dataId := d);
      data[d] := data[d].(mapValue := m);
      data[d] := data[d].(head := t);
      view := Linked(v, t, d, m);
      assert tags[..] == LinkTags(v.tags, v.data, t, d);
      assert data[..] == v.data[d := Data(m, t)];
    }

    /** Finds the data line with map value m; a miss means no occupied line anywhere has it. */
    method LookupData(m: int) returns (r: int)
      requires Valid()
      ensures r == -1 <==> !HasMap(view, m)
      ensures r != -1 ==> 0 <= r < data.Length && Occupied(view, r) && data[r].mapValue == m
    {
      SetBounds(g, m);
      var first := g.FirstD(m);
      for d := first to first + g.assoc
        invariant forall e :: first <= e < d ==> !(Occupied(view, e) && view.data[e].mapValue == m)
      {
        HeadInRange(view, d);
        assert view.data[d] == data[d];
        if Occupied(view, d) { assert SlotOk(view, d, |view.lists[d]| - 1); }
        if data[d].mapValue == m && data[d].head != -1 { return d; }
      }
      MapInItsSet(g, view, m);
      r := -1;
    }

    method EvictTag(t: int)
      requires Valid() && -1 <= t < tags.Length && (t != -1 ==> tags[t].dataId != -1)
      modifies this, tags, data
      ensures Valid()
      ensures t == -1 ==> view == old(view) && reported == old(reported)
      ensures t != -1 ==>
        && old(TagOk(view, t) && -1 <= view.tags[t].prev < |view.tags| && -1 <= view.tags[t].next < |view.tags|)
        && view == Unlinked(old(view), t)
        && reported == old(reported) + [(old(tags[t].addr), t + tags.Length)]
      ensures forall m :: HasMap(view, m) ==> old(HasMap(view, m))
    {
      if t == -1 { return; }
      reported := reported + [(tags[t].addr, t + tags.Length)];
      RemoveTag(t);
    }

    /** Evicts every tag that shares data line d; each is reported exactly once, head first. */
    method EvictData(d: nat)
      requires Valid() && d < data.Length
      modifies this, tags, data
      ensures Valid() && Drained(old(view), view, d, 0)
      ensures InTags(old(view), d)
      ensures reported == old(reported) + Reports(old(view), old(view).lists[d], tags.Length)
      ensures forall m :: HasMap(view, m) ==> old(HasMap(view, m))
    {
      ghost var v, L := view, view.lists[d];
      ghost var k: nat := |L|;
      DrainStart(v, d);
      var more := true;
      while more
        invariant Valid() && Drained(v, view, d, k)
        invariant reported + Reports(v, L[..k], tags.Length) == old(reported) + Reports(v, L, tags.Length)
        invariant forall m :: HasMap(view, m) ==> HasMap(v, m)
        invariant !more ==> k == 0
        decreases k, more
      {
        k, more := EvictHead(v, d, k);
      }
    }

    /** The body of the eviction loop. */
    method EvictHead(ghost v: Arrays, d: nat, ghost k: nat) returns (ghost k': nat, more: bool)
      requires Valid() && ListsOk(v) && d < data.Length && Drained(v, view, d, k)
      requires InTags(v, d)
      modifies this, tags, data
      ensures Valid() && k' == (if k == 0 then 0 else k - 1) && Drained(v, view, d, k')
      ensures k > 0 ==> reported + Reports(v, v.lists[d][..k'], tags.Length) == old(reported) + Reports(v, v.lists[d][..k], tags.Length)
      ensures k == 0 ==> reported == old(reported)
      ensures more <==> k' > 0
      ensures forall m :: HasMap(view, m) ==> old(HasMap(view, m))
    {
      HeadInRange(view, d);
      if k > 0 {
        DrainStep(v, view, d, k);
        assert v.lists[d][..k][..k - 1] == v.lists[d][..k - 1];
      }
      var t := data[d].head;
      EvictTag(t);
      k' := if k == 0 then 0 else k - 1;
      HeadInRange(view, d);
      if k' > 0 { assert SlotOk(view, d, k' - 1); }
      more := data[d].head != -1;
    }

    /** A free line in the set of map value m: one that is free already, or one the replacement policy
        picks and that is then drained. */
    method GetFreeData(m: int) returns (d: nat)
      requires Valid() && !HasMap(view, m)
      modifies this, tags, data
      ensures Valid() && d < data.Length && !Occupied(view, d) && !HasMap(view, m)
      ensures g.FirstD(m) <= d < g.FirstD(m) + g.assoc
      ensures Drained(old(view), view, d, 0)
      ensures InTags(old(view), d) && reported == old(reported) + Reports(old(view), old(view).lists[d], tags.Length)
      ensures FreeFirst(g, old(view), m, d)
    {
      SetBounds(g, m);
      var free := FindFreeData(m);
      if free != -1 {
        DrainStart(view, free);
        return free;
      }
      d :| g.FirstD(m) <= d < g.FirstD(m) + g.assoc;
      EvictData(d);
    }

    method FindFreeData(m: int) returns (d: int)
      requires Valid()
      ensures d == -1 <==> forall e :: g.FirstD(m) <= e < g.FirstD(m) + g.assoc && e < data.Length ==> Occupied(view, e)
      ensures d != -1 ==> g.FirstD(m) <= d < g.FirstD(m) + g.assoc && d < data.Length && !Occupied(view, d)
      ensures d != -1 ==> FreeFirst(g, view, m, d)
    {
      SetBounds(g, m);
      var first := g.FirstD(m);
      for i := first to first + g.assoc
        invariant forall e :: first <= e < i ==> Occupied(view, e)
      {
        HeadInRange(view, i);
        assert view.data[i] == data[i];
        if Occupied(view, i) { assert SlotOk(view, i, |view.lists[i]| - 1); }
        if data[i].head == -1 { return i; }
      }
      d := -1;
    }

    /** A free tag in addr's set, evicting one if all are in use. */
    method GetFreeTag(addr: int) returns (t: nat)
      requires Valid()
      modifies this, tags, data
      ensures Valid() && t < tags.Length && tags[t].dataId == -1
      ensures g.FirstT(addr) <= t < g.FirstT(addr) + g.assoc
      ensures view == Freed(old(view), t)
      ensures old(tags[t].dataId) != -1 ==> forall k :: g.FirstT(addr) <= k < g.FirstT(addr) + g.assoc && k < tags.Length ==> old(tags[k].dataId) != -1
      ensures reported == old(reported) + if old(tags[t].dataId) == -1 then [] else [(old(tags[t].addr), t + tags.Length)]
    {
      SetBounds(g, addr);
      var first := g.FirstT(addr);
      for i := first to first + g.assoc
        invariant forall k :: first <= k < i ==> tags[k].dataId != -1
      {
        assert view.tags[i] == tags[i];
        if tags[i].dataId == -1 { return i; }
      }
      t :| first <= t < first + g.assoc;
      assert view.tags[t] == tags[t];
      EvictTag(t);
      assert view.tags[t] == tags[t];
    }

    /** Puts free tag t into the data line for map value m, making room if there is none. */
    method Place(t: nat, m: int)
      requires Valid() && t < tags.Length && tags[t].dataId == -1
      modifies this, tags, data
      ensures Valid()
      ensures 0 <= tags[t].dataId < data.Length && data[tags[t].dataId].mapValue == m && data[tags[t].dataId].head == t
      ensures Placed(old(view), view, t, m)
      ensures !old(HasMap(view, m)) ==> FreeFirst(g, old(view), m, tags[t].dataId)
      ensures InTags(old(view), tags[t].dataId)
      ensures reported == old(reported) + if old(HasMap(view, m)) then [] else Reports(old(view), old(view).lists[tags[t].dataId], tags.Length)
      ensures tags[t].addr == old(tags[t].addr)
    {
      assert view.tags[t] == tags[t];
      ghost var v := view;
      var d := LookupData(m);
      if d != -1 {
        DrainStart(v, d);
        AddTag(t, d);
        PlacedByLink(v, t, d, m);
      } else {
        d := GetFreeData(m);
        assert view.tags[t] == tags[t];
        ghost var x := view;
        FillData(t, d, m);
        PlacedByDrain(v, x, t, d, m);
      }
      assert view.tags[t] == tags[t] && view.data[tags[t].dataId] == data[tags[t].dataId];
    }

    /** Looks addr up; m is the map value its data has now.  If the map changed, the tag is re-homed, and
        with that the tag forgets its address. */
    method Lookup(addr: int, m: int) returns (r: int)
      requires Valid()
      modifies this, tags, data
      ensures Valid()
      ensures r == -1 ==> view == old(view) && forall t :: g.FirstT(addr) <= t < g.FirstT(addr) + g.assoc && t < tags.Length ==>
                !(tags[t].addr == addr && tags[t].dataId != -1)
      ensures r != -1 ==>
        && var t := r - tags.Length;
           && g.FirstT(addr) <= t < g.FirstT(addr) + g.assoc && t < tags.Length
           && old(tags[t].addr) == addr && old(tags[t].dataId) != -1 && 0 <= old(tags[t].dataId) < data.Length
           && 0 <= tags[t].dataId < data.Length && data[tags[t].dataId].mapValue == m
           && (old(data[tags[t].dataId].mapValue) == m ==> view == old(view))
           && (old(data[tags[t].dataId].mapValue) != m ==> tags[t].addr == -1 && Placed(Freed(old(view), t), view, t, m))
    {
      SetBounds(g, addr);
      var first := g.FirstT(addr);
      for t := first to first + g.assoc
        invariant Valid() && view == old(view)
        invariant forall k :: first <= k < t ==> !(tags[k].addr == addr && tags[k].dataId != -1)
      {
        assert view.tags[t] == tags[t] && TagOk(view, t);
        if tags[t].addr == addr && tags[t].dataId != -1 {
          if data[tags[t].dataId].mapValue != m {
            RemoveTag(t);
            assert view.tags[t] == tags[t];
            Place(t, m);
          }
          return t + tags.Length;
        }
      }
      r := -1;
    }

    /** Allocates a tag for addr, whose data has map value m, and links it to its data line. */
    method Preinsert(addr: int, m: int) returns (r: nat)
      requires Valid()
      modifies this, tags, data
      ensures Valid()
      ensures var t := r - tags.Length;
        && g.FirstT(addr) <= t < g.FirstT(addr) + g.assoc && 0 <= t < tags.Length
        && 0 <= tags[t].dataId < data.Length && data[tags[t].dataId].mapValue == m && data[tags[t].dataId].head == t
        && Placed(Freed(old(view), t), view, t, m)
        && (old(tags[t].dataId) != -1 ==> forall k :: g.FirstT(addr) <= k < g.FirstT(addr) + g.assoc && k < tags.Length ==> old(tags[k].dataId) != -1)
        && (!HasMap(Freed(old(view), t), m) ==> FreeFirst(g, Freed(old(view), t), m, tags[t].dataId))
    {
      SetBounds(g, addr);
      var t := GetFreeTag(addr);
      Place(t, m);
      r := t + tags.Length;
    }

    /** Installs the address; lists and maps are untouched. */
    method Postinsert(addr: int, candidate: nat)
      requires Valid() && tags.Length <= candidate < 2 * tags.Length
      modifies this`view, tags
      ensures Valid() && tags[..] == old(tags[..])[candidate - tags.Length := old(tags[candidate - tags.Length]).(addr := addr)]
      ensures view.lists == old(view.lists)
    {
      var t := candidate - tags.Length;
      ghost var v := view;
      assert v.tags[t] == tags[t];
      tags[t] := tags[t].(addr := addr);
      view := v.(tags := v.tags[t := v.tags[t].(addr := addr)]);
      Readdressed(g, v, t, addr);
    }
  }

  lemma Readdressed(g: Geometry, v: Arrays, t: nat, addr: int)
    requires ListsOk(v) && MapsOk(g, v) && t < |v.tags|
    ensures ListsOk(v.(tags := v.tags[t := v.tags[t].(addr := addr)])) && MapsOk(g, v.(tags := v.tags[t := v.tags[t].(addr := addr)]))
  {
    var w := v.(tags := v.tags[t := v.tags[t].(addr := addr)]);
    forall d, i | 0 <= d < |w.data| && 0 <= i < |w.lists[d]| ensures SlotOk(w, d, i) { assert SlotOk(v, d, i); }
    forall u | 0 <= u < |w.tags| ensures TagOk(w, u) { assert TagOk(v, u); }
    forall d | 0 <= d < |w.data| ensures HeadOk(w, d) { assert HeadOk(v, d); }
    FewerMaps(g, v, w);
  }

  // ---------------------------------------------------------------- what the links say by themselves

  /** The tag reached from t by k prev links; -1 once the list has ended. */
  ghost function Back(tags: seq<Tag>, t: int, k: nat): int {
    if k == 0 then t
    else var u := Back(tags, t, k - 1); if 0 <= u < |tags| then tags[u].prev else -1
  }

  lemma {:induction false} BackIs(v: Arrays, d: nat, k: nat)
    requires ListsOk(v) && d < |v.data| && k <= |v.lists[d]|
    ensures Back(v.tags, v.data[d].head, k) == if k == |v.lists[d]| then -1 else v.lists[d][|v.lists[d]| - 1 - k]
  {
    var L := v.lists[d];
    assert HeadOk(v, d);
    if k > 0 {
      BackIs(v, d, k - 1);
      assert SlotOk(v, d, |L| - k);
      assert TagOk(v, L[|L| - k]);
    }
  }

  /** The k-th tag met from the head of d belongs to d, and stands k places before the end of its list. */
  ghost predicate BackSlot(v: Arrays, d: nat, k: nat)
    requires Shape(v) && d < |v.data| && k < |v.lists[d]|
  {
    var t := Back(v.tags, v.data[d].head, k);
    0 <= t < |v.tags| && v.tags[t].dataId == d && v.pos[t] == |v.lists[d]| - 1 - k && v.lists[d][v.pos[t]] == t
  }

  /** t is among the first n tags met from the head of d. */
  ghost predicate Met(v: Arrays, d: nat, n: nat, t: nat)
    requires d < |v.data|
  {
    exists k :: 0 <= k < n && Back(v.tags, v.data[d].head, k) == t
  }

  /** Following prev from the head of d reaches -1 after n tags, having met exactly the tags of d, each
      once; and next undoes prev. */
  lemma TraversalExact(v: Arrays, d: nat) returns (n: nat)
    requires ListsOk(v) && d < |v.data|
    ensures Back(v.tags, v.data[d].head, n) == -1
    ensures forall t :: 0 <= t < |v.tags| ==> (v.tags[t].dataId == d <==> Met(v, d, n, t))
    ensures forall j, k :: 0 <= j < k < n ==> Back(v.tags, v.data[d].head, j) != Back(v.tags, v.data[d].head, k)
    ensures forall t :: 0 <= t < |v.tags| && v.tags[t].dataId == d && v.tags[t].prev != -1 ==>
              0 <= v.tags[t].prev < |v.tags| && v.tags[v.tags[t].prev].next == t
  {
    var L := v.lists[d];
    n := |L|;
    BackIs(v, d, n);
    forall k | 0 <= k < n ensures BackSlot(v, d, k) {
      BackIs(v, d, k);
      assert SlotOk(v, d, n - 1 - k);
    }
    forall j, k | 0 <= j < k < n ensures Back(v.tags, v.data[d].head, j) != Back(v.tags, v.data[d].head, k) {
      assert BackSlot(v, d, j) && BackSlot(v, d, k);
    }
    forall t | 0 <= t < |v.tags| && Met(v, d, n, t) ensures v.tags[t].dataId == d {
      var k :| 0 <= k < n && Back(v.tags, v.data[d].head, k) == t;
      assert BackSlot(v, d, k);
    }
    forall t | 0 <= t < |v.tags| && v.tags[t].dataId == d
      ensures Met(v, d, n, t)
      ensures v.tags[t].prev != -1 ==> 0 <= v.tags[t].prev < |v.tags| && v.tags[v.tags[t].prev].next == t
    {
      assert TagOk(v, t);
      assert BackSlot(v, d, n - 1 - v.pos[t]);
      assert Back(v.tags, v.data[d].head, n - 1 - v.pos[t]) == t;
      LinksInRange(v, t);
      if v.tags[t].prev != -1 { assert SlotOk(v, d, v.pos[t] - 1) && TagOk(v, v.tags[t].prev); }
    }
  }
}
