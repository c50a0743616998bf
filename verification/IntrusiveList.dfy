/** The intrusive doubly linked list: the links live in the elements, and an element knows its list. */
module IntrusiveList {
  class Node<T> {
    var elem: T
    var next: Node?<T>
    var prev: Node?<T>
    var owner: InList?<T>

    constructor (x: T)
      ensures elem == x && Detached()
    {
      elem := x;
      next, prev, owner := null, null, null;
    }

    ghost predicate Detached()
      reads this
    {
      next == null && prev == null && owner == null
    }

    /** Cuts this node out of the chain of its neighbours. */
    method Unlink(lst: InList<T>)
      requires owner == lst && next != this && prev != this
      modifies this`next, this`prev, this`owner
      modifies (if next == null then {} else {next})`prev, (if prev == null then {} else {prev})`next
      ensures Detached()
      ensures old(next) != null ==> old(next).prev == old(prev)
      ensures old(prev) != null ==> old(prev).next == old(next)
      ensures old(next) != null && old(next) != old(prev) ==> old(next).next == old(next.next)
      ensures old(prev) != null && old(next) != old(prev) ==> old(prev).prev == old(prev.prev)
    {
      if next != null { next.prev := prev; }
      if prev != null { prev.next := next; }
      next := null;
      prev := null;
      owner := null;
    }

    /** Chains this detached node in behind p. */
    method LinkPrev(p: Node<T>, lst: InList<T>)
      requires Detached() && p != this && p.next != this && p.next != p && (p.next != null ==> p.next.prev == p)
      modifies this`next, this`prev, this`owner, p`next
      modifies (if p.next == null then {} else {p.next})`prev
      ensures next == old(p.next) && prev == p && owner == lst && p.next == this
      ensures old(p.next) != null ==> old(p.next).prev == this
    {
      if p.next != null {
        p.next.prev := this;
        next := p.next;
      }
      p.next := this;
      prev := p;
      owner := lst;
    }
  }

  /** The neighbours of position i, null past either end. */
  function At<T>(s: seq<Node<T>>, i: int): Node?<T> { if 0 <= i < |s| then s[i] else null }

  /** s with e put in at position k. */
  function Spliced<T>(s: seq<Node<T>>, k: nat, e: Node<T>): (w: seq<Node<T>>)
    requires k <= |s|
    ensures |w| == |s| + 1 && forall i :: 0 <= i < |w| ==> w[i] == if i < k then s[i] else if i == k then e else s[i - 1]
  {
    s[..k] + [e] + s[k..]
  }

  /** s without the element at position k. */
  function Cut<T>(s: seq<Node<T>>, k: nat): (w: seq<Node<T>>)
    requires k < |s|
    ensures |w| == |s| - 1 && forall i :: 0 <= i < |w| ==> w[i] == if i < k then s[i] else s[i + 1]
  {
    s[..k] + s[k + 1..]
  }

  ghost predicate Distinct<T>(s: seq<Node<T>>) { forall i, j :: 0 <= i < j < |s| ==> s[i] != s[j] }

  lemma SplicedDistinct<T>(s: seq<Node<T>>, k: nat, e: Node<T>)
    requires Distinct(s) && k <= |s| && e !in s
    ensures Distinct(Spliced(s, k, e))
  {}

  lemma CutDistinct<T>(s: seq<Node<T>>, k: nat)
    requires Distinct(s) && k < |s|
    ensures Distinct(Cut(s, k))
  {}

  class InList<T> {
    var head: Node?<T>
    var tail: Node?<T>
    var elems: nat
    ghost var nodes: seq<Node<T>>   // from head to tail

    /** Node i of this list, if s are its nodes. */
    ghost predicate LinkOk(s: seq<Node<T>>, i: nat)
      requires i < |s|
      reads s[i]
    {
      s[i].owner == this && s[i].next == At(s, i + 1) && s[i].prev == At(s, i - 1)
    }

    ghost predicate Valid()
      reads this, nodes
    {
      && elems == |nodes| && head == At(nodes, 0) && tail == At(nodes, |nodes| - 1)
      && (forall i :: 0 <= i < |nodes| ==> LinkOk(nodes, i)) && Distinct(nodes)
    }

    constructor ()
      ensures Valid() && nodes == []
    {
      head, tail, elems := null, null, 0;
      nodes := [];
    }

    predicate Empty()
      reads this
    {
      head == null
    }

    method PushFront(e: Node<T>)
      requires Valid() && e.Detached()
      modifies this, nodes`next, nodes`prev, e`next, e`prev, e`owner
      ensures Valid() && nodes == [e] + old(nodes)
    {
      Apart(e);
      ghost var s := nodes;
      if Empty() {
        head := e;
        tail := e;
      } else {
        assert LinkOk(nodes, 0);
        e.next := head;
        head.prev := e;
        head := e;
      }
      e.owner := this;
      elems := elems + 1;
      nodes := [e] + s;
      forall i | 0 <= i < |nodes| ensures LinkOk(nodes, i) { assert i > 0 ==> old(LinkOk(nodes, i - 1)); }
    }

    method PushBack(e: Node<T>)
      requires Valid() && e.Detached()
      modifies this, nodes`next, nodes`prev, e`next, e`prev, e`owner
      ensures Valid() && nodes == old(nodes) + [e]
    {
      Apart(e);
      ghost var s := nodes;
      if Empty() {
        head := e;
        tail := e;
        e.owner := this;
      } else {
        assert LinkOk(nodes, |s| - 1);
        e.LinkPrev(tail, this);
        tail := e;
      }
      elems := elems + 1;
      nodes := s + [e];
      forall i | 0 <= i < |nodes| ensures LinkOk(nodes, i) { assert i < |s| ==> old(LinkOk(nodes, i)); }
    }

    method InsertAfter(p: Node<T>, e: Node<T>, ghost k: nat)
      requires Valid() && e.Detached() && k < |nodes| && nodes[k] == p
      modifies this, nodes`next, nodes`prev, e`next, e`prev, e`owner
      ensures Valid() && nodes == Spliced(old(nodes), k + 1, e)
    {
      Apart(e);
      ghost var s := nodes;
      Attach(p, e, k);
      if p == tail { tail := e; }
      elems := elems + 1;
      SplicedDistinct(s, k + 1, e);
      nodes := Spliced(s, k + 1, e);
      SplicedLinks(s, k, e, nodes);
    }

    lemma SplicedLinks(s: seq<Node<T>>, k: nat, e: Node<T>, w: seq<Node<T>>)
      requires k < |s| && w == Spliced(s, k + 1, e) && e.owner == this && e.prev == s[k] && e.next == At(s, k + 1)
      requires forall i :: 0 <= i < |s| ==> AttachedOk(s, i, k, e)
      ensures forall i :: 0 <= i < |w| ==> LinkOk(w, i)
    {
      forall i | 0 <= i < |w| ensures LinkOk(w, i) {
        assert i != k + 1 ==> AttachedOk(s, if i <= k then i else i - 1, k, e);
      }
    }

    /** Node i of s once e is chained in behind node k. */
    ghost predicate AttachedOk(s: seq<Node<T>>, i: nat, k: nat, e: Node<T>)
      requires i < |s|
      reads s[i]
    {
      && s[i].owner == this && s[i].next == (if i == k then e else At(s, i + 1))
      && s[i].prev == (if i == k + 1 then e else At(s, i - 1))
    }

    method Attach(p: Node<T>, e: Node<T>, ghost k: nat)
      requires Valid() && e.Detached() && k < |nodes| && nodes[k] == p && e !in nodes
      modifies nodes`next, nodes`prev, e`next, e`prev, e`owner
      ensures forall i :: 0 <= i < |nodes| ==> AttachedOk(nodes, i, k, e)
      ensures e.owner == this && e.prev == p && e.next == At(nodes, k + 1)
    {
      assert LinkOk(nodes, k);
      if k + 1 < |nodes| { assert LinkOk(nodes, k + 1); }
      e.LinkPrev(p, this);
      forall i | 0 <= i < |nodes| ensures AttachedOk(nodes, i, k, e) { assert old(LinkOk(nodes, i)); }
    }

    method Remove(e: Node<T>, ghost k: nat)
      requires Valid() && k < |nodes| && nodes[k] == e
      modifies this, nodes`next, nodes`prev, e`owner
      ensures Valid() && nodes == Cut(old(nodes), k) && e.Detached()
    {
      ghost var s := nodes;
      assert LinkOk(nodes, k);
      if e == head { head := e.next; }
      if e == tail { tail := e.prev; }
      Detach(e, k);
      elems := elems - 1;
      CutDistinct(s, k);
      nodes := Cut(s, k);
      CutLinks(s, k, nodes);
    }

    lemma CutLinks(s: seq<Node<T>>, k: nat, w: seq<Node<T>>)
      requires k < |s| && w == Cut(s, k) && forall i :: 0 <= i < |s| && i != k ==> DetachedOk(s, i, k)
      ensures forall i :: 0 <= i < |w| ==> LinkOk(w, i)
    {
      forall i | 0 <= i < |w| ensures LinkOk(w, i) { assert DetachedOk(s, if i < k then i else i + 1, k); }
    }

    /** Node i of s once node k is cut out. */
    ghost predicate DetachedOk(s: seq<Node<T>>, i: nat, k: nat)
      requires i < |s|
      reads s[i]
    {
      && s[i].owner == this && s[i].next == At(s, if i == k - 1 then k + 1 else i + 1)
      && s[i].prev == At(s, if i == k + 1 then k - 1 else i - 1)
    }

    method Detach(e: Node<T>, ghost k: nat)
      requires k < |nodes| && nodes[k] == e
      requires Distinct(nodes) && forall i :: 0 <= i < |nodes| ==> LinkOk(nodes, i)
      modifies nodes`next, nodes`prev, e`owner
      ensures e.Detached() && forall i :: 0 <= i < |nodes| && i != k ==> DetachedOk(nodes, i, k)
    {
      assert LinkOk(nodes, k);
      if k + 1 < |nodes| { assert LinkOk(nodes, k + 1); }
      if k > 0 { assert LinkOk(nodes, k - 1); }
      e.Unlink(this);
      forall i | 0 <= i < |nodes| && i != k ensures DetachedOk(nodes, i, k) { assert old(LinkOk(nodes, i)); }
    }

    method PopFront()
      requires Valid()
      modifies this, nodes`next, nodes`prev, (if head == null then {} else {head})`owner
      ensures Valid() && nodes == (if old(nodes) == [] then [] else old(nodes)[1..])
      ensures old(nodes) != [] ==> old(nodes)[0].Detached()
    {
      if Empty() { return; }
      ghost var s := nodes;
      assert LinkOk(nodes, 0);
      if |s| > 1 { assert LinkOk(nodes, 1); }
      var e := head;
      head := e.next;
      e.Unlink(this);
      if head == null { tail := null; }
      elems := elems - 1;
      nodes := s[1..];
      forall i | 0 <= i < |nodes| ensures LinkOk(nodes, i) { assert old(LinkOk(nodes, i + 1)); }
    }

    method PopBack()
      requires Valid()
      modifies this, nodes`next, nodes`prev, (if tail == null then {} else {tail})`owner
      ensures Valid() && nodes == (if old(nodes) == [] then [] else old(nodes)[..|old(nodes)| - 1])
      ensures old(nodes) != [] ==> old(nodes)[|old(nodes)| - 1].Detached()
    {
      if Empty() { return; }
      ghost var s := nodes;
      ghost var k := |s| - 1;
      assert LinkOk(nodes, k);
      if k > 0 { assert LinkOk(nodes, k - 1); }
      var e := tail;
      tail := e.prev;
      e.Unlink(this);
      if tail == null { head := null; }
      elems := elems - 1;
      nodes := s[..k];
      forall i | 0 <= i < |nodes| ensures LinkOk(nodes, i) { assert old(LinkOk(nodes, i)); }
    }

    /** A detached node is in no list. */
    lemma Apart(e: Node<T>)
      requires Valid() && e.owner == null
      ensures e !in nodes
    {
      forall i | 0 <= i < |nodes| ensures nodes[i] != e { assert LinkOk(nodes, i); }
    }
  }
}
