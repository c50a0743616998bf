/** A request queue and the per-bank lists its requests are filed in. */
module DdrQueues {
  import opened FrFcfs

  ghost predicate Distinct(s: seq<Request>) { forall i, j :: 0 <= i < j < |s| ==> s[i].id != s[j].id }

  ghost predicate FiledAt(q: seq<Request>, lists: seq<seq<Request>>, k: nat)
    requires k < |q|
  {
    q[k].bank < |lists| && q[k] in lists[q[k].bank]
  }

  ghost predicate ListOk(q: seq<Request>, list: seq<Request>, b: nat, limit: nat) {
    && Runs(list, limit) && RunsFull(list, limit) && Distinct(list)
    && forall i :: 0 <= i < |list| ==> list[i].bank == b && list[i] in q
  }

  /** Every queued request is in the list of its bank, once, and the lists hold nothing else. */
  ghost predicate Filed(q: seq<Request>, lists: seq<seq<Request>>, limit: nat, nextId: nat) {
    && Distinct(q)
    && (forall k :: 0 <= k < |q| ==> FiledAt(q, lists, k))
    && (forall k :: 0 <= k < |q| ==> q[k].id < nextId)
    && (forall b :: 0 <= b < |lists| ==> ListOk(q, lists[b], b, limit))
  }

  /** r is first in its bank. */
  predicate First(lists: seq<seq<Request>>, r: Request) {
    r.bank < |lists| && lists[r.bank] != [] && lists[r.bank][0].id == r.id
  }

  /** Some request of a nonempty queue is first in its bank. */
  lemma SomeFirst(q: seq<Request>, lists: seq<seq<Request>>, limit: nat, nextId: nat) returns (k: nat)
    requires Filed(q, lists, limit, nextId) && q != []
    ensures k < |q| && First(lists, q[k])
  {
    assert FiledAt(q, lists, 0);
    var b := q[0].bank;
    assert ListOk(q, lists[b], b, limit);
    k :| 0 <= k < |q| && q[k] == lists[b][0];
  }

  lemma FirstIs(q: seq<Request>, lists: seq<seq<Request>>, limit: nat, nextId: nat, k: nat)
    requires Filed(q, lists, limit, nextId) && k < |q| && First(lists, q[k])
    ensures lists[q[k].bank][0] == q[k]
  {
    var b := q[k].bank;
    assert ListOk(q, lists[b], b, limit);
    var j :| 0 <= j < |q| && q[j] == lists[b][0];
    assert !(j < k) && !(k < j);
  }

  lemma LaterId(q: seq<Request>, lists: seq<seq<Request>>, limit: nat, nextId: nat)
    requires Filed(q, lists, limit, nextId)
    ensures Filed(q, lists, limit, nextId + 1)
  {}

  function Without(q: seq<Request>, k: nat): seq<Request>
    requires k < |q|
  {
    q[..k] + q[k + 1..]
  }

  lemma ServedFiled(q: seq<Request>, lists: seq<seq<Request>>, limit: nat, nextId: nat, k: nat)
    requires Filed(q, lists, limit, nextId) && k < |q| && First(lists, q[k])
    ensures Filed(Without(q, k), lists[q[k].bank := lists[q[k].bank][1..]], limit, nextId)
  {
    FirstIs(q, lists, limit, nextId, k);
    var b, w := q[k].bank, Without(q, k);
    var ls := lists[b := lists[b][1..]];
    forall i | 0 <= i < |w| ensures FiledAt(w, ls, i) {
      var i' := if i < k then i else i + 1;
      assert FiledAt(q, lists, i') && w[i] == q[i'];
      if w[i].bank == b {
        var j :| 0 <= j < |lists[b]| && lists[b][j] == w[i];
        assert j != 0;
        assert ls[b][j - 1] == w[i];
      }
    }
    forall c | 0 <= c < |ls| ensures ListOk(w, ls[c], c, limit) {
      assert ListOk(q, lists[c], c, limit);
      if c == b {
        ServedRuns(lists[b], limit);
        ServedFull(lists[b], limit);
      }
      StillQueued(q, k, ls[c], c);
    }
  }

  lemma StillQueued(q: seq<Request>, k: nat, list: seq<Request>, b: nat)
    requires k < |q| && forall i :: 0 <= i < |list| ==> list[i].bank == b && list[i] in q && list[i].id != q[k].id
    ensures forall i :: 0 <= i < |list| ==> list[i].bank == b && list[i] in Without(q, k)
  {
    forall i | 0 <= i < |list| ensures list[i] in Without(q, k) {
      var j :| 0 <= j < |q| && q[j] == list[i];
      assert Without(q, k)[if j < k then j else j - 1] == list[i];
    }
  }

  lemma QueuedListOk(q: seq<Request>, was: seq<Request>, b: nat, limit: nat, nextId: nat, r: Request, row: Row)
    requires ListOk(q, was, b, limit) && r.bank == b && r.id == nextId && forall k :: 0 <= k < |q| ==> q[k].id < nextId
    ensures ListOk(q + [r.(hits := Place(was, r, row, limit).1)], Queued(was, r, row, limit), b, limit)
  {
    var (k, h) := Place(was, r, row, limit);
    var w, list := q + [r.(hits := h)], Queued(was, r, row, limit);
    QueuedRuns(was, r, row, limit);
    QueuedFull(was, r, row, limit);
    forall i | 0 <= i < |list| ensures list[i].bank == b && list[i] in w && (i != k ==> list[i].id < nextId) {
      if i < k { assert list[i] == was[i]; }
      if i > k { assert list[i] == was[i - 1]; }
      if i != k { var j :| 0 <= j < |q| && q[j] == list[i]; }
      assert i == k ==> w[|q|] == list[i];
    }
    forall i, j | 0 <= i < j < |list| ensures list[i].id != list[j].id {
      if i != k && j != k { assert list[i] == was[if i < k then i else i - 1] && list[j] == was[if j < k then j else j - 1]; }
    }
  }

  lemma QueuedFiled(q: seq<Request>, lists: seq<seq<Request>>, limit: nat, nextId: nat, r: Request, row: Row)
    requires Filed(q, lists, limit, nextId) && r.bank < |lists| && r.id == nextId
    ensures var x := r.(hits := Place(lists[r.bank], r, row, limit).1);
      Filed(q + [x], lists[r.bank := Queued(lists[r.bank], r, row, limit)], limit, nextId + 1)
  {
    var b := r.bank;
    var (k, h) := Place(lists[b], r, row, limit);
    var x := r.(hits := h);
    var w, list := q + [x], Queued(lists[b], r, row, limit);
    var ls := lists[b := list];
    assert ListOk(q, lists[b], b, limit);
    QueuedListOk(q, lists[b], b, limit, nextId, r, row);
    forall i | 0 <= i < |w| ensures FiledAt(w, ls, i) {
      if i < |q| {
        assert FiledAt(q, lists, i);
        if q[i].bank == b { KeptIn(lists[b], k, x, q[i]); }
      } else {
        assert list[k] == x;
      }
    }
    forall c | 0 <= c < |ls| ensures ListOk(w, ls[c], c, limit) { if c != b { assert ListOk(q, lists[c], c, limit); } }
  }

  lemma KeptIn(s: seq<Request>, k: nat, x: Request, y: Request)
    requires k <= |s| && y in s
    ensures y in Inserted(s, k, x)
  {
    var j :| 0 <= j < |s| && s[j] == y;
    assert Inserted(s, k, x)[if j < k then j else j + 1] == y;
  }
}
