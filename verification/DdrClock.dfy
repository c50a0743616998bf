/** Translating cycles between the system clock and the memory clock. */
module DdrClock {
  import opened Arithmetic

  /** Frequencies in kHz.  The controller refuses to start unless the memory clock is slower than half the system clock. */
  datatype Clocks = Clocks(sys: nat, mem: nat) {
    ghost predicate Valid() { mem > 0 && mem < sys / 2 }
    function ToMem(sysCycle: nat): nat requires sys > 0 { sysCycle * mem / sys + 1 }
    function ToSys(memCycle: nat): nat requires mem > 0 { (memCycle + 1) * sys / mem }
    function Matching(memCycle: nat): nat requires mem > 0 && memCycle >= 1 { (2 * memCycle - 1) * sys / mem / 2 }
  }

  lemma HalfMul(q: nat, m: nat)
    ensures 2 * (q / 2 * m) <= q * m <= 2 * (q / 2 * m) + m
  {
    var x := q / 2;
    TwiceMul(x, m);
    assert q == 2 * x || q == 2 * x + 1;
  }

  lemma TwiceMul(x: nat, m: nat)
    ensures (2 * x) * m == 2 * (x * m) && (2 * x + 1) * m == 2 * (x * m) + m
  {}

  lemma OddMul(k: nat, s: nat)
    requires k >= 1
    ensures (2 * k - 1) * s == 2 * ((k - 1) * s) + s
  {}

  lemma Middle(d: int, s: int, p: int, m: int, a: int, b: int)
    requires p == 2 * d + s && a <= p < a + m && 2 * b <= a <= 2 * b + m && 0 < 2 * m <= s
    ensures d <= b < d + s
  {}

  /** The cycle handed to the event queue is in the memory cycle it was meant for. */
  lemma MatchingRoundTrip(c: Clocks, k: nat)
    requires c.Valid() && k >= 1
    ensures c.ToMem(c.Matching(k)) == k
  {
    var p := (2 * k - 1) * c.sys;
    var q := p / c.mem;
    OddMul(k, c.sys);
    DivBounds(p, c.mem);
    HalfMul(q, c.mem);
    Middle((k - 1) * c.sys, c.sys, p, c.mem, q * c.mem, q / 2 * c.mem);
    DivIs(q / 2 * c.mem, c.sys, k - 1);
  }

  lemma ToMemMonotone(c: Clocks, x: nat, y: nat)
    requires c.sys > 0 && x <= y
    ensures c.ToMem(x) <= c.ToMem(y)
  {
    MulMono(x, y, c.mem);
    DivBounds(x * c.mem, c.sys);
    DivBounds(y * c.mem, c.sys);
    if x * c.mem / c.sys > y * c.mem / c.sys { MulMono(y * c.mem / c.sys + 1, x * c.mem / c.sys, c.sys); }
  }

  /** The system cycle at which the controller asks to be woken: never in the past, and always in memory cycle k. */
  function WakeAt(c: Clocks, k: nat, now: nat): nat
    requires c.mem > 0 && k >= 1
  {
    var x := c.Matching(k);
    if x >= now then x else now
  }

  lemma WakesInCycle(c: Clocks, k: nat, now: nat)
    requires c.Valid() && k >= 1 && c.ToMem(now) <= k
    ensures c.ToMem(WakeAt(c, k, now)) == k && WakeAt(c, k, now) >= now
  {
    MatchingRoundTrip(c, k);
    if c.Matching(k) < now { ToMemMonotone(c, c.Matching(k), now); }
  }

  /** The answer to a read is never sent before the cycle in which it was scheduled. */
  lemma AnswerNotInThePast(c: Clocks, sysCycle: nat, k: nat)
    requires c.Valid() && k >= c.ToMem(sysCycle)
    ensures c.ToSys(k) >= sysCycle
  {
    DivBounds(sysCycle * c.mem, c.sys);
    MulMono(c.ToMem(sysCycle), k + 1, c.sys);
    assert c.ToMem(sysCycle) * c.sys == sysCycle * c.mem / c.sys * c.sys + c.sys;
    DivBounds((k + 1) * c.sys, c.mem);
    if c.ToSys(k) < sysCycle { MulMono(c.ToSys(k) + 1, sysCycle, c.mem); }
  }

  lemma NextMul(a: nat, n: nat)
    ensures (a + 1) * n == a * n + n
  {}

  /** The end of memory cycle k is translated to a system cycle that is in one of the two cycles after k. */
  lemma EndOfCycle(c: Clocks, k: nat)
    requires c.Valid()
    ensures k + 1 <= c.ToMem(c.ToSys(k)) <= k + 2
  {
    var n := (k + 1) * c.sys;
    var y := n / c.mem * c.mem;
    DivBounds(n, c.mem);
    NextMul(k, c.sys);
    if y < n {
      DivIs(y, c.sys, k);
    } else {
      NextMul(k + 1, c.sys);
      DivIs(y, c.sys, k + 1);
    }
  }
}
