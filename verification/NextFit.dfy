/** The state of a CidrSet as a value, its three operations, and theorems about every run of
    them: circular next-fit order, bounded waiting, and what a drain returns. */
module NextFit {
  import opened Networks

  // ---- circular indices ----

  function Succ(size: nat, i: nat): nat { if i + 1 == size then 0 else i + 1 }

  /** Steps forward from `from` to `to` on a circle of `size` positions. */
  function Dist(size: nat, from: nat, to: nat): nat
    requires from < size && to < size
  {
    if from <= to then to - from else to + size - from
  }

  // ---- states ----

  datatype Bitmap = Bitmap(size: nat, used: set<nat>, next: nat) {
    predicate Valid() {
      && next < size
      && forall i :: i in used ==> i < size
    }

    predicate IsFree(i: nat) { i < size && i !in used }

    ghost predicate Full() { forall i: nat :: i < size ==> i in used }

    /** i is the first free position in circular order from the candidate pointer. */
    ghost predicate IsNextFree(i: nat)
      requires Valid()
    {
      && IsFree(i)
      && forall j: nat :: IsFree(j) ==> Dist(size, next, i) <= Dist(size, next, j)
    }

    ghost function NextFree(): (i: nat)
      requires Valid() && !Full()
      ensures IsNextFree(i)
    {
      NextFreeExists(this);
      var i: nat :| IsNextFree(i);
      i
    }

    /** AllocateNext; None is ErrCIDRRangeNoCIDRsRemaining. */
    ghost function Allocate(): (Bitmap, Option<nat>)
      requires Valid()
    {
      if Full() then (this, None)
      else (Bitmap(size, used + {NextFree()}, Succ(size, NextFree())), Some(NextFree()))
    }

    /** Occupy, given the positions the CIDR touches. */
    function Occupy(touched: set<nat>): Bitmap {
      this.(used := used + set i | i in touched && i < size)
    }

    /** Release, given the positions the CIDR touches. */
    function Release(touched: set<nat>): Bitmap {
      this.(used := used - touched)
    }
  }

  function Fresh(size: nat): Bitmap { Bitmap(size, {}, 0) }

  lemma NextFreeExists(m: Bitmap)
    requires m.Valid() && !m.Full()
    ensures exists i: nat :: m.IsNextFree(i)
  {
    var i: nat :| i < m.size && i !in m.used;
    NextFreeWithin(m, i);
  }

  lemma {:induction false} NextFreeWithin(m: Bitmap, i: nat)
    requires m.Valid() && m.IsFree(i)
    ensures exists j: nat :: m.IsNextFree(j)
    decreases Dist(m.size, m.next, i)
  {
    if j: nat :| m.IsFree(j) && Dist(m.size, m.next, j) < Dist(m.size, m.next, i) {
      NextFreeWithin(m, j);
    } else {
      assert m.IsNextFree(i);
    }
  }

  /** The scan of AllocateNext may stop at one position only. */
  lemma NextFreeIsUnique(m: Bitmap, i: nat)
    requires m.Valid() && m.IsNextFree(i)
    ensures !m.Full() && m.NextFree() == i
  {
    assert m.IsFree(i);
    assert m.IsFree(m.NextFree());
  }

  /** Counting: as many used positions as positions means that none is free. */
  lemma FullIsCount(m: Bitmap)
    requires m.Valid()
    ensures |m.used| <= m.size
    ensures m.Full() <==> |m.used| == m.size
  {
    var all := Positions(m.size);
    assert m.used <= all;
    SubsetCount(m.used, all);
    if m.Full() {
      assert m.used == all;
    }
  }

  function Positions(size: nat): (s: set<nat>)
    ensures forall i: nat :: i in s <==> i < size
    ensures |s| == size
  {
    if size == 0 then {} else Positions(size - 1) + {size - 1}
  }

  lemma SubsetCount(a: set<nat>, b: set<nat>)
    requires a <= b
    ensures |a| <= |b|
    ensures |a| == |b| ==> a == b
  {
    assert b == a + (b - a);
  }

  // ---- runs ----

  datatype Op = AllocateNext | Occupy(touched: set<nat>) | Release(touched: set<nat>)

  ghost function Apply(m: Bitmap, op: Op): (m': Bitmap)
    requires m.Valid()
    ensures m'.Valid() && m'.size == m.size
  {
    match op
    case AllocateNext => m.Allocate().0
    case Occupy(touched) => m.Occupy(touched)
    case Release(touched) => m.Release(touched)
  }

  /** states[k] is the state before ops[k]; any interleaving of callers gives such a run,
      as each operation is atomic under the mutex. */
  ghost predicate IsRun(states: seq<Bitmap>, ops: seq<Op>) {
    && |states| == |ops| + 1
    && (forall k :: 0 <= k < |states| ==> states[k].Valid())
    && (forall k :: 0 <= k < |ops| ==> states[k + 1] == Apply(states[k], ops[k]))
  }

  /** What operation k of a run returned, if it is an AllocateNext that succeeded. */
  ghost function Returned(states: seq<Bitmap>, ops: seq<Op>, k: nat): Option<nat>
    requires IsRun(states, ops) && k < |ops|
  {
    if ops[k].AllocateNext? then states[k].Allocate().1 else None
  }

  lemma {:induction false} RunSize(states: seq<Bitmap>, ops: seq<Op>, t: nat, k: nat)
    requires IsRun(states, ops) && t <= k < |states|
    ensures states[k].size == states[t].size
    decreases k
  {
    if t < k {
      RunSize(states, ops, t, k - 1);
    }
  }

  // ---- no early reuse ----

  /** While a position stays free the candidate pointer does not pass it. */
  lemma {:induction false} PointerStopsAtFree(states: seq<Bitmap>, ops: seq<Op>, t: nat, k: nat, j: nat)
    requires IsRun(states, ops) && t <= k < |states| && j < states[t].size
    requires forall l :: t <= l <= k ==> j !in states[l].used
    ensures states[k].size == states[t].size
    ensures Dist(states[t].size, states[t].next, states[k].next) <= Dist(states[t].size, states[t].next, j)
    ensures Dist(states[k].size, states[k].next, j)
         == Dist(states[t].size, states[t].next, j) - Dist(states[t].size, states[t].next, states[k].next)
    decreases k
  {
    if t < k {
      PointerStopsAtFree(states, ops, t, k - 1, j);
      assert states[k] == Apply(states[k - 1], ops[k - 1]);
      assert states[k - 1].IsFree(j);
    }
  }

  /** If AllocateNext returns block i twice, then every other block was in use at some moment
      in between, whatever other calls interleave. */
  lemma NoEarlyReuse(states: seq<Bitmap>, ops: seq<Op>, t1: nat, t2: nat, i: nat, j: nat)
    requires IsRun(states, ops) && t1 < t2 < |ops|
    requires Returned(states, ops, t1) == Some(i) && Returned(states, ops, t2) == Some(i)
    requires j != i && j < states[t1].size
    ensures exists k :: t1 < k <= t2 && j in states[k].used
  {
    if forall k :: t1 < k <= t2 ==> j !in states[k].used {
      assert states[t1 + 1] == Apply(states[t1], ops[t1]);
      PointerStopsAtFree(states, ops, t1 + 1, t2, j);
      assert states[t2].IsFree(j);
      assert false;
    }
  }

  // ---- bounded wait ----

  /** The number of AllocateNext calls among operations t .. u. */
  function Calls(ops: seq<Op>, t: nat, u: nat): nat
    requires t <= u <= |ops|
    decreases u
  {
    if t == u then 0 else Calls(ops, t, u - 1) + (if ops[u - 1].AllocateNext? then 1 else 0)
  }

  ghost predicate NobodyOccupies(ops: seq<Op>, t: nat, u: nat, j: nat)
    requires t <= u <= |ops|
  {
    forall k :: t <= k < u && ops[k].Occupy? ==> j !in ops[k].touched
  }

  /** A free position that is passed over stays free, and every call brings the pointer nearer. */
  lemma {:induction false} WaitingShrinks(states: seq<Bitmap>, ops: seq<Op>, t: nat, u: nat, j: nat)
    requires IsRun(states, ops) && t <= u <= |ops| && states[t].IsFree(j)
    requires NobodyOccupies(ops, t, u, j)
    requires forall k :: t <= k < u ==> Returned(states, ops, k) != Some(j)
    ensures states[u].size == states[t].size && states[u].IsFree(j)
    ensures Calls(ops, t, u) + Dist(states[u].size, states[u].next, j) <= Dist(states[t].size, states[t].next, j)
    decreases u
  {
    if t < u {
      WaitingShrinks(states, ops, t, u - 1, j);
      assert states[u] == Apply(states[u - 1], ops[u - 1]);
      assert Returned(states, ops, u - 1) != Some(j);
    }
  }

  /** A free block that nobody occupies is returned at the latest by call number
      (circular distance from the candidate pointer) + 1, and every call up to then succeeds. */
  lemma BoundedWait(states: seq<Bitmap>, ops: seq<Op>, t: nat, u: nat, j: nat)
    requires IsRun(states, ops) && t <= u <= |ops| && states[t].IsFree(j)
    requires NobodyOccupies(ops, t, u, j)
    requires Calls(ops, t, u) > Dist(states[t].size, states[t].next, j)
    ensures exists k :: t <= k < u && Returned(states, ops, k) == Some(j)
              && forall l :: t <= l <= k && ops[l].AllocateNext? ==> Returned(states, ops, l).Some?
  {
    var k := FirstReturn(states, ops, t, u, j);
    forall l | t <= l <= k && ops[l].AllocateNext?
      ensures Returned(states, ops, l).Some?
    {
      WaitingShrinks(states, ops, t, l, j);
    }
  }

  lemma {:induction false} FirstReturn(states: seq<Bitmap>, ops: seq<Op>, t: nat, u: nat, j: nat) returns (k: nat)
    requires IsRun(states, ops) && t <= u <= |ops| && states[t].IsFree(j)
    requires NobodyOccupies(ops, t, u, j)
    requires Calls(ops, t, u) > Dist(states[t].size, states[t].next, j)
    ensures t <= k < u && Returned(states, ops, k) == Some(j)
    ensures forall l :: t <= l < k ==> Returned(states, ops, l) != Some(j)
  {
    k := t;
    while k < u && Returned(states, ops, k) != Some(j)
      invariant t <= k <= u
      invariant forall l :: t <= l < k ==> Returned(states, ops, l) != Some(j)
    {
      k := k + 1;
    }
    if k == u {
      WaitingShrinks(states, ops, t, u, j);
    }
  }

  // ---- drains ----

  /** Operations t .. u are all AllocateNext. */
  predicate AllCalls(ops: seq<Op>, t: nat, u: nat)
    requires t <= u <= |ops|
  {
    forall k :: t <= k < u ==> ops[k].AllocateNext?
  }

  lemma {:induction false} UsedGrows(states: seq<Bitmap>, ops: seq<Op>, t: nat, k: nat, u: nat)
    requires IsRun(states, ops) && t <= k <= u <= |ops| && AllCalls(ops, t, u)
    ensures states[k].size == states[t].size
    ensures states[k].used <= states[u].used
    decreases u
  {
    if k < u {
      UsedGrows(states, ops, t, k, u - 1);
      assert states[u] == Apply(states[u - 1], ops[u - 1]);
    } else {
      RunSize(states, ops, t, k);
    }
  }

  /** Each call of a drain takes one more free position until none is left. */
  lemma {:induction false} DrainCounts(states: seq<Bitmap>, ops: seq<Op>, t: nat, u: nat)
    requires IsRun(states, ops) && t <= u <= |ops| && AllCalls(ops, t, u)
    requires u - t <= states[t].size - |states[t].used|
    ensures states[u].size == states[t].size && |states[u].used| == |states[t].used| + (u - t)
    ensures forall k :: t <= k < u ==> Returned(states, ops, k).Some?
    decreases u
  {
    if t < u {
      DrainCounts(states, ops, t, u - 1);
      OneMore(states[u - 1]);
      assert states[u] == Apply(states[u - 1], ops[u - 1]);
      assert Returned(states, ops, u - 1) == Some(states[u - 1].NextFree());
    }
  }

  /** What a drain has marked it has returned. */
  lemma {:induction false} DrainReturnsMarked(states: seq<Bitmap>, ops: seq<Op>, t: nat, u: nat, i: nat)
    requires IsRun(states, ops) && t <= u <= |ops| && AllCalls(ops, t, u)
    requires i in states[u].used && i !in states[t].used
    ensures exists k :: t <= k < u && Returned(states, ops, k) == Some(i)
    decreases u
  {
    if t < u {
      assert states[u] == Apply(states[u - 1], ops[u - 1]);
      if i in states[u - 1].used {
        DrainReturnsMarked(states, ops, t, u - 1, i);
      } else {
        assert Returned(states, ops, u - 1) == Some(i);
      }
    }
  }

  lemma OneMore(m: Bitmap)
    requires m.Valid() && |m.used| < m.size
    ensures !m.Full() && |m.Allocate().0.used| == |m.used| + 1
  {
    FullIsCount(m);
  }

  /** Two results of a drain come in circular order from where the drain started. */
  lemma DrainOrder(states: seq<Bitmap>, ops: seq<Op>, t: nat, a: nat, b: nat, i: nat, j: nat)
    requires IsRun(states, ops) && t <= a < b < |ops| && AllCalls(ops, t, b + 1)
    requires Returned(states, ops, a) == Some(i) && Returned(states, ops, b) == Some(j)
    ensures i < states[t].size && j < states[t].size
    ensures Dist(states[t].size, states[t].next, i) < Dist(states[t].size, states[t].next, j)
  {
    forall l | t <= l <= b
      ensures j !in states[l].used && (l <= a ==> i !in states[l].used)
    {
      UsedGrows(states, ops, t, l, b);
      if l <= a {
        UsedGrows(states, ops, t, l, a);
      }
    }
    RunSize(states, ops, t, a);
    RunSize(states, ops, t, b);
    PointerStopsAtFree(states, ops, t, a, i);
    PointerStopsAtFree(states, ops, t, a, j);
    assert states[a].IsFree(j);
    assert states[a + 1] == Apply(states[a], ops[a]);
  }

  /** In circular order from `start`, without repetition. */
  predicate InOrder(size: nat, start: nat, d: seq<nat>) {
    && start < size
    && (forall k :: 0 <= k < |d| ==> d[k] < size)
    && (forall a, b :: 0 <= a < b < |d| ==> Dist(size, start, d[a]) < Dist(size, start, d[b]))
  }

  /** d is what operations t, t + 1, ... returned. */
  ghost predicate Returns(states: seq<Bitmap>, ops: seq<Op>, t: nat, d: seq<nat>)
    requires IsRun(states, ops)
  {
    && t + |d| <= |ops|
    && AllCalls(ops, t, t + |d|)
    && forall k :: 0 <= k < |d| ==> Returned(states, ops, t + k) == Some(d[k])
  }

  lemma ReturnsInOrder(states: seq<Bitmap>, ops: seq<Op>, t: nat, d: seq<nat>)
    requires IsRun(states, ops) && Returns(states, ops, t, d)
    ensures InOrder(states[t].size, states[t].next, d)
    ensures forall k :: 0 <= k < |d| ==> states[t].IsFree(d[k])
  {
    forall k | 0 <= k < |d|
      ensures states[t].IsFree(d[k])
    {
      assert Returned(states, ops, t + k) == Some(d[k]);
      UsedGrows(states, ops, t, t, t + k);
      RunSize(states, ops, t, t + k);
    }
    forall a, b | 0 <= a < b < |d|
      ensures Dist(states[t].size, states[t].next, d[a]) < Dist(states[t].size, states[t].next, d[b])
    {
      assert Returned(states, ops, t + a) == Some(d[a]) && Returned(states, ops, t + b) == Some(d[b]);
      DrainOrder(states, ops, t, t + a, t + b, d[a], d[b]);
    }
  }

  lemma ReturnsAllFree(states: seq<Bitmap>, ops: seq<Op>, t: nat, d: seq<nat>)
    requires IsRun(states, ops) && Returns(states, ops, t, d)
    requires |d| == states[t].size - |states[t].used|
    ensures forall i: nat :: states[t].IsFree(i) ==> i in d
    ensures states[t + |d|].size == states[t].size && states[t + |d|].Full()
  {
    DrainCounts(states, ops, t, t + |d|);
    FullIsCount(states[t + |d|]);
    forall i: nat | states[t].IsFree(i)
      ensures i in d
    {
      DrainReturnsMarked(states, ops, t, t + |d|, i);
      var k :| t <= k < t + |d| && Returned(states, ops, k) == Some(i);
      assert Returned(states, ops, t + (k - t)) == Some(d[k - t]);
    }
  }

  lemma DrainResults(states: seq<Bitmap>, ops: seq<Op>, t: nat, f: nat) returns (d: seq<nat>)
    requires IsRun(states, ops) && t + f <= |ops| && AllCalls(ops, t, t + f)
    requires f == states[t].size - |states[t].used|
    ensures |d| == f && Returns(states, ops, t, d)
  {
    DrainCounts(states, ops, t, t + f);
    d := seq(f, k requires 0 <= k < f => Returned(states, ops, t + k).value);
  }

  /** With f free positions, f calls return exactly the free positions, each once, in circular
      order from the candidate pointer, and leave the set full, so that the next call fails. */
  lemma DrainReturnsFree(states: seq<Bitmap>, ops: seq<Op>, t: nat, f: nat) returns (d: seq<nat>)
    requires IsRun(states, ops) && t + f <= |ops| && AllCalls(ops, t, t + f)
    requires f == states[t].size - |states[t].used|
    ensures |d| == f && Returns(states, ops, t, d)
    ensures InOrder(states[t].size, states[t].next, d)
    ensures forall i: nat :: states[t].IsFree(i) <==> i in d
    ensures states[t + f].Full()
    ensures t + f < |ops| ==> Returned(states, ops, t + f) == None
  {
    d := DrainResults(states, ops, t, f);
    ReturnsInOrder(states, ops, t, d);
    ReturnsAllFree(states, ops, t, d);
  }

  /** A circular order has only one listing of a set of positions. */
  lemma {:induction false} OrderIsUnique(size: nat, start: nat, d: seq<nat>, e: seq<nat>)
    requires InOrder(size, start, d) && InOrder(size, start, e)
    requires forall i :: i in d <==> i in e
    ensures d == e
  {
    HasMember(e);
    if d != [] {
      assert d[0] in e;
      var x :| 0 <= x < |e| && e[x] == d[0];
      assert e[0] in d;
      var y :| 0 <= y < |d| && d[y] == e[0];
      assert x == 0 && y == 0;
      forall i
        ensures i in d[1..] <==> i in e[1..]
      {
        TailMembers(size, start, d, i);
        TailMembers(size, start, e, i);
      }
      OrderIsUnique(size, start, d[1..], e[1..]);
    }
  }

  lemma HasMember(e: seq<nat>)
    ensures e == [] || exists i :: i in e
  {
    if e != [] {
      assert e[0] in e;
    }
  }

  lemma TailMembers(size: nat, start: nat, d: seq<nat>, i: nat)
    requires InOrder(size, start, d) && d != []
    ensures i in d[1..] <==> i in d && i != d[0]
  {
    if i in d && i != d[0] {
      var k :| 0 <= k < |d| && d[k] == i;
      assert d[1..][k - 1] == i;
    }
    if i in d[1..] {
      var k :| 0 <= k < |d[1..]| && d[1..][k] == i;
      assert d[k + 1] == i;
    }
  }

  /** Starting after the last listed position keeps a circular listing in order. */
  lemma OrderWrapsAround(size: nat, start: nat, d: seq<nat>)
    requires InOrder(size, start, d) && d != []
    ensures InOrder(size, Succ(size, d[|d| - 1]), d)
  {
    var last := d[|d| - 1];
    forall k | 0 <= k < |d|
      ensures Dist(size, start, d[k]) <= Dist(size, start, last)
    {
    }
  }

  /** One Release for each of the listed positions. */
  function Releases(r: seq<nat>): seq<Op> {
    if r == [] then [] else Releases(r[..|r| - 1]) + [Op.Release({r[|r| - 1]})]
  }

  lemma {:induction false} ReleasesCount(r: seq<nat>)
    ensures |Releases(r)| == |r|
  {
    if r != [] {
      ReleasesCount(r[..|r| - 1]);
    }
  }

  lemma {:induction false} ReleasedOneByOne(states: seq<Bitmap>, ops: seq<Op>, t: nat, r: seq<nat>)
    requires IsRun(states, ops) && t + |r| <= |ops| && ops[t..t + |r|] == Releases(r)
    ensures states[t + |r|].size == states[t].size && states[t + |r|].next == states[t].next
    ensures states[t + |r|].used == states[t].used - set i | i in r
  {
    if r != [] {
      var n := |r| - 1;
      ReleasesCount(r[..n]);
      assert ops[t..t + n] == ops[t..t + |r|][..n];
      assert ops[t + n] == ops[t..t + |r|][n];
      ReleasedOneByOne(states, ops, t, r[..n]);
      assert states[t + n + 1] == Apply(states[t + n], ops[t + n]);
      assert r == r[..n] + [r[n]];
    }
  }

  /** m' is m after a drain that returned d. */
  ghost predicate Drained(m: Bitmap, m': Bitmap, d: seq<nat>) {
    && m.Valid() && d != [] && InOrder(m.size, m.next, d)
    && (forall i: nat :: i in d <==> m.IsFree(i))
    && m' == Bitmap(m.size, Positions(m.size), Succ(m.size, d[|d| - 1]))
  }

  lemma DrainFillsUp(states: seq<Bitmap>, ops: seq<Op>, t: nat, d: seq<nat>)
    requires IsRun(states, ops) && Returns(states, ops, t, d) && d != []
    requires |d| == states[t].size - |states[t].used|
    ensures Drained(states[t], states[t + |d|], d)
  {
    ReturnsInOrder(states, ops, t, d);
    ReturnsAllFree(states, ops, t, d);
    DrainMovesPointer(states, ops, t, d);
    assert states[t + |d|].used == Positions(states[t].size);
  }

  lemma DrainMovesPointer(states: seq<Bitmap>, ops: seq<Op>, t: nat, d: seq<nat>)
    requires IsRun(states, ops) && Returns(states, ops, t, d) && d != []
    ensures states[t + |d|].next == Succ(states[t].size, d[|d| - 1])
  {
    var last := t + (|d| - 1);
    assert Returned(states, ops, last) == Some(d[|d| - 1]);
    assert states[last + 1] == Apply(states[last], ops[last]);
    RunSize(states, ops, t, last);
  }

  /** Freeing the drained positions brings back all but the pointer, which stands where the
      drain ended; so a second drain returns the same. */
  lemma SecondDrain(m: Bitmap, m': Bitmap, n: Bitmap, n': Bitmap, d: seq<nat>, r: seq<nat>, e: seq<nat>)
    requires Drained(m, m', d) && multiset(r) == multiset(d)
    requires n == m'.(used := m'.used - set i | i in r)
    ensures n.used == m.used
    ensures Drained(n, n', e) ==> d == e
  {
    SameMembers(r, d);
    OrderWrapsAround(m.size, m.next, d);
    if Drained(n, n', e) {
      assert forall i :: i in d <==> i in e;
      OrderIsUnique(m.size, n.next, d, e);
    }
  }

  /** Drain determinism: releasing the drained blocks in any order and draining again returns
      the same blocks in the same order. Calls t .. u and v .. v + |d| are the drains. */
  lemma RedrainRepeats(states: seq<Bitmap>, ops: seq<Op>, t: nat, u: nat, v: nat, d: seq<nat>, r: seq<nat>)
    requires IsRun(states, ops) && u == t + |d| && v == u + |r| && v + |d| <= |ops|
    requires |d| == states[t].size - |states[t].used| && Returns(states, ops, t, d)
    requires multiset(r) == multiset(d) && ops[u..v] == Releases(r)
    requires AllCalls(ops, v, v + |d|)
    ensures Returns(states, ops, v, d)
  {
    if d != [] {
      DrainFillsUp(states, ops, t, d);
      ReleasedOneByOne(states, ops, u, r);
      SecondDrain(states[t], states[u], states[v], states[v], d, r, d);
      var again := DrainReturnsFree(states, ops, v, |d|);
      DrainFillsUp(states, ops, v, again);
      SecondDrain(states[t], states[u], states[v], states[v + |d|], d, r, again);
    }
  }

  lemma SameMembers(r: seq<nat>, d: seq<nat>)
    requires multiset(r) == multiset(d)
    ensures forall i :: i in r <==> i in d
  {
    forall i
      ensures i in r <==> i in d
    {
      assert i in r <==> i in multiset(r);
      assert i in d <==> i in multiset(d);
    }
  }
}
