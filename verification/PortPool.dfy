/** The FIFO pool of host ports (port_pool/port_pool.go). */
module PortPool {
  import opened Outcomes
  import opened Collections

  const WORD := 0x1_0000_0000

  type U32 = n: int | 0 <= n < WORD

  /** Addition of uint32 values, which wraps. */
  function Plus(a: U32, b: U32): (c: U32)
    ensures c == if a + b < WORD then a + b else a + b - WORD
  {
    (a + b) % WORD
  }

  /** Subtraction of uint32 values, which wraps. */
  function Minus(a: U32, b: U32): (c: U32)
    ensures c == if a >= b then a - b else a - b + WORD
  {
    (a - b) % WORD
  }

  datatype Error = InvalidRange | PoolExhausted | PortTaken(port: U32)

  // ----- the free list as a value

  /** The ports lo, lo + 1, ..., hi - 1. */
  function Ports(lo: nat, hi: nat): (ps: seq<U32>)
    requires lo <= hi <= WORD
    ensures |ps| == hi - lo && forall i | 0 <= i < |ps| :: ps[i] == lo + i
  {
    seq(hi - lo, i requires 0 <= i < hi - lo => lo + i)
  }

  /** The range start..start+size, rotated to begin at start+offset. */
  function Rotated(start: U32, size: U32, offset: nat): (ps: seq<U32>)
    requires offset <= size && start + size < WORD
  {
    Ports(start + offset, start + size) + Ports(start, start + offset)
  }

  function Without(free: seq<U32>, port: U32): (r: seq<U32>)
  {
    if free == [] then []
    else if free[0] == port then free[1..]
    else [free[0]] + Without(free[1..], port)
  }

  predicate InRange(start: U32, size: U32, port: int)
  {
    start <= port < Plus(start, size)
  }

  function Returned(start: U32, size: U32, free: seq<U32>, port: U32): (r: seq<U32>)
  {
    if !InRange(start, size, port) || port in free then free else free + [port]
  }

  /** Distinct ports of the range. */
  predicate Inv(start: U32, size: U32, free: seq<U32>)
  {
    NoDup(free) && forall p | p in free :: InRange(start, size, p)
  }

  class Pool {
    const start: U32
    const size: U32
    var pool: seq<U32>
    var offset: U32

    constructor (start: U32, size: U32, pool: seq<U32>)
      ensures this.start == start && this.size == size && this.pool == pool
    {
      this.start, this.size, this.pool, this.offset := start, size, pool, 0;
    }

    predicate Valid()
      reads this
    {
      start + size <= 65535 && Inv(start, size, pool)
    }

    method Acquire() returns (r: Result<U32, Error>)
      modifies this`pool
      ensures old(pool) == [] ==> r == Err(PoolExhausted) && pool == []
      ensures old(pool) != [] ==> r == Ok(old(pool)[0]) && pool == old(pool)[1..]
      ensures old(Valid()) ==> Valid()
    {
      if |pool| == 0 {
        return Err(PoolExhausted);
      }
      r := Ok(pool[0]);
      pool := pool[1..];
    }

    method Remove(port: U32) returns (r: Result<(), Error>)
      modifies this`pool
      ensures r == if port in old(pool) then Ok(()) else Err(PortTaken(port))
      ensures pool == Without(old(pool), port)
      ensures old(Valid()) ==> Valid()
    {
      var idx, found := 0, false;
      for i := 0 to |pool|
        invariant !found && port !in pool[..i] && pool == old(pool)
      {
        if pool[i] == port {
          idx, found := i, true;
          break;
        }
      }
      WithoutIs(pool, port);
      if !found {
        return Err(PortTaken(port));
      }
      WithoutAt(pool, port, idx);
      if Valid() {
        RemoveAtNoDup(pool, idx);
      }
      pool := pool[..idx] + pool[idx + 1..];
      return Ok(());
    }

    method Release(port: U32)
      modifies this`pool
      ensures pool == Returned(start, size, old(pool), port)
      ensures old(Valid()) ==> Valid()
    {
      if port < start || port >= Plus(start, size) {
        return;
      }
      for i := 0 to |pool|
        invariant port !in pool[..i] && pool == old(pool)
      {
        if pool[i] == port {
          return;
        }
      }
      assert pool[..|pool|] == pool;
      pool := pool + [port];
    }

    method RefreshState() returns (saved: U32)
      modifies this`offset
      ensures saved == offset == SavedOffset(start, pool)
    {
      if |pool| == 0 {
        offset := 0;
      } else {
        offset := Minus(pool[0], start);
      }
      return offset;
    }
  }

  function SavedOffset(start: U32, free: seq<U32>): (o: U32)
  {
    if free == [] then 0 else Minus(free[0], start)
  }

  lemma {:induction false} WithoutIs(free: seq<U32>, port: U32)
    ensures port !in free ==> Without(free, port) == free
    ensures forall p | p in Without(free, port) :: p in free
  {
    if free != [] && free[0] != port {
      WithoutIs(free[1..], port);
    }
  }

  lemma {:induction false} WithoutAt(free: seq<U32>, port: U32, idx: nat)
    requires idx < |free| && free[idx] == port && port !in free[..idx]
    ensures Without(free, port) == RemoveAt(free, idx)
  {
    if idx > 0 {
      assert free[0] in free[..idx];
      assert free[1..][..idx - 1] == free[..idx][1..];
      WithoutAt(free[1..], port, idx - 1);
    }
  }

  lemma WithoutNoDup(free: seq<U32>, port: U32)
    requires NoDup(free)
    ensures NoDup(Without(free, port)) && Elems(Without(free, port)) == Elems(free) - {port}
  {
    WithoutIs(free, port);
    if port in free {
      var i :| 0 <= i < |free| && free[i] == port;
      WithoutAt(free, port, i);
      RemoveAtNoDup(free, i);
    }
  }

  // ----- construction

  /** The list the two loops of New fill, starting from `size` zeros. */
  method New(start: U32, size: U32, offset: U32) returns (r: Result<Pool, Error>)
    ensures r.Err? <==> Plus(start, size) > 65535
    ensures r.Err? ==> r.error == InvalidRange
    ensures !r.Panic?
    ensures r.Ok? ==> fresh(r.value) && r.value.start == start && r.value.size == size
    ensures r.Ok? && start + size < WORD ==>
      r.value.pool == Rotated(start, size, if offset < size then offset else 0) && r.value.Valid()
    ensures r.Ok? && start + size >= WORD ==>
      r.value.pool == Wrapped(start, size, if offset < size then offset else 0) && !Inv(start, size, r.value.pool)
  {
    hide Plus, Inv, Rotated, Wrapped;
    if Plus(start, size) > 65535 {
      return Err(InvalidRange);
    }
    var off := if offset >= size then 0 else offset;
    var pool := seq(size, _ => 0);
    var i := 0;
    var port := Plus(start, off);
    ghost var first := port;
    while port < Plus(start, size)
      invariant first <= port && i == port - first && |pool| == size
      invariant port <= Plus(start, size) || port == first
      invariant i <= size
      invariant forall j | 0 <= j < i :: pool[j] == first + j
      invariant forall j | i <= j < size :: pool[j] == 0
    {
      pool := pool[i := port];
      i := i + 1;
      port := port + 1;
    }
    port := start;
    ghost var n := i;
    while port < Plus(start, off)
      invariant start <= port && i == n + port - start && |pool| == size
      invariant port <= Plus(start, off) || port == start
      invariant i <= size && (start + size >= WORD ==> i < size)
      invariant forall j | 0 <= j < n :: pool[j] == first + j
      invariant forall j | n <= j < i :: pool[j] == start + j - n
      invariant forall j | i <= j < size :: pool[j] == 0
    {
      pool := pool[i := port];
      i := i + 1;
      port := port + 1;
    }
    if start + size < WORD {
      RotatedIs(start, size, off, pool);
      RotatedInv(start, size, off);
    } else {
      WrappedIs(start, size, off, pool);
      WrappedIsImproper(start, size, off);
    }
    var p := new Pool(start, size, pool);
    return Ok(p);
  }

  lemma RotatedIs(start: U32, size: U32, offset: nat, pool: seq<U32>)
    requires offset <= size && start + size < WORD && |pool| == size
    requires forall j | 0 <= j < size - offset :: pool[j] == start + offset + j
    requires forall j | size - offset <= j < size :: pool[j] == start + j - (size - offset)
    ensures pool == Rotated(start, size, offset)
  {
  }

  /** What the two loops make of a range that runs over the end of a word: one of them does nothing, so that
      zeros are left over. */
  function Wrapped(start: U32, size: U32, offset: nat): (ps: seq<U32>)
    requires start + size >= WORD && offset < size
  {
    if start + offset < WORD then Ports(start, start + offset) + seq(size - offset, _ => 0)
    else Ports(start + offset - WORD, start + size - WORD) + seq(offset, _ => 0)
  }

  lemma WrappedIs(start: U32, size: U32, offset: nat, pool: seq<U32>)
    requires start + size >= WORD && offset < size && |pool| == size
    requires start + offset < WORD ==> forall j | 0 <= j < size :: pool[j] == if j < offset then start + j else 0
    requires start + offset >= WORD ==>
      forall j | 0 <= j < size :: pool[j] == if j < size - offset then start + offset - WORD + j else 0
    ensures pool == Wrapped(start, size, offset)
  {
  }

  lemma WrappedIsImproper(start: U32, size: U32, offset: nat)
    requires start + size >= WORD && offset < size
    ensures !Inv(start, size, Wrapped(start, size, offset))
  {
    var ps := Wrapped(start, size, offset);
    assert ps[0] in ps && !InRange(start, size, ps[0]);
  }

  /** A range that passes the check and from which port 0 is handed out twice. */
  lemma WrappedRangeIsAccepted()
    ensures var start, size := WORD - 1, 2;
      Plus(start, size) <= 65535 && Wrapped(start, size, 0) == [0, 0] && !Inv(start, size, Wrapped(start, size, 0))
  {
    WrappedIsImproper(WORD - 1, 2, 0);
  }

  lemma RotatedInv(start: U32, size: U32, offset: nat)
    requires offset <= size && start + size < WORD
    ensures |Rotated(start, size, offset)| == size
    ensures Inv(start, size, Rotated(start, size, offset))
    ensures Elems(Rotated(start, size, offset)) == Range(start, start + size)
  {
    var ps := Rotated(start, size, offset);
    assert NoDup(ps);
    forall p | p in Range(start, start + size)
      ensures p in ps
    {
      assert p == if p < start + offset then ps[size - offset + p - start] else ps[p - start - offset];
    }
  }

  // ----- whole runs

  datatype Event = Acquire | Remove(port: U32) | Release(port: U32)

  function After(start: U32, size: U32, free: seq<U32>, e: Event): (free': seq<U32>)
  {
    match e
    case Acquire => if free == [] then [] else free[1..]
    case Remove(p) => Without(free, p)
    case Release(p) => Returned(start, size, free, p)
  }

  function Run(start: U32, size: U32, free: seq<U32>, es: seq<Event>): (free': seq<U32>)
  {
    if es == [] then free else After(start, size, Run(start, size, free, es[..|es| - 1]), es[|es| - 1])
  }

  /** The port an event takes out of the list. */
  function Leaving(free: seq<U32>, e: Event): (s: set<U32>)
  {
    match e
    case Acquire => if free == [] then {} else {free[0]}
    case Remove(p) => if p in free then {p} else {}
    case Release(_) => {}
  }

  /** The ports taken and not given back since. */
  function Held(start: U32, size: U32, free: seq<U32>, es: seq<Event>): (s: set<U32>)
  {
    if es == [] then {}
    else
      var k := |es| - 1;
      var held := Held(start, size, free, es[..k]);
      if es[k].Release? then held - {es[k].port} else held + Leaving(Run(start, size, free, es[..k]), es[k])
  }

  /** Every port that left the list at some point of the run. */
  function Left(start: U32, size: U32, free: seq<U32>, es: seq<Event>): (s: set<U32>)
  {
    if es == [] then {}
    else
      var k := |es| - 1;
      Left(start, size, free, es[..k]) + Leaving(Run(start, size, free, es[..k]), es[k])
  }

  lemma AfterFree(start: U32, size: U32, free: seq<U32>, e: Event)
    requires Inv(start, size, free)
    ensures Inv(start, size, After(start, size, free, e))
    ensures Elems(After(start, size, free, e)) ==
      if e.Release? then Elems(free) + (if InRange(start, size, e.port) then {e.port} else {})
      else Elems(free) - Leaving(free, e)
  {
    match e
    case Acquire => if free != [] { RemoveAtNoDup(free, 0); assert free[1..] == RemoveAt(free, 0); }
    case Remove(p) => WithoutNoDup(free, p); WithoutIs(free, p);
    case Release(p) => if p !in free { NoDupAppend(free, p); }
  }

  lemma {:induction false} RunInv(start: U32, size: U32, free: seq<U32>, es: seq<Event>)
    requires Inv(start, size, free)
    ensures Inv(start, size, Run(start, size, free, es))
  {
    if es != [] {
      RunInv(start, size, free, es[..|es| - 1]);
      AfterFree(start, size, Run(start, size, free, es[..|es| - 1]), es[|es| - 1]);
    }
  }

  /** Conservation: over every run from a new pool, free and held ports partition the range,
      and no port is free twice. */
  lemma {:induction false} FreeAndHeldPartition(start: U32, size: U32, offset: nat, es: seq<Event>)
    requires offset <= size && start + size < WORD
    ensures var free0 := Rotated(start, size, offset);
            var free, held := Run(start, size, free0, es), Held(start, size, free0, es);
            && NoDup(free) && Elems(free) !! held && Elems(free) + held == Range(start, start + size)
            && |free| + |held| == size
  {
    hide Run, Held, After, Rotated, Leaving;
    RotatedInv(start, size, offset);
    var free0 := Rotated(start, size, offset);
    RunInv(start, size, free0, es);
    HeldIsRest(start, size, free0, es);
    InvInRange(start, size, Run(start, size, free0, es));
    var free, held := Run(start, size, free0, es), Held(start, size, free0, es);
    NoDupSize(free);
    assert |Elems(free) + held| == |Elems(free)| + |held|;
  }

  lemma {:induction false} HeldIsRest(start: U32, size: U32, free: seq<U32>, es: seq<Event>)
    requires start + size < WORD && Inv(start, size, free) && Elems(free) == Range(start, start + size)
    ensures Held(start, size, free, es) == Range(start, start + size) - Elems(Run(start, size, free, es))
  {
    hide After, Inv, Leaving;
    if es != [] {
      var k := |es| - 1;
      HeldIsRest(start, size, free, es[..k]);
      RunInv(start, size, free, es[..k]);
      var now := Run(start, size, free, es[..k]);
      AfterFree(start, size, now, es[k]);
      LeavingWasFree(now, es[k]);
      InvInRange(start, size, now);
      if es[k].Release? {
        RestGrows(Range(start, start + size), Elems(now), es[k].port);
      } else {
        RestShrinks(Range(start, start + size), Elems(now), Leaving(now, es[k]));
      }
    }
  }

  lemma InvInRange(start: U32, size: U32, free: seq<U32>)
    requires Inv(start, size, free)
    ensures Elems(free) <= Range(start, start + size)
  {
  }

  lemma RestShrinks(range: set<int>, free: set<int>, leaving: set<int>)
    requires leaving <= free <= range
    ensures (range - free) + leaving == range - (free - leaving)
  {
  }

  lemma RestGrows(range: set<int>, free: set<int>, p: int)
    ensures range - free - {p} == range - (free + if p in range then {p} else {})
  {
  }

  lemma LeavingWasFree(free: seq<U32>, e: Event)
    ensures Leaving(free, e) <= Elems(free)
  {
  }

  // ----- fairness

  /** Port p waits in the list behind exactly the ports of `ahead`. */
  ghost predicate Behind(free: seq<U32>, p: U32, ahead: set<U32>)
  {
    exists i :: 0 <= i < |free| && free[i] == p && Elems(free[..i]) == ahead
  }

  lemma BehindAfter(start: U32, size: U32, free: seq<U32>, e: Event, p: U32, ahead: set<U32>)
    requires Inv(start, size, free) && Behind(free, p, ahead) && p !in Leaving(free, e)
    ensures Behind(After(start, size, free, e), p, ahead - Leaving(free, e))
  {
    var i :| 0 <= i < |free| && free[i] == p && Elems(free[..i]) == ahead;
    match e
    case Acquire => BehindRemoved(free, 0, p, i);
    case Release(q) =>
      var free' := After(start, size, free, e);
      assert free'[..i] == free[..i] && free'[i] == p;
      assert ahead - {} == ahead;
    case Remove(q) =>
      WithoutIs(free, q);
      if q in free {
        var j :| 0 <= j < |free| && free[j] == q;
        WithoutAt(free, q, j);
        BehindRemoved(free, j, p, i);
      } else {
        assert ahead - {} == ahead;
      }
  }

  lemma BehindRemoved(free: seq<U32>, j: nat, p: U32, i: nat)
    requires NoDup(free) && j < |free| && i < |free| && i != j && free[i] == p
    ensures Behind(RemoveAt(free, j), p, Elems(free[..i]) - {free[j]})
  {
    var free' := RemoveAt(free, j);
    if j < i {
      RemoveAtNoDup(free[..i], j);
      assert free'[..i - 1] == RemoveAt(free[..i], j);
      assert free'[i - 1] == p;
    } else {
      assert free'[..i] == free[..i] && free'[i] == p;
      assert Elems(free[..i]) - {free[j]} == Elems(free[..i]);
    }
  }

  lemma {:induction false} StaysBehind(start: U32, size: U32, free: seq<U32>, p: U32, es: seq<Event>)
    requires Inv(start, size, free) && InRange(start, size, p) && p !in free
    requires p !in Left(start, size, free + [p], es)
    ensures Behind(Run(start, size, free + [p], es), p, Elems(free) - Left(start, size, free + [p], es))
  {
    NoDupAppend(free, p);
    var list := free + [p];
    if es == [] {
      assert list[|free|] == p && list[..|free|] == free;
      assert Elems(free) - {} == Elems(free);
    } else {
      var k := |es| - 1;
      StaysBehind(start, size, free, p, es[..k]);
      RunInv(start, size, list, es[..k]);
      BehindAfter(
        start, size, Run(start, size, list, es[..k]), es[k], p, Elems(free) - Left(start, size, list, es[..k]));
      assert Elems(free) - Left(start, size, list, es) ==
        Elems(free) - Left(start, size, list, es[..k]) - Leaving(Run(start, size, list, es[..k]), es[k]);
    }
  }

  /** Fairness: a port just released is not handed out again before every port that was free at that
      moment has left the list. */
  lemma ReleasedPortWaits(start: U32, size: U32, free: seq<U32>, p: U32, es: seq<Event>)
    requires Inv(start, size, free) && InRange(start, size, p) && p !in free
    requires p !in Left(start, size, free + [p], es)
    requires var now := Run(start, size, Returned(start, size, free, p), es); now != [] && now[0] == p
    ensures Elems(free) <= Left(start, size, free + [p], es)
  {
    StaysBehind(start, size, free, p, es);
    NoDupAppend(free, p);
    RunInv(start, size, free + [p], es);
    var now := Run(start, size, free + [p], es);
    var i :| 0 <= i < |now| && now[i] == p && Elems(now[..i]) == Elems(free) - Left(start, size, free + [p], es);
    assert i == 0;
    assert Elems(now[..0]) == {};
  }

  // ----- restart

  function RemoveAll(free: seq<U32>, ports: seq<U32>): (r: seq<U32>)
    decreases |ports|
  {
    if ports == [] then free else RemoveAll(Without(free, ports[0]), ports[1..])
  }

  /** Removing distinct free ports one after the other never fails, and takes out just those. */
  lemma {:induction false} RemoveAllElems(free: seq<U32>, ports: seq<U32>)
    requires NoDup(free) && NoDup(ports) && Elems(ports) <= Elems(free)
    ensures NoDup(RemoveAll(free, ports)) && Elems(RemoveAll(free, ports)) == Elems(free) - Elems(ports)
    ensures ports != [] ==> ports[0] in free && Elems(ports[1..]) <= Elems(Without(free, ports[0]))
    ensures free != [] && free[0] !in ports ==> RemoveAll(free, ports) != [] && RemoveAll(free, ports)[0] == free[0]
    decreases |ports|
  {
    if ports != [] {
      var p, rest := ports[0], ports[1..];
      assert p in Elems(ports);
      WithoutNoDup(free, p);
      assert Elems(rest) <= Elems(Without(free, p)) by {
        forall q | q in rest
          ensures q in Without(free, p)
        {
          assert q in Elems(ports) && q != p;
          assert q in Elems(Without(free, p));
        }
      }
      RemoveAllElems(Without(free, p), rest);
      assert Elems(ports) == Elems(rest) + {p};
    }
  }

  /** Restart: a pool rebuilt from the saved offset, with every held port removed again, has the same free
      ports and hands out the same port next, or is as exhausted as before. */
  lemma RestartKeepsPool(start: U32, size: U32, free: seq<U32>, held: seq<U32>)
    requires start + size < WORD && Inv(start, size, free)
    requires NoDup(held) && Elems(held) == Range(start, start + size) - Elems(free)
    ensures 0 <= SavedOffset(start, free) <= size
    ensures var free' := RemoveAll(RestartList(start, size, free), held);
            && NoDup(free') && Elems(free') == Elems(free)
            && (free == [] <==> free' == [])
            && (free != [] ==> free'[0] == free[0])
  {
    hide Inv, RemoveAll, Rotated;
    var list := RestartList(start, size, free);
    RestartHead(start, size, free);
    RemoveAllElems(list, held);
    var free' := RemoveAll(list, held);
    assert Elems(free') == Elems(free);
    NoDupSize(free);
    NoDupSize(free');
    assert free != [] ==> free[0] in Elems(free) && free[0] !in Elems(held);
  }

  lemma RestartHead(start: U32, size: U32, free: seq<U32>)
    requires start + size < WORD && Inv(start, size, free)
    ensures NoDup(free) && 0 <= SavedOffset(start, free) <= size
    ensures Elems(free) <= Range(start, start + size)
    ensures var list := RestartList(start, size, free);
            && NoDup(list) && Elems(list) == Range(start, start + size)
            && (free != [] ==> list != [] && list[0] == free[0])
  {
    if free != [] {
      assert free[0] in free && InRange(start, size, free[0]);
    }
    RotatedInv(start, size, SavedOffset(start, free));
  }

  /** What New builds from the saved offset. */
  function RestartList(start: U32, size: U32, free: seq<U32>): (list: seq<U32>)
    requires start + size < WORD && Inv(start, size, free)
  {
    var offset := SavedOffset(start, free);
    assert free != [] ==> InRange(start, size, free[0]);
    RotatedInv(start, size, offset);
    Rotated(start, size, offset)
  }

  // ----- the order of the list across a restart

  /** How far a port is behind the next one, going round the range. */
  function Behindhand(size: U32, next: U32, p: U32): (d: int)
  {
    if p >= next then p - next else p - next + size
  }

  predicate Ascending(size: U32, next: U32, list: seq<U32>)
  {
    forall i, j | 0 <= i < j < |list| :: Behindhand(size, next, list[i]) < Behindhand(size, next, list[j])
  }

  /** The list goes once round the range from its first port on. */
  predicate InOrder(size: U32, free: seq<U32>)
  {
    free == [] || Ascending(size, free[0], free)
  }

  lemma WithoutAscending(size: U32, next: U32, list: seq<U32>, p: U32)
    requires Ascending(size, next, list)
    ensures Ascending(size, next, Without(list, p))
  {
    hide Ascending;
    WithoutIs(list, p);
    if p in list {
      var i := FirstOf(list, p);
      WithoutAt(list, p, i);
      RemoveAtAscending(size, next, list, i);
    }
  }

  lemma RemoveAtAscending(size: U32, next: U32, list: seq<U32>, i: nat)
    requires i < |list| && Ascending(size, next, list)
    ensures Ascending(size, next, RemoveAt(list, i))
  {
    hide Behindhand;
    var rest := RemoveAt(list, i);
    forall a, b | 0 <= a < b < |rest|
      ensures Behindhand(size, next, rest[a]) < Behindhand(size, next, rest[b])
    {
      assert rest[a] == list[if a < i then a else a + 1] && rest[b] == list[if b < i then b else b + 1];
    }
  }

  function FirstOf(list: seq<U32>, p: U32): (i: nat)
    requires p in list
    ensures i < |list| && list[i] == p && p !in list[..i]
  {
    if list[0] == p then 0 else 1 + FirstOf(list[1..], p)
  }

  lemma {:induction false} RemoveAllAscending(size: U32, next: U32, list: seq<U32>, ports: seq<U32>)
    requires Ascending(size, next, list)
    ensures Ascending(size, next, RemoveAll(list, ports))
    decreases |ports|
  {
    hide Ascending, Without;
    if ports != [] {
      WithoutAscending(size, next, list, ports[0]);
      RemoveAllAscending(size, next, Without(list, ports[0]), ports[1..]);
    }
  }

  /** Ascending lists of the same ports are the same list. */
  lemma {:induction false} AscendingUnique(size: U32, next: U32, a: seq<U32>, b: seq<U32>)
    requires Ascending(size, next, a) && Ascending(size, next, b) && Elems(a) == Elems(b)
    ensures a == b
  {
    hide Ascending;
    NoElems(a);
    NoElems(b);
    if a != [] {
      SameFirst(size, next, a, b);
      WithoutFirst(size, next, a);
      WithoutFirst(size, next, b);
      AscendingUnique(size, next, a[1..], b[1..]);
      assert a == [a[0]] + a[1..] && b == [b[0]] + b[1..];
    }
  }

  lemma SameFirst(size: U32, next: U32, a: seq<U32>, b: seq<U32>)
    requires Ascending(size, next, a) && Ascending(size, next, b) && Elems(a) == Elems(b) && a != [] && b != []
    ensures a[0] == b[0]
  {
    assert a[0] in Elems(b) && b[0] in Elems(a);
    var i :| 0 <= i < |a| && a[i] == b[0];
    var j :| 0 <= j < |b| && b[j] == a[0];
  }

  lemma NoElems(a: seq<U32>)
    ensures a == [] <==> Elems(a) == {}
  {
    assert a != [] ==> a[0] in Elems(a);
  }

  lemma WithoutFirst(size: U32, next: U32, a: seq<U32>)
    requires Ascending(size, next, a) && a != []
    ensures Ascending(size, next, a[1..]) && Elems(a[1..]) == Elems(a) - {a[0]}
  {
    forall i | 0 < i < |a|
      ensures a[i] != a[0]
    {
      assert Behindhand(size, next, a[0]) < Behindhand(size, next, a[i]);
    }
    forall p | p in Elems(a) - {a[0]}
      ensures p in a[1..]
    {
      var i :| 0 <= i < |a| && a[i] == p;
      assert a[1..][i - 1] == p;
    }
  }

  lemma RestartAscending(start: U32, size: U32, free: seq<U32>)
    requires start + size < WORD && Inv(start, size, free) && free != []
    ensures Ascending(size, free[0], RestartList(start, size, free))
  {
    assert free[0] in free && InRange(start, size, free[0]);
    var list, offset := RestartList(start, size, free), SavedOffset(start, free);
    assert list == Rotated(start, size, offset);
    forall i | 0 <= i < |list|
      ensures Behindhand(size, free[0], list[i]) == i
    {
    }
  }

  /** Restart restores the list itself exactly when it goes once round the range. */
  lemma RestartKeepsOrderIff(start: U32, size: U32, free: seq<U32>, held: seq<U32>)
    requires start + size < WORD && Inv(start, size, free)
    requires NoDup(held) && Elems(held) == Range(start, start + size) - Elems(free)
    ensures RemoveAll(RestartList(start, size, free), held) == free <==> InOrder(size, free)
  {
    hide Inv, RemoveAll, RestartList, Ascending;
    RestartKeepsPool(start, size, free, held);
    if free != [] {
      var list := RestartList(start, size, free);
      RestartAscending(start, size, free);
      RemoveAllAscending(size, free[0], list, held);
      if InOrder(size, free) {
        AscendingUnique(size, free[0], RemoveAll(list, held), free);
      }
    }
  }

  /** A run after which the list is not restored. */
  lemma RestartMayReorder()
    ensures var free := Run(10, 3, Rotated(10, 3, 0), [Acquire, Acquire, Release(11), Release(10)]);
            && free == [12, 11, 10] && !InOrder(3, free)
            && Rotated(10, 3, SavedOffset(10, free)) == [12, 10, 11]
  {
    var es := [Acquire, Acquire, Release(11), Release(10)];
    var free0 := Rotated(10, 3, 0);
    assert free0 == [10, 11, 12];
    assert es[..3] == [Acquire, Acquire, Release(11)];
    assert es[..3][..2] == [Acquire, Acquire];
    assert es[..3][..2][..1] == [Acquire];
    assert es[..3][..2][..1][..0] == [];
    assert Run(10, 3, free0, [Acquire]) == [11, 12];
    assert Run(10, 3, free0, [Acquire, Acquire]) == [12];
    assert Run(10, 3, free0, es[..3]) == [12, 11];
    assert Run(10, 3, free0, es) == [12, 11, 10];
    assert Behindhand(3, 12, 11) == 2 && Behindhand(3, 12, 10) == 1;
    assert !Ascending(3, 12, [12, 11, 10]) by {
      assert [12, 11, 10][1] == 11 && [12, 11, 10][2] == 10;
    }
  }
}
