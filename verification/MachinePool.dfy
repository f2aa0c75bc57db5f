/** The round-robin pool of virtual machines in LuaVirtualMachineContext.cs. */
module MachinePool {

  /** The machine that the k-th request, counted from 0, is meant to get. */
  function Machine(n: nat, k: nat): int
    requires n > 0
  {
    k % n + 1
  }

  /** The queue after `k` requests: the machines 1..n, rotated. */
  function Rotated(n: nat, k: nat): (machines: seq<int>)
    requires n > 0
    ensures |machines| == n
  {
    seq(n, i requires 0 <= i => Machine(n, k + i))
  }

  /** The first machine of the queue, put at its end, gives the queue after one more request. */
  lemma NextRotated(n: nat, k: nat)
    requires n > 0
    ensures Rotated(n, k)[0] == Machine(n, k) && Rotated(n, k)[1..] + [Machine(n, k)] == Rotated(n, k + 1)
  {
    AddCycle(n, k);
    var next := Rotated(n, k)[1..] + [Machine(n, k)];
    forall i | 0 <= i < n
      ensures next[i] == Machine(n, k + 1 + i)
    {
    }
  }

  /** How often machine `m` has been handed out after `k` requests. */
  function Uses(n: nat, k: nat, m: int): nat
    requires n > 0
  {
    if k == 0 then 0 else Uses(n, k - 1, m) + if Machine(n, k - 1) == m then 1 else 0
  }

  lemma NextOfCycle(n: nat, q: nat, r: nat)
    requires r < n
    ensures (q * n + r) % n == r
    decreases q
  {
    if q > 0 {
      NextOfCycle(n, q - 1, r);
      assert q * n + r == (q - 1) * n + r + n;
      AddCycle(n, (q - 1) * n + r);
    }
  }

  lemma AddCycle(n: nat, x: nat)
    requires n > 0
    ensures (x + n) % n == x % n
  {
    var q, r := x / n, x % n;
    assert x + n == (q + 1) * n + r;
    RemainderIs(n, q + 1, r, x + n);
  }

  lemma RemainderIs(n: nat, q: int, r: int, x: int)
    requires 0 <= r < n && x == q * n + r
    ensures x % n == r
  {
    var q', r' := x / n, x % n;
    assert x == q' * n + r';
    SameQuotient(n, q, r, q', r');
  }

  lemma SameQuotient(n: nat, q: int, r: int, q': int, r': int)
    requires 0 <= r < n && 0 <= r' < n && q * n + r == q' * n + r'
    ensures q == q' && r == r'
  {
    if q < q' {
      Farther(n, q, q');
    } else if q' < q {
      Farther(n, q', q);
    }
  }

  lemma Farther(n: nat, a: int, b: int)
    requires a < b
    ensures a * n + n <= b * n
  {
    assert b * n == (b - a - 1) * n + a * n + n;
    assert (b - a - 1) * n >= 0;
  }

  /** After q full rounds and r more requests the first r machines have been used once more than the others. */
  lemma {:induction false} UsesAre(n: nat, q: nat, r: nat, m: int)
    requires r <= n && 1 <= m <= n
    ensures q * n + r >= 0 && Uses(n, q * n + r, m) == q + if m <= r then 1 else 0
    decreases q, r
  {
    if r > 0 {
      UsesAre(n, q, r - 1, m);
      NextOfCycle(n, q, r - 1);
    } else if q > 0 {
      UsesAre(n, q - 1, n, m);
      assert q * n + 0 == (q - 1) * n + n;
    }
  }

  /** In any run of requests, wherever it starts, the usage counts of two machines differ by at most one. */
  lemma FairUse(n: nat, j: nat, k: nat, m: int, m': int)
    requires 1 <= m <= n && 1 <= m' <= n && j <= k
    ensures Uses(n, k, m) + Uses(n, j, m') <= Uses(n, j, m) + Uses(n, k, m') + 1
  {
    hide Uses;
    UsesSplit(n, j, m);
    UsesSplit(n, j, m');
    UsesSplit(n, k, m);
    UsesSplit(n, k, m');
  }

  lemma UsesSplit(n: nat, k: nat, m: int)
    requires 1 <= m <= n
    ensures Uses(n, k, m) == k / n + if m <= k % n then 1 else 0
  {
    hide Uses;
    assert k == k / n * n + k % n;
    UsesAre(n, k / n, k % n, m);
  }

  /** The machines that `k` requests hand out when `j` have gone before. */
  function Handed(n: nat, j: nat, k: nat): seq<int>
    requires n > 0
  {
    if k == 0 then [] else Handed(n, j, k - 1) + [Machine(n, j + k - 1)]
  }

  lemma {:induction false} HandedUses(n: nat, j: nat, k: nat, m: int)
    requires n > 0
    ensures Uses(n, j, m) + multiset(Handed(n, j, k))[m] == Uses(n, j + k, m)
    decreases k
  {
    hide Machine;
    if k > 0 {
      HandedUses(n, j, k - 1, m);
      Counted(Handed(n, j, k - 1), Machine(n, j + k - 1), m);
    }
  }

  lemma Counted(s: seq<int>, x: int, m: int)
    ensures multiset(s + [x])[m] == multiset(s)[m] + if x == m then 1 else 0
  {
  }

  class LuaVirtualMachineContext {
    var virtualMachines: seq<int>
    const count: nat
    ghost var requests: nat

    ghost predicate Valid()
      reads this
    {
      count > 0 && virtualMachines == Rotated(count, requests)
    }

    constructor (numberVirtualMachines: nat)
      requires numberVirtualMachines > 0
      ensures Valid() && count == numberVirtualMachines && requests == 0
    {
      count, requests := numberVirtualMachines, 0;
      virtualMachines := [];
      new;
      for i := 0 to numberVirtualMachines
        invariant count == numberVirtualMachines && requests == 0
        invariant virtualMachines == Rotated(numberVirtualMachines, 0)[..i]
      {
        RemainderIs(numberVirtualMachines, 0, i, i);
        virtualMachines := virtualMachines + [i + 1];
      }
    }

    /** The k-th request, counted from 0, hands out machine (k mod n) + 1 and puts it at the back. */
    method NextVirtualMachine() returns (vm: int)
      requires Valid()
      modifies this
      ensures Valid() && requests == old(requests) + 1
      ensures vm == Machine(count, old(requests))
    {
      hide Machine, Rotated;
      NextRotated(count, requests);
      vm := virtualMachines[0];
      virtualMachines := virtualMachines[1..] + [vm];
      requests := requests + 1;
    }

    /** A run of requests, as long as it may be: no machine is handed out two times more than another. */
    method Serve(k: nat) returns (handed: seq<int>)
      requires Valid()
      modifies this
      ensures Valid() && requests == old(requests) + k
      ensures handed == Handed(count, old(requests), k)
      ensures forall m, m' :: 1 <= m <= count && 1 <= m' <= count ==> multiset(handed)[m] <= multiset(handed)[m'] + 1
    {
      handed := [];
      for i := 0 to k
        invariant Valid() && requests == old(requests) + i
        invariant handed == Handed(count, old(requests), i)
      {
        var vm := NextVirtualMachine();
        handed := handed + [vm];
      }
      hide Handed, Uses, Rotated;
      forall m, m' | 1 <= m <= count && 1 <= m' <= count
        ensures multiset(handed)[m] <= multiset(handed)[m'] + 1
      {
        HandedUses(count, old(requests), k, m);
        HandedUses(count, old(requests), k, m');
        FairUse(count, old(requests), requests, m, m');
      }
    }
  }
}
