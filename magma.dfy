/** scripts/magma.py (and its copy at the top of scripts/ec_utils.py):
    the shared Magma child process, restarted after a fixed number of
    uses, with the 2-adic and Galois-image scripts read into every
    instance. Starting and stopping the process are not modelled; an
    instance is identified by how many restarts preceded it. */
module MagmaCounter {
  import opened Arith

  /** The counter and instance after one `get_magma()` call: a restart
      exactly when the counter has reached the maximum on entry. */
  function Step(count: nat, instance: nat, countMax: nat): (r: (nat, nat))
  {
    if count == countMax then (1, instance + 1) else (count + 1, instance)
  }

  /** The counter and instance after k calls from the initial state
      (count 0, first instance). */
  function AfterCalls(countMax: nat, k: nat): (nat, nat)
  {
    if k == 0 then (0, 0)
    else
      var prev := AfterCalls(countMax, k - 1);
      Step(prev.0, prev.1, countMax)
  }

  lemma DivModSucc(x: nat, m: nat)
    requires m >= 1
    ensures x % m + 1 == m ==> (x + 1) / m == x / m + 1 && (x + 1) % m == 0
    ensures x % m + 1 < m ==> (x + 1) / m == x / m && (x + 1) % m == x % m + 1
  {
    var q, r := x / m, x % m;
    assert x == q * m + r;
    if r + 1 == m {
      assert x + 1 == (q + 1) * m + 0;
      DivModUnique(x + 1, m, q + 1, 0);
    } else {
      DivModUnique(x + 1, m, q, r + 1);
    }
  }

  /** The k-th call (k >= 1) finds the counter at (k-1) mod max + 1 and
      is served by instance (k-1) div max: every instance serves exactly
      `magma_count_max` consecutive calls. */
  lemma {:induction false} AfterCallsClosedForm(countMax: nat, k: nat)
    requires countMax >= 1 && k >= 1
    ensures AfterCalls(countMax, k) == ((k - 1) % countMax + 1, (k - 1) / countMax)
  {
    if k > 1 {
      AfterCallsClosedForm(countMax, k - 1);
      DivModSucc(k - 2, countMax);
    } else {
      DivModUnique(0, countMax, 0, 0);
    }
  }

  /** The first call increments the counter to 1 without a restart. */
  lemma FirstCall(countMax: nat)
    requires countMax >= 1
    ensures AfterCalls(countMax, 1) == (1, 0)
  {
  }

  /** The counter never exceeds the maximum. */
  lemma CountBounded(countMax: nat, k: nat)
    requires countMax >= 1
    ensures 0 <= AfterCalls(countMax, k).0 <= countMax
  {
    if k >= 1 {
      AfterCallsClosedForm(countMax, k);
    }
  }

  /** Instance i serves exactly calls i*max+1 .. (i+1)*max. */
  lemma InstanceServes(countMax: nat, k: nat, i: nat)
    requires countMax >= 1 && k >= 1
    ensures AfterCalls(countMax, k).1 == i <==> i * countMax < k <= (i + 1) * countMax
  {
    AfterCallsClosedForm(countMax, k);
    var q, r := (k - 1) / countMax, (k - 1) % countMax;
    assert k - 1 == q * countMax + r;
    if q < i {
      MulAtLeast(i - q, countMax);
      MulSubDistrib(i, q, countMax);
    } else if q > i {
      MulAtLeast(q - i, countMax);
      MulSubDistrib(q, i, countMax);
    }
    assert (i + 1) * countMax == i * countMax + countMax;
  }

  /** The module-level Magma handle and its use counter. */
  class MagmaServer {
    var count: nat
    const countMax: nat
    /** The number of restarts before the live instance. */
    var instance: nat
    /** Whether `init_2adic` / `init_galrep` have run on the live instance. */
    var twoadicLoaded: bool
    var galrepLoaded: bool

    ghost predicate Valid()
      reads this
    {
      (countMax >= 1 ==> count <= countMax) && twoadicLoaded && galrepLoaded
    }

    /** Module import: a fresh instance with both scripts read in, and
        the counter at 0. */
    constructor(max: nat)
      ensures Valid() && count == 0 && countMax == max && instance == 0
    {
      count := 0;
      countMax := max;
      instance := 0;
      twoadicLoaded := true;
      galrepLoaded := true;
    }

    /** `get_magma()`: restart when the counter has reached the maximum,
        otherwise reuse; the instance returned has both scripts loaded. */
    method GetMagma() returns (inst: nat)
      requires Valid()
      modifies this
      ensures Valid()
      ensures (count, instance) == Step(old(count), old(instance), countMax)
      ensures inst == instance
    {
      if count == countMax {
        instance := instance + 1;
        twoadicLoaded := true;
        galrepLoaded := true;
        count := 1;
      } else {
        count := count + 1;
      }
      inst := instance;
    }
  }
}
