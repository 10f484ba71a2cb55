/**
 * The panels of the client and the tab numbering of src/main.go, with the
 * wrap-around tab cycling that every version of Update uses.
 */
module Tabs {

  /** The panels a reply can be shown in. Threads has no tab of its own. */
  datatype Panel = Stats | Info | Errors | Pools | Sessions | Certs | Threads

  /** Tab numbers: the `tab` constants, in declaration order. */
  const StatsTab := 0
  const InfoTab := 1
  const ErrorTab := 2
  const PoolsTab := 3
  const SessionsTab := 4
  const CertsTab := 5

  /** The next tab of n, wrapping from the last to the first: (t + 1) % n. */
  function NextTab(t: int, n: int): (r: int)
    requires 0 <= t < n
    ensures 0 <= r < n
    ensures r == if t == n - 1 then 0 else t + 1
  {
    (t + 1) % n
  }

  /** The previous tab of n, wrapping from the first to the last: (t - 1 + n) % n. */
  function PrevTab(t: int, n: int): (r: int)
    requires 0 <= t < n
    ensures 0 <= r < n
    ensures r == if t == 0 then n - 1 else t - 1
  {
    (t - 1 + n) % n
  }

  /** Going forward then back, or back then forward, returns to the same tab. */
  lemma PrevNextInverse(t: int, n: int)
    requires 0 <= t < n
    ensures PrevTab(NextTab(t, n), n) == t
    ensures NextTab(PrevTab(t, n), n) == t
  {
  }

  /** The tab reached from t after k presses of tab. */
  function Advance(t: int, n: int, k: nat): (r: int)
    requires 0 <= t < n
    ensures 0 <= r < n
  {
    if k == 0 then t else NextTab(Advance(t, n, k - 1), n)
  }

  /** k presses that do not pass the last tab move exactly k places. */
  lemma {:induction false} AdvanceWithoutWrap(t: int, n: int, k: nat)
    requires 0 <= t < n && t + k < n
    ensures Advance(t, n, k) == t + k
  {
    if k > 0 {
      AdvanceWithoutWrap(t, n, k - 1);
    }
  }

  /** a + b presses are a presses, then b more. */
  lemma {:induction false} AdvanceSplit(t: int, n: int, a: nat, b: nat)
    requires 0 <= t < n
    ensures Advance(t, n, a + b) == Advance(Advance(t, n, a), n, b)
  {
    if b > 0 {
      AdvanceSplit(t, n, a, b - 1);
    }
  }

  /** n presses of tab come back to the starting tab. */
  lemma FullCycle(t: int, n: int)
    requires 0 <= t < n
    ensures Advance(t, n, n) == t
  {
    AdvanceWithoutWrap(t, n, n - t - 1);
    assert Advance(t, n, n - t) == 0;
    AdvanceSplit(t, n, n - t, t);
    if t > 0 {
      AdvanceWithoutWrap(0, n, t);
    }
  }
}
