/**
 * Smooth weighted round robin (lb/loadbalancer.py:496-502): every pick raises each
 * backend's current weight by its weight, takes the first with the highest, and charges
 * it the total.
 */
module SmoothWrr {
  function Sum(s: seq<int>): int {
    if s == [] then 0 else Sum(s[..|s| - 1]) + s[|s| - 1]
  }

  function Raised(current: seq<int>, weights: seq<int>): (r: seq<int>)
    requires |current| == |weights|
    ensures |r| == |weights|
  {
    seq(|weights|, i requires 0 <= i < |weights| => current[i] + weights[i])
  }

  /** Index of the first highest element. */
  function FirstMax(s: seq<int>): (k: nat)
    requires s != []
    ensures k < |s|
    ensures forall j | 0 <= j < |s| :: s[j] <= s[k]
    ensures forall j | 0 <= j < k :: s[j] < s[k]
  {
    if |s| == 1 then 0
    else
      var n := |s| - 1;
      var k := FirstMax(s[..n]);
      if s[n] > s[k] then n else k
  }

  function Choice(current: seq<int>, weights: seq<int>): nat
    requires |current| == |weights| > 0
  {
    FirstMax(Raised(current, weights))
  }

  function Next(current: seq<int>, weights: seq<int>): (r: seq<int>)
    requires |current| == |weights| > 0
    ensures |r| == |weights|
  {
    var raised := Raised(current, weights);
    var k := Choice(current, weights);
    raised[k := raised[k] - Sum(weights)]
  }

  method Pick(weights: seq<int>, current: array<int>) returns (chosen: nat)
    requires current.Length == |weights| > 0
    modifies current
    ensures chosen == Choice(old(current[..]), weights)
    ensures current[..] == Next(old(current[..]), weights)
  {
    var total := 0;
    for i := 0 to |weights|
      invariant total == Sum(weights[..i])
      invariant current[..] == old(current[..])
    {
      assert weights[..i + 1][..i] == weights[..i];
      total := total + weights[i];
    }
    assert weights[..|weights|] == weights;
    for i := 0 to |weights|
      invariant forall j | 0 <= j < i :: current[j] == old(current[j]) + weights[j]
      invariant forall j | i <= j < |weights| :: current[j] == old(current[j])
    {
      current[i] := current[i] + weights[i];
    }
    ghost var raised := Raised(old(current[..]), weights);
    assert current[..] == raised;
    chosen := 0;
    for i := 1 to |weights|
      invariant chosen < i
      invariant forall j | 0 <= j < i :: raised[j] <= raised[chosen]
      invariant forall j | 0 <= j < chosen :: raised[j] < raised[chosen]
      invariant current[..] == raised
    {
      if current[i] > current[chosen] {
        chosen := i;
      }
    }
    current[chosen] := current[chosen] - total;
  }

  // ---- runs from zero weights ------------------------------------------------

  function Zeros(n: nat): (r: seq<int>)
    ensures |r| == n
  {
    seq(n, _ => 0)
  }

  /** The current weights after `t` picks. */
  function Current(weights: seq<int>, t: nat): (r: seq<int>)
    requires weights != []
    ensures |r| == |weights|
  {
    if t == 0 then Zeros(|weights|) else Next(Current(weights, t - 1), weights)
  }

  /** How often backend `i` was chosen in the first `t` picks. */
  function Picks(weights: seq<int>, t: nat, i: nat): nat
    requires i < |weights|
  {
    if t == 0 then 0
    else Picks(weights, t - 1, i) + if Choice(Current(weights, t - 1), weights) == i then 1 else 0
  }

  ghost predicate AllAtLeast(s: seq<int>, m: int) {
    forall i | 0 <= i < |s| :: s[i] >= m
  }

  ghost predicate AllAtMost(s: seq<int>, m: int) {
    forall i | 0 <= i < |s| :: s[i] <= m
  }

  // ---- sums ------------------------------------------------------------------

  lemma {:induction false} SumRaised(current: seq<int>, weights: seq<int>)
    requires |current| == |weights|
    ensures Sum(Raised(current, weights)) == Sum(current) + Sum(weights)
  {
    if weights != [] {
      var n := |weights| - 1;
      SumRaised(current[..n], weights[..n]);
      assert Raised(current, weights)[..n] == Raised(current[..n], weights[..n]);
    }
  }

  lemma {:induction false} SumUpdate(s: seq<int>, k: nat, v: int)
    requires k < |s|
    ensures Sum(s[k := v]) == Sum(s) - s[k] + v
  {
    var n := |s| - 1;
    if k < n {
      SumUpdate(s[..n], k, v);
      assert s[k := v][..n] == s[..n][k := v];
    } else {
      assert s[k := v][..n] == s[..n];
    }
  }

  lemma MulSucc(n: int, m: int)
    ensures (n + 1) * m == n * m + m
  {
  }

  lemma {:induction false} SumAtMost(s: seq<int>, m: int)
    requires AllAtMost(s, m)
    ensures Sum(s) <= |s| * m
  {
    if s != [] {
      SumAtMost(s[..|s| - 1], m);
      MulSucc(|s| - 1, m);
    }
  }

  lemma {:induction false} SumAtLeast(s: seq<int>, m: int)
    requires AllAtLeast(s, m)
    ensures Sum(s) >= |s| * m
  {
    if s != [] {
      SumAtLeast(s[..|s| - 1], m);
      MulSucc(|s| - 1, m);
    }
  }

  lemma MulNeg(n: int, b: int)
    ensures n * -b == -(n * b)
  {
  }

  /** When a sum is zero and no element is below -b, none is above (|s| - 1) * b. */
  lemma ElementAtMost(s: seq<int>, b: int, k: nat)
    requires k < |s| && Sum(s) == 0 && AllAtLeast(s, -b)
    ensures s[k] <= (|s| - 1) * b
  {
    SumUpdate(s, k, -b);
    SumAtLeast(s[k := -b], -b);
    MulNeg(|s|, b);
    MulSucc(|s| - 1, b);
  }

  lemma ZeroSumNonNegative(s: seq<int>, k: nat)
    requires k < |s| && Sum(s) == 0 && AllAtLeast(s, 0)
    ensures s[k] == 0
  {
    ElementAtMost(s, 0, k);
  }

  // ---- every pick keeps the balance ------------------------------------------

  ghost predicate Balanced(current: seq<int>, total: int) {
    Sum(current) == 0 && AllAtLeast(current, 1 - total)
  }

  lemma {:induction false} ZerosBalanced(n: nat, total: int)
    requires total >= 1
    ensures Sum(Zeros(n)) == 0
    ensures Balanced(Zeros(n), total)
  {
    SumAtMost(Zeros(n), 0);
    SumAtLeast(Zeros(n), 0);
  }

  /** Someone reaches at least 1 before being charged, so nobody falls to -W. */
  lemma NextBalanced(current: seq<int>, weights: seq<int>)
    requires |current| == |weights| > 0 && AllAtLeast(weights, 0) && Sum(weights) >= 1
    requires Balanced(current, Sum(weights))
    ensures Balanced(Next(current, weights), Sum(weights))
  {
    var total, raised := Sum(weights), Raised(current, weights);
    var k := Choice(current, weights);
    SumRaised(current, weights);
    SumUpdate(raised, k, raised[k] - total);
    if raised[k] <= 0 {
      SumAtMost(raised, 0);
    }
  }

  lemma {:induction false} AlwaysBalanced(weights: seq<int>, t: nat)
    requires weights != [] && AllAtLeast(weights, 0) && Sum(weights) >= 1
    ensures Balanced(Current(weights, t), Sum(weights))
  {
    if t == 0 {
      ZerosBalanced(|weights|, Sum(weights));
    } else {
      AlwaysBalanced(weights, t - 1);
      NextBalanced(Current(weights, t - 1), weights);
    }
  }

  lemma DebtStep(w: int, t: int, n: int, total: int)
    ensures t * w - n * total + w == (t + 1) * w - n * total
    ensures t * w - n * total + w - total == (t + 1) * w - (n + 1) * total
  {
    MulSucc(t, w);
    MulSucc(n, total);
  }

  /** The current weight is what a backend is owed less what it was charged. */
  lemma {:induction false} CurrentIsDebt(weights: seq<int>, t: nat, i: nat)
    requires i < |weights|
    ensures Current(weights, t)[i] == t * weights[i] - Picks(weights, t, i) * Sum(weights)
  {
    hide Sum, FirstMax;
    if t > 0 {
      CurrentIsDebt(weights, t - 1, i);
      DebtStep(weights[i], t - 1, Picks(weights, t - 1, i), Sum(weights));
    }
  }

  // ---- main results ----------------------------------------------------------

  /** Fair at every moment: the current weights sum to zero and stay above -W, and after
      `t` picks backend `i` with weight w has had n picks, where
      t*w - (N-1)*(W-1) <= n*W < t*w + W. */
  lemma FairAtEveryMoment(weights: seq<int>, t: nat, i: nat)
    requires i < |weights| && AllAtLeast(weights, 0) && Sum(weights) >= 1
    ensures Balanced(Current(weights, t), Sum(weights))
    ensures var total := Sum(weights);
            t * weights[i] - (|weights| - 1) * (total - 1) <= Picks(weights, t, i) * total < t * weights[i] + total
  {
    hide Sum, Current, Picks;
    var total, current := Sum(weights), Current(weights, t);
    AlwaysBalanced(weights, t);
    CurrentIsDebt(weights, t, i);
    ElementAtMost(current, total - 1, i);
  }

  lemma NegativeMultiple(k: int, total: int)
    requires total >= 1 && k <= -1
    ensures k * total <= -total
  {
  }

  lemma MultipleAbove(k: int, total: int)
    requires total >= 1 && k * total > -total
    ensures k >= 0 && k * total >= 0
  {
    if k <= -1 {
      NegativeMultiple(k, total);
    }
  }

  lemma CancelFactor(k: int, total: int)
    requires total >= 1 && k * total == 0
    ensures k == 0
  {
  }

  lemma Owed(w: int, n: int, total: int)
    ensures total * w - n * total == (w - n) * total
  {
  }

  lemma OwedAfterRound(weights: seq<int>, i: nat)
    requires i < |weights| && AllAtLeast(weights, 0) && Sum(weights) >= 1
    ensures Current(weights, Sum(weights))[i] >= 0
    ensures Current(weights, Sum(weights))[i] == (weights[i] - Picks(weights, Sum(weights), i)) * Sum(weights)
  {
    var total := Sum(weights);
    AlwaysBalanced(weights, total);
    CurrentIsDebt(weights, total, i);
    Owed(weights[i], Picks(weights, total, i), total);
    MultipleAbove(weights[i] - Picks(weights, total, i), total);
  }

  /** One round of W picks gives each backend exactly its weight and ends where it began. */
  lemma RoundIsExact(weights: seq<int>, i: nat)
    requires i < |weights| && AllAtLeast(weights, 0) && Sum(weights) >= 1
    ensures Picks(weights, Sum(weights), i) == weights[i]
    ensures Current(weights, Sum(weights)) == Zeros(|weights|)
  {
    hide Sum, Current, Picks;
    var total := Sum(weights);
    RoundEndsAtZero(weights);
    OwedAfterRound(weights, i);
    CancelFactor(weights[i] - Picks(weights, total, i), total);
  }

  lemma RoundEndsAtZero(weights: seq<int>)
    requires weights != [] && AllAtLeast(weights, 0) && Sum(weights) >= 1
    ensures Current(weights, Sum(weights)) == Zeros(|weights|)
  {
    var current := Current(weights, Sum(weights));
    AlwaysBalanced(weights, Sum(weights));
    forall j | 0 <= j < |current| ensures current[j] >= 0 {
      OwedAfterRound(weights, j);
    }
    forall j | 0 <= j < |current| ensures current[j] == 0 {
      ZeroSumNonNegative(current, j);
    }
  }

  /** The rotation repeats: W picks later the state, and so every later choice, is the same. */
  lemma {:induction false} RotationRepeats(weights: seq<int>, t: nat)
    requires weights != [] && AllAtLeast(weights, 0) && Sum(weights) >= 1
    ensures Current(weights, t + Sum(weights)) == Current(weights, t)
  {
    hide Sum, Next;
    if t == 0 {
      RoundEndsAtZero(weights);
    } else {
      RotationRepeats(weights, t - 1);
      assert t + Sum(weights) - 1 == (t - 1) + Sum(weights);
    }
  }

  // ---- picking while some backends are excluded ------------------------------

  /** A retry, or a backend out of rotation, narrows one pick to part of the pool. */
  function Among(weights: seq<int>, pool: seq<bool>): (r: seq<int>)
    requires |pool| == |weights|
    ensures |r| == |weights|
  {
    seq(|weights|, i requires 0 <= i < |weights| => if pool[i] then weights[i] else 0)
  }

  predicate AnyIn(pool: seq<bool>) {
    exists j :: 0 <= j < |pool| && pool[j]
  }

  /** The first highest element among those in the pool. */
  function FirstMaxAmong(s: seq<int>, pool: seq<bool>): (k: nat)
    requires |s| == |pool| && AnyIn(pool)
    ensures k < |s| && pool[k]
    ensures forall j | 0 <= j < |s| && pool[j] :: s[j] <= s[k]
    ensures forall j | 0 <= j < k && pool[j] :: s[j] < s[k]
  {
    var n := |s| - 1;
    if !AnyIn(pool[..n]) then n
    else
      var k := FirstMaxAmong(s[..n], pool[..n]);
      if pool[n] && s[n] > s[k] then n else k
  }

  function NextAmong(current: seq<int>, weights: seq<int>, pool: seq<bool>): (r: seq<int>)
    requires |current| == |weights| == |pool| && AnyIn(pool)
    ensures |r| == |weights|
  {
    var raised := Raised(current, Among(weights, pool));
    var k := FirstMaxAmong(raised, pool);
    raised[k := raised[k] - Sum(Among(weights, pool))]
  }

  ghost predicate Pools(pools: seq<seq<bool>>, n: nat) {
    forall p | p in pools :: |p| == n && AnyIn(p)
  }

  /** The current weights after one pick from each of `pools` in turn. */
  function CurrentAmong(weights: seq<int>, pools: seq<seq<bool>>): (r: seq<int>)
    requires Pools(pools, |weights|)
    ensures |r| == |weights|
  {
    if pools == [] then Zeros(|weights|)
    else
      var front, last := pools[..|pools| - 1], pools[|pools| - 1];
      assert last in pools && forall p | p in front :: p in pools;
      NextAmong(CurrentAmong(weights, front), weights, last)
  }

  /** The times backend `i` was in the pool, and what it was charged when it was chosen. */
  function Offered(pools: seq<seq<bool>>, i: nat): nat
    requires forall p | p in pools :: i < |p|
  {
    if pools == [] then 0
    else
      var front, last := pools[..|pools| - 1], pools[|pools| - 1];
      assert last in pools && forall p | p in front :: p in pools;
      Offered(front, i) + if last[i] then 1 else 0
  }

  function Charged(weights: seq<int>, pools: seq<seq<bool>>, i: nat): int
    requires Pools(pools, |weights|) && i < |weights|
  {
    if pools == [] then 0
    else
      var front, last := pools[..|pools| - 1], pools[|pools| - 1];
      assert last in pools && forall p | p in front :: p in pools;
      var raised := Raised(CurrentAmong(weights, front), Among(weights, last));
      Charged(weights, front, i) + if FirstMaxAmong(raised, last) == i then Sum(Among(weights, last)) else 0
  }

  lemma NextAmongAccounts(current: seq<int>, weights: seq<int>, pool: seq<bool>, i: nat)
    requires |current| == |weights| == |pool| && AnyIn(pool) && i < |weights|
    ensures Sum(NextAmong(current, weights, pool)) == Sum(current)
    ensures var k := FirstMaxAmong(Raised(current, Among(weights, pool)), pool);
            NextAmong(current, weights, pool)[i]
            == current[i] + (if pool[i] then weights[i] else 0) - (if k == i then Sum(Among(weights, pool)) else 0)
  {
    hide Sum, FirstMaxAmong;
    var raised := Raised(current, Among(weights, pool));
    var k := FirstMaxAmong(raised, pool);
    SumRaised(current, Among(weights, pool));
    SumUpdate(raised, k, raised[k] - Sum(Among(weights, pool)));
  }

  /** Whatever is excluded from whichever pick: the credit handed out is always taken back
      in full, and a backend's current weight is what it was offered less its charges. */
  lemma {:induction false} ExclusionKeepsAccounts(weights: seq<int>, pools: seq<seq<bool>>, i: nat)
    requires Pools(pools, |weights|) && i < |weights|
    ensures Sum(CurrentAmong(weights, pools)) == 0
    ensures CurrentAmong(weights, pools)[i] == Offered(pools, i) * weights[i] - Charged(weights, pools, i)
  {
    hide Sum, FirstMaxAmong, NextAmong, Among, Raised, AnyIn;
    if pools == [] {
      ZerosBalanced(|weights|, 1);
    } else {
      var front, last := pools[..|pools| - 1], pools[|pools| - 1];
      assert last in pools && forall p | p in front :: p in pools;
      ExclusionKeepsAccounts(weights, front, i);
      NextAmongAccounts(CurrentAmong(weights, front), weights, last, i);
      MulSucc(Offered(front, i), weights[i]);
    }
  }

  /** With nothing excluded it is the plain pick. */
  lemma FullPoolIsPlain(current: seq<int>, weights: seq<int>, pool: seq<bool>)
    requires |current| == |weights| == |pool| > 0 && pool[0] && forall j | 0 <= j < |pool| :: pool[j]
    ensures NextAmong(current, weights, pool) == Next(current, weights)
  {
    hide Sum, FirstMax, FirstMaxAmong;
    assert Among(weights, pool) == weights;
    var raised := Raised(current, weights);
    SameFirstMax(raised, pool, FirstMaxAmong(raised, pool), FirstMax(raised));
  }

  lemma SameFirstMax(s: seq<int>, pool: seq<bool>, a: nat, b: nat)
    requires |s| == |pool| && a < |s| && b < |s| && forall j | 0 <= j < |pool| :: pool[j]
    requires forall j | 0 <= j < |s| && pool[j] :: s[j] <= s[a]
    requires forall j | 0 <= j < a && pool[j] :: s[j] < s[a]
    requires forall j | 0 <= j < |s| :: s[j] <= s[b]
    requires forall j | 0 <= j < b :: s[j] < s[b]
    ensures a == b
  {
    assert pool[a] && pool[b];
  }

  // ---- which weights keep the balance ----------------------------------------

  lemma AtMostMinus(t: nat, w: int, n: nat, total: int)
    requires w <= -1 && total >= 0
    ensures t * w - n * total <= -(t as int)
  {
    MulNonNegative(t, -1 - w);
    MulNonNegative(n, total);
    assert t * w == -(t as int) - t * (-1 - w);
  }

  lemma MulNonNegative(a: int, b: int)
    requires a >= 0 && b >= 0
    ensures a * b >= 0
  {
  }

  /** A backend registered with a negative weight sinks by at least one with every pick. */
  lemma NegativeWeightDrifts(weights: seq<int>, t: nat, i: nat)
    requires i < |weights| && weights[i] < 0 && Sum(weights) >= 0
    ensures Current(weights, t)[i] <= -(t as int)
  {
    hide Sum, Current, Picks;
    CurrentIsDebt(weights, t, i);
    AtMostMinus(t, weights[i], Picks(weights, t, i), Sum(weights));
  }

  /** The current weights sum to zero and stay above minus the total at every moment if and
      only if no weight is negative and the weights sum to at least one. */
  lemma BalancedExactly(weights: seq<int>)
    requires weights != []
    ensures (forall t: nat :: Balanced(Current(weights, t), Sum(weights)))
            <==> AllAtLeast(weights, 0) && Sum(weights) >= 1
  {
    if AllAtLeast(weights, 0) && Sum(weights) >= 1 {
      forall t: nat ensures Balanced(Current(weights, t), Sum(weights)) {
        AlwaysBalanced(weights, t);
      }
    } else {
      var t := UnbalancedAt(weights);
    }
  }

  /** When it fails: at once without a positive sum, else after as many picks as the sum. */
  lemma UnbalancedAt(weights: seq<int>) returns (t: nat)
    requires weights != [] && !(AllAtLeast(weights, 0) && Sum(weights) >= 1)
    ensures !Balanced(Current(weights, t), Sum(weights))
  {
    hide Sum;
    if Sum(weights) <= 0 {
      t := 0;
      assert Current(weights, 0)[0] == 0;
    } else {
      t := Sum(weights);
      var i :| 0 <= i < |weights| && weights[i] < 0;
      NegativeWeightDrifts(weights, t, i);
    }
  }
}
