/** Counting threads by role. Every protocol here assigns each thread one role;
    the fields of a packed atomic word count the threads in certain roles. */
module Threads {

  type Tid = nat

  /** The number of threads whose role is r. */
  ghost function Count<R>(roles: map<Tid, R>, r: R): nat {
    |In(roles, r)|
  }

  ghost function In<R>(roles: map<Tid, R>, r: R): set<Tid> {
    set t | t in roles && roles[t] == r
  }

  lemma InMove<R>(roles: map<Tid, R>, t: Tid, to: R, r: R)
    requires t in roles
    ensures In(roles[t := to], r) == if to == r then In(roles, r) + {t} else In(roles, r) - {t}
  {
  }

  /** Changing one thread's role moves it from the old count to the new one. */
  lemma CountMove<R>(roles: map<Tid, R>, t: Tid, to: R, r: R)
    requires t in roles
    ensures Count(roles[t := to], r) ==
            Count(roles, r) - (if roles[t] == r then 1 else 0) + (if to == r then 1 else 0)
  {
    InMove(roles, t, to, r);
  }

  /** A thread in role r makes the count positive, and a positive count names a thread. */
  lemma CountPositive<R>(roles: map<Tid, R>, r: R)
    ensures Count(roles, r) > 0 <==> exists t :: t in roles && roles[t] == r
  {
    if t :| t in roles && roles[t] == r {
      assert t in In(roles, r);
    }
    if Count(roles, r) > 0 {
      var t :| t in In(roles, r);
    }
  }

  /** When all threads share a role, it counts them all. */
  lemma CountAll<R>(roles: map<Tid, R>, all: R, r: R)
    requires forall t | t in roles :: roles[t] == all
    ensures Count(roles, r) == if r == all then |roles| else 0
  {
    assert In(roles, r) == if r == all then roles.Keys else {};
  }

  /** Two threads in one role count twice. */
  lemma CountTwo<R>(roles: map<Tid, R>, r: R, t: Tid, u: Tid)
    requires t in roles && u in roles && t != u && roles[t] == roles[u] == r
    ensures Count(roles, r) >= 2
  {
    assert {t, u} <= In(roles, r);
    Subset({t, u}, In(roles, r));
  }

  lemma Subset(a: set<Tid>, b: set<Tid>)
    requires a <= b
    ensures |a| <= |b|
  {
    assert b == a + (b - a);
  }

  // -- Adding up what the threads still have to do --------------------------------------

  ghost function Sum(weights: map<Tid, nat>): nat
    decreases |weights|
  {
    if weights == map[] then 0
    else
      var t :| t in weights;
      weights[t] + Sum(weights - {t})
  }

  /** The order of adding does not matter. */
  lemma {:induction false} SumWithout(weights: map<Tid, nat>, t: Tid)
    requires t in weights
    ensures Sum(weights) == weights[t] + Sum(weights - {t})
    decreases |weights|
  {
    var u :| u in weights && Sum(weights) == weights[u] + Sum(weights - {u});
    if u != t {
      SumWithout(weights - {u}, t);
      SumWithout(weights - {t}, u);
      assert weights - {u} - {t} == weights - {t} - {u};
    }
  }

  /** Changing one thread's share changes the sum by as much. */
  lemma SumMove(weights: map<Tid, nat>, t: Tid, x: nat)
    requires t in weights
    ensures Sum(weights[t := x]) == Sum(weights) - weights[t] + x
  {
    SumWithout(weights, t);
    SumWithout(weights[t := x], t);
    assert weights[t := x] - {t} == weights - {t};
  }

  lemma TimesNext(k: nat, n: nat)
    ensures k * (n + 1) == k * n + k
  {
  }

  /** If every thread's share grows by at most k, the sum grows by at most k for each thread. */
  lemma {:induction false} SumGrows(a: map<Tid, nat>, b: map<Tid, nat>, k: nat)
    requires a.Keys == b.Keys && forall t | t in a :: b[t] <= a[t] + k
    ensures Sum(b) <= Sum(a) + k * |a|
    decreases |a|
  {
    if a == map[] {
      assert b == map[];
    } else {
      var t :| t in a;
      SumWithout(a, t);
      SumWithout(b, t);
      SumGrows(a - {t}, b - {t}, k);
      TimesNext(k, |a| - 1);
    }
  }

  lemma {:induction false} SumBound(weights: map<Tid, nat>, k: nat)
    requires forall t | t in weights :: weights[t] <= k
    ensures Sum(weights) <= k * |weights|
    decreases |weights|
  {
    if weights != map[] {
      var t :| t in weights;
      SumWithout(weights, t);
      SumBound(weights - {t}, k);
      TimesNext(k, |weights| - 1);
    }
  }
}
