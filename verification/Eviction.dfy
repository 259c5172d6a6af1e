/**
 Which sessions leave RAM: the priority order, the protection rules, the count rule and
 the memory rule, and what they leave behind.
 */
module Eviction {
  import opened Sorting
  import opened SessionIndex

  /** One reading of the clock, of process memory and of the configured limits. */
  datatype Env = Env(
    now: real,
    rssMb: real,
    hardLimitMb: real,
    softLimitMb: real,
    baselineReady: bool,
    baselineMb: real,
    window: int)

  function ImportanceWeight(importance: string): real {
    if importance == "principle" then 1.0
    else if importance == "critical" then 0.9
    else if importance == "important" then 0.6
    else 0.3
  }

  function Priority(b: Brief, now: real): real {
    var ageDays := (now - b.createdAt as real) / 86400.0;
    var left := 1.0 - ageDays / 90.0;
    ImportanceWeight(b.importance) * (1.0 + b.intensity) * if left < 0.0 then 0.0 else left
  }

  predicate HasLiveDeadline(b: Brief, now: real) {
    b.deadline.Some? && !b.urgencyExpired && b.deadline.value as real > now
  }

  predicate CanEvict(b: Brief, env: Env) {
    && b.importance != "principle"
    && !HasLiveDeadline(b, env.now)
    && !b.conflict
    && (b.importance == "critical" ==> env.rssMb >= env.hardLimitMb * 0.90)
  }

  function Evictable(env: Env): Brief -> bool {
    b => CanEvict(b, env)
  }

  function ByPriority(now: real): (Brief, Brief) -> bool {
    (a, b) => Priority(a, now) <= Priority(b, now)
  }

  function Take<T>(xs: seq<T>, n: int): (r: seq<T>)
    ensures |r| == if n <= 0 then 0 else if n <= |xs| then n else |xs|
    ensures r <= xs
  {
    if n <= 0 then [] else if n <= |xs| then xs[..n] else xs
  }

  /** The sessions `n` evictions remove, in the order they go. */
  function Victims(ram: seq<Brief>, env: Env, n: int): seq<Brief> {
    Take(Filter(Sort(ram, ByPriority(env.now)), Evictable(env)), n)
  }

  function Outside(victims: seq<Brief>): Brief -> bool {
    b => b !in victims
  }

  function Survivors(ram: seq<Brief>, victims: seq<Brief>): seq<Brief> {
    Filter(ram, Outside(victims))
  }

  function EvictableCount(ram: seq<Brief>, env: Env): nat {
    |Filter(ram, Evictable(env))|
  }

  function ProtectedCount(ram: seq<Brief>, env: Env): nat {
    |Filter(ram, Not(Evictable(env)))|
  }

  // -------------------------------------------------------------------- the two rules

  predicate CountRule(count: nat, env: Env) {
    count as real > env.window as real * 0.8
  }

  predicate MemoryRule(env: Env) {
    env.baselineReady && env.rssMb - env.baselineMb > env.softLimitMb
  }

  /** How many sessions one check asks to evict. */
  function Quota(count: nat, env: Env): int {
    if CountRule(count, env) then (count as real - env.window as real * 0.7).Floor
    else if MemoryRule(env) then
      var tenth := (count as real * 0.10).Floor;
      if tenth < 1 then 1 else tenth
    else 0
  }

  function AfterCheck(ram: seq<Brief>, env: Env): seq<Brief> {
    Survivors(ram, Victims(ram, env, Quota(|ram|, env)))
  }

  function CeilSeventy(window: int): int {
    (7 * window + 9) / 10
  }

  function Max(a: int, b: int): int {
    if a < b then b else a
  }

  lemma DistinctBriefs(ram: seq<Brief>)
    requires DistinctSids(ram)
    ensures Distinct(ram)
  {
    forall i, j | 0 <= i < j < |ram| ensures ram[i] != ram[j] { assert ram[i].sid != ram[j].sid; }
  }

  lemma {:induction false} FilterSorted<T(!new)>(xs: seq<T>, leq: (T, T) -> bool, keep: T -> bool)
    requires SortedBy(xs, leq)
    ensures SortedBy(Filter(xs, keep), leq)
  {
    if xs != [] {
      FilterSorted(xs[1..], leq, keep);
      assert forall y :: y in Filter(xs[1..], keep) ==> leq(xs[0], y);
    }
  }

  lemma VictimsPool(ram: seq<Brief>, env: Env)
    ensures var pool := Filter(Sort(ram, ByPriority(env.now)), Evictable(env));
            && SortedBy(pool, ByPriority(env.now))
            && multiset(pool) == multiset(Filter(ram, Evictable(env)))
            && |pool| == EvictableCount(ram, env)
            && multiset(pool) <= multiset(ram)
  {
    var leq := ByPriority(env.now);
    assert TotalPreorder(leq);
    SortSorted(ram, leq);
    FilterSorted(Sort(ram, leq), leq, Evictable(env));
    FilterPermuted(Sort(ram, leq), ram, Evictable(env));
    FilterCount(ram, Evictable(env));
  }

  lemma TakeMembers<T>(xs: seq<T>, n: int)
    ensures multiset(Take(xs, n)) <= multiset(xs)
    ensures forall x :: x in Take(xs, n) ==> x in xs
  {
    var t := Take(xs, n);
    assert xs == t + xs[|t|..];
    assert multiset(xs) == multiset(t) + multiset(xs[|t|..]);
  }

  lemma VictimsMembers(ram: seq<Brief>, env: Env, n: int)
    ensures var vs := Victims(ram, env, n);
            && multiset(vs) <= multiset(ram)
            && forall v :: v in vs ==> v in ram && CanEvict(v, env)
  {
    var pool := Filter(Sort(ram, ByPriority(env.now)), Evictable(env));
    VictimsPool(ram, env);
    TakeMembers(pool, n);
    forall v | v in Victims(ram, env, n) ensures v in ram { assert v in multiset(ram); }
  }

  /** Splitting off the victims: counts, members and what stays. */
  lemma SurvivorsCount(ram: seq<Brief>, env: Env, n: int)
    requires DistinctSids(ram)
    ensures |Victims(ram, env, n)| == Max(0, if n < EvictableCount(ram, env) then n else EvictableCount(ram, env))
    ensures |Survivors(ram, Victims(ram, env, n))| == |ram| - |Victims(ram, env, n)|
    ensures forall v :: v in Victims(ram, env, n) ==> v in ram && CanEvict(v, env)
  {
    VictimsPool(ram, env);
    VictimsMembers(ram, env, n);
    DistinctBriefs(ram);
    FilterOut(ram, Victims(ram, env, n), Outside(Victims(ram, env, n)));
  }

  /**
   Eviction picks exactly the right sessions: no protected one, as many as asked for and
   available, and none that an evictable survivor should have gone before.
   */
  lemma EvictionExact(ram: seq<Brief>, env: Env, n: int)
    requires DistinctSids(ram)
    ensures var vs := Victims(ram, env, n);
            && (forall v :: v in vs ==> v in ram && CanEvict(v, env))
            && |vs| == Max(0, if n < EvictableCount(ram, env) then n else EvictableCount(ram, env))
            && (forall v, u :: v in vs && u in Survivors(ram, vs) && CanEvict(u, env)
                  ==> Priority(v, env.now) <= Priority(u, env.now))
            && (forall b :: b in ram <==> b in vs || b in Survivors(ram, vs))
  {
    var vs := Victims(ram, env, n);
    SurvivorsCount(ram, env, n);
    forall v, u | v in vs && u in Survivors(ram, vs) && CanEvict(u, env)
      ensures Priority(v, env.now) <= Priority(u, env.now)
    {
      VictimsFirst(ram, env, n, v, u);
    }
  }

  lemma VictimsFirst(ram: seq<Brief>, env: Env, n: int, v: Brief, u: Brief)
    requires v in Victims(ram, env, n) && u in ram && u !in Victims(ram, env, n) && CanEvict(u, env)
    ensures Priority(v, env.now) <= Priority(u, env.now)
  {
    var pool := Filter(Sort(ram, ByPriority(env.now)), Evictable(env));
    var vs := Victims(ram, env, n);
    VictimsPool(ram, env);
    assert u in Filter(ram, Evictable(env));
    assert u in multiset(pool);
    var i :| 0 <= i < |vs| && vs[i] == v;
    var j :| 0 <= j < |pool| && pool[j] == u;
    assert pool[i] == vs[i];
    assert u !in pool[..|vs|];
    assert i < |vs| <= j;
    assert ByPriority(env.now)(pool[i], pool[j]);
  }

  /**
   Who may go: a principle, a conflict, a deadline still to come and, below 90% of the hard
   limit, a critical session stay through every eviction; any other session goes when all may.
   */
  lemma ProtectedStay(ram: seq<Brief>, env: Env, n: int, b: Brief)
    requires DistinctSids(ram) && b in ram
    ensures b.importance == "principle" || b.conflict ==> b !in Victims(ram, env, n)
    ensures b.deadline.Some? && !b.urgencyExpired && b.deadline.value as real > env.now ==> b !in Victims(ram, env, n)
    ensures b.importance == "critical" && env.rssMb < 0.9 * env.hardLimitMb ==> b !in Victims(ram, env, n)
    ensures b in Victims(ram, env, n) || b in Survivors(ram, Victims(ram, env, n))
    ensures n >= |ram| && b !in Victims(ram, env, n) ==>
              || b.importance == "principle" || b.conflict
              || (b.importance == "critical" && env.rssMb < 0.9 * env.hardLimitMb)
              || (b.deadline.Some? && !b.urgencyExpired && b.deadline.value as real > env.now)
  {
    EvictionExact(ram, env, n);
    if n >= |ram| {
      VictimsPool(ram, env);
      FilterCount(ram, Evictable(env));
      assert b in Filter(ram, Evictable(env)) ==> b in multiset(Filter(Sort(ram, ByPriority(env.now)), Evictable(env)));
    }
  }

  lemma {:induction false} SameFilter<T(!new)>(xs: seq<T>, f: T -> bool, g: T -> bool)
    requires forall x :: f(x) == g(x)
    ensures Filter(xs, f) == Filter(xs, g)
  {
    if xs != [] { SameFilter(xs[1..], f, g); }
  }

  lemma CountThreshold(count: nat, env: Env)
    ensures CountRule(count, env) <==> 10 * count > 8 * env.window
  {
    assert 10.0 * (count as real - env.window as real * 0.8) == (10 * count - 8 * env.window) as real;
  }

  /** A check leaves RAM alone while it is at most 80% full and the process within its soft limit. */
  lemma QuietCheck(ram: seq<Brief>, env: Env)
    requires 10 * |ram| <= 8 * env.window
    requires !env.baselineReady || env.rssMb <= env.baselineMb + env.softLimitMb
    ensures AfterCheck(ram, env) == ram
  {
    CountThreshold(|ram|, env);
    KeepAll(ram, Outside([]));
  }

  /** The count rule lands RAM on 70% of the window, or on the protected sessions if there are more. */
  lemma CountRuleLands(ram: seq<Brief>, env: Env)
    requires DistinctSids(ram) && 10 * |ram| > 8 * env.window
    ensures |AfterCheck(ram, env)| == Max(CeilSeventy(env.window), ProtectedCount(ram, env))
  {
    var n := Quota(|ram|, env);
    CountThreshold(|ram|, env);
    SurvivorsCount(ram, env, n);
    FilterCount(ram, Evictable(env));
    assert n == |ram| - CeilSeventy(env.window) by { QuotaArithmetic(|ram|, env.window); }
    assert 0 <= n by { assert |ram| as real >= env.window as real * 0.7; }
  }

  /** The memory rule removes a tenth of the sessions, at least one, as far as any may go. */
  lemma MemoryRuleEvicts(ram: seq<Brief>, env: Env)
    requires DistinctSids(ram) && 10 * |ram| <= 8 * env.window
    requires env.baselineReady && env.rssMb > env.baselineMb + env.softLimitMb
    ensures |AfterCheck(ram, env)| == Max(|ram| - Max(1, |ram| / 10), ProtectedCount(ram, env))
  {
    CountThreshold(|ram|, env);
    SurvivorsCount(ram, env, Quota(|ram|, env));
    FilterCount(ram, Evictable(env));
    assert (|ram| as real * 0.10).Floor == |ram| / 10 by {
      var q := |ram| / 10;
      assert 10 * q <= |ram| < 10 * q + 10;
      assert q as real <= |ram| as real * 0.10 < q as real + 1.0;
    }
  }

  /**
   The more intense, more important and newer of two sessions never goes first, unless its
   rival's intensity is below -1, where only intensity itself still counts that way.
   */
  lemma PriorityMonotone(a: Brief, b: Brief, now: real)
    requires a.intensity <= b.intensity && a.createdAt <= b.createdAt
    requires ImportanceWeight(a.importance) <= ImportanceWeight(b.importance)
    requires a.intensity >= -1.0 || (a.importance == b.importance && a.createdAt == b.createdAt)
    ensures Priority(a, now) <= Priority(b, now)
    ensures now - a.createdAt as real >= 90.0 * 86400.0 ==> Priority(a, now) == 0.0
  {
    var la := 1.0 - (now - a.createdAt as real) / 86400.0 / 90.0;
    var lb := 1.0 - (now - b.createdAt as real) / 86400.0 / 90.0;
    var ra, rb := if la < 0.0 then 0.0 else la, if lb < 0.0 then 0.0 else lb;
    var ia, ib := 1.0 + a.intensity, 1.0 + b.intensity;
    var wa, wb := ImportanceWeight(a.importance), ImportanceWeight(b.importance);
    if a.intensity >= -1.0 {
      ProductMonotone(wa, wb, ia, ib);
      ProductMonotone(wa * ia, wb * ib, ra, rb);
    } else {
      ProductMonotone(0.0, ib - ia, wa, wa);
      assert (ib - ia) * wa == wb * ib - wa * ia;
      ProductMonotone(0.0, wb * ib - wa * ia, ra, ra);
      assert (wb * ib - wa * ia) * ra == wb * ib * rb - wa * ia * ra;
    }
  }

  /** How much a session matters: nothing outranks a principle, then critical, then important ones. */
  function Rank(importance: string): nat {
    if importance == "principle" then 3 else if importance == "critical" then 2 else if importance == "important" then 1 else 0
  }

  lemma StrictlyMore(x: real, y: real, f: real)
    requires x < y && f > 0.0
    ensures x * f < y * f
  {
    assert (y - x) * f > 0.0;
  }

  lemma MoreOfBoth(x: real, y: real, f: real, g: real)
    requires x < y && f > 0.0 && g > 0.0
    ensures x * f * g < y * f * g
  {
    StrictlyMore(x, y, f);
    StrictlyMore(x * f, y * f, g);
  }

  /** How much of its priority age has left a session. */
  function Recency(createdAt: int, now: real): real {
    var left := 1.0 - (now - createdAt as real) / 86400.0 / 90.0;
    if left < 0.0 then 0.0 else left
  }

  lemma PriorityParts(b: Brief, now: real, w: real, f: real, g: real)
    requires w == ImportanceWeight(b.importance) && f == 1.0 + b.intensity && g == Recency(b.createdAt, now)
    ensures Priority(b, now) == w * f * g
    ensures now - b.createdAt as real < 90.0 * 86400.0 ==> g > 0.0
  {
  }

  lemma RankedWeights(x: string, y: string)
    requires Rank(x) < Rank(y)
    ensures ImportanceWeight(x) < ImportanceWeight(y)
  {
  }

  /** Between sessions alike in everything else, the one of lower rank goes first. */
  lemma RankDecides(a: Brief, b: Brief, now: real)
    requires Rank(a.importance) < Rank(b.importance)
    requires a.intensity == b.intensity > -1.0 && a.createdAt == b.createdAt
    requires now - a.createdAt as real < 90.0 * 86400.0
    ensures Priority(a, now) < Priority(b, now)
  {
    var f, g := 1.0 + a.intensity, Recency(a.createdAt, now);
    PriorityParts(a, now, ImportanceWeight(a.importance), f, g);
    PriorityParts(b, now, ImportanceWeight(b.importance), f, g);
    RankedWeights(a.importance, b.importance);
    MoreOfBoth(ImportanceWeight(a.importance), ImportanceWeight(b.importance), f, g);
  }

  /** A session loses the same part of its priority every day, a ninetieth of what it starts with, until none is left. */
  lemma DailyDecay(b: Brief, now: real)
    requires now - b.createdAt as real <= 89.0 * 86400.0
    ensures var fresh_ := Priority(b, b.createdAt as real);
            90.0 * (Priority(b, now) - Priority(b, now + 86400.0)) == fresh_
  {
    var f := ImportanceWeight(b.importance) * (1.0 + b.intensity);
    var l1 := 1.0 - (now - b.createdAt as real) / 86400.0 / 90.0;
    var l2 := 1.0 - (now + 86400.0 - b.createdAt as real) / 86400.0 / 90.0;
    assert l1 - l2 == 1.0 / 90.0 && l2 >= 0.0;
    assert f * l1 - f * l2 == f * (l1 - l2);
  }

  /** A session of no intensity starts with its rank alone, intensity adds that much again for each unit. */
  lemma PriorityExact(b: Brief, now: real)
    ensures var plain := b.(intensity := 0.0);
            && Priority(b, now) == (1.0 + b.intensity) * Priority(plain, now)
            && Priority(plain, b.createdAt as real)
               == match Rank(b.importance) case 3 => 1.0 case 2 => 0.9 case 1 => 0.6 case _ => 0.3
  {
    var left := 1.0 - (now - b.createdAt as real) / 86400.0 / 90.0;
    var r := if left < 0.0 then 0.0 else left;
    var w := ImportanceWeight(b.importance);
    assert w * (1.0 + 0.0) == w;
    assert w * (1.0 + b.intensity) * r == (1.0 + b.intensity) * (w * r);
  }

  lemma ProductMonotone(a: real, b: real, x: real, y: real)
    requires 0.0 <= a <= b && 0.0 <= x <= y
    ensures 0.0 <= a * x <= b * y
  {
    assert (b - a) * x >= 0.0 && b * (y - x) >= 0.0;
    assert a * x >= 0.0;
  }

  lemma QuotaArithmetic(count: nat, window: int)
    ensures (count as real - window as real * 0.7).Floor == count - CeilSeventy(window)
  {
    var c := CeilSeventy(window);
    assert 7 * window <= 10 * c <= 7 * window + 9;
    var x := count as real - window as real * 0.7;
    assert 10.0 * x == (10 * count - 7 * window) as real;
    assert (count - c) as real <= x < (count - c) as real + 1.0;
  }

  lemma FilterCons<T(!new)>(x: T, xs: seq<T>, keep: T -> bool)
    ensures Filter([x] + xs, keep) == if keep(x) then [x] + Filter(xs, keep) else Filter(xs, keep)
  {
    assert ([x] + xs)[1..] == xs;
    assert [] + Filter(xs, keep) == Filter(xs, keep);
  }

  lemma {:induction false} FilterTwice<T(!new)>(xs: seq<T>, f: T -> bool, g: T -> bool, h: T -> bool)
    requires forall x :: h(x) == (f(x) && g(x))
    ensures Filter(Filter(xs, f), g) == Filter(xs, h)
  {
    if xs != [] {
      var x, rest := xs[0], xs[1..];
      assert xs == [x] + rest;
      FilterTwice(rest, f, g, h);
      FilterCons(x, rest, f);
      FilterCons(x, rest, h);
      FilterCons(x, Filter(rest, f), g);
    }
  }

  lemma {:induction false} SubDistinct(ram: seq<Brief>, keep: Brief -> bool)
    requires DistinctSids(ram)
    ensures DistinctSids(Filter(ram, keep))
  {
    if ram != [] {
      SubDistinct(ram[1..], keep);
      forall b | b in Filter(ram[1..], keep) ensures b.sid != ram[0].sid {
        assert b in ram[1..];
      }
    }
  }

  /** No eviction leaves more protected or fewer evictable sessions than arithmetic demands. */
  lemma SurvivorsProtected(ram: seq<Brief>, env: Env, n: int)
    requires DistinctSids(ram)
    ensures ProtectedCount(Survivors(ram, Victims(ram, env, n)), env) == ProtectedCount(ram, env)
  {
    var vs := Victims(ram, env, n);
    SurvivorsCount(ram, env, n);
    var protected_ := Not(Evictable(env));
    FilterTwice(ram, Outside(vs), protected_, b => b !in vs && !CanEvict(b, env));
    SameFilter(ram, protected_, b => b !in vs && !CanEvict(b, env));
  }

  /** Where the first check lands it, RAM is above the count threshold again iff the window's rounding says so. */
  lemma LandsAboveThreshold(count: nat, window: int, kept: int)
    requires count == Max(CeilSeventy(window), kept) && kept < CeilSeventy(window)
    ensures count as real > window as real * 0.8 <==> 10 * CeilSeventy(window) > 8 * window
  {
    assert 10.0 * (count as real - window as real * 0.8) == (10 * count - 8 * window) as real;
  }

  /**
   Running a check again, with the clock and memory readings unchanged, evicts nothing
   exactly when the protected sessions alone reach 70% of the window, or the memory rule has
   nothing to say, or 70% rounded up is still above the 80% threshold.
   */
  lemma SecondCheckEvictsNothing(ram: seq<Brief>, env: Env)
    requires DistinctSids(ram) && CountRule(|ram|, env)
    ensures var after := AfterCheck(ram, env);
            AfterCheck(after, env) == after
            <==> CeilSeventy(env.window) <= ProtectedCount(ram, env) || !MemoryRule(env)
                 || 10 * CeilSeventy(env.window) > 8 * env.window
  {
    var after := AfterCheck(ram, env);
    SecondCheckByState(ram, env);
    CountRuleLands(ram, env);
    SurvivorsProtected(ram, env, Quota(|ram|, env));
    FilterCount(after, Evictable(env));
    assert EvictableCount(after, env) == |after| - ProtectedCount(ram, env);
    if ProtectedCount(ram, env) < CeilSeventy(env.window) {
      LandsAboveThreshold(|after|, env.window, ProtectedCount(ram, env));
    }
  }

  lemma SecondCheckByState(ram: seq<Brief>, env: Env)
    requires DistinctSids(ram) && CountRule(|ram|, env)
    ensures var after := AfterCheck(ram, env);
            AfterCheck(after, env) == after
            <==> EvictableCount(after, env) == 0 || !MemoryRule(env) || CountRule(|after|, env)
  {
    var after := AfterCheck(ram, env);
    var n := Quota(|after|, env);
    SubDistinct(ram, Outside(Victims(ram, env, Quota(|ram|, env))));
    SurvivorsProtected(ram, env, Quota(|ram|, env));
    SurvivorsCount(after, env, n);
    CountRuleLands(ram, env);
    FilterCount(after, Evictable(env));
    QuotaArithmetic(|after|, env.window);
    if Victims(after, env, n) == [] {
      KeepAll(after, Outside([]));
    }
  }

  /** An ordinary session: nothing protects it. */
  function Ordinary(i: nat): Brief {
    Brief(seq(i, _ => 'x'), None, [], "background", 0.0, 0, false, None, false)
  }

  function OrdinarySessions(n: nat): (r: seq<Brief>)
    ensures |r| == n && forall i :: 0 <= i < n ==> r[i] == Ordinary(i)
  {
    seq(n, i requires 0 <= i < n => Ordinary(i))
  }

  lemma OrdinaryUnprotected(n: nat, env: Env)
    ensures DistinctSids(OrdinarySessions(n)) && ProtectedCount(OrdinarySessions(n), env) == 0
  {
    var ram := OrdinarySessions(n);
    forall i, j | 0 <= i < j < n ensures ram[i].sid != ram[j].sid {
      assert |ram[i].sid| == i && |ram[j].sid| == j;
    }
    forall b | b in ram ensures Evictable(env)(b) {
      var i :| 0 <= i < n && ram[i] == b;
    }
    KeepAll(ram, Evictable(env));
    FilterCount(ram, Evictable(env));
  }

  /** With nobody protected, a second check by the memory rule goes on where the first one stopped. */
  lemma MemoryRuleGoesOn(ram: seq<Brief>, env: Env)
    requires DistinctSids(ram) && CountRule(|ram|, env) && MemoryRule(env)
    requires ProtectedCount(ram, env) == 0 < CeilSeventy(env.window) && !CountRule(CeilSeventy(env.window), env)
    ensures var c := CeilSeventy(env.window);
            && |AfterCheck(ram, env)| == c
            && |AfterCheck(AfterCheck(ram, env), env)| == c - Max(1, c / 10)
  {
    CountRuleLands(ram, env);
    SubDistinct(ram, Outside(Victims(ram, env, Quota(|ram|, env))));
    SurvivorsProtected(ram, env, Quota(|ram|, env));
    MemoryRuleEvicts(AfterCheck(ram, env), env);
  }

  /**
   Nine ordinary sessions, a window of ten, memory above the soft limit: the first check
   leaves seven, and a second one six.
   */
  lemma SecondCheckEvictsMore(env: Env)
    requires env == Env(0.0, 900.0, 1000.0, 100.0, true, 200.0, 10)
    ensures |AfterCheck(OrdinarySessions(9), env)| == 7
    ensures |AfterCheck(AfterCheck(OrdinarySessions(9), env), env)| == 6
  {
    OrdinaryUnprotected(9, env);
    NineSevenSix(OrdinarySessions(9), env);
  }

  lemma NineSevenSix(ram: seq<Brief>, env: Env)
    requires |ram| == 9 && DistinctSids(ram) && ProtectedCount(ram, env) == 0
    requires MemoryRule(env) && env.window == 10
    ensures |AfterCheck(ram, env)| == 7 && |AfterCheck(AfterCheck(ram, env), env)| == 6
  {
    MemoryRuleGoesOn(ram, env);
  }

  lemma {:induction false} KeepAll<T(!new)>(xs: seq<T>, keep: T -> bool)
    requires forall x :: x in xs ==> keep(x)
    ensures Filter(xs, keep) == xs
  {
    if xs != [] { KeepAll(xs[1..], keep); }
  }
}
