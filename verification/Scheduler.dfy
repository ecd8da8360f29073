/** Longest-first distribution of CI targets over jobs that already carry work. */
module Scheduler {
  import opened Sorting

  const JOB_SECONDS: seq<nat> := [30, 79, 48, 0, 17, 43]
  const DEFAULT_TARGET_SECONDS: nat := 20

  type Durations = map<string, nat>

  function Seconds(seconds: Durations, target: string): nat {
    if target in seconds then seconds[target] else DEFAULT_TARGET_SECONDS
  }

  /** The order of the key (-seconds, name). */
  predicate NotAfter(seconds: Durations, a: string, b: string) {
    Seconds(seconds, a) > Seconds(seconds, b) || (Seconds(seconds, a) == Seconds(seconds, b) && TextLe(a, b))
  }

  function LongestFirst(seconds: Durations, targets: seq<string>): seq<string> {
    Sort(targets, (a, b) => NotAfter(seconds, a, b))
  }

  function Lengths(seconds: Durations, targets: seq<string>): (p: seq<nat>)
    ensures |p| == |targets|
    ensures forall i | 0 <= i < |p| :: p[i] == Seconds(seconds, targets[i])
  {
    seq(|targets|, i requires 0 <= i < |targets| => Seconds(seconds, targets[i]))
  }

  lemma LengthsPrefix(seconds: Durations, ts: seq<string>, n: nat)
    requires n <= |ts|
    ensures Lengths(seconds, ts)[..n] == Lengths(seconds, ts[..n])
  {
  }

  function Sum(s: seq<nat>): nat {
    if s == [] then 0 else Sum(s[..|s| - 1]) + s[|s| - 1]
  }

  function Max(s: seq<nat>): (m: nat)
    requires s != []
    ensures m in s && forall i | 0 <= i < |s| :: s[i] <= m
  {
    if |s| == 1 then s[0]
    else var m := Max(s[..|s| - 1]); if m < s[|s| - 1] then s[|s| - 1] else m
  }

  /** The first index of a least element. */
  method LeastLoaded(totals: seq<nat>) returns (job: nat)
    requires totals != []
    ensures job == Least(totals)
  {
    job := 0;
    for i := 1 to |totals|
      invariant job < i
      invariant job == Least(totals[..i])
    {
      assert totals[..i + 1][..i] == totals[..i];
      if totals[i] < totals[job] {
        job := i;
      }
    }
    assert totals[..|totals|] == totals;
  }

  function Least(totals: seq<nat>): (job: nat)
    requires totals != []
    ensures job < |totals|
  {
    if |totals| == 1 then 0
    else
      var n := |totals| - 1;
      var job := Least(totals[..n]);
      if totals[n] < totals[job] then n else job
  }

  lemma {:induction false} LeastIsLeast(totals: seq<nat>)
    requires totals != []
    ensures forall i | 0 <= i < |totals| :: totals[Least(totals)] <= totals[i]
    ensures forall i | 0 <= i < Least(totals) :: totals[Least(totals)] < totals[i]
  {
    if |totals| > 1 {
      LeastIsLeast(totals[..|totals| - 1]);
    }
  }

  // ----- assignments: the job of each target, in the order the targets are placed

  predicate Assigns(a: seq<nat>, n: nat, m: nat) {
    |a| == n && forall i | 0 <= i < n :: a[i] < m
  }

  /** The total of job j, from its other work, once the lengths p are placed as a says. */
  function Total(p: seq<nat>, a: seq<nat>, other: nat, j: nat): nat
    requires |a| == |p|
  {
    if p == [] then other
    else
      var n := |p| - 1;
      Total(p[..n], a[..n], other, j) + if a[n] == j then p[n] else 0
  }

  function Totals(p: seq<nat>, a: seq<nat>, init: seq<nat>): (t: seq<nat>)
    requires |a| == |p|
  {
    seq(|init|, j requires 0 <= j < |init| => Total(p, a, init[j], j))
  }

  /** No job's total exceeds opt. */
  ghost predicate Within(p: seq<nat>, a: seq<nat>, init: seq<nat>, opt: nat)
    requires |a| == |p|
  {
    forall j | 0 <= j < |init| :: Total(p, a, init[j], j) <= opt
  }

  function Listed(targets: seq<string>, a: seq<nat>, j: nat): seq<string>
    requires |a| == |targets|
  {
    if targets == [] then []
    else
      var n := |targets| - 1;
      Listed(targets[..n], a[..n], j) + if a[n] == j then [targets[n]] else []
  }

  function Listing(targets: seq<string>, a: seq<nat>, m: nat): (jobs: seq<seq<string>>)
    requires |a| == |targets|
  {
    seq(m, j requires 0 <= j < m => Listed(targets, a, j))
  }

  /** Every target goes to the least loaded job at that moment. */
  function Greedy(p: seq<nat>, init: seq<nat>): (a: seq<nat>)
    requires init != []
    ensures Assigns(a, |p|, |init|)
  {
    if p == [] then []
    else
      var n := |p| - 1;
      var a := Greedy(p[..n], init);
      a + [Least(Totals(p[..n], a, init))]
  }

  datatype Partitioned = Done(jobs: seq<seq<string>>, totals: seq<nat>) | NoJobs

  /** Places one more target. */
  function Place(seconds: Durations, jobs: seq<seq<string>>, totals: seq<nat>, t: string): (r: Partitioned)
    requires |jobs| == |totals| && totals != []
    ensures r.Done? && |r.jobs| == |r.totals| == |totals|
  {
    var job := Least(totals);
    Done(jobs[job := jobs[job] + [t]], totals[job := totals[job] + Seconds(seconds, t)])
  }

  /** Places the targets one after the other; NoJobs is the ValueError of a minimum over no jobs. */
  function PlanInOrder(order: seq<string>, seconds: Durations, init: seq<nat>): (r: Partitioned)
    ensures r.Done? <==> (init != [] || order == [])
    ensures r.Done? ==> |r.jobs| == |r.totals| == |init|
  {
    if order == [] then Done(seq(|init|, _ => []), init)
    else
      var n := |order| - 1;
      var before := PlanInOrder(order[..n], seconds, init);
      if before.NoJobs? || before.totals == [] then NoJobs else Place(seconds, before.jobs, before.totals, order[n])
  }

  function Plan(targets: seq<string>, seconds: Durations, jobSeconds: seq<nat>): Partitioned {
    PlanInOrder(LongestFirst(seconds, targets), seconds, jobSeconds)
  }

  lemma ListingStep(order: seq<string>, a: seq<nat>, job: nat, m: nat)
    requires order != [] && |a| == |order| - 1 && job < m
    ensures var n := |order| - 1; var jobs := Listing(order[..n], a, m);
      Listing(order, a + [job], m) == jobs[job := jobs[job] + [order[n]]]
  {
    var n := |order| - 1;
    var jobs, after := Listing(order[..n], a, m), Listing(order, a + [job], m);
    assert (a + [job])[..n] == a;
    forall j | 0 <= j < m ensures after[j] == if j == job then jobs[j] + [order[n]] else jobs[j] {
    }
  }

  lemma TotalsStep(p: seq<nat>, a: seq<nat>, job: nat, init: seq<nat>)
    requires p != [] && |a| == |p| - 1 && job < |init|
    ensures var n := |p| - 1; var t := Totals(p[..n], a, init);
      Totals(p, a + [job], init) == t[job := t[job] + p[n]]
  {
    var n := |p| - 1;
    var t, after := Totals(p[..n], a, init), Totals(p, a + [job], init);
    assert (a + [job])[..n] == a;
    forall j | 0 <= j < |init| ensures after[j] == if j == job then t[j] + p[n] else t[j] {
    }
  }

  /** The plan in terms of the assignment it makes. */
  lemma {:induction false} PlanAssigns(order: seq<string>, seconds: Durations, init: seq<nat>)
    requires init != []
    ensures var p := Lengths(seconds, order); var a := Greedy(p, init);
      PlanInOrder(order, seconds, init) == Done(Listing(order, a, |init|), Totals(p, a, init))
  {
    var p := Lengths(seconds, order);
    if order == [] {
      assert Totals(p, Greedy(p, init), init) == init;
    } else {
      var n := |order| - 1;
      PlanAssigns(order[..n], seconds, init);
      LengthsPrefix(seconds, order, n);
      var a := Greedy(p[..n], init);
      var job := Least(Totals(p[..n], a, init));
      assert Greedy(p, init) == a + [job];
      var before := PlanInOrder(order[..n], seconds, init);
      assert before == Done(Listing(order[..n], a, |init|), Totals(p[..n], a, init));
      ListingStep(order, a, job, |init|);
      TotalsStep(p, a, job, init);
    }
  }

  lemma PlanOneMore(order: seq<string>, seconds: Durations, init: seq<nat>, i: nat, jobs: seq<seq<string>>, totals: seq<nat>)
    requires i < |order| && |jobs| == |totals| && PlanInOrder(order[..i], seconds, init) == Done(jobs, totals)
    ensures totals != [] ==> PlanInOrder(order[..i + 1], seconds, init) == Place(seconds, jobs, totals, order[i])
  {
    assert order[..i + 1][..i] == order[..i];
  }

  method Partition(targets: seq<string>, seconds: Durations, jobSeconds: seq<nat>) returns (r: Partitioned)
    ensures r == Plan(targets, seconds, jobSeconds)
  {
    var order := LongestFirst(seconds, targets);
    var jobs: seq<seq<string>>, totals: seq<nat> := seq(|jobSeconds|, _ => []), jobSeconds;
    for i := 0 to |order|
      invariant |jobs| == |totals| == |jobSeconds|
      invariant PlanInOrder(order[..i], seconds, jobSeconds) == Done(jobs, totals)
    {
      PlanOneMore(order, seconds, jobSeconds, i, jobs, totals);
      if totals == [] {
        return NoJobs;
      }
      var job := LeastLoaded(totals);
      ghost var next := Place(seconds, jobs, totals, order[i]);
      jobs, totals := jobs[job := jobs[job] + [order[i]]], totals[job := totals[job] + Seconds(seconds, order[i])];
      assert next == Done(jobs, totals);
    }
    assert order[..|order|] == order;
    r := Done(jobs, totals);
  }

  // ----- the plan depends on the set of targets only

  lemma NotAfterIsOrder(seconds: Durations)
    ensures TotalOrder((a, b) => NotAfter(seconds, a, b))
  {
    TextLeIsOrder();
  }

  /** The order in which the targets are listed does not matter. */
  lemma PlanIgnoresInputOrder(targets: seq<string>, shuffled: seq<string>, seconds: Durations, jobSeconds: seq<nat>)
    requires multiset(targets) == multiset(shuffled)
    ensures Plan(targets, seconds, jobSeconds) == Plan(shuffled, seconds, jobSeconds)
  {
    NotAfterIsOrder(seconds);
    SortIsCanonical(targets, shuffled, (a, b) => NotAfter(seconds, a, b));
    assert |multiset(targets)| == |multiset(shuffled)|;
  }

  // ----- the targets are split once, and the totals are what the lists weigh

  function All(jobs: seq<seq<string>>): multiset<string> {
    if jobs == [] then multiset{} else All(jobs[..|jobs| - 1]) + multiset(jobs[|jobs| - 1])
  }

  /** What each job weighs when it runs the listed targets after its other work. */
  function Weights(jobs: seq<seq<string>>, seconds: Durations, init: seq<nat>): (w: seq<nat>)
    requires |jobs| == |init|
    ensures |w| == |init|
  {
    seq(|init|, j requires 0 <= j < |init| => init[j] + Sum(Lengths(seconds, jobs[j])))
  }

  lemma {:induction false} AllAdd(jobs: seq<seq<string>>, j: nat, ts: seq<string>, t: string)
    requires j < |jobs| && multiset(ts) == multiset(jobs[j]) + multiset{t}
    ensures All(jobs[j := ts]) == All(jobs) + multiset{t}
  {
    var n := |jobs| - 1;
    var after := jobs[j := ts];
    assert All(after) == All(after[..n]) + multiset(after[n]);
    if j < n {
      AllAdd(jobs[..n], j, ts, t);
      assert after[..n] == jobs[..n][j := ts];
    } else {
      assert after[..n] == jobs[..n];
    }
  }

  lemma {:induction false} AllEmpty(jobs: seq<seq<string>>)
    requires forall j | 0 <= j < |jobs| :: jobs[j] == []
    ensures All(jobs) == multiset{}
  {
    if jobs != [] {
      AllEmpty(jobs[..|jobs| - 1]);
    }
  }

  lemma LengthsAppend(seconds: Durations, ts: seq<string>, t: string)
    ensures Sum(Lengths(seconds, ts + [t])) == Sum(Lengths(seconds, ts)) + Seconds(seconds, t)
  {
    assert Lengths(seconds, ts + [t])[..|ts|] == Lengths(seconds, ts);
  }

  lemma {:induction false} ListingSplits(order: seq<string>, a: seq<nat>, m: nat)
    requires Assigns(a, |order|, m)
    ensures All(Listing(order, a, m)) == multiset(order)
  {
    if order == [] {
      AllEmpty(Listing(order, a, m));
    } else {
      var n := |order| - 1;
      var jobs, job, t := Listing(order[..n], a[..n], m), a[n], order[n];
      ListingSplits(order[..n], a[..n], m);
      assert order == order[..n] + [t];
      ListingStep(order, a[..n], job, m);
      assert a[..n] + [job] == a;
      assert multiset(jobs[job] + [t]) == multiset(jobs[job]) + multiset{t};
      AllAdd(jobs, job, jobs[job] + [t], t);
    }
  }

  lemma {:induction false} ListingWeighs(order: seq<string>, a: seq<nat>, seconds: Durations, j: nat, other: nat)
    requires |a| == |order|
    ensures other + Sum(Lengths(seconds, Listed(order, a, j))) == Total(Lengths(seconds, order), a, other, j)
  {
    if order == [] {
    } else {
      var n := |order| - 1;
      ListingWeighs(order[..n], a[..n], seconds, j, other);
      LengthsPrefix(seconds, order, n);
      var listed := Listed(order[..n], a[..n], j);
      LengthsAppend(seconds, listed, order[n]);
      assert listed + [] == listed;
    }
  }

  /** Each target lands in exactly one job, and each total is the job's other work plus its targets. */
  lemma PlanSplits(targets: seq<string>, seconds: Durations, jobSeconds: seq<nat>)
    ensures var r := Plan(targets, seconds, jobSeconds);
      r.Done? ==>
        && |r.jobs| == |jobSeconds|
        && All(r.jobs) == multiset(targets)
        && r.totals == Weights(r.jobs, seconds, jobSeconds)
  {
    if jobSeconds != [] {
      var order := LongestFirst(seconds, targets);
      SortPermutes(targets, (a, b) => NotAfter(seconds, a, b));
      var a := Greedy(Lengths(seconds, order), jobSeconds);
      PlanAssigns(order, seconds, jobSeconds);
      ListingSplits(order, a, |jobSeconds|);
      var r := Plan(targets, seconds, jobSeconds);
      forall j | 0 <= j < |jobSeconds| ensures r.totals[j] == Weights(r.jobs, seconds, jobSeconds)[j] {
        ListingWeighs(order, a, seconds, j, jobSeconds[j]);
      }
    }
  }

  // ----- how far the plan can be from the best one

  lemma {:induction false} SumUpdate(s: seq<nat>, j: nat, v: nat)
    requires j < |s|
    ensures Sum(s[j := v]) + s[j] == Sum(s) + v
  {
    var n := |s| - 1;
    if j < n {
      SumUpdate(s[..n], j, v);
      assert s[j := v][..n] == s[..n][j := v];
    } else {
      assert s[j := v][..n] == s[..n];
    }
  }

  lemma {:induction false} SumBetween(s: seq<nat>, lo: nat, hi: nat)
    requires forall i | 0 <= i < |s| :: lo <= s[i] <= hi
    ensures |s| * lo <= Sum(s) <= |s| * hi
  {
    if s != [] {
      var n := |s| - 1;
      SumBetween(s[..n], lo, hi);
      OneMoreTimes(n, lo);
      OneMoreTimes(n, hi);
    }
  }

  lemma OneMoreTimes(n: nat, x: nat)
    ensures (n + 1) * x == n * x + x
  {
  }

  /** Work is conserved, whoever places it. */
  lemma {:induction false} TotalsSum(p: seq<nat>, a: seq<nat>, init: seq<nat>)
    requires Assigns(a, |p|, |init|)
    ensures Sum(Totals(p, a, init)) == Sum(init) + Sum(p)
  {
    if p != [] {
      var n := |p| - 1;
      TotalsSum(p[..n], a[..n], init);
      TotalsStep(p, a[..n], a[n], init);
      assert a[..n] + [a[n]] == a;
      var t := Totals(p[..n], a[..n], init);
      SumUpdate(t, a[n], t[a[n]] + p[n]);
    } else {
      assert Totals(p, a, init) == init;
    }
  }

  lemma {:induction false} TotalCovers(p: seq<nat>, a: seq<nat>, other: nat, j: nat)
    requires |a| == |p|
    ensures other <= Total(p, a, other, j)
    ensures j !in a ==> Total(p, a, other, j) == other
    ensures forall i | 0 <= i < |p| && a[i] == j :: other + p[i] <= Total(p, a, other, j)
    ensures forall i, k | 0 <= i < k < |p| && a[i] == a[k] == j :: other + p[i] + p[k] <= Total(p, a, other, j)
  {
    if p != [] {
      var n := |p| - 1;
      TotalCovers(p[..n], a[..n], other, j);
      assert a[n] in a && forall x | x in a[..n] :: x in a;
    }
  }

  function Used(a: seq<nat>): set<nat> {
    set x | x in a
  }

  lemma {:induction false} UsedCount(a: seq<nat>)
    ensures |Used(a)| <= |a|
    ensures (forall i, k | 0 <= i < k < |a| :: a[i] != a[k]) ==> |Used(a)| == |a|
  {
    if a != [] {
      var n := |a| - 1;
      UsedCount(a[..n]);
      assert a == a[..n] + [a[n]];
      assert Used(a) == Used(a[..n]) + {a[n]};
      if a[n] in a[..n] {
        var i :| 0 <= i < n && a[i] == a[n];
      }
    }
  }

  lemma SubsetCount<T>(a: set<T>, b: set<T>)
    requires a <= b
    ensures |a| <= |b|
  {
    assert b == a + (b - a);
  }

  /** n targets that pairwise do not fit together on one job need n jobs, and greedy has used fewer. */
  lemma BigTargetsFit(p: seq<nat>, a: seq<nat>, g: seq<nat>, init: seq<nat>, opt: nat)
    returns (j: nat)
    requires p != [] && Assigns(a, |p|, |init|) && Assigns(g, |p| - 1, |init|)
    requires forall i | 0 <= i < |p| :: p[|p| - 1] <= p[i]
    requires 2 * p[|p| - 1] > opt
    requires Within(p, a, init, opt)
    ensures j < |init| && Total(p[..|p| - 1], g, init[j], j) + p[|p| - 1] <= opt
  {
    var n := |p| - 1;
    forall i, k | 0 <= i < k < |p| ensures a[i] != a[k] {
      TotalCovers(p, a, init[a[i]], a[i]);
    }
    UsedCount(a);
    UsedCount(g);
    var mine, theirs := Used(g), Used(a);
    if theirs <= mine {
      SubsetCount(theirs, mine);
      assert false;
    }
    j :| j in theirs && j !in mine;
    var i :| 0 <= i < |a| && a[i] == j;
    TotalCovers(p, a, init[j], j);
    TotalCovers(p[..n], g, init[j], j);
  }

  /** m times the least total plus what is being placed is at most all the work there is. */
  lemma LeastIsSmall(p: seq<nat>, a: seq<nat>, g: seq<nat>, init: seq<nat>, opt: nat)
    requires p != [] && init != [] && Assigns(a, |p|, |init|) && Assigns(g, |p| - 1, |init|)
    requires Within(p, a, init, opt)
    ensures var t := Totals(p[..|p| - 1], g, init); |init| * t[Least(t)] + p[|p| - 1] <= |init| * opt
  {
    var t := Totals(p[..|p| - 1], g, init);
    TotalsSum(p, a, init);
    TotalsSum(p[..|p| - 1], g, init);
    SumBetween(Totals(p, a, init), 0, opt);
    LeastIsLeast(t);
    SumBetween(t, t[Least(t)], Max(t));
  }

  /** x is at most 3/2 - 1/(2m) times opt. */
  ghost predicate Near(m: nat, x: nat, opt: nat) {
    2 * m * x <= (3 * m - 1) * opt
  }

  lemma SmallTargetNear(m: nat, s: nat, q: nat, opt: nat)
    requires m >= 1 && m * s + q <= m * opt && 2 * q <= opt
    ensures Near(m, s + q, opt)
  {
    calc {
      2 * m * (s + q);
      2 * (m * s + q) + (m - 1) * (2 * q);
    <= { assert (m - 1) * (2 * q) <= (m - 1) * opt; }
      2 * (m * opt) + (m - 1) * opt;
      (3 * m - 1) * opt;
    }
  }

  lemma WithinNear(m: nat, x: nat, opt: nat)
    requires m >= 1 && x <= opt
    ensures Near(m, x, opt)
  {
    assert 2 * m * x <= 2 * m * opt <= (3 * m - 1) * opt;
  }

  /** Placing one more target keeps the bound for the job that takes it. */
  lemma PlacedNear(p: seq<nat>, a: seq<nat>, g: seq<nat>, init: seq<nat>, opt: nat)
    requires p != [] && init != [] && Assigns(a, |p|, |init|) && Assigns(g, |p| - 1, |init|)
    requires forall i | 0 <= i < |p| :: p[|p| - 1] <= p[i]
    requires Within(p, a, init, opt)
    ensures var t := Totals(p[..|p| - 1], g, init);
      Near(|init|, t[Least(t)] + p[|p| - 1], opt)
  {
    var n, m := |p| - 1, |init|;
    var t := Totals(p[..n], g, init);
    var s := t[Least(t)];
    if 2 * p[n] <= opt {
      LeastIsSmall(p, a, g, init, opt);
      SmallTargetNear(m, s, p[n], opt);
    } else {
      var free := BigTargetsFit(p, a, g, init, opt);
      LeastIsLeast(t);
      assert s <= t[free] == Total(p[..n], g, init[free], free);
      WithinNear(m, s + p[n], opt);
    }
  }

  ghost predicate NonIncreasing(p: seq<nat>) {
    forall i, k | 0 <= i < k < |p| :: p[i] >= p[k]
  }

  lemma {:induction false} GreedyNear(p: seq<nat>, a: seq<nat>, init: seq<nat>, opt: nat, j: nat)
    requires init != [] && Assigns(a, |p|, |init|) && j < |init|
    requires NonIncreasing(p) && Within(p, a, init, opt)
    ensures Near(|init|, Total(p, Greedy(p, init), init[j], j), opt)
  {
    if p == [] {
      assert Total(p, a, init[j], j) <= opt;
      WithinNear(|init|, init[j], opt);
    } else {
      var n := |p| - 1;
      var g := Greedy(p[..n], init);
      var t := Totals(p[..n], g, init);
      assert Greedy(p, init) == g + [Least(t)] && Greedy(p, init)[..n] == g;
      if j == Least(t) {
        PlacedNear(p, a, g, init, opt);
        assert Total(p, Greedy(p, init), init[j], j) == t[j] + p[n];
      } else {
        assert Within(p[..n], a[..n], init, opt);
        GreedyNear(p[..n], a[..n], init, opt, j);
      }
    }
  }

  // ----- from lists of targets to assignments

  lemma {:induction false} FindJob(jobs: seq<seq<string>>, t: string) returns (j: nat, k: nat)
    requires t in All(jobs)
    ensures j < |jobs| && k < |jobs[j]| && jobs[j][k] == t
  {
    var n := |jobs| - 1;
    if t in multiset(jobs[n]) {
      j := n;
      k :| 0 <= k < |jobs[n]| && jobs[n][k] == t;
    } else {
      j, k := FindJob(jobs[..n], t);
    }
  }

  lemma {:induction false} SumRemove(seconds: Durations, ts: seq<string>, k: nat)
    requires k < |ts|
    ensures Sum(Lengths(seconds, ts)) == Sum(Lengths(seconds, ts[..k] + ts[k + 1..])) + Seconds(seconds, ts[k])
  {
    var n := |ts| - 1;
    assert ts == ts[..n] + [ts[n]];
    LengthsAppend(seconds, ts[..n], ts[n]);
    if k == n {
      assert ts[..k] + ts[k + 1..] == ts[..n];
    } else {
      SumRemove(seconds, ts[..n], k);
      assert ts[..n][..k] == ts[..k];
      assert ts[..k] + ts[k + 1..] == (ts[..k] + ts[..n][k + 1..]) + [ts[n]];
      LengthsAppend(seconds, ts[..k] + ts[..n][k + 1..], ts[n]);
    }
  }

  lemma {:induction false} AllIsEmpty(jobs: seq<seq<string>>, j: nat)
    requires All(jobs) == multiset{} && j < |jobs|
    ensures jobs[j] == []
  {
    var n := |jobs| - 1;
    if j < n {
      AllIsEmpty(jobs[..n], j);
    } else {
      assert multiset(jobs[n]) <= All(jobs);
      assert |multiset(jobs[n])| == 0;
    }
  }

  lemma WithoutOne(ts: seq<string>, k: nat)
    requires k < |ts|
    ensures multiset(ts) == multiset(ts[..k] + ts[k + 1..]) + multiset{ts[k]}
  {
    assert ts == ts[..k] + [ts[k]] + ts[k + 1..];
  }

  lemma WithoutLast(order: seq<string>)
    requires order != []
    ensures multiset(order) == multiset(order[..|order| - 1]) + multiset{order[|order| - 1]}
  {
    assert order == order[..|order| - 1] + [order[|order| - 1]];
  }

  lemma AllWithout(jobs: seq<seq<string>>, j: nat, k: nat)
    requires j < |jobs| && k < |jobs[j]|
    ensures All(jobs) == All(jobs[j := jobs[j][..k] + jobs[j][k + 1..]]) + multiset{jobs[j][k]}
  {
    var without := jobs[j][..k] + jobs[j][k + 1..];
    WithoutOne(jobs[j], k);
    AllAdd(jobs[j := without], j, jobs[j], jobs[j][k]);
    assert jobs[j := without][j := jobs[j]] == jobs;
  }

  lemma RemoveOne(jobs: seq<seq<string>>, j: nat, k: nat, order: seq<string>)
    requires order != [] && All(jobs) == multiset(order)
    requires j < |jobs| && k < |jobs[j]| && jobs[j][k] == order[|order| - 1]
    ensures All(jobs[j := jobs[j][..k] + jobs[j][k + 1..]]) == multiset(order[..|order| - 1])
  {
    WithoutLast(order);
    AllWithout(jobs, j, k);
    SameLess(All(jobs[j := jobs[j][..k] + jobs[j][k + 1..]]), multiset(order[..|order| - 1]), multiset{jobs[j][k]});
  }

  lemma SameLess(a: multiset<string>, b: multiset<string>, t: multiset<string>)
    requires a + t == b + t
    ensures a == b
  {
    assert a == (a + t) - t && b == (b + t) - t;
  }

  /** The assignment gives every job the work it is listed with. */
  ghost predicate Agrees(order: seq<string>, jobs: seq<seq<string>>, seconds: Durations, init: seq<nat>, a: seq<nat>)
    requires |jobs| == |init| && |a| == |order|
  {
    forall j | 0 <= j < |init| :: Total(Lengths(seconds, order), a, init[j], j) == init[j] + Sum(Lengths(seconds, jobs[j]))
  }

  lemma AgreesThen(order: seq<string>, jobs: seq<seq<string>>, seconds: Durations, init: seq<nat>, at: nat, k: nat, b: seq<nat>)
    requires |jobs| == |init| && |b| == |order| - 1 && at < |jobs| && k < |jobs[at]| && jobs[at][k] == order[|b|]
    requires Agrees(order[..|b|], jobs[at := jobs[at][..k] + jobs[at][k + 1..]], seconds, init, b)
    ensures Agrees(order, jobs, seconds, init, b + [at])
  {
    var rest := jobs[at := jobs[at][..k] + jobs[at][k + 1..]];
    forall j | 0 <= j < |init|
      ensures Total(Lengths(seconds, order), b + [at], init[j], j) == init[j] + Sum(Lengths(seconds, jobs[j]))
    {
      assert rest[j] == Less(jobs[j], k, at == j);
      AssignTotal(order, seconds, jobs[j], k, at, b, init[j], j);
    }
  }

  /** Any way to list the targets by job comes from an assignment with the same totals. */
  lemma {:induction false} AssignmentOf(order: seq<string>, jobs: seq<seq<string>>, seconds: Durations, init: seq<nat>)
    returns (a: seq<nat>)
    requires |jobs| == |init| && All(jobs) == multiset(order)
    ensures Assigns(a, |order|, |init|) && Agrees(order, jobs, seconds, init, a)
  {
    if order == [] {
      a := [];
      forall j | 0 <= j < |jobs| ensures jobs[j] == [] {
        AllIsEmpty(jobs, j);
      }
    } else {
      var n := |order| - 1;
      assert order[n] in All(jobs);
      var at, k := FindJob(jobs, order[n]);
      RemoveOne(jobs, at, k, order);
      var b := AssignmentOf(order[..n], jobs[at := jobs[at][..k] + jobs[at][k + 1..]], seconds, init);
      AgreesThen(order, jobs, seconds, init, at, k, b);
      a := b + [at];
    }
  }

  lemma TotalOneMore(p: seq<nat>, a: seq<nat>, job: nat, other: nat, j: nat)
    requires |p| == |a| + 1
    ensures Total(p, a + [job], other, j) == Total(p[..|a|], a, other, j) + if job == j then p[|a|] else 0
  {
    assert (a + [job])[..|a|] == a;
  }

  /** A job's work, without the target that was handed to job at. */
  function Less(ts: seq<string>, k: nat, here: bool): seq<string>
    requires here ==> k < |ts|
  {
    if here then ts[..k] + ts[k + 1..] else ts
  }

  lemma AssignTotal(order: seq<string>, seconds: Durations, ts: seq<string>, k: nat, at: nat, b: seq<nat>, other: nat, j: nat)
    requires |b| == |order| - 1 && (at == j ==> k < |ts| && ts[k] == order[|b|])
    requires Total(Lengths(seconds, order[..|b|]), b, other, j) == other + Sum(Lengths(seconds, Less(ts, k, at == j)))
    ensures Total(Lengths(seconds, order), b + [at], other, j) == other + Sum(Lengths(seconds, ts))
  {
    TotalOneMore(Lengths(seconds, order), b, at, other, j);
    LengthsPrefix(seconds, order, |b|);
    if at == j {
      SumRemove(seconds, ts, k);
    }
  }

  /** No other way to hand the same targets to m jobs beats the plan by more than 3/2 - 1/(2m). */
  lemma PlanBound(targets: seq<string>, seconds: Durations, jobSeconds: seq<nat>, other: seq<seq<string>>)
    requires jobSeconds != [] && |other| == |jobSeconds| && All(other) == multiset(targets)
    ensures var m := |jobSeconds|;
      2 * m * Max(Plan(targets, seconds, jobSeconds).totals) <= (3 * m - 1) * Max(Weights(other, seconds, jobSeconds))
  {
    var order := LongestFirst(seconds, targets);
    var le := (a, b) => NotAfter(seconds, a, b);
    NotAfterIsOrder(seconds);
    SortPermutes(targets, le);
    SortSorts(targets, le);
    var a := AssignmentOf(order, other, seconds, jobSeconds);
    var p := Lengths(seconds, order);
    forall i, k | 0 <= i < k < |p| ensures p[i] >= p[k] {
      assert le(order[i], order[k]);
    }
    PlanAssigns(order, seconds, jobSeconds);
    var opt := Max(Weights(other, seconds, jobSeconds));
    forall j | 0 <= j < |jobSeconds| ensures Total(p, a, jobSeconds[j], j) <= opt {
      assert Total(p, a, jobSeconds[j], j) == Weights(other, seconds, jobSeconds)[j];
    }
    var totals := Plan(targets, seconds, jobSeconds).totals;
    var j :| 0 <= j < |totals| && totals[j] == Max(totals);
    GreedyNear(p, a, jobSeconds, opt, j);
  }

  /** For the six durable jobs the plan is within 17/12 of the best. */
  lemma DurableJobsBound(targets: seq<string>, seconds: Durations, other: seq<seq<string>>)
    requires |other| == 6 && All(other) == multiset(targets)
    ensures 12 * Max(Plan(targets, seconds, JOB_SECONDS).totals) <= 17 * Max(Weights(other, seconds, JOB_SECONDS))
  {
    PlanBound(targets, seconds, JOB_SECONDS, other);
  }
}
