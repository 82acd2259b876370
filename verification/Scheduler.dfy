/** Longest-first, least-loaded distribution of files over parallel streams
    (`openadb/core/acbridge_p2p.py`, `_upload_parallel_entries`).

    A plan gives every job the number of its stream.  The greedy plan is compared
    with every other plan for the same jobs. */
module Scheduler {
  // ---------------------------------------------------------------- plans and loads

  function Sum(w: seq<nat>): nat {
    if w == [] then 0 else Sum(w[..|w| - 1]) + w[|w| - 1]
  }

  /** What `plan` gives to stream `k` when job i weighs w[i]. */
  function Load(plan: seq<nat>, w: seq<nat>, k: nat): nat
    requires |plan| == |w|
  {
    if w == [] then 0 else
    var n := |w| - 1;
    Load(plan[..n], w[..n], k) + if plan[n] == k then w[n] else 0
  }

  function Loads(plan: seq<nat>, w: seq<nat>, m: nat): (loads: seq<nat>)
    requires |plan| == |w|
    ensures |loads| == m
  {
    seq(m, k requires 0 <= k < m => Load(plan, w, k))
  }

  ghost predicate IsPlan(plan: seq<nat>, jobs: nat, m: nat) {
    |plan| == jobs && forall i :: 0 <= i < jobs ==> plan[i] < m
  }

  ghost predicate Descending(w: seq<nat>) {
    forall i, j :: 0 <= i < j < |w| ==> w[i] >= w[j]
  }

  function Max(loads: seq<nat>): (c: nat)
    requires loads != []
    ensures c in loads && forall k :: 0 <= k < |loads| ==> loads[k] <= c
  {
    if |loads| == 1 then loads[0] else
    var c := Max(loads[..|loads| - 1]);
    if loads[|loads| - 1] > c then loads[|loads| - 1] else c
  }

  /** The first index of a smallest load, as `min` over the stream numbers returns it. */
  function ArgMin(loads: seq<nat>): (t: nat)
    requires loads != []
    ensures t < |loads|
    ensures forall k :: 0 <= k < |loads| ==> loads[t] <= loads[k]
    ensures forall k :: 0 <= k < t ==> loads[t] < loads[k]
  {
    if |loads| == 1 then 0 else
    var t := ArgMin(loads[..|loads| - 1]);
    if loads[|loads| - 1] < loads[t] then |loads| - 1 else t
  }

  /** Every job, in order, goes to the stream with the least work so far. */
  function Greedy(w: seq<nat>, m: nat): (plan: seq<nat>)
    requires m > 0
    ensures |plan| == |w| && forall i :: 0 <= i < |plan| ==> plan[i] < m
  {
    if w == [] then [] else
    var prior := Greedy(w[..|w| - 1], m);
    prior + [ArgMin(Loads(prior, w[..|w| - 1], m))]
  }

  // ---------------------------------------------------------------- counting lemmas

  lemma {:induction false} SumOfLoadsAfterLastJob(plan: seq<nat>, w: seq<nat>, m: nat)
    requires |plan| == |w| && w != []
    ensures var n := |w| - 1;
            Sum(Loads(plan, w, m)) == Sum(Loads(plan[..n], w[..n], m)) + if plan[n] < m then w[n] else 0
  {
    var n := |w| - 1;
    if m > 0 {
      SumOfLoadsAfterLastJob(plan, w, m - 1);
      assert Loads(plan, w, m)[..m - 1] == Loads(plan, w, m - 1);
      assert Loads(plan[..n], w[..n], m)[..m - 1] == Loads(plan[..n], w[..n], m - 1);
    }
  }

  /** Double counting: the loads of all streams add up to the weight of all jobs. */
  lemma {:induction false} LoadsAddUp(plan: seq<nat>, w: seq<nat>, m: nat)
    requires IsPlan(plan, |w|, m)
    ensures Sum(Loads(plan, w, m)) == Sum(w)
  {
    if w == [] {
      SumAtMost(Loads(plan, w, m), 0);
    } else {
      LoadsAddUp(plan[..|w| - 1], w[..|w| - 1], m);
      SumOfLoadsAfterLastJob(plan, w, m);
    }
  }

  lemma {:induction false} SumAtLeast(loads: seq<nat>, low: nat)
    requires forall k :: 0 <= k < |loads| ==> low <= loads[k]
    ensures |loads| * low <= Sum(loads)
  {
    if loads != [] {
      var n := |loads| - 1;
      SumAtLeast(loads[..n], low);
      OneMoreTime(n, low);
    }
  }

  lemma {:induction false} SumAtMost(loads: seq<nat>, high: nat)
    requires forall k :: 0 <= k < |loads| ==> loads[k] <= high
    ensures Sum(loads) <= |loads| * high
  {
    if loads != [] {
      var n := |loads| - 1;
      SumAtMost(loads[..n], high);
      OneMoreTime(n, high);
    }
  }

  lemma OneMoreTime(n: nat, x: nat)
    ensures (n + 1) * x == n * x + x
  {
  }

  lemma {:induction false} LoadOfPrefix(plan: seq<nat>, w: seq<nat>, k: nat, n: nat)
    requires |plan| == |w| && n <= |w|
    ensures Load(plan[..n], w[..n], k) <= Load(plan, w, k)
  {
    if n < |w| {
      var l := |w| - 1;
      LoadOfPrefix(plan[..l], w[..l], k, n);
      assert plan[..l][..n] == plan[..n] && w[..l][..n] == w[..n];
    } else {
      assert plan[..n] == plan && w[..n] == w;
    }
  }

  lemma {:induction false} JobFitsItsStream(plan: seq<nat>, w: seq<nat>, i: nat)
    requires |plan| == |w| && i < |w|
    ensures w[i] <= Load(plan, w, plan[i])
  {
    LoadOfPrefix(plan, w, plan[i], i + 1);
    assert plan[..i + 1][..i] == plan[..i] && w[..i + 1][..i] == w[..i];
  }

  lemma {:induction false} TwoJobsFitTheirStream(plan: seq<nat>, w: seq<nat>, i: nat, j: nat)
    requires |plan| == |w| && i < j < |w| && plan[i] == plan[j]
    ensures w[i] + w[j] <= Load(plan, w, plan[i])
  {
    JobFitsItsStream(plan[..j], w[..j], i);
    LoadOfPrefix(plan, w, plan[i], j + 1);
    assert plan[..j + 1][..j] == plan[..j] && w[..j + 1][..j] == w[..j];
  }

  // ---------------------------------------------------------------- the quality bound

  /** One for a job that shares its stream, two for a job that is alone on it. */
  function Aloneness(plan: seq<nat>): (alone: seq<nat>)
    ensures |alone| == |plan|
    ensures forall i :: 0 <= i < |plan| ==> alone[i] == if Alone(plan, i) then 2 else 1
  {
    seq(|plan|, i requires 0 <= i < |plan| => if Alone(plan, i) then 2 else 1)
  }

  predicate Alone(plan: seq<nat>, i: nat)
    requires i < |plan|
  {
    forall j :: 0 <= j < |plan| && j != i ==> plan[j] != plan[i]
  }

  /** A busy stream holds a job that is alone, or at least two jobs. */
  lemma BusyStreamWeighsTwo(plan: seq<nat>, k: nat, i: nat)
    requires i < |plan| && plan[i] == k
    ensures Load(plan, Aloneness(plan), k) >= 2
  {
    var alone := Aloneness(plan);
    JobFitsItsStream(plan, alone, i);
    if !Alone(plan, i) {
      var j: nat :| j < |plan| && j != i && plan[j] == plan[i];
      TwoJobsFitTheirStream(plan, alone, if i < j then i else j, if i < j then j else i);
    }
  }

  lemma {:induction false} EmptyStream(plan: seq<nat>, w: seq<nat>, k: nat)
    requires |plan| == |w| && forall i :: 0 <= i < |plan| ==> plan[i] != k
    ensures Load(plan, w, k) == 0
  {
    if w != [] {
      EmptyStream(plan[..|w| - 1], w[..|w| - 1], k);
    }
  }

  /** On one stream of another plan, whose jobs all weigh more than a third of its load
      limit, and on which an alone job leaves no room for a second one, the aloneness
      weights add up to two at most. */
  lemma {:induction false} RivalStreamWeighsTwo(b: seq<nat>, w: seq<nat>, alone: seq<nat>, k: nat, limit: nat)
    requires |b| == |w| == |alone|
    requires forall i :: 0 <= i < |w| ==> 3 * w[i] > limit
    requires forall i :: 0 <= i < |w| ==> 1 <= alone[i] <= 2
    requires forall i, j :: 0 <= i < j < |w| && (alone[i] == 2 || alone[j] == 2) ==> w[i] + w[j] > limit
    requires Load(b, w, k) <= limit
    ensures Load(b, alone, k) <= 2
    ensures 3 * Load(b, w, k) >= limit * Load(b, alone, k) || Load(b, alone, k) == 2
    ensures Load(b, alone, k) == 0 <==> forall i :: 0 <= i < |b| ==> b[i] != k
  {
    if w != [] {
      var n := |w| - 1;
      RivalStreamWeighsTwo(b[..n], w[..n], alone[..n], k, limit);
      if b[n] == k && Load(b[..n], alone[..n], k) >= 1 {
        var i: nat :| i < n && b[i] == k;
        TwoJobsFitTheirStream(b, w, i, n);
        assert alone[i] == alone[n] == 1;
        if Load(b[..n], alone[..n], k) == 2 {
          TwoAlreadyThere(b[..n], w[..n], alone[..n], k, limit, i);
        }
      }
    }
  }

  /** Weight two without an alone job means two jobs, and a third would not fit. */
  lemma {:induction false} TwoAlreadyThere(b: seq<nat>, w: seq<nat>, alone: seq<nat>, k: nat, limit: nat, i: nat)
    requires |b| == |w| == |alone| && i < |b| && b[i] == k && alone[i] == 1
    requires forall j :: 0 <= j < |w| ==> 3 * w[j] > limit
    requires Load(b, alone, k) == 2
    ensures 3 * Load(b, w, k) > 2 * limit
  {
    if forall j :: 0 <= j < |b| && j != i ==> b[j] != k {
      OnlyJob(b, alone, k, i);
      assert false;
    }
    var j: nat :| j < |b| && j != i && b[j] == k;
    TwoJobsFitTheirStream(b, w, if i < j then i else j, if i < j then j else i);
  }

  lemma {:induction false} OnlyJob(plan: seq<nat>, w: seq<nat>, k: nat, i: nat)
    requires |plan| == |w| && i < |plan| && plan[i] == k
    requires forall j :: 0 <= j < |plan| && j != i ==> plan[j] != k
    ensures Load(plan, w, k) == w[i]
  {
    var n := |w| - 1;
    if i == n {
      EmptyStream(plan[..n], w[..n], k);
    } else {
      OnlyJob(plan[..n], w[..n], k, i);
    }
  }

  /** On the greedy side every stream weighs two at least when even the least loaded one
      is busy. */
  lemma GreedySideWeighsTwice(w: seq<nat>, m: nat)
    requires m > 0
    requires forall k :: 0 <= k < m ==> Load(Greedy(w, m), w, k) > 0
    ensures 2 * m <= Sum(Aloneness(Greedy(w, m)))
  {
    var plan := Greedy(w, m);
    forall k | 0 <= k < m ensures Load(plan, Aloneness(plan), k) >= 2 {
      if forall i :: 0 <= i < |plan| ==> plan[i] != k {
        EmptyStream(plan, w, k);
        assert false;
      }
      var i: nat :| i < |plan| && plan[i] == k;
      BusyStreamWeighsTwo(plan, k, i);
    }
    TotalAtLeast(plan, Aloneness(plan), m, 2);
  }

  /** If every greedy stream carries more than `limit` less the last (lightest) job, a job
      that is alone on its greedy stream fits beside no other job within `limit`. */
  lemma AloneJobsDoNotPair(w: seq<nat>, plan: seq<nat>, limit: nat, i: nat, j: nat)
    requires w != [] && Descending(w) && |plan| == |w| - 1
    requires forall a :: 0 <= a < |plan| ==> Load(plan, w[..|plan|], plan[a]) + w[|plan|] > limit
    requires i < |plan| && Alone(plan, i) && j < |w| && j != i
    ensures w[i] + w[j] > limit
  {
    OnlyJob(plan, w[..|plan|], plan[i], i);
    assert w[j] >= w[|plan|];
  }

  /** On the rival side, whose streams stay within `limit`, the weights reach 2m at most. */
  lemma RivalSideWeighsTwice(w: seq<nat>, plan: seq<nat>, m: nat, b: seq<nat>, limit: nat)
    requires w != [] && Descending(w) && |plan| == |w| - 1 && IsPlan(b, |w|, m)
    requires forall k :: 0 <= k < m ==> Load(b, w, k) <= limit
    requires forall a :: 0 <= a < |plan| ==> Load(plan, w[..|plan|], plan[a]) + w[|plan|] > limit
    requires 3 * w[|plan|] > limit
    ensures Sum(Aloneness(plan)) + 1 <= 2 * m
  {
    var rival := Aloneness(plan) + [1];
    forall i, j | 0 <= i < j < |w| && (rival[i] == 2 || rival[j] == 2) ensures w[i] + w[j] > limit {
      if rival[i] == 2 {
        AloneJobsDoNotPair(w, plan, limit, i, j);
      } else {
        AloneJobsDoNotPair(w, plan, limit, j, i);
      }
    }
    forall k | 0 <= k < m ensures Load(b, rival, k) <= 2 {
      RivalStreamWeighsTwo(b, w, rival, k, limit);
    }
    TotalAtMost(b, rival, m, 2);
    assert rival[..|plan|] == Aloneness(plan);
  }

  /** The heart of the bound.  If the last job is heavier than a third of a rival plan's
      limit, putting it on the least loaded greedy stream stays within that limit: the
      aloneness weights of the earlier jobs add up to at least 2m on the greedy side and,
      with the last job, to at most 2m on the rival side. */
  lemma LargeLastJob(w: seq<nat>, m: nat, b: seq<nat>, limit: nat)
    requires m > 0 && w != [] && Descending(w) && IsPlan(b, |w|, m)
    requires forall k :: 0 <= k < m ==> Load(b, w, k) <= limit
    requires 3 * w[|w| - 1] > limit
    ensures var n := |w| - 1;
            var prior := Greedy(w[..n], m);
            Load(prior, w[..n], ArgMin(Loads(prior, w[..n], m))) + w[n] <= limit
  {
    var n := |w| - 1;
    var prior := Greedy(w[..n], m);
    var loads := Loads(prior, w[..n], m);
    var least := loads[ArgMin(loads)];
    hide Sum, Greedy, Load, ArgMin, Max, Aloneness;
    if least + w[n] > limit {
      JobFitsItsStream(b, w, n);
      forall k | 0 <= k < m ensures Load(prior, w[..n], k) >= least {
        assert loads[k] >= least;
      }
      GreedySideWeighsTwice(w[..n], m);
      RivalSideWeighsTwice(w, prior, m, b, limit);
    }
  }

  lemma TotalAtLeast(plan: seq<nat>, w: seq<nat>, m: nat, low: nat)
    requires IsPlan(plan, |w|, m)
    requires forall k :: 0 <= k < m ==> Load(plan, w, k) >= low
    ensures m * low <= Sum(w)
  {
    LoadsAddUp(plan, w, m);
    SumAtLeast(Loads(plan, w, m), low);
  }

  lemma TotalAtMost(plan: seq<nat>, w: seq<nat>, m: nat, high: nat)
    requires IsPlan(plan, |w|, m)
    requires forall k :: 0 <= k < m ==> Load(plan, w, k) <= high
    ensures Sum(w) <= m * high
  {
    LoadsAddUp(plan, w, m);
    SumAtMost(Loads(plan, w, m), high);
  }

  /** The least loaded stream carries no more than the average. */
  lemma LeastLoadIsBelowAverage(w: seq<nat>, m: nat)
    requires m > 0
    ensures var plan := Greedy(w, m); m * Load(plan, w, ArgMin(Loads(plan, w, m))) <= Sum(w)
  {
    var plan := Greedy(w, m);
    var loads := Loads(plan, w, m);
    var t := ArgMin(loads);
    forall k | 0 <= k < m ensures Load(plan, w, k) >= Load(plan, w, t) {
      assert loads[t] <= loads[k];
    }
    TotalAtLeast(plan, w, m, Load(plan, w, t));
  }

  /** One greedy step: the stream that receives job n stays within the bound. */
  lemma GreedyStep(w: seq<nat>, m: nat, b: seq<nat>, limit: nat)
    requires m > 0 && w != [] && Descending(w) && IsPlan(b, |w|, m)
    requires forall k :: 0 <= k < m ==> Load(b, w, k) <= limit
    ensures var n := |w| - 1;
            var prior := Greedy(w[..n], m);
            3 * m * (Load(prior, w[..n], ArgMin(Loads(prior, w[..n], m))) + w[n]) <= (4 * m - 1) * limit
  {
    var n := |w| - 1;
    var p := w[n];
    var prior := Greedy(w[..n], m);
    var least := Load(prior, w[..n], ArgMin(Loads(prior, w[..n], m)));
    if 3 * p > limit {
      LargeLastJob(w, m, b, limit);
      ScaleUp(least + p, limit, m);
    } else {
      LeastLoadIsBelowAverage(w[..n], m);
      TotalAtMost(b, w, m, limit);
      SmallJobArithmetic(m, least, p, limit);
    }
  }

  lemma ScaleUp(x: nat, limit: nat, m: nat)
    requires x <= limit && m > 0
    ensures 3 * m * x <= (4 * m - 1) * limit
  {
    assert 3 * m * x <= 3 * m * limit;
    assert (4 * m - 1) * limit == 3 * m * limit + (m - 1) * limit;
  }

  lemma SmallJobArithmetic(m: nat, least: nat, p: nat, limit: nat)
    requires m > 0 && m * least + p <= m * limit && 3 * p <= limit
    ensures 3 * m * (least + p) <= (4 * m - 1) * limit
  {
    Scale(m - 1, 3 * p, limit);
    assert 3 * m * (least + p) == 3 * (m * least + p) + (m - 1) * (3 * p);
    assert (4 * m - 1) * limit == 3 * (m * limit) + (m - 1) * limit;
  }

  /** `c` is at most 4/3 - 1/(3m) of `best`. */
  ghost predicate WithinGrahamRatio(m: nat, c: nat, best: nat) {
    3 * m * c <= (4 * m - 1) * best
  }

  lemma RatioGrows(m: nat, c: nat, best: nat, more: nat)
    requires m > 0 && WithinGrahamRatio(m, c, best) && best <= more
    ensures WithinGrahamRatio(m, c, more)
  {
    Scale(4 * m - 1, best, more);
  }

  /** Graham's bound: the busiest greedy stream carries at most 4/3 - 1/(3m) of what the
      busiest stream of any other plan for the same jobs carries. */
  lemma {:induction false} GreedyIsNearOptimal(w: seq<nat>, m: nat, b: seq<nat>)
    requires m > 0 && Descending(w) && IsPlan(b, |w|, m)
    ensures WithinGrahamRatio(m, Max(Loads(Greedy(w, m), w, m)), Max(Loads(b, w, m)))
  {
    var best := Max(Loads(b, w, m));
    forall k | 0 <= k < m ensures Load(b, w, k) <= best {
      assert Loads(b, w, m)[k] <= best;
    }
    GreedyLoadsAreBounded(w, m, b, best);
    var loads := Loads(Greedy(w, m), w, m);
    var k :| 0 <= k < m && loads[k] == Max(loads);
  }

  lemma {:induction false} GreedyLoadsAreBounded(w: seq<nat>, m: nat, b: seq<nat>, limit: nat)
    requires m > 0 && Descending(w) && IsPlan(b, |w|, m)
    requires forall k :: 0 <= k < m ==> Load(b, w, k) <= limit
    ensures forall k :: 0 <= k < m ==> 3 * m * Load(Greedy(w, m), w, k) <= (4 * m - 1) * limit
  {
    if w == [] {
      ScaleUp(0, limit, m);
    } else {
      var n := |w| - 1;
      forall k | 0 <= k < m ensures Load(b[..n], w[..n], k) <= limit {
        LoadOfPrefix(b, w, k, n);
      }
      GreedyLoadsAreBounded(w[..n], m, b[..n], limit);
      GreedyStep(w, m, b, limit);
      var prior := Greedy(w[..n], m);
      assert Greedy(w, m)[..n] == prior;
    }
  }

  lemma GreedyAddsLastJob(w: seq<nat>, m: nat, k: nat)
    requires m > 0 && w != []
    ensures var n := |w| - 1;
            var prior := Greedy(w[..n], m);
            Load(Greedy(w, m), w, k)
            == Load(prior, w[..n], k) + if k == ArgMin(Loads(prior, w[..n], m)) then w[n] else 0
  {
    assert Greedy(w, m)[..|w| - 1] == Greedy(w[..|w| - 1], m);
  }

  lemma LoadsAddLast(w: seq<nat>, m: nat)
    requires m > 0 && w != []
    ensures var n := |w| - 1;
            var prior := Loads(Greedy(w[..n], m), w[..n], m);
            var t := ArgMin(prior);
            Loads(Greedy(w, m), w, m) == prior[t := prior[t] + w[n]] && Greedy(w, m) == Greedy(w[..n], m) + [t]
  {
    var n := |w| - 1;
    var prior := Loads(Greedy(w[..n], m), w[..n], m);
    var t := ArgMin(prior);
    var after := Loads(Greedy(w, m), w, m);
    forall k | 0 <= k < m ensures after[k] == prior[t := prior[t] + w[n]][k] {
      GreedyAddsLastJob(w, m, k);
    }
  }

  /** The list-scheduling bound. */
  lemma {:induction false} GreedyListBound(w: seq<nat>, m: nat, largest: nat, k: nat)
    requires k < m && forall i :: 0 <= i < |w| ==> w[i] <= largest
    ensures m * Load(Greedy(w, m), w, k) <= Sum(w) + (m - 1) * largest
  {
    if w == [] {
      Scale(m - 1, 0, largest);
    } else {
      var n := |w| - 1;
      var prior := Greedy(w[..n], m);
      GreedyAddsLastJob(w, m, k);
      if k == ArgMin(Loads(prior, w[..n], m)) {
        LeastLoadIsBelowAverage(w[..n], m);
        ListArithmetic(m, Load(prior, w[..n], k), w[n], largest);
      } else {
        GreedyListBound(w[..n], m, largest, k);
      }
    }
  }

  lemma GreedyMaxBound(w: seq<nat>, m: nat, largest: nat)
    requires m > 0 && forall i :: 0 <= i < |w| ==> w[i] <= largest
    ensures m * Max(Loads(Greedy(w, m), w, m)) <= Sum(w) + (m - 1) * largest
  {
    var loads := Loads(Greedy(w, m), w, m);
    var k :| 0 <= k < m && loads[k] == Max(loads);
    GreedyListBound(w, m, largest, k);
  }

  lemma Scale(factor: nat, x: nat, y: nat)
    requires x <= y
    ensures factor * x <= factor * y
  {
  }

  lemma ListArithmetic(m: nat, least: nat, p: nat, largest: nat)
    requires m > 0 && p <= largest
    ensures m * (least + p) <= m * least + p + (m - 1) * largest
  {
    Scale(m - 1, p, largest);
    assert m * (least + p) == m * least + p + (m - 1) * p;
  }

  /** The spread between two streams. */
  lemma {:induction false} GreedySpread(w: seq<nat>, m: nat, largest: nat, k: nat, l: nat)
    requires k < m && l < m && forall i :: 0 <= i < |w| ==> w[i] <= largest
    ensures Load(Greedy(w, m), w, k) <= Load(Greedy(w, m), w, l) + largest
  {
    if w != [] {
      var n := |w| - 1;
      GreedySpread(w[..n], m, largest, k, l);
      var prior := Greedy(w[..n], m);
      var loads := Loads(prior, w[..n], m);
      assert Greedy(w, m)[..n] == prior;
      assert loads[ArgMin(loads)] <= loads[l];
    }
  }

  function Positives(w: seq<nat>): (p: nat)
    ensures p <= |w|
  {
    if w == [] then 0 else Positives(w[..|w| - 1]) + if w[|w| - 1] > 0 then 1 else 0
  }

  lemma {:induction false} AllPositive(w: seq<nat>)
    requires forall i :: 0 <= i < |w| ==> w[i] > 0
    ensures Positives(w) == |w|
  {
    if w != [] {
      AllPositive(w[..|w| - 1]);
    }
  }

  /** How the greedy plan opens the streams: the first jobs go to the streams in order, as long
      as there is a job of weight above 0 for each stream before; then every further job of
      weight 0 goes to the first stream that has no weight. */
  ghost predicate OpensInOrder(w: seq<nat>, m: nat)
    requires m > 0
  {
    var plan, p := Greedy(w, m), Positives(w);
    && (forall i :: 0 <= i < |w| && i <= p && i < m ==> plan[i] == i)
    && (p < m ==> forall i :: p <= i < |w| ==> plan[i] == p)
    && (p <= m ==> forall k :: 0 <= k < m ==> (Load(plan, w, k) > 0 <==> k < p))
  }

  lemma {:induction false} StreamsOpenInOrder(w: seq<nat>, m: nat)
    requires m > 0 && Descending(w)
    ensures OpensInOrder(w, m)
  {
    if w != [] {
      var n := |w| - 1;
      StreamsOpenInOrder(w[..n], m);
      if w[n] > 0 {
        AllPositive(w[..n]);
      }
      OneMoreOpens(w, m);
    }
  }

  lemma OneMoreOpens(w: seq<nat>, m: nat)
    requires m > 0 && w != [] && OpensInOrder(w[..|w| - 1], m)
    requires w[|w| - 1] > 0 ==> Positives(w[..|w| - 1]) == |w| - 1
    ensures OpensInOrder(w, m)
  {
    var n := |w| - 1;
    var p, next := Positives(w[..n]), ArgMin(Loads(Greedy(w[..n], m), w[..n], m));
    assert Greedy(w, m) == Greedy(w[..n], m) + [next];
    assert Positives(w) == p + if w[n] > 0 then 1 else 0;
    if p < m {
      FirstWithoutWeight(w[..n], m);
    }
    forall k | 0 <= k < m
      ensures Load(Greedy(w, m), w, k) == Load(Greedy(w[..n], m), w[..n], k) + if k == next then w[n] else 0
    {
      GreedyAddsLastJob(w, m, k);
    }
    hide Greedy, Load, ArgMin, Positives;
  }

  lemma FirstWithoutWeight(w: seq<nat>, m: nat)
    requires m > 0 && OpensInOrder(w, m) && Positives(w) < m
    ensures ArgMin(Loads(Greedy(w, m), w, m)) == Positives(w)
  {
    hide Greedy, Load, Positives;
    var loads := Loads(Greedy(w, m), w, m);
    assert loads[Positives(w)] == 0 && forall k :: 0 <= k < Positives(w) ==> loads[k] > 0;
  }

  /** Exactly: stream `k` gets a job if and only if at least `k` jobs have weight. */
  lemma StreamGetsAJob(w: seq<nat>, m: nat, k: nat)
    requires 0 < m <= |w| && k < m && Descending(w)
    ensures k in Greedy(w, m) <==> k <= Positives(w)
  {
    StreamsOpenInOrder(w, m);
    if k <= Positives(w) {
      assert Greedy(w, m)[k] == k;
    }
  }
}
