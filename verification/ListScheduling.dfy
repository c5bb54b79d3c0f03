/** Greedy list scheduling over job weights: the arithmetic behind the shard
    bounds. Jobs are positions 0..n-1; a schedule names the machine of each. */
module ListScheduling {

  /** What the jobs that `f` sends to machine `k` add up to. */
  ghost function MachineSum(f: seq<nat>, v: seq<real>, k: nat): real
    requires |f| == |v|
  {
    if |f| == 0 then 0.0
    else
      var n := |f| - 1;
      MachineSum(f[..n], v[..n], k) + if f[n] == k then v[n] else 0.0
  }

  ghost function Sum(v: seq<real>): real {
    if |v| == 0 then 0.0 else Sum(v[..|v| - 1]) + v[|v| - 1]
  }

  ghost function SumOfMachines(f: seq<nat>, v: seq<real>, m: nat): real
    requires |f| == |v|
  {
    if m == 0 then 0.0 else SumOfMachines(f, v, m - 1) + MachineSum(f, v, m - 1)
  }

  ghost predicate Onto(f: seq<nat>, m: nat) {
    forall i :: 0 <= i < |f| ==> f[i] < m
  }

  ghost predicate NonNegative(v: seq<real>) {
    forall i :: 0 <= i < |v| ==> 0.0 <= v[i]
  }

  ghost predicate AtMost(f: seq<nat>, v: seq<real>, m: nat, bound: real)
    requires |f| == |v|
  {
    forall k :: 0 <= k < m ==> MachineSum(f, v, k) <= bound
  }

  /** From job `p` on, every job went to a machine no other machine undercut. */
  ghost predicate ListSchedule(g: seq<nat>, w: seq<real>, m: nat, p: nat) {
    && |g| == |w| && p <= |g| && Onto(g, m)
    && forall i :: p <= i < |g| ==> PlacedLightest(g, w, m, i)
  }

  ghost predicate PlacedLightest(g: seq<nat>, w: seq<real>, m: nat, i: nat)
    requires |g| == |w| && i < |g|
  {
    forall k :: 0 <= k < m ==> MachineSum(g[..i], w[..i], g[i]) <= MachineSum(g[..i], w[..i], k)
  }

  ghost predicate Descending(w: seq<real>) {
    forall i, j :: 0 <= i <= j < |w| ==> w[j] <= w[i]
  }

  /** One more job on a lightest machine keeps a list schedule one. */
  lemma ListScheduleGrows(g: seq<nat>, w: seq<real>, m: nat, p: nat, k: nat)
    requires |w| == |g| + 1 && ListSchedule(g, w[..|g|], m, p) && k < m
    requires forall j :: 0 <= j < m ==> MachineSum(g, w[..|g|], k) <= MachineSum(g, w[..|g|], j)
    ensures ListSchedule(g + [k], w, m, p)
  {
    var g', w0 := g + [k], w[..|g|];
    assert g'[..|g|] == g;
    forall i | p <= i < |g'| ensures PlacedLightest(g', w, m, i) {
      if i < |g| {
        assert PlacedLightest(g, w0, m, i);
        assert g'[..i] == g[..i] && w[..i] == w0[..i];
      }
    }
  }

  // ---- double counting: summing by machine or by job is the same ----

  lemma {:induction false} SumOfMachinesStep(f: seq<nat>, v: seq<real>, m: nat)
    requires |f| == |v| > 0
    ensures var n := |f| - 1;
            SumOfMachines(f, v, m) == SumOfMachines(f[..n], v[..n], m) + if f[n] < m then v[n] else 0.0
  {
    if m > 0 {
      SumOfMachinesStep(f, v, m - 1);
    }
  }

  lemma {:induction false} EmptyMachines(m: nat)
    ensures SumOfMachines([], [], m) == 0.0
  {
    if m > 0 { EmptyMachines(m - 1); }
  }

  lemma {:induction false} DoubleCount(f: seq<nat>, v: seq<real>, m: nat)
    requires |f| == |v| && Onto(f, m)
    ensures SumOfMachines(f, v, m) == Sum(v)
  {
    if |f| == 0 {
      assert f == [] && v == [];
      EmptyMachines(m);
    } else {
      var n := |f| - 1;
      DoubleCount(f[..n], v[..n], m);
      SumOfMachinesStep(f, v, m);
    }
  }

  lemma {:induction false} BoundedMachines(f: seq<nat>, v: seq<real>, m: nat, bound: real)
    requires |f| == |v| && AtMost(f, v, m, bound)
    ensures SumOfMachines(f, v, m) <= bound * m as real
  {
    if m > 0 {
      BoundedMachines(f, v, m - 1, bound);
      assert bound * m as real == bound * (m - 1) as real + bound;
    }
  }

  lemma {:induction false} CrowdedMachines(f: seq<nat>, v: seq<real>, m: nat, bound: real)
    requires |f| == |v| && forall k :: 0 <= k < m ==> bound <= MachineSum(f, v, k)
    ensures bound * m as real <= SumOfMachines(f, v, m)
  {
    if m > 0 {
      CrowdedMachines(f, v, m - 1, bound);
      assert bound * m as real == bound * (m - 1) as real + bound;
    }
  }

  // ---- one machine ----

  lemma {:induction false} MachineSumNonNegative(f: seq<nat>, v: seq<real>, k: nat)
    requires |f| == |v| && NonNegative(v)
    ensures 0.0 <= MachineSum(f, v, k)
  {
    if |f| > 0 {
      MachineSumNonNegative(f[..|f| - 1], v[..|f| - 1], k);
    }
  }

  /** A machine carries at least each of its jobs. */
  lemma {:induction false} CarriesJob(f: seq<nat>, v: seq<real>, j: nat)
    requires |f| == |v| && NonNegative(v) && j < |f|
    ensures v[j] <= MachineSum(f, v, f[j])
  {
    var n := |f| - 1;
    MachineSumNonNegative(f[..n], v[..n], f[j]);
    if j < n {
      CarriesJob(f[..n], v[..n], j);
    }
  }

  /** ... and at least any two of them. */
  lemma {:induction false} CarriesTwo(f: seq<nat>, v: seq<real>, i: nat, j: nat)
    requires |f| == |v| && NonNegative(v) && i < j < |f| && f[i] == f[j]
    ensures v[i] + v[j] <= MachineSum(f, v, f[j])
  {
    var n := |f| - 1;
    if j == n {
      CarriesJob(f[..n], v[..n], i);
    } else {
      CarriesTwo(f[..n], v[..n], i, j);
    }
  }

  lemma {:induction false} Shorter(f: seq<nat>, v: seq<real>, i: nat, k: nat)
    requires |f| == |v| && NonNegative(v) && i <= |f|
    ensures MachineSum(f[..i], v[..i], k) <= MachineSum(f, v, k)
  {
    if i == |f| {
      assert f[..i] == f && v[..i] == v;
    } else {
      var n := |f| - 1;
      Shorter(f[..n], v[..n], i, k);
      assert f[..n][..i] == f[..i] && v[..n][..i] == v[..i];
    }
  }

  lemma {:induction false} MachineSumConcat(f: seq<nat>, v: seq<real>, g: seq<nat>, u: seq<real>, k: nat)
    requires |f| == |v| && |g| == |u|
    ensures MachineSum(f + g, v + u, k) == MachineSum(f, v, k) + MachineSum(g, u, k)
  {
    if |g| == 0 {
      assert f + g == f && v + u == v;
    } else {
      var n := |g| - 1;
      MachineSumConcat(f, v, g[..n], u[..n], k);
      assert (f + g)[..|f + g| - 1] == f + g[..n] && (v + u)[..|v + u| - 1] == v + u[..n];
    }
  }

  // ---- when one job may be at most a third of the bound, averaging suffices ----

  /** The lightest machine plus one job, against any schedule that keeps below `opt`. */
  lemma LightestPlusJob(g: seq<nat>, f: seq<nat>, w: seq<real>, m: nat, i: nat, opt: real)
    requires m > 0 && |g| == |w| == |f| && i < |g| && Onto(g, m) && Onto(f, m) && NonNegative(w)
    requires PlacedLightest(g, w, m, i) && AtMost(f, w, m, opt)
    ensures m as real * (MachineSum(g[..i], w[..i], g[i]) + w[i])
            <= m as real * opt + (m as real - 1.0) * w[i]
  {
    var low := MachineSum(g[..i], w[..i], g[i]);
    CrowdedMachines(g[..i], w[..i], m, low);
    DoubleCount(g[..i], w[..i], m);
    var fi, wi := f[..i + 1], w[..i + 1];
    forall k | 0 <= k < m ensures MachineSum(fi, wi, k) <= opt {
      Shorter(f, w, i + 1, k);
    }
    BoundedMachines(fi, wi, m, opt);
    DoubleCount(fi, wi, m);
    assert wi[..i] == w[..i];
    assert Sum(wi) == Sum(w[..i]) + w[i];
  }

  // ---- when every job is over a third, machines hold two jobs at most ----

  ghost function Ones(n: nat): (r: seq<real>)
    ensures |r| == n && forall i :: 0 <= i < n ==> r[i] == 1.0
  {
    seq(n, i => 1.0)
  }

  /** Every job over `third`: a machine's load is over `third` times its job count. */
  lemma {:induction false} CountTimesThird(f: seq<nat>, w: seq<real>, k: nat, third: real)
    requires |f| == |w| && (forall i :: 0 <= i < |w| ==> third < w[i])
    ensures var c := MachineSum(f, Ones(|f|), k);
            && third * c <= MachineSum(f, w, k)
            && (c == 0.0 ==> MachineSum(f, w, k) == 0.0)
            && (c != 0.0 ==> 1.0 <= c && third * c < MachineSum(f, w, k))
            && (c == 0.0 || c == 1.0 || c == 2.0 || 3.0 <= c)
  {
    if |f| > 0 {
      var n := |f| - 1;
      assert Ones(|f|)[..n] == Ones(n);
      CountTimesThird(f[..n], w[..n], k, third);
      var c := MachineSum(f[..n], Ones(n), k);
      assert third * (c + 1.0) == third * c + third;
    }
  }

  /** Counting job `j` twice when it is alone on its machine, once otherwise. */
  ghost function Double(g: seq<nat>): (v: seq<real>)
    ensures |v| == |g|
    ensures forall j :: 0 <= j < |g| ==> v[j] == 1.0 || v[j] == 2.0
  {
    seq(|g|, j requires 0 <= j < |g| => if MachineSum(g, Ones(|g|), g[j]) == 1.0 then 2.0 else 1.0)
  }

  /** A sum in which the jobs of machine `k` all count the same. */
  lemma {:induction false} Uniform(f: seq<nat>, v: seq<real>, k: nat, each: real)
    requires |f| == |v| && forall j :: 0 <= j < |f| && f[j] == k ==> v[j] == each
    ensures MachineSum(f, v, k) == each * MachineSum(f, Ones(|f|), k)
  {
    if |f| > 0 {
      var n := |f| - 1;
      assert Ones(|f|)[..n] == Ones(n);
      Uniform(f[..n], v[..n], k, each);
      var c := MachineSum(f[..n], Ones(n), k);
      assert each * (c + 1.0) == each * c + each;
    }
  }

  /** On a machine with one or two jobs of its own schedule, `Double` adds to two. */
  lemma DoubleIsTwo(g: seq<nat>, k: nat)
    requires var c := MachineSum(g, Ones(|g|), k); c == 1.0 || c == 2.0
    ensures MachineSum(g, Double(g), k) == 2.0
  {
    var c := MachineSum(g, Ones(|g|), k);
    Uniform(g, Double(g), k, if c == 1.0 then 2.0 else 1.0);
  }

  /** Two jobs on one machine are counted as two. */
  lemma {:induction false} CountsPair(f: seq<nat>, i: nat, j: nat)
    requires i < j < |f| && f[i] == f[j]
    ensures 2.0 <= MachineSum(f, Ones(|f|), f[j])
  {
    CarriesTwo(f, Ones(|f|), i, j);
  }

  /** A job that is its machine's only one is the machine's whole sum. */
  lemma {:induction false} OnlyJob(f: seq<nat>, v: seq<real>, j: nat)
    requires |f| == |v| && j < |f| && forall i :: 0 <= i < |f| && i != j ==> f[i] != f[j]
    ensures MachineSum(f, v, f[j]) == v[j]
  {
    var n := |f| - 1;
    if j == n {
      NoJob(f[..n], v[..n], f[j]);
    } else {
      OnlyJob(f[..n], v[..n], j);
    }
  }

  lemma {:induction false} NoJob(f: seq<nat>, v: seq<real>, k: nat)
    requires |f| == |v| && forall i :: 0 <= i < |f| ==> f[i] != k
    ensures MachineSum(f, v, k) == 0.0
  {
    if |f| > 0 { NoJob(f[..|f| - 1], v[..|f| - 1], k); }
  }

  /** Some job runs on a machine that carries anything. */
  lemma {:induction false} SomeJob(f: seq<nat>, v: seq<real>, k: nat) returns (j: nat)
    requires |f| == |v| && MachineSum(f, v, k) != 0.0
    ensures j < |f| && f[j] == k
  {
    var n := |f| - 1;
    if f[n] == k { j := n; } else { j := SomeJob(f[..n], v[..n], k); }
  }

  /** The heart of the LPT bound: if all jobs up to `i` are over a third of `opt`,
      `g` kept below `opt` so far, and some schedule `f` of the same jobs keeps
      below `opt`, then so does `g` once job `i` is on its lightest machine.
      Otherwise every machine of `g` would count two under `Double`, that is
      2m + 1 with job `i`, while no machine of `f` can count more than two. */
  lemma BigJobsFit(g: seq<nat>, f: seq<nat>, w: seq<real>, m: nat, i: nat, opt: real)
    requires m > 0 && |g| == |w| == |f| && i < |g| && Onto(g, m) && Onto(f, m)
    requires NonNegative(w) && Descending(w) && opt / 3.0 < w[i]
    requires PlacedLightest(g, w, m, i) && AtMost(f, w, m, opt)
    requires AtMost(g[..i], w[..i], m, opt)
    ensures MachineSum(g[..i], w[..i], g[i]) + w[i] <= opt
  {
    if opt < MachineSum(g[..i], w[..i], g[i]) + w[i] {
      var v := Double(g[..i]);
      forall k | 0 <= k < m ensures MachineSum(g[..i], v, k) == 2.0 {
        FullMachine(g, f, w, m, i, opt, k);
        DoubleIsTwo(g[..i], k);
      }
      CrowdedMachines(g[..i], v, m, 2.0);
      DoubleCount(g[..i], v, m);
      var v' := v + [1.0];
      assert v'[..i] == v;
      assert Sum(v') == Sum(v) + 1.0;
      var fi := f[..i + 1];
      forall k | 0 <= k < m ensures MachineSum(fi, v', k) <= 2.0 {
        AtMostTwo(g, f, w, m, i, opt, k);
      }
      BoundedMachines(fi, v', m, 2.0);
      DoubleCount(fi, v', m);
      assert false;
    }
  }

  lemma FullMachine(g: seq<nat>, f: seq<nat>, w: seq<real>, m: nat, i: nat, opt: real, k: nat)
    requires m > 0 && |g| == |w| == |f| && i < |g| && Onto(g, m) && Onto(f, m) && k < m
    requires NonNegative(w) && Descending(w) && opt / 3.0 < w[i]
    requires PlacedLightest(g, w, m, i) && AtMost(f, w, m, opt)
    requires AtMost(g[..i], w[..i], m, opt)
    requires opt < MachineSum(g[..i], w[..i], g[i]) + w[i]
    ensures opt < MachineSum(g[..i], w[..i], k) + w[i]
    ensures var c := MachineSum(g[..i], Ones(i), k); c == 1.0 || c == 2.0
  {
    CarriesJob(f, w, i);
    assert w[i] <= opt;
    assert opt < MachineSum(g[..i], w[..i], k) + w[i];
    CountTimesThird(g[..i], w[..i], k, opt / 3.0);
    var c := MachineSum(g[..i], Ones(i), k);
    if 3.0 <= c {
      assert opt / 3.0 * 3.0 <= opt / 3.0 * c;
    }
  }

  lemma AtMostTwo(g: seq<nat>, f: seq<nat>, w: seq<real>, m: nat, i: nat, opt: real, k: nat)
    requires m > 0 && |g| == |w| == |f| && i < |g| && Onto(g, m) && Onto(f, m) && k < m
    requires NonNegative(w) && Descending(w) && opt / 3.0 < w[i]
    requires PlacedLightest(g, w, m, i) && AtMost(f, w, m, opt)
    requires AtMost(g[..i], w[..i], m, opt)
    requires opt < MachineSum(g[..i], w[..i], g[i]) + w[i]
    ensures MachineSum(f[..i + 1], Double(g[..i]) + [1.0], k) <= 2.0
  {
    var v := Double(g[..i]) + [1.0];
    if j :| 0 <= j < i && f[j] == k && v[j] == 2.0 {
      FullMachine(g, f, w, m, i, opt, g[j]);
      AloneInBoth(g, f, w, m, i, opt, j);
      OnlyJob(f[..i + 1], v, j);
    } else {
      TwoBigJobs(f, w, m, i, opt, k);
      Uniform(f[..i + 1], v, k, 1.0);
    }
  }

  /** A job alone on a machine of `g` too full for job `i` is alone in `f` as well. */
  lemma AloneInBoth(g: seq<nat>, f: seq<nat>, w: seq<real>, m: nat, i: nat, opt: real, j: nat)
    requires |g| == |w| == |f| && j < i < |g| && Onto(f, m)
    requires NonNegative(w) && Descending(w) && AtMost(f, w, m, opt)
    requires opt < MachineSum(g[..i], w[..i], g[j]) + w[i]
    requires MachineSum(g[..i], Ones(i), g[j]) == 1.0
    ensures forall q :: 0 <= q < i + 1 && q != j ==> f[q] != f[j]
  {
    forall q | 0 <= q < i && q != j ensures g[q] != g[j] {
      if g[q] == g[j] {
        CountsPair(g[..i], if q < j then q else j, if q < j then j else q);
      }
    }
    OnlyJob(g[..i], w[..i], j);
    forall q | 0 <= q < i + 1 && q != j ensures f[q] != f[j] {
      if f[q] == f[j] {
        CarriesTwo(f, w, if q < j then q else j, if q < j then j else q);
      }
    }
  }

  /** Jobs over a third of `opt`: at most two of them on a machine below `opt`. */
  lemma TwoBigJobs(f: seq<nat>, w: seq<real>, m: nat, i: nat, opt: real, k: nat)
    requires |w| == |f| && i < |f| && k < m
    requires NonNegative(w) && Descending(w) && opt / 3.0 < w[i] && AtMost(f, w, m, opt)
    ensures MachineSum(f[..i + 1], Ones(i + 1), k) <= 2.0
  {
    Shorter(f, w, i + 1, k);
    var third := opt / 3.0;
    CountTimesThird(f[..i + 1], w[..i + 1], k, third);
    MachineSumNonNegative(f, w, k);
    var c := MachineSum(f[..i + 1], Ones(i + 1), k);
    assert |f[..i + 1]| == i + 1;
    FewThirds(third, c, MachineSum(f[..i + 1], w[..i + 1], k), opt);
  }

  lemma FewThirds(third: real, count: real, load: real, opt: real)
    requires opt == 3.0 * third && 0.0 <= third && load <= opt
    requires count == 0.0 || count == 1.0 || count == 2.0 || (3.0 <= count && third * count < load)
    ensures count <= 2.0
  {
    if 3.0 <= count {
      ScaleLe(third, 3.0, count);
    }
  }

  lemma ScaleLe(a: real, x: real, y: real)
    requires 0.0 <= a && x <= y
    ensures a * x <= a * y
  {
  }

  // ---- the two bounds ----

  /** (4/3 - 1/(3m)) times the best: what LPT promises. */
  ghost function LptLimit(m: nat, opt: real): real
    requires m > 0
  {
    (4.0 / 3.0 - 1.0 / (3.0 * m as real)) * opt
  }

  /** (2 - 1/m) times the best: what any list schedule promises. */
  ghost function GrahamLimit(m: nat, opt: real): real
    requires m > 0
  {
    (2.0 - 1.0 / m as real) * opt
  }

  lemma ScaleLtBack(a: real, x: real, y: real)
    requires 0.0 < a && a * x <= a * y
    ensures x <= y
  {
  }

  lemma LimitsScaled(m: nat, opt: real)
    requires m > 0
    ensures m as real * (3.0 * LptLimit(m, opt)) == (4.0 * m as real - 1.0) * opt
    ensures m as real * GrahamLimit(m, opt) == (2.0 * m as real - 1.0) * opt
  {
    var r := m as real;
    assert r * (1.0 / r) == 1.0;
    assert 1.0 / (3.0 * r) == (1.0 / r) / 3.0;
    assert r * (3.0 * (4.0 / 3.0 - 1.0 / (3.0 * r))) == 4.0 * r - 1.0;
    assert r * (2.0 - 1.0 / r) == 2.0 * r - 1.0;
  }

  lemma LimitsCoverOpt(m: nat, opt: real)
    requires m > 0 && 0.0 <= opt
    ensures opt <= LptLimit(m, opt) && opt <= GrahamLimit(m, opt)
  {
    var r := m as real;
    LimitsScaled(m, opt);
    ScaleLe(r - 1.0, 0.0, opt);
    assert r * (3.0 * opt) <= (4.0 * r - 1.0) * opt;
    assert r * opt <= (2.0 * r - 1.0) * opt;
    ScaleLtBack(r, 3.0 * opt, 3.0 * LptLimit(m, opt));
    ScaleLtBack(r, opt, GrahamLimit(m, opt));
  }

  lemma AveragingStep(m: nat, load: real, job: real, opt: real)
    requires m > 0 && job <= opt
    requires m as real * load <= m as real * opt + (m as real - 1.0) * job
    ensures load <= GrahamLimit(m, opt)
    ensures job <= opt / 3.0 ==> load <= LptLimit(m, opt)
  {
    var r := m as real;
    LimitsScaled(m, opt);
    ScaleLe(r - 1.0, job, opt);
    ScaleLtBack(r, load, GrahamLimit(m, opt));
    if job <= opt / 3.0 {
      ScaleLe(r - 1.0, job, opt / 3.0);
      assert 3.0 * ((r - 1.0) * (opt / 3.0)) == (r - 1.0) * opt;
      assert r * (3.0 * load) == 3.0 * (r * load);
      ScaleLtBack(r, 3.0 * load, 3.0 * LptLimit(m, opt));
    }
  }

  /** What one placement does, whichever bound is being kept. */
  lemma PlacementStep(g: seq<nat>, f: seq<nat>, w: seq<real>, m: nat, opt: real, j: nat)
    requires m > 0 && |g| == |w| == |f| && Onto(g, m) && Onto(f, m) && j < |g|
    requires NonNegative(w) && AtMost(f, w, m, opt) && PlacedLightest(g, w, m, j)
    ensures var load := MachineSum(g[..j], w[..j], g[j]) + w[j];
            && load <= GrahamLimit(m, opt)
            && (w[j] <= opt / 3.0 ==> load <= LptLimit(m, opt))
  {
    LightestPlusJob(g, f, w, m, j, opt);
    CarriesJob(f, w, j);
    AveragingStep(m, MachineSum(g[..j], w[..j], g[j]) + w[j], w[j], opt);
  }

  /** LPT: no machine of a descending list schedule exceeds (4/3 - 1/(3m)) times
      what any other schedule of the same jobs reaches. */
  lemma {:induction false} LptBound(g: seq<nat>, f: seq<nat>, w: seq<real>, m: nat, opt: real, limit: real, i: nat)
    requires m > 0 && ListSchedule(g, w, m, 0) && |f| == |w| && Onto(f, m)
    requires NonNegative(w) && Descending(w) && AtMost(f, w, m, opt) && i <= |g|
    requires limit == LptLimit(m, opt)
    ensures AtMost(g[..i], w[..i], m, limit)
    ensures i == 0 || opt / 3.0 < w[i - 1] ==> AtMost(g[..i], w[..i], m, opt)
  {
    MachineSumNonNegative(f, w, 0);
    LimitsCoverOpt(m, opt);
    if i > 0 {
      var j := i - 1;
      LptBound(g, f, w, m, opt, limit, j);
      assert g[..i][..j] == g[..j] && w[..i][..j] == w[..j];
      assert PlacedLightest(g, w, m, j);
      PlacementStep(g, f, w, m, opt, j);
      if opt / 3.0 < w[j] {
        BigJobsFit(g, f, w, m, j, opt);
      }
    }
  }

  /** Any list schedule, whatever its first `p` jobs: (2 - 1/m) times any other. */
  lemma {:induction false} GrahamBound(g: seq<nat>, f: seq<nat>, w: seq<real>, m: nat, p: nat,
                                       opt: real, limit: real, i: nat)
    requires m > 0 && ListSchedule(g, w, m, p) && |f| == |w| && Onto(f, m)
    requires NonNegative(w) && AtMost(f, w, m, opt) && p <= i <= |g|
    requires AtMost(g[..p], w[..p], m, opt) && limit == GrahamLimit(m, opt)
    ensures AtMost(g[..i], w[..i], m, limit)
  {
    MachineSumNonNegative(f, w, 0);
    LimitsCoverOpt(m, opt);
    if i > p {
      var j := i - 1;
      GrahamBound(g, f, w, m, p, opt, limit, j);
      assert g[..i][..j] == g[..j] && w[..i][..j] == w[..j];
      assert PlacedLightest(g, w, m, j);
      PlacementStep(g, f, w, m, opt, j);
    }
  }

  /** List scheduling keeps all machines within one job of each other. */
  lemma {:induction false} SpreadBound(g: seq<nat>, w: seq<real>, m: nat, p: nat, top: real, i: nat, a: nat, b: nat)
    requires m > 0 && ListSchedule(g, w, m, p) && NonNegative(w) && p <= i <= |g| && a < m && b < m
    requires forall j :: 0 <= j < |w| ==> w[j] <= top
    requires forall k, l :: 0 <= k < m && 0 <= l < m ==>
      MachineSum(g[..p], w[..p], k) <= MachineSum(g[..p], w[..p], l) + top
    ensures MachineSum(g[..i], w[..i], a) <= MachineSum(g[..i], w[..i], b) + top
  {
    if i > p {
      var j := i - 1;
      SpreadBound(g, w, m, p, top, j, a, b);
      assert g[..i][..j] == g[..j] && w[..i][..j] == w[..j];
      assert PlacedLightest(g, w, m, j);
    }
  }

  // ---- the bounds for complete schedules ----

  lemma WholeSchedule(g: seq<nat>, w: seq<real>)
    requires |g| == |w|
    ensures g[..|g|] == g && w[..|g|] == w
  {
  }

  lemma LptWhole(g: seq<nat>, f: seq<nat>, w: seq<real>, m: nat, opt: real, k: nat)
    requires m > 0 && ListSchedule(g, w, m, 0) && |f| == |w| && Onto(f, m)
    requires NonNegative(w) && Descending(w) && AtMost(f, w, m, opt) && k < m
    ensures MachineSum(g, w, k) <= LptLimit(m, opt)
  {
    LptBound(g, f, w, m, opt, LptLimit(m, opt), |g|);
    WholeSchedule(g, w);
  }

  lemma GrahamWhole(g: seq<nat>, f: seq<nat>, w: seq<real>, m: nat, p: nat, opt: real, k: nat)
    requires m > 0 && ListSchedule(g, w, m, p) && |f| == |w| && Onto(f, m)
    requires NonNegative(w) && AtMost(f, w, m, opt) && k < m
    requires AtMost(g[..p], w[..p], m, opt)
    ensures MachineSum(g, w, k) <= GrahamLimit(m, opt)
  {
    GrahamBound(g, f, w, m, p, opt, GrahamLimit(m, opt), |g|);
    WholeSchedule(g, w);
  }

  lemma SpreadWhole(g: seq<nat>, w: seq<real>, m: nat, p: nat, top: real, a: nat, b: nat)
    requires m > 0 && ListSchedule(g, w, m, p) && NonNegative(w) && a < m && b < m
    requires forall j :: 0 <= j < |w| ==> w[j] <= top
    requires forall k :: 0 <= k < m ==> 0.0 <= MachineSum(g[..p], w[..p], k) <= top
    ensures MachineSum(g, w, a) <= MachineSum(g, w, b) + top
  {
    SpreadBound(g, w, m, p, top, |g|, a, b);
    WholeSchedule(g, w);
  }
}
