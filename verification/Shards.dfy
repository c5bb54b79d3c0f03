/** Duration-balanced CI shards (scripts/ci/backend-shard-files.py): two pinned
    files first, then longest-processing-time placement on the lightest shard.
    Durations are reals; float rounding is not modelled. */
module Shards {
  import opened Order
  import opened ListScheduling

  /** A test file, by its path under the backend. */
  datatype Path = Path(name: string)

  const DISTINCT_RESOURCE_FILES: Pins := [
    Path("engine/tests/test_analysis_pipeline.py"),
    Path("reviews/tests/test_hardening.py")
  ]

  /** Two different files to keep apart; every result below holds for any two. */
  type Pins = pins: seq<Path> | |pins| == 2 && pins[0] != pins[1] witness [Path("a"), Path("b")]

  type Durations = map<Path, real>

  /** The recorded durations, and what a file without one counts as. */
  datatype Weights = Weights(recorded: Durations, standard: real)

  /** What `assign` returns, or the exception it raises. */
  datatype Outcome = Groups(groups: seq<seq<Path>>) | Rejected

  ghost predicate Recorded(weights: Weights) {
    0.0 <= weights.standard && forall p :: p in weights.recorded ==> 0.0 <= weights.recorded[p]
  }

  // ---- weights ----

  function PathLe(a: Path, b: Path): bool { LexLe(a.name, b.name) }

  lemma PathTotal()
    ensures Total(PathLe)
  {
    LexTotal();
    forall a: Path, b: Path | PathLe(a, b) && PathLe(b, a) ensures a == b {
      LexAntisymmetric(a.name, b.name);
    }
    forall a: Path, b: Path, c: Path | PathLe(a, b) && PathLe(b, c) ensures PathLe(a, c) {
      LexTransitive(a.name, b.name, c.name);
    }
  }

  function RealLe(a: real, b: real): bool { a <= b }

  function Recordings(recorded: Durations, keys: seq<Path>): (r: seq<real>)
    requires forall k :: k in keys ==> k in recorded
    ensures |r| == |keys| && forall i :: 0 <= i < |r| ==> r[i] == recorded[keys[i]]
  {
    seq(|keys|, i requires 0 <= i < |keys| => recorded[keys[i]])
  }

  function Median(sorted: seq<real>): real
    requires sorted != []
  {
    var n := |sorted|;
    if n % 2 == 1 then sorted[n / 2] else (sorted[n / 2 - 1] + sorted[n / 2]) / 2.0
  }

  /** The median of the recorded durations; 1 when there are none. */
  function DefaultWeight(recorded: Durations): real {
    if recorded == map[] then 1.0
    else
      PathTotal();
      assert recorded.Keys != {};
      var values := Recordings(recorded, SortSet(recorded.Keys, PathLe));
      SortKeeps(values, RealLe);
      Median(SortSeq(values, RealLe))
  }

  /** Durations recorded as non-negative give a non-negative stand-in. */
  lemma DefaultNonNegative(recorded: Durations)
    requires forall p :: p in recorded ==> 0.0 <= recorded[p]
    ensures Recorded(WeightsFrom(recorded))
  {
    if recorded != map[] {
      PathTotal();
      assert recorded.Keys != {};
      var values := Recordings(recorded, SortSet(recorded.Keys, PathLe));
      var sorted := SortSeq(values, RealLe);
      SortKeeps(values, RealLe);
      forall i | 0 <= i < |sorted| ensures 0.0 <= sorted[i] {
        assert sorted[i] in multiset(sorted);
        assert sorted[i] in values;
      }
    }
  }

  // ---- the median, without sorting ----

  /** How many of the values are at most `x`. */
  function LowCount(values: seq<real>, x: real): nat {
    if values == [] then 0 else (if values[0] <= x then 1 else 0) + LowCount(values[1..], x)
  }

  function HighCount(values: seq<real>, x: real): nat {
    if values == [] then 0 else (if values[0] >= x then 1 else 0) + HighCount(values[1..], x)
  }

  /** At least half of the values are on either side. */
  ghost predicate IsMiddle(values: seq<real>, x: real) {
    2 * LowCount(values, x) >= |values| && 2 * HighCount(values, x) >= |values|
  }

  /** Halfway between the least and the greatest number with at least half of the values on either side. */
  ghost predicate IsMedian(values: seq<real>, m: real) {
    exists low, high ::
      && IsMiddle(values, low) && IsMiddle(values, high) && m == (low + high) / 2.0
      && forall x :: IsMiddle(values, x) ==> low <= x <= high
  }

  lemma {:induction false} InsertCounts(y: real, s: seq<real>, x: real)
    ensures LowCount(Insert(y, s, RealLe), x) == LowCount([y] + s, x)
    ensures HighCount(Insert(y, s, RealLe), x) == HighCount([y] + s, x)
  {
    assert ([y] + s)[1..] == s;
    if s != [] && !RealLe(y, s[0]) {
      InsertCounts(y, s[1..], x);
      assert ([y] + s[1..])[1..] == s[1..];
      assert ([s[0]] + Insert(y, s[1..], RealLe))[1..] == Insert(y, s[1..], RealLe);
    }
  }

  lemma {:induction false} SortCounts(s: seq<real>, x: real)
    ensures LowCount(SortSeq(s, RealLe), x) == LowCount(s, x) && HighCount(SortSeq(s, RealLe), x) == HighCount(s, x)
  {
    if s != [] {
      SortCounts(s[1..], x);
      InsertCounts(s[0], SortSeq(s[1..], RealLe), x);
      assert ([s[0]] + SortSeq(s[1..], RealLe))[1..] == SortSeq(s[1..], RealLe);
    }
  }

  ghost predicate Rising(s: seq<real>) { forall i, j :: 0 <= i <= j < |s| ==> s[i] <= s[j] }

  /** In a sorted list the first `n` values that are at most `x` are all of them. */
  lemma {:induction false} CountedInOrder(s: seq<real>, x: real, n: nat)
    requires Rising(s) && n <= |s|
    ensures (n > 0 ==> s[n - 1] <= x) ==> LowCount(s, x) >= n
    ensures (n < |s| ==> x < s[n]) ==> LowCount(s, x) <= n
    ensures (n < |s| ==> x <= s[n]) ==> HighCount(s, x) >= |s| - n
    ensures (n > 0 ==> s[n - 1] < x) ==> HighCount(s, x) <= |s| - n
    decreases |s|
  {
    if s != [] {
      if n == 0 {
        CountedInOrder(s[1..], x, 0);
        if |s| > 1 { assert s[0] <= s[1]; }
      } else {
        assert n > 1 ==> s[1..][n - 2] == s[n - 1];
        CountedInOrder(s[1..], x, n - 1);
      }
    }
  }

  lemma MedianOfSorted(s: seq<real>)
    requires Rising(s) && s != []
    ensures IsMedian(s, Median(s))
  {
    var n := |s|;
    var low, high := s[(n - 1) / 2], s[n / 2];
    MiddleOfSorted(s);
    assert Median(s) == (low + high) / 2.0;
    forall x | IsMiddle(s, x) ensures low <= x <= high {
      NotMiddle(s, x);
    }
  }

  lemma MiddleOfSorted(s: seq<real>)
    requires Rising(s) && s != []
    ensures IsMiddle(s, s[(|s| - 1) / 2]) && IsMiddle(s, s[|s| / 2])
  {
    var n := |s|;
    CountedInOrder(s, s[(n - 1) / 2], (n - 1) / 2 + 1);
    CountedInOrder(s, s[(n - 1) / 2], (n - 1) / 2);
    CountedInOrder(s, s[n / 2], n / 2 + 1);
    CountedInOrder(s, s[n / 2], n / 2);
  }

  lemma NotMiddle(s: seq<real>, x: real)
    requires Rising(s) && s != [] && IsMiddle(s, x)
    ensures s[(|s| - 1) / 2] <= x <= s[|s| / 2]
  {
    var n := |s|;
    CountedInOrder(s, x, (n - 1) / 2);
    CountedInOrder(s, x, n / 2 + 1);
  }

  /** The recorded durations, one a file. */
  ghost predicate Lists(values: seq<real>, recorded: Durations) {
    exists files: seq<Path> ::
      Distinct(files) && (forall p :: p in files <==> p in recorded) && |values| == |files|
      && forall i :: 0 <= i < |files| ==> values[i] == recorded[files[i]]
  }

  /** A file without a recorded duration counts with the median of the others; with 1 if there are none. */
  lemma DefaultIsMedian(recorded: Durations) returns (values: seq<real>)
    ensures recorded == map[] ==> DefaultWeight(recorded) == 1.0
    ensures recorded != map[] ==> Lists(values, recorded) && IsMedian(values, DefaultWeight(recorded))
  {
    values := [];
    if recorded != map[] {
      PathTotal();
      assert recorded.Keys != {};
      var files := SortSet(recorded.Keys, PathLe);
      SortSetSorted(recorded.Keys, PathLe);
      values := Recordings(recorded, files);
      assert Distinct(files);
      var sorted := SortSeq(values, RealLe);
      SortKeeps(values, RealLe);
      SortSorted(values, RealLe);
      SortedRises(sorted);
      MedianOfSorted(sorted);
      SameMedian(values, sorted, Median(sorted));
    }
  }

  lemma SortedRises(s: seq<real>)
    requires Sorted(s, RealLe)
    ensures Rising(s)
  {
    forall i, j | 0 <= i <= j < |s| ensures s[i] <= s[j] {
      assert i == j || RealLe(s[i], s[j]);
    }
  }

  lemma SameMedian(values: seq<real>, sorted: seq<real>, m: real)
    requires sorted == SortSeq(values, RealLe) && |sorted| == |values| && IsMedian(sorted, m)
    ensures IsMedian(values, m)
  {
    forall x ensures IsMiddle(values, x) <==> IsMiddle(sorted, x) {
      SortCounts(values, x);
    }
  }

  function WeightsFrom(recorded: Durations): Weights { Weights(recorded, DefaultWeight(recorded)) }

  function Weight(path: Path, weights: Weights): real {
    if path in weights.recorded then weights.recorded[path] else weights.standard
  }

  function Load(group: seq<Path>, weights: Weights): real {
    if |group| == 0 then 0.0
    else Load(group[..|group| - 1], weights) + Weight(group[|group| - 1], weights)
  }

  /** The sort key `(-weight, path)`. */
  function Before(weights: Weights): (Path, Path) -> bool {
    (a, b) => Weight(a, weights) > Weight(b, weights)
              || (Weight(a, weights) == Weight(b, weights) && PathLe(a, b))
  }

  lemma BeforeTotal(weights: Weights)
    ensures Total(Before(weights))
  {
    PathTotal();
    var le := Before(weights);
    forall a, b, c | le(a, b) && le(b, c) ensures le(a, c) {
      if Weight(a, weights) == Weight(b, weights) == Weight(c, weights) {
        assert PathLe(a, b) && PathLe(b, c);
      }
    }
  }

  // ---- placement ----

  /** `loads.index(min(loads))`. */
  function Lightest(loads: seq<real>): (k: nat)
    requires loads != []
    ensures k < |loads|
    ensures forall j :: 0 <= j < |loads| ==> loads[k] <= loads[j]
    ensures forall j :: 0 <= j < k ==> loads[k] < loads[j]
  {
    var n := |loads| - 1;
    if n == 0 then 0
    else
      var k := Lightest(loads[..n]);
      if loads[n] < loads[k] then n else k
  }

  /** `index % count`. */
  function Target(index: nat, count: nat): (t: nat)
    requires count > 0
    ensures t < count
  {
    if index < count then index else Target(index - count, count)
  }

  lemma TargetIsModulo(index: nat, count: nat)
    requires count > 0 && index < 2
    ensures Target(index, count) == index % count
  {
  }

  function Put(bins: seq<seq<Path>>, k: nat, path: Path): (r: seq<seq<Path>>)
    requires k < |bins|
    ensures |r| == |bins|
  {
    bins[k := bins[k] + [path]]
  }

  function Empty(count: nat): (bins: seq<seq<Path>>)
    ensures |bins| == count && forall k :: 0 <= k < count ==> bins[k] == []
  {
    if count == 0 then [] else Empty(count - 1) + [[]]
  }

  /** The shards after putting each of `jobs`, in order, on its machine. */
  function Build(jobs: seq<Path>, g: seq<nat>, count: nat): (bins: seq<seq<Path>>)
    requires |jobs| == |g| && Onto(g, count)
    ensures |bins| == count
  {
    if |jobs| == 0 then Empty(count)
    else
      var n := |jobs| - 1;
      Put(Build(jobs[..n], g[..n], count), g[n], jobs[n])
  }

  /** `loads` holds what each of `bins` takes. */
  ghost predicate Tallies(loads: seq<real>, bins: seq<seq<Path>>, weights: Weights) {
    |loads| == |bins| && forall k :: 0 <= k < |loads| ==> loads[k] == Load(bins[k], weights)
  }

  lemma TalliesUnique(loads: seq<real>, bins: seq<seq<Path>>, weights: Weights)
    requires Tallies(loads, bins, weights)
    ensures loads == Loads(bins, weights)
  {
  }

  function Loads(bins: seq<seq<Path>>, weights: Weights): (r: seq<real>)
    ensures |r| == |bins| && forall k :: 0 <= k < |r| ==> r[k] == Load(bins[k], weights)
  {
    if bins == [] then [] else Loads(bins[..|bins| - 1], weights) + [Load(bins[|bins| - 1], weights)]
  }

  /** The pinned files among the first `i` that are there at all, and their shards. */
  function PinJobs(pins: seq<Path>, files: set<Path>, i: nat): seq<Path>
    requires i <= |pins|
  {
    if i == 0 then []
    else PinJobs(pins, files, i - 1) + if pins[i - 1] in files then [pins[i - 1]] else []
  }

  function PinTargets(pins: seq<Path>, files: set<Path>, count: nat, i: nat): (g: seq<nat>)
    requires count > 0 && i <= |pins|
    ensures |g| == |PinJobs(pins, files, i)| && Onto(g, count)
  {
    if i == 0 then []
    else PinTargets(pins, files, count, i - 1)
         + if pins[i - 1] in files then [Target(i - 1, count)] else []
  }

  /** The machines when each of `todo` in turn goes to the lightest shard. */
  function Greedy(jobs: seq<Path>, g: seq<nat>, todo: seq<Path>, count: nat, weights: Weights): (r: seq<nat>)
    requires count > 0 && |jobs| == |g| && Onto(g, count)
    ensures |r| == |jobs| + |todo| && Onto(r, count)
  {
    if |todo| == 0 then g
    else
      var n := |todo| - 1;
      var r := Greedy(jobs, g, todo[..n], count, weights);
      r + [Lightest(Loads(Build(jobs + todo[..n], r, count), weights))]
  }

  /** The files left over after the pinned ones, heaviest first. */
  function WorkOrder(pins: Pins, files: set<Path>, weights: Weights): (r: seq<Path>)
    ensures forall x :: x in r <==> x in files - {pins[0], pins[1]}
    ensures Distinct(r) && Sorted(r, Before(weights))
  {
    BeforeTotal(weights);
    SortSetSorted(files - {pins[0], pins[1]}, Before(weights));
    SortSet(files - {pins[0], pins[1]}, Before(weights))
  }

  /** All files in the order they are placed, and the shard each goes to. */
  function Jobs(pins: Pins, files: set<Path>, weights: Weights): seq<Path> {
    PinJobs(pins, files, |pins|) + WorkOrder(pins, files, weights)
  }

  function Machines(pins: Pins, files: set<Path>, count: nat, weights: Weights): (g: seq<nat>)
    requires count > 0
    ensures |g| == |Jobs(pins, files, weights)| && Onto(g, count)
  {
    Greedy(PinJobs(pins, files, |pins|), PinTargets(pins, files, count, |pins|),
           WorkOrder(pins, files, weights), count, weights)
  }

  function SortGroups(bins: seq<seq<Path>>): (r: seq<seq<Path>>)
    ensures |r| == |bins| && forall k :: 0 <= k < |r| ==> r[k] == SortSeq(bins[k], PathLe)
  {
    seq(|bins|, k requires 0 <= k < |bins| => SortSeq(bins[k], PathLe))
  }

  /** The shards `assign` answers with. */
  function ShardsOf(pins: Pins, files: set<Path>, count: nat, weights: Weights): (r: seq<seq<Path>>)
    requires count > 0
    ensures |r| == count
  {
    SortGroups(Build(Jobs(pins, files, weights), Machines(pins, files, count, weights), count))
  }

  method Assign(pins: Pins, files: seq<Path>, count: int, recorded: Durations) returns (r: Outcome)
    ensures count <= 0 ==> r == if files == [] then Groups([]) else Rejected
    ensures count > 0 ==> r == Groups(ShardsOf(pins, (set p | p in files), count, WeightsFrom(recorded)))
  {
    var weights := WeightsFrom(recorded);
    if count <= 0 {
      return if files == [] then Groups([]) else Rejected;
    }
    ghost var all := set p | p in files;
    var bins, loads, remaining := PlacePinned(pins, (set p | p in files), count, weights);
    UnpinnedIs(pins, all);
    BeforeTotal(weights);
    var order := SortSet(remaining, Before(weights));
    bins := PlaceRest(order, bins, loads, weights,
                      PinJobs(pins, all, |pins|), PinTargets(pins, all, count, |pins|));
    r := Groups(SortGroups(bins));
  }

  /** The first loop: each pinned file that is there goes to its own shard. */
  method PlacePinned(pins: seq<Path>, files: set<Path>, count: nat, weights: Weights)
    returns (bins: seq<seq<Path>>, loads: seq<real>, remaining: set<Path>)
    requires count > 0 && Distinct(pins)
    ensures remaining == Unpinned(pins, files, |pins|)
    ensures bins == Build(PinJobs(pins, files, |pins|), PinTargets(pins, files, count, |pins|), count)
    ensures Tallies(loads, bins, weights)
  {
    bins, loads, remaining := Empty(count), Loads(Empty(count), weights), files;
    var index := 0;
    while index < |pins|
      invariant 0 <= index <= |pins| && |bins| == count
      invariant PinnedSoFar(bins, remaining, pins, files, count, index)
      invariant Tallies(loads, bins, weights)
    {
      var path := pins[index];
      PinNext(bins, remaining, pins, files, count, index);
      if path in remaining {
        var target := Target(index, count);
        TallyMore(loads, bins, target, path, weights);
        bins := bins[target := bins[target] + [path]];
        loads := loads[target := loads[target] + Weight(path, weights)];
        remaining := remaining - {path};
      }
      index := index + 1;
    }
  }

  /** The first `i` pinned files have been looked at. */
  ghost predicate PinnedSoFar(bins: seq<seq<Path>>, remaining: set<Path>, pins: seq<Path>, files: set<Path>,
                              count: nat, i: nat)
    requires count > 0 && i <= |pins|
  {
    && bins == Build(PinJobs(pins, files, i), PinTargets(pins, files, count, i), count)
    && remaining == Unpinned(pins, files, i)
  }

  lemma PinNext(bins: seq<seq<Path>>, remaining: set<Path>, pins: seq<Path>, files: set<Path>, count: nat, i: nat)
    requires count > 0 && i < |pins| && Distinct(pins) && PinnedSoFar(bins, remaining, pins, files, count, i)
    ensures |bins| == count && Target(i, count) < count
    ensures pins[i] in remaining ==>
              PinnedSoFar(bins[Target(i, count) := bins[Target(i, count)] + [pins[i]]], remaining - {pins[i]},
                          pins, files, count, i + 1)
    ensures pins[i] !in remaining ==> PinnedSoFar(bins, remaining, pins, files, count, i + 1)
  {
    UnpinnedHas(pins, files, i, i);
    PinStep(pins, files, count, i);
  }

  /** What `remaining` holds once the first `i` pinned files were looked at. */
  function Unpinned(pins: seq<Path>, files: set<Path>, i: nat): set<Path>
    requires i <= |pins|
  {
    if i == 0 then files else Unpinned(pins, files, i - 1) - {pins[i - 1]}
  }

  lemma UnpinnedIs(pins: Pins, files: set<Path>)
    ensures Unpinned(pins, files, |pins|) == files - {pins[0], pins[1]}
  {
    assert Unpinned(pins, files, 1) == files - {pins[0]};
  }

  lemma {:induction false} UnpinnedHas(pins: seq<Path>, files: set<Path>, i: nat, j: nat)
    requires Distinct(pins) && i <= j < |pins|
    ensures pins[j] in Unpinned(pins, files, i) <==> pins[j] in files
  {
    if i > 0 { UnpinnedHas(pins, files, i - 1, j); }
  }

  /** The pinned part, one file further: a missing file changes nothing. */
  lemma PinStep(pins: seq<Path>, files: set<Path>, count: nat, i: nat)
    requires count > 0 && i < |pins|
    ensures var bins := Build(PinJobs(pins, files, i), PinTargets(pins, files, count, i), count);
            var next := Build(PinJobs(pins, files, i + 1), PinTargets(pins, files, count, i + 1), count);
            var t := Target(i, count);
            && (pins[i] in files ==> next == bins[t := bins[t] + [pins[i]]])
            && (pins[i] !in files ==> next == bins)
  {
    var jobs, g := PinJobs(pins, files, i), PinTargets(pins, files, count, i);
    if pins[i] in files {
      BuildMore(jobs, g, pins[i], Target(i, count), count);
    } else {
      assert PinJobs(pins, files, i + 1) == jobs;
      assert PinTargets(pins, files, count, i + 1) == g;
    }
  }

  /** The second loop: every other file, heaviest first, to the lightest shard. */
  method PlaceRest(order: seq<Path>, pinned: seq<seq<Path>>, pinnedLoads: seq<real>, weights: Weights,
                   ghost jobs: seq<Path>, ghost targets: seq<nat>)
    returns (bins: seq<seq<Path>>)
    requires pinned != [] && |jobs| == |targets| && Onto(targets, |pinned|)
    requires pinned == Build(jobs, targets, |pinned|) && Tallies(pinnedLoads, pinned, weights)
    ensures bins == Build(jobs + order, Greedy(jobs, targets, order, |pinned|, weights), |pinned|)
  {
    ghost var count := |pinned|;
    bins := pinned;
    var loads := pinnedLoads;
    ghost var done, g := jobs, targets;
    var i := 0;
    while i < |order|
      invariant 0 <= i <= |order|
      invariant done == jobs + order[..i] && g == Greedy(jobs, targets, order[..i], count, weights)
      invariant bins == Build(done, g, count) && Tallies(loads, bins, weights)
    {
      var path := order[i];
      TalliesUnique(loads, bins, weights);
      var target := Lightest(loads);
      GreedyNext(jobs, targets, order, i, count, weights);
      BuildMore(done, g, path, target, count);
      TallyMore(loads, bins, target, path, weights);
      bins := bins[target := bins[target] + [path]];
      loads := loads[target := loads[target] + Weight(path, weights)];
      done, g := done + [path], g + [target];
      i := i + 1;
    }
    assert order[..i] == order;
  }

  lemma GreedyNext(jobs: seq<Path>, g: seq<nat>, todo: seq<Path>, i: nat, count: nat, weights: Weights)
    requires count > 0 && |jobs| == |g| && Onto(g, count) && i < |todo|
    ensures jobs + todo[..i + 1] == (jobs + todo[..i]) + [todo[i]]
    ensures var r := Greedy(jobs, g, todo[..i], count, weights);
            Greedy(jobs, g, todo[..i + 1], count, weights)
            == r + [Lightest(Loads(Build(jobs + todo[..i], r, count), weights))]
  {
    assert todo[..i + 1][..i] == todo[..i];
  }

  lemma BuildMore(jobs: seq<Path>, g: seq<nat>, path: Path, k: nat, count: nat)
    requires |jobs| == |g| && Onto(g, count) && k < count
    ensures Build(jobs + [path], g + [k], count) == Put(Build(jobs, g, count), k, path)
  {
  }

  lemma TallyMore(loads: seq<real>, bins: seq<seq<Path>>, k: nat, path: Path, weights: Weights)
    requires Tallies(loads, bins, weights) && k < |bins|
    ensures Tallies(loads[k := loads[k] + Weight(path, weights)], bins[k := bins[k] + [path]], weights)
  {
  }

  lemma LoadMore(group: seq<Path>, path: Path, weights: Weights)
    ensures Load(group + [path], weights) == Load(group, weights) + Weight(path, weights)
  {
  }

  // ---- every file lands in exactly one place ----

  ghost function Flatten(bins: seq<seq<Path>>): multiset<Path> {
    if |bins| == 0 then multiset{}
    else Flatten(bins[..|bins| - 1]) + multiset(bins[|bins| - 1])
  }

  lemma {:induction false} FlattenPut(bins: seq<seq<Path>>, k: nat, path: Path)
    requires k < |bins|
    ensures Flatten(Put(bins, k, path)) == Flatten(bins) + multiset{path}
  {
    var n := |bins| - 1;
    if k < n {
      FlattenPut(bins[..n], k, path);
      assert Put(bins, k, path)[..n] == Put(bins[..n], k, path);
    } else {
      assert Put(bins, k, path)[..n] == bins[..n];
    }
  }

  lemma {:induction false} FlattenEmpty(bins: seq<seq<Path>>)
    requires forall k :: 0 <= k < |bins| ==> bins[k] == []
    ensures Flatten(bins) == multiset{}
  {
    if |bins| > 0 { FlattenEmpty(bins[..|bins| - 1]); }
  }

  lemma {:induction false} FlattenBuild(jobs: seq<Path>, g: seq<nat>, count: nat)
    requires |jobs| == |g| && Onto(g, count)
    ensures Flatten(Build(jobs, g, count)) == multiset(jobs)
  {
    if |jobs| == 0 {
      FlattenEmpty(Build(jobs, g, count));
    } else {
      var n := |jobs| - 1;
      FlattenBuild(jobs[..n], g[..n], count);
      FlattenPut(Build(jobs[..n], g[..n], count), g[n], jobs[n]);
      assert jobs == jobs[..n] + [jobs[n]];
    }
  }

  lemma {:induction false} FlattenSorted(bins: seq<seq<Path>>)
    ensures Flatten(SortGroups(bins)) == Flatten(bins)
  {
    if |bins| > 0 {
      var n := |bins| - 1;
      FlattenSorted(bins[..n]);
      SortKeeps(bins[n], PathLe);
      assert SortGroups(bins)[..n] == SortGroups(bins[..n]);
    }
  }

  lemma {:induction false} DistinctAsSet(s: seq<Path>, all: set<Path>)
    requires Distinct(s) && forall x :: x in s <==> x in all
    ensures multiset(s) == multiset(all)
  {
    if |s| == 0 {
      assert all == {};
    } else {
      var n := |s| - 1;
      assert s == s[..n] + [s[n]];
      assert s[n] !in s[..n];
      DistinctAsSet(s[..n], all - {s[n]});
    }
  }

  lemma JobsAreFiles(pins: Pins, files: set<Path>, weights: Weights)
    ensures Distinct(Jobs(pins, files, weights))
    ensures forall x :: x in Jobs(pins, files, weights) <==> x in files
  {
    PinJobsAre(pins, files);
    DistinctConcat(PinJobs(pins, files, |pins|), WorkOrder(pins, files, weights));
  }

  lemma PinJobsAre(pins: Pins, files: set<Path>)
    ensures var p := PinJobs(pins, files, |pins|);
            && Distinct(p)
            && (forall x :: x in p <==> x in files && (x == pins[0] || x == pins[1]))
            && (pins[0] !in files && pins[1] !in files ==> p == [])
  {
    var first := PinJobs(pins, files, 1);
    assert PinJobs(pins, files, 0) == [];
    assert first == if pins[0] in files then [pins[0]] else [];
    assert PinJobs(pins, files, 2) == first + if pins[1] in files then [pins[1]] else [];
  }

  lemma DistinctConcat(a: seq<Path>, b: seq<Path>)
    requires Distinct(a) && Distinct(b) && forall x :: x in a ==> x !in b
    ensures Distinct(a + b)
    ensures forall x :: x in a + b <==> x in a || x in b
  {
    var s := a + b;
    forall i, j | 0 <= i < j < |s| ensures s[i] != s[j] {
      if i < |a| && |a| <= j {
        assert a[i] in a && b[j - |a|] in b;
      }
    }
  }

  /** Each discovered file sits in exactly one shard, once. */
  lemma EveryFileOnce(pins: Pins, files: set<Path>, count: nat, weights: Weights)
    requires count > 0
    ensures Flatten(ShardsOf(pins, files, count, weights)) == multiset(files)
  {
    var jobs, g := Jobs(pins, files, weights), Machines(pins, files, count, weights);
    FlattenBuild(jobs, g, count);
    FlattenSorted(Build(jobs, g, count));
    JobsAreFiles(pins, files, weights);
    DistinctAsSet(jobs, files);
  }

  // ---- the pinned files ----

  lemma {:induction false} OnItsMachine(jobs: seq<Path>, g: seq<nat>, count: nat, j: nat)
    requires |jobs| == |g| && Onto(g, count) && j < |jobs|
    ensures jobs[j] in Build(jobs, g, count)[g[j]]
  {
    var n := |jobs| - 1;
    if j < n {
      OnItsMachine(jobs[..n], g[..n], count, j);
    }
  }

  lemma {:induction false} GreedyExtends(jobs: seq<Path>, g: seq<nat>, todo: seq<Path>, count: nat, weights: Weights)
    requires count > 0 && |jobs| == |g| && Onto(g, count)
    ensures g == Greedy(jobs, g, todo, count, weights)[..|g|]
  {
    if |todo| > 0 {
      GreedyExtends(jobs, g, todo[..|todo| - 1], count, weights);
    }
  }

  lemma PinPositions(pins: Pins, files: set<Path>, count: nat, i: nat) returns (j: nat)
    requires count > 0 && i < |pins| && pins[i] in files
    ensures j < |PinJobs(pins, files, |pins|)|
    ensures PinJobs(pins, files, |pins|)[j] == pins[i]
    ensures PinTargets(pins, files, count, |pins|)[j] == Target(i, count)
  {
    assert PinJobs(pins, files, 0) == [] && PinTargets(pins, files, count, 0) == [];
    var first, targets := PinJobs(pins, files, 1), PinTargets(pins, files, count, 1);
    assert first == if pins[0] in files then [pins[0]] else [];
    assert targets == if pins[0] in files then [Target(0, count)] else [];
    assert PinJobs(pins, files, 2) == first + if pins[1] in files then [pins[1]] else [];
    assert PinTargets(pins, files, count, 2) == targets + if pins[1] in files then [Target(1, count)] else [];
    j := if i == 0 then 0 else |first|;
  }

  /** Pinned file `i` is on shard `i % count`: from two shards on, the two are apart. */
  lemma PinnedApart(pins: Pins, files: set<Path>, count: nat, weights: Weights, i: nat)
    requires count > 0 && i < |pins| && pins[i] in files
    ensures pins[i] in ShardsOf(pins, files, count, weights)[i % count]
    ensures count >= 2 ==> i % count == i
  {
    var jobs, g := Jobs(pins, files, weights), Machines(pins, files, count, weights);
    var j := PinPositions(pins, files, count, i);
    GreedyExtends(PinJobs(pins, files, |pins|), PinTargets(pins, files, count, |pins|),
                  WorkOrder(pins, files, weights), count, weights);
    TargetIsModulo(i, count);
    assert g[j] == g[..|PinTargets(pins, files, count, |pins|)|][j];
    OnItsMachine(jobs, g, count, j);
    var group := Build(jobs, g, count)[g[j]];
    SortKeeps(group, PathLe);
    assert pins[i] in multiset(SortSeq(group, PathLe));
  }

  /** Each shard lists its files in order. */
  lemma GroupsAreSorted(pins: Pins, files: set<Path>, count: nat, weights: Weights, k: nat)
    requires k < count
    ensures var group := ShardsOf(pins, files, count, weights)[k];
            forall i, j :: 0 <= i < j < |group| ==> LexLe(group[i].name, group[j].name)
  {
    PathTotal();
    assert forall a: Path, b: Path :: PathLe(a, b) <==> LexLe(a.name, b.name);
    SortSorted(Build(Jobs(pins, files, weights), Machines(pins, files, count, weights), count)[k], PathLe);
  }

  /** How long a file takes, as far as is known. */
  ghost predicate Takes(path: Path, recorded: Durations, x: real) {
    if path in recorded then x == recorded[path] else x == DefaultWeight(recorded)
  }

  /** The other files are placed heaviest first, and by name where two weigh the same. */
  lemma PlacedByWeight(pins: Pins, files: set<Path>, recorded: Durations, i: nat, j: nat, x: real, y: real)
    requires var order := WorkOrder(pins, files, WeightsFrom(recorded));
             i < j < |order| && Takes(order[i], recorded, x) && Takes(order[j], recorded, y)
    ensures var order := WorkOrder(pins, files, WeightsFrom(recorded));
            x > y || (x == y && LexLe(order[i].name, order[j].name))
  {
    var weights := WeightsFrom(recorded);
    var (a, b) := (WorkOrder(pins, files, weights)[i], WorkOrder(pins, files, weights)[j]);
    assert Before(weights)(a, b);
    assert Weight(a, weights) == x && Weight(b, weights) == y;
    assert PathLe(a, b) <==> LexLe(a.name, b.name);
  }

  // ---- shards as a list schedule ----

  /** `w` lists the durations of `jobs`. */
  ghost predicate Weighs(w: seq<real>, jobs: seq<Path>, weights: Weights) {
    |w| == |jobs| && forall i :: 0 <= i < |w| ==> w[i] == Weight(jobs[i], weights)
  }

  ghost function WeightsOf(jobs: seq<Path>, weights: Weights): (w: seq<real>)
    ensures Weighs(w, jobs, weights)
  {
    seq(|jobs|, i requires 0 <= i < |jobs| => Weight(jobs[i], weights))
  }

  lemma {:induction false} BuildLoad(jobs: seq<Path>, g: seq<nat>, w: seq<real>, count: nat, weights: Weights, k: nat)
    requires |jobs| == |g| && Onto(g, count) && k < count && Weighs(w, jobs, weights)
    ensures Load(Build(jobs, g, count)[k], weights) == MachineSum(g, w, k)
  {
    if |jobs| > 0 {
      var n := |jobs| - 1;
      BuildLoad(jobs[..n], g[..n], w[..n], count, weights, k);
      var before := Build(jobs[..n], g[..n], count);
      LoadMore(before[g[n]], jobs[n], weights);
    }
  }

  lemma {:induction false} LoadConcat(a: seq<Path>, b: seq<Path>, weights: Weights)
    ensures Load(a + b, weights) == Load(a, weights) + Load(b, weights)
  {
    if |b| == 0 {
      assert a + b == a;
    } else {
      var n := |b| - 1;
      LoadConcat(a, b[..n], weights);
      assert (a + b)[..|a + b| - 1] == a + b[..n];
    }
  }

  lemma {:induction false} LoadInsert(x: Path, s: seq<Path>, weights: Weights)
    ensures Load(Insert(x, s, PathLe), weights) == Weight(x, weights) + Load(s, weights)
  {
    if s != [] {
      LoadConcat([x], s, weights);
      assert s == [s[0]] + s[1..];
      LoadConcat([s[0]], s[1..], weights);
      LoadConcat([s[0]], Insert(x, s[1..], PathLe), weights);
      LoadInsert(x, s[1..], weights);
    }
  }

  lemma {:induction false} LoadSorted(s: seq<Path>, weights: Weights)
    ensures Load(SortSeq(s, PathLe), weights) == Load(s, weights)
  {
    if s != [] {
      assert s == [s[0]] + s[1..];
      LoadConcat([s[0]], s[1..], weights);
      LoadSorted(s[1..], weights);
      LoadInsert(s[0], SortSeq(s[1..], PathLe), weights);
    }
  }

  /** A shard's load is what the schedule sends to its machine. */
  lemma ShardLoad(pins: Pins, files: set<Path>, count: nat, weights: Weights, k: nat)
    requires count > 0 && k < count
    ensures Load(ShardsOf(pins, files, count, weights)[k], weights)
            == MachineSum(Machines(pins, files, count, weights), WeightsOf(Jobs(pins, files, weights), weights), k)
  {
    var jobs, g := Jobs(pins, files, weights), Machines(pins, files, count, weights);
    BuildLoad(jobs, g, WeightsOf(jobs, weights), count, weights, k);
    LoadSorted(Build(jobs, g, count)[k], weights);
  }

  /** The lightest shard is the machine the jobs so far burden least. */
  lemma LightestMachine(jobs: seq<Path>, g: seq<nat>, w: seq<real>, count: nat, weights: Weights)
    requires |jobs| == |g| && Onto(g, count) && count > 0 && Weighs(w, jobs, weights)
    ensures var l := Lightest(Loads(Build(jobs, g, count), weights));
            l < count && forall j :: 0 <= j < count ==> MachineSum(g, w, l) <= MachineSum(g, w, j)
  {
    var loads := Loads(Build(jobs, g, count), weights);
    forall k | 0 <= k < count ensures loads[k] == MachineSum(g, w, k) {
      BuildLoad(jobs, g, w, count, weights, k);
    }
  }

  lemma {:induction false} GreedyIsListSchedule(jobs: seq<Path>, g: seq<nat>, todo: seq<Path>, w: seq<real>,
                                                count: nat, weights: Weights)
    requires count > 0 && |jobs| == |g| && Onto(g, count) && Weighs(w, jobs + todo, weights)
    ensures ListSchedule(Greedy(jobs, g, todo, count, weights), w, count, |jobs|)
  {
    if |todo| > 0 {
      var n := |todo| - 1;
      var r, w0 := Greedy(jobs, g, todo[..n], count, weights), w[..|w| - 1];
      GreedyIsListSchedule(jobs, g, todo[..n], w0, count, weights);
      LightestMachine(jobs + todo[..n], r, w0, count, weights);
      ListScheduleGrows(r, w, count, |jobs|, Lightest(Loads(Build(jobs + todo[..n], r, count), weights)));
    }
  }

  // ---- any other assignment of the same files ----

  ghost function SetWeight(s: set<Path>, weights: Weights): real {
    if s == {} then 0.0
    else
      var x :| x in s;
      SetWeight(s - {x}, weights) + Weight(x, weights)
  }

  lemma {:induction false} SetWeightAdd(s: set<Path>, x: Path, weights: Weights)
    requires x !in s
    ensures SetWeight(s + {x}, weights) == SetWeight(s, weights) + Weight(x, weights)
  {
    var t := s + {x};
    var y :| y in t && SetWeight(t, weights) == SetWeight(t - {y}, weights) + Weight(y, weights);
    if y == x {
      assert t - {y} == s;
    } else {
      SetWeightAdd(s - {y}, x, weights);
      assert t - {y} == (s - {y}) + {x};
      SetWeightAdd(s - {y}, y, weights);
      assert s == (s - {y}) + {y};
    }
  }

  /** `other` sends every file to one of `count` shards. */
  ghost predicate IsAssignment(other: map<Path, nat>, files: set<Path>, count: nat) {
    forall x :: x in files ==> x in other && other[x] < count
  }

  ghost function Shard(other: map<Path, nat>, files: set<Path>, k: nat): set<Path> {
    set x | x in files && x in other && other[x] == k
  }

  /** No shard of `other` takes longer than `opt`. */
  ghost predicate Within(other: map<Path, nat>, files: set<Path>, count: nat, weights: Weights, opt: real) {
    forall k :: 0 <= k < count ==> SetWeight(Shard(other, files, k), weights) <= opt
  }

  /** `f` says where `other` puts each of `jobs`. */
  ghost predicate Follows(f: seq<nat>, other: map<Path, nat>, jobs: seq<Path>) {
    |f| == |jobs| && forall i :: 0 <= i < |f| ==> jobs[i] in other && f[i] == other[jobs[i]]
  }

  lemma {:induction false} OtherLoad(other: map<Path, nat>, jobs: seq<Path>, f: seq<nat>, w: seq<real>,
                                     files: set<Path>, weights: Weights, k: nat)
    requires Distinct(jobs) && (forall x :: x in jobs <==> x in files)
    requires Follows(f, other, jobs) && Weighs(w, jobs, weights)
    ensures MachineSum(f, w, k) == SetWeight(Shard(other, files, k), weights)
  {
    if |jobs| == 0 {
      assert Shard(other, files, k) == {};
    } else {
      var n := |jobs| - 1;
      var rest, x := jobs[..n], jobs[n];
      assert x !in rest && jobs == rest + [x];
      OtherLoad(other, rest, f[..n], w[..n], files - {x}, weights, k);
      ShardGrows(other, files, x, k);
      if other[x] == k {
        SetWeightAdd(Shard(other, files - {x}, k), x, weights);
      }
    }
  }

  lemma ShardGrows(other: map<Path, nat>, files: set<Path>, x: Path, k: nat)
    requires x in files && x in other
    ensures Shard(other, files, k)
            == if other[x] == k then Shard(other, files - {x}, k) + {x} else Shard(other, files - {x}, k)
  {
  }

  lemma OtherSchedule(pins: Pins, files: set<Path>, count: nat, weights: Weights, other: map<Path, nat>, opt: real)
    returns (f: seq<nat>)
    requires count > 0 && IsAssignment(other, files, count) && Within(other, files, count, weights, opt)
    ensures |f| == |Jobs(pins, files, weights)| && Onto(f, count)
    ensures AtMost(f, WeightsOf(Jobs(pins, files, weights), weights), count, opt)
  {
    var jobs := Jobs(pins, files, weights);
    JobsAreFiles(pins, files, weights);
    assert forall i :: 0 <= i < |jobs| ==> jobs[i] in jobs;
    f := seq(|jobs|, i requires 0 <= i < |jobs| => other[jobs[i]]);
    forall k | 0 <= k < count ensures MachineSum(f, WeightsOf(jobs, weights), k) <= opt {
      OtherLoad(other, jobs, f, WeightsOf(jobs, weights), files, weights, k);
    }
  }

  /** The whole placement is a list schedule that starts with the pinned files. */
  lemma PlacementSchedule(pins: Pins, files: set<Path>, count: nat, weights: Weights)
    requires count > 0
    ensures ListSchedule(Machines(pins, files, count, weights), WeightsOf(Jobs(pins, files, weights), weights),
                         count, |PinJobs(pins, files, |pins|)|)
  {
    var jobs, todo := PinJobs(pins, files, |pins|), WorkOrder(pins, files, weights);
    GreedyIsListSchedule(jobs, PinTargets(pins, files, count, |pins|), todo,
                         WeightsOf(jobs + todo, weights), count, weights);
  }

  lemma PinnedPrefix(pins: Pins, files: set<Path>, count: nat, weights: Weights)
    requires count > 0
    ensures var p := |PinJobs(pins, files, |pins|)|;
            && Machines(pins, files, count, weights)[..p] == PinTargets(pins, files, count, |pins|)
            && WeightsOf(Jobs(pins, files, weights), weights)[..p] == WeightsOf(PinJobs(pins, files, |pins|), weights)
  {
    GreedyExtends(PinJobs(pins, files, |pins|), PinTargets(pins, files, count, |pins|),
                  WorkOrder(pins, files, weights), count, weights);
  }

  lemma HeaviestFirst(jobs: seq<Path>, weights: Weights)
    requires Sorted(jobs, Before(weights))
    ensures Descending(WeightsOf(jobs, weights))
  {
  }

  /** Without the pinned files no shard takes longer than (4/3 - 1/(3 count))
      times the longest shard of any assignment whatsoever. */
  lemma LptGuarantee(pins: Pins, files: set<Path>, count: nat, weights: Weights,
                     other: map<Path, nat>, opt: real, k: nat)
    requires count > 0 && k < count && Recorded(weights) && pins[0] !in files && pins[1] !in files
    requires IsAssignment(other, files, count) && Within(other, files, count, weights, opt)
    ensures Load(ShardsOf(pins, files, count, weights)[k], weights) <= LptLimit(count, opt)
  {
    var g, jobs := Machines(pins, files, count, weights), Jobs(pins, files, weights);
    var w := WeightsOf(jobs, weights);
    var f := OtherSchedule(pins, files, count, weights, other, opt);
    PinJobsAre(pins, files);
    PlacementSchedule(pins, files, count, weights);
    assert jobs == WorkOrder(pins, files, weights);
    HeaviestFirst(jobs, weights);
    LptWhole(g, f, w, count, opt, k);
    ShardLoad(pins, files, count, weights, k);
  }

  lemma PinTargetsApart(pins: Pins, files: set<Path>, count: nat)
    requires count >= 2
    ensures Distinct(PinTargets(pins, files, count, |pins|))
  {
  }

  /** With two shards or more a shard holds at most one pinned file. */
  lemma OnePinnedEach(pins: Pins, files: set<Path>, count: nat, weights: Weights, top: real, k: nat)
    requires count >= 2 && Recorded(weights) && 0.0 <= top
    requires forall x :: x in PinJobs(pins, files, |pins|) ==> Weight(x, weights) <= top
    ensures 0.0 <= MachineSum(PinTargets(pins, files, count, |pins|),
                              WeightsOf(PinJobs(pins, files, |pins|), weights), k) <= top
  {
    var jobs, g := PinJobs(pins, files, |pins|), PinTargets(pins, files, count, |pins|);
    var w := WeightsOf(jobs, weights);
    MachineSumNonNegative(g, w, k);
    PinTargetsApart(pins, files, count);
    if MachineSum(g, w, k) != 0.0 {
      var j := SomeJob(g, w, k);
      OnlyJob(g, w, j);
      assert jobs[j] in jobs;
    }
  }

  lemma OneShard(f: seq<nat>, g: seq<nat>)
    requires |f| == |g| && Onto(f, 1) && Onto(g, 1)
    ensures f == g
  {
  }

  /** The pinned files alone fit any bound another assignment meets. */
  lemma PinnedFit(pins: Pins, files: set<Path>, count: nat, weights: Weights,
                  f: seq<nat>, opt: real, k: nat)
    requires count > 0 && k < count && Recorded(weights)
    requires |f| == |Jobs(pins, files, weights)| && Onto(f, count)
    requires AtMost(f, WeightsOf(Jobs(pins, files, weights), weights), count, opt)
    ensures MachineSum(PinTargets(pins, files, count, |pins|),
                       WeightsOf(PinJobs(pins, files, |pins|), weights), k) <= opt
  {
    var jobs, pinJobs := Jobs(pins, files, weights), PinJobs(pins, files, |pins|);
    var w := WeightsOf(jobs, weights);
    MachineSumNonNegative(f, w, 0);
    if count == 1 {
      OneShard(f[..|pinJobs|], PinTargets(pins, files, count, |pins|));
      assert w[..|pinJobs|] == WeightsOf(pinJobs, weights);
      Shorter(f, w, |pinJobs|, k);
    } else {
      forall x | x in pinJobs ensures Weight(x, weights) <= opt {
        var j :| 0 <= j < |pinJobs| && pinJobs[j] == x;
        CarriesJob(f, w, j);
      }
      OnePinnedEach(pins, files, count, weights, opt, k);
    }
  }

  /** With or without the pinned files: (2 - 1/count) times any assignment. */
  lemma PinnedGuarantee(pins: Pins, files: set<Path>, count: nat, weights: Weights,
                        other: map<Path, nat>, opt: real, k: nat)
    requires count > 0 && k < count && Recorded(weights)
    requires IsAssignment(other, files, count) && Within(other, files, count, weights, opt)
    ensures Load(ShardsOf(pins, files, count, weights)[k], weights) <= GrahamLimit(count, opt)
  {
    var g, w := Machines(pins, files, count, weights), WeightsOf(Jobs(pins, files, weights), weights);
    var f := OtherSchedule(pins, files, count, weights, other, opt);
    var p := |PinJobs(pins, files, |pins|)|;
    PlacementSchedule(pins, files, count, weights);
    PinnedPrefix(pins, files, count, weights);
    forall j | 0 <= j < count ensures MachineSum(g[..p], w[..p], j) <= opt {
      PinnedFit(pins, files, count, weights, f, opt, j);
    }
    GrahamWhole(g, f, w, count, p, opt, k);
    ShardLoad(pins, files, count, weights, k);
  }

  /** From two shards on, any two shards differ by at most the longest file. */
  lemma Balanced(pins: Pins, files: set<Path>, count: nat, weights: Weights, top: real, a: nat, b: nat)
    requires count >= 2 && a < count && b < count && Recorded(weights)
    requires 0.0 <= top && forall x :: x in files ==> Weight(x, weights) <= top
    ensures Load(ShardsOf(pins, files, count, weights)[a], weights)
            <= Load(ShardsOf(pins, files, count, weights)[b], weights) + top
  {
    var jobs := Jobs(pins, files, weights);
    var g, w := Machines(pins, files, count, weights), WeightsOf(jobs, weights);
    var p := |PinJobs(pins, files, |pins|)|;
    JobsAreFiles(pins, files, weights);
    PlacementSchedule(pins, files, count, weights);
    PinnedPrefix(pins, files, count, weights);
    assert forall i :: 0 <= i < |jobs| ==> jobs[i] in files;
    assert forall x :: x in PinJobs(pins, files, |pins|) ==> x in jobs;
    forall k | 0 <= k < count ensures 0.0 <= MachineSum(g[..p], w[..p], k) <= top {
      OnePinnedEach(pins, files, count, weights, top, k);
    }
    SpreadWhole(g, w, count, p, top, a, b);
    ShardLoad(pins, files, count, weights, a);
    ShardLoad(pins, files, count, weights, b);
  }
}
