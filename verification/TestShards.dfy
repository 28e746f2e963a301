/**
  `scripts/ci/run_backend_test_shard.py`: the deterministic split of the backend test files
  over CI shards.
*/
module TestShards {
  import opened Common
  import opened LptSchedule
  import opened Sorting

  datatype TestFile = TestFile(path: string, weight: int)

  datatype ShardError = CountNotPositive | CountTooLarge | AssignedTwice | Incomplete | EmptyShard

  /** The state of one `Shard` object. */
  datatype ShardView = ShardView(index: nat, weight: int, files: seq<TestFile>)

  // ----- the specification

  /** The sort key `(-weight, path)`. */
  predicate RunsBefore(f: TestFile, g: TestFile) {
    f.weight > g.weight || (f.weight == g.weight && TextLe(f.path, g.path))
  }

  predicate PathBefore(f: TestFile, g: TestFile) {
    TextLe(f.path, g.path)
  }

  function Weights(files: seq<TestFile>): (ws: seq<int>)
    ensures |ws| == |files| && forall i :: 0 <= i < |ws| ==> ws[i] == files[i].weight
  {
    seq(|files|, i requires 0 <= i < |files| => files[i].weight)
  }

  function Paths(files: seq<TestFile>): (ps: seq<string>)
    ensures |ps| == |files| && forall i :: 0 <= i < |ps| ==> ps[i] == files[i].path
  {
    seq(|files|, i requires 0 <= i < |files| => files[i].path)
  }

  /** The files that schedule `a` puts on shard `b`, in the order they were placed. */
  function FilesOn(files: seq<TestFile>, a: seq<nat>, b: nat): seq<TestFile>
    requires |files| == |a|
  {
    if files == [] then []
    else
      var n := |files| - 1;
      FilesOn(files[..n], a[..n], b) + (if a[n] == b then [files[n]] else [])
  }

  function ByWeight(files: seq<TestFile>): (r: seq<TestFile>)
    ensures multiset(r) == multiset(files) && |r| == |files|
  {
    SortByPermutes(RunsBefore, files);
    SortBy(RunsBefore, files)
  }

  function Placement(files: seq<TestFile>, m: nat): (a: seq<nat>)
    requires m >= 1
    ensures IsSchedule(a, |files|, m)
  {
    Greedy(Weights(ByWeight(files)), m)
  }

  function ShardOf(files: seq<TestFile>, m: nat, b: nat): ShardView
    requires m >= 1
  {
    var placed, a := ByWeight(files), Placement(files, m);
    ShardView(b, Load(Weights(placed), a, b), SortBy(PathBefore, FilesOn(placed, a, b)))
  }

  function ShardsOf(files: seq<TestFile>, m: nat): (shards: seq<ShardView>)
    requires m >= 1
    ensures |shards| == m && forall b :: 0 <= b < m ==> shards[b] == ShardOf(files, m, b)
  {
    seq(m, b requires 0 <= b < m => ShardOf(files, m, b))
  }

  ghost predicate NoEmptyShard(files: seq<TestFile>, m: nat)
    requires m >= 1
  {
    forall b :: 0 <= b < m ==> FilesOn(ByWeight(files), Placement(files, m), b) != []
  }

  /** What `build_shards` returns or raises. */
  ghost function BuildSpec(files: seq<TestFile>, count: int): Result<seq<ShardView>, ShardError> {
    if count < 1 then Err(CountNotPositive)
    else if count > |files| then Err(CountTooLarge)
    else if !Distinct(Paths(files)) then Err(AssignedTwice)
    else if !NoEmptyShard(files, count) then Err(EmptyShard)
    else Ok(ShardsOf(files, count))
  }

  // ----- the key order

  lemma RunsBeforeIsTotal()
    ensures TotalPreorder(RunsBefore)
    ensures forall f, g :: RunsBefore(f, g) && RunsBefore(g, f) ==> f == g
  {
    forall f: TestFile, g: TestFile ensures RunsBefore(f, g) || RunsBefore(g, f) {
      TextLeTotal(f.path, g.path);
    }
    forall f: TestFile, g: TestFile | RunsBefore(f, g) && RunsBefore(g, f) ensures f == g {
      TextLeAntisymmetric(f.path, g.path);
    }
    forall f: TestFile, g: TestFile, h: TestFile | RunsBefore(f, g) && RunsBefore(g, h)
      ensures RunsBefore(f, h)
    {
      if f.weight == g.weight == h.weight {
        TextLeTransitive(f.path, g.path, h.path);
      }
    }
  }

  lemma PathBeforeIsTotal()
    ensures TotalPreorder(PathBefore)
  {
    forall f: TestFile, g: TestFile ensures PathBefore(f, g) || PathBefore(g, f) {
      TextLeTotal(f.path, g.path);
    }
    forall f: TestFile, g: TestFile, h: TestFile | PathBefore(f, g) && PathBefore(g, h)
      ensures PathBefore(f, h)
    {
      TextLeTransitive(f.path, g.path, h.path);
    }
  }

  lemma ByWeightDescends(files: seq<TestFile>)
    ensures Descending(Weights(ByWeight(files)))
  {
    RunsBeforeIsTotal();
    SortBySorts(RunsBefore, files);
    var placed := ByWeight(files);
    forall i, j | 0 <= i <= j < |placed| ensures placed[i].weight >= placed[j].weight {
      assert i < j ==> RunsBefore(placed[i], placed[j]);
    }
  }

  ghost predicate WeightsAtLeast(files: seq<TestFile>, low: int) {
    forall i :: 0 <= i < |files| ==> low <= files[i].weight
  }

  lemma ByWeightKeepsWeights(files: seq<TestFile>, low: int)
    requires WeightsAtLeast(files, low)
    ensures WeightsAtLeast(ByWeight(files), low)
  {
    SameMembers(ByWeight(files), files);
    forall i | 0 <= i < |files| ensures low <= ByWeight(files)[i].weight {
      assert ByWeight(files)[i] in files;
    }
  }

  // ----- exact partition

  /** Marks the places where `x` is listed. */
  function Marks(files: seq<TestFile>, x: TestFile): (vs: seq<int>)
    ensures |vs| == |files|
    ensures forall i :: 0 <= i < |vs| ==> vs[i] == if files[i] == x then 1 else 0
  {
    seq(|files|, i requires 0 <= i < |files| => if files[i] == x then 1 else 0)
  }

  /** Counting `x` on one shard is a load, so conservation of work also conserves files. */
  lemma {:induction false} OccurrencesOnShard(files: seq<TestFile>, a: seq<nat>, b: nat, x: TestFile)
    requires |files| == |a|
    ensures Occurrences(FilesOn(files, a, b), x) == Load(Marks(files, x), a, b)
  {
    if files != [] {
      var n := |files| - 1;
      OccurrencesOnShard(files[..n], a[..n], b, x);
      assert Marks(files, x)[..n] == Marks(files[..n], x);
      OccurrencesConcat(FilesOn(files[..n], a[..n], b), if a[n] == b then [files[n]] else [], x);
    }
  }

  lemma {:induction false} OccurrencesAreMarks(files: seq<TestFile>, x: TestFile)
    ensures Occurrences(files, x) == Sum(Marks(files, x))
  {
    if files != [] {
      var n := |files| - 1;
      OccurrencesAreMarks(files[..n], x);
      assert Marks(files, x)[..n] == Marks(files[..n], x);
      assert files == files[..n] + [files[n]];
      OccurrencesConcat(files[..n], [files[n]], x);
    }
  }

  /** Every file of shard `b` was placed there. */
  lemma {:induction false} FilesOnMembers(files: seq<TestFile>, a: seq<nat>, b: nat, f: TestFile)
    requires |files| == |a|
    ensures f in FilesOn(files, a, b) <==> exists i :: 0 <= i < |files| && a[i] == b && files[i] == f
  {
    if files != [] {
      var n := |files| - 1;
      FilesOnMembers(files[..n], a[..n], b, f);
      if f in FilesOn(files, a, b) {
        if f in FilesOn(files[..n], a[..n], b) {
          var i :| 0 <= i < n && a[..n][i] == b && files[..n][i] == f;
          assert a[i] == b && files[i] == f;
        } else {
          assert a[n] == b && files[n] == f;
        }
      }
      forall i | 0 <= i < |files| && a[i] == b && files[i] == f ensures f in FilesOn(files, a, b) {
        if i < n {
          assert a[..n][i] == b && files[..n][i] == f;
        }
      }
    }
  }

  /** The sum of a quantity over a list of files. */
  function Total(q: TestFile -> int, files: seq<TestFile>): int {
    if files == [] then 0 else Total(q, files[..|files| - 1]) + q(files[|files| - 1])
  }

  function WeightOf(f: TestFile): int {
    f.weight
  }

  lemma {:induction false} TotalWithout(q: TestFile -> int, files: seq<TestFile>, i: nat)
    requires i < |files|
    ensures Total(q, files) == Total(q, Without(files, i)) + q(files[i])
  {
    var n := |files| - 1;
    if i < n {
      TotalWithout(q, files[..n], i);
      assert Without(files, i)[..n - 1] == Without(files[..n], i);
    } else {
      assert Without(files, i) == files[..n];
    }
  }

  lemma {:induction false} TotalOfPermutation(q: TestFile -> int, files: seq<TestFile>, others: seq<TestFile>)
    requires multiset(files) == multiset(others)
    ensures Total(q, files) == Total(q, others)
  {
    SameMembers(files, others);
    if files != [] {
      var i := FindLast(files, others);
      TotalOfPermutation(q, files[..|files| - 1], Without(others, i));
      TotalWithout(q, others, i);
    }
  }

  lemma {:induction false} LoadIsTotalWeight(files: seq<TestFile>, a: seq<nat>, b: nat)
    requires |files| == |a|
    ensures Load(Weights(files), a, b) == Total(WeightOf, FilesOn(files, a, b))
  {
    if files != [] {
      var n := |files| - 1;
      LoadIsTotalWeight(files[..n], a[..n], b);
      assert Weights(files)[..n] == Weights(files[..n]);
      var on := FilesOn(files[..n], a[..n], b);
      if a[n] == b {
        assert (on + [files[n]])[..|on|] == on;
      } else {
        assert on + [] == on;
      }
    }
  }

  /** All files of a list of shards. */
  function FilesOf(shards: seq<ShardView>): seq<TestFile> {
    if shards == [] then [] else FilesOf(shards[..|shards| - 1]) + shards[|shards| - 1].files
  }

  /** How often each shard lists `x`. */
  ghost function PerShard(shards: seq<ShardView>, x: TestFile): (counts: seq<int>)
    ensures |counts| == |shards|
    ensures forall b :: 0 <= b < |shards| ==> counts[b] == Occurrences(shards[b].files, x)
  {
    seq(|shards|, b requires 0 <= b < |shards| => Occurrences(shards[b].files, x))
  }

  lemma {:induction false} OccurrencesInShards(shards: seq<ShardView>, x: TestFile)
    ensures Occurrences(FilesOf(shards), x) == Sum(PerShard(shards, x))
  {
    if shards != [] {
      var n := |shards| - 1;
      OccurrencesInShards(shards[..n], x);
      assert PerShard(shards, x)[..n] == PerShard(shards[..n], x);
      OccurrencesConcat(FilesOf(shards[..n]), shards[n].files, x);
    }
  }

  /** Shards that hold what a schedule put on them hold the scheduled files exactly. */
  lemma ShardsHoldTheFiles(shards: seq<ShardView>, files: seq<TestFile>, a: seq<nat>)
    requires IsSchedule(a, |files|, |shards|)
    requires forall b :: 0 <= b < |shards| ==> multiset(shards[b].files) == multiset(FilesOn(files, a, b))
    ensures multiset(FilesOf(shards)) == multiset(files)
  {
    forall x ensures Occurrences(FilesOf(shards), x) == Occurrences(files, x) {
      OccurrencesInShards(shards, x);
      forall b | 0 <= b < |shards| ensures PerShard(shards, x)[b] == Load(Marks(files, x), a, b) {
        OccurrencesOnShard(files, a, b, x);
      }
      assert PerShard(shards, x) == Loads(Marks(files, x), a, |shards|);
      LoadsConserveWork(Marks(files, x), a, |shards|);
      OccurrencesAreMarks(files, x);
    }
    SameOccurrences(FilesOf(shards), files);
  }

  ghost predicate InPathOrder(files: seq<TestFile>) {
    forall i, j :: 0 <= i < j < |files| ==> InCodePointOrder(files[i].path, files[j].path)
  }

  lemma SortedByPath(files: seq<TestFile>)
    ensures Sorted(PathBefore, files) <==> InPathOrder(files)
  {
    forall i, j | 0 <= i < j < |files|
      ensures PathBefore(files[i], files[j]) <==> InCodePointOrder(files[i].path, files[j].path)
    {
      TextLeIff(files[i].path, files[j].path);
    }
  }

  /**
    The returned shards are a partition: together they hold the input files exactly, each weight
    is that of its files, no shard is empty, and each list is in code point order of the paths.
  */
  lemma ShardsPartitionTheFiles(files: seq<TestFile>, count: int)
    requires BuildSpec(files, count).Ok?
    ensures var shards := BuildSpec(files, count).value;
            && |shards| == count
            && multiset(FilesOf(shards)) == multiset(files)
            && forall b :: 0 <= b < count ==>
                             && shards[b].index == b
                             && shards[b].files != []
                             && shards[b].weight == Total(WeightOf, shards[b].files)
                             && InPathOrder(shards[b].files)
  {
    var shards := BuildSpec(files, count).value;
    var placed, a := ByWeight(files), Placement(files, count);
    forall b | 0 <= b < count
      ensures multiset(shards[b].files) == multiset(FilesOn(placed, a, b))
      ensures shards[b].index == b && shards[b].files != []
      ensures shards[b].weight == Total(WeightOf, shards[b].files)
      ensures InPathOrder(shards[b].files)
    {
      ShardIsConsistent(files, count, b);
    }
    ShardsHoldTheFiles(shards, placed, a);
  }

  lemma ShardIsConsistent(files: seq<TestFile>, m: nat, b: nat)
    requires m >= 1
    ensures var on, shard := FilesOn(ByWeight(files), Placement(files, m), b), ShardOf(files, m, b);
            && |shard.files| == |on| && multiset(shard.files) == multiset(on)
            && shard.weight == Total(WeightOf, shard.files)
            && InPathOrder(shard.files)
  {
    var placed, a := ByWeight(files), Placement(files, m);
    var on := FilesOn(placed, a, b);
    PathBeforeIsTotal();
    SortBySorts(PathBefore, on);
    SortedByPath(SortBy(PathBefore, on));
    SortByPermutes(PathBefore, on);
    LoadIsTotalWeight(placed, a, b);
    TotalOfPermutation(WeightOf, on, SortBy(PathBefore, on));
  }

  // ----- when the checks pass

  function OneIfPositive(f: TestFile): int {
    if f.weight > 0 then 1 else 0
  }

  lemma {:induction false} CountIsBounded(files: seq<TestFile>)
    ensures 0 <= Total(OneIfPositive, files) <= |files|
  {
    if files != [] {
      CountIsBounded(files[..|files| - 1]);
    }
  }

  /** The number of files of positive weight. */
  function Positives(files: seq<TestFile>): (p: nat)
    ensures p <= |files|
  {
    CountIsBounded(files);
    Total(OneIfPositive, files)
  }

  lemma {:induction false} PositivesOfDescending(files: seq<TestFile>)
    requires Descending(Weights(files))
    ensures forall i :: 0 <= i < |files| ==> (Weights(files)[i] > 0 <==> i < Positives(files))
  {
    if files != [] {
      var n := |files| - 1;
      var ws := Weights(files);
      assert Weights(files[..n]) == ws[..n];
      PositivesOfDescending(files[..n]);
      var p := Positives(files[..n]);
      assert forall i :: 0 <= i < n ==> ws[..n][i] == ws[i] >= ws[n];
      if p < n {
        assert ws[..n][p] <= 0;
      }
    }
  }

  /**
    While jobs are positive and machines are idle, each job opens the next machine; from then on a
    machine of load at most zero keeps attracting the jobs that are not positive.
  */
  function Opened(i: nat, p: nat): nat {
    if i < p then i else p
  }

  lemma {:induction false} GreedyOpensMachines(ws: seq<int>, p: nat, m: nat, i: nat)
    requires m >= 1 && i < |ws| && (p < m || i < m)
    requires forall j :: 0 <= j < |ws| ==> (ws[j] > 0 <==> j < p)
    ensures Greedy(ws, m)[i] == Opened(i, p)
  {
    GreedyAt(ws, m, i);
    var before := Greedy(ws[..i], m);
    forall j | 0 <= j < i ensures before[j] == Opened(j, p) {
      GreedyOpensMachines(ws, p, m, j);
      assert before[j] == Greedy(ws, m)[j];
    }
    forall b | 0 <= b < m ensures OpenLoad(Load(ws[..i], before, b), p, i, b) {
      OpenLoads(ws, before, p, i, b);
    }
    OpenChoice(Loads(ws[..i], before, m), p, i);
  }

  ghost predicate OpenLoad(load: int, p: nat, i: nat, b: nat) {
    if b < p && b < i then load > 0
    else if b == p then load <= 0 && (i <= p ==> load == 0)
    else load == 0
  }

  lemma OpenChoice(loads: seq<int>, p: nat, i: nat)
    requires loads != [] && (p < |loads| || i < |loads|)
    requires forall b :: 0 <= b < |loads| ==> OpenLoad(loads[b], p, i, b)
    ensures Lightest(loads) == Opened(i, p)
  {
    var k := Lightest(loads);
    var o := Opened(i, p);
    assert OpenLoad(loads[o], p, i, o) && OpenLoad(loads[k], p, i, k);
    assert k >= o;
  }

  /** Loads when job `j < p` is alone on machine `j` and the rest, none of it positive, is on machine `p`. */
  lemma {:induction false} OpenLoads(ws: seq<int>, a: seq<nat>, p: nat, i: nat, b: nat)
    requires i <= |ws| && |a| == i
    requires forall j :: 0 <= j < |ws| ==> (ws[j] > 0 <==> j < p)
    requires forall j :: 0 <= j < i ==> a[j] == Opened(j, p)
    ensures OpenLoad(Load(ws[..i], a, b), p, i, b)
  {
    if i > 0 {
      OpenLoads(ws, a[..i - 1], p, i - 1, b);
      assert ws[..i][..i - 1] == ws[..i - 1];
      assert ws[..i][i - 1] == ws[i - 1];
    }
  }

  lemma PlacementOpens(files: seq<TestFile>, m: nat, i: nat)
    requires 1 <= m && i < |files| && (Positives(files) < m || i < m)
    ensures Placement(files, m)[i] == Opened(i, Positives(files))
  {
    var placed := ByWeight(files);
    TotalOfPermutation(OneIfPositive, files, placed);
    ByWeightDescends(files);
    PositivesOfDescending(placed);
    GreedyOpensMachines(Weights(placed), Positives(placed), m, i);
  }

  lemma NoEmptyShardIff(files: seq<TestFile>, m: nat)
    requires 1 <= m <= |files|
    ensures NoEmptyShard(files, m) <==> m <= Positives(files) + 1
  {
    var placed, a := ByWeight(files), Placement(files, m);
    var p := Positives(files);
    forall b | 0 <= b < m && b <= p ensures FilesOn(placed, a, b) != [] {
      PlacementOpens(files, m, b);
      FilesOnMembers(placed, a, b, placed[b]);
    }
    if m > p + 1 {
      forall i | 0 <= i < |files| ensures a[i] != m - 1 {
        PlacementOpens(files, m, i);
      }
      NothingPlaced(placed, a, m - 1);
    }
  }

  lemma {:induction false} NothingPlaced(files: seq<TestFile>, a: seq<nat>, b: nat)
    requires |files| == |a| && forall i :: 0 <= i < |a| ==> a[i] != b
    ensures FilesOn(files, a, b) == []
  {
    if files != [] {
      NothingPlaced(files[..|files| - 1], a[..|a| - 1], b);
    }
  }

  /**
    `build_shards` succeeds exactly when the count is between 1 and the number of files, no path
    is listed twice, and at least `count - 1` files have a positive weight.
  */
  lemma BuildSucceedsIff(files: seq<TestFile>, count: int)
    ensures BuildSpec(files, count).Ok? <==>
            && 1 <= count <= |files|
            && Distinct(Paths(files))
            && count <= Positives(files) + 1
  {
    if 1 <= count <= |files| {
      NoEmptyShardIff(files, count);
    }
  }

  lemma {:induction false} AllPositive(files: seq<TestFile>)
    requires WeightsAtLeast(files, 1)
    ensures Positives(files) == |files|
  {
    if files != [] {
      AllPositive(files[..|files| - 1]);
    }
  }

  /** `discover_test_files`: the paths that were found with their line counts, an empty file counting one. */
  function Discovered(found: seq<(string, nat)>): (files: seq<TestFile>)
    ensures |files| == |found| && WeightsAtLeast(files, 1)
    ensures forall i :: 0 <= i < |files| ==>
                          && files[i].path == found[i].0
                          && files[i].weight >= found[i].1 && files[i].weight in {1, found[i].1}
  {
    seq(|found|, i requires 0 <= i < |found| =>
      TestFile(found[i].0, if found[i].1 < 1 then 1 else found[i].1))
  }

  /** With that weight floor and distinct paths, a legal count never fails. */
  lemma DiscoveredFilesAlwaysShard(found: seq<(string, nat)>, count: int)
    requires Distinct(Paths(Discovered(found))) && 1 <= count <= |found|
    ensures BuildSpec(Discovered(found), count).Ok?
  {
    AllPositive(Discovered(found));
    BuildSucceedsIff(Discovered(found), count);
  }

  // ----- what the split is

  /** Heaviest first; files of one weight in code point order of their paths. */
  ghost predicate InPlacingOrder(files: seq<TestFile>) {
    forall i, j :: 0 <= i < j < |files| ==>
                     || files[i].weight > files[j].weight
                     || (files[i].weight == files[j].weight && InCodePointOrder(files[i].path, files[j].path))
  }

  /** Each file in turn goes to a shard that is lightest at that moment, and every shard before that is heavier. */
  ghost predicate PlacedInTurn(files: seq<TestFile>, a: seq<nat>, m: nat) {
    IsSchedule(a, |files|, m) && forall k, t :: 0 <= k < |files| && 0 <= t < m ==> GoesTo(Weights(files), a, k, t)
  }

  ghost predicate GoesTo(ws: seq<int>, a: seq<nat>, k: nat, t: nat)
    requires k < |ws| == |a|
  {
    var here, there := Load(ws[..k], a[..k], a[k]), Load(ws[..k], a[..k], t);
    here <= there && (t < a[k] ==> here < there)
  }

  lemma OrderedByKey(files: seq<TestFile>)
    ensures Sorted(RunsBefore, files) <==> InPlacingOrder(files)
  {
    forall i, j | 0 <= i < j < |files| {
      TextLeIff(files[i].path, files[j].path);
    }
  }

  lemma GreedyGoesInTurn(files: seq<TestFile>, m: nat)
    requires m >= 1
    ensures PlacedInTurn(files, Greedy(Weights(files), m), m)
  {
    var ws := Weights(files);
    var a := Greedy(ws, m);
    forall k, t | 0 <= k < |files| && 0 <= t < m ensures GoesTo(ws, a, k, t) {
      GreedyAt(ws, m, k);
      var loads := Loads(ws[..k], a[..k], m);
      assert loads[a[k]] <= loads[t];
    }
  }

  lemma InTurnStep(ws: seq<int>, a: seq<nat>, m: nat, n: nat)
    requires m >= 1 && n < |ws| == |a| && a[n] < m && a[..n] == Greedy(ws, m)[..n]
    requires forall t :: 0 <= t < m ==> GoesTo(ws, a, n, t)
    ensures a[n] == Greedy(ws, m)[n]
  {
    GreedyAt(ws, m, n);
    var loads := Loads(ws[..n], a[..n], m);
    forall t | 0 <= t < m ensures loads[a[n]] <= loads[t] && (t < a[n] ==> loads[a[n]] < loads[t]) {
      assert GoesTo(ws, a, n, t);
    }
    LightestIsFirst(loads, a[n]);
  }

  lemma {:induction false} InTurnIsGreedy(files: seq<TestFile>, a: seq<nat>, m: nat, k: nat)
    requires m >= 1 && PlacedInTurn(files, a, m) && k <= |files|
    ensures a[..k] == Greedy(Weights(files), m)[..k]
  {
    if k > 0 {
      InTurnIsGreedy(files, a, m, k - 1);
      var g := Greedy(Weights(files), m);
      InTurnStep(Weights(files), a, m, k - 1);
      assert a[..k] == a[..k - 1] + [a[k - 1]] && g[..k] == g[..k - 1] + [g[k - 1]];
    }
  }

  lemma FillingIsUnique(files: seq<TestFile>, m: nat, placed: seq<TestFile>, a: seq<nat>)
    requires m >= 1 && multiset(placed) == multiset(files) && InPlacingOrder(placed) && PlacedInTurn(placed, a, m)
    ensures placed == ByWeight(files) && a == Placement(files, m)
  {
    RunsBeforeIsTotal();
    SortBySorts(RunsBefore, files);
    OrderedByKey(placed);
    SortedIsUnique(RunsBefore, placed, ByWeight(files));
    InTurnIsGreedy(placed, a, m, |placed|);
    assert a[..|placed|] == a;
  }

  /** The files can be placed in that order and by that rule. */
  lemma FillingExists(files: seq<TestFile>, m: nat) returns (placed: seq<TestFile>, a: seq<nat>)
    requires m >= 1
    ensures multiset(placed) == multiset(files) && InPlacingOrder(placed) && PlacedInTurn(placed, a, m)
  {
    placed, a := ByWeight(files), Placement(files, m);
    RunsBeforeIsTotal();
    SortBySorts(RunsBefore, files);
    OrderedByKey(placed);
    GreedyGoesInTurn(placed, m);
  }

  /** However the files are placed in that order and by that rule, the returned shards hold what it puts on each. */
  lemma ShardsAreFilledInTurn(files: seq<TestFile>, count: int, placed: seq<TestFile>, a: seq<nat>, b: nat)
    requires BuildSpec(files, count).Ok? && b < count
    requires multiset(placed) == multiset(files) && InPlacingOrder(placed) && PlacedInTurn(placed, a, count)
    ensures multiset(BuildSpec(files, count).value[b].files) == multiset(FilesOn(placed, a, b))
  {
    FillingIsUnique(files, count, placed, a);
    ReturnedShard(files, count, b);
    ShardIsConsistent(files, count, b);
  }

  // ----- quality of the split

  /** The returned shards are `ShardOf`. */
  lemma ReturnedShard(files: seq<TestFile>, count: int, b: nat)
    requires BuildSpec(files, count).Ok? && b < count
    ensures |BuildSpec(files, count).value| == count
    ensures BuildSpec(files, count).value[b] == ShardOf(files, count, b)
  {
  }

  lemma LocallyOptimal(files: seq<TestFile>, m: nat, s: nat, t: nat, f: TestFile)
    requires WeightsAtLeast(files, 0) && s < m && t < m
    requires f in ShardOf(files, m, s).files
    ensures ShardOf(files, m, s).weight <= ShardOf(files, m, t).weight + f.weight
  {
    var placed, a := ByWeight(files), Placement(files, m);
    SortByPermutes(PathBefore, FilesOn(placed, a, s));
    SameMembers(SortBy(PathBefore, FilesOn(placed, a, s)), FilesOn(placed, a, s));
    FilesOnMembers(placed, a, s, f);
    var i :| 0 <= i < |placed| && a[i] == s && placed[i] == f;
    ByWeightKeepsWeights(files, 0);
    ByWeightDescends(files);
    LocalOptimum(Weights(placed), m, s, t, i);
  }

  /** No file can be moved to another shard with profit. */
  lemma ShardsAreLocallyOptimal(files: seq<TestFile>, count: int, s: nat, t: nat, f: TestFile)
    requires BuildSpec(files, count).Ok? && WeightsAtLeast(files, 0)
    requires s < count && t < count && f in BuildSpec(files, count).value[s].files
    ensures var shards := BuildSpec(files, count).value;
            shards[s].weight <= shards[t].weight + f.weight
  {
    ReturnedShard(files, count, s);
    ReturnedShard(files, count, t);
    LocallyOptimal(files, count, s, t, f);
  }

  /** A schedule of one listing of the files, carried over to another listing of them. */
  lemma {:induction false} ReorderSchedule(files: seq<TestFile>, a: seq<nat>, others: seq<TestFile>, m: nat)
    returns (c: seq<nat>)
    requires multiset(files) == multiset(others) && IsSchedule(a, |files|, m)
    ensures IsSchedule(c, |others|, m)
    ensures forall b: nat :: Load(Weights(others), c, b) == Load(Weights(files), a, b)
  {
    SameMembers(files, others);
    if others == [] {
      c := [];
    } else {
      var n := |others| - 1;
      var i := FindLast(others, files);
      var d := ReorderSchedule(Without(files, i), Without(a, i), others[..n], m);
      c := d + [a[i]];
      WeightsMoved(files, others, i);
      forall b: nat ensures Load(Weights(others), c, b) == Load(Weights(files), a, b) {
        ReorderedLoad(Weights(files), a, i, Weights(others[..n]), d, b);
      }
    }
  }

  lemma WeightsMoved(files: seq<TestFile>, others: seq<TestFile>, i: nat)
    requires others != [] && i < |files| && files[i] == others[|others| - 1]
    ensures Weights(Without(files, i)) == Without(Weights(files), i)
    ensures Weights(others) == Weights(others[..|others| - 1]) + [Weights(files)[i]]
  {
  }

  /** Moving one job from place `i` of one schedule to the end of another. */
  lemma ReorderedLoad(ws: seq<int>, a: seq<nat>, i: nat, vs: seq<int>, d: seq<nat>, b: nat)
    requires |ws| == |a| && i < |ws| && |vs| == |d|
    requires Load(vs, d, b) == Load(Without(ws, i), Without(a, i), b)
    ensures Load(vs + [ws[i]], d + [a[i]], b) == Load(ws, a, b)
  {
    LoadWithout(ws, a, i, b);
    LoadOfExtended(vs, ws[i], d, a[i], b);
  }

  lemma {:induction false} LoadWithout(ws: seq<int>, a: seq<nat>, i: nat, b: nat)
    requires |ws| == |a| && i < |ws|
    ensures Load(ws, a, b) == Load(Without(ws, i), Without(a, i), b) + (if a[i] == b then ws[i] else 0)
  {
    var n := |ws| - 1;
    if i < n {
      LoadWithout(ws[..n], a[..n], i, b);
      assert Without(ws, i)[..n - 1] == Without(ws[..n], i);
      assert Without(a, i)[..n - 1] == Without(a[..n], i);
    } else {
      assert Without(ws, i) == ws[..n] && Without(a, i) == a[..n];
    }
  }

  /**
    Against every other way to spread the same files over as many shards, with heaviest shard at
    most `cap`, no shard is heavier than (4/3 - 1/(3m)) * `cap`.
  */
  lemma ShardsWithinGrahamBound(files: seq<TestFile>, count: int, alt: seq<nat>, cap: int, s: nat)
    requires BuildSpec(files, count).Ok? && WeightsAtLeast(files, 0) && s < count
    requires IsSchedule(alt, |files|, count)
    requires forall b :: 0 <= b < count ==> Load(Weights(files), alt, b) <= cap
    ensures 3 * count * BuildSpec(files, count).value[s].weight <= (4 * count - 1) * cap
  {
    var placed := ByWeight(files);
    var opt := ReorderSchedule(files, alt, placed, count);
    ByWeightKeepsWeights(files, 0);
    ByWeightDescends(files);
    GrahamBound(Weights(placed), count, opt, cap, s);
    ReturnedShard(files, count, s);
    assert WithinGraham(count, ShardOf(files, count, s).weight, cap);
  }

  // ----- order independence

  lemma DistinctPathsOfPermutation(files: seq<TestFile>, others: seq<TestFile>)
    requires multiset(files) == multiset(others)
    ensures Distinct(Paths(files)) <==> Distinct(Paths(others))
  {
    SameMembers(files, others);
    DistinctIffSetSize(Paths(files));
    DistinctIffSetSize(Paths(others));
    PathsIncluded(files, others);
    PathsIncluded(others, files);
    assert Elements(Paths(files)) == Elements(Paths(others));
  }

  lemma PathsIncluded(files: seq<TestFile>, others: seq<TestFile>)
    requires forall f :: f in files ==> f in others
    ensures Elements(Paths(files)) <= Elements(Paths(others))
  {
    forall p | p in Elements(Paths(files)) ensures p in Elements(Paths(others)) {
      var i :| 0 <= i < |files| && Paths(files)[i] == p;
      assert files[i] in others;
      var j :| 0 <= j < |others| && others[j] == files[i];
      assert Paths(others)[j] == p;
    }
  }

  lemma SamePlacement(files: seq<TestFile>, others: seq<TestFile>, m: nat)
    requires m >= 1 && ByWeight(files) == ByWeight(others)
    ensures Placement(files, m) == Placement(others, m)
  {
  }

  lemma SameShard(files: seq<TestFile>, others: seq<TestFile>, m: nat, b: nat)
    requires m >= 1 && ByWeight(files) == ByWeight(others)
    ensures ShardOf(files, m, b) == ShardOf(others, m, b)
    ensures FilesOn(ByWeight(files), Placement(files, m), b) == FilesOn(ByWeight(others), Placement(others, m), b)
  {
    SamePlacement(files, others, m);
  }

  lemma SameShards(files: seq<TestFile>, others: seq<TestFile>, m: nat)
    requires m >= 1 && ByWeight(files) == ByWeight(others)
    ensures NoEmptyShard(files, m) == NoEmptyShard(others, m)
    ensures ShardsOf(files, m) == ShardsOf(others, m)
  {
    forall b: nat
      ensures ShardOf(files, m, b) == ShardOf(others, m, b)
      ensures FilesOn(ByWeight(files), Placement(files, m), b) == FilesOn(ByWeight(others), Placement(others, m), b)
    {
      SameShard(files, others, m, b);
    }
  }

  /** The result depends on the set of files alone, not on the order in which they were found. */
  lemma OrderDoesNotMatter(files: seq<TestFile>, others: seq<TestFile>, count: int)
    requires multiset(files) == multiset(others)
    ensures BuildSpec(files, count) == BuildSpec(others, count)
  {
    SameMembers(files, others);
    RunsBeforeIsTotal();
    SortBySorts(RunsBefore, files);
    SortBySorts(RunsBefore, others);
    SortedIsUnique(RunsBefore, ByWeight(files), ByWeight(others));
    if 1 <= count <= |files| {
      DistinctPathsOfPermutation(files, others);
      SameShards(files, others, count);
    }
  }

  /** What job `i` runs: the files of shard `i` of the split that it computed for itself. */
  function RunByJobs(splits: seq<seq<ShardView>>, jobs: nat): seq<TestFile>
    requires jobs <= |splits| && forall i :: 0 <= i < |splits| ==> |splits[i]| == |splits|
  {
    if jobs == 0 then [] else RunByJobs(splits, jobs - 1) + splits[jobs - 1][jobs - 1].files
  }

  /** Independent CI jobs, each with its own listing order, run every file exactly once between them. */
  lemma JobsRunEveryFileOnce(files: seq<TestFile>, shards: seq<ShardView>, listings: seq<seq<TestFile>>,
                             splits: seq<seq<ShardView>>)
    requires BuildSpec(files, |listings|) == Ok(shards) && |splits| == |listings|
    requires forall i :: 0 <= i < |listings| ==> multiset(listings[i]) == multiset(files)
    requires forall i :: 0 <= i < |splits| ==> BuildSpec(listings[i], |listings|) == Ok(splits[i])
    ensures forall i :: 0 <= i < |splits| ==> |splits[i]| == |splits|
    ensures multiset(RunByJobs(splits, |splits|)) == multiset(files)
  {
    forall i | 0 <= i < |splits| ensures splits[i] == shards {
      OrderDoesNotMatter(files, listings[i], |listings|);
    }
    SharedSplit(files, shards, splits);
  }

  lemma SharedSplit(files: seq<TestFile>, shards: seq<ShardView>, splits: seq<seq<ShardView>>)
    requires BuildSpec(files, |splits|) == Ok(shards)
    requires forall i :: 0 <= i < |splits| ==> splits[i] == shards
    ensures |shards| == |splits|
    ensures multiset(RunByJobs(splits, |splits|)) == multiset(files)
  {
    PartitionOf(files, |splits|, shards);
    RunByJobsIsFilesOf(shards, splits, |splits|);
    assert shards[..|shards|] == shards;
  }

  lemma PartitionOf(files: seq<TestFile>, count: int, shards: seq<ShardView>)
    requires BuildSpec(files, count) == Ok(shards)
    ensures |shards| == count && multiset(FilesOf(shards)) == multiset(files)
  {
    ShardsPartitionTheFiles(files, count);
  }

  lemma {:induction false} RunByJobsIsFilesOf(shards: seq<ShardView>, splits: seq<seq<ShardView>>, jobs: nat)
    requires jobs <= |splits| == |shards| && forall i :: 0 <= i < |splits| ==> splits[i] == shards
    ensures RunByJobs(splits, jobs) == FilesOf(shards[..jobs])
  {
    if jobs > 0 {
      RunByJobsIsFilesOf(shards, splits, jobs - 1);
      assert shards[..jobs][..jobs - 1] == shards[..jobs - 1];
      assert shards[..jobs][jobs - 1] == splits[jobs - 1][jobs - 1];
    }
  }

  // ----- the program

  function SortedView(view: ShardView): ShardView {
    view.(files := SortBy(PathBefore, view.files))
  }

  class Shard {
    const index: nat
    var weight: int
    var files: seq<TestFile>

    constructor (index: nat)
      ensures View() == ShardView(index, 0, [])
    {
      this.index := index;
      weight := 0;
      files := [];
    }

    function View(): ShardView
      reads this
    {
      ShardView(index, weight, files)
    }

    method Add(file: TestFile)
      modifies this
      ensures View() == ShardView(index, old(weight) + file.weight, old(files) + [file])
    {
      files := files + [file];
      weight := weight + file.weight;
    }

    method SortFiles()
      modifies this
      ensures View() == SortedView(old(View()))
    {
      files := SortBy(PathBefore, files);
    }
  }

  function Views(shards: seq<Shard>): (views: seq<ShardView>)
    reads shards
    ensures |views| == |shards|
    ensures forall b :: 0 <= b < |shards| ==> views[b] == shards[b].View()
  {
    seq(|shards|, b requires 0 <= b < |shards| reads shards => shards[b].View())
  }

  /** The lightest shard, the first one on a tie. */
  method LeastLoaded(shards: seq<Shard>) returns (k: nat)
    requires shards != []
    ensures k < |shards|
    ensures forall i :: 0 <= i < |shards| ==> shards[k].weight <= shards[i].weight
    ensures forall i :: 0 <= i < k ==> shards[k].weight < shards[i].weight
  {
    k := 0;
    for i := 1 to |shards|
      invariant k < i
      invariant forall j :: 0 <= j < i ==> shards[k].weight <= shards[j].weight
      invariant forall j :: 0 <= j < k ==> shards[k].weight < shards[j].weight
    {
      if shards[i].weight < shards[k].weight {
        k := i;
      }
    }
  }

  /** Shard `b` once the first `k` files of `placed` are placed by `a`. */
  ghost function StateAfter(placed: seq<TestFile>, a: seq<nat>, k: nat, b: nat): ShardView
    requires k <= |placed| == |a|
  {
    ShardView(b, Load(Weights(placed[..k]), a[..k], b), FilesOn(placed[..k], a[..k], b))
  }

  ghost predicate Holds(views: seq<ShardView>, placed: seq<TestFile>, a: seq<nat>, k: nat)
    requires k <= |placed| == |a|
  {
    forall b :: 0 <= b < |views| ==> views[b] == StateAfter(placed, a, k, b)
  }

  function Received(view: ShardView, file: TestFile): ShardView {
    ShardView(view.index, view.weight + file.weight, view.files + [file])
  }

  lemma StateStep(placed: seq<TestFile>, a: seq<nat>, k: nat, b: nat)
    requires k < |placed| == |a|
    ensures var before := StateAfter(placed, a, k, b);
            StateAfter(placed, a, k + 1, b) == if a[k] == b then Received(before, placed[k]) else before
  {
    assert placed[..k + 1][..k] == placed[..k] && a[..k + 1][..k] == a[..k];
    assert Weights(placed[..k + 1])[..k] == Weights(placed[..k]);
  }

  lemma HeldStep(before: seq<ShardView>, after: seq<ShardView>, placed: seq<TestFile>, a: seq<nat>, k: nat, target: nat)
    requires k < |placed| == |a| && Holds(before, placed, a, k) && |before| == |after|
    requires target < |before| && a[k] == target
    requires forall b :: 0 <= b < |before| ==>
                           after[b] == if b == target then Received(before[b], placed[k]) else before[b]
    ensures Holds(after, placed, a, k + 1)
  {
    forall b | 0 <= b < |after| ensures after[b] == StateAfter(placed, a, k + 1, b) {
      StateStep(placed, a, k, b);
    }
  }

  lemma HeldLoads(views: seq<ShardView>, placed: seq<TestFile>, a: seq<nat>, k: nat) returns (loads: seq<int>)
    requires k <= |placed| == |a| && Holds(views, placed, a, k)
    ensures loads == Loads(Weights(placed)[..k], a[..k], |views|)
    ensures |loads| == |views| && forall i :: 0 <= i < |views| ==> loads[i] == views[i].weight
  {
    assert Weights(placed[..k]) == Weights(placed)[..k];
    loads := Loads(Weights(placed)[..k], a[..k], |views|);
    forall i | 0 <= i < |views| ensures loads[i] == views[i].weight {
      assert views[i] == StateAfter(placed, a, k, i);
    }
  }

  /** The lightest machine is where the greedy rule puts the next job. */
  lemma GreedyGoesThere(ws: seq<int>, m: nat, k: nat, loads: seq<int>, target: nat)
    requires m >= 1 && k < |ws| && target < |loads| && loads == Loads(ws[..k], Greedy(ws, m)[..k], m)
    requires forall i :: 0 <= i < |loads| ==> loads[target] <= loads[i]
    requires forall i :: 0 <= i < target ==> loads[target] < loads[i]
    ensures Greedy(ws, m)[k] == target
  {
    GreedyAt(ws, m, k);
    LightestIsFirst(loads, target);
  }

  method BuildShards(files: seq<TestFile>, count: int) returns (r: Result<seq<Shard>, ShardError>)
    ensures r.Ok? ==> (forall s :: s in r.value ==> fresh(s)) && BuildSpec(files, count) == Ok(Views(r.value))
    ensures r.Err? ==> BuildSpec(files, count) == Err(r.error) && r.error != Incomplete
  {
    if count < 1 {
      return Err(CountNotPositive);
    }
    if count > |files| {
      return Err(CountTooLarge);
    }
    var shards := Distribute(files, count);
    var views := Views(shards);
    var error := CheckShards(files, views);
    if error.Some? {
      return Err(error.value);
    }
    ghost var sorted := SortedViews(files, views);
    SortAll(shards, sorted);
    assert Views(shards) == sorted;
    r := Ok(shards);
  }

  /** The three checks on the filled shards. */
  method CheckShards(files: seq<TestFile>, views: seq<ShardView>) returns (error: Option<ShardError>)
    requires Settled(files, views) && |views| <= |files|
    ensures BuildSpec(files, |views|) == if error.None? then Ok(ShardsOf(files, |views|)) else Err(error.value)
    ensures error != Some(Incomplete)
  {
    var listed := Paths(FilesOf(views));
    ChecksAgree(files, views);
    if |listed| != |Elements(listed)| {
      return Some(AssignedTwice);
    }
    if Elements(listed) != Elements(Paths(files)) {
      return Some(Incomplete);
    }
    if exists b :: 0 <= b < |views| && views[b].files == [] {
      return Some(EmptyShard);
    }
    return None;
  }

  method Distribute(files: seq<TestFile>, count: nat) returns (shards: seq<Shard>)
    requires count >= 1
    ensures |shards| == count && Distinct(shards)
    ensures forall b :: 0 <= b < count ==> fresh(shards[b]) && shards[b].index == b
    ensures Settled(files, Views(shards))
  {
    shards := NewShards(count);
    PlaceFiles(shards, ByWeight(files));
  }

  method NewShards(count: nat) returns (shards: seq<Shard>)
    ensures |shards| == count && Distinct(shards)
    ensures forall b :: 0 <= b < count ==> fresh(shards[b]) && shards[b].View() == ShardView(b, 0, [])
  {
    shards := [];
    while |shards| < count
      invariant |shards| <= count && Distinct(shards)
      invariant forall b :: 0 <= b < |shards| ==> fresh(shards[b]) && shards[b].View() == ShardView(b, 0, [])
    {
      var shard := new Shard(|shards|);
      shards := shards + [shard];
    }
  }

  method PlaceFiles(shards: seq<Shard>, placed: seq<TestFile>)
    requires shards != [] && Distinct(shards)
    requires forall b :: 0 <= b < |shards| ==> shards[b].View() == ShardView(b, 0, [])
    modifies shards
    ensures forall b :: 0 <= b < |shards| ==>
                          var a := Greedy(Weights(placed), |shards|);
                          shards[b].View() == ShardView(b, Load(Weights(placed), a, b), FilesOn(placed, a, b))
  {
    ghost var a := Greedy(Weights(placed), |shards|);
    for k := 0 to |placed|
      invariant Holds(Views(shards), placed, a, k)
    {
      PlaceOne(shards, placed, k, a);
    }
    AllPlaced(Views(shards), placed, a);
  }

  /** One turn of the loop. */
  method PlaceOne(shards: seq<Shard>, placed: seq<TestFile>, k: nat, ghost a: seq<nat>)
    requires shards != [] && Distinct(shards) && k < |placed|
    requires a == Greedy(Weights(placed), |shards|) && Holds(Views(shards), placed, a, k)
    modifies shards
    ensures Holds(Views(shards), placed, a, k + 1)
  {
    ghost var before := Views(shards);
    var target := LeastLoaded(shards);
    ghost var loads := HeldLoads(before, placed, a, k);
    GreedyGoesThere(Weights(placed), |shards|, k, loads, target);
    shards[target].Add(placed[k]);
    HeldStep(before, Views(shards), placed, a, k, target);
  }

  lemma AllPlaced(views: seq<ShardView>, placed: seq<TestFile>, a: seq<nat>)
    requires |placed| == |a| && Holds(views, placed, a, |placed|)
    ensures forall b :: 0 <= b < |views| ==>
                          views[b] == ShardView(b, Load(Weights(placed), a, b), FilesOn(placed, a, b))
  {
    assert placed[..|placed|] == placed && a[..|placed|] == a;
    forall b | 0 <= b < |views| ensures views[b] == ShardView(b, Load(Weights(placed), a, b), FilesOn(placed, a, b)) {
      assert views[b] == StateAfter(placed, a, |placed|, b);
    }
  }

  /** Sorting in place leaves `sorted` in the shards. */
  method SortAll(shards: seq<Shard>, ghost sorted: seq<ShardView>)
    requires Distinct(shards) && |sorted| == |shards|
    requires forall b :: 0 <= b < |shards| ==> sorted[b] == SortedView(shards[b].View())
    modifies shards
    ensures forall b :: 0 <= b < |shards| ==> shards[b].View() == sorted[b]
  {
    for k := 0 to |shards|
      invariant forall b :: 0 <= b < k ==> shards[b].View() == sorted[b]
      invariant forall b :: k <= b < |shards| ==> sorted[b] == SortedView(shards[b].View())
    {
      shards[k].SortFiles();
    }
  }

  /** The two listing checks at the end of `build_shards`, for any rearrangement of the files. */
  lemma ListingChecks(held: seq<TestFile>, files: seq<TestFile>)
    requires multiset(held) == multiset(files)
    ensures |Paths(held)| == |Elements(Paths(held))| <==> Distinct(Paths(files))
    ensures Elements(Paths(held)) == Elements(Paths(files))
  {
    SameMembers(held, files);
    DistinctPathsOfPermutation(held, files);
    DistinctIffSetSize(Paths(held));
    PathsIncluded(files, held);
    PathsIncluded(held, files);
  }

  /** `views` is the state of the shards when every file is placed. */
  ghost predicate Settled(files: seq<TestFile>, views: seq<ShardView>) {
    && views != []
    && forall b :: 0 <= b < |views| ==> views[b] == Unsorted(files, |views|, b)
  }

  ghost function Unsorted(files: seq<TestFile>, m: nat, b: nat): ShardView
    requires m >= 1
  {
    var placed, a := ByWeight(files), Placement(files, m);
    ShardView(b, Load(Weights(placed), a, b), FilesOn(placed, a, b))
  }

  lemma ChecksAgree(files: seq<TestFile>, views: seq<ShardView>)
    requires Settled(files, views)
    ensures |Paths(FilesOf(views))| == |Elements(Paths(FilesOf(views)))| <==> Distinct(Paths(files))
    ensures Elements(Paths(FilesOf(views))) == Elements(Paths(files))
    ensures NoEmptyShard(files, |views|) <==> !exists b :: 0 <= b < |views| && views[b].files == []
  {
    ShardsHoldTheFiles(views, ByWeight(files), Placement(files, |views|));
    ListingChecks(FilesOf(views), files);
  }

  lemma SortedViews(files: seq<TestFile>, views: seq<ShardView>) returns (sorted: seq<ShardView>)
    requires Settled(files, views)
    ensures sorted == ShardsOf(files, |views|) && |sorted| == |views|
    ensures forall b :: 0 <= b < |views| ==> sorted[b] == SortedView(views[b])
  {
    sorted := ShardsOf(files, |views|);
    forall b | 0 <= b < |views| ensures sorted[b] == SortedView(views[b]) {
      assert views[b] == Unsorted(files, |views|, b);
    }
  }
}
