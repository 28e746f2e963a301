/** For every number of shards there are files for which the split is as far off as the bound allows. */
module LptTightness {
  import opened Common
  import opened LptSchedule
  import opened Sorting
  import opened TestShards

  /** Weights 2m-1, 2m-1, 2m-2, 2m-2, ..., m, m and m once more. */
  function Weight(m: nat, i: nat): int {
    if i < 2 * m then 2 * m - 1 - i / 2 else m
  }

  function TightWeights(m: nat): (ws: seq<int>)
    ensures |ws| == 2 * m + 1 && forall i :: 0 <= i < |ws| ==> ws[i] == Weight(m, i)
  {
    seq(2 * m + 1, i requires 0 <= i => Weight(m, i))
  }

  // ----- what the greedy rule does with them

  /** The second job of machine `b`; the first is job `b`. */
  function Partner(m: nat, b: nat): int {
    if m % 2 == 1 && b == m - 1 then m else 2 * (m - 1 - b / 2) + b % 2
  }

  /** The machine of job `i`. */
  function Target(m: nat, i: nat): int {
    if i < m then i
    else if i == 2 * m then 0
    else if m % 2 == 1 && i == m then m - 1
    else 2 * (m - 1 - i / 2) + i % 2
  }

  lemma Partners(m: nat, b: nat)
    requires b < m
    ensures m <= Partner(m, b) < 2 * m
    ensures Weight(m, b) + Weight(m, Partner(m, b)) == 3 * m - 1
    ensures m <= Weight(m, b) <= 2 * m - 1
  {
  }

  lemma TargetOfPartner(m: nat, i: nat, b: nat)
    requires m <= i < 2 * m && b < m
    ensures 0 <= Target(m, i) < m
    ensures Target(m, i) == b <==> Partner(m, b) == i
  {
  }

  /** The load of machine `b` when `i` jobs are placed. */
  function TightLoad(m: nat, i: nat, b: nat): int
    requires b < m
  {
    (if b < i then Weight(m, b) else 0)
    + (if Partner(m, b) < i then 3 * m - 1 - Weight(m, b) else 0)
    + (if 2 * m < i && b == 0 then m else 0)
  }

  /** Of two machines without a second job, the one that is to get it first is lighter, or as light and earlier. */
  lemma LaterPartnerIsHeavier(m: nat, b: nat, c: nat)
    requires b < m && c < m && Partner(m, b) < Partner(m, c)
    ensures Weight(m, b) <= Weight(m, c)
    ensures c < b ==> Weight(m, b) < Weight(m, c)
  {
  }

  lemma TightChoice(m: nat, i: nat, loads: seq<int>)
    requires m >= 1 && i <= 2 * m && |loads| == m
    requires forall b :: 0 <= b < m ==> loads[b] == TightLoad(m, i, b)
    ensures 0 <= Target(m, i) < m && Lightest(loads) == Target(m, i)
  {
    forall b | 0 <= b < m
      ensures m <= Partner(m, b) < 2 * m && m <= Weight(m, b) <= 2 * m - 1
    {
      Partners(m, b);
    }
    if m <= i < 2 * m {
      TargetOfPartner(m, i, 0);
      var t := Target(m, i);
      TargetOfPartner(m, i, t);
      forall b | 0 <= b < m ensures loads[t] <= loads[b] && (b < t ==> loads[t] < loads[b]) {
        TargetOfPartner(m, i, b);
        if i < Partner(m, b) {
          LaterPartnerIsHeavier(m, t, b);
        }
      }
    }
    LightestIsFirst(loads, Target(m, i));
  }

  lemma TightStep(m: nat, i: nat, b: nat)
    requires m >= 1 && i <= 2 * m && b < m
    ensures TightLoad(m, i + 1, b) == TightLoad(m, i, b) + (if Target(m, i) == b then Weight(m, i) else 0)
  {
    Partners(m, b);
    if m <= i < 2 * m {
      TargetOfPartner(m, i, b);
    }
  }

  lemma {:induction false} TightLoads(m: nat, i: nat, b: nat)
    requires m >= 1 && i <= 2 * m + 1 && b < m
    ensures var ws := TightWeights(m);
            Load(ws[..i], Greedy(ws, m)[..i], b) == TightLoad(m, i, b)
    decreases i
  {
    var ws := TightWeights(m);
    var a := Greedy(ws, m);
    Partners(m, b);
    if i > 0 {
      var k := i - 1;
      var loads := Loads(ws[..k], a[..k], m);
      forall c | 0 <= c < m ensures loads[c] == TightLoad(m, k, c) {
        TightLoads(m, k, c);
      }
      GreedyAt(ws, m, k);
      TightChoice(m, k, loads);
      TightStep(m, k, b);
      OneMore(ws, k);
      OneMore(a, k);
      LoadOfExtended(ws[..k], ws[k], a[..k], a[k], b);
    }
  }

  // ----- a better schedule

  /** The three jobs of weight m together, and of the others the heaviest with the lightest. */
  function AltTarget(m: nat, i: nat): nat
    requires m >= 1
  {
    if i >= 2 * m - 2 then m - 1 else if i < m - 1 then i else 2 * m - 3 - i
  }

  function AltSchedule(m: nat): (a: seq<nat>)
    requires m >= 1
    ensures |a| == 2 * m + 1 && forall i :: 0 <= i < |a| ==> a[i] == AltTarget(m, i)
  {
    seq(2 * m + 1, i requires 0 <= i => AltTarget(m, i))
  }

  function AltLoad(m: nat, i: nat, b: nat): int
    requires b < m
  {
    if b < m - 1 then (if b < i then Weight(m, b) else 0) + (if 2 * m - 3 - b < i then 3 * m - Weight(m, b) else 0)
    else (if 2 * m - 2 < i then m else 0) + (if 2 * m - 1 < i then m else 0) + (if 2 * m < i then m else 0)
  }

  lemma AltStep(m: nat, i: nat, b: nat)
    requires m >= 1 && i <= 2 * m && b < m
    ensures AltLoad(m, i + 1, b) == AltLoad(m, i, b) + (if AltTarget(m, i) == b then Weight(m, i) else 0)
  {
  }

  lemma {:induction false} AltLoads(m: nat, i: nat, b: nat)
    requires m >= 1 && i <= 2 * m + 1 && b < m
    ensures Load(TightWeights(m)[..i], AltSchedule(m)[..i], b) == AltLoad(m, i, b)
  {
    var ws, a := TightWeights(m), AltSchedule(m);
    if i > 0 {
      var k := i - 1;
      AltLoads(m, k, b);
      AltStep(m, k, b);
      OneMore(ws, k);
      OneMore(a, k);
      LoadOfExtended(ws[..k], ws[k], a[..k], a[k], b);
    }
  }

  // ----- the files

  function Letters(n: nat): (s: string)
    ensures |s| == n
  {
    if n == 0 then [] else ['a'] + Letters(n - 1)
  }

  lemma {:induction false} LettersGrow(i: nat, j: nat)
    requires i <= j
    ensures TextLe(Letters(i), Letters(j))
  {
    if i > 0 {
      LettersGrow(i - 1, j - 1);
      assert Letters(i)[1..] == Letters(i - 1) && Letters(j)[1..] == Letters(j - 1);
    }
  }

  function TightFiles(m: nat): (files: seq<TestFile>)
    ensures |files| == 2 * m + 1
    ensures forall i :: 0 <= i < |files| ==> files[i] == TestFile(Letters(i), Weight(m, i))
  {
    seq(2 * m + 1, i requires 0 <= i => TestFile(Letters(i), Weight(m, i)))
  }

  lemma TightFilesInOrder(m: nat)
    ensures ByWeight(TightFiles(m)) == TightFiles(m)
  {
    var files := TightFiles(m);
    RunsBeforeIsTotal();
    SortBySorts(RunsBefore, files);
    forall i, j | 0 <= i < j < |files| ensures RunsBefore(files[i], files[j]) {
      LettersGrow(i, j);
    }
    SortedIsUnique(RunsBefore, ByWeight(files), files);
  }

  lemma TightFilesShard(m: nat)
    requires m >= 1
    ensures BuildSpec(TightFiles(m), m).Ok?
  {
    var files := TightFiles(m);
    AllPositive(files);
    forall i, j | 0 <= i < j < |files| ensures Paths(files)[i] != Paths(files)[j] {
      assert |Paths(files)[i]| == i && |Paths(files)[j]| == j;
    }
    BuildSucceedsIff(files, m);
  }

  lemma FirstShardIsHeavy(m: nat)
    requires m >= 1 && BuildSpec(TightFiles(m), m).Ok?
    ensures BuildSpec(TightFiles(m), m).value[0].weight == 4 * m - 1
  {
    var files, ws := TightFiles(m), TightWeights(m);
    TightFilesInOrder(m);
    assert Weights(files) == ws;
    ReturnedShard(files, m, 0);
    TightLoads(m, |ws|, 0);
    assert ws[..|ws|] == ws && Greedy(ws, m)[..|ws|] == Greedy(ws, m);
    Partners(m, 0);
  }

  lemma AltIsEven(m: nat, b: nat)
    requires b < m
    ensures Load(TightWeights(m), AltSchedule(m), b) == 3 * m
  {
    var ws, a := TightWeights(m), AltSchedule(m);
    assert ws[..|ws|] == ws && a[..|ws|] == a;
    AltLoads(m, |ws|, b);
  }

  /**
    The factor cannot be lowered for any number of shards: the first of `m` shards gets 4m - 1, while
    another split of the same files gives every shard 3m.
  */
  lemma GrahamBoundIsReached(m: nat)
    requires m >= 1
    ensures var files := TightFiles(m);
            && BuildSpec(files, m).Ok?
            && IsSchedule(AltSchedule(m), |files|, m)
            && (forall b :: 0 <= b < m ==> Load(Weights(files), AltSchedule(m), b) == 3 * m)
            && BuildSpec(files, m).value[0].weight == 4 * m - 1
            && 3 * m * BuildSpec(files, m).value[0].weight == (4 * m - 1) * (3 * m)
  {
    assert Weights(TightFiles(m)) == TightWeights(m);
    TightFilesShard(m);
    FirstShardIsHeavy(m);
    forall b | 0 <= b < m ensures Load(TightWeights(m), AltSchedule(m), b) == 3 * m {
      AltIsEven(m, b);
    }
  }
}
