/**
  Longest-processing-time scheduling: the arithmetic behind `build_shards`.

  A schedule of jobs `ws` is a sequence `a` of the same length, `a[i]` being the machine of
  job `i`.  `Greedy` is the rule of the source (lightest machine, lowest index on a tie), and
  `GrahamBound` is its approximation guarantee against every other schedule.
*/
module LptSchedule {

  ghost predicate IsSchedule(a: seq<nat>, jobs: nat, m: nat) {
    |a| == jobs && forall i :: 0 <= i < jobs ==> a[i] < m
  }

  function Sum(ws: seq<int>): int {
    if ws == [] then 0 else Sum(ws[..|ws| - 1]) + ws[|ws| - 1]
  }

  /** What schedule `a` puts on machine `b`. */
  function Load(ws: seq<int>, a: seq<nat>, b: nat): int
    requires |ws| == |a|
  {
    if ws == [] then 0
    else Load(ws[..|ws| - 1], a[..|a| - 1], b) + (if a[|a| - 1] == b then ws[|ws| - 1] else 0)
  }

  function Loads(ws: seq<int>, a: seq<nat>, m: nat): (loads: seq<int>)
    requires |ws| == |a|
    ensures |loads| == m && forall b :: 0 <= b < m ==> loads[b] == Load(ws, a, b)
  {
    seq(m, b requires 0 <= b < m => Load(ws, a, b))
  }

  /** The index of the least entry, the first one on a tie. */
  function Lightest(loads: seq<int>): (k: nat)
    requires loads != []
    ensures k < |loads|
    ensures forall i :: 0 <= i < |loads| ==> loads[k] <= loads[i]
    ensures forall i :: 0 <= i < k ==> loads[k] < loads[i]
  {
    var n := |loads| - 1;
    if n == 0 then 0
    else
      var k := Lightest(loads[..n]);
      assert forall i :: 0 <= i < n ==> loads[..n][i] == loads[i];
      if loads[n] < loads[k] then n else k
  }

  lemma LightestIsFirst(loads: seq<int>, k: nat)
    requires k < |loads|
    requires forall i :: 0 <= i < |loads| ==> loads[k] <= loads[i]
    requires forall i :: 0 <= i < k ==> loads[k] < loads[i]
    ensures k == Lightest(loads)
  {
    var l := Lightest(loads);
    assert loads[l] == loads[k];
  }

  /** Each job in turn goes to the machine that is lightest at that moment. */
  function Greedy(ws: seq<int>, m: nat): (a: seq<nat>)
    requires m >= 1
    ensures IsSchedule(a, |ws|, m)
  {
    if ws == [] then []
    else
      var before := Greedy(ws[..|ws| - 1], m);
      before + [Lightest(Loads(ws[..|ws| - 1], before, m))]
  }

  // ----- conservation

  lemma SumOfConcatLast(ws: seq<int>, w: int)
    ensures Sum(ws + [w]) == Sum(ws) + w
  {
    assert (ws + [w])[..|ws|] == ws;
  }

  lemma LoadOfExtended(ws: seq<int>, w: int, a: seq<nat>, x: nat, b: nat)
    requires |ws| == |a|
    ensures Load(ws + [w], a + [x], b) == Load(ws, a, b) + (if x == b then w else 0)
  {
    assert (ws + [w])[..|ws|] == ws && (a + [x])[..|a|] == a;
  }

  /** Putting `w` more on machine `x` raises the sum of all loads by `w`. */
  lemma {:induction false} SumOfBumped(was: seq<int>, now: seq<int>, x: nat, w: int)
    requires |was| == |now|
    requires forall b :: 0 <= b < |was| ==> now[b] == was[b] + (if b == x then w else 0)
    ensures Sum(now) == Sum(was) + (if x < |was| then w else 0)
  {
    if was != [] {
      var n := |was| - 1;
      SumOfBumped(was[..n], now[..n], x, w);
    }
  }

  lemma {:induction false} SumOfZeros(zs: seq<int>)
    requires forall b :: 0 <= b < |zs| ==> zs[b] == 0
    ensures Sum(zs) == 0
  {
    if zs != [] {
      SumOfZeros(zs[..|zs| - 1]);
    }
  }

  /** Every schedule distributes exactly the whole work. */
  lemma {:induction false} LoadsConserveWork(ws: seq<int>, a: seq<nat>, m: nat)
    requires IsSchedule(a, |ws|, m)
    ensures Sum(Loads(ws, a, m)) == Sum(ws)
  {
    if ws == [] {
      SumOfZeros(Loads(ws, a, m));
    } else {
      var n := |ws| - 1;
      LoadsConserveWork(ws[..n], a[..n], m);
      SumOfBumped(Loads(ws[..n], a[..n], m), Loads(ws, a, m), a[n], ws[n]);
    }
  }

  lemma {:induction false} SumAtLeast(xs: seq<int>, low: int)
    requires forall i :: 0 <= i < |xs| ==> low <= xs[i]
    ensures |xs| * low <= Sum(xs)
  {
    if xs != [] {
      SumAtLeast(xs[..|xs| - 1], low);
      assert |xs| * low == (|xs| - 1) * low + low;
    }
  }

  lemma {:induction false} SumAtMost(xs: seq<int>, high: int)
    requires forall i :: 0 <= i < |xs| ==> xs[i] <= high
    ensures Sum(xs) <= |xs| * high
  {
    if xs != [] {
      SumAtMost(xs[..|xs| - 1], high);
      assert |xs| * high == (|xs| - 1) * high + high;
    }
  }

  // ----- prefixes

  ghost predicate NonNegative(ws: seq<int>) {
    forall i :: 0 <= i < |ws| ==> 0 <= ws[i]
  }

  ghost predicate Descending(ws: seq<int>) {
    forall i, j :: 0 <= i <= j < |ws| ==> ws[i] >= ws[j]
  }

  lemma {:induction false} GreedyPrefix(ws: seq<int>, m: nat, k: nat)
    requires m >= 1 && k <= |ws|
    ensures Greedy(ws[..k], m) == Greedy(ws, m)[..k]
  {
    if k < |ws| {
      var n := |ws| - 1;
      GreedyPrefix(ws[..n], m, k);
      assert ws[..n][..k] == ws[..k];
      assert Greedy(ws, m)[..n][..k] == Greedy(ws, m)[..k];
    } else {
      assert ws[..k] == ws;
    }
  }

  /** Where the greedy rule puts job `k`, in terms of what it placed before. */
  lemma GreedyAt(ws: seq<int>, m: nat, k: nat)
    requires m >= 1 && k < |ws|
    ensures Greedy(ws[..k], m) == Greedy(ws, m)[..k]
    ensures Greedy(ws, m)[k] == Lightest(Loads(ws[..k], Greedy(ws, m)[..k], m))
  {
    GreedyPrefix(ws, m, k);
    GreedyPrefix(ws, m, k + 1);
    assert ws[..k + 1][..k] == ws[..k];
    assert Greedy(ws, m)[k] == Greedy(ws, m)[..k + 1][k];
  }

  lemma {:induction false} LoadGrows(ws: seq<int>, a: seq<nat>, b: nat, k: nat)
    requires |ws| == |a| && k <= |ws| && NonNegative(ws)
    ensures Load(ws[..k], a[..k], b) <= Load(ws, a, b)
    ensures (forall i :: k <= i < |a| ==> a[i] != b) ==> Load(ws[..k], a[..k], b) == Load(ws, a, b)
  {
    if k < |ws| {
      var n := |ws| - 1;
      LoadGrows(ws[..n], a[..n], b, k);
      assert ws[..n][..k] == ws[..k] && a[..n][..k] == a[..k];
    } else {
      assert ws[..k] == ws && a[..k] == a;
    }
  }

  /** The last job of machine `b`, if it has one. */
  lemma LastJobOn(a: seq<nat>, b: nat) returns (j: int)
    ensures -1 <= j < |a|
    ensures j >= 0 ==> a[j] == b
    ensures forall i :: j < i < |a| ==> a[i] != b
  {
    j := |a| - 1;
    while j >= 0 && a[j] != b
      invariant -1 <= j < |a|
      invariant forall i :: j < i < |a| ==> a[i] != b
    {
      j := j - 1;
    }
  }

  /** The least load when the jobs `ws` are placed by the greedy rule. */
  function LeastLoad(ws: seq<int>, m: nat): (least: int)
    requires m >= 1
    ensures forall b :: 0 <= b < m ==> least <= Load(ws, Greedy(ws, m), b)
  {
    var loads := Loads(ws, Greedy(ws, m), m);
    var k := Lightest(loads);
    assert forall b :: 0 <= b < m ==> loads[k] <= loads[b] == Load(ws, Greedy(ws, m), b);
    loads[k]
  }

  /** The greedy rule puts job `j` where the least load is, on the first such machine. */
  lemma GreedyTarget(ws: seq<int>, m: nat, j: nat)
    requires m >= 1 && j < |ws|
    ensures Load(ws[..j], Greedy(ws, m)[..j], Greedy(ws, m)[j]) == LeastLoad(ws[..j], m)
    ensures forall b :: 0 <= b < Greedy(ws, m)[j] ==> LeastLoad(ws[..j], m) < Load(ws[..j], Greedy(ws, m)[..j], b)
    ensures Greedy(ws[..j], m) == Greedy(ws, m)[..j]
  {
    GreedyAt(ws, m, j);
    var loads := Loads(ws[..j], Greedy(ws, m)[..j], m);
    var k := Lightest(loads);
    assert loads[k] == Load(ws[..j], Greedy(ws, m)[..j], k);
    forall b | 0 <= b < k ensures loads[k] < Load(ws[..j], Greedy(ws, m)[..j], b) {
      assert loads[k] < loads[b];
    }
  }

  /** A machine carries its last job and what it had before. */
  lemma LoadUpToLast(ws: seq<int>, a: seq<nat>, b: nat, j: nat)
    requires |ws| == |a| && j < |ws| && NonNegative(ws) && a[j] == b
    requires forall i :: j < i < |ws| ==> a[i] != b
    ensures Load(ws, a, b) == Load(ws[..j], a[..j], b) + ws[j]
  {
    LoadGrows(ws, a, b, j + 1);
    LoadOfExtended(ws[..j], ws[j], a[..j], b, b);
    assert ws[..j + 1] == ws[..j] + [ws[j]] && a[..j + 1] == a[..j] + [b];
  }

  /** Under the greedy rule, what it had before was the least load. */
  lemma LoadAtLastJob(ws: seq<int>, m: nat, b: nat, j: nat)
    requires m >= 1 && j < |ws| && NonNegative(ws)
    requires Greedy(ws, m)[j] == b
    requires forall i :: j < i < |ws| ==> Greedy(ws, m)[i] != b
    ensures Load(ws, Greedy(ws, m), b) == LeastLoad(ws[..j], m) + ws[j]
  {
    LoadUpToLast(ws, Greedy(ws, m), b, j);
    GreedyTarget(ws, m, j);
  }

  lemma LeastLoadGrows(ws: seq<int>, m: nat, j: nat, t: nat)
    requires m >= 1 && j < |ws| && t < m && NonNegative(ws)
    ensures LeastLoad(ws[..j], m) <= Load(ws, Greedy(ws, m), t)
  {
    GreedyTarget(ws, m, j);
    LoadGrows(ws, Greedy(ws, m), t, j);
    assert LeastLoad(ws[..j], m) <= Load(ws[..j], Greedy(ws[..j], m), t);
  }

  /**
    Local optimality: no machine exceeds another by more than any one of its own jobs, so no
    single job can be moved with profit.
  */
  lemma LocalOptimum(ws: seq<int>, m: nat, s: nat, t: nat, i: nat)
    requires m >= 1 && s < m && t < m && i < |ws|
    requires NonNegative(ws) && Descending(ws)
    requires Greedy(ws, m)[i] == s
    ensures Load(ws, Greedy(ws, m), s) <= Load(ws, Greedy(ws, m), t) + ws[i]
  {
    var j := LastJobOn(Greedy(ws, m), s);
    LoadAtLastJob(ws, m, s, j);
    LeastLoadGrows(ws, m, j, t);
    assert ws[j] <= ws[i];
  }

  // ----- Graham's bound

  lemma MulMono(k: int, x: int, y: int)
    requires k >= 0 && x <= y
    ensures k * x <= k * y
  {
  }

  /** Worth two units if it cannot share a machine of capacity `cap` with a job of size `w`. */
  function Valuation(ws: seq<int>, w: int, cap: int): (vs: seq<int>)
    ensures |vs| == |ws|
    ensures forall i :: 0 <= i < |ws| ==> vs[i] == if ws[i] + w > cap then 2 else 1
  {
    seq(|ws|, i requires 0 <= i < |ws| => if ws[i] + w > cap then 2 else 1)
  }

  /** The number of jobs of `a` on machine `b`. */
  function Count(a: seq<nat>, b: nat): nat {
    if a == [] then 0 else Count(a[..|a| - 1], b) + (if a[|a| - 1] == b then 1 else 0)
  }

  /** With every job at least `w`, a machine carries at least `w` per job, and more if one job is larger. */
  lemma {:induction false} LoadByCount(ws: seq<int>, a: seq<nat>, b: nat, w: int)
    requires |ws| == |a|
    requires forall i :: 0 <= i < |ws| ==> w <= ws[i]
    ensures Count(a, b) * w <= Load(ws, a, b)
    ensures forall i :: 0 <= i < |ws| && a[i] == b ==>
                          Count(a, b) >= 1 && ws[i] + (Count(a, b) - 1) * w <= Load(ws, a, b)
    ensures Count(a, b) == 0 ==> Load(ws, a, b) == 0
    ensures Count(a, b) == 1 ==> exists i :: 0 <= i < |ws| && a[i] == b && Load(ws, a, b) == ws[i]
  {
    if ws != [] {
      var n := |ws| - 1;
      LoadByCount(ws[..n], a[..n], b, w);
      var c := Count(a[..n], b);
      assert (c + 1) * w == c * w + w;
      assert c >= 1 ==> c * w == (c - 1) * w + w;
      forall i | 0 <= i < |ws| && a[i] == b
        ensures Count(a, b) >= 1 && ws[i] + (Count(a, b) - 1) * w <= Load(ws, a, b)
      {
        if i < n {
          assert ws[..n][i] == ws[i] && a[..n][i] == b;
        }
      }
      if Count(a, b) == 1 {
        if a[n] == b {
          assert Load(ws, a, b) == ws[n];
        } else {
          var i :| 0 <= i < n && a[..n][i] == b && Load(ws[..n], a[..n], b) == ws[..n][i];
          assert a[i] == b && ws[i] == ws[..n][i];
        }
      }
    }
  }

  /** A sum of ones and twos over the jobs of one machine. */
  lemma {:induction false} ValueByCount(vs: seq<int>, a: seq<nat>, b: nat)
    requires |vs| == |a|
    requires forall i :: 0 <= i < |vs| ==> 1 <= vs[i] <= 2
    ensures Count(a, b) <= Load(vs, a, b) <= 2 * Count(a, b)
    ensures (forall i :: 0 <= i < |vs| && a[i] == b ==> vs[i] == 1) ==> Load(vs, a, b) == Count(a, b)
    ensures (exists i :: 0 <= i < |vs| && a[i] == b && vs[i] == 2) ==> Load(vs, a, b) >= 2
  {
    if vs != [] {
      var n := |vs| - 1;
      ValueByCount(vs[..n], a[..n], b);
      forall i | 0 <= i < |vs| && a[i] == b && vs[i] == 2 ensures Load(vs, a, b) >= 2 {
        if i < n {
          assert vs[..n][i] == 2 && a[..n][i] == b;
        }
      }
    }
  }

  /** A machine of a schedule within capacity holds at most two units when `3 * w > cap`. */
  lemma FeasibleMachineIsSmall(ws: seq<int>, a: seq<nat>, b: nat, w: int, cap: int)
    requires |ws| == |a|
    requires forall i :: 0 <= i < |ws| ==> w <= ws[i]
    requires Load(ws, a, b) <= cap < 3 * w && 0 <= cap
    ensures Load(Valuation(ws, w, cap), a, b) <= 2
  {
    var vs := Valuation(ws, w, cap);
    var c := Count(a, b);
    LoadByCount(ws, a, b, w);
    ValueByCount(vs, a, b);
    AtMostTwo(c, w, cap);
    if c == 2 {
      forall i | 0 <= i < |ws| && a[i] == b ensures vs[i] == 1 {
        assert ws[i] + (c - 1) * w <= Load(ws, a, b);
        assert (c - 1) * w == w;
      }
    }
  }

  lemma AtMostTwo(c: nat, w: int, cap: int)
    requires c * w <= cap < 3 * w && 0 <= cap
    ensures c <= 2
  {
    if c >= 3 {
      MulMono(w, 3, c);
    }
  }

  /** A machine that would overflow with one more job of size `w` already holds two units. */
  lemma FullMachineIsLarge(ws: seq<int>, a: seq<nat>, b: nat, w: int, cap: int)
    requires |ws| == |a|
    requires forall i :: 0 <= i < |ws| ==> w <= ws[i]
    requires Load(ws, a, b) + w > cap >= w
    ensures Load(Valuation(ws, w, cap), a, b) >= 2
  {
    var vs := Valuation(ws, w, cap);
    LoadByCount(ws, a, b, w);
    ValueByCount(vs, a, b);
    if Count(a, b) == 1 {
      var i :| 0 <= i < |ws| && a[i] == b && Load(ws, a, b) == ws[i];
      assert vs[i] == 2;
    }
  }

  /** Some machine of `opt` carries the last job, so the capacity covers it. */
  lemma LastJobIsWithinCapacity(ws: seq<int>, w: int, m: nat, opt: seq<nat>, cap: int)
    requires w >= 0
    requires forall i :: 0 <= i < |ws| ==> w <= ws[i]
    requires IsSchedule(opt, |ws| + 1, m)
    requires forall b :: 0 <= b < m ==> Load(ws + [w], opt, b) <= cap
    ensures w <= cap
  {
    var b := opt[|ws|];
    LoadByCount(ws + [w], opt, b, w);
    assert (ws + [w])[|ws|] == w;
    MulMono(w, 0, Count(opt, b) - 1);
  }

  /** The count that makes an overflow of the greedy rule impossible. */
  lemma NoOverflowByCounting(ws: seq<int>, w: int, m: nat, g: seq<nat>, opt: seq<nat>, cap: int)
    requires 0 <= w <= cap < 3 * w
    requires forall i :: 0 <= i < |ws| ==> w <= ws[i]
    requires IsSchedule(g, |ws|, m) && IsSchedule(opt, |ws| + 1, m)
    requires forall b :: 0 <= b < m ==> Load(ws + [w], opt, b) <= cap
    ensures exists b :: 0 <= b < m && Load(ws, g, b) + w <= cap
  {
    if forall b :: 0 <= b < m ==> Load(ws, g, b) + w > cap {
      var all := ws + [w];
      var vs := Valuation(all, w, cap);
      var us := Valuation(ws, w, cap);
      assert vs == us + [vs[|ws|]];
      SumOfConcatLast(us, vs[|ws|]);
      forall b | 0 <= b < m ensures Loads(vs, opt, m)[b] <= 2 {
        FeasibleMachineIsSmall(all, opt, b, w, cap);
      }
      forall b | 0 <= b < m ensures Loads(us, g, m)[b] >= 2 {
        FullMachineIsLarge(ws, g, b, w, cap);
      }
      SumAtMost(Loads(vs, opt, m), 2);
      SumAtLeast(Loads(us, g, m), 2);
      LoadsConserveWork(vs, opt, m);
      LoadsConserveWork(us, g, m);
      assert false;
    }
  }

  /** Averaging: the lightest machine carries at most its share of the work. */
  lemma LightestIsBelowAverage(ws: seq<int>, m: nat)
    requires m >= 1
    ensures m * LeastLoad(ws, m) <= Sum(ws)
  {
    SumAtLeast(Loads(ws, Greedy(ws, m), m), LeastLoad(ws, m));
    LoadsConserveWork(ws, Greedy(ws, m), m);
  }

  /** `load` is at most (4/3 - 1/(3m)) * `cap`. */
  ghost predicate WithinGraham(m: nat, load: int, cap: int) {
    3 * m * load <= (4 * m - 1) * cap
  }

  lemma AveragingArithmetic(m: nat, least: int, w: int, total: int, cap: int)
    requires m >= 1 && m * least <= total - w && total <= m * cap && 3 * w <= cap
    ensures WithinGraham(m, least + w, cap)
  {
    calc <= {
      3 * m * (least + w);
      3 * (m * least) + 3 * (m * w);
      3 * (m * cap) + 3 * ((m - 1) * w);
      { MulMono(m - 1, 3 * w, cap); assert (m - 1) * (3 * w) == 3 * ((m - 1) * w); }
      3 * (m * cap) + (m - 1) * cap;
      (4 * m - 1) * cap;
    }
  }

  lemma BelowCapacity(m: nat, load: int, cap: int)
    requires m >= 1 && load <= cap && 0 <= cap
    ensures WithinGraham(m, load, cap)
  {
    MulMono(3 * m, load, cap);
    MulMono(cap, 3 * m, 4 * m - 1);
  }

  /** The bound for the machine that receives the last and smallest job `w`. */
  lemma BoundAtLastJob(ws: seq<int>, w: int, m: nat, opt: seq<nat>, cap: int)
    requires m >= 1 && w >= 0
    requires forall i :: 0 <= i < |ws| ==> w <= ws[i]
    requires IsSchedule(opt, |ws| + 1, m)
    requires forall b :: 0 <= b < m ==> Load(ws + [w], opt, b) <= cap
    ensures WithinGraham(m, LeastLoad(ws, m) + w, cap)
  {
    var g := Greedy(ws, m);
    var least := LeastLoad(ws, m);
    LastJobIsWithinCapacity(ws, w, m, opt, cap);
    if 3 * w <= cap {
      LightestIsBelowAverage(ws, m);
      LoadsConserveWork(ws + [w], opt, m);
      SumAtMost(Loads(ws + [w], opt, m), cap);
      SumOfConcatLast(ws, w);
      AveragingArithmetic(m, least, w, Sum(ws + [w]), cap);
    } else {
      NoOverflowByCounting(ws, w, m, g, opt, cap);
      var b :| 0 <= b < m && Load(ws, g, b) + w <= cap;
      assert least <= Load(ws, g, b);
      BelowCapacity(m, least + w, cap);
    }
  }

  lemma PrefixWithinCapacity(ws: seq<int>, m: nat, opt: seq<nat>, cap: int, k: nat)
    requires NonNegative(ws) && IsSchedule(opt, |ws|, m) && k <= |ws|
    requires forall b :: 0 <= b < m ==> Load(ws, opt, b) <= cap
    ensures IsSchedule(opt[..k], k, m)
    ensures forall b :: 0 <= b < m ==> Load(ws[..k], opt[..k], b) <= cap
  {
    forall b | 0 <= b < m ensures Load(ws[..k], opt[..k], b) <= cap {
      LoadGrows(ws, opt, b, k);
    }
  }

  /**
    Graham's bound for the longest-first rule: against every schedule whose heaviest machine
    carries at most `cap`, every machine of the greedy schedule carries at most
    (4/3 - 1/(3m)) * cap.
  */
  lemma GrahamBound(ws: seq<int>, m: nat, opt: seq<nat>, cap: int, b: nat)
    requires m >= 1 && b < m
    requires NonNegative(ws) && Descending(ws)
    requires IsSchedule(opt, |ws|, m)
    requires forall k :: 0 <= k < m ==> Load(ws, opt, k) <= cap
    ensures WithinGraham(m, Load(ws, Greedy(ws, m), b), cap)
  {
    var g := Greedy(ws, m);
    var j := LastJobOn(g, b);
    if j < 0 {
      LoadGrows(ws, g, b, 0);
      LoadGrows(ws, opt, 0, 0);
      BelowCapacity(m, Load(ws, g, b), cap);
    } else {
      PrefixWithinCapacity(ws, m, opt, cap, j + 1);
      assert ws[..j + 1] == ws[..j] + [ws[j]];
      BoundAtLastJob(ws[..j], ws[j], m, opt[..j + 1], cap);
      LoadAtLastJob(ws, m, b, j);
    }
  }
}
