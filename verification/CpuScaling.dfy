/** Proportional CPU shares cut out of a real pool: `scale_cpusets` of oss_crs/src/cpuset.py.

    The product `allocations[name] / total * pool_size` is computed by the program in floating
    point. Its truncated value is the table `base` here, with any integers in it; what is true
    when the division is exact is stated apart, in module CpuFairness. */
module CpuScaling {
  import opened Outcomes
  import opened Text
  import opened Cpuset
  import opened Shares

  const INFRA := "oss_crs_infra"

  function AtLeastOne(n: int): int {
    if n < 1 then 1 else n
  }

  /** Every entry has its estimate, but at least one. */
  ghost predicate IsFloored(names: seq<string>, base: Table, floored: Table) {
    && Has(names, base)
    && Has(names, floored)
    && floored.Keys == (set name | name in names)
    && forall n :: n in names ==> floored[n] == if base[n] >= 1 then base[n] else 1
  }

  // ----- shrinking -----

  /** The outcome of the shrink loop, without its steps: shares only go down and stay at least 1,
      the sum is cut to the target if it was larger, and no entry was reduced below the point
      where it was the largest entry (ties by name) before its last reduction. */
  ghost predicate IsLevelling(names: seq<string>, w: Table, f: Table, target: int) {
    && Has(names, w) && Has(names, f)
    && f.Keys == w.Keys
    && (forall n :: n in names ==> 1 <= f[n] <= w[n])
    && Sum(names, f) == (if Sum(names, w) > target then target else Sum(names, w))
    && (forall a, b :: a in names && b in names && f[a] < w[a] && a != b ==> NextToShrink(a, b, f))
    && (forall n :: n in w && n !in names ==> f[n] == w[n])
  }

  /** One unit ago, a came before b in the order in which entries are shrunk. */
  ghost predicate NextToShrink(a: string, b: string, f: Table)
    requires a in f && b in f
  {
    f[a] + 1 > f[b] || (f[a] + 1 == f[b] && NotAbove(a, b))
  }

  /** The entries that can still give up a CPU. */
  function Shrinkable(names: seq<string>, w: Table): (r: seq<string>)
    requires Has(names, w)
    ensures Has(r, w) && forall x :: x in r <==> x in names && w[x] > 1
  {
    if names == [] then []
    else if w[names[0]] > 1 then [names[0]] + Shrinkable(names[1..], w)
    else Shrinkable(names[1..], w)
  }

  /** What holds between two rounds of the shrink loop. */
  ghost predicate Shrinking(names: seq<string>, start: Table, f: Table, target: int) {
    && Has(names, start) && Has(names, f)
    && f.Keys == start.Keys
    && (forall n :: n in names ==> 1 <= f[n] <= start[n])
    && (f == start || target <= Sum(names, f) <= Sum(names, start))
    && (forall a, b :: a in names && b in names && f[a] < start[a] && a != b ==> NextToShrink(a, b, f))
    && (forall n :: n in start && n !in names ==> f[n] == start[n])
  }

  lemma ShrinkStep(names: seq<string>, start: Table, f: Table, target: int, first: string)
    requires Distinct(names) && Shrinking(names, start, f, target) && Sum(names, f) > target
    requires first in names && f[first] > 1
    requires forall b :: b in names && b != first ==> f[b] <= 1 || Precedes(first, b, f)
    ensures Sum(names, f[first := f[first] - 1]) == Sum(names, f) - 1
    ensures Shrinking(names, start, f[first := f[first] - 1], target)
  {
    SumUpdate(names, f, first, f[first] - 1);
    var g := f[first := f[first] - 1];
    forall a, b | a in names && b in names && g[a] < start[a] && a != b
      ensures NextToShrink(a, b, g)
    {
      if a == first {
        assert f[b] <= 1 || Precedes(first, b, f);
      } else {
        assert NextToShrink(a, b, f);
      }
    }
  }

  /** The shrink loop. With at least one CPU per entry it never runs out of shrinkable entries,
      so its `break` is not reached. */
  method Shrink(names: seq<string>, start: Table, poolSize: nat) returns (scaled: Table)
    requires Distinct(names) && Has(names, start) && |names| <= poolSize
    requires forall n :: n in names ==> start[n] >= 1
    ensures IsLevelling(names, start, scaled, poolSize)
  {
    scaled := start;
    while Sum(names, scaled) > poolSize
      invariant Shrinking(names, start, scaled, poolSize)
      decreases Sum(names, scaled) - poolSize
    {
      var shrinkable := Shrinkable(names, scaled);
      if shrinkable == [] {
        AllOnesFit(names, scaled);
        assert false;
        break;
      }
      var first := SortByShare(shrinkable, scaled)[0];
      FirstIsLargest(names, scaled);
      ShrinkStep(names, start, scaled, poolSize, first);
      scaled := scaled[first := scaled[first] - 1];
    }
  }

  lemma AllOnesFit(names: seq<string>, w: Table)
    requires Has(names, w) && forall n :: n in names ==> w[n] == 1
    ensures Sum(names, w) == |names|
    decreases |names|
  {
    if names != [] {
      AllOnesFit(names[..|names| - 1], w);
    }
  }

  lemma FirstIsLargest(names: seq<string>, w: Table)
    requires Has(names, w) && Shrinkable(names, w) != []
    ensures var sorted := SortByShare(Shrinkable(names, w), w);
      && sorted != [] && sorted[0] in names && sorted[0] in w && w[sorted[0]] > 1
      && forall b :: b in names && b != sorted[0] ==> w[b] <= 1 || Precedes(sorted[0], b, w)
  {
    var shrinkable := Shrinkable(names, w);
    var sorted := SortByShare(shrinkable, w);
    SameMembers(shrinkable, sorted);
    SortOrdered(shrinkable, w);
    assert sorted[0] in sorted;
    forall b | b in names && b != sorted[0] && w[b] > 1
      ensures Precedes(sorted[0], b, w)
    {
      OrderedFirst(sorted, w, b);
    }
  }

  /** Only one table levels a given one. */
  lemma LevellingUnique(names: seq<string>, w: Table, f: Table, g: Table, target: int)
    requires IsLevelling(names, w, f, target) && IsLevelling(names, w, g, target)
    ensures f == g
  {
    forall n | n in f
      ensures f[n] == g[n]
    {
      if n in names {
        LevellingNotAbove(names, w, f, g, target, n);
        LevellingNotAbove(names, w, g, f, target, n);
      }
    }
  }

  lemma LevellingNotAbove(names: seq<string>, w: Table, f: Table, g: Table, target: int, a: string)
    requires IsLevelling(names, w, f, target) && IsLevelling(names, w, g, target) && a in names
    ensures f[a] <= g[a]
  {
    if exists b :: b in names && g[b] > f[b] {
      var b :| b in names && g[b] > f[b];
      if f[a] > g[a] {
        assert NextToShrink(a, b, g) && NextToShrink(b, a, f);
        StringLeMeans(a, b);
        StringLeMeans(b, a);
        StringLeAntisymmetric(a, b);
      }
    } else {
      SumAtMost(names, g, f);
    }
  }

  // ----- the remainder -----

  /** The entries that receive left-over CPUs: all but the infrastructure one, or everybody. */
  function Receivers(names: seq<string>): (r: seq<string>)
    ensures forall n :: n in r ==> n in names
  {
    if Others(names) == [] then names else Others(names)
  }

  function Others(names: seq<string>): (r: seq<string>)
    ensures forall x :: x in r <==> x in names && x != INFRA
    ensures |r| <= |names| && (INFRA in names ==> |r| < |names|)
  {
    if names == [] then []
    else if names[0] == INFRA then Others(names[1..])
    else [names[0]] + Others(names[1..])
  }

  lemma {:induction false} OthersDistinct(names: seq<string>)
    requires Distinct(names)
    ensures Distinct(Others(names))
    ensures INFRA in names ==> |Others(names)| == |names| - 1
    ensures INFRA !in names ==> Others(names) == names
  {
    if names != [] {
      OthersDistinct(names[1..]);
      assert names == [names[0]] + names[1..];
      if names[0] != INFRA {
        var rest := Others(names[1..]);
        forall j | 0 <= j < |rest|
          ensures rest[j] != names[0]
        {
          assert rest[j] in names[1..];
        }
      } else {
        assert INFRA !in names[1..];
      }
    }
  }

  lemma ReceiversMean(names: seq<string>)
    ensures forall x :: x in Receivers(names) <==> x in names && (x != INFRA || forall y :: y in names ==> y == INFRA)
  {
    forall x
      ensures x in Receivers(names) <==> x in names && (x != INFRA || forall y :: y in names ==> y == INFRA)
    {
      if Others(names) != [] {
        assert Others(names)[0] in names && Others(names)[0] != INFRA;
      }
    }
  }

  /** `crs_names` in the order in which they are served: largest template share first. */
  function ServingOrder(names: seq<string>, alloc: Table): seq<string>
    requires Has(names, alloc)
  {
    SortByShare(Receivers(names), alloc)
  }

  /** Each entry but infrastructure, or each entry if there is no other, is served in turn, larger template
      share first, ties by name. */
  lemma ServingOrderCorrect(names: seq<string>, alloc: Table)
    requires Distinct(names) && Has(names, alloc)
    ensures var order := ServingOrder(names, alloc);
      && Distinct(order) && Has(order, alloc) && Ordered(order, alloc)
      && |order| == |Receivers(names)|
      && (names != [] ==> order != [])
      && (forall x :: x in order <==> x in Receivers(names))
      && (forall x :: x in order <==>
            x in names && (x != "oss_crs_infra" || forall y :: y in names ==> y == "oss_crs_infra"))
  {
    OthersDistinct(names);
    ReceiversMean(names);
    SameMembers(Receivers(names), ServingOrder(names, alloc));
    SortOrdered(Receivers(names), alloc);
  }

  // ----- the shares -----

  /** The shares computed by scale_cpusets: floors of at least 1, levelled to the pool,
      then completed to the pool size round robin. */
  ghost predicate IsScaling(names: seq<string>, alloc: Table, base: Table, poolSize: nat, scaled: Table) {
    exists floored, levelled :: ScalesVia(names, alloc, base, poolSize, floored, levelled, scaled)
  }

  ghost predicate ScalesVia(names: seq<string>, alloc: Table, base: Table, poolSize: nat,
                            floored: Table, levelled: Table, scaled: Table) {
    && Has(names, alloc)
    && IsFloored(names, base, floored)
    && IsLevelling(names, floored, levelled, poolSize)
    && HandedOut(ServingOrder(names, alloc), levelled, scaled, poolSize - Sum(names, levelled), 1)
    && Has(names, scaled)
    && Sum(names, scaled) == poolSize
  }

  /** The loop over all entries that raises the estimates to at least one. */
  method FloorShares(names: seq<string>, base: Table) returns (floored: Table)
    requires Has(names, base)
    ensures IsFloored(names, base, floored)
  {
    floored := map[];
    for i := 0 to |names|
      invariant floored.Keys == set name | name in names[..i]
      invariant forall j :: 0 <= j < i ==> names[j] in floored && floored[names[j]] == AtLeastOne(base[names[j]])
    {
      floored := floored[names[i] := AtLeastOne(base[names[i]])];
    }
    assert names[..|names|] == names;
  }

  /** The three loops that compute the shares: floors, shrinking, and the remainder. */
  method ScaleShares(names: seq<string>, alloc: Table, base: Table, poolSize: nat) returns (scaled: Table)
    requires Distinct(names) && names != [] && |names| <= poolSize
    requires Has(names, alloc) && Has(names, base)
    ensures IsScaling(names, alloc, base, poolSize, scaled)
  {
    scaled := FloorShares(names, base);
    ghost var floored := scaled;
    scaled := Shrink(names, scaled, poolSize);
    ghost var levelled := scaled;
    var remainder := poolSize - Sum(names, scaled);
    var order := ServingOrder(names, alloc);
    ServingOrderCorrect(names, alloc);
    if remainder > 0 {
      scaled := HandOut(names, order, scaled, remainder, 1);
    } else {
      NothingHandedOut(order, scaled);
    }
    assert ScalesVia(names, alloc, base, poolSize, floored, levelled, scaled);
  }

  lemma NothingHandedOut(order: seq<string>, w: Table)
    requires order != [] && Has(order, w)
    ensures HandedOut(order, w, w, 0, 1)
  {
  }

  lemma FlooredUnique(names: seq<string>, base: Table, a: Table, b: Table)
    requires IsFloored(names, base, a) && IsFloored(names, base, b)
    ensures a == b
  {
  }

  /** The shares are a function of the inputs. */
  lemma ScalingUnique(names: seq<string>, alloc: Table, base: Table, poolSize: nat, a: Table, b: Table)
    requires IsScaling(names, alloc, base, poolSize, a) && IsScaling(names, alloc, base, poolSize, b)
    ensures a == b
  {
    var fa, la :| ScalesVia(names, alloc, base, poolSize, fa, la, a);
    var fb, lb :| ScalesVia(names, alloc, base, poolSize, fb, lb, b);
    FlooredUnique(names, base, fa, fb);
    LevellingUnique(names, fa, la, lb, poolSize);
    ViaUnique(names, alloc, base, poolSize, fa, la, a, b);
  }

  lemma ViaUnique(names: seq<string>, alloc: Table, base: Table, poolSize: nat,
                  floored: Table, levelled: Table, a: Table, b: Table)
    requires ScalesVia(names, alloc, base, poolSize, floored, levelled, a)
    requires ScalesVia(names, alloc, base, poolSize, floored, levelled, b)
    ensures a == b
  {
    HandedOutUnique(ServingOrder(names, alloc), levelled, a, b, poolSize - Sum(names, levelled), 1);
  }

  // ----- cutting the pool -----

  /** The i-th of consecutive slices of the pool. */
  function Slice(pool: seq<nat>, names: seq<string>, w: Table, i: nat): (slice: set<nat>)
    requires i < |names| && Has(names, w)
    requires 0 <= Sum(names[..i], w) <= Sum(names[..i + 1], w) <= |pool|
  {
    Elements(pool[Sum(names[..i], w)..Sum(names[..i + 1], w)])
  }

  lemma {:induction false} OffsetsGrow(names: seq<string>, w: Table, i: nat, j: nat)
    requires Has(names, w) && i <= j <= |names|
    requires forall n :: n in names ==> w[n] >= 1
    ensures 0 <= Sum(names[..i], w) && Sum(names[..i], w) + (j - i) <= Sum(names[..j], w)
    decreases j
  {
    if i < j {
      PrefixSum(names, w, j - 1);
      OffsetsGrow(names, w, i, j - 1);
    } else {
      SumAtLeast(names[..i], w, 0);
    }
  }

  lemma PrefixSum(names: seq<string>, w: Table, i: nat)
    requires Has(names, w) && i < |names|
    ensures Sum(names[..i + 1], w) == Sum(names[..i], w) + w[names[i]]
  {
    assert names[..i + 1][..i] == names[..i];
  }

  ghost predicate Fits(pool: seq<nat>, names: seq<string>, w: Table) {
    && Has(names, w) && Distinct(names) && Ascending(pool)
    && (forall n :: n in names ==> w[n] >= 1)
    && Sum(names, w) <= |pool|
  }

  lemma SliceBounds(pool: seq<nat>, names: seq<string>, w: Table, i: nat)
    requires Fits(pool, names, w) && i < |names|
    ensures 0 <= Sum(names[..i], w) < Sum(names[..i + 1], w) <= |pool|
    ensures Slice(pool, names, w, i) != {}
    ensures Slice(pool, names, w, i) <= Elements(pool)
  {
    OffsetsGrow(names, w, i, i + 1);
    OffsetsGrow(names, w, i + 1, |names|);
    assert names[..|names|] == names;
    var lo := Sum(names[..i], w);
    assert pool[lo] in pool[lo..Sum(names[..i + 1], w)];
    assert pool[lo] in Slice(pool, names, w, i);
  }

  /** Every CPU of an earlier slice is below every CPU of a later one. */
  lemma SlicesAscend(pool: seq<nat>, names: seq<string>, w: Table, i: nat, j: nat, m: nat, n: nat)
    requires Fits(pool, names, w) && i < j < |names|
    requires 0 <= Sum(names[..i], w) <= Sum(names[..i + 1], w) <= |pool|
    requires 0 <= Sum(names[..j], w) <= Sum(names[..j + 1], w) <= |pool|
    requires m in Slice(pool, names, w, i) && n in Slice(pool, names, w, j)
    ensures m < n
  {
    OffsetsGrow(names, w, i + 1, j);
    var p := AtIndex(pool, Sum(names[..i], w), Sum(names[..i + 1], w), m);
    var q := AtIndex(pool, Sum(names[..j], w), Sum(names[..j + 1], w), n);
    assert p < q;
  }

  lemma AtIndex(pool: seq<nat>, lo: nat, hi: nat, m: nat) returns (p: nat)
    requires lo <= hi <= |pool| && m in pool[lo..hi]
    ensures lo <= p < hi && pool[p] == m
  {
    var k :| 0 <= k < |pool[lo..hi]| && pool[lo..hi][k] == m;
    p := lo + k;
  }

  /** Some slice contains any given pool index below the total. */
  lemma {:induction false} SliceAt(names: seq<string>, w: Table, p: nat, k: nat) returns (i: nat)
    requires Has(names, w) && k <= |names| && (forall n :: n in names ==> w[n] >= 1)
    requires p < Sum(names[..k], w)
    ensures i < k && Sum(names[..i], w) <= p < Sum(names[..i + 1], w)
    decreases k
  {
    assert k > 0;
    PrefixSum(names, w, k - 1);
    if p < Sum(names[..k - 1], w) {
      i := SliceAt(names, w, p, k - 1);
    } else {
      i := k - 1;
    }
  }

  /** What a table of printed CPU sets must satisfy to be a partition of the pool: parsed again, its
      texts are sets that are non-empty, pairwise disjoint, and together the pool. */
  ghost predicate PartitionsPool(result: map<string, string>, names: seq<string>, pool: set<nat>) {
    exists sets :: Denotes(result, names, sets) && PartitionSets(sets, pool)
  }

  /** The texts of the entries denote these sets, and there are no other texts. */
  ghost predicate Denotes(texts: map<string, string>, names: seq<string>, sets: map<string, set<nat>>) {
    && SameNames(texts, names, sets)
    && forall n :: n in names ==> DenotesAt(texts, sets, n)
  }

  ghost predicate SameNames(texts: map<string, string>, names: seq<string>, sets: map<string, set<nat>>) {
    forall n :: (n in texts <==> n in names) && (n in sets <==> n in names)
  }

  predicate DenotesAt(texts: map<string, string>, sets: map<string, set<nat>>, n: string) {
    n in texts && n in sets && Meaning(texts[n]) == Success(sets[n])
  }

  ghost predicate PartitionSets(sets: map<string, set<nat>>, pool: set<nat>) {
    && (forall n :: n in sets ==> sets[n] != {} && sets[n] <= pool)
    && (forall m, n :: m in sets && n in sets && m != n ==> sets[m] !! sets[n])
    && forall cpu :: cpu in pool ==> Covered(sets, cpu)
  }

  ghost predicate Covered(sets: map<string, set<nat>>, cpu: nat) {
    exists n :: n in sets && cpu in sets[n]
  }

  /** The texts produced from a table of shares: consecutive slices in entry order. */
  ghost predicate IsCut(pool: seq<nat>, names: seq<string>, w: Table, result: map<string, string>) {
    && result.Keys == (set n | n in names)
    && forall i :: 0 <= i < |names| ==> CutAt(pool, names, w, result, i)
  }

  ghost predicate CutAt(pool: seq<nat>, names: seq<string>, w: Table, result: map<string, string>, i: nat)
    requires i < |names|
  {
    && Has(names, w)
    && 0 <= Sum(names[..i], w) < Sum(names[..i + 1], w) <= |pool|
    && names[i] in result
    && Slice(pool, names, w, i) != {}
    && result[names[i]] == CpusetText(Slice(pool, names, w, i))
  }

  /** The first k entries have their slices. */
  ghost predicate CutUpTo(pool: seq<nat>, names: seq<string>, w: Table, result: map<string, string>, k: nat)
    requires k <= |names|
  {
    && result.Keys == (set n | n in names[..k])
    && forall i :: 0 <= i < k ==> CutAt(pool, names, w, result, i)
  }

  /** The loop that cuts consecutive slices from the sorted pool and prints them. */
  method Cut(pool: seq<nat>, names: seq<string>, w: Table) returns (result: map<string, string>)
    requires Fits(pool, names, w)
    ensures IsCut(pool, names, w, result)
  {
    result := map[];
    var offset := 0;
    for i := 0 to |names|
      invariant offset == Sum(names[..i], w)
      invariant CutUpTo(pool, names, w, result, i)
    {
      result, offset := AssignSlice(pool, names, w, result, i, names[i], offset, w[names[i]]);
    }
    CutAll(pool, names, w, result);
  }

  /** The next slice of the pool is printed for the next entry. */
  method AssignSlice(pool: seq<nat>, ghost names: seq<string>, ghost w: Table, result: map<string, string>,
                     ghost i: nat, name: string, offset: nat, count: int)
    returns (next: map<string, string>, nextOffset: nat)
    requires Fits(pool, names, w) && i < |names| && CutUpTo(pool, names, w, result, i)
    requires name == names[i] && offset == Sum(names[..i], w) && count == w[name]
    ensures nextOffset == Sum(names[..i + 1], w)
    ensures CutUpTo(pool, names, w, next, i + 1)
  {
    ghost var lo, hi := SliceRange(pool, names, w, i);
    nextOffset := offset + count;
    assert nextOffset == hi;
    var text := CpusetToStr(Elements(pool[offset..nextOffset]));
    CutStep(pool, names, w, result, i, lo, hi, text.value);
    next := result[name := text.value];
  }

  lemma CutAll(pool: seq<nat>, names: seq<string>, w: Table, result: map<string, string>)
    requires CutUpTo(pool, names, w, result, |names|)
    ensures IsCut(pool, names, w, result)
  {
    assert names[..|names|] == names;
  }

  lemma SliceRange(pool: seq<nat>, names: seq<string>, w: Table, i: nat) returns (lo: nat, hi: nat)
    requires Fits(pool, names, w) && i < |names|
    ensures lo == Sum(names[..i], w) && hi == Sum(names[..i + 1], w) == lo + w[names[i]]
    ensures lo < hi <= |pool| && Elements(pool[lo..hi]) != {}
  {
    SliceBounds(pool, names, w, i);
    PrefixSum(names, w, i);
    lo, hi := Sum(names[..i], w), Sum(names[..i + 1], w);
  }

  lemma CutStep(pool: seq<nat>, names: seq<string>, w: Table, result: map<string, string>,
                i: nat, lo: nat, hi: nat, text: string)
    requires i < |names| && Fits(pool, names, w)
    requires lo == Sum(names[..i], w) && hi == Sum(names[..i + 1], w) && lo < hi <= |pool|
    requires Elements(pool[lo..hi]) != {} && text == CpusetText(Elements(pool[lo..hi]))
    requires CutUpTo(pool, names, w, result, i)
    ensures CutUpTo(pool, names, w, result[names[i] := text], i + 1)
  {
    var next := result[names[i] := text];
    assert names[..i + 1] == names[..i] + [names[i]];
    forall j | 0 <= j < i + 1
      ensures CutAt(pool, names, w, next, j)
    {
      if j < i {
        assert CutAt(pool, names, w, result, j);
      }
    }
  }

  lemma CutReadsBack(pool: seq<nat>, names: seq<string>, w: Table, result: map<string, string>, i: nat)
    requires i < |names| && CutAt(pool, names, w, result, i)
    ensures Meaning(result[names[i]]) == Success(Slice(pool, names, w, i))
  {
    PrintThenParse(Slice(pool, names, w, i));
  }

  lemma InSlice(pool: seq<nat>, lo: nat, hi: nat, p: nat)
    requires lo <= p < hi <= |pool|
    ensures pool[p] in Elements(pool[lo..hi])
  {
    assert pool[lo..hi][p - lo] == pool[p];
  }

  /** Each entry has its slice. */
  ghost predicate AreSlices(pool: seq<nat>, names: seq<string>, w: Table, sets: map<string, set<nat>>) {
    && (forall n :: n in sets <==> n in names)
    && forall i: nat :: i < |names| ==> IsSlice(pool, names, w, sets, i)
  }

  ghost predicate IsSlice(pool: seq<nat>, names: seq<string>, w: Table, sets: map<string, set<nat>>, i: nat)
    requires i < |names|
  {
    && Has(names, w) && 0 <= Sum(names[..i], w) <= Sum(names[..i + 1], w) <= |pool|
    && names[i] in sets && sets[names[i]] == Slice(pool, names, w, i)
  }

  lemma {:induction false} SliceSets(pool: seq<nat>, names: seq<string>, w: Table, k: nat)
    returns (sets: map<string, set<nat>>)
    requires Fits(pool, names, w) && k <= |names|
    ensures forall n :: n in sets <==> n in names[..k]
    ensures forall i: nat :: i < k ==> IsSlice(pool, names, w, sets, i)
    decreases k
  {
    sets := map[];
    if k > 0 {
      var before := SliceSets(pool, names, w, k - 1);
      SliceBounds(pool, names, w, k - 1);
      sets := before[names[k - 1] := Slice(pool, names, w, k - 1)];
      assert names[..k] == names[..k - 1] + [names[k - 1]];
      forall i: nat | i < k
        ensures IsSlice(pool, names, w, sets, i)
      {
        assert i < k - 1 ==> IsSlice(pool, names, w, before, i);
      }
    }
  }

  lemma SlicesDisjoint(pool: seq<nat>, names: seq<string>, w: Table, i: nat, j: nat)
    requires Fits(pool, names, w) && i < |names| && j < |names| && i != j
    ensures 0 <= Sum(names[..i], w) <= Sum(names[..i + 1], w) <= |pool|
    ensures 0 <= Sum(names[..j], w) <= Sum(names[..j + 1], w) <= |pool|
    ensures Slice(pool, names, w, i) !! Slice(pool, names, w, j)
  {
    SliceBounds(pool, names, w, i);
    SliceBounds(pool, names, w, j);
    forall m | m in Slice(pool, names, w, i) && m in Slice(pool, names, w, j)
      ensures false
    {
      if i < j {
        SlicesAscend(pool, names, w, i, j, m, m);
      } else {
        SlicesAscend(pool, names, w, j, i, m, m);
      }
    }
  }

  lemma SlicesPartition(pool: seq<nat>, names: seq<string>, w: Table, sets: map<string, set<nat>>)
    requires Fits(pool, names, w) && Sum(names, w) == |pool| && AreSlices(pool, names, w, sets)
    ensures PartitionSets(sets, Elements(pool))
  {
    forall n | n in sets
      ensures sets[n] != {} && sets[n] <= Elements(pool)
    {
      var i: nat :| i < |names| && names[i] == n;
      assert IsSlice(pool, names, w, sets, i);
      SliceBounds(pool, names, w, i);
    }
    forall m, n | m in sets && n in sets && m != n
      ensures sets[m] !! sets[n]
    {
      var i: nat :| i < |names| && names[i] == m;
      var j: nat :| j < |names| && names[j] == n;
      assert IsSlice(pool, names, w, sets, i) && IsSlice(pool, names, w, sets, j);
      SlicesDisjoint(pool, names, w, i, j);
    }
    forall cpu | cpu in Elements(pool)
      ensures Covered(sets, cpu)
    {
      SlicesCover(pool, names, w, sets, cpu);
    }
  }

  lemma SlicesCover(pool: seq<nat>, names: seq<string>, w: Table, sets: map<string, set<nat>>, cpu: nat)
    requires Fits(pool, names, w) && Sum(names, w) == |pool| && AreSlices(pool, names, w, sets)
    requires cpu in Elements(pool)
    ensures Covered(sets, cpu)
  {
    var p: nat :| p < |pool| && pool[p] == cpu;
    assert names[..|names|] == names;
    var i := SliceAt(names, w, p, |names|);
    assert IsSlice(pool, names, w, sets, i);
    InSlice(pool, Sum(names[..i], w), Sum(names[..i + 1], w), p);
    assert names[i] in sets && cpu in sets[names[i]];
  }

  /** The texts cut for the entries denote their slices. */
  lemma CutDenotes(pool: seq<nat>, names: seq<string>, w: Table, result: map<string, string>,
                   sets: map<string, set<nat>>)
    requires IsCut(pool, names, w, result) && AreSlices(pool, names, w, sets)
    ensures Denotes(result, names, sets)
  {
    forall n | n in names
      ensures DenotesAt(result, sets, n)
    {
      var i: nat :| i < |names| && names[i] == n;
      assert IsSlice(pool, names, w, sets, i);
      CutReadsBack(pool, names, w, result, i);
    }
  }

  /** Cutting the whole pool yields texts that, parsed again, partition it. */
  lemma CutPartitions(pool: seq<nat>, names: seq<string>, w: Table, result: map<string, string>)
    requires Fits(pool, names, w) && Sum(names, w) == |pool| && IsCut(pool, names, w, result)
    ensures PartitionsPool(result, names, Elements(pool))
  {
    var sets := SliceSets(pool, names, w, |names|);
    assert names[..|names|] == names;
    SlicesPartition(pool, names, w, sets);
    CutDenotes(pool, names, w, result, sets);
  }

  // ----- the operation -----

  /** `scale_cpusets`; names are the keys of the allocations in order. It raises for an unreadable pool, or else
      for one with fewer CPUs than entries, or else, dividing by zero, without entries or with shares that sum
      to zero. */
  method ScaleCpusets(names: seq<string>, alloc: Table, base: Table, pool: string)
    returns (r: Result<map<string, string>, CpuError>, ghost shares: Table)
    requires Distinct(names) && Has(names, alloc) && Has(names, base)
    ensures var cpus := Meaning(pool);
      match r
      case Failure(e) =>
        if cpus.Failure? then e == cpus.error
        else if |cpus.value| < |names| then e == PoolTooSmall
        else e == DivisionByZero && (names == [] || Sum(names, alloc) == 0)
      case Success(_) => cpus.Success? && |cpus.value| >= |names| && names != [] && Sum(names, alloc) != 0
    ensures r.Success? ==>
              && IsScaling(names, alloc, base, |Meaning(pool).value|, shares)
              && IsCut(Sorted(Meaning(pool).value), names, shares, r.value)
  {
    shares := map[];
    var parsed := ParseCpuset(pool);
    if parsed.Failure? {
      return Failure(parsed.error), shares;
    }
    var poolCpus := Sorted(parsed.value);
    SortedCorrect(parsed.value);
    if |poolCpus| < |names| {
      return Failure(PoolTooSmall), shares;
    }
    if names == [] || Sum(names, alloc) == 0 {
      return Failure(DivisionByZero), shares;
    }
    var scaled := ScaleShares(names, alloc, base, |poolCpus|);
    SharesArePositive(names, alloc, base, |poolCpus|, scaled);
    var result := Cut(poolCpus, names, scaled);
    return Success(result), scaled;
  }

  lemma SharesArePositive(names: seq<string>, alloc: Table, base: Table, poolSize: nat, scaled: Table)
    requires IsScaling(names, alloc, base, poolSize, scaled)
    ensures Has(names, scaled) && Sum(names, scaled) == poolSize
    ensures forall n :: n in names ==> scaled[n] >= 1
  {
    var floored, levelled :| ScalesVia(names, alloc, base, poolSize, floored, levelled, scaled);
    var order := ServingOrder(names, alloc);
    forall n | n in names
      ensures scaled[n] >= levelled[n]
    {
      if n in order {
        var j :| 0 <= j < |order| && order[j] == n;
      }
    }
  }

  /** Main result: whatever the estimates, `scale_cpusets` hands out the whole pool.
      The texts it returns, parsed again, are non-empty, pairwise disjoint, and together the pool. */
  lemma ScalePartitions(names: seq<string>, alloc: Table, base: Table, pool: string,
                        shares: Table, result: map<string, string>)
    requires Distinct(names) && Meaning(pool).Success?
    requires IsScaling(names, alloc, base, |Meaning(pool).value|, shares)
    requires IsCut(Sorted(Meaning(pool).value), names, shares, result)
    ensures PartitionsPool(result, names, Meaning(pool).value)
  {
    SortedCorrect(Meaning(pool).value);
    SharesArePositive(names, alloc, base, |Meaning(pool).value|, shares);
    CutPartitions(Sorted(Meaning(pool).value), names, shares, result);
  }

  /** The size of a returned CPU set is the share of its entry. */
  lemma CutCounts(pool: seq<nat>, names: seq<string>, w: Table, result: map<string, string>, n: string)
    requires Fits(pool, names, w) && IsCut(pool, names, w, result) && n in names
    ensures n in result && Meaning(result[n]).Success? && |Meaning(result[n]).value| == w[n]
  {
    var i: nat :| i < |names| && names[i] == n;
    assert CutAt(pool, names, w, result, i);
    CutReadsBack(pool, names, w, result, i);
    SliceCount(pool, names, w, i);
  }

  lemma SliceCount(pool: seq<nat>, names: seq<string>, w: Table, i: nat)
    requires Fits(pool, names, w) && i < |names|
    ensures 0 <= Sum(names[..i], w) <= Sum(names[..i + 1], w) <= |pool|
    ensures |Slice(pool, names, w, i)| == w[names[i]]
  {
    SliceBounds(pool, names, w, i);
    PrefixSum(names, w, i);
    AscendingCount(pool[Sum(names[..i], w)..Sum(names[..i + 1], w)]);
  }

  lemma {:induction false} AscendingCount(s: seq<nat>)
    requires Ascending(s)
    ensures |Elements(s)| == |s|
  {
    if s != [] {
      AscendingCount(s[..|s| - 1]);
      FrontAndLast(s);
      LastIsNew(s);
    }
  }

  lemma LastIsNew(s: seq<nat>)
    requires s != [] && Ascending(s)
    ensures s[|s| - 1] !in Elements(s[..|s| - 1])
  {
  }
}
