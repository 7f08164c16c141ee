/** How fair the CPU shares of `scale_cpusets` are when the proportional estimates are exact. */
module CpuFairness {
  import opened Shares
  import opened CpuScaling

  /** base[n] is the floor of alloc[n] * poolSize / total. */
  ghost predicate ExactFloors(names: seq<string>, alloc: Table, base: Table, poolSize: nat, total: nat) {
    && total > 0
    && Has(names, alloc) && Has(names, base)
    && forall n :: n in names ==> alloc[n] >= 0 && base[n] == alloc[n] * poolSize / total
  }

  /** The number of entries whose exact share is below one CPU. */
  function Raised(names: seq<string>, base: Table): (k: nat)
    requires Has(names, base)
    ensures k <= |names|
  {
    if names == [] then 0
    else Raised(names[..|names| - 1], base) + if base[names[|names| - 1]] < 1 then 1 else 0
  }

  lemma FloorBounds(a: nat, p: nat, t: nat)
    requires t > 0
    ensures t * (a * p / t) <= a * p
    ensures t * (a * p / t) >= a * p - (t - 1)
  {
    var m := a * p;
    assert m == t * (m / t) + m % t;
  }

  /** The floors of proportional shares lose less than one CPU per entry. */
  lemma {:induction false} FloorSums(names: seq<string>, alloc: Table, base: Table, p: nat, t: nat)
    requires ExactFloors(names, alloc, base, p, t)
    ensures t * Sum(names, base) <= Sum(names, alloc) * p
    ensures t * Sum(names, base) >= Sum(names, alloc) * p - |names| * (t - 1)
  {
    if names != [] {
      var front, last := names[..|names| - 1], names[|names| - 1];
      FloorSums(front, alloc, base, p, t);
      FloorBounds(alloc[last], p, t);
      AddProducts(t, Sum(front, base), base[last]);
      AddProducts(p, Sum(front, alloc), alloc[last]);
      AddProducts(t - 1, |front|, 1);
    }
  }

  lemma AddProducts(k: int, a: int, b: int)
    ensures k * (a + b) == k * a + k * b
    ensures (a + b) * k == a * k + b * k
  {
  }

  /** Exact floors leave fewer CPUs than there are entries, and never exceed the pool. */
  lemma FloorTotal(names: seq<string>, alloc: Table, base: Table, p: nat)
    requires names != [] && Has(names, alloc) && Sum(names, alloc) > 0
    requires ExactFloors(names, alloc, base, p, Sum(names, alloc))
    ensures p - |names| < Sum(names, base) <= p
  {
    var t := Sum(names, alloc);
    FloorSums(names, alloc, base, p, t);
    var f := Sum(names, base);
    CancelLe(t, f, p);
    assert t * f >= t * p - |names| * (t - 1);
    assert |names| * (t - 1) == t * |names| - |names|;
    assert t * (f - p + |names|) == t * f - t * p + t * |names|;
    PositiveFactor(t, f - p + |names|);
  }

  lemma CancelLe(t: nat, a: int, b: int)
    requires t > 0 && t * a <= b * t
    ensures a <= b
  {
    if a > b {
      assert t * (a - b) == t * a - b * t;
      PositiveProduct(t, a - b);
    }
  }

  lemma PositiveProduct(t: int, x: int)
    requires t > 0 && x > 0
    ensures t * x > 0
  {
  }

  lemma PositiveFactor(t: nat, x: int)
    requires t * x > 0
    ensures x > 0
  {
  }

  lemma {:induction false} FlooredTotal(names: seq<string>, base: Table, floored: Table)
    requires Has(names, base) && Has(names, floored)
    requires forall n :: n in names ==> base[n] >= 0 && floored[n] == AtLeastOne(base[n])
    ensures Sum(names, floored) == Sum(names, base) + Raised(names, base)
  {
    if names != [] {
      FlooredTotal(names[..|names| - 1], base, floored);
    }
  }

  /** What exactness tells about the first table: the floors. */
  lemma FlooredFacts(names: seq<string>, alloc: Table, base: Table, p: nat, floored: Table)
    requires names != [] && Has(names, alloc) && Sum(names, alloc) > 0
    requires ExactFloors(names, alloc, base, p, Sum(names, alloc))
    requires IsFloored(names, base, floored)
    ensures forall n :: n in names ==> floored[n] == AtLeastOne(base[n]) && base[n] >= 0
    ensures Sum(names, floored) == Sum(names, base) + Raised(names, base)
    ensures p - |names| < Sum(names, base) <= p
  {
    forall n | n in names
      ensures floored[n] == AtLeastOne(base[n]) && base[n] >= 0
    {
      NonNegativeQuotient(alloc[n] * p, Sum(names, alloc));
      NonNegativeProduct(alloc[n], p);
    }
    FlooredTotal(names, base, floored);
    FloorTotal(names, alloc, base, p);
  }

  lemma NonNegativeProduct(a: int, b: int)
    requires a >= 0 && b >= 0
    ensures a * b >= 0
  {
  }

  lemma NonNegativeQuotient(a: int, t: int)
    requires t > 0
    ensures a >= 0 ==> a / t >= 0
  {
  }

  /** A larger template share has an exact floor that is at least as large. */
  lemma FloorsMonotone(a: nat, b: nat, p: nat, t: nat)
    requires t > 0 && a >= b
    ensures a * p / t >= b * p / t
  {
    AddProducts(p, a - b, b);
    NonNegativeProduct(a - b, p);
    QuotientMonotone(b * p, a * p, t);
  }

  lemma QuotientMonotone(x: nat, y: nat, t: nat)
    requires t > 0 && x <= y
    ensures x / t <= y / t
  {
    assert x == t * (x / t) + x % t && y == t * (y / t) + y % t;
    if y / t < x / t {
      assert t * (x / t - y / t) == t * (x / t) - t * (y / t);
      MulAtLeast(x / t - y / t, t);
    }
  }

  /** Levelling keeps the order of the floors up to one CPU. */
  lemma LevelledOrder(names: seq<string>, w: Table, f: Table, target: int, a: string, b: string)
    requires IsLevelling(names, w, f, target) && a in names && b in names && w[a] >= w[b]
    ensures f[a] >= f[b] - 1
  {
    if f[a] < w[a] && a != b {
      assert NextToShrink(a, b, f);
    }
  }

  /** Without shrinking, the remainder is less than the number of entries, so the round robin
      serves nobody twice: everyone gets the floor or one more, infrastructure exactly the floor. */
  lemma FairWithoutShrinking(names: seq<string>, alloc: Table, base: Table, p: nat, scaled: Table)
    requires Distinct(names) && names != [] && Has(names, alloc) && Sum(names, alloc) > 0
    requires ExactFloors(names, alloc, base, p, Sum(names, alloc))
    requires IsScaling(names, alloc, base, p, scaled)
    requires Sum(names, base) + Raised(names, base) <= p
    ensures Has(names, scaled)
    ensures forall n :: n in names ==> 0 <= scaled[n] - AtLeastOne(base[n]) <= 1
    ensures INFRA in names && |names| > 1 ==> scaled[INFRA] == AtLeastOne(base[INFRA])
  {
    var r := ServedOnce(names, alloc, base, p, scaled);
    ServingOrderCorrect(names, alloc);
    ReceiversExclude(names);
    FairlyShared(names, base, ServingOrder(names, alloc), r, scaled);
  }

  lemma FairlyShared(names: seq<string>, base: Table, order: seq<string>, r: nat, scaled: Table)
    requires Has(names, base) && Has(names, scaled) && r <= |order|
    requires forall n :: n in names ==> scaled[n] == ShareOf(order, base, r, n)
    ensures forall n :: n in names ==> 0 <= scaled[n] - AtLeastOne(base[n]) <= 1
    ensures forall n :: n in names && n !in order ==> scaled[n] == AtLeastOne(base[n])
  {
  }

  /** Who gets one more CPU comes before who does not: larger template share first, then by name. */
  lemma LargestServedFirst(names: seq<string>, alloc: Table, base: Table, p: nat, scaled: Table, a: string, b: string)
    requires Distinct(names) && names != [] && Has(names, alloc) && Sum(names, alloc) > 0
    requires ExactFloors(names, alloc, base, p, Sum(names, alloc))
    requires IsScaling(names, alloc, base, p, scaled)
    requires Sum(names, base) + Raised(names, base) <= p
    requires a in names && b in names && a != INFRA && b != INFRA
    requires Has(names, scaled) && scaled[a] > AtLeastOne(base[a]) && scaled[b] == AtLeastOne(base[b])
    ensures Precedes(a, b, alloc)
  {
    var r := ServedOnce(names, alloc, base, p, scaled);
    var order := ServingOrder(names, alloc);
    ServingOrderCorrect(names, alloc);
    ReceiversExclude(names);
    assert scaled[a] == ShareOf(order, base, r, a) && scaled[b] == ShareOf(order, base, r, b);
    ServedEarlier(order, alloc, a, b);
  }

  lemma ServedEarlier(order: seq<string>, alloc: Table, a: string, b: string)
    requires Has(order, alloc) && Ordered(order, alloc) && a in order && b in order
    requires ServedAt(order, a) < ServedAt(order, b)
    ensures Precedes(a, b, alloc)
  {
  }

  ghost function ShareOf(order: seq<string>, base: Table, r: nat, n: string): int
    requires n in base
  {
    AtLeastOne(base[n]) + if ServedAt(order, n) < r then 1 else 0
  }

  lemma ServedOnce(names: seq<string>, alloc: Table, base: Table, p: nat, scaled: Table) returns (r: nat)
    requires Distinct(names) && names != [] && Has(names, alloc) && Sum(names, alloc) > 0
    requires ExactFloors(names, alloc, base, p, Sum(names, alloc))
    requires IsScaling(names, alloc, base, p, scaled)
    requires Sum(names, base) + Raised(names, base) <= p
    ensures Has(names, scaled) && r <= |ServingOrder(names, alloc)|
    ensures forall n :: n in names ==> scaled[n] == ShareOf(ServingOrder(names, alloc), base, r, n)
  {
    var floored, levelled :| ScalesVia(names, alloc, base, p, floored, levelled, scaled);
    FlooredFacts(names, alloc, base, p, floored);
    SumAtMost(names, levelled, floored);
    r := p - Sum(names, levelled);
    ServingOrderCorrect(names, alloc);
    ReceiverCount(names, r);
    SharesOnce(names, base, levelled, scaled, ServingOrder(names, alloc), r);
  }

  lemma SharesOnce(names: seq<string>, base: Table, levelled: Table, scaled: Table, order: seq<string>, r: nat)
    requires HandedOut(order, levelled, scaled, r, 1) && r <= |order|
    requires Has(names, levelled) && Has(names, base)
    requires forall n :: n in names ==> levelled[n] == AtLeastOne(base[n])
    ensures forall n :: n in names ==> n in scaled && scaled[n] == ShareOf(order, base, r, n)
  {
    forall n | n in names
      ensures n in scaled && scaled[n] == ShareOf(order, base, r, n)
    {
      OneShare(order, levelled, scaled, r, 1, n);
    }
  }

  lemma OneShare(order: seq<string>, before: Table, after: Table, r: nat, step: int, n: string)
    requires HandedOut(order, before, after, r, step) && r <= |order| && n in before
    ensures after[n] == before[n] + if ServedAt(order, n) < r then step else 0
  {
    if n in order {
      ExtraAtMostOne(ServedAt(order, n), r, |order|);
    }
  }

  /** The position of a name in the serving order, or |names served| when it is not served. */
  ghost function ServedAt(order: seq<string>, n: string): (j: nat)
    ensures n in order ==> j < |order| && order[j] == n
    ensures n !in order ==> j == |order|
  {
    if n in order then var j :| 0 <= j < |order| && order[j] == n; j else |order|
  }

  lemma ReceiverCount(names: seq<string>, r: int)
    requires Distinct(names) && names != [] && r < |names|
    ensures r <= |Receivers(names)|
  {
    OthersDistinct(names);
  }

  lemma ReceiversExclude(names: seq<string>)
    requires Distinct(names)
    ensures INFRA in names && |names| > 1 ==> INFRA !in Receivers(names)
    ensures forall n :: n in names && n != INFRA ==> n in Receivers(names)
  {
    OthersDistinct(names);
  }

  lemma ExtraAtMostOne(j: nat, r: nat, n: nat)
    requires j < n && r <= n
    ensures Extra(j, r, n) == if j < r then 1 else 0
  {
    if r < n {
      DivModUnique(r, n, 0, r);
    } else {
      DivModUnique(r, n, 1, 0);
    }
  }

  /** With shrinking, nothing is left over, shares only go down, and the loop takes back at most
      one CPU per entry that had been raised to the minimum. */
  lemma FairWithShrinking(names: seq<string>, alloc: Table, base: Table, p: nat, scaled: Table)
    requires Distinct(names) && names != [] && Has(names, alloc) && Sum(names, alloc) > 0
    requires ExactFloors(names, alloc, base, p, Sum(names, alloc))
    requires IsScaling(names, alloc, base, p, scaled)
    requires Sum(names, base) + Raised(names, base) > p
    ensures Has(names, scaled)
    ensures forall n :: n in names ==> 1 <= scaled[n] <= AtLeastOne(base[n])
    ensures Sum(names, base) + Raised(names, base) - Sum(names, scaled) <= Raised(names, base)
    ensures forall a, b :: a in names && b in names && scaled[a] < AtLeastOne(base[a]) && a != b
                           ==> NextToShrink(a, b, scaled)
  {
    var floored, levelled :| ScalesVia(names, alloc, base, p, floored, levelled, scaled);
    FlooredFacts(names, alloc, base, p, floored);
    NothingLeft(names, alloc, levelled, scaled);
  }

  lemma NothingLeft(names: seq<string>, alloc: Table, levelled: Table, scaled: Table)
    requires Has(names, alloc) && HandedOut(ServingOrder(names, alloc), levelled, scaled, 0, 1)
    ensures scaled == levelled
  {
    var order := ServingOrder(names, alloc);
    forall n | n in levelled
      ensures scaled[n] == levelled[n]
    {
      if n in order {
        var j :| 0 <= j < |order| && order[j] == n;
        ExtraAtMostOne(j, 0, |order|);
      }
    }
  }

  /** In all cases, an entry with at least the template share of another gets at least as many
      CPUs, up to one. */
  lemma SharesFollowTemplate(names: seq<string>, alloc: Table, base: Table, p: nat, scaled: Table,
                             a: string, b: string)
    requires Distinct(names) && names != [] && Has(names, alloc) && Sum(names, alloc) > 0
    requires ExactFloors(names, alloc, base, p, Sum(names, alloc))
    requires IsScaling(names, alloc, base, p, scaled)
    requires a in names && b in names && alloc[a] >= alloc[b]
    ensures a in scaled && b in scaled && scaled[a] >= scaled[b] - 1
  {
    var floored, levelled :| ScalesVia(names, alloc, base, p, floored, levelled, scaled);
    FlooredFacts(names, alloc, base, p, floored);
    FloorsMonotone(alloc[a], alloc[b], p, Sum(names, alloc));
    if Sum(names, base) + Raised(names, base) <= p {
      FairWithoutShrinking(names, alloc, base, p, scaled);
    } else {
      NothingLeft(names, alloc, levelled, scaled);
      LevelledOrder(names, floored, levelled, p, a, b);
    }
  }
}
