/** Tables of integer shares per entry name: sums, the order used to break ties, and the
    round-robin hand-out shared by CPU and memory scaling. */
module Shares {
  import opened Text

  type Table = map<string, int>

  predicate Distinct(names: seq<string>) {
    forall i, j :: 0 <= i < j < |names| ==> names[i] != names[j]
  }

  /** The entry at position i is the last one of its name among the first k. */
  predicate LastOf(names: seq<string>, k: nat, i: nat) {
    i < k <= |names| && forall j :: i < j < k ==> names[j] != names[i]
  }

  lemma {:induction false} LastExists(names: seq<string>, k: nat, n: string) returns (i: nat)
    requires k <= |names| && n in names[..k]
    ensures LastOf(names, k, i) && names[i] == n
    decreases k
  {
    if names[k - 1] == n {
      i := k - 1;
    } else {
      assert names[..k] == names[..k - 1] + [names[k - 1]];
      i := LastExists(names, k - 1, n);
    }
  }

  /** The dictionary built by assigning these values to these names, one after the other. */
  ghost predicate Assigned<T>(names: seq<string>, values: seq<T>, result: map<string, T>) {
    && |values| <= |names|
    && (forall n :: n in result <==> n in names[..|values|])
    && forall i: nat :: LastOf(names, |values|, i) ==> AssignedAt(names, values, result, i)
  }

  ghost predicate AssignedAt<T>(names: seq<string>, values: seq<T>, result: map<string, T>, i: nat)
    requires i < |values| <= |names|
  {
    names[i] in result && result[names[i]] == values[i]
  }

  lemma AssignNext<T>(names: seq<string>, values: seq<T>, result: map<string, T>, v: T)
    requires Assigned(names, values, result) && |values| < |names|
    ensures Assigned(names, values + [v], result[names[|values|] := v])
  {
    var k := |values|;
    assert names[..k + 1] == names[..k] + [names[k]];
    var longer := values + [v];
    forall i: nat | LastOf(names, |longer|, i)
      ensures AssignedAt(names, longer, result[names[k] := v], i)
    {
      if i < k {
        assert LastOf(names, k, i) && AssignedAt(names, values, result, i);
      }
    }
  }

  predicate Has(names: seq<string>, w: Table) {
    forall n :: n in names ==> n in w
  }

  function Sum(names: seq<string>, w: Table): int
    requires Has(names, w)
  {
    if names == [] then 0 else Sum(names[..|names| - 1], w) + w[names[|names| - 1]]
  }

  lemma {:induction false} SumUntouched(names: seq<string>, w: Table, name: string, v: int)
    requires Has(names, w) && name !in names
    ensures Sum(names, w[name := v]) == Sum(names, w)
  {
    if names != [] {
      SumUntouched(names[..|names| - 1], w, name, v);
    }
  }

  lemma {:induction false} SumUpdate(names: seq<string>, w: Table, name: string, v: int)
    requires Has(names, w) && Distinct(names) && name in names
    ensures Sum(names, w[name := v]) == Sum(names, w) - w[name] + v
  {
    var front, last := names[..|names| - 1], names[|names| - 1];
    if name == last {
      assert name !in front;
      SumUntouched(front, w, name, v);
    } else {
      SumUpdate(front, w, name, v);
    }
  }

  lemma {:induction false} SumAtLeast(names: seq<string>, w: Table, k: int)
    requires Has(names, w) && forall n :: n in names ==> w[n] >= k
    ensures Sum(names, w) >= k * |names|
  {
    if names != [] {
      SumAtLeast(names[..|names| - 1], w, k);
    }
  }

  lemma {:induction false} SumAtMost(names: seq<string>, v: Table, w: Table)
    requires Has(names, v) && Has(names, w)
    requires forall n :: n in names ==> v[n] <= w[n]
    ensures Sum(names, v) <= Sum(names, w)
    ensures Sum(names, v) == Sum(names, w) ==> forall n :: n in names ==> v[n] == w[n]
  {
    if names != [] {
      var front, last := names[..|names| - 1], names[|names| - 1];
      SumAtMost(front, v, w);
      assert forall n :: n in names ==> n in front || n == last;
    }
  }

  // ----- the order: larger share first, then by name -----

  predicate Before(a: string, b: string, w: Table)
    requires a in w && b in w
  {
    w[a] > w[b] || (w[a] == w[b] && StringLe(a, b))
  }

  /** The same, with the order of names told by their characters. */
  ghost predicate Precedes(a: string, b: string, w: Table)
    requires a in w && b in w
  {
    w[a] > w[b] || (w[a] == w[b] && NotAbove(a, b))
  }

  lemma BeforeMeans(a: string, b: string, w: Table)
    requires a in w && b in w
    ensures Before(a, b, w) <==> Precedes(a, b, w)
  {
    StringLeMeans(a, b);
  }

  predicate InOrder(names: seq<string>, w: Table)
    requires Has(names, w)
  {
    forall i, j :: 0 <= i < j < |names| ==> Before(names[i], names[j], w)
  }

  /** Larger shares first, and names in the order of their characters where shares are equal. */
  ghost predicate Ordered(names: seq<string>, w: Table)
    requires Has(names, w)
  {
    forall i, j :: 0 <= i < j < |names| ==> Precedes(names[i], names[j], w)
  }

  function Insert(name: string, sorted: seq<string>, w: Table): seq<string>
    requires name in w && Has(sorted, w)
  {
    if sorted == [] || Before(name, sorted[0], w) then [name] + sorted
    else [sorted[0]] + Insert(name, sorted[1..], w)
  }

  /** Sorting by descending share, and by name where shares are equal. */
  function SortByShare(names: seq<string>, w: Table): (sorted: seq<string>)
    requires Has(names, w)
    ensures multiset(sorted) == multiset(names) && Has(sorted, w)
  {
    if names == [] then []
    else
      assert names == [names[0]] + names[1..];
      InsertKeeps(names[0], SortByShare(names[1..], w), w);
      Insert(names[0], SortByShare(names[1..], w), w)
  }

  lemma {:induction false} InsertKeeps(name: string, sorted: seq<string>, w: Table)
    requires name in w && Has(sorted, w)
    ensures multiset(Insert(name, sorted, w)) == multiset{name} + multiset(sorted)
    ensures Has(Insert(name, sorted, w), w)
  {
    if sorted != [] && !Before(name, sorted[0], w) {
      InsertKeeps(name, sorted[1..], w);
      assert sorted == [sorted[0]] + sorted[1..];
    }
  }

  lemma BeforeTransitive(a: string, b: string, c: string, w: Table)
    requires a in w && b in w && c in w && Before(a, b, w) && Before(b, c, w)
    ensures Before(a, c, w)
  {
    if w[a] == w[b] == w[c] {
      StringLeTransitive(a, b, c);
    }
  }

  lemma {:induction false} InsertOrdered(name: string, sorted: seq<string>, w: Table)
    requires name in w && Has(sorted, w) && InOrder(sorted, w)
    ensures Has(Insert(name, sorted, w), w) && InOrder(Insert(name, sorted, w), w)
  {
    InsertKeeps(name, sorted, w);
    if sorted == [] {
    } else if Before(name, sorted[0], w) {
      forall j | 0 < j < |sorted|
        ensures Before(name, sorted[j], w)
      {
        BeforeTransitive(name, sorted[0], sorted[j], w);
      }
    } else {
      StringLeTotal(name, sorted[0]);
      assert Before(sorted[0], name, w);
      InsertOrdered(name, sorted[1..], w);
      var rest := Insert(name, sorted[1..], w);
      InsertKeeps(name, sorted[1..], w);
      forall j | 0 <= j < |rest|
        ensures Before(sorted[0], rest[j], w)
      {
        InsertedFrom(name, sorted[1..], rest, rest[j]);
      }
    }
  }

  lemma InsertedFrom(name: string, others: seq<string>, all: seq<string>, x: string)
    requires multiset(all) == multiset{name} + multiset(others) && x in all
    ensures x == name || x in others
  {
    assert x in multiset(all);
    if x != name {
      assert x in multiset(others);
    }
  }

  lemma {:induction false} SortInOrder(names: seq<string>, w: Table)
    requires Has(names, w)
    ensures InOrder(SortByShare(names, w), w)
  {
    if names != [] {
      SortInOrder(names[1..], w);
      InsertOrdered(names[0], SortByShare(names[1..], w), w);
    }
  }

  lemma SortOrdered(names: seq<string>, w: Table)
    requires Has(names, w)
    ensures Ordered(SortByShare(names, w), w)
  {
    var sorted := SortByShare(names, w);
    SortInOrder(names, w);
    forall i, j | 0 <= i < j < |sorted|
      ensures Precedes(sorted[i], sorted[j], w)
    {
      BeforeMeans(sorted[i], sorted[j], w);
    }
  }

  lemma OrderedFirst(sorted: seq<string>, w: Table, b: string)
    requires Has(sorted, w) && Ordered(sorted, w) && b in sorted && b != sorted[0]
    ensures Precedes(sorted[0], b, w)
  {
    var j :| 0 <= j < |sorted| && sorted[j] == b;
  }

  lemma SameMembers(a: seq<string>, b: seq<string>)
    requires multiset(a) == multiset(b)
    ensures |a| == |b| && (forall x :: x in a <==> x in b)
    ensures Distinct(a) ==> Distinct(b)
  {
    assert |a| == |multiset(a)| && |b| == |multiset(b)|;
    forall x
      ensures x in a <==> x in b
    {
      assert x in multiset(a) <==> x in multiset(b);
    }
    if Distinct(a) {
      forall i, j | 0 <= i < j < |b|
        ensures b[i] != b[j]
      {
        if b[i] == b[j] {
          RepeatedTwice(b, i, j);
          AtMostOnce(a, b[i]);
        }
      }
    }
  }

  lemma RepeatedTwice(s: seq<string>, i: nat, j: nat)
    requires i < j < |s| && s[i] == s[j]
    ensures multiset(s)[s[i]] >= 2
  {
    assert s == s[..i] + [s[i]] + s[i + 1..j] + [s[j]] + s[j + 1..];
  }

  lemma {:induction false} AtMostOnce(s: seq<string>, x: string)
    requires Distinct(s)
    ensures multiset(s)[x] <= 1
  {
    if s != [] {
      AtMostOnce(s[1..], x);
      assert s == [s[0]] + s[1..];
      if s[0] == x {
        assert x !in s[1..];
      }
    }
  }

  // ----- handing out a remainder round robin -----

  /** How many of 0, 1, ..., r-1 are congruent to j modulo n. */
  function Extra(j: nat, r: nat, n: nat): (e: nat)
    requires j < n
  {
    r / n + (if j < r % n then 1 else 0)
  }

  lemma ExtraStep(j: nat, r: nat, n: nat)
    requires j < n
    ensures Extra(j, r + 1, n) == Extra(j, r, n) + (if j == r % n then 1 else 0)
  {
    var q, m := r / n, r % n;
    assert r == q * n + m;
    if m + 1 < n {
      DivModUnique(r + 1, n, q, m + 1);
    } else {
      assert r + 1 == (q + 1) * n;
      DivModUnique(r + 1, n, q + 1, 0);
    }
  }

  lemma MulAtLeast(k: nat, n: nat)
    requires k >= 1
    ensures k * n >= n
  {
  }

  lemma DivModUnique(a: nat, n: nat, q: nat, m: nat)
    requires m < n && a == q * n + m
    ensures a / n == q && a % n == m
  {
    var q', m' := a / n, a % n;
    assert a == q' * n + m';
    assert (q' - q) * n == m - m';
    if q' > q {
      MulAtLeast(q' - q, n);
    } else if q' < q {
      MulAtLeast(q - q', n);
    }
  }

  /** After handing out r units of size step over the order. */
  ghost predicate HandedOut(order: seq<string>, before: Table, after: Table, r: nat, step: int) {
    && order != []
    && Has(order, before)
    && after.Keys == before.Keys
    && (forall j :: 0 <= j < |order| ==> after[order[j]] == before[order[j]] + step * Extra(j, r, |order|))
    && (forall name :: name in before && name !in order ==> after[name] == before[name])
  }

  /** The round robin: r steps, handed out in turn along the order. */
  method HandOut(names: seq<string>, order: seq<string>, before: Table, r: nat, step: int)
    returns (after: Table)
    requires order != [] && Distinct(order) && Has(order, before)
    requires Distinct(names) && Has(names, before) && forall x :: x in order ==> x in names
    ensures HandedOut(order, before, after, r, step)
    ensures Sum(names, after) == Sum(names, before) + r * step
  {
    after := before;
    for i := 0 to r
      invariant HandedOut(order, before, after, i, step)
      invariant Sum(names, after) == Sum(names, before) + i * step
    {
      var name := order[i % |order|];
      SumUpdate(names, after, name, after[name] + step);
      HandOutStep(order, before, after, i, step);
      after := after[name := after[name] + step];
    }
  }

  lemma HandOutStep(order: seq<string>, before: Table, after: Table, i: nat, step: int)
    requires Distinct(order) && HandedOut(order, before, after, i, step)
    ensures var name := order[i % |order|];
            HandedOut(order, before, after[name := after[name] + step], i + 1, step)
  {
    var n := |order|;
    var name := order[i % n];
    var next := after[name := after[name] + step];
    forall j | 0 <= j < n
      ensures next[order[j]] == before[order[j]] + step * Extra(j, i + 1, n)
    {
      ExtraUnits(j, i, n, step);
      assert j != i % n ==> order[j] != name;
    }
  }

  lemma ExtraUnits(j: nat, r: nat, n: nat, step: int)
    requires j < n
    ensures step * Extra(j, r + 1, n) == step * Extra(j, r, n) + (if j == r % n then step else 0)
  {
    ExtraStep(j, r, n);
    TimesNext(step, Extra(j, r, n));
  }

  lemma TimesNext(step: int, k: int)
    ensures step * (k + 1) == step * k + step
  {
  }

  /** The hand-out is determined by its outcome predicate. */
  lemma HandedOutUnique(order: seq<string>, before: Table, a: Table, b: Table, r: nat, step: int)
    requires HandedOut(order, before, a, r, step) && HandedOut(order, before, b, r, step)
    ensures a == b
  {
    forall name | name in before
      ensures a[name] == b[name]
    {
      if name in order {
        var j :| 0 <= j < |order| && order[j] == name;
      }
    }
  }
}
