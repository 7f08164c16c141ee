/** Scaling and splitting memory: `scale_memory` and `default_memory_allocation` of oss_crs/src/memory.py. */
module MemoryScaling {
  import opened Outcomes
  import opened Shares
  import opened Memory
  import CpuScaling
  import CpuFairness

  const MB: int := 1048576

  function Megabytes(bytes: int): (q: int)
    ensures q * 1048576 <= bytes < q * 1048576 + 1048576
  {
    bytes / 1048576
  }

  /** Rounded down to whole megabytes, but at least one. */
  function WholeMegabytes(raw: int): int {
    if Megabytes(raw) < 1 then MB else Megabytes(raw) * MB
  }

  // ----- the sizes -----

  predicate FlooredAt(name: string, base: Table, floored: Table) {
    name in base && name in floored && floored[name] == WholeMegabytes(base[name])
  }

  ghost predicate IsFloored(names: seq<string>, base: Table, floored: Table) {
    && (forall n :: n in floored <==> n in names)
    && forall n :: n in names ==> FlooredAt(n, base, floored)
  }

  /** The sizes computed by scale_memory, from the truncated estimates in base: whole megabytes,
      at least one, and what is left of the total handed out in megabytes, round robin. */
  ghost predicate IsMemoryScaling(names: seq<string>, bytes: Table, base: Table, total: nat, scaled: Table) {
    exists floored :: ScalesVia(names, bytes, base, total, floored, scaled)
  }

  ghost predicate ScalesVia(names: seq<string>, bytes: Table, base: Table, total: nat, floored: Table, scaled: Table) {
    && Has(names, bytes) && Has(names, floored) && Has(names, scaled)
    && IsFloored(names, base, floored)
    && if total <= Sum(names, floored) then scaled == floored
       else GivesOut(names, bytes, floored, scaled, total - Sum(names, floored))
  }

  ghost predicate GivesOut(names: seq<string>, bytes: Table, floored: Table, scaled: Table, left: nat)
    requires Has(names, bytes) && Has(names, floored) && Has(names, scaled)
  {
    && Megabytes(left) >= 0
    && HandedOut(CpuScaling.ServingOrder(names, bytes), floored, scaled, Megabytes(left), MB)
    && Sum(names, scaled) == Sum(names, floored) + Megabytes(left) * MB
  }

  /** The loop over all entries that rounds the estimates down. */
  method FloorSizes(names: seq<string>, base: Table) returns (floored: Table)
    requires Has(names, base)
    ensures IsFloored(names, base, floored)
  {
    floored := map[];
    for i := 0 to |names|
      invariant IsFloored(names[..i], base, floored)
    {
      FloorStep(names, base, floored, i);
      floored := floored[names[i] := WholeMegabytes(base[names[i]])];
    }
    assert names[..|names|] == names;
  }

  lemma FloorStep(names: seq<string>, base: Table, floored: Table, i: nat)
    requires i < |names| && Has(names, base) && IsFloored(names[..i], base, floored)
    ensures IsFloored(names[..i + 1], base, floored[names[i] := WholeMegabytes(base[names[i]])])
  {
    assert names[..i + 1] == names[..i] + [names[i]];
    forall n | n in names[..i]
      ensures FlooredAt(n, base, floored)
    {
    }
  }

  /** The sizes in bytes, before they are printed. */
  method ScaleSizes(names: seq<string>, bytes: Table, base: Table, total: nat) returns (scaled: Table)
    requires Distinct(names) && names != [] && Has(names, bytes) && Has(names, base)
    ensures IsMemoryScaling(names, bytes, base, total, scaled)
  {
    var floored := FloorSizes(names, base);
    FlooredHas(names, base, floored);
    var remainder := total - Sum(names, floored);
    scaled := floored;
    if remainder > 0 {
      scaled := GiveOut(names, bytes, floored, remainder);
    }
    assert ScalesVia(names, bytes, base, total, floored, scaled);
  }

  lemma FlooredHas(names: seq<string>, base: Table, floored: Table)
    requires IsFloored(names, base, floored)
    ensures Has(names, floored)
  {
  }

  method GiveOut(names: seq<string>, bytes: Table, floored: Table, left: nat) returns (scaled: Table)
    requires Distinct(names) && names != [] && Has(names, bytes) && Has(names, floored)
    ensures Has(names, scaled) && GivesOut(names, bytes, floored, scaled, left)
  {
    var order := CpuScaling.ServingOrder(names, bytes);
    ServingFacts(names, bytes, floored, order);
    scaled := HandOut(names, order, floored, Megabytes(left), MB);
  }

  lemma ServingFacts(names: seq<string>, bytes: Table, floored: Table, order: seq<string>)
    requires Distinct(names) && names != [] && Has(names, bytes) && Has(names, floored)
    requires order == CpuScaling.ServingOrder(names, bytes)
    ensures order != [] && Distinct(order) && Has(order, floored) && forall x :: x in order ==> x in names
  {
    CpuScaling.ServingOrderCorrect(names, bytes);
  }

  /** The sizes are determined by the template, the estimates and the total. */
  lemma MemoryScalingUnique(names: seq<string>, bytes: Table, base: Table, total: nat, a: Table, b: Table)
    requires IsMemoryScaling(names, bytes, base, total, a) && IsMemoryScaling(names, bytes, base, total, b)
    ensures a == b
  {
    var f :| ScalesVia(names, bytes, base, total, f, a);
    var g :| ScalesVia(names, bytes, base, total, g, b);
    FlooredUnique(names, base, f, g);
    ViaUnique(names, bytes, base, total, f, a, b);
  }

  lemma ViaUnique(names: seq<string>, bytes: Table, base: Table, total: nat, f: Table, a: Table, b: Table)
    requires ScalesVia(names, bytes, base, total, f, a) && ScalesVia(names, bytes, base, total, f, b)
    ensures a == b
  {
    if total > Sum(names, f) {
      HandedOutUnique(CpuScaling.ServingOrder(names, bytes), f, a, b, Megabytes(total - Sum(names, f)), MB);
    }
  }

  lemma FlooredUnique(names: seq<string>, base: Table, f: Table, g: Table)
    requires IsFloored(names, base, f) && IsFloored(names, base, g)
    ensures f == g
  {
    forall n | n in f
      ensures n in g && f[n] == g[n]
    {
      assert FlooredAt(n, base, f) && FlooredAt(n, base, g);
    }
    assert f.Keys == g.Keys;
  }

  // ----- whole megabytes -----

  predicate WholeAndPositive(v: int) {
    v >= 1048576 && v % 1048576 == 0
  }

  lemma WholeMegabytesOk(raw: int)
    ensures WholeAndPositive(WholeMegabytes(raw))
    ensures raw >= 0 ==> WholeMegabytes(raw) <= raw + if Megabytes(raw) < 1 then MB else 0
  {
  }

  lemma AddsMegabytes(v: int, e: nat)
    requires WholeAndPositive(v)
    ensures WholeAndPositive(v + MB * e)
  {
    assert MB * e == 1048576 * e;
  }

  lemma HandedOutWhole(order: seq<string>, before: Table, after: Table, r: nat, n: string)
    requires HandedOut(order, before, after, r, MB) && n in before && WholeAndPositive(before[n])
    ensures n in after && WholeAndPositive(after[n])
  {
    if n in order {
      var j: nat :| j < |order| && order[j] == n;
      var e := Extra(j, r, |order|);
      AddsMegabytes(before[n], e);
    }
  }

  /** Every size is a whole number of megabytes, at least one, whatever the estimates. */
  lemma SizesAreWhole(names: seq<string>, bytes: Table, base: Table, total: nat, scaled: Table)
    requires IsMemoryScaling(names, bytes, base, total, scaled)
    ensures Has(names, scaled) && forall n :: n in names ==> WholeAndPositive(scaled[n])
  {
    var floored :| ScalesVia(names, bytes, base, total, floored, scaled);
    forall n | n in names
      ensures n in scaled && WholeAndPositive(scaled[n])
    {
      SizeIsWhole(names, bytes, base, total, floored, scaled, n);
    }
  }

  lemma SizeIsWhole(names: seq<string>, bytes: Table, base: Table, total: nat, floored: Table, scaled: Table, n: string)
    requires ScalesVia(names, bytes, base, total, floored, scaled) && n in names
    ensures n in scaled && WholeAndPositive(scaled[n])
  {
    assert FlooredAt(n, base, floored);
    WholeMegabytesOk(base[n]);
    if total > Sum(names, floored) {
      HandedOutWhole(CpuScaling.ServingOrder(names, bytes), floored, scaled, Megabytes(total - Sum(names, floored)), n);
    }
  }

  // ----- the sum -----

  lemma LeftUnderOne(left: int)
    ensures left - MB < Megabytes(left) * MB <= left
  {
  }

  /** Less than one megabyte of the total stays unassigned, whatever the estimates. */
  lemma AlmostAllAssigned(names: seq<string>, bytes: Table, base: Table, total: nat, scaled: Table)
    requires IsMemoryScaling(names, bytes, base, total, scaled)
    ensures Has(names, scaled) && Sum(names, scaled) > total - MB
  {
    var floored :| ScalesVia(names, bytes, base, total, floored, scaled);
    if total > Sum(names, floored) {
      LeftUnderOne(total - Sum(names, floored));
    }
  }

  /** The number of entries raised to the minimum of one megabyte. */
  function RaisedToMegabyte(names: seq<string>, base: Table): (k: nat)
    requires Has(names, base)
    ensures k <= |names|
  {
    if names == [] then 0
    else RaisedToMegabyte(names[..|names| - 1], base) + if Megabytes(base[names[|names| - 1]]) < 1 then 1 else 0
  }

  lemma {:induction false} FlooredSum(names: seq<string>, base: Table, floored: Table)
    requires Has(names, base) && Has(names, floored)
    requires forall n :: n in names ==> base[n] >= 0 && FlooredAt(n, base, floored)
    ensures Sum(names, floored) <= Sum(names, base) + MB * RaisedToMegabyte(names, base)
  {
    if names != [] {
      var last := names[|names| - 1];
      FlooredSum(names[..|names| - 1], base, floored);
      assert FlooredAt(last, base, floored);
      WholeMegabytesOk(base[last]);
    }
  }

  lemma EstimateNotNegative(names: seq<string>, bytes: Table, base: Table, total: nat, t: nat, n: string)
    requires CpuFairness.ExactFloors(names, bytes, base, total, t) && n in names
    ensures base[n] >= 0
  {
    CpuFairness.NonNegativeProduct(bytes[n], total);
    CpuFairness.NonNegativeQuotient(bytes[n] * total, t);
  }

  /** With exact proportions, the total is exceeded by at most one megabyte per raised entry. */
  lemma NotMuchOver(names: seq<string>, bytes: Table, base: Table, total: nat, scaled: Table)
    requires names != [] && Has(names, bytes) && Sum(names, bytes) > 0
    requires CpuFairness.ExactFloors(names, bytes, base, total, Sum(names, bytes))
    requires IsMemoryScaling(names, bytes, base, total, scaled)
    ensures Has(names, scaled) && Sum(names, scaled) <= total + MB * RaisedToMegabyte(names, base)
  {
    var floored :| ScalesVia(names, bytes, base, total, floored, scaled);
    ExactTotal(names, bytes, base, total, floored);
    var left := total - Sum(names, floored);
    if left > 0 {
      LeftUnderOne(left);
    }
  }

  lemma ExactTotal(names: seq<string>, bytes: Table, base: Table, total: nat, floored: Table)
    requires names != [] && Has(names, bytes) && Sum(names, bytes) > 0
    requires CpuFairness.ExactFloors(names, bytes, base, total, Sum(names, bytes))
    requires Has(names, floored) && IsFloored(names, base, floored)
    ensures Sum(names, floored) <= total + MB * RaisedToMegabyte(names, base)
  {
    CpuFairness.FloorTotal(names, bytes, base, total);
    forall n | n in names
      ensures base[n] >= 0 && FlooredAt(n, base, floored)
    {
      EstimateNotNegative(names, bytes, base, total, Sum(names, bytes), n);
    }
    FlooredSum(names, base, floored);
  }

  // ----- the operation -----

  predicate ReadsAs(n: string, allocations: map<string, string>, bytes: Table) {
    n in allocations && n in bytes && MemoryMeaning(allocations[n]) == Success(bytes[n])
  }

  ghost predicate AllRead(names: seq<string>, allocations: map<string, string>, bytes: Table) {
    forall n :: n in names ==> ReadsAs(n, allocations, bytes)
  }

  predicate PrintedAt(n: string, scaled: Table, result: map<string, string>) {
    n in scaled && n in result && scaled[n] > 0 && result[n] == MemoryText(scaled[n])
  }

  ghost predicate Printed(names: seq<string>, scaled: Table, result: map<string, string>) {
    && (forall n :: n in result <==> n in names)
    && forall n :: n in names ==> PrintedAt(n, scaled, result)
  }

  /** The entry is present but its size cannot be read. */
  predicate Unreadable(n: string, allocations: map<string, string>, e: MemoryError) {
    n in allocations && MemoryMeaning(allocations[n]) == Failure(e)
  }

  /** The i-th entry is the first one whose size cannot be read. */
  ghost predicate FirstUnreadable(names: seq<string>, allocations: map<string, string>, i: nat, e: MemoryError) {
    && i < |names| && Unreadable(names[i], allocations, e)
    && forall j :: 0 <= j < i ==> names[j] in allocations && MemoryMeaning(allocations[names[j]]).Success?
  }

  lemma StopsHere(names: seq<string>, allocations: map<string, string>, bytes: Table, i: nat, e: MemoryError)
    requires i < |names| && AllRead(names[..i], allocations, bytes) && Unreadable(names[i], allocations, e)
    ensures FirstUnreadable(names, allocations, i, e)
  {
    forall j | 0 <= j < i
      ensures names[j] in allocations && MemoryMeaning(allocations[names[j]]).Success?
    {
      assert names[..i][j] in names[..i] && ReadsAs(names[j], allocations, bytes);
    }
  }

  /** The sizes of all entries, or the first error. */
  method ReadSizes(names: seq<string>, allocations: map<string, string>) returns (r: Result<Table, MemoryError>)
    requires forall n :: n in names ==> n in allocations
    ensures r.Success? ==> AllRead(names, allocations, r.value)
    ensures r.Failure? ==> exists i :: FirstUnreadable(names, allocations, i, r.error)
  {
    var bytes: Table := map[];
    for i := 0 to |names|
      invariant AllRead(names[..i], allocations, bytes)
    {
      assert names[i] in names;
      var one := MemoryMeaning(allocations[names[i]]);
      if one.Failure? {
        StopsHere(names, allocations, bytes, i, one.error);
        assert FirstUnreadable(names, allocations, i, one.error);
        return Failure(one.error);
      }
      NowReads(names[i], allocations, bytes, one.value);
      ReadStep(names, allocations, bytes, i, one.value);
      bytes := bytes[names[i] := one.value];
    }
    assert names[..|names|] == names;
    return Success(bytes);
  }

  lemma AllReadHas(names: seq<string>, allocations: map<string, string>, bytes: Table)
    requires AllRead(names, allocations, bytes)
    ensures Has(names, bytes)
  {
    forall n | n in names
      ensures n in bytes
    {
      assert ReadsAs(n, allocations, bytes);
    }
  }

  lemma NowReads(n: string, allocations: map<string, string>, bytes: Table, v: nat)
    requires n in allocations && MemoryMeaning(allocations[n]) == Success(v)
    ensures ReadsAs(n, allocations, bytes[n := v])
  {
  }

  lemma StillReads(n: string, allocations: map<string, string>, bytes: Table, name: string, v: nat)
    requires ReadsAs(n, allocations, bytes) && n != name
    ensures ReadsAs(n, allocations, bytes[name := v])
  {
  }

  lemma ReadStep(names: seq<string>, allocations: map<string, string>, bytes: Table, i: nat, v: nat)
    requires i < |names| && AllRead(names[..i], allocations, bytes)
    requires ReadsAs(names[i], allocations, bytes[names[i] := v])
    ensures AllRead(names[..i + 1], allocations, bytes[names[i] := v])
  {
    var front, read := names[..i], names[..i + 1];
    assert read == front + [names[i]];
    forall n | n in read
      ensures ReadsAs(n, allocations, bytes[names[i] := v])
    {
      if n != names[i] {
        StillReads(n, allocations, bytes, names[i], v);
      }
    }
  }

  /** `scale_memory`; base holds the truncated floating-point proportions. The
      ghost results are the bytes read and the bytes printed. */
  method ScaleMemory(names: seq<string>, allocations: map<string, string>, base: Table, total: string)
    returns (r: Result<map<string, string>, MemoryError>, ghost bytes: Table, ghost scaled: Table)
    requires Distinct(names) && Has(names, base) && forall n :: n in names ==> n in allocations
    ensures MemoryMeaning(total).Failure? ==> r == Failure(MemoryMeaning(total).error)
    ensures r.Failure? ==>
              || MemoryMeaning(total).Failure?
              || (exists i :: FirstUnreadable(names, allocations, i, r.error))
              || (r.error == DivisionByZero && Has(names, bytes) && AllRead(names, allocations, bytes)
                  && if names == [] then MemoryMeaning(total).value >= MB else Sum(names, bytes) == 0)
    ensures r.Success? ==>
              && MemoryMeaning(total).Success?
              && Has(names, bytes) && AllRead(names, allocations, bytes)
              && Printed(names, scaled, r.value)
              && (names == [] ==> MemoryMeaning(total).value < MB)
              && (names != [] ==>
                    && Sum(names, bytes) != 0
                    && IsMemoryScaling(names, bytes, base, MemoryMeaning(total).value, scaled))
  {
    bytes, scaled := map[], map[];
    var totalBytes := MemoryMeaning(total);
    if totalBytes.Failure? {
      return Failure(totalBytes.error), bytes, scaled;
    }
    var read := ReadSizes(names, allocations);
    if read.Failure? {
      return Failure(read.error), bytes, scaled;
    }
    bytes := read.value;
    AllReadHas(names, allocations, bytes);
    if names == [] {
      if totalBytes.value >= MB {
        return Failure(DivisionByZero), bytes, scaled;
      }
      return Success(map[]), bytes, scaled;
    }
    if Sum(names, read.value) == 0 {
      return Failure(DivisionByZero), bytes, scaled;
    }
    var sizes := ScaleSizes(names, read.value, base, totalBytes.value);
    scaled := sizes;
    SizesAreWhole(names, bytes, base, totalBytes.value, scaled);
    var result := PrintSizes(names, sizes);
    return Success(result), bytes, scaled;
  }

  /** The texts of the scaled sizes. */
  method PrintSizes(names: seq<string>, scaled: Table) returns (result: map<string, string>)
    requires Has(names, scaled) && forall n :: n in names ==> WholeAndPositive(scaled[n])
    ensures Printed(names, scaled, result)
  {
    result := map[];
    for i := 0 to |names|
      invariant Printed(names[..i], scaled, result)
    {
      assert WholeAndPositive(scaled[names[i]]);
      var text := MemoryToStr(scaled[names[i]]);
      PrintStep(names, scaled, result, i, text.value);
      result := result[names[i] := text.value];
    }
    assert names[..|names|] == names;
  }

  lemma PrintStep(names: seq<string>, scaled: Table, result: map<string, string>, i: nat, text: string)
    requires i < |names| && names[i] in scaled && scaled[names[i]] > 0 && text == MemoryText(scaled[names[i]])
    requires Printed(names[..i], scaled, result)
    ensures Printed(names[..i + 1], scaled, result[names[i] := text])
  {
    assert names[..i + 1] == names[..i] + [names[i]];
    forall n | n in names[..i]
      ensures PrintedAt(n, scaled, result)
    {
    }
  }

  /** Everything about a successful scaling, read off the printed strings: parsed again they are
      whole megabytes, and less than one megabyte of the total is unassigned. */
  lemma ScaledTextsReadBack(names: seq<string>, bytes: Table, base: Table, total: nat, scaled: Table,
                            result: map<string, string>)
    requires IsMemoryScaling(names, bytes, base, total, scaled) && Printed(names, scaled, result)
    ensures forall n :: n in names ==> ReadsAs(n, result, scaled) && WholeAndPositive(scaled[n])
    ensures Has(names, scaled) && Sum(names, scaled) > total - MB
  {
    SizesAreWhole(names, bytes, base, total, scaled);
    AlmostAllAssigned(names, bytes, base, total, scaled);
    forall n | n in names
      ensures ReadsAs(n, result, scaled)
    {
      assert PrintedAt(n, scaled, result);
      MemoryRoundTrip(scaled[n]);
    }
  }
}
