/** How fair the sizes of `scale_memory` are when the proportional estimates are exact. */
module MemoryFairness {
  import opened Shares
  import opened MemoryScaling
  import CpuFairness
  import CpuScaling

  /** The estimates are the exact proportions of the total, rounded down to bytes. */
  ghost predicate IsExact(names: seq<string>, bytes: Table, base: Table, total: nat) {
    && Distinct(names) && names != [] && Has(names, bytes) && Sum(names, bytes) > 0
    && CpuFairness.ExactFloors(names, bytes, base, total, Sum(names, bytes))
  }

  // ----- how much is left over -----

  /** Rounding down to megabytes loses less than a megabyte for each entry. */
  lemma {:induction false} RoundingLoses(names: seq<string>, base: Table, floored: Table)
    requires Has(names, base) && Has(names, floored)
    requires forall n :: n in names ==> FlooredAt(n, base, floored)
    ensures Sum(names, floored) >= Sum(names, base) - |names| * (MB - 1)
  {
    if names != [] {
      var last := names[|names| - 1];
      assert FlooredAt(last, base, floored);
      RoundingLoses(names[..|names| - 1], base, floored);
    }
  }

  lemma FewerMegabytes(left: int, entries: nat)
    requires left < entries * MB
    ensures Megabytes(left) < entries
  {
  }

  /** With exact proportions, fewer megabytes than entries are left to hand out. */
  lemma LittleIsLeft(names: seq<string>, bytes: Table, base: Table, total: nat, floored: Table)
    requires IsExact(names, bytes, base, total) && Has(names, floored) && IsFloored(names, base, floored)
    ensures Megabytes(total - Sum(names, floored)) < |names|
  {
    CpuFairness.FloorTotal(names, bytes, base, total);
    RoundingLoses(names, base, floored);
    FewerMegabytes(total - Sum(names, floored), |names|);
  }

  // ----- who gets it -----

  /** The size of an entry when the first r of the order get one megabyte more. */
  ghost function SizeOf(order: seq<string>, base: Table, r: nat, n: string): int
    requires n in base
  {
    WholeMegabytes(base[n]) + if CpuFairness.ServedAt(order, n) < r then MB else 0
  }

  /** So many receivers, from the first on, get a megabyte more. */
  ghost function Served(names: seq<string>, total: nat, floored: Table): int
    requires Has(names, floored)
  {
    if total > Sum(names, floored) then Megabytes(total - Sum(names, floored)) else 0
  }

  lemma ServedBound(names: seq<string>, bytes: Table, base: Table, total: nat, floored: Table)
    requires IsExact(names, bytes, base, total) && Has(names, floored) && IsFloored(names, base, floored)
    ensures 0 <= Served(names, total, floored) <= |CpuScaling.ServingOrder(names, bytes)|
  {
    LittleIsLeft(names, bytes, base, total, floored);
    CpuScaling.ServingOrderCorrect(names, bytes);
    CpuFairness.ReceiverCount(names, Served(names, total, floored));
  }

  lemma ServedSize(names: seq<string>, bytes: Table, base: Table, total: nat, floored: Table, scaled: Table,
                   n: string)
    requires ScalesVia(names, bytes, base, total, floored, scaled) && n in names
    requires 0 <= Served(names, total, floored) <= |CpuScaling.ServingOrder(names, bytes)|
    ensures n in base
    ensures scaled[n] == SizeOf(CpuScaling.ServingOrder(names, bytes), base, Served(names, total, floored), n)
  {
    assert FlooredAt(n, base, floored);
    if total > Sum(names, floored) {
      CpuFairness.OneShare(CpuScaling.ServingOrder(names, bytes), floored, scaled,
                           Served(names, total, floored), MB, n);
    }
  }

  /** Nobody is served twice by the round robin. */
  lemma ServedOnce(names: seq<string>, bytes: Table, base: Table, total: nat, scaled: Table) returns (r: nat)
    requires IsExact(names, bytes, base, total) && IsMemoryScaling(names, bytes, base, total, scaled)
    ensures Has(names, scaled) && r <= |CpuScaling.ServingOrder(names, bytes)|
    ensures forall n :: n in names ==> scaled[n] == SizeOf(CpuScaling.ServingOrder(names, bytes), base, r, n)
  {
    var floored :| ScalesVia(names, bytes, base, total, floored, scaled);
    ServedBound(names, bytes, base, total, floored);
    r := Served(names, total, floored);
    forall n | n in names
      ensures scaled[n] == SizeOf(CpuScaling.ServingOrder(names, bytes), base, r, n)
    {
      ServedSize(names, bytes, base, total, floored, scaled, n);
    }
  }

  /** Every entry gets its size rounded down, or exactly one megabyte more; infrastructure beside a
      CRS gets no more than its size rounded down. */
  lemma FloorOrOneMore(names: seq<string>, bytes: Table, base: Table, total: nat, scaled: Table)
    requires IsExact(names, bytes, base, total) && IsMemoryScaling(names, bytes, base, total, scaled)
    ensures Has(names, scaled)
    ensures forall n :: n in names ==>
              scaled[n] == WholeMegabytes(base[n]) || scaled[n] == WholeMegabytes(base[n]) + MB
    ensures CpuScaling.INFRA in names && |names| > 1 ==>
              scaled[CpuScaling.INFRA] == WholeMegabytes(base[CpuScaling.INFRA])
  {
    var r := ServedOnce(names, bytes, base, total, scaled);
    CpuScaling.ServingOrderCorrect(names, bytes);
    CpuFairness.ReceiversExclude(names);
  }

  /** Who gets a megabyte more comes before who does not: larger template size first, then by name. */
  lemma LargestServedFirst(names: seq<string>, bytes: Table, base: Table, total: nat, scaled: Table,
                           a: string, b: string)
    requires IsExact(names, bytes, base, total) && IsMemoryScaling(names, bytes, base, total, scaled)
    requires a in names && b in names && a != CpuScaling.INFRA && b != CpuScaling.INFRA
    requires Has(names, scaled)
    requires scaled[a] > WholeMegabytes(base[a]) && scaled[b] == WholeMegabytes(base[b])
    ensures Precedes(a, b, bytes)
  {
    var r := ServedOnce(names, bytes, base, total, scaled);
    var order := CpuScaling.ServingOrder(names, bytes);
    CpuScaling.ServingOrderCorrect(names, bytes);
    CpuFairness.ReceiversExclude(names);
    assert scaled[a] == SizeOf(order, base, r, a) && scaled[b] == SizeOf(order, base, r, b);
    CpuFairness.ServedEarlier(order, bytes, a, b);
  }

  lemma MegabytesMonotone(a: int, b: int)
    requires a >= b
    ensures WholeMegabytes(a) >= WholeMegabytes(b)
  {
  }

  /** An entry with at least the template size of another gets at least as much, up to a megabyte. */
  lemma SizesFollowTemplate(names: seq<string>, bytes: Table, base: Table, total: nat, scaled: Table,
                            a: string, b: string)
    requires IsExact(names, bytes, base, total) && IsMemoryScaling(names, bytes, base, total, scaled)
    requires a in names && b in names && bytes[a] >= bytes[b]
    ensures a in scaled && b in scaled && scaled[a] >= scaled[b] - MB
  {
    FloorOrOneMore(names, bytes, base, total, scaled);
    CpuFairness.FloorsMonotone(bytes[a], bytes[b], total, Sum(names, bytes));
    MegabytesMonotone(base[a], base[b]);
  }
}
