/** `default_cpu_allocation` of oss_crs/src/cpuset.py: the split used when a template has no CPU sets. */
module DefaultCpus {
  import opened Outcomes
  import opened Text
  import opened Cpuset
  import opened Shares
  import opened CpuScaling

  function Entries(crsNames: seq<string>): seq<string> {
    [INFRA] + crsNames
  }

  /** A quarter of the pool, from 1 to 4 CPUs, less what is stolen to give each CRS one CPU. */
  function InfraCount(poolSize: nat, crsCount: nat): int {
    var quarter := AtLeastOne(poolSize / 4);
    var wanted := if quarter > 4 then 4 else quarter;
    if poolSize - wanted < crsCount then wanted - (crsCount - (poolSize - wanted)) else wanted
  }

  function PerCrs(poolSize: nat, crsCount: nat): int {
    if crsCount == 0 then 0 else (poolSize - InfraCount(poolSize, crsCount)) / crsCount
  }

  function CrsRemainder(poolSize: nat, crsCount: nat): int {
    if crsCount == 0 then 0 else (poolSize - InfraCount(poolSize, crsCount)) % crsCount
  }

  /** An even share, the first m entries receiving one more. */
  function EvenShare(q: int, m: int, i: nat): int {
    q + (if i < m then 1 else 0)
  }

  ghost predicate IsEvenTable(crsNames: seq<string>, infra: int, q: int, m: int, w: Table) {
    && INFRA in w && w[INFRA] == infra
    && forall i :: 0 <= i < |crsNames| ==> crsNames[i] in w && w[crsNames[i]] == EvenShare(q, m, i)
  }

  /** The table of shares, entry by entry. */
  ghost predicate IsDefaultTable(crsNames: seq<string>, poolSize: nat, w: Table) {
    var n := |crsNames|;
    IsEvenTable(crsNames, InfraCount(poolSize, n), PerCrs(poolSize, n), CrsRemainder(poolSize, n), w)
  }

  /** The most CPUs from 1 to 4 that are within a quarter of the pool, if more than one, and leave a CPU for
      each CRS. */
  ghost predicate IsMostForInfra(poolSize: nat, n: nat, c: int) {
    && IsFitForInfra(poolSize, n, c)
    && forall d :: IsFitForInfra(poolSize, n, d) ==> d <= c
  }

  ghost predicate IsFitForInfra(poolSize: nat, n: nat, c: int) {
    1 <= c <= 4 && (c == 1 || 4 * c <= poolSize) && poolSize - c >= n
  }

  /** Infrastructure gets the most of 1 to 4 CPUs that fits, also after the steal. CRS shares do not increase along the
      list, differ by at most one CPU, are at least one, and use up the rest of the pool. */
  lemma DefaultShares(poolSize: nat, n: nat)
    requires poolSize > n
    ensures IsMostForInfra(poolSize, n, InfraCount(poolSize, n))
    ensures n > 0 ==> PerCrs(poolSize, n) >= 1 && 0 <= CrsRemainder(poolSize, n) < n
    ensures n > 0 ==> InfraCount(poolSize, n) + PerCrs(poolSize, n) * n + CrsRemainder(poolSize, n) == poolSize
    ensures forall i: nat, j: nat :: i <= j < n ==>
              var a, b := EvenShare(PerCrs(poolSize, n), CrsRemainder(poolSize, n), i),
                          EvenShare(PerCrs(poolSize, n), CrsRemainder(poolSize, n), j);
              1 <= b <= a <= b + 1
  {
    if n > 0 {
      DivisionFacts(poolSize - InfraCount(poolSize, n), n);
    }
  }

  lemma DivisionFacts(a: nat, n: nat)
    requires n > 0
    ensures a == (a / n) * n + a % n
    ensures a >= n ==> a / n >= 1
  {
  }

  function Min(a: int, b: int): int {
    if a < b then a else b
  }

  lemma {:induction false} EvenPrefixSum(crsNames: seq<string>, infra: int, q: int, m: nat, w: Table, k: nat)
    requires IsEvenTable(crsNames, infra, q, m, w) && k <= |crsNames|
    ensures Has(Entries(crsNames), w)
    ensures Sum(Entries(crsNames)[..k + 1], w) == infra + q * k + Min(k, m)
    decreases k
  {
    var entries := Entries(crsNames);
    if k == 0 {
      assert entries[..1] == [INFRA];
    } else {
      EvenPrefixSum(crsNames, infra, q, m, w, k - 1);
      PrefixSum(entries, w, k);
      assert entries[k] == crsNames[k - 1];
      assert q * k == q * (k - 1) + q;
    }
  }

  lemma DefaultTotal(crsNames: seq<string>, poolSize: nat, w: Table)
    requires poolSize > |crsNames| && IsDefaultTable(crsNames, poolSize, w)
    ensures Has(Entries(crsNames), w)
    ensures forall n :: n in Entries(crsNames) ==> w[n] >= 1
    ensures crsNames != [] ==> Sum(Entries(crsNames), w) == poolSize
    ensures Sum(Entries(crsNames), w) <= poolSize
  {
    var n := |crsNames|;
    DefaultShares(poolSize, n);
    EvenPrefixSum(crsNames, InfraCount(poolSize, n), PerCrs(poolSize, n), CrsRemainder(poolSize, n), w, n);
    assert Entries(crsNames)[..n + 1] == Entries(crsNames);
    assert forall name :: name in Entries(crsNames) ==> name == INFRA || name in crsNames;
  }

  lemma {:induction false} EvenTableExists(crsNames: seq<string>, infra: int, q: int, m: int, k: nat) returns (w: Table)
    requires Distinct(Entries(crsNames)) && k <= |crsNames|
    ensures IsEvenTable(crsNames[..k], infra, q, m, w)
  {
    if k == 0 {
      w := map[INFRA := infra];
    } else {
      w := EvenTableExists(crsNames, infra, q, m, k - 1);
      var entries := Entries(crsNames);
      assert entries[0] == INFRA && entries[k] == crsNames[k - 1];
      assert forall i :: 0 <= i < k - 1 ==> entries[i + 1] == crsNames[i];
      w := w[crsNames[k - 1] := EvenShare(q, m, k - 1)];
    }
  }

  // ----- one slice per position -----

  /** Stand-ins for the CRSs, one per position of the list: its names need not be distinct. */
  function Slots(n: nat): (slots: seq<string>)
    ensures |slots| == n && forall i :: 0 <= i < n ==> slots[i] == NatToString(i)
  {
    seq(n, i requires 0 <= i < n => NatToString(i))
  }

  function Positions(crsNames: seq<string>): (positions: seq<string>)
    ensures |positions| == |Entries(crsNames)|
  {
    Entries(Slots(|crsNames|))
  }

  lemma SlotsDistinct(n: nat)
    ensures Distinct(Entries(Slots(n)))
  {
    var slots := Slots(n);
    forall i | 0 <= i < n
      ensures slots[i] != INFRA
    {
      assert IsNumeral(slots[i]) && !IsDigit(INFRA[0]);
    }
    forall i, j | 0 <= i < j < n
      ensures slots[i] != slots[j]
    {
      if slots[i] == slots[j] {
        NatToStringInjective(i, j);
      }
    }
  }

  /** The values of the first k positions, in order. */
  function ValuesAt<T>(positions: seq<string>, byPosition: map<string, T>, k: nat): (values: seq<T>)
    requires k <= |positions| && forall i :: 0 <= i < k ==> positions[i] in byPosition
    ensures |values| == k && forall i :: 0 <= i < k ==> values[i] == byPosition[positions[i]]
  {
    seq(k, i requires 0 <= i < k => byPosition[positions[i]])
  }

  /** The dictionary that has assigned the values of the first k positions to the names there: an entry
      has the value of the last position with its name. */
  ghost predicate LastWins<T>(entries: seq<string>, positions: seq<string>, byPosition: map<string, T>,
                              byName: map<string, T>, k: nat) {
    && k <= |entries| == |positions|
    && (forall i :: 0 <= i < k ==> positions[i] in byPosition)
    && Assigned(entries, ValuesAt(positions, byPosition, k), byName)
  }

  lemma LastWinsStep<T>(entries: seq<string>, positions: seq<string>, byPosition: map<string, T>,
                        byName: map<string, T>, k: nat, v: T)
    requires LastWins(entries, positions, byPosition, byName, k) && k < |entries| && Distinct(positions)
    ensures LastWins(entries, positions, byPosition[positions[k] := v], byName[entries[k] := v], k + 1)
  {
    var next := byPosition[positions[k] := v];
    AssignNext(entries, ValuesAt(positions, byPosition, k), byName, v);
    assert ValuesAt(positions, next, k + 1) == ValuesAt(positions, byPosition, k) + [v];
  }

  /** The position an entry has its value from. */
  lemma FromPosition<T>(entries: seq<string>, positions: seq<string>, byPosition: map<string, T>,
                        byName: map<string, T>, n: string)
    returns (i: nat)
    requires LastWins(entries, positions, byPosition, byName, |entries|) && n in entries
    ensures LastOf(entries, |entries|, i) && entries[i] == n
    ensures positions[i] in byPosition && n in byName && byName[n] == byPosition[positions[i]]
  {
    assert entries[..|entries|] == entries;
    i := LastExists(entries, |entries|, n);
    LastHas(entries, positions, byPosition, byName, i);
  }

  lemma LastHas<T>(entries: seq<string>, positions: seq<string>, byPosition: map<string, T>, byName: map<string, T>,
                   i: nat)
    requires LastWins(entries, positions, byPosition, byName, |entries|) && LastOf(entries, |entries|, i)
    ensures positions[i] in byPosition && entries[i] in byName && byName[entries[i]] == byPosition[positions[i]]
  {
    assert AssignedAt(entries, ValuesAt(positions, byPosition, |entries|), byName, i);
  }

  lemma NamesOfLast<T>(entries: seq<string>, positions: seq<string>, byPosition: map<string, T>, byName: map<string, T>)
    requires LastWins(entries, positions, byPosition, byName, |entries|)
    ensures forall n :: n in byName <==> n in entries
  {
    assert entries[..|entries|] == entries;
  }

  // ----- the operation -----

  /** The outcome of default_cpu_allocation: the shares by position, the slices cut for them, and the
      dictionary of the texts. */
  ghost predicate IsDefaultCut(crsNames: seq<string>, pool: set<nat>, shares: Table, cut: map<string, string>,
                               result: map<string, string>) {
    && IsDefaultTable(Slots(|crsNames|), |pool|, shares)
    && IsCut(Sorted(pool), Positions(crsNames), shares, cut)
    && LastWins(Entries(crsNames), Positions(crsNames), cut, result, |crsNames| + 1)
  }

  /** `default_cpu_allocation`: the ghost results are the shares and the slices by position. */
  method DefaultCpuAllocation(crsNames: seq<string>, pool: string)
    returns (r: Result<map<string, string>, CpuError>, ghost shares: Table, ghost cut: map<string, string>)
    ensures r.Failure? ==>
              if Meaning(pool).Failure? then r.error == Meaning(pool).error
              else r.error == PoolTooSmall && |Meaning(pool).value| < 1 + |crsNames|
    ensures r.Success? ==>
              Meaning(pool).Success? && |Meaning(pool).value| > |crsNames|
              && IsDefaultCut(crsNames, Meaning(pool).value, shares, cut, r.value)
  {
    shares, cut := map[], map[];
    var parsed := ParseCpuset(pool);
    if parsed.Failure? {
      return Failure(parsed.error), shares, cut;
    }
    if |parsed.value| < 1 + |crsNames| {
      return Failure(PoolTooSmall), shares, cut;
    }
    var result;
    result, shares, cut := AllocatePool(crsNames, parsed.value);
    return Success(result), shares, cut;
  }

  /** The part of `default_cpu_allocation` behind its checks. */
  method AllocatePool(crsNames: seq<string>, pool: set<nat>)
    returns (result: map<string, string>, ghost shares: Table, ghost cut: map<string, string>)
    requires |pool| > |crsNames|
    ensures IsDefaultCut(crsNames, pool, shares, cut, result)
  {
    var poolCpus := Sorted(pool);
    SortedCorrect(pool);
    var infraCount, perCrs, crsRemainder := Split(|poolCpus|, |crsNames|);
    shares := DefaultTable(|crsNames|, |pool|);
    result, cut := CutEvenly(crsNames, poolCpus, infraCount, perCrs, crsRemainder, shares);
  }

  lemma DefaultTable(n: nat, poolSize: nat) returns (w: Table)
    requires poolSize > n
    ensures IsDefaultTable(Slots(n), poolSize, w)
    ensures Has(Entries(Slots(n)), w) && Distinct(Entries(Slots(n)))
    ensures (forall name :: name in Entries(Slots(n)) ==> w[name] >= 1) && Sum(Entries(Slots(n)), w) <= poolSize
  {
    SlotsDistinct(n);
    w := EvenTableExists(Slots(n), InfraCount(poolSize, n), PerCrs(poolSize, n), CrsRemainder(poolSize, n), n);
    assert Slots(n)[..n] == Slots(n);
    DefaultTotal(Slots(n), poolSize, w);
  }

  /** The arithmetic of `default_cpu_allocation`. */
  method Split(poolSize: nat, crsCount: nat) returns (infraCount: int, perCrs: int, crsRemainder: int)
    requires poolSize > crsCount
    ensures infraCount == InfraCount(poolSize, crsCount)
    ensures perCrs == PerCrs(poolSize, crsCount) && crsRemainder == CrsRemainder(poolSize, crsCount)
  {
    var quarter := if poolSize / 4 < 1 then 1 else poolSize / 4;
    infraCount := if quarter > 4 then 4 else quarter;
    var remaining := poolSize - infraCount;
    if remaining < crsCount {
      var deficit := crsCount - remaining;
      infraCount := infraCount - deficit;
      remaining := crsCount;
    }
    perCrs := if crsCount > 0 then remaining / crsCount else 0;
    crsRemainder := if crsCount > 0 then remaining - perCrs * crsCount else 0;
    if crsCount > 0 {
      DivisionFacts(remaining, crsCount);
    }
  }

  /** The slices of the first k positions are cut and stored, and the next one starts at the offset. */
  ghost predicate SlotsCut(pool: seq<nat>, crsNames: seq<string>, shares: Table, cut: map<string, string>,
                           result: map<string, string>, k: nat, offset: int) {
    && k <= |crsNames| + 1
    && Fits(pool, Positions(crsNames), shares)
    && offset == Sum(Positions(crsNames)[..k], shares)
    && CutUpTo(pool, Positions(crsNames), shares, cut, k)
    && LastWins(Entries(crsNames), Positions(crsNames), cut, result, k)
  }

  lemma SlotsStart(pool: seq<nat>, crsNames: seq<string>, shares: Table)
    requires Fits(pool, Positions(crsNames), shares)
    ensures SlotsCut(pool, crsNames, shares, map[], map[], 0, 0)
  {
  }

  lemma SlotsEnd(pool: seq<nat>, crsNames: seq<string>, shares: Table, cut: map<string, string>,
                 result: map<string, string>, offset: int)
    requires SlotsCut(pool, crsNames, shares, cut, result, |crsNames| + 1, offset)
    ensures IsCut(pool, Positions(crsNames), shares, cut)
    ensures LastWins(Entries(crsNames), Positions(crsNames), cut, result, |crsNames| + 1)
  {
    CutAll(pool, Positions(crsNames), shares, cut);
  }

  /** The share of a position: the infrastructure's first, then those of the CRSs. */
  lemma SlotShare(crsNames: seq<string>, infra: int, q: int, m: int, shares: Table, k: nat)
    requires IsEvenTable(Slots(|crsNames|), infra, q, m, shares) && k <= |crsNames|
    ensures Positions(crsNames)[k] in shares
    ensures shares[Positions(crsNames)[k]] == if k == 0 then infra else EvenShare(q, m, k - 1)
  {
    assert k > 0 ==> Positions(crsNames)[k] == Slots(|crsNames|)[k - 1];
  }

  /** The slices of `default_cpu_allocation`: infrastructure first, then each CRS in order. */
  method CutEvenly(crsNames: seq<string>, poolCpus: seq<nat>, infraCount: nat, perCrs: int, crsRemainder: int,
                   ghost shares: Table)
    returns (result: map<string, string>, ghost cut: map<string, string>)
    requires Fits(poolCpus, Positions(crsNames), shares)
    requires IsEvenTable(Slots(|crsNames|), infraCount, perCrs, crsRemainder, shares)
    ensures IsCut(poolCpus, Positions(crsNames), shares, cut)
    ensures LastWins(Entries(crsNames), Positions(crsNames), cut, result, |crsNames| + 1)
  {
    var offset;
    SlotsStart(poolCpus, crsNames, shares);
    SlotShare(crsNames, infraCount, perCrs, crsRemainder, shares, 0);
    result, offset, cut := AssignSlot(poolCpus, crsNames, shares, map[], map[], 0, INFRA, 0, infraCount);
    for i := 0 to |crsNames|
      invariant SlotsCut(poolCpus, crsNames, shares, cut, result, i + 1, offset)
    {
      var count := perCrs + (if i < crsRemainder then 1 else 0);
      SlotShare(crsNames, infraCount, perCrs, crsRemainder, shares, i + 1);
      result, offset, cut := AssignSlot(poolCpus, crsNames, shares, cut, result, i + 1, crsNames[i], offset, count);
    }
    SlotsEnd(poolCpus, crsNames, shares, cut, result, offset);
  }

  /** The next slice is printed and stored under the name of its entry. */
  method AssignSlot(pool: seq<nat>, ghost crsNames: seq<string>, ghost shares: Table, ghost cut: map<string, string>,
                    result: map<string, string>, ghost k: nat, name: string, offset: nat, count: int)
    returns (next: map<string, string>, nextOffset: nat, ghost nextCut: map<string, string>)
    requires SlotsCut(pool, crsNames, shares, cut, result, k, offset)
    requires k <= |crsNames| && name == Entries(crsNames)[k] && count == shares[Positions(crsNames)[k]]
    ensures SlotsCut(pool, crsNames, shares, nextCut, next, k + 1, nextOffset)
  {
    ghost var positions := Positions(crsNames);
    ghost var lo, hi := SliceRange(pool, positions, shares, k);
    nextOffset := offset + count;
    assert nextOffset == hi;
    var text := CpusetToStr(Elements(pool[offset..nextOffset]));
    CutStep(pool, positions, shares, cut, k, lo, hi, text.value);
    LastWinsStep(Entries(crsNames), positions, cut, result, k, text.value);
    nextCut := cut[positions[k] := text.value];
    next := result[name := text.value];
  }

  // ----- when the default split is a partition -----

  /** The slices by position always partition the pool, if there is a CRS. */
  lemma CutIsPartition(crsNames: seq<string>, pool: set<nat>, shares: Table, cut: map<string, string>,
                       result: map<string, string>)
    requires crsNames != [] && |pool| > |crsNames| && IsDefaultCut(crsNames, pool, shares, cut, result)
    ensures Distinct(Positions(crsNames)) && PartitionsPool(cut, Positions(crsNames), pool)
  {
    var n := |crsNames|;
    SortedCorrect(pool);
    SlotsDistinct(n);
    DefaultTotal(Slots(n), |pool|, shares);
    CutPartitions(Sorted(pool), Positions(crsNames), shares, cut);
  }

  lemma DistinctPartition(entries: seq<string>, positions: seq<string>, byPosition: map<string, set<nat>>,
                          byName: map<string, set<nat>>, pool: set<nat>)
    requires LastWins(entries, positions, byPosition, byName, |entries|)
    requires forall n :: n in byPosition <==> n in positions
    requires Distinct(positions) && PartitionSets(byPosition, pool) && Distinct(entries)
    ensures PartitionSets(byName, pool)
  {
    NamesOfLast(entries, positions, byPosition, byName);
    forall n | n in byName
      ensures byName[n] != {} && byName[n] <= pool
    {
      var i := FromPosition(entries, positions, byPosition, byName, n);
    }
    forall m, n | m in byName && n in byName && m != n
      ensures byName[m] !! byName[n]
    {
      var i := FromPosition(entries, positions, byPosition, byName, m);
      var j := FromPosition(entries, positions, byPosition, byName, n);
      assert positions[i] != positions[j];
    }
    forall cpu | cpu in pool
      ensures Covered(byName, cpu)
    {
      assert Covered(byPosition, cpu);
      var p :| p in byPosition && cpu in byPosition[p];
      var i: nat :| i < |positions| && positions[i] == p;
      LastHas(entries, positions, byPosition, byName, i);
    }
  }

  /** The set of a position that is not the last one of its name is lost. */
  lemma LostSet(entries: seq<string>, positions: seq<string>, byPosition: map<string, set<nat>>,
                byName: map<string, set<nat>>, pool: set<nat>, i: nat, j: nat) returns (cpu: nat)
    requires LastWins(entries, positions, byPosition, byName, |entries|)
    requires forall n :: n in byPosition <==> n in positions
    requires Distinct(positions) && PartitionSets(byPosition, pool)
    requires i < j < |entries| && entries[i] == entries[j]
    ensures cpu in pool && !Covered(byName, cpu)
  {
    NamesOfLast(entries, positions, byPosition, byName);
    assert positions[i] in positions;
    cpu :| cpu in byPosition[positions[i]];
    forall n | n in byName
      ensures cpu !in byName[n]
    {
      var k := FromPosition(entries, positions, byPosition, byName, n);
      assert k != i;
      assert positions[k] != positions[i];
    }
  }

  lemma DenotationUnique(texts: map<string, string>, names: seq<string>, a: map<string, set<nat>>,
                         b: map<string, set<nat>>)
    requires Denotes(texts, names, a) && Denotes(texts, names, b)
    ensures a == b
  {
    forall n | n in names
      ensures n in a && n in b && a[n] == b[n]
    {
      OneMeaning(texts, a, b, n);
    }
    SameKeys(texts, names, a, b);
  }

  lemma OneMeaning(texts: map<string, string>, a: map<string, set<nat>>, b: map<string, set<nat>>, n: string)
    requires DenotesAt(texts, a, n) && DenotesAt(texts, b, n)
    ensures a[n] == b[n]
  {
  }

  lemma SameKeys(texts: map<string, string>, names: seq<string>, a: map<string, set<nat>>, b: map<string, set<nat>>)
    requires SameNames(texts, names, a) && SameNames(texts, names, b)
    ensures a.Keys == b.Keys
  {
  }

  /** The texts of the dictionary denote the sets of the positions they come from. */
  lemma ResultDenotes(entries: seq<string>, positions: seq<string>, cut: map<string, string>,
                      result: map<string, string>,
                      byPosition: map<string, set<nat>>) returns (byName: map<string, set<nat>>)
    requires LastWins(entries, positions, cut, result, |entries|) && Denotes(cut, positions, byPosition)
    ensures Denotes(result, entries, byName) && LastWins(entries, positions, byPosition, byName, |entries|)
  {
    assert forall i :: 0 <= i < |positions| ==> positions[i] in positions;
    byName := Assign(entries, ValuesAt(positions, byPosition, |positions|));
    NamesOfLast(entries, positions, byPosition, byName);
    NamesOfLast(entries, positions, cut, result);
    forall n | n in entries
      ensures DenotesAt(result, byName, n)
    {
      var i := FromPosition(entries, positions, cut, result, n);
      LastHas(entries, positions, byPosition, byName, i);
      assert DenotesAt(cut, byPosition, positions[i]);
    }
  }

  lemma {:induction false} Assign<T>(names: seq<string>, values: seq<T>) returns (result: map<string, T>)
    requires |values| <= |names|
    ensures Assigned(names, values, result)
    decreases |values|
  {
    result := map[];
    if values != [] {
      var k := |values| - 1;
      var before := Assign(names, values[..k]);
      AssignNext(names, values[..k], before, values[k]);
      assert values[..k] + [values[k]] == values;
      result := before[names[k] := values[k]];
    }
  }

  /** Main result: with a CRS, the returned texts, parsed again, partition the pool exactly when the
      CRS names are distinct and none is the infrastructure's. */
  lemma DefaultPartitions(crsNames: seq<string>, pool: set<nat>, shares: Table, cut: map<string, string>,
                          result: map<string, string>)
    requires crsNames != [] && |pool| > |crsNames| && IsDefaultCut(crsNames, pool, shares, cut, result)
    ensures PartitionsPool(result, Entries(crsNames), pool) <==> Distinct(Entries(crsNames))
  {
    var entries, positions := Entries(crsNames), Positions(crsNames);
    CutIsPartition(crsNames, pool, shares, cut, result);
    var byPosition :| Denotes(cut, positions, byPosition) && PartitionSets(byPosition, pool);
    var byName := ResultDenotes(entries, positions, cut, result, byPosition);
    if Distinct(entries) {
      DistinctPartition(entries, positions, byPosition, byName, pool);
    } else {
      var i: nat, j: nat :| i < j < |entries| && entries[i] == entries[j];
      var cpu := LostSet(entries, positions, byPosition, byName, pool, i, j);
      if PartitionsPool(result, entries, pool) {
        var sets :| Denotes(result, entries, sets) && PartitionSets(sets, pool);
        DenotationUnique(result, entries, sets, byName);
      }
    }
  }

  /** A CRS has as many CPUs as its position gets: the shares above describe the returned texts. */
  lemma DefaultCounts(crsNames: seq<string>, pool: set<nat>, shares: Table, cut: map<string, string>,
                      result: map<string, string>, i: nat)
    requires |pool| > |crsNames| && IsDefaultCut(crsNames, pool, shares, cut, result)
    requires LastOf(Entries(crsNames), |crsNames| + 1, i)
    ensures var n, text := |crsNames|, result[Entries(crsNames)[i]];
      && Meaning(text).Success?
      && |Meaning(text).value| == if i == 0 then InfraCount(|pool|, n)
                                  else EvenShare(PerCrs(|pool|, n), CrsRemainder(|pool|, n), i - 1)
  {
    var positions := Positions(crsNames);
    LastHas(Entries(crsNames), positions, cut, result, i);
    SortedCorrect(pool);
    SlotsDistinct(|crsNames|);
    DefaultTotal(Slots(|crsNames|), |pool|, shares);
    CutCounts(Sorted(pool), positions, shares, cut, positions[i]);
    assert i > 0 ==> positions[i] == Slots(|crsNames|)[i - 1];
  }

  /** The text of a position that is the last of its name means the slice of this position. */
  lemma SlotMeans(crsNames: seq<string>, pool: set<nat>, shares: Table, cut: map<string, string>,
                  result: map<string, string>, i: nat)
    requires |pool| > |crsNames| && IsDefaultCut(crsNames, pool, shares, cut, result)
    requires LastOf(Entries(crsNames), |crsNames| + 1, i)
    ensures var list, positions := Sorted(pool), Positions(crsNames);
      && Fits(list, positions, shares)
      && 0 <= Sum(positions[..i], shares) <= Sum(positions[..i + 1], shares) <= |list|
      && Entries(crsNames)[i] in result
      && Meaning(result[Entries(crsNames)[i]]) == Success(Slice(list, positions, shares, i))
  {
    var positions := Positions(crsNames);
    LastHas(Entries(crsNames), positions, cut, result, i);
    SortedCorrect(pool);
    SlotsDistinct(|crsNames|);
    DefaultTotal(Slots(|crsNames|), |pool|, shares);
    SliceBounds(Sorted(pool), positions, shares, i);
    assert CutAt(Sorted(pool), positions, shares, cut, i);
    CutReadsBack(Sorted(pool), positions, shares, cut, i);
  }

  /** The slices ascend along the list: infrastructure has the lowest CPUs, then come the CRSs in order. */
  lemma DefaultSlicesAscend(crsNames: seq<string>, pool: set<nat>, shares: Table, cut: map<string, string>,
                            result: map<string, string>, i: nat, j: nat)
    requires |pool| > |crsNames| && IsDefaultCut(crsNames, pool, shares, cut, result)
    requires var entries := ["oss_crs_infra"] + crsNames;
      i < j < |entries| && LastOf(entries, |entries|, i) && LastOf(entries, |entries|, j)
    ensures var entries := ["oss_crs_infra"] + crsNames;
      && entries[i] in result && Meaning(result[entries[i]]).Success?
      && entries[j] in result && Meaning(result[entries[j]]).Success?
      && forall m, n :: m in Meaning(result[entries[i]]).value && n in Meaning(result[entries[j]]).value ==> m < n
  {
    var list, positions := Sorted(pool), Positions(crsNames);
    SlotMeans(crsNames, pool, shares, cut, result, i);
    SlotMeans(crsNames, pool, shares, cut, result, j);
    forall m, n | m in Slice(list, positions, shares, i) && n in Slice(list, positions, shares, j)
      ensures m < n
    {
      SlicesAscend(list, positions, shares, i, j, m, n);
    }
  }
}
