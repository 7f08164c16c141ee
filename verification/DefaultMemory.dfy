/** `default_memory_allocation` of oss_crs/src/memory.py: the split used when a template sets no sizes. */
module DefaultMemory {
  import opened Outcomes
  import opened Shares
  import opened Memory
  import opened MemoryScaling
  import opened CpuScaling
  import DefaultCpus

  /** A quarter of the total, but no more than 16G, in whole megabytes, at least one. */
  function InfraBytes(total: nat): int {
    WholeMegabytes(if 17179869184 < total / 4 then 17179869184 else total / 4)
  }

  /** What each CRS gets before the remainder. */
  function PerCrs(remaining: int, n: nat): int {
    if n == 0 then 0 else WholeMegabytes(remaining / n)
  }

  /** How many CRSs get one megabyte more. */
  function Extras(remaining: int, per: int, n: nat): int {
    Megabytes(remaining - per * n)
  }

  function CrsBytes(per: int, extras: int, i: nat): int {
    per + if i < extras then MB else 0
  }

  /** The bytes for a position: the infrastructure's first, then those of the CRSs. */
  function SizeAt(infra: int, per: int, extras: int, i: nat): int {
    if i == 0 then infra else CrsBytes(per, extras, i - 1)
  }

  /** The text parses back to this positive number of bytes. */
  predicate ReadsBackAs(text: string, bytes: int) {
    bytes > 0 && MemoryMeaning(text) == Success(bytes)
  }

  /** Position by position, the texts parse back to the sizes. */
  ghost predicate AreSizes(texts: seq<string>, infra: int, per: int, extras: int) {
    forall i: nat :: i < |texts| ==> ReadsBackAs(texts[i], SizeAt(infra, per, extras, i))
  }

  /** The infrastructure's bytes, the bytes of each CRS, and how many CRSs get a megabyte more. */
  ghost predicate IsDefaultSplit(n: nat, total: nat, infra: int, per: int, extras: int) {
    && infra == InfraBytes(total)
    && per == PerCrs(total - infra, n)
    && extras == Extras(total - infra, per, n)
  }

  /** The ghost results describe the texts by position, and the sizes to which they parse back. */
  method DefaultMemoryAllocation(crsNames: seq<string>, total: string)
    returns (r: Result<map<string, string>, MemoryError>, ghost texts: seq<string>,
             ghost infra: int, ghost per: int, ghost extras: int)
    ensures MemoryMeaning(total).Failure? ==> r == Failure(MemoryMeaning(total).error)
    ensures MemoryMeaning(total).Success? ==>
              && r.Success?
              && |texts| == |crsNames| + 1 && Assigned(DefaultCpus.Entries(crsNames), texts, r.value)
              && AreSizes(texts, infra, per, extras)
              && IsDefaultSplit(|crsNames|, MemoryMeaning(total).value, infra, per, extras)
  {
    var parsed := MemoryMeaning(total);
    texts, infra, per, extras := [], 0, 0, 0;
    if parsed.Failure? {
      return Failure(parsed.error), texts, infra, per, extras;
    }
    var result;
    result, texts, infra, per, extras := SplitBytes(crsNames, parsed.value);
    return Success(result), texts, infra, per, extras;
  }

  method SplitBytes(crsNames: seq<string>, totalBytes: nat)
    returns (result: map<string, string>, ghost texts: seq<string>, ghost infra: int, ghost per: int, ghost extras: int)
    ensures |texts| == |crsNames| + 1 && Assigned(DefaultCpus.Entries(crsNames), texts, result)
    ensures AreSizes(texts, infra, per, extras)
    ensures IsDefaultSplit(|crsNames|, totalBytes, infra, per, extras)
  {
    var infraBytes := SplitInfra(totalBytes);
    var perCrs, mega := SplitRest(|crsNames|, totalBytes, infraBytes);
    infra, per, extras := infraBytes, perCrs, mega;
    result, texts := SplitAmong(crsNames, infraBytes, perCrs, mega);
  }

  /** `per_crs` and how many CRSs get a megabyte more. */
  method SplitRest(n: nat, totalBytes: nat, infraBytes: int) returns (perCrs: int, mega: int)
    requires infraBytes == InfraBytes(totalBytes)
    ensures IsDefaultSplit(n, totalBytes, infraBytes, perCrs, mega)
    ensures n > 0 ==> perCrs > 0
  {
    var remaining := totalBytes - infraBytes;
    perCrs := 0;
    if n > 0 {
      perCrs := WholeMegabytes(remaining / n);
      WholeMegabytesOk(remaining / n);
    }
    var crsRemainder := remaining - perCrs * n;
    mega := Megabytes(crsRemainder);
  }

  /** The bytes of the infrastructure. */
  method SplitInfra(totalBytes: nat) returns (infraBytes: int)
    ensures infraBytes == InfraBytes(totalBytes) && WholeAndPositive(infraBytes)
  {
    var quarter := if 17179869184 < totalBytes / 4 then 17179869184 else totalBytes / 4;
    infraBytes := WholeMegabytes(quarter);
    WholeMegabytesOk(quarter);
  }

  /** The infrastructure gets whole megabytes: the most that are within a quarter of the total and
      within 16G, but at least one. */
  lemma InfraMeans(total: nat)
    ensures WholeAndPositive(InfraBytes(total))
    ensures total < 4 * MB ==> InfraBytes(total) == MB
    ensures total >= 4 * MB ==> InfraBytes(total) <= 17179869184 && 4 * InfraBytes(total) <= total
    ensures InfraBytes(total) < 17179869184 ==> total < 4 * (InfraBytes(total) + MB)
  {
    WholeMegabytesOk(if 17179869184 < total / 4 then 17179869184 else total / 4);
  }

  /** The dictionary so far. */
  ghost predicate DictOk(entries: seq<string>, texts: seq<string>, infra: int, per: int, extras: int,
                         result: map<string, string>) {
    Assigned(entries, texts, result) && AreSizes(texts, infra, per, extras)
  }

  /** The dictionary: infrastructure first, then the loop over the CRSs. */
  method SplitAmong(crsNames: seq<string>, infra: int, perCrs: int, extras: int)
    returns (result: map<string, string>, ghost texts: seq<string>)
    requires infra > 0 && (crsNames != [] ==> perCrs > 0)
    ensures |texts| == |crsNames| + 1 && Assigned(DefaultCpus.Entries(crsNames), texts, result)
    ensures AreSizes(texts, infra, perCrs, extras)
  {
    ghost var entries := DefaultCpus.Entries(crsNames);
    result, texts := AddEntry(entries, [], infra, perCrs, extras, map[], INFRA, infra);
    for i := 0 to |crsNames|
      invariant |texts| == i + 1 && DictOk(entries, texts, infra, perCrs, extras, result)
    {
      var extra := if i < extras then MB else 0;
      result, texts := AddEntry(entries, texts, infra, perCrs, extras, result, crsNames[i], perCrs + extra);
    }
  }

  /** The size of the next entry is printed and stored under its name. */
  method AddEntry(ghost entries: seq<string>, ghost texts: seq<string>, ghost infra: int, ghost per: int,
                  ghost extras: int,
                  result: map<string, string>, name: string, bytes: int)
    returns (next: map<string, string>, ghost nextTexts: seq<string>)
    requires |texts| < |entries| && DictOk(entries, texts, infra, per, extras, result)
    requires name == entries[|texts|] && bytes == SizeAt(infra, per, extras, |texts|) && bytes > 0
    ensures |nextTexts| == |texts| + 1 && DictOk(entries, nextTexts, infra, per, extras, next)
  {
    var text := MemoryToStr(bytes);
    MemoryRoundTrip(bytes);
    AssignNext(entries, texts, result, text.value);
    NextSize(texts, infra, per, extras, text.value);
    next, nextTexts := result[name := text.value], texts + [text.value];
  }

  lemma NextSize(texts: seq<string>, infra: int, per: int, extras: int, text: string)
    requires AreSizes(texts, infra, per, extras) && ReadsBackAs(text, SizeAt(infra, per, extras, |texts|))
    ensures AreSizes(texts + [text], infra, per, extras)
  {
    forall i: nat | i < |texts| + 1
      ensures ReadsBackAs((texts + [text])[i], SizeAt(infra, per, extras, i))
    {
      if i < |texts| {
        assert (texts + [text])[i] == texts[i];
      }
    }
  }

  // ----- how even the split is -----

  function CrsTotal(per: int, extras: int, k: nat): int {
    if k == 0 then 0 else CrsTotal(per, extras, k - 1) + CrsBytes(per, extras, k - 1)
  }

  lemma {:induction false} CrsTotalIs(per: int, extras: nat, k: nat)
    ensures CrsTotal(per, extras, k) == per * k + MB * (if k < extras then k else extras)
  {
    if k > 0 {
      CrsTotalIs(per, extras, k - 1);
      assert per * k == per * (k - 1) + per;
    }
  }

  /** When an even split leaves each CRS at least a megabyte, less than one megabyte of the total is
      unassigned, and the shares are non-increasing and differ by at most a megabyte. */
  lemma DefaultMemoryIsEven(n: nat, total: nat, infra: int, per: int, extras: int)
    requires IsDefaultSplit(n, total, infra, per, extras)
    requires n > 0 && total - infra >= 1048576 * n
    ensures total - MB < infra + CrsTotal(per, extras, n) <= total
    ensures forall i: nat, j: nat :: i <= j < n ==>
              per <= CrsBytes(per, extras, j) <= CrsBytes(per, extras, i) <= per + MB
  {
    NestedFloor(total - infra, n);
    var left := total - infra - per * n;
    LeftUnderOne(left);
    CrsTotalIs(per, Megabytes(left), n);
  }

  /** Otherwise every CRS gets one megabyte, and that is more than there is unless there is no CRS. */
  lemma DefaultMemoryOverruns(n: nat, total: nat, infra: int, per: int, extras: int)
    requires IsDefaultSplit(n, total, infra, per, extras)
    requires n > 0 && total - infra < 1048576 * n
    ensures infra + CrsTotal(per, extras, n) > total
    ensures forall i: nat :: i < n ==> CrsBytes(per, extras, i) == MB
  {
    UnderQuotient(total - infra, n);
    CrsTotalNoExtras(per, extras, n);
  }

  /** Exactly when the default split exceeds the total, with or without CRSs: when what the
      infrastructure leaves is less than a megabyte per CRS. */
  lemma DefaultMemoryFits(n: nat, total: nat, infra: int, per: int, extras: int)
    requires IsDefaultSplit(n, total, infra, per, extras)
    ensures infra + CrsTotal(per, extras, n) <= total <==> total - infra >= 1048576 * n
  {
    if n > 0 {
      if total - infra >= 1048576 * n {
        DefaultMemoryIsEven(n, total, infra, per, extras);
      } else {
        DefaultMemoryOverruns(n, total, infra, per, extras);
      }
    }
  }

  lemma UnderQuotient(remaining: int, n: nat)
    requires n > 0 && remaining < 1048576 * n
    ensures PerCrs(remaining, n) == MB && Extras(remaining, MB, n) < 0
  {
    var each := remaining / n;
    assert remaining == each * n + remaining % n;
    if each >= 1048576 {
      MulLe(1048576, each, n);
    }
  }

  lemma {:induction false} CrsTotalNoExtras(per: int, extras: int, k: nat)
    requires extras <= 0
    ensures CrsTotal(per, extras, k) == per * k
  {
    if k > 0 {
      CrsTotalNoExtras(per, extras, k - 1);
      assert per * k == per * (k - 1) + per;
    }
  }

  /** The nested floors: what is left after an equal number of whole megabytes each is less than a
      megabyte per CRS. */
  lemma NestedFloor(remaining: nat, n: nat)
    requires n > 0 && remaining >= 1048576 * n
    ensures 0 <= remaining - PerCrs(remaining, n) * n < 1048576 * n
  {
    var each := remaining / n;
    DefaultCpus.DivisionFacts(remaining, n);
    AtLeastQuotient(remaining, n, each);
    var q := Megabytes(each);
    MulLe(q * 1048576, each, n);
    MulLe(each, q * 1048576 + 1048575, n);
    assert (q * 1048576 + 1048575) * n == q * 1048576 * n + 1048575 * n;
  }

  lemma AtLeastQuotient(remaining: nat, n: nat, each: nat)
    requires n > 0 && remaining >= 1048576 * n && remaining == each * n + remaining % n
    ensures each >= 1048576
  {
    if each < 1048576 {
      MulLe(each + 1, 1048576, n);
    }
  }

  lemma MulLe(a: int, b: int, n: nat)
    requires a <= b
    ensures a * n <= b * n
  {
  }
}
