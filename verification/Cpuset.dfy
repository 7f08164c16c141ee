/** CPU sets and their textual form, e.g. "0-3,5,8-11" (oss_crs/src/cpuset.py). */
module Cpuset {
  import opened Outcomes
  import opened Text

  /** Reasons for which the functions of cpuset.py raise. */
  datatype CpuError =
    | BadFormat                      // the text does not match the cpuset pattern
    | BadRange(start: nat, end: nat) // a range runs backwards
    | EmptySet                       // nothing to print
    | NotMapped                      // a virtual CPU has no real counterpart
    | PoolTooSmall
    | DivisionByZero

  /** The CPUs lo, lo+1, ..., hi. */
  datatype Range = Range(lo: nat, hi: nat)

  // ----- what a text means -----

  /** One comma-separated part: \d+(-\d+)? . */
  function ReadPart(part: string): Option<Range> {
    var ends := Split(part, '-');
    if !(forall i :: 0 <= i < |ends| ==> IsNumeral(ends[i])) then None
    else if |ends| == 1 then Some(Range(StringToNat(ends[0]), StringToNat(ends[0])))
    else if |ends| == 2 then Some(Range(StringToNat(ends[0]), StringToNat(ends[1])))
    else None
  }

  /** The pattern \d+(-\d+)?(,\d+(-\d+)?)* read as a grammar: parts joined by commas. */
  ghost predicate MatchesPattern(s: string) {
    exists parts :: IsReading(parts, s)
  }

  ghost predicate IsReading(parts: seq<string>, s: string) {
    && |parts| >= 1
    && (forall i :: 0 <= i < |parts| ==> ReadPart(parts[i]).Some?)
    && Join(parts, ',') == s
  }

  predicate AllPartsReadable(parts: seq<string>) {
    forall i :: 0 <= i < |parts| ==> ReadPart(parts[i]).Some?
  }

  function ReadParts(parts: seq<string>): (ranges: seq<Range>)
    requires AllPartsReadable(parts)
    ensures |ranges| == |parts|
    ensures forall i :: 0 <= i < |parts| ==> ranges[i] == ReadPart(parts[i]).value
  {
    seq(|parts|, i requires 0 <= i < |parts| => ReadPart(parts[i]).value)
  }

  predicate InRange(r: Range, cpu: nat) {
    r.lo <= cpu <= r.hi
  }

  ghost predicate Covers(ranges: seq<Range>, cpu: nat) {
    exists i :: 0 <= i < |ranges| && InRange(ranges[i], cpu)
  }

  /** All CPUs from the lower to the upper end. */
  function Interval(r: Range): set<nat> {
    set n: nat | r.lo <= n <= r.hi && InRange(r, n)
  }

  /** The CPUs of all the ranges. */
  function CpusOf(ranges: seq<Range>): set<nat> {
    if ranges == [] then {}
    else CpusOf(ranges[..|ranges| - 1]) + Interval(ranges[|ranges| - 1])
  }

  lemma CpusOfAppend(ranges: seq<Range>, r: Range)
    ensures CpusOf(ranges + [r]) == CpusOf(ranges) + Interval(r)
  {
    assert (ranges + [r])[..|ranges|] == ranges;
  }

  lemma CpusOfPrefix(ranges: seq<Range>, i: nat)
    requires i < |ranges|
    ensures CpusOf(ranges[..i + 1]) == CpusOf(ranges[..i]) + Interval(ranges[i])
  {
    assert ranges[..i + 1] == ranges[..i] + [ranges[i]];
    CpusOfAppend(ranges[..i], ranges[i]);
  }

  lemma {:induction false} InCpusOf(ranges: seq<Range>, n: nat)
    ensures n in CpusOf(ranges) <==> Covers(ranges, n)
  {
    if ranges != [] {
      var front, last := ranges[..|ranges| - 1], ranges[|ranges| - 1];
      InCpusOf(front, n);
      if Covers(front, n) {
        var i :| 0 <= i < |front| && InRange(front[i], n);
        assert InRange(ranges[i], n);
      }
      if Covers(ranges, n) && !InRange(last, n) {
        var i :| 0 <= i < |ranges| && InRange(ranges[i], n);
        assert InRange(front[i], n);
      }
    }
  }

  /** The position of the first backward range, or the number of ranges. */
  function FirstBackward(ranges: seq<Range>): (k: nat)
    ensures k <= |ranges|
    ensures forall i :: 0 <= i < k ==> ranges[i].lo <= ranges[i].hi
    ensures k < |ranges| ==> ranges[k].lo > ranges[k].hi
  {
    if ranges == [] || ranges[0].lo > ranges[0].hi then 0 else 1 + FirstBackward(ranges[1..])
  }

  /** What `parse_cpuset` yields for the parts of a text. */
  function PartsMeaning(parts: seq<string>): Result<set<nat>, CpuError> {
    if !AllPartsReadable(parts) then Failure(BadFormat)
    else RangesMeaning(ReadParts(parts))
  }

  /** The first backward range is an error. */
  function RangesMeaning(ranges: seq<Range>): Result<set<nat>, CpuError> {
    var k := FirstBackward(ranges);
    if k < |ranges| then Failure(BadRange(ranges[k].lo, ranges[k].hi)) else Success(CpusOf(ranges))
  }

  /** What `parse_cpuset` yields for a text. */
  function Meaning(s: string): Result<set<nat>, CpuError> {
    PartsMeaning(Split(Strip(s), ','))
  }

  /** `parse_cpuset`, which accumulates the set part by part. */
  method ParseCpuset(s: string) returns (r: Result<set<nat>, CpuError>)
    ensures r == Meaning(s)
  {
    r := ParseParts(Split(Strip(s), ','));
  }

  method ParseParts(parts: seq<string>) returns (r: Result<set<nat>, CpuError>)
    ensures r == PartsMeaning(parts)
  {
    if !AllPartsReadable(parts) {
      return Failure(BadFormat);
    }
    r := Accumulate(parts, ReadParts(parts));
  }

  /** The loop of `parse_cpuset`. */
  method Accumulate(parts: seq<string>, ghost ranges: seq<Range>) returns (r: Result<set<nat>, CpuError>)
    requires AllPartsReadable(parts) && ranges == ReadParts(parts)
    ensures r == RangesMeaning(ranges)
  {
    var result: set<nat> := {};
    for i := 0 to |parts|
      invariant result == CpusOf(ranges[..i])
      invariant forall j :: 0 <= j < i ==> ranges[j].lo <= ranges[j].hi
    {
      var range := ReadPart(parts[i]).value;
      if range.lo > range.hi {
        BackwardAt(ranges, i);
        return Failure(BadRange(range.lo, range.hi));
      }
      CpusOfPrefix(ranges, i);
      result := result + Interval(range);
    }
    assert ranges[..|parts|] == ranges;
    NoneBackward(ranges);
    return Success(result);
  }

  lemma BackwardAt(ranges: seq<Range>, i: nat)
    requires i < |ranges| && ranges[i].lo > ranges[i].hi
    requires forall j :: 0 <= j < i ==> ranges[j].lo <= ranges[j].hi
    ensures RangesMeaning(ranges) == Failure(BadRange(ranges[i].lo, ranges[i].hi))
  {
  }

  lemma NoneBackward(ranges: seq<Range>)
    requires forall j :: 0 <= j < |ranges| ==> ranges[j].lo <= ranges[j].hi
    ensures RangesMeaning(ranges) == Success(CpusOf(ranges))
  {
  }

  /** The pattern check and the later `split` see the same parts. */
  lemma PatternIsPartwise(s: string)
    ensures MatchesPattern(s) <==> AllPartsReadable(Split(s, ','))
  {
    if MatchesPattern(s) {
      var parts :| IsReading(parts, s);
      forall i | 0 <= i < |parts|
        ensures Without(parts[i], ',')
      {
        ReadableWithoutComma(parts[i]);
      }
      SplitJoin(parts, ',');
    }
    if AllPartsReadable(Split(s, ',')) {
      JoinSplit(s, ',');
      assert IsReading(Split(s, ','), s);
    }
  }

  lemma ReadableWithoutComma(part: string)
    requires ReadPart(part).Some?
    ensures Without(part, ',')
  {
    JoinSplit(part, '-');
    var ends := Split(part, '-');
    if |ends| == 2 {
      assert Join(ends[1..], '-') == ends[1];
    }
  }

  /** When a text is accepted, and which CPUs it then denotes. */
  lemma MeaningCharacterised(s: string)
    ensures Meaning(s) == Failure(BadFormat) <==> !MatchesPattern(Strip(s))
    ensures MatchesPattern(Strip(s)) ==>
              AllPartsReadable(Split(Strip(s), ',')) &&
              var ranges := ReadParts(Split(Strip(s), ','));
              && (Meaning(s).Success? <==> forall i :: 0 <= i < |ranges| ==> ranges[i].lo <= ranges[i].hi)
              && (Meaning(s).Success? ==>
                    Meaning(s).value != {} && forall n :: n in Meaning(s).value <==> Covers(ranges, n))
  {
    PatternIsPartwise(Strip(s));
    if AllPartsReadable(Split(Strip(s), ',')) {
      var ranges := ReadParts(Split(Strip(s), ','));
      forall n: nat
        ensures n in CpusOf(ranges) <==> Covers(ranges, n)
      {
        InCpusOf(ranges, n);
      }
      if Meaning(s).Success? {
        assert InRange(ranges[0], ranges[0].lo);
        assert Covers(ranges, ranges[0].lo);
      }
    }
  }

  /** A part is a number, or two numbers with a dash between them. */
  ghost predicate IsPart(part: string, r: Range) {
    || (IsNumeral(part) && r == Range(StringToNat(part), StringToNat(part)))
    || exists lo, hi :: IsDashed(part, lo, hi, r)
  }

  ghost predicate IsDashed(part: string, lo: string, hi: string, r: Range) {
    part == lo + "-" + hi && IsNumeral(lo) && IsNumeral(hi) && r == Range(StringToNat(lo), StringToNat(hi))
  }

  lemma NumeralWithout(s: string, c: char)
    requires IsNumeral(s) && !IsDigit(c)
    ensures Without(s, c)
  {
  }

  lemma ReadPartMeans(part: string, r: Range)
    ensures ReadPart(part) == Some(r) <==> IsPart(part, r)
  {
    var ends := Split(part, '-');
    JoinSplit(part, '-');
    if IsNumeral(part) {
      NumeralWithout(part, '-');
      SplitWithout(part, '-');
    }
    if lo, hi :| IsDashed(part, lo, hi, r) {
      DashedReads(part, lo, hi, r);
    }
    if ReadPart(part) == Some(r) && |ends| == 2 {
      assert Join(ends, '-') == ends[0] + ['-'] + Join(ends[1..], '-') && Join(ends[1..], '-') == ends[1];
      assert IsDashed(part, ends[0], ends[1], r);
    }
  }

  lemma DashedReads(part: string, lo: string, hi: string, r: Range)
    requires IsDashed(part, lo, hi, r)
    ensures ReadPart(part) == Some(r) && !IsNumeral(part)
  {
    NumeralWithout(lo, '-');
    NumeralWithout(hi, '-');
    SplitJoin([lo, hi], '-');
    assert Join([lo, hi], '-') == part;
    assert part[|lo|] == '-';
  }

  /** The text, without white space at its ends, is these parts with commas between them. */
  ghost predicate IsWrittenAs(s: string, parts: seq<string>, ranges: seq<Range>) {
    && |parts| >= 1 && |ranges| == |parts|
    && (forall i :: 0 <= i < |parts| ==> IsPart(parts[i], ranges[i]))
    && Join(parts, ',') == Strip(s)
  }

  ghost predicate FirstBackwardAt(ranges: seq<Range>, i: nat) {
    i < |ranges| && ranges[i].lo > ranges[i].hi && forall j :: 0 <= j < i ==> ranges[j].lo <= ranges[j].hi
  }

  lemma WrittenMeans(s: string, parts: seq<string>, ranges: seq<Range>)
    requires IsWrittenAs(s, parts, ranges)
    ensures Split(Strip(s), ',') == parts && AllPartsReadable(parts) && ReadParts(parts) == ranges
  {
    forall i | 0 <= i < |parts|
      ensures ReadPart(parts[i]) == Some(ranges[i]) && Without(parts[i], ',')
    {
      ReadPartMeans(parts[i], ranges[i]);
      ReadableWithoutComma(parts[i]);
    }
    SplitJoin(parts, ',');
    var read := ReadParts(parts);
    assert forall i :: 0 <= i < |ranges| ==> read[i] == ranges[i];
  }

  /** What a text means, told by its grammar: the CPUs of its ranges, or the first backward range. */
  lemma MeaningByGrammar(s: string, parts: seq<string>, ranges: seq<Range>)
    requires IsWrittenAs(s, parts, ranges)
    ensures forall i: nat :: FirstBackwardAt(ranges, i) ==> Meaning(s) == Failure(BadRange(ranges[i].lo, ranges[i].hi))
    ensures (forall i :: 0 <= i < |ranges| ==> ranges[i].lo <= ranges[i].hi) ==>
              Meaning(s).Success? && forall n :: n in Meaning(s).value <==> Covers(ranges, n)
  {
    WrittenMeans(s, parts, ranges);
    forall n: nat
      ensures n in CpusOf(ranges) <==> Covers(ranges, n)
    {
      InCpusOf(ranges, n);
    }
  }

  /** A text is rejected for its format exactly when it cannot be written so. */
  lemma BadFormatMeans(s: string)
    ensures Meaning(s) == Failure(BadFormat) <==> !exists parts, ranges :: IsWrittenAs(s, parts, ranges)
  {
    if parts, ranges :| IsWrittenAs(s, parts, ranges) {
      WrittenMeans(s, parts, ranges);
    }
    var pieces := Split(Strip(s), ',');
    if AllPartsReadable(pieces) {
      JoinSplit(Strip(s), ',');
      forall i | 0 <= i < |pieces|
        ensures IsPart(pieces[i], ReadParts(pieces)[i])
      {
        ReadPartMeans(pieces[i], ReadParts(pieces)[i]);
      }
      assert IsWrittenAs(s, pieces, ReadParts(pieces));
    }
  }

  // ----- ordered sequences -----

  predicate Ascending(s: seq<nat>) {
    forall i, j :: 0 <= i < j < |s| ==> s[i] < s[j]
  }

  function Elements(s: seq<nat>): set<nat> {
    set n | n in s
  }

  predicate IsLeast(m: nat, s: set<nat>) {
    m in s && forall n :: n in s ==> m <= n
  }

  lemma {:induction false} LeastExists(s: set<nat>)
    requires s != {}
    ensures exists m :: IsLeast(m, s)
  {
    var k :| k in s;
    if s == {k} {
      assert IsLeast(k, s);
    } else {
      var rest := s - {k};
      assert s == rest + {k};
      LeastExists(rest);
      var m :| IsLeast(m, rest);
      assert forall n :: n in s ==> n == k || n in rest;
      assert IsLeast(if k < m then k else m, s);
    }
  }

  function Least(s: set<nat>): (m: nat)
    requires s != {}
    ensures IsLeast(m, s)
  {
    LeastExists(s);
    var m :| IsLeast(m, s);
    m
  }

  /** The elements in order, least first; SortedCorrect gives the meaning. */
  function Sorted(s: set<nat>): seq<nat> {
    if s == {} then [] else [Least(s)] + Sorted(s - {Least(s)})
  }

  lemma OthersAbove(s: set<nat>)
    requires s != {}
    ensures forall n :: n in s - {Least(s)} ==> Least(s) < n
    ensures s == (s - {Least(s)}) + {Least(s)} && |s| == |s - {Least(s)}| + 1
  {
  }

  /** Sorting lists exactly the elements of the set, in ascending order. */
  lemma {:induction false} SortedCorrect(s: set<nat>)
    ensures Ascending(Sorted(s)) && Elements(Sorted(s)) == s && |Sorted(s)| == |s|
    decreases |s|
  {
    if s != {} {
      var m := Least(s);
      OthersAbove(s);
      SortedCorrect(s - {m});
      PrependLeast(m, Sorted(s - {m}));
    }
  }

  lemma PrependLeast(m: nat, rest: seq<nat>)
    requires Ascending(rest) && forall n :: n in Elements(rest) ==> m < n
    ensures Ascending([m] + rest) && Elements([m] + rest) == Elements(rest) + {m}
  {
    forall i | 0 <= i < |rest|
      ensures m < rest[i]
    {
      assert rest[i] in Elements(rest);
    }
  }

  lemma ElementsEmpty(s: seq<nat>)
    ensures Elements(s) == {} <==> s == []
  {
    if s != [] {
      assert s[0] in Elements(s);
    }
  }

  /** An ascending sequence is determined by its elements. */
  lemma {:induction false} AscendingUnique(s: seq<nat>, t: seq<nat>)
    requires Ascending(s) && Ascending(t) && Elements(s) == Elements(t)
    ensures s == t
  {
    ElementsEmpty(s);
    ElementsEmpty(t);
    if s != [] {
      assert s[0] in Elements(t);
      assert t[0] in Elements(s);
      assert s[0] == t[0];
      forall n
        ensures n in Elements(s[1..]) <==> n in Elements(t[1..])
      {
        assert n in Elements(s) <==> n in Elements(t);
        InTail(s, n);
        InTail(t, n);
      }
      AscendingUnique(s[1..], t[1..]);
      assert s == [s[0]] + s[1..] && t == [t[0]] + t[1..];
    }
  }

  lemma InTail(s: seq<nat>, n: nat)
    requires s != [] && Ascending(s)
    ensures n in Elements(s[1..]) <==> n in Elements(s) && n != s[0]
  {
    if n in Elements(s) && n != s[0] {
      var i :| 0 <= i < |s| && s[i] == n;
      assert s[1..][i - 1] == n;
    }
  }

  /** The sorted list of a set is the only ascending list of its elements. */
  lemma SortedUnique(s: set<nat>, list: seq<nat>)
    ensures list == Sorted(s) <==> Ascending(list) && Elements(list) == s
  {
    SortedCorrect(s);
    if Ascending(list) && Elements(list) == s {
      AscendingUnique(list, Sorted(s));
    }
  }

  // ----- printing -----

  /** Ranges in ascending order, separated by gaps: no two could be merged. */
  predicate Canonical(ranges: seq<Range>) {
    && (forall i :: 0 <= i < |ranges| ==> ranges[i].lo <= ranges[i].hi)
    && (forall i, j :: 0 <= i < j < |ranges| ==> ranges[i].hi + 2 <= ranges[j].lo)
  }

  /** Add a CPU above all the runs: lengthen the last run or start a new one. */
  function AddCpu(runs: seq<Range>, cpu: nat): seq<Range> {
    if runs != [] && cpu == runs[|runs| - 1].hi + 1 then
      runs[|runs| - 1 := Range(runs[|runs| - 1].lo, cpu)]
    else
      runs + [Range(cpu, cpu)]
  }

  lemma AddCpuCorrect(runs: seq<Range>, cpu: nat)
    requires Canonical(runs) && (runs != [] ==> runs[|runs| - 1].hi < cpu)
    ensures AddCpu(runs, cpu) != [] && AddCpu(runs, cpu)[|AddCpu(runs, cpu)| - 1].hi == cpu
    ensures Canonical(AddCpu(runs, cpu))
    ensures CpusOf(AddCpu(runs, cpu)) == CpusOf(runs) + {cpu}
  {
    StaysCanonical(runs, cpu);
    if runs != [] && cpu == runs[|runs| - 1].hi + 1 {
      LastGrows(runs, cpu);
    } else {
      NewRun(runs, cpu);
    }
  }

  lemma StaysCanonical(runs: seq<Range>, cpu: nat)
    requires Canonical(runs) && (runs != [] ==> runs[|runs| - 1].hi < cpu)
    ensures Canonical(AddCpu(runs, cpu))
  {
    var added := AddCpu(runs, cpu);
    forall i, j | 0 <= i < j < |added|
      ensures added[i].hi + 2 <= added[j].lo
    {
      assert added[i] == runs[i];
      if j < |runs| {
        assert added[j].lo == runs[j].lo;
      } else {
        assert runs[i].hi <= runs[|runs| - 1].hi;
      }
    }
  }

  lemma NewRun(runs: seq<Range>, cpu: nat)
    ensures CpusOf(runs + [Range(cpu, cpu)]) == CpusOf(runs) + {cpu}
  {
    CpusOfAppend(runs, Range(cpu, cpu));
    assert Interval(Range(cpu, cpu)) == {cpu};
  }

  lemma LastGrows(runs: seq<Range>, cpu: nat)
    requires runs != [] && runs[|runs| - 1].lo <= runs[|runs| - 1].hi && cpu == runs[|runs| - 1].hi + 1
    ensures CpusOf(AddCpu(runs, cpu)) == CpusOf(runs) + {cpu}
  {
    var k := |runs| - 1;
    assert AddCpu(runs, cpu)[..k] == runs[..k];
    assert Interval(Range(runs[k].lo, cpu)) == Interval(runs[k]) + {cpu};
  }

  /** The maximal runs of consecutive numbers of an ascending sequence. */
  function Runs(s: seq<nat>): seq<Range> {
    if s == [] then [] else AddCpu(Runs(s[..|s| - 1]), s[|s| - 1])
  }

  lemma FrontAndLast(s: seq<nat>)
    requires s != []
    ensures Elements(s) == Elements(s[..|s| - 1]) + {s[|s| - 1]}
  {
    assert s == s[..|s| - 1] + [s[|s| - 1]];
  }

  /** The ranges printed for a sorted list are canonical and cover exactly its elements. */
  lemma {:induction false} RunsCorrect(s: seq<nat>)
    requires Ascending(s)
    ensures Canonical(Runs(s)) && CpusOf(Runs(s)) == Elements(s)
    ensures s != [] ==> Runs(s) != [] && Runs(s)[|Runs(s)| - 1].hi == s[|s| - 1]
  {
    if s != [] {
      RunsCorrect(s[..|s| - 1]);
      FrontAndLast(s);
      AddCpuCorrect(Runs(s[..|s| - 1]), s[|s| - 1]);
    }
  }

  function RangeText(r: Range): string {
    if r.lo == r.hi then NatToString(r.lo) else NatToString(r.lo) + "-" + NatToString(r.hi)
  }

  function RangeTexts(ranges: seq<Range>): (texts: seq<string>)
    ensures |texts| == |ranges|
    ensures forall i :: 0 <= i < |ranges| ==> texts[i] == RangeText(ranges[i])
  {
    seq(|ranges|, i requires 0 <= i < |ranges| => RangeText(ranges[i]))
  }

  function RangesText(ranges: seq<Range>): string
    requires ranges != []
  {
    Join(RangeTexts(ranges), ',')
  }

  /** The text of a non-empty CPU set. */
  function CpusetText(cpus: set<nat>): string
    requires cpus != {}
  {
    SortedCorrect(cpus);
    RunsCorrect(Sorted(cpus));
    RangesText(Runs(Sorted(cpus)))
  }

  /** `cpuset_to_str`, with its running range (start, end). */
  method CpusetToStr(cpus: set<nat>) returns (r: Result<string, CpuError>)
    ensures cpus == {} ==> r == Failure(EmptySet)
    ensures cpus != {} ==> r == Success(CpusetText(cpus))
  {
    if cpus == {} {
      return Failure(EmptySet);
    }
    var sortedCpus := Sorted(cpus);
    SortedCorrect(cpus);
    var ranges: seq<string> := [];
    var start, end := sortedCpus[0], sortedCpus[0];
    ghost var closed: seq<Range> := [];
    RunsPrefix(sortedCpus, 0);
    for i := 1 to |sortedCpus|
      invariant ranges == RangeTexts(closed)
      invariant Runs(sortedCpus[..i]) == closed + [Range(start, end)]
    {
      var cpu := sortedCpus[i];
      RunsPrefix(sortedCpus, i);
      AddCpuToOpen(closed, Range(start, end), cpu);
      if cpu == end + 1 {
        end := cpu;
      } else {
        RangeTextsAppend(closed, Range(start, end));
        ranges := ranges + [RangeText(Range(start, end))];
        closed := closed + [Range(start, end)];
        start, end := cpu, cpu;
      }
    }
    assert sortedCpus[..|sortedCpus|] == sortedCpus;
    RangeTextsAppend(closed, Range(start, end));
    ranges := ranges + [RangeText(Range(start, end))];
    assert ranges == RangeTexts(Runs(sortedCpus));
    return Success(Join(ranges, ','));
  }

  lemma AddCpuToOpen(closed: seq<Range>, open: Range, cpu: nat)
    ensures AddCpu(closed + [open], cpu) ==
            if cpu == open.hi + 1 then closed + [Range(open.lo, cpu)] else closed + [open] + [Range(cpu, cpu)]
  {
  }

  lemma RunsPrefix(s: seq<nat>, i: nat)
    requires i < |s|
    ensures Runs(s[..i + 1]) == AddCpu(Runs(s[..i]), s[i])
  {
    assert s[..i + 1][..i] == s[..i];
  }

  lemma RangeTextsAppend(ranges: seq<Range>, r: Range)
    ensures RangeTexts(ranges + [r]) == RangeTexts(ranges) + [RangeText(r)]
  {
  }

  /** A single CPU is printed as its number, a longer range as its ends. */
  ghost predicate IsPrinted(text: string, r: Range) {
    if r.lo == r.hi then IsPlainNumeral(text, r.lo)
    else exists lo, hi :: text == lo + "-" + hi && IsPlainNumeral(lo, r.lo) && IsPlainNumeral(hi, r.hi)
  }

  lemma RangeTextMeans(r: Range)
    ensures IsPrinted(RangeText(r), r)
  {
    PlainNumeral(r.lo);
    PlainNumeral(r.hi);
  }

  /** The shape of a printed set: its runs in ascending order, with gaps between them, each printed short. */
  lemma PrintedShape(cpus: set<nat>) returns (runs: seq<Range>)
    requires cpus != {}
    ensures Canonical(runs) && forall n :: n in cpus <==> Covers(runs, n)
    ensures var parts := Split(CpusetText(cpus), ',');
            |parts| == |runs| && forall i :: 0 <= i < |runs| ==> IsPrinted(parts[i], runs[i])
  {
    runs := Runs(Sorted(cpus));
    SortedCorrect(cpus);
    RunsCorrect(Sorted(cpus));
    ReadRangeTexts(runs);
    SplitJoin(RangeTexts(runs), ',');
    forall n
      ensures n in cpus <==> Covers(runs, n)
    {
      if n in cpus {
        InCpusOf(runs, n);
      }
      if Covers(runs, n) {
        InCpusOf(runs, n);
      }
    }
    forall i | 0 <= i < |runs|
      ensures IsPrinted(RangeTexts(runs)[i], runs[i])
    {
      RangeTextMeans(runs[i]);
    }
  }

  // ----- printing and parsing are inverse -----

  lemma NumeralHasNo(n: nat, c: char)
    requires !IsDigit(c)
    ensures Without(NatToString(n), c)
  {
  }

  lemma ReadRangeText(r: Range)
    ensures ReadPart(RangeText(r)) == Some(r)
    ensures Without(RangeText(r), ',')
  {
    NumeralHasNo(r.lo, '-');
    NumeralHasNo(r.hi, '-');
    DecimalRoundTrip(r.lo);
    DecimalRoundTrip(r.hi);
    if r.lo == r.hi {
      SplitWithout(RangeText(r), '-');
    } else {
      SplitJoin([NatToString(r.lo), NatToString(r.hi)], '-');
      assert Join([NatToString(r.lo), NatToString(r.hi)], '-') == RangeText(r);
      assert forall i :: 0 <= i < |RangeText(r)| ==> IsDigit(RangeText(r)[i]) || RangeText(r)[i] == '-';
    }
  }

  /** A joined text starts and ends with a digit, so `strip` leaves it alone. */
  lemma {:induction false} JoinedEnds(ranges: seq<Range>)
    requires ranges != []
    ensures var s := RangesText(ranges); s != "" && IsDigit(s[0]) && IsDigit(s[|s| - 1])
  {
    var texts := RangeTexts(ranges);
    assert texts[0] == RangeText(ranges[0]);
    if |ranges| > 1 {
      assert texts[1..] == RangeTexts(ranges[1..]);
      JoinedEnds(ranges[1..]);
    }
  }

  lemma ReadRangeTexts(ranges: seq<Range>)
    ensures AllPartsReadable(RangeTexts(ranges)) && ReadParts(RangeTexts(ranges)) == ranges
    ensures forall i :: 0 <= i < |ranges| ==> Without(RangeTexts(ranges)[i], ',')
  {
    var texts := RangeTexts(ranges);
    forall i | 0 <= i < |ranges|
      ensures ReadPart(texts[i]) == Some(ranges[i]) && Without(texts[i], ',')
    {
      ReadRangeText(ranges[i]);
    }
    var read := ReadParts(texts);
    assert |read| == |ranges|;
    assert forall i :: 0 <= i < |ranges| ==> read[i] == ranges[i];
  }

  /** Reading back any list of forward ranges gives exactly the CPUs of that list. */
  lemma RangesReadBack(ranges: seq<Range>)
    requires ranges != [] && forall i :: 0 <= i < |ranges| ==> ranges[i].lo <= ranges[i].hi
    ensures Meaning(RangesText(ranges)) == Success(CpusOf(ranges))
  {
    ReadRangeTexts(ranges);
    TextSplits(ranges);
  }

  lemma TextSplits(ranges: seq<Range>)
    requires ranges != []
    ensures Split(Strip(RangesText(ranges)), ',') == RangeTexts(ranges)
  {
    JoinedEnds(ranges);
    assert Strip(RangesText(ranges)) == RangesText(ranges);
    ReadRangeTexts(ranges);
    SplitJoin(RangeTexts(ranges), ',');
  }

  /** Round trip: a printed set parses back to the same set. */
  lemma PrintThenParse(cpus: set<nat>)
    requires cpus != {}
    ensures Meaning(CpusetText(cpus)) == Success(cpus)
  {
    SortedCorrect(cpus);
    RunsCorrect(Sorted(cpus));
    RangesReadBack(Runs(Sorted(cpus)));
  }

  ghost predicate SameCover(a: seq<Range>, b: seq<Range>) {
    forall n: nat :: Covers(a, n) <==> Covers(b, n)
  }

  lemma CoverMeansCpus(a: seq<Range>, b: seq<Range>)
    ensures SameCover(a, b) <==> CpusOf(a) == CpusOf(b)
  {
    forall n: nat
      ensures n in CpusOf(a) <==> Covers(a, n)
      ensures n in CpusOf(b) <==> Covers(b, n)
    {
      InCpusOf(a, n);
      InCpusOf(b, n);
    }
    if SameCover(a, b) {
      forall n: nat
        ensures n in CpusOf(a) <==> n in CpusOf(b)
      {
        assert Covers(a, n) <==> Covers(b, n);
      }
    }
  }

  lemma CoverAt(a: seq<Range>, b: seq<Range>, n: nat)
    requires SameCover(a, b)
    ensures Covers(a, n) <==> Covers(b, n)
  {
  }

  /** What the first range of a canonical list tells about the CPUs covered. */
  lemma CanonicalCovers(a: seq<Range>, n: nat)
    requires a != [] && Canonical(a)
    ensures InRange(a[0], n) ==> Covers(a, n)
    ensures Covers(a, n) ==> a[0].lo <= n && n != a[0].hi + 1
    ensures Covers(a[1..], n) <==> Covers(a, n) && n > a[0].hi
  {
    if Covers(a, n) {
      var i :| 0 <= i < |a| && InRange(a[i], n);
      if i > 0 {
        assert InRange(a[1..][i - 1], n);
      }
    }
    if Covers(a[1..], n) {
      var i :| 0 <= i < |a[1..]| && InRange(a[1..][i], n);
      assert InRange(a[i + 1], n);
    }
  }

  lemma CanonicalFirstLe(a: seq<Range>, b: seq<Range>)
    requires a != [] && b != [] && Canonical(a) && Canonical(b) && SameCover(a, b)
    ensures a[0].lo >= b[0].lo && (a[0].lo == b[0].lo ==> a[0].hi <= b[0].hi)
  {
    CoverAt(a, b, a[0].lo);
    CoverAt(a, b, b[0].hi + 1);
    CanonicalCovers(a, a[0].lo);
    CanonicalCovers(b, a[0].lo);
    CanonicalCovers(a, b[0].hi + 1);
    CanonicalCovers(b, b[0].hi + 1);
  }

  /** Only one canonical list of ranges covers a given set. */
  lemma {:induction false} CanonicalUnique(a: seq<Range>, b: seq<Range>)
    requires Canonical(a) && Canonical(b) && SameCover(a, b)
    ensures a == b
  {
    if a == [] {
      if b != [] {
        CoverAt(a, b, b[0].lo);
        CanonicalCovers(b, b[0].lo);
      }
    } else if b == [] {
      CoverAt(a, b, a[0].lo);
      CanonicalCovers(a, a[0].lo);
    } else {
      CanonicalFirstLe(a, b);
      CanonicalFirstLe(b, a);
      forall n: nat
        ensures Covers(a[1..], n) <==> Covers(b[1..], n)
      {
        CoverAt(a, b, n);
        CanonicalCovers(a, n);
        CanonicalCovers(b, n);
      }
      CanonicalUnique(a[1..], b[1..]);
      assert a == [a[0]] + a[1..] && b == [b[0]] + b[1..];
    }
  }

  /** The printed form is the only canonical text of the set. */
  lemma CanonicalTextUnique(ranges: seq<Range>)
    requires ranges != [] && Canonical(ranges)
    ensures CpusOf(ranges) != {} && RangesText(ranges) == CpusetText(CpusOf(ranges))
  {
    CanonicalCovers(ranges, ranges[0].lo);
    InCpusOf(ranges, ranges[0].lo);
    var sorted := Sorted(CpusOf(ranges));
    SortedCorrect(CpusOf(ranges));
    RunsCorrect(sorted);
    CoverMeansCpus(ranges, Runs(sorted));
    CanonicalUnique(ranges, Runs(sorted));
  }

  lemma TextInjective(a: set<nat>, b: set<nat>)
    requires a != {} && b != {} && CpusetText(a) == CpusetText(b)
    ensures a == b
  {
    PrintThenParse(a);
    PrintThenParse(b);
  }

  lemma ValidIsNonEmpty(s: string)
    requires Meaning(s).Success?
    ensures Meaning(s).value != {}
  {
    MeaningCharacterised(s);
  }

  /** Re-printing is a normal form: it decides whether two valid texts denote the same set. */
  lemma NormalFormDecides(s: string, t: string)
    requires Meaning(s).Success? && Meaning(t).Success?
    ensures Meaning(s).value != {} && Meaning(t).value != {}
    ensures Meaning(s).value == Meaning(t).value
       <==> CpusetText(Meaning(s).value) == CpusetText(Meaning(t).value)
  {
    ValidIsNonEmpty(s);
    ValidIsNonEmpty(t);
    if CpusetText(Meaning(s).value) == CpusetText(Meaning(t).value) {
      TextInjective(Meaning(s).value, Meaning(t).value);
    }
  }
}
