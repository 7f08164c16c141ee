/** Moving the CPU sets of a configuration onto a real pool
    (oss_crs/src/cpuset.py and CRSComposeConfig.map_cpus). */
module CpuMapping {
  import opened Outcomes
  import opened Cpuset

  // ----- the mapping -----

  /** The union of the meanings of the texts, or the first error. */
  function UnionMeaning(texts: seq<string>): Result<set<nat>, CpuError> {
    if texts == [] then Success({})
    else
      var front := UnionMeaning(texts[..|texts| - 1]);
      var last := Meaning(texts[|texts| - 1]);
      if front.Failure? then front
      else if last.Failure? then last
      else Success(front.value + last.value)
  }

  /** Send the i-th smallest virtual CPU to the i-th smallest real one. */
  function RankMap(virtualCpus: seq<nat>, realCpus: seq<nat>): (m: map<nat, nat>)
    requires |virtualCpus| <= |realCpus|
  {
    if virtualCpus == [] then map[]
    else
      var k := |virtualCpus| - 1;
      RankMap(virtualCpus[..k], realCpus)[virtualCpus[k] := realCpus[k]]
  }

  function MappingFor(texts: seq<string>, pool: string): Result<map<nat, nat>, CpuError> {
    var virtualCpus, realCpus := UnionMeaning(texts), Meaning(pool);
    if virtualCpus.Failure? then Failure(virtualCpus.error)
    else if realCpus.Failure? then Failure(realCpus.error)
    else if |realCpus.value| < |virtualCpus.value| then Failure(PoolTooSmall)
    else
      SortedCorrect(virtualCpus.value);
      SortedCorrect(realCpus.value);
      Success(RankMap(Sorted(virtualCpus.value), Sorted(realCpus.value)))
  }

  /** `create_cpu_mapping`. */
  method CreateCpuMapping(virtualCpusets: seq<string>, realPool: string)
    returns (r: Result<map<nat, nat>, CpuError>)
    ensures r == MappingFor(virtualCpusets, realPool)
    ensures r.Success? ==> IsMapping(virtualCpusets, realPool, r.value)
    ensures forall e :: r == Failure(e) <==> IsRejected(virtualCpusets, realPool, e)
  {
    forall e
      ensures MappingFor(virtualCpusets, realPool) == Failure(e) <==> IsRejected(virtualCpusets, realPool, e)
    {
      RejectionMeans(virtualCpusets, realPool, e);
    }
    if MappingFor(virtualCpusets, realPool).Success? {
      MappingIsIncreasing(virtualCpusets, realPool);
    }
    r := UniteAndRank(virtualCpusets, realPool);
  }

  method UniteAndRank(virtualCpusets: seq<string>, realPool: string)
    returns (r: Result<map<nat, nat>, CpuError>)
    ensures r == MappingFor(virtualCpusets, realPool)
  {
    var allVirtual: set<nat> := {};
    for i := 0 to |virtualCpusets|
      invariant UnionMeaning(virtualCpusets[..i]) == Success(allVirtual)
    {
      assert virtualCpusets[..i + 1][..i] == virtualCpusets[..i];
      var cpus := ParseCpuset(virtualCpusets[i]);
      if cpus.Failure? {
        UnionFailsEarly(virtualCpusets, i + 1);
        return Failure(cpus.error);
      }
      allVirtual := allVirtual + cpus.value;
    }
    assert virtualCpusets[..|virtualCpusets|] == virtualCpusets;
    var realCpus := ParseCpuset(realPool);
    if realCpus.Failure? {
      return Failure(realCpus.error);
    }
    if |realCpus.value| < |allVirtual| {
      return Failure(PoolTooSmall);
    }
    SortedCorrect(allVirtual);
    SortedCorrect(realCpus.value);
    return Success(RankMap(Sorted(allVirtual), Sorted(realCpus.value)));
  }

  lemma {:induction false} UnionFailsEarly(texts: seq<string>, k: nat)
    requires k <= |texts| && UnionMeaning(texts[..k]).Failure?
    ensures UnionMeaning(texts) == UnionMeaning(texts[..k])
    decreases |texts|
  {
    if k == |texts| {
      assert texts[..k] == texts;
    } else {
      assert texts[..|texts| - 1][..k] == texts[..k];
      UnionFailsEarly(texts[..|texts| - 1], k);
    }
  }

  // ----- what is united, and when there is no mapping -----

  /** The text is readable, and its set has this CPU. */
  predicate Denotes(text: string, v: nat) {
    Meaning(text).Success? && v in Meaning(text).value
  }

  ghost predicate InSome(texts: seq<string>, v: nat) {
    exists text :: text in texts && Denotes(text, v)
  }

  ghost predicate AllReadable(texts: seq<string>) {
    forall text :: text in texts ==> Meaning(text).Success?
  }

  /** The i-th text is the first that cannot be read. */
  ghost predicate FirstUnreadable(texts: seq<string>, i: nat, e: CpuError) {
    i < |texts| && Meaning(texts[i]) == Failure(e) && AllReadable(texts[..i])
  }

  /** A union of readable texts has exactly the CPUs that one of them has; otherwise the first text that
      cannot be read gives the error. */
  lemma UnionMeans(texts: seq<string>)
    ensures UnionMeaning(texts).Success? ==>
              AllReadable(texts) && forall v :: v in UnionMeaning(texts).value <==> InSome(texts, v)
    ensures UnionMeaning(texts).Failure? ==> exists i: nat :: FirstUnreadable(texts, i, UnionMeaning(texts).error)
  {
    if UnionMeaning(texts).Success? {
      UnionDenotes(texts);
    } else {
      var i := UnionFails(texts);
    }
  }

  lemma FrontOrLast(texts: seq<string>)
    requires texts != []
    ensures forall text :: text in texts <==> text in texts[..|texts| - 1] || text == texts[|texts| - 1]
  {
  }

  lemma {:induction false} UnionDenotes(texts: seq<string>)
    requires UnionMeaning(texts).Success?
    ensures AllReadable(texts) && forall v :: v in UnionMeaning(texts).value <==> InSome(texts, v)
  {
    if texts != [] {
      var front, last := texts[..|texts| - 1], texts[|texts| - 1];
      UnionDenotes(front);
      FrontOrLast(texts);
      forall v
        ensures v in UnionMeaning(texts).value <==> InSome(texts, v)
      {
        assert v in UnionMeaning(texts).value <==> InSome(front, v) || Denotes(last, v);
      }
    }
  }

  lemma {:induction false} UnionFails(texts: seq<string>) returns (i: nat)
    requires UnionMeaning(texts).Failure?
    ensures FirstUnreadable(texts, i, UnionMeaning(texts).error)
  {
    var k := |texts| - 1;
    var front := texts[..k];
    if UnionMeaning(front).Failure? {
      i := UnionFails(front);
      assert front[..i] == texts[..i];
    } else {
      UnionDenotes(front);
      i := k;
    }
  }

  /** The texts have more than n CPUs together. */
  ghost predicate TooMany(texts: seq<string>, n: nat) {
    exists cpus: set<nat> :: |cpus| > n && forall v :: v in cpus ==> InSome(texts, v)
  }

  lemma {:induction false} SubsetSize(a: set<nat>, b: set<nat>)
    requires a <= b
    ensures |a| <= |b|
  {
    if a != {} {
      var x :| x in a;
      SubsetSize(a - {x}, b - {x});
    }
  }

  lemma TooManyMeans(texts: seq<string>, n: nat)
    requires UnionMeaning(texts).Success?
    ensures TooMany(texts, n) <==> |UnionMeaning(texts).value| > n
  {
    UnionMeans(texts);
    var all := UnionMeaning(texts).value;
    if cpus: set<nat> :| |cpus| > n && forall v :: v in cpus ==> InSome(texts, v) {
      assert cpus <= all;
      SubsetSize(cpus, all);
    }
    if |all| > n {
      assert forall v :: v in all ==> InSome(texts, v);
    }
  }

  /** Why there is no mapping: a text cannot be read; or else the pool cannot; or else it is too small. */
  ghost predicate IsRejected(texts: seq<string>, pool: string, e: CpuError) {
    || (exists i: nat :: FirstUnreadable(texts, i, e))
    || (AllReadable(texts) && Meaning(pool) == Failure(e))
    || (AllReadable(texts) && Meaning(pool).Success? && e == PoolTooSmall && TooMany(texts, |Meaning(pool).value|))
  }

  /** There is no mapping exactly for these reasons. */
  lemma RejectionMeans(texts: seq<string>, pool: string, e: CpuError)
    ensures MappingFor(texts, pool) == Failure(e) <==> IsRejected(texts, pool, e)
  {
    if UnionMeaning(texts).Success? {
      UnionDenotes(texts);
      NoneFirst(texts, e);
      if Meaning(pool).Success? {
        TooManyMeans(texts, |Meaning(pool).value|);
      }
    } else {
      var i := UnionFails(texts);
      OneFirst(texts, i, UnionMeaning(texts).error, e);
    }
  }

  lemma NoneFirst(texts: seq<string>, e: CpuError)
    requires AllReadable(texts)
    ensures forall i: nat :: !FirstUnreadable(texts, i, e)
  {
  }

  lemma ReadableBefore(texts: seq<string>, i: nat, e: CpuError, j: nat)
    requires FirstUnreadable(texts, i, e) && j < i
    ensures Meaning(texts[j]).Success?
  {
    assert texts[..i][j] in texts[..i];
  }

  lemma OneFirst(texts: seq<string>, i: nat, d: CpuError, e: CpuError)
    requires FirstUnreadable(texts, i, d)
    ensures (exists j: nat :: FirstUnreadable(texts, j, e)) <==> d == e
    ensures !AllReadable(texts)
  {
    assert texts[i] in texts;
    if j: nat :| FirstUnreadable(texts, j, e) {
      if i < j {
        ReadableBefore(texts, j, e, i);
      } else if j < i {
        ReadableBefore(texts, i, d, j);
      }
    }
  }

  // ----- applying it -----

  function Image(cpus: set<nat>, m: map<nat, nat>): set<nat>
    requires cpus <= m.Keys
  {
    set v | v in cpus :: m[v]
  }

  function Mapped(text: string, m: map<nat, nat>): Result<string, CpuError> {
    var cpus := Meaning(text);
    if cpus.Failure? then Failure(cpus.error)
    else if !(cpus.value <= m.Keys) then Failure(NotMapped)
    else if cpus.value == {} then Failure(EmptySet)
    else
      assert forall v :: v in cpus.value ==> m[v] in Image(cpus.value, m);
      Success(CpusetText(Image(cpus.value, m)))
  }

  /** `map_cpuset`, which visits the virtual CPUs in no particular order. */
  method MapCpuset(text: string, m: map<nat, nat>) returns (r: Result<string, CpuError>)
    ensures r == Mapped(text, m)
  {
    var parsed := ParseCpuset(text);
    if parsed.Failure? {
      return Failure(parsed.error);
    }
    var mapped, realCpus := MapCpus(parsed.value, m);
    if !mapped {
      return Failure(NotMapped);
    }
    assert parsed.value != {} ==> realCpus != {};
    r := CpusetToStr(realCpus);
  }

  lemma ImageNotEmpty(cpus: set<nat>, m: map<nat, nat>)
    requires cpus != {} && cpus <= m.Keys
    ensures Image(cpus, m) != {}
  {
    var v :| v in cpus;
    assert m[v] in Image(cpus, m);
  }

  /** A text is mapped to one that means the image; it cannot be mapped if it cannot be read, or else if it has
      a CPU that is not mapped. */
  lemma MappedOutcome(text: string, m: map<nat, nat>)
    ensures match Meaning(text)
            case Failure(e) => Mapped(text, m) == Failure(e)
            case Success(cpus) =>
              if cpus <= m.Keys then
                Mapped(text, m).Success? && Meaning(Mapped(text, m).value) == Success(Image(cpus, m))
              else Mapped(text, m) == Failure(NotMapped)
  {
    if Meaning(text).Success? && Meaning(text).value <= m.Keys {
      MappedMeans(text, m);
    }
  }

  lemma MappedMeans(text: string, m: map<nat, nat>)
    requires Meaning(text).Success? && Meaning(text).value <= m.Keys
    ensures Mapped(text, m).Success? && Meaning(Mapped(text, m).value) == Success(Image(Meaning(text).value, m))
  {
    var cpus := Meaning(text).value;
    ValidIsNonEmpty(text);
    ImageNotEmpty(cpus, m);
    PrintThenParse(Image(cpus, m));
  }

  method MapCpus(cpus: set<nat>, m: map<nat, nat>) returns (mapped: bool, realCpus: set<nat>)
    ensures mapped <==> cpus <= m.Keys
    ensures mapped ==> realCpus == Image(cpus, m) && (cpus != {} <==> realCpus != {})
  {
    var todo := cpus;
    realCpus := {};
    while todo != {}
      invariant todo <= cpus && cpus - todo <= m.Keys
      invariant realCpus == Image(cpus - todo, m) && (cpus - todo != {} <==> realCpus != {})
    {
      var vcpu :| vcpu in todo;
      if vcpu !in m {
        return false, {};
      }
      ImageGrows(cpus, todo, vcpu, m);
      todo := todo - {vcpu};
      realCpus := realCpus + {m[vcpu]};
    }
    assert cpus - todo == cpus;
    mapped := true;
  }

  lemma ImageGrows(cpus: set<nat>, todo: set<nat>, v: nat, m: map<nat, nat>)
    requires todo <= cpus && cpus - todo <= m.Keys && v in todo && v in m
    ensures cpus - (todo - {v}) <= m.Keys
    ensures Image(cpus - (todo - {v}), m) == Image(cpus - todo, m) + {m[v]}
  {
    assert cpus - (todo - {v}) == cpus - todo + {v};
  }

  // ----- what the mapping preserves -----

  predicate StrictlyIncreasing(m: map<nat, nat>) {
    forall v, w :: v in m && w in m && v < w ==> m[v] < m[w]
  }

  /** m sends each of vs to the real CPU of the same rank. */
  ghost predicate ByRank(m: map<nat, nat>, vs: seq<nat>, rs: seq<nat>) {
    && |vs| <= |rs|
    && m.Keys == Elements(vs)
    && forall i :: 0 <= i < |vs| ==> vs[i] in m && m[vs[i]] == rs[i]
  }

  lemma {:induction false} RankMapCorrect(vs: seq<nat>, rs: seq<nat>)
    requires |vs| <= |rs| && Ascending(vs)
    ensures ByRank(RankMap(vs, rs), vs, rs)
  {
    if vs != [] {
      var k := |vs| - 1;
      RankMapCorrect(vs[..k], rs);
      FrontAndLast(vs);
      forall i | 0 <= i < k
        ensures vs[i] in RankMap(vs, rs) && RankMap(vs, rs)[vs[i]] == rs[i]
      {
        assert vs[..k][i] == vs[i];
      }
    }
  }

  lemma RankOf(m: map<nat, nat>, vs: seq<nat>, rs: seq<nat>, v: nat) returns (i: nat)
    requires ByRank(m, vs, rs) && v in m
    ensures i < |vs| && vs[i] == v && m[v] == rs[i]
  {
    assert v in Elements(vs);
    i :| 0 <= i < |vs| && vs[i] == v;
  }

  lemma RanksIncrease(m: map<nat, nat>, vs: seq<nat>, rs: seq<nat>)
    requires ByRank(m, vs, rs) && Ascending(vs) && Ascending(rs)
    ensures StrictlyIncreasing(m)
  {
    forall v, w | v in m && w in m && v < w
      ensures m[v] < m[w]
    {
      var i := RankOf(m, vs, rs, v);
      var j := RankOf(m, vs, rs, w);
    }
  }

  lemma RanksAreInitial(m: map<nat, nat>, vs: seq<nat>, rs: seq<nat>, r: nat, s: nat)
    requires ByRank(m, vs, rs) && Ascending(rs)
    requires s in m.Values
    ensures s in Elements(rs)
    ensures r in Elements(rs) && r < s ==> r in m.Values
  {
    var v :| v in m && m[v] == s;
    var j := RankOf(m, vs, rs, v);
    if r in Elements(rs) && r < s {
      var i :| 0 <= i < |rs| && rs[i] == r;
      assert i < j;
      assert m[vs[i]] == r;
    }
  }

  /** The mapping is defined on just the CPUs of the texts, and is a strictly increasing injection onto the
      smallest CPUs of the pool. */
  ghost predicate IsMapping(texts: seq<string>, pool: string, m: map<nat, nat>) {
    && AllReadable(texts) && Meaning(pool).Success?
    && (forall v :: v in m <==> InSome(texts, v))
    && m.Values <= Meaning(pool).value
    && StrictlyIncreasing(m)
    && forall r, s :: r in Meaning(pool).value && s in m.Values && r < s ==> r in m.Values
  }

  lemma MappingIsIncreasing(texts: seq<string>, pool: string)
    requires MappingFor(texts, pool).Success?
    ensures IsMapping(texts, pool, MappingFor(texts, pool).value)
  {
    var vset, rset := UnionMeaning(texts).value, Meaning(pool).value;
    UnionMeans(texts);
    SortedCorrect(vset);
    SortedCorrect(rset);
    var m := RankMap(Sorted(vset), Sorted(rset));
    RankMapCorrect(Sorted(vset), Sorted(rset));
    RanksIncrease(m, Sorted(vset), Sorted(rset));
    forall v
      ensures v in m <==> v in vset
    {
      assert m.Keys == Elements(Sorted(vset));
    }
    forall r, s | s in m.Values
      ensures s in rset
      ensures r in rset && r < s ==> r in m.Values
    {
      RanksAreInitial(m, Sorted(vset), Sorted(rset), r, s);
    }
  }

  /** A strictly increasing mapping keeps counts and intersections. */
  lemma {:induction false} ImageCount(cpus: set<nat>, m: map<nat, nat>)
    requires cpus <= m.Keys && StrictlyIncreasing(m)
    ensures |Image(cpus, m)| == |cpus|
  {
    if cpus != {} {
      var v :| v in cpus;
      ImageCount(cpus - {v}, m);
      ImageWithout(cpus, v, m);
    }
  }

  lemma ImageWithout(cpus: set<nat>, v: nat, m: map<nat, nat>)
    requires cpus <= m.Keys && StrictlyIncreasing(m) && v in cpus
    ensures Image(cpus, m) == Image(cpus - {v}, m) + {m[v]}
    ensures m[v] !in Image(cpus - {v}, m)
  {
    assert cpus == (cpus - {v}) + {v};
    forall w | w in cpus - {v}
      ensures m[w] != m[v]
    {
      assert w < v || v < w;
    }
  }

  lemma ImageIntersection(a: set<nat>, b: set<nat>, m: map<nat, nat>)
    requires a <= m.Keys && b <= m.Keys && StrictlyIncreasing(m)
    ensures Image(a, m) * Image(b, m) == Image(a * b, m)
  {
    forall r | r in Image(a, m) * Image(b, m)
      ensures r in Image(a * b, m)
    {
      var v :| v in a && m[v] == r;
      var w :| w in b && m[w] == r;
      assert v == w;
    }
  }

  lemma CoversEach(texts: seq<string>, pool: string, m: map<nat, nat>, i: nat)
    requires IsMapping(texts, pool, m) && i < |texts|
    ensures Meaning(texts[i]).Success? && Meaning(texts[i]).value != {} && Meaning(texts[i]).value <= m.Keys
  {
    ValidIsNonEmpty(texts[i]);
    forall v | v in Meaning(texts[i]).value
      ensures v in m
    {
      assert Denotes(texts[i], v);
    }
  }

  /** Once a mapping exists, every one of its texts can be mapped: `map_cpus` cannot fail midway.
      Mapped texts keep their CPU counts and share CPUs exactly where the old ones did. */
  lemma MappedTogether(texts: seq<string>, pool: string, i: nat, j: nat)
    requires MappingFor(texts, pool).Success? && i < |texts| && j < |texts|
    ensures var m := MappingFor(texts, pool).value;
      && Meaning(texts[i]).Success? && Mapped(texts[i], m).Success? && Mapped(texts[j], m).Success?
      && Meaning(texts[j]).Success?
      && Meaning(texts[i]).value <= m.Keys && Meaning(texts[j]).value <= m.Keys
      && var newI, newJ := Meaning(Mapped(texts[i], m).value), Meaning(Mapped(texts[j], m).value);
      && newI.Success? && newJ.Success?
      && newI.value <= Meaning(pool).value
      && |newI.value| == |Meaning(texts[i]).value|
      && newI.value * newJ.value == Image(Meaning(texts[i]).value * Meaning(texts[j]).value, m)
  {
    MappingIsIncreasing(texts, pool);
    var m := MappingFor(texts, pool).value;
    MappedReadsBack(texts, pool, i);
    MappedReadsBack(texts, pool, j);
    ImageCount(Meaning(texts[i]).value, m);
    ImageIntersection(Meaning(texts[i]).value, Meaning(texts[j]).value, m);
  }

  lemma MappedReadsBack(texts: seq<string>, pool: string, i: nat)
    requires MappingFor(texts, pool).Success? && i < |texts|
    ensures var m := MappingFor(texts, pool).value;
      && Meaning(texts[i]).Success? && Meaning(texts[i]).value <= m.Keys
      && Mapped(texts[i], m).Success?
      && Meaning(Mapped(texts[i], m).value) == Success(Image(Meaning(texts[i]).value, m))
  {
    MappingIsIncreasing(texts, pool);
    var m := MappingFor(texts, pool).value;
    CoversEach(texts, pool, m, i);
    MappedMeans(texts[i], m);
  }

  ghost predicate CanMap(text: string, m: map<nat, nat>) {
    Mapped(text, m).Success?
  }

  lemma EachCanMap(texts: seq<string>, pool: string, m: map<nat, nat>, i: nat)
    requires MappingFor(texts, pool) == Success(m) && i < |texts|
    ensures CanMap(texts[i], m)
  {
    MappedReadsBack(texts, pool, i);
  }

  lemma AllCanMap(texts: seq<string>, pool: string, m: map<nat, nat>)
    requires MappingFor(texts, pool) == Success(m)
    ensures forall text :: text in texts ==> CanMap(text, m)
  {
    forall text | text in texts
      ensures CanMap(text, m)
    {
      var i :| 0 <= i < |texts| && texts[i] == text;
      EachCanMap(texts, pool, m, i);
    }
  }

  lemma HeadAndTail(first: string, others: seq<string>)
    ensures first in [first] + others && forall text :: text in others ==> text in [first] + others
  {
  }

  // ----- the configuration -----

  /** CRSComposeConfig: the CPU set of the infrastructure entry and those of the CRS entries,
      in the order of `crs_entries`. */
  class ComposeConfig {
    var infraCpuset: string
    var crsCpusets: seq<string>

    constructor (infraCpuset: string, crsCpusets: seq<string>)
      ensures this.infraCpuset == infraCpuset && this.crsCpusets == crsCpusets
    {
      this.infraCpuset := infraCpuset;
      this.crsCpusets := crsCpusets;
    }

    function Texts(): seq<string>
      reads this
    {
      [infraCpuset] + crsCpusets
    }

    /** The list of all CPU sets of the configuration. */
    method Collect() returns (allCpusets: seq<string>)
      ensures allCpusets == Texts()
    {
      allCpusets := [infraCpuset];
      for k := 0 to |crsCpusets|
        invariant allCpusets == [infraCpuset] + crsCpusets[..k]
      {
        allCpusets := allCpusets + [crsCpusets[k]];
      }
    }

    /** `map_cpus`: all entries are rewritten with one mapping, or none is touched. */
    method MapCpus(cpusPool: string) returns (r: Result<(), CpuError>)
      modifies this
      ensures r == MapOutcome(old(Texts()), cpusPool) && OutcomeMeans(old(Texts()), cpusPool, r)
      ensures r.Failure? ==> Texts() == old(Texts())
      ensures r.Success? ==>
                && Becomes(old(infraCpuset), infraCpuset, MappingFor(old(Texts()), cpusPool).value)
                && AllBecome(old(crsCpusets), crsCpusets, MappingFor(old(Texts()), cpusPool).value)
    {
      OutcomeTold(Texts(), cpusPool);
      var checked := ParseCpuset(cpusPool);
      if checked.Failure? {
        return Failure(checked.error);
      }
      var allCpusets := Collect();
      var mapping := CreateCpuMapping(allCpusets, cpusPool);
      if mapping.Failure? {
        return Failure(mapping.error);
      }
      AllCanMap(allCpusets, cpusPool, mapping.value);
      HeadAndTail(infraCpuset, crsCpusets);
      Apply(mapping.value);
      return Success(());
    }

    /** The second half of `map_cpus`. */
    method Apply(m: map<nat, nat>)
      requires CanMap(infraCpuset, m) && forall text :: text in crsCpusets ==> CanMap(text, m)
      modifies this
      ensures Becomes(old(infraCpuset), infraCpuset, m)
      ensures AllBecome(old(crsCpusets), crsCpusets, m)
    {
      var text := MapCpuset(infraCpuset, m);
      infraCpuset := text.value;
      for k := 0 to |crsCpusets|
        invariant Becomes(old(infraCpuset), infraCpuset, m)
        invariant PartlyBecomes(old(crsCpusets), crsCpusets, k, m)
      {
        assert old(crsCpusets)[k] in old(crsCpusets) && CanMap(old(crsCpusets)[k], m);
        text := MapCpuset(crsCpusets[k], m);
        PartlyStep(old(crsCpusets), crsCpusets, k, text.value, m);
        crsCpusets := crsCpusets[k := text.value];
      }
    }
  }

  ghost predicate PartlyBecomes(before: seq<string>, now: seq<string>, k: nat, m: map<nat, nat>) {
    && |now| == |before|
    && (forall i :: 0 <= i < k && i < |now| ==> Becomes(before[i], now[i], m))
    && (forall i :: k <= i < |now| ==> now[i] == before[i])
  }

  lemma PartlyStep(before: seq<string>, now: seq<string>, k: nat, text: string, m: map<nat, nat>)
    requires PartlyBecomes(before, now, k, m) && k < |now| && Becomes(before[k], text, m)
    ensures PartlyBecomes(before, now[k := text], k + 1, m)
  {
  }

  /** Whether `map_cpus` succeeds: the pool is checked first. */
  function MapOutcome(texts: seq<string>, pool: string): Result<(), CpuError> {
    if Meaning(pool).Failure? then Failure(Meaning(pool).error)
    else if MappingFor(texts, pool).Failure? then Failure(MappingFor(texts, pool).error)
    else Success(())
  }

  /** The error is that of the pool, or else the reason why there is no mapping. */
  ghost predicate IsRefused(texts: seq<string>, pool: string, e: CpuError) {
    Meaning(pool) == Failure(e) || (Meaning(pool).Success? && IsRejected(texts, pool, e))
  }

  ghost predicate OutcomeMeans(texts: seq<string>, pool: string, r: Result<(), CpuError>) {
    forall e :: r == Failure(e) <==> IsRefused(texts, pool, e)
  }

  lemma OutcomeTold(texts: seq<string>, pool: string)
    ensures OutcomeMeans(texts, pool, MapOutcome(texts, pool))
  {
    forall e
      ensures MapOutcome(texts, pool) == Failure(e) <==> IsRefused(texts, pool, e)
    {
      RejectionMeans(texts, pool, e);
    }
  }

  ghost predicate Becomes(before: string, after: string, m: map<nat, nat>) {
    Mapped(before, m) == Success(after)
  }

  ghost predicate AllBecome(before: seq<string>, after: seq<string>, m: map<nat, nat>) {
    |after| == |before| && forall i :: 0 <= i < |after| ==> Becomes(before[i], after[i], m)
  }
}
