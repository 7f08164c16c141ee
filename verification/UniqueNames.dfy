/** Names that avoid those already taken: `_unique_tarball_path` of libCRS/libCRS/submit.py and the
    de-duplicating loop of `handle_archive` in oss_crs/src/cli/archive.py. */
module UniqueNames {
  import opened Text

  /** The k-th name to try: the plain one, then numbered ones. */
  datatype Scheme =
    | Tarball(base: string)                                  // base.tar.gz, base_1.tar.gz, ...
    | Numbered(parent: string, stem: string, suffix: string, plain: string) // plain, then parent/stem.1suffix, ...

  function Candidate(s: Scheme, k: nat): string {
    match s
    case Tarball(base) => if k == 0 then base + ".tar.gz" else base + "_" + NatToString(k) + ".tar.gz"
    case Numbered(parent, stem, suffix, plain) =>
      if k == 0 then plain else JoinPath(parent, stem + "." + NatToString(k) + suffix)
  }

  /** A name in a parent directory; the empty parent is the current directory. */
  function JoinPath(parent: string, name: string): string {
    if parent == "" then name else parent + "/" + name
  }

  lemma ConcatCancel(a: string, x: string, y: string, b: string)
    requires a + x + b == a + y + b
    ensures x == y
  {
    assert |x| == |y|;
    assert (a + x + b)[|a|..|a| + |x|] == x;
    assert (a + y + b)[|a|..|a| + |y|] == y;
  }

  /** Numbered candidates are pairwise distinct: decimal suffixes are injective. */
  lemma NumberedDistinct(s: Scheme, j: nat, k: nat)
    requires 0 < j && 0 < k && Candidate(s, j) == Candidate(s, k)
    ensures j == k
  {
    match s {
      case Tarball(base) =>
        ConcatCancel(base + "_", NatToString(j), NatToString(k), ".tar.gz");
      case Numbered(parent, stem, suffix, plain) =>
        var front := if parent == "" then stem + "." else parent + "/" + (stem + ".");
        assert Candidate(s, j) == front + NatToString(j) + suffix;
        assert Candidate(s, k) == front + NatToString(k) + suffix;
        ConcatCancel(front, NatToString(j), NatToString(k), suffix);
    }
    NatToStringInjective(j, k);
  }

  /** The numbered candidates tried so far. */
  ghost function Tried(s: Scheme, k: nat): (t: set<string>)
    ensures forall j :: 0 < j < k ==> Candidate(s, j) in t
    ensures forall x :: x in t ==> exists j :: 0 < j < k && x == Candidate(s, j)
  {
    if k <= 1 then {} else Tried(s, k - 1) + {Candidate(s, k - 1)}
  }

  lemma {:induction false} TriedCount(s: Scheme, k: nat)
    ensures |Tried(s, k)| == if k == 0 then 0 else k - 1
  {
    if k > 1 {
      TriedCount(s, k - 1);
      NotTriedBefore(s, k - 1);
    }
  }

  lemma NotTriedBefore(s: Scheme, k: nat)
    requires k > 0
    ensures Candidate(s, k) !in Tried(s, k)
  {
    if Candidate(s, k) in Tried(s, k) {
      var j: nat := TriedAs(s, k, Candidate(s, k));
      NumberedDistinct(s, k, j);
    }
  }

  lemma {:induction false} TriedAs(s: Scheme, k: nat, name: string) returns (j: nat)
    requires name in Tried(s, k)
    ensures 0 < j < k && name == Candidate(s, j)
  {
    if name == Candidate(s, k - 1) {
      j := k - 1;
    } else {
      j := TriedAs(s, k - 1, name);
    }
  }

  lemma SubsetSize(a: set<string>, b: set<string>)
    requires a <= b
    ensures |a| <= |b|
    decreases |a|
  {
    if a != {} {
      var x :| x in a;
      SubsetSize(a - {x}, b - {x});
    }
  }

  /** If the first k candidates are all taken, k is at most one more than the number of taken names:
      the pigeonhole argument for termination. */
  lemma TakenBound(s: Scheme, taken: set<string>, k: nat)
    requires forall j :: 0 <= j < k ==> Candidate(s, j) in taken
    ensures k <= |taken| + 1
  {
    TriedCount(s, k);
    SubsetSize(Tried(s, k), taken);
  }

  /** The loop shared by both: count up until a candidate is free. It ends for every finite set of
      taken names, with the first candidate that is free. */
  method FirstFree(s: Scheme, taken: set<string>) returns (name: string, k: nat)
    ensures name == Candidate(s, k) && name !in taken
    ensures forall j :: 0 <= j < k ==> Candidate(s, j) in taken
    ensures k <= |taken| + 1
  {
    name := Candidate(s, 0);
    var counter := 1;
    while name in taken
      invariant counter >= 1 && name == Candidate(s, counter - 1)
      invariant forall j :: 0 <= j < counter - 1 ==> Candidate(s, j) in taken
      decreases |taken| + 2 - counter
    {
      TakenBound(s, taken, counter);
      name := Candidate(s, counter);
      counter := counter + 1;
    }
    k := counter - 1;
    TakenBound(s, taken, k);
  }

  /** `_unique_tarball_path`: the path it returns does not exist, and is the plain one if that is free. */
  method UniqueTarballPath(existing: set<string>, base: string) returns (name: string)
    ensures name !in existing
    ensures base + ".tar.gz" !in existing ==> name == base + ".tar.gz"
    ensures base + ".tar.gz" in existing ==>
              exists k: nat :: k > 0 && name == base + "_" + NatToString(k) + ".tar.gz"
                               && forall j: nat :: 0 < j < k ==> Candidate(Tarball(base), j) in existing
  {
    var k;
    name, k := FirstFree(Tarball(base), existing);
    if k > 0 {
      assert name == base + "_" + NatToString(k) + ".tar.gz";
    }
    if base + ".tar.gz" !in existing {
      assert Candidate(Tarball(base), 0) !in existing;
    }
  }

  // ----- archive members -----

  /** A collected file and the member name it would like to have. */
  datatype Member = Member(source: string, arcname: string)

  /** The last position of a character, or -1. */
  function LastIndex(s: string, c: char): (i: int)
    ensures -1 <= i < |s|
    ensures i >= 0 ==> s[i] == c && forall j :: i < j < |s| ==> s[j] != c
    ensures i == -1 ==> forall j :: 0 <= j < |s| ==> s[j] != c
  {
    if s == "" then -1
    else if s[|s| - 1] == c then |s| - 1
    else LastIndex(s[..|s| - 1], c)
  }

  /** A member name taken apart as pathlib does: parent directory, stem, and suffix from the last
      dot, unless that dot is the first or last character of the file name. */
  function SchemeOf(m: Member): Scheme {
    var slash := LastIndex(m.arcname, '/');
    var parent := if slash < 0 then "" else m.arcname[..slash];
    var name := m.arcname[slash + 1..];
    var dot := LastIndex(name, '.');
    if 0 < dot < |name| - 1 then Numbered(parent, name[..dot], name[dot..], m.arcname)
    else Numbered(parent, name, "", m.arcname)
  }

  /** A file name taken apart: the suffix starts at the last dot, if that is neither the first nor the last
      character. */
  ghost predicate IsFileName(name: string, stem: string, suffix: string) {
    && name == stem + suffix
    && if suffix == "" then forall j :: 0 < j < |name| - 1 && name[j] == '.' ==> '.' in name[j + 1..]
       else stem != "" && |suffix| >= 2 && suffix[0] == '.' && '.' !in suffix[1..]
  }

  /** The directory, up to the last slash, and the file name. */
  ghost predicate IsPath(path: string, parent: string, name: string) {
    '/' !in name && (path == parent + "/" + name || (parent == "" && path == name))
  }

  lemma CutAt(s: string, i: nat)
    requires i < |s|
    ensures s == s[..i] + [s[i]] + s[i + 1..]
  {
  }

  lemma NoneAfter(s: string, c: char, i: int)
    requires -1 <= i < |s| && forall j :: i < j < |s| ==> s[j] != c
    ensures c !in s[i + 1..]
  {
    var tail := s[i + 1..];
    forall j | 0 <= j < |tail|
      ensures tail[j] != c
    {
      assert tail[j] == s[i + 1 + j];
    }
  }

  lemma PathTakenApart(path: string, slash: int)
    requires slash == LastIndex(path, '/')
    ensures IsPath(path, if slash < 0 then "" else path[..slash], path[slash + 1..])
  {
    NoneAfter(path, '/', slash);
    if slash < 0 {
      assert path[slash + 1..] == path;
    } else {
      CutAt(path, slash);
    }
  }

  lemma NameTakenApart(name: string)
    ensures var dot := LastIndex(name, '.');
            if 0 < dot < |name| - 1 then IsFileName(name, name[..dot], name[dot..]) else IsFileName(name, name, "")
  {
    var dot := LastIndex(name, '.');
    if 0 < dot < |name| - 1 {
      var suffix := name[dot..];
      assert name == name[..dot] + suffix;
      forall j | 0 <= j < |suffix[1..]|
        ensures suffix[1..][j] != '.'
      {
        assert suffix[1..][j] == name[dot + 1 + j];
      }
    } else {
      forall j | 0 < j < |name| - 1 && name[j] == '.'
        ensures '.' in name[j + 1..]
      {
        assert name[j + 1..][dot - j - 1] == name[dot];
      }
    }
  }

  /** The names tried are the one asked for, and then, in its directory, its file name with numbers before the
      suffix. */
  lemma NumberedMeans(m: Member, k: nat)
    ensures Candidate(SchemeOf(m), 0) == m.arcname
    ensures k > 0 ==> exists parent, stem, suffix ::
              && IsPath(m.arcname, parent, stem + suffix) && IsFileName(stem + suffix, stem, suffix)
              && IsPath(Candidate(SchemeOf(m), k), parent, stem + "." + NatToString(k) + suffix)
  {
    var s := SchemeOf(m);
    SchemeMeans(m);
    if k > 0 {
      NumberHasNoSlash(s.stem, NatToString(k), s.suffix);
      assert IsPath(Candidate(s, k), s.parent, s.stem + "." + NatToString(k) + s.suffix);
    }
    assert IsPath(m.arcname, s.parent, s.stem + s.suffix) && IsFileName(s.stem + s.suffix, s.stem, s.suffix);
  }

  lemma NumberHasNoSlash(stem: string, digits: string, suffix: string)
    requires '/' !in stem + suffix && IsNumeral(digits)
    ensures '/' !in stem + "." + digits + suffix
  {
    var name := stem + "." + digits + suffix;
    forall j | 0 <= j < |name|
      ensures name[j] != '/'
    {
      assert j < |stem| ==> name[j] == (stem + suffix)[j];
      assert |stem| < j <= |stem| + |digits| ==> name[j] == digits[j - |stem| - 1];
      assert j > |stem| + |digits| ==> name[j] == (stem + suffix)[j - |digits| - 1];
    }
  }

  lemma SchemeMeans(m: Member)
    ensures var s := SchemeOf(m);
      && s.Numbered? && s.plain == m.arcname
      && IsPath(m.arcname, s.parent, s.stem + s.suffix) && IsFileName(s.stem + s.suffix, s.stem, s.suffix)
  {
    var slash := LastIndex(m.arcname, '/');
    PathTakenApart(m.arcname, slash);
    StemAndSuffix(m.arcname[slash + 1..]);
  }

  lemma StemAndSuffix(name: string)
    ensures var dot := LastIndex(name, '.');
      var stem, suffix := if 0 < dot < |name| - 1 then name[..dot] else name,
                          if 0 < dot < |name| - 1 then name[dot..] else "";
      stem + suffix == name && IsFileName(name, stem, suffix)
  {
    var dot := LastIndex(name, '.');
    NameTakenApart(name);
    if 0 < dot < |name| - 1 {
      assert name[..dot] + name[dot..] == name;
    }
  }

  predicate PairwiseDistinct(names: seq<string>) {
    forall i, j :: 0 <= i < j < |names| ==> names[i] != names[j]
  }

  /** The naming loop of `handle_archive`: one name per collected file, in order, all different;
      a file whose name has not been used before keeps it, and otherwise it gets the first numbered
      name not used before. */
  method ArchiveNames(collected: seq<Member>) returns (names: seq<string>)
    ensures |names| == |collected| && PairwiseDistinct(names) && NamesOk(collected, names)
    ensures forall i :: 0 <= i < |collected| ==>
              collected[i].arcname !in names[..i] ==> names[i] == collected[i].arcname
  {
    names := [];
    var seenArcnames: set<string> := {};
    for i := 0 to |collected|
      invariant |names| == i && PairwiseDistinct(names)
      invariant forall x :: x in seenArcnames <==> x in names
      invariant NamesOk(collected, names)
    {
      var arcname, k := FirstFree(SchemeOf(collected[i]), seenArcnames);
      NamesOkSnoc(collected, names, arcname, k);
      seenArcnames := seenArcnames + {arcname};
      names := names + [arcname];
    }
    forall i | 0 <= i < |collected| && collected[i].arcname !in names[..i]
      ensures names[i] == collected[i].arcname
    {
      FreeNameIsKept(collected[i], names[..i], names[i]);
    }
  }

  /** Each name is the first free one after those given before it. */
  ghost predicate NamesOk(collected: seq<Member>, names: seq<string>) {
    && |names| <= |collected|
    && forall i :: 0 <= i < |names| ==> IsFirstFree(SchemeOf(collected[i]), names[..i], names[i])
  }

  lemma NamesOkSnoc(collected: seq<Member>, names: seq<string>, name: string, k: nat)
    requires NamesOk(collected, names) && |names| < |collected|
    requires name == Candidate(SchemeOf(collected[|names|]), k) && name !in names
    requires forall j :: 0 <= j < k ==> Candidate(SchemeOf(collected[|names|]), j) in names
    ensures NamesOk(collected, names + [name])
  {
    assert IsFirstFree(SchemeOf(collected[|names|]), names, name);
    var longer := names + [name];
    forall i | 0 <= i < |longer|
      ensures IsFirstFree(SchemeOf(collected[i]), longer[..i], longer[i])
    {
      assert longer[..i] == names[..i];
      assert names[..|names|] == names;
    }
  }

  lemma FreeNameIsKept(m: Member, taken: seq<string>, name: string)
    requires IsFirstFree(SchemeOf(m), taken, name) && m.arcname !in taken
    ensures name == m.arcname
  {
    assert Candidate(SchemeOf(m), 0) == m.arcname;
  }

  ghost predicate IsFirstFree(s: Scheme, taken: seq<string>, name: string) {
    exists k: nat :: name == Candidate(s, k) && name !in taken && forall j: nat :: j < k ==> Candidate(s, j) in taken
  }

  /** Only one name is the first free one. */
  lemma FirstFreeUnique(s: Scheme, taken: seq<string>, a: string, b: string)
    requires IsFirstFree(s, taken, a) && IsFirstFree(s, taken, b)
    ensures a == b
  {
    var j: nat :| a == Candidate(s, j) && a !in taken && forall i: nat :: i < j ==> Candidate(s, i) in taken;
    var k: nat :| b == Candidate(s, k) && b !in taken && forall i: nat :: i < k ==> Candidate(s, i) in taken;
  }
}
