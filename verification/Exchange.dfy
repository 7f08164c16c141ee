/** The exchange sidecar's copying pass (oss-crs-infra/exchange/main.py), on directories that nobody
    else touches meanwhile. */
module Exchange {
  import opened Outcomes
  import opened Text

  type Bytes = seq<bv8>

  /** A file of the exchange directory: the data type directory it is in, and its name. */
  datatype Key = Key(kind: string, name: string)

  datatype Node = RegularFile(content: Bytes) | Symlink | OtherNode

  // ----- the submit tree, in the order in which it is scanned -----

  datatype FileEntry = FileEntry(name: string, node: Node)

  datatype TypeEntry = TypeEntry(name: string, isDir: bool, files: seq<FileEntry>)

  datatype CrsEntry = CrsEntry(name: string, isDir: bool, types: seq<TypeEntry>)

  /** A file found in the submit tree that is to be copied. */
  datatype Candidate = Candidate(key: Key, content: Bytes)

  const ALLOWED_DATA_TYPES := {"povs", "seeds", "bug-candidates", "reports", "patches", "diffs"}

  /** A path component that stays within its directory. */
  predicate IsSafeName(name: string) {
    name != "" && Without(name, '/') && name != ".." && name != "."
  }

  /** The copies that fail with an I/O error in this pass. */
  type Faults = set<(string, Key)>

  predicate IsCandidate(crs: string, kind: string, f: FileEntry, faults: Faults) {
    f.node.RegularFile? && IsSafeName(f.name) && (crs, Key(kind, f.name)) !in faults
  }

  function FileCandidates(crs: string, kind: string, files: seq<FileEntry>, faults: Faults): seq<Candidate> {
    if files == [] then []
    else
      var last := files[|files| - 1];
      var before := FileCandidates(crs, kind, files[..|files| - 1], faults);
      if IsCandidate(crs, kind, last, faults) then before + [Candidate(Key(kind, last.name), last.node.content)]
      else before
  }

  function TypeCandidates(crs: string, types: seq<TypeEntry>, faults: Faults): seq<Candidate> {
    if types == [] then []
    else
      var last := types[|types| - 1];
      var before := TypeCandidates(crs, types[..|types| - 1], faults);
      if last.isDir && last.name in ALLOWED_DATA_TYPES then before + FileCandidates(crs, last.name, last.files, faults)
      else before
  }

  /** Everything one pass would copy, in scan order. */
  function Candidates(tree: seq<CrsEntry>, faults: Faults): seq<Candidate> {
    if tree == [] then []
    else
      var last := tree[|tree| - 1];
      var before := Candidates(tree[..|tree| - 1], faults);
      if last.isDir then before + TypeCandidates(last.name, last.types, faults) else before
  }

  /** Copy the candidates in order, skipping names already present. */
  function Publish(exchange: map<Key, Bytes>, found: seq<Candidate>): map<Key, Bytes> {
    if found == [] then exchange
    else
      var before := Publish(exchange, found[..|found| - 1]);
      var last := found[|found| - 1];
      if last.key in before then before else before[last.key := last.content]
  }

  /** The names of the data type directories seen by a pass. */
  function TypeNames(types: seq<TypeEntry>): set<string> {
    set t | t in types && t.isDir :: t.name
  }

  function TreeTypeNames(tree: seq<CrsEntry>): set<string> {
    set c, t | c in tree && c.isDir && t in c.types && t.isDir :: t.name
  }

  lemma {:induction false} PublishAppend(exchange: map<Key, Bytes>, a: seq<Candidate>, b: seq<Candidate>)
    ensures Publish(exchange, a + b) == Publish(Publish(exchange, a), b)
  {
    if b == [] {
      assert a + b == a;
    } else {
      assert (a + b)[..|a + b| - 1] == a + b[..|b| - 1];
      PublishAppend(exchange, a, b[..|b| - 1]);
    }
  }

  lemma HeadAndRest<T>(s: seq<T>, i: nat)
    requires i < |s|
    ensures s[i..][0] == s[i] && s[i..][1..] == s[i + 1..]
    ensures s[..i + 1] == s[..i] + [s[i]]
    ensures forall tail: seq<T> :: s[..i] + ([s[i]] + tail) == s[..i + 1] + tail
  {
  }

  // ----- passes that break off -----

  /** The directories that cannot be created or listed in a pass: an error that ends the pass. The
      submit root is listed as [], a CRS by its name, and its type directories by both names. */
  datatype Broken = Broken(mkdirs: set<string>, scans: set<seq<string>>)

  predicate IsIgnored(t: TypeEntry) {
    !t.isDir || t.name !in ALLOWED_DATA_TYPES
  }

  /** What a pass gets to see of the directory of a CRS, where `created` exist already; a directory
      that cannot be listed is the last one, and looks empty. */
  function SeenTypes(crs: string, types: seq<TypeEntry>, created: set<string>, broken: Broken): seq<TypeEntry> {
    if types == [] then []
    else
      var t := types[0];
      if IsIgnored(t) then [t] + SeenTypes(crs, types[1..], created, broken)
      else if t.name !in created && t.name in broken.mkdirs then []
      else if [crs, t.name] in broken.scans then [t.(files := [])]
      else [t] + SeenTypes(crs, types[1..], created + {t.name}, broken)
  }

  predicate TypesWhole(crs: string, types: seq<TypeEntry>, created: set<string>, broken: Broken) {
    if types == [] then true
    else
      var t := types[0];
      if IsIgnored(t) then TypesWhole(crs, types[1..], created, broken)
      else
        && (t.name in created || t.name !in broken.mkdirs) && [crs, t.name] !in broken.scans
        && TypesWhole(crs, types[1..], created + {t.name}, broken)
  }

  function SeenTree(tree: seq<CrsEntry>, created: set<string>, broken: Broken): seq<CrsEntry> {
    if tree == [] then []
    else
      var c := tree[0];
      if !c.isDir then [c] + SeenTree(tree[1..], created, broken)
      else if [c.name] in broken.scans then []
      else if !TypesWhole(c.name, c.types, created, broken) then
        [c.(types := SeenTypes(c.name, c.types, created, broken))]
      else [c] + SeenTree(tree[1..], created + TypeNames(c.types) * ALLOWED_DATA_TYPES, broken)
  }

  predicate TreeWhole(tree: seq<CrsEntry>, created: set<string>, broken: Broken) {
    if tree == [] then true
    else
      var c := tree[0];
      if !c.isDir then TreeWhole(tree[1..], created, broken)
      else
        && [c.name] !in broken.scans && TypesWhole(c.name, c.types, created, broken)
        && TreeWhole(tree[1..], created + TypeNames(c.types) * ALLOWED_DATA_TYPES, broken)
  }

  /** What a pass gets to see of the submit root; None stands for a missing root. */
  function Seen(submit: Option<seq<CrsEntry>>, created: set<string>, broken: Broken): seq<CrsEntry> {
    if submit.None? || [] in broken.scans then [] else SeenTree(submit.value, created, broken)
  }

  predicate PassEnds(submit: Option<seq<CrsEntry>>, created: set<string>, broken: Broken) {
    submit.None? || ([] !in broken.scans && TreeWhole(submit.value, created, broken))
  }

  lemma {:induction false} WholeTypesSeen(crs: string, types: seq<TypeEntry>, created: set<string>, broken: Broken)
    requires TypesWhole(crs, types, created, broken)
    ensures SeenTypes(crs, types, created, broken) == types
  {
    if types != [] {
      assert types == [types[0]] + types[1..];
      WholeTypesSeen(crs, types[1..], if IsIgnored(types[0]) then created else created + {types[0].name}, broken);
    }
  }

  // ----- the passes -----

  /** The state of the exchange process: its directory, and what it remembers between passes. */
  datatype Sidecar = Sidecar(exchange: map<Key, Bytes>, created: set<string>, warned: set<string>)

  /** From a to b, the candidates of these type directories of a CRS were published, and the
      directories taken note of. */
  ghost predicate TypesDone(a: Sidecar, b: Sidecar, crs: string, types: seq<TypeEntry>, faults: Faults) {
    && b.exchange == Publish(a.exchange, TypeCandidates(crs, types, faults))
    && b.created == a.created + TypeNames(types) * ALLOWED_DATA_TYPES
    && b.warned == a.warned + (TypeNames(types) - ALLOWED_DATA_TYPES)
  }

  ghost predicate TreeDone(a: Sidecar, b: Sidecar, tree: seq<CrsEntry>, faults: Faults) {
    && b.exchange == Publish(a.exchange, Candidates(tree, faults))
    && b.created == a.created + TreeTypeNames(tree) * ALLOWED_DATA_TYPES
    && b.warned == a.warned + (TreeTypeNames(tree) - ALLOWED_DATA_TYPES)
  }

  lemma TypeNamesSnoc(types: seq<TypeEntry>, t: TypeEntry)
    ensures TypeNames(types + [t]) == TypeNames(types) + (if t.isDir then {t.name} else {})
  {
  }

  lemma TypeIgnored(a: Sidecar, b: Sidecar, crs: string, types: seq<TypeEntry>, t: TypeEntry, faults: Faults)
    requires TypesDone(a, b, crs, types, faults) && IsIgnored(t)
    ensures TypesDone(a, if t.isDir then b.(warned := b.warned + {t.name}) else b, crs, types + [t], faults)
  {
    assert (types + [t])[..|types|] == types;
    TypeNamesSnoc(types, t);
  }

  lemma TypeCopied(a: Sidecar, b: Sidecar, crs: string, types: seq<TypeEntry>, t: TypeEntry, faults: Faults, c: Sidecar)
    requires TypesDone(a, b, crs, types, faults) && !IsIgnored(t)
    requires c.created == b.created + {t.name} && c.warned == b.warned
    requires c.exchange == Publish(b.exchange, FileCandidates(crs, t.name, t.files, faults))
    ensures TypesDone(a, c, crs, types + [t], faults)
  {
    assert (types + [t])[..|types|] == types;
    TypeNamesSnoc(types, t);
    PublishAppend(a.exchange, TypeCandidates(crs, types, faults), FileCandidates(crs, t.name, t.files, faults));
  }

  lemma TreeTypeNamesSnoc(tree: seq<CrsEntry>, c: CrsEntry)
    ensures TreeTypeNames(tree + [c]) == TreeTypeNames(tree) + (if c.isDir then TypeNames(c.types) else {})
  {
  }

  lemma CrsSkipped(a: Sidecar, b: Sidecar, tree: seq<CrsEntry>, c: CrsEntry, faults: Faults)
    requires TreeDone(a, b, tree, faults) && !c.isDir
    ensures TreeDone(a, b, tree + [c], faults)
  {
    assert (tree + [c])[..|tree|] == tree;
    TreeTypeNamesSnoc(tree, c);
  }

  lemma CrsCopied(a: Sidecar, b: Sidecar, d: Sidecar, tree: seq<CrsEntry>, c: CrsEntry, faults: Faults)
    requires TreeDone(a, b, tree, faults) && c.isDir && TypesDone(b, d, c.name, c.types, faults)
    ensures TreeDone(a, d, tree + [c], faults)
  {
    assert (tree + [c])[..|tree|] == tree;
    TreeTypeNamesSnoc(tree, c);
    PublishAppend(a.exchange, Candidates(tree, faults), TypeCandidates(c.name, c.types, faults));
  }

  // ----- the loops, entry by entry -----

  /** The first t type directories are done, and no error has come up. */
  ghost predicate TypesSoFar(a: Sidecar, b: Sidecar, crs: string, types: seq<TypeEntry>, t: nat, broken: Broken,
                             faults: Faults) {
    && t <= |types|
    && SeenTypes(crs, types, a.created, broken) == types[..t] + SeenTypes(crs, types[t..], b.created, broken)
    && TypesWhole(crs, types, a.created, broken) == TypesWhole(crs, types[t..], b.created, broken)
    && TypesDone(a, b, crs, types[..t], faults)
  }

  /** The loop over the type directories has ended, or an error has ended it. */
  ghost predicate TypesOver(a: Sidecar, b: Sidecar, crs: string, types: seq<TypeEntry>, broken: Broken,
                            faults: Faults, ended: bool) {
    && ended == TypesWhole(crs, types, a.created, broken)
    && TypesDone(a, b, crs, SeenTypes(crs, types, a.created, broken), faults)
  }

  lemma TypesStart(a: Sidecar, crs: string, types: seq<TypeEntry>, broken: Broken, faults: Faults)
    ensures TypesSoFar(a, a, crs, types, 0, broken, faults)
  {
    assert types[..0] == [] && types[0..] == types;
  }

  lemma TypesPass(a: Sidecar, b: Sidecar, crs: string, types: seq<TypeEntry>, t: nat, broken: Broken, faults: Faults)
    requires TypesSoFar(a, b, crs, types, t, broken, faults) && t < |types| && IsIgnored(types[t])
    ensures TypesSoFar(a, if types[t].isDir then b.(warned := b.warned + {types[t].name}) else b,
                       crs, types, t + 1, broken, faults)
  {
    HeadAndRest(types, t);
    TypeIgnored(a, b, crs, types[..t], types[t], faults);
  }

  lemma TypesCopy(a: Sidecar, b: Sidecar, c: Sidecar, crs: string, types: seq<TypeEntry>, t: nat, broken: Broken,
                  faults: Faults)
    requires TypesSoFar(a, b, crs, types, t, broken, faults) && t < |types| && !IsIgnored(types[t])
    requires types[t].name in b.created || types[t].name !in broken.mkdirs
    requires [crs, types[t].name] !in broken.scans
    requires c.created == b.created + {types[t].name} && c.warned == b.warned
    requires c.exchange == Publish(b.exchange, FileCandidates(crs, types[t].name, types[t].files, faults))
    ensures TypesSoFar(a, c, crs, types, t + 1, broken, faults)
  {
    HeadAndRest(types, t);
    TypeCopied(a, b, crs, types[..t], types[t], faults, c);
  }

  lemma TypesNoMkdir(a: Sidecar, b: Sidecar, crs: string, types: seq<TypeEntry>, t: nat, broken: Broken, faults: Faults)
    requires TypesSoFar(a, b, crs, types, t, broken, faults) && t < |types| && !IsIgnored(types[t])
    requires types[t].name !in b.created && types[t].name in broken.mkdirs
    ensures TypesOver(a, b, crs, types, broken, faults, false)
  {
    HeadAndRest(types, t);
    assert types[..t] + [] == types[..t];
  }

  lemma TypesNoScan(a: Sidecar, b: Sidecar, c: Sidecar, crs: string, types: seq<TypeEntry>, t: nat, broken: Broken,
                    faults: Faults)
    requires TypesSoFar(a, b, crs, types, t, broken, faults) && t < |types| && !IsIgnored(types[t])
    requires types[t].name in b.created || types[t].name !in broken.mkdirs
    requires [crs, types[t].name] in broken.scans
    requires c == b.(created := b.created + {types[t].name})
    ensures TypesOver(a, c, crs, types, broken, faults, false)
  {
    HeadAndRest(types, t);
    TypeCopied(a, b, crs, types[..t], types[t].(files := []), faults, c);
  }

  lemma TypesEnd(a: Sidecar, b: Sidecar, crs: string, types: seq<TypeEntry>, broken: Broken, faults: Faults)
    requires TypesSoFar(a, b, crs, types, |types|, broken, faults)
    ensures TypesOver(a, b, crs, types, broken, faults, true)
  {
    assert types[..|types|] == types && types + [] == types && types[|types|..] == [];
  }

  ghost predicate TreeSoFar(a: Sidecar, b: Sidecar, tree: seq<CrsEntry>, c: nat, broken: Broken, faults: Faults) {
    && c <= |tree|
    && SeenTree(tree, a.created, broken) == tree[..c] + SeenTree(tree[c..], b.created, broken)
    && TreeWhole(tree, a.created, broken) == TreeWhole(tree[c..], b.created, broken)
    && TreeDone(a, b, tree[..c], faults)
  }

  ghost predicate TreeOver(a: Sidecar, b: Sidecar, tree: seq<CrsEntry>, broken: Broken, faults: Faults, ended: bool) {
    ended == TreeWhole(tree, a.created, broken) && TreeDone(a, b, SeenTree(tree, a.created, broken), faults)
  }

  lemma TreeStart(a: Sidecar, tree: seq<CrsEntry>, broken: Broken, faults: Faults)
    ensures TreeSoFar(a, a, tree, 0, broken, faults)
  {
    assert tree[..0] == [] && tree[0..] == tree;
  }

  lemma TreePass(a: Sidecar, b: Sidecar, tree: seq<CrsEntry>, c: nat, broken: Broken, faults: Faults)
    requires TreeSoFar(a, b, tree, c, broken, faults) && c < |tree| && !tree[c].isDir
    ensures TreeSoFar(a, b, tree, c + 1, broken, faults)
  {
    HeadAndRest(tree, c);
    CrsSkipped(a, b, tree[..c], tree[c], faults);
  }

  lemma TreeNoScan(a: Sidecar, b: Sidecar, tree: seq<CrsEntry>, c: nat, broken: Broken, faults: Faults)
    requires TreeSoFar(a, b, tree, c, broken, faults) && c < |tree| && tree[c].isDir && [tree[c].name] in broken.scans
    ensures TreeOver(a, b, tree, broken, faults, false)
  {
    HeadAndRest(tree, c);
    assert tree[..c] + [] == tree[..c];
  }

  lemma TreeCopy(a: Sidecar, b: Sidecar, d: Sidecar, tree: seq<CrsEntry>, c: nat, broken: Broken, faults: Faults,
                 ended: bool)
    requires TreeSoFar(a, b, tree, c, broken, faults) && c < |tree| && tree[c].isDir && [tree[c].name] !in broken.scans
    requires TypesOver(b, d, tree[c].name, tree[c].types, broken, faults, ended)
    ensures if ended then TreeSoFar(a, d, tree, c + 1, broken, faults) else TreeOver(a, d, tree, broken, faults, false)
  {
    HeadAndRest(tree, c);
    var crs := tree[c];
    CrsCopied(a, b, d, tree[..c], crs.(types := SeenTypes(crs.name, crs.types, b.created, broken)), faults);
    if ended {
      WholeTypesSeen(crs.name, crs.types, b.created, broken);
    }
  }

  lemma TreeEnd(a: Sidecar, b: Sidecar, tree: seq<CrsEntry>, broken: Broken, faults: Faults)
    requires TreeSoFar(a, b, tree, |tree|, broken, faults)
    ensures TreeOver(a, b, tree, broken, faults, true)
  {
    assert tree[..|tree|] == tree && tree + [] == tree && tree[|tree|..] == [];
  }

  class ExchangeSidecar {
    var exchange: map<Key, Bytes>
    var createdDirs: set<string>
    var warnedTypes: set<string>

    ghost function Now(): Sidecar
      reads this
    {
      Sidecar(exchange, createdDirs, warnedTypes)
    }

    constructor (exchange: map<Key, Bytes>)
      ensures Now() == Sidecar(exchange, {}, {})
    {
      this.exchange := exchange;
      createdDirs, warnedTypes := {}, {};
    }

    /** `sync_once`: false if an error ends the pass early. */
    method SyncOnce(submit: Option<seq<CrsEntry>>, faults: Faults, broken: Broken) returns (ended: bool)
      modifies this
      ensures ended == PassEnds(submit, old(createdDirs), broken)
      ensures TreeDone(old(Now()), Now(), Seen(submit, old(createdDirs), broken), faults)
    {
      if submit.None? {
        return true;
      }
      if [] in broken.scans {
        return false;
      }
      ended := SyncTree(submit.value, faults, broken);
    }

    /** The outer loop of sync_once: the directories of the CRSs. */
    method SyncTree(tree: seq<CrsEntry>, faults: Faults, broken: Broken) returns (ended: bool)
      modifies this
      ensures TreeOver(old(Now()), Now(), tree, broken, faults, ended)
    {
      ghost var start := Now();
      TreeStart(start, tree, broken, faults);
      for c := 0 to |tree|
        invariant TreeSoFar(start, Now(), tree, c, broken, faults)
      {
        ghost var before := Now();
        if !tree[c].isDir {
          TreePass(start, before, tree, c, broken, faults);
          continue;
        }
        if [tree[c].name] in broken.scans {
          TreeNoScan(start, before, tree, c, broken, faults);
          return false;
        }
        ended := SyncCrs(tree[c], faults, broken);
        TreeCopy(start, before, Now(), tree, c, broken, faults, ended);
        if !ended {
          return;
        }
      }
      TreeEnd(start, Now(), tree, broken, faults);
      return true;
    }

    /** The middle loop of sync_once: the data type directories of one CRS. */
    method SyncCrs(crs: CrsEntry, faults: Faults, broken: Broken) returns (ended: bool)
      modifies this
      ensures TypesOver(old(Now()), Now(), crs.name, crs.types, broken, faults, ended)
    {
      ghost var start := Now();
      var types := crs.types;
      TypesStart(start, crs.name, types, broken, faults);
      for t := 0 to |types|
        invariant TypesSoFar(start, Now(), crs.name, types, t, broken, faults)
      {
        ghost var before := Now();
        if !types[t].isDir {
          TypesPass(start, before, crs.name, types, t, broken, faults);
          continue;
        }
        var dataType := types[t].name;
        if dataType !in ALLOWED_DATA_TYPES {
          TypesPass(start, before, crs.name, types, t, broken, faults);
          warnedTypes := warnedTypes + {dataType};
          continue;
        }
        if dataType !in createdDirs {
          if dataType in broken.mkdirs {
            TypesNoMkdir(start, before, crs.name, types, t, broken, faults);
            return false;
          }
          createdDirs := createdDirs + {dataType};
        }
        assert createdDirs == before.created + {dataType};
        if [crs.name, dataType] in broken.scans {
          TypesNoScan(start, before, Now(), crs.name, types, t, broken, faults);
          return false;
        }
        SyncFiles(crs.name, dataType, types[t].files, faults);
        TypesCopy(start, before, Now(), crs.name, types, t, broken, faults);
      }
      TypesEnd(start, Now(), crs.name, types, broken, faults);
      return true;
    }

    /** The inner loop of sync_once: the files of one directory. */
    method SyncFiles(crs: string, dataType: string, files: seq<FileEntry>, faults: Faults)
      modifies this`exchange
      ensures exchange == Publish(old(exchange), FileCandidates(crs, dataType, files, faults))
    {
      for f := 0 to |files|
        invariant exchange == Publish(old(exchange), FileCandidates(crs, dataType, files[..f], faults))
      {
        assert files[..f + 1][..f] == files[..f];
        var entry := files[f];
        ghost var before := FileCandidates(crs, dataType, files[..f], faults);
        if IsCandidate(crs, dataType, entry, faults) {
          assert (before + [Candidate(Key(dataType, entry.name), entry.node.content)])[..|before|] == before;
        }
        if entry.node.Symlink? {
          continue;
        }
        if !entry.node.RegularFile? {
          continue;
        }
        if !IsSafeName(entry.name) {
          continue;
        }
        var dst := Key(dataType, entry.name);
        if dst in exchange {
          continue;
        }
        if (crs, dst) in faults {
          continue;
        }
        exchange := exchange[dst := entry.node.content];
      }
      assert files[..|files|] == files;
    }
  }

  // ----- what a pass achieves -----

  /** The first candidate with a key. */
  ghost predicate IsFirst(found: seq<Candidate>, i: nat) {
    i < |found| && forall j :: 0 <= j < i ==> found[j].key != found[i].key
  }

  ghost predicate HasKey(found: seq<Candidate>, key: Key) {
    exists i :: 0 <= i < |found| && found[i].key == key
  }

  /** The names after a pass are the old ones and those of the candidates. Old content stays;
      among new files of one name, the first in scan order wins. */
  lemma {:induction false} PublishMeans(exchange: map<Key, Bytes>, found: seq<Candidate>)
    ensures forall key :: key in Publish(exchange, found) <==> key in exchange || HasKey(found, key)
    ensures forall key :: key in exchange ==>
              key in Publish(exchange, found) && Publish(exchange, found)[key] == exchange[key]
    ensures forall i: nat :: IsFirst(found, i) && found[i].key !in exchange ==>
              found[i].key in Publish(exchange, found) && Publish(exchange, found)[found[i].key] == found[i].content
  {
    if found != [] {
      var front, last := found[..|found| - 1], found[|found| - 1];
      PublishMeans(exchange, front);
      forall key
        ensures HasKey(found, key) <==> HasKey(front, key) || key == last.key
      {
        HasKeySnoc(found, key);
      }
      forall i: nat | IsFirst(found, i) && found[i].key !in exchange
        ensures found[i].key in Publish(exchange, found) && Publish(exchange, found)[found[i].key] == found[i].content
      {
        if i < |front| {
          assert IsFirst(front, i) && front[i] == found[i];
        } else {
          assert !HasKey(front, last.key);
        }
      }
    }
  }

  lemma HasKeySnoc(found: seq<Candidate>, key: Key)
    requires found != []
    ensures HasKey(found, key) <==> HasKey(found[..|found| - 1], key) || key == found[|found| - 1].key
  {
    var front := found[..|found| - 1];
    if HasKey(found, key) && key != found[|found| - 1].key {
      var i :| 0 <= i < |found| && found[i].key == key;
      assert front[i].key == key;
    }
    if HasKey(front, key) {
      var i :| 0 <= i < |front| && front[i].key == key;
      assert found[i].key == key;
    }
  }

  /** A file of the tree that a pass copies, told without reference to the scan. */
  ghost predicate Offers(tree: seq<CrsEntry>, key: Key, faults: Faults) {
    exists c: nat, t: nat, f: nat :: OfferedAt(tree, c, t, f, key, faults)
  }

  ghost predicate OfferedAt(tree: seq<CrsEntry>, c: nat, t: nat, f: nat, key: Key, faults: Faults) {
    c < |tree| && tree[c].isDir && TypeOffers(tree[c].name, tree[c].types, t, f, key, faults)
  }

  ghost predicate TypeOffers(crs: string, types: seq<TypeEntry>, t: nat, f: nat, key: Key, faults: Faults) {
    && t < |types| && types[t].isDir && IsDataType(types[t].name)
    && FileOffers(crs, types[t].name, types[t].files, f, key, faults)
  }

  ghost predicate FileOffers(crs: string, kind: string, files: seq<FileEntry>, f: nat, key: Key, faults: Faults) {
    && f < |files| && files[f].node.RegularFile? && StaysInside(files[f].name)
    && key == Key(kind, files[f].name) && (crs, key) !in faults
  }

  /** The data types that are exchanged. */
  ghost predicate IsDataType(name: string) {
    || name == "povs" || name == "seeds" || name == "bug-candidates"
    || name == "reports" || name == "patches" || name == "diffs"
  }

  /** The name is that of an entry of a directory, and neither the directory itself nor its parent. */
  ghost predicate StaysInside(name: string) {
    name != "" && '/' !in name && name != "." && name != ".."
  }

  lemma SafeMeans(name: string)
    ensures IsSafeName(name) <==> StaysInside(name)
    ensures name in ALLOWED_DATA_TYPES <==> IsDataType(name)
  {
  }

  lemma {:induction false} FilesOffer(crs: string, kind: string, files: seq<FileEntry>, faults: Faults, key: Key)
    ensures HasKey(FileCandidates(crs, kind, files, faults), key)
       <==> exists f: nat :: FileOffers(crs, kind, files, f, key, faults)
  {
    if files != [] {
      var n := |files| - 1;
      FilesOffer(crs, kind, files[..n], faults, key);
      var tail := if IsCandidate(crs, kind, files[n], faults)
                  then [Candidate(Key(kind, files[n].name), files[n].node.content)] else [];
      HasKeyAppend(FileCandidates(crs, kind, files[..n], faults), tail, key);
      SafeMeans(files[n].name);
      assert HasKey(tail, key) <==> FileOffers(crs, kind, files, n, key, faults) by {
        if tail != [] {
          assert tail[0].key == Key(kind, files[n].name);
        }
      }
      assert forall f: nat :: f < n ==>
                (FileOffers(crs, kind, files[..n], f, key, faults) <==> FileOffers(crs, kind, files, f, key, faults));
    }
  }

  lemma HasKeyAppend(a: seq<Candidate>, b: seq<Candidate>, key: Key)
    ensures HasKey(a + b, key) <==> HasKey(a, key) || HasKey(b, key)
  {
    if HasKey(a, key) {
      var i :| 0 <= i < |a| && a[i].key == key;
      assert (a + b)[i].key == key;
    }
    if HasKey(b, key) {
      var i :| 0 <= i < |b| && b[i].key == key;
      assert (a + b)[|a| + i].key == key;
    }
  }

  lemma {:induction false} TypesOffer(crs: string, types: seq<TypeEntry>, faults: Faults, key: Key)
    ensures HasKey(TypeCandidates(crs, types, faults), key)
       <==> exists t: nat, f: nat :: TypeOffers(crs, types, t, f, key, faults)
  {
    if types != [] {
      var n := |types| - 1;
      var front, last := types[..n], types[n];
      TypesOffer(crs, front, faults, key);
      var tail :=
        if last.isDir && last.name in ALLOWED_DATA_TYPES then FileCandidates(crs, last.name, last.files, faults)
        else [];
      HasKeyAppend(TypeCandidates(crs, front, faults), tail, key);
      FilesOffer(crs, last.name, last.files, faults, key);
      SafeMeans(last.name);
      TypeOffersSnoc(crs, types, faults, key);
    }
  }

  lemma TypeOffersSnoc(crs: string, types: seq<TypeEntry>, faults: Faults, key: Key)
    requires types != []
    ensures var n := |types| - 1;
      var last := types[n];
      (exists t: nat, f: nat :: TypeOffers(crs, types, t, f, key, faults)) <==>
        (exists t: nat, f: nat :: TypeOffers(crs, types[..n], t, f, key, faults))
        || (last.isDir && IsDataType(last.name)
            && exists f: nat :: FileOffers(crs, last.name, last.files, f, key, faults))
  {
    var n := |types| - 1;
    var last := types[n];
    if t: nat, f: nat :| TypeOffers(crs, types, t, f, key, faults) {
      assert t < n ==> TypeOffers(crs, types[..n], t, f, key, faults);
    }
    if t: nat, f: nat :| TypeOffers(crs, types[..n], t, f, key, faults) {
      assert TypeOffers(crs, types, t, f, key, faults);
    }
    if f: nat :| last.isDir && IsDataType(last.name) && FileOffers(crs, last.name, last.files, f, key, faults) {
      assert TypeOffers(crs, types, n, f, key, faults);
    }
  }

  lemma {:induction false} TreeOffers(tree: seq<CrsEntry>, faults: Faults, key: Key)
    ensures HasKey(Candidates(tree, faults), key) <==> Offers(tree, key, faults)
  {
    if tree != [] {
      var n := |tree| - 1;
      var front, last := tree[..n], tree[n];
      TreeOffers(front, faults, key);
      var tail := if last.isDir then TypeCandidates(last.name, last.types, faults) else [];
      HasKeyAppend(Candidates(front, faults), tail, key);
      TypesOffer(last.name, last.types, faults, key);
      OffersSnoc(tree, faults, key);
    }
  }

  lemma OffersSnoc(tree: seq<CrsEntry>, faults: Faults, key: Key)
    requires tree != []
    ensures var n := |tree| - 1;
            Offers(tree, key, faults) <==>
              Offers(tree[..n], key, faults)
              || (tree[n].isDir && exists t: nat, f: nat :: TypeOffers(tree[n].name, tree[n].types, t, f, key, faults))
  {
    var n := |tree| - 1;
    if Offers(tree, key, faults) {
      var c: nat, t: nat, f: nat :| OfferedAt(tree, c, t, f, key, faults);
      assert c < n ==> OfferedAt(tree[..n], c, t, f, key, faults);
    }
    if Offers(tree[..n], key, faults) {
      var c: nat, t: nat, f: nat :| OfferedAt(tree[..n], c, t, f, key, faults);
      assert OfferedAt(tree, c, t, f, key, faults);
    }
    if tree[n].isDir && exists t: nat, f: nat :: TypeOffers(tree[n].name, tree[n].types, t, f, key, faults) {
      var t: nat, f: nat :| TypeOffers(tree[n].name, tree[n].types, t, f, key, faults);
      assert OfferedAt(tree, n, t, f, key, faults);
    }
  }

  /** Main result for one pass: the exchange names are the old ones plus every regular, safely
      named file in an allowed directory of any CRS, except those whose copy failed. */
  lemma SyncNames(exchange: map<Key, Bytes>, tree: seq<CrsEntry>, faults: Faults, key: Key)
    ensures key in Publish(exchange, Candidates(tree, faults)) <==> key in exchange || Offers(tree, key, faults)
    ensures key in exchange ==> Publish(exchange, Candidates(tree, faults))[key] == exchange[key]
  {
    PublishMeans(exchange, Candidates(tree, faults));
    TreeOffers(tree, faults, key);
  }

  lemma {:induction false} PublishNothingNew(exchange: map<Key, Bytes>, found: seq<Candidate>)
    requires forall key :: HasKey(found, key) ==> key in exchange
    ensures Publish(exchange, found) == exchange
  {
    if found != [] {
      forall key | HasKey(found[..|found| - 1], key)
        ensures key in exchange
      {
        HasKeySnoc(found, key);
      }
      PublishNothingNew(exchange, found[..|found| - 1]);
      HasKeySnoc(found, found[|found| - 1].key);
    }
  }

  /** A second pass over the same tree changes nothing, even if other copies now fail. */
  lemma SecondSyncIsNoOp(exchange: map<Key, Bytes>, tree: seq<CrsEntry>, faults: Faults)
    ensures var once := Publish(exchange, Candidates(tree, {}));
            Publish(once, Candidates(tree, faults)) == once
  {
    var once := Publish(exchange, Candidates(tree, {}));
    forall key | HasKey(Candidates(tree, faults), key)
      ensures key in once
    {
      TreeOffers(tree, faults, key);
      var c: nat, t: nat, f: nat :| OfferedAt(tree, c, t, f, key, faults);
      assert OfferedAt(tree, c, t, f, key, {});
      SyncNames(exchange, tree, {}, key);
    }
    PublishNothingNew(once, Candidates(tree, faults));
  }

  /** What a broken pass sees is part of the tree. */
  lemma {:induction false} SeenTypesOffer(crs: string, types: seq<TypeEntry>, created: set<string>, broken: Broken,
                                          faults: Faults, key: Key, t: nat, f: nat) returns (u: nat)
    requires TypeOffers(crs, SeenTypes(crs, types, created, broken), t, f, key, faults)
    ensures TypeOffers(crs, types, u, f, key, {})
    decreases |types|
  {
    var head := types[0];
    var next := if IsIgnored(head) then created else created + {head.name};
    if t == 0 {
      u := 0;
    } else {
      u := SeenTypesOffer(crs, types[1..], next, broken, faults, key, t - 1, f);
      u := u + 1;
    }
  }

  lemma {:induction false} SeenOffers(tree: seq<CrsEntry>, created: set<string>, broken: Broken, faults: Faults,
                                      key: Key, c: nat, t: nat, f: nat)
    requires OfferedAt(SeenTree(tree, created, broken), c, t, f, key, faults)
    ensures Offers(tree, key, {})
    decreases |tree|
  {
    var head := tree[0];
    if c > 0 {
      var next := if head.isDir then created + TypeNames(head.types) * ALLOWED_DATA_TYPES else created;
      SeenOffers(tree[1..], next, broken, faults, key, c - 1, t, f);
      var c': nat, t': nat, f': nat :| OfferedAt(tree[1..], c', t', f', key, {});
      assert OfferedAt(tree, c' + 1, t', f', key, {});
    } else if TypesWhole(head.name, head.types, created, broken) {
      assert OfferedAt(tree, 0, t, f, key, {});
    } else {
      var u := SeenTypesOffer(head.name, head.types, created, broken, faults, key, t, f);
      assert OfferedAt(tree, 0, u, f, key, {});
    }
  }

  /** A pass that failed on some files, or broke off, is made up for by the next pass without errors. */
  lemma FailuresAreMadeUpFor(exchange: map<Key, Bytes>, tree: seq<CrsEntry>, created: set<string>, broken: Broken,
                             faults: Faults, key: Key)
    ensures var first := Publish(exchange, Candidates(SeenTree(tree, created, broken), faults));
            key in Publish(first, Candidates(tree, {})) <==> key in Publish(exchange, Candidates(tree, {}))
  {
    var seen := SeenTree(tree, created, broken);
    SyncNames(exchange, seen, faults, key);
    SyncNames(exchange, tree, {}, key);
    SyncNames(Publish(exchange, Candidates(seen, faults)), tree, {}, key);
    if Offers(seen, key, faults) {
      var c: nat, t: nat, f: nat :| OfferedAt(seen, c, t, f, key, faults);
      SeenOffers(tree, created, broken, faults, key, c, t, f);
    }
  }

  /** Without broken directories a pass sees the whole tree. */
  lemma {:induction false} WholeTreeSeen(tree: seq<CrsEntry>, created: set<string>, broken: Broken)
    requires TreeWhole(tree, created, broken)
    ensures SeenTree(tree, created, broken) == tree
  {
    if tree != [] {
      var head := tree[0];
      assert tree == [head] + tree[1..];
      WholeTreeSeen(tree[1..],
                    if head.isDir then created + TypeNames(head.types) * ALLOWED_DATA_TYPES else created, broken);
    }
  }

  // ----- what consumers look at -----

  predicate IsHidden(name: string) {
    name != "" && name[0] == '.'
  }

  lemma HiddenMeans(name: string)
    ensures IsHidden(name) <==> "." <= name
  {
  }

  /** Consumers look at regular files that are not hidden. */
  predicate IsDataFile(f: FileEntry) {
    f.node.RegularFile? && !IsHidden(f.name)
  }
}
