/** What content a pass of the exchange process publishes, and where in the submit tree it is found. */
module ExchangeContent {
  import opened Exchange

  // ----- the first candidate with a key -----

  ghost predicate FirstAt(found: seq<Candidate>, key: Key, content: Bytes, i: nat) {
    && IsFirst(found, i) && found[i].key == key && found[i].content == content
  }

  /** The first candidate with this key has this content. */
  ghost predicate First(found: seq<Candidate>, key: Key, content: Bytes) {
    exists i: nat :: FirstAt(found, key, content, i)
  }

  /** The first candidate of two lists is the first of the first list, or, if that has none, of the second. */
  lemma FirstOfTwo(a: seq<Candidate>, b: seq<Candidate>, key: Key, content: Bytes)
    requires First(a + b, key, content)
    ensures First(a, key, content) || (!HasKey(a, key) && First(b, key, content))
  {
    var i: nat :| FirstAt(a + b, key, content, i);
    if i < |a| {
      assert forall j :: 0 <= j < i ==> a[j] == (a + b)[j];
      assert FirstAt(a, key, content, i);
    } else {
      assert forall j :: 0 <= j < |a| ==> a[j] == (a + b)[j];
      assert forall j :: 0 <= j < i - |a| ==> b[j] == (a + b)[|a| + j];
      assert FirstAt(b, key, content, i - |a|);
    }
  }

  lemma {:induction false} SomeFirst(found: seq<Candidate>, key: Key, i: nat) returns (first: nat)
    requires i < |found| && found[i].key == key
    ensures IsFirst(found, first) && found[first].key == key
    decreases i
  {
    if j: nat :| j < i && found[j].key == key {
      first := SomeFirst(found, key, j);
    } else {
      first := i;
    }
  }

  /** New content of the exchange is that of the first candidate. */
  lemma PublishesFirst(exchange: map<Key, Bytes>, found: seq<Candidate>, key: Key)
    requires key in Publish(exchange, found) && key !in exchange
    ensures First(found, key, Publish(exchange, found)[key])
  {
    PublishMeans(exchange, found);
    var i :| 0 <= i < |found| && found[i].key == key;
    var first := SomeFirst(found, key, i);
    assert FirstAt(found, key, Publish(exchange, found)[key], first);
  }

  // ----- the first file with a key -----

  /** The first file of a directory that is offered under a key. */
  lemma {:induction false} FirstFile(crs: string, kind: string, files: seq<FileEntry>, faults: Faults,
                                     key: Key, content: Bytes)
    returns (f: nat)
    requires First(FileCandidates(crs, kind, files, faults), key, content)
    ensures FileOffers(crs, kind, files, f, key, faults) && files[f].node.content == content
    ensures forall g: nat :: FileOffers(crs, kind, files, g, key, faults) ==> f <= g
  {
    var n := |files| - 1;
    var before, last := FileCandidates(crs, kind, files[..n], faults), files[n];
    var tail := if IsCandidate(crs, kind, last, faults) then [Candidate(Key(kind, last.name), last.node.content)]
                else [];
    assert before + [] == before;
    FirstOfTwo(before, tail, key, content);
    if First(before, key, content) {
      f := FirstFile(crs, kind, files[..n], faults, key, content);
    } else {
      f := n;
      SafeMeans(last.name);
      var i: nat :| FirstAt(tail, key, content, i);
      FilesOffer(crs, kind, files[..n], faults, key);
    }
    forall g: nat | FileOffers(crs, kind, files, g, key, faults)
      ensures f <= g
    {
      assert g < n ==> FileOffers(crs, kind, files[..n], g, key, faults);
    }
  }

  predicate NotAfter(t: nat, f: nat, u: nat, g: nat) {
    t < u || (t == u && f <= g)
  }

  /** The first file of a CRS that is offered under a key, in the order of the scan. */
  lemma {:induction false} FirstOfTypes(crs: string, types: seq<TypeEntry>, faults: Faults, key: Key, content: Bytes)
    returns (t: nat, f: nat)
    requires First(TypeCandidates(crs, types, faults), key, content)
    ensures TypeOffers(crs, types, t, f, key, faults) && types[t].files[f].node.content == content
    ensures forall u: nat, g: nat :: TypeOffers(crs, types, u, g, key, faults) ==> NotAfter(t, f, u, g)
  {
    var n := |types| - 1;
    var front, last := types[..n], types[n];
    var before := TypeCandidates(crs, front, faults);
    var tail :=
      if last.isDir && last.name in ALLOWED_DATA_TYPES then FileCandidates(crs, last.name, last.files, faults)
      else [];
    assert before + [] == before;
    FirstOfTwo(before, tail, key, content);
    if First(before, key, content) {
      t, f := FirstOfTypes(crs, front, faults, key, content);
    } else {
      SafeMeans(last.name);
      t := n;
      f := FirstFile(crs, last.name, last.files, faults, key, content);
      TypesOffer(crs, front, faults, key);
    }
    forall u: nat, g: nat | TypeOffers(crs, types, u, g, key, faults)
      ensures NotAfter(t, f, u, g)
    {
      assert u < n ==> TypeOffers(crs, front, u, g, key, faults);
    }
  }

  /** No file before (c, t, f) in the order of the scan is offered under this key, and this one is. */
  ghost predicate FirstOffered(tree: seq<CrsEntry>, c: nat, t: nat, f: nat, key: Key, faults: Faults) {
    && OfferedAt(tree, c, t, f, key, faults)
    && forall d: nat, u: nat, g: nat :: OfferedAt(tree, d, u, g, key, faults) ==>
         c < d || (c == d && NotAfter(t, f, u, g))
  }

  lemma {:induction false} FirstOfTree(tree: seq<CrsEntry>, faults: Faults, key: Key, content: Bytes)
    returns (c: nat, t: nat, f: nat)
    requires First(Candidates(tree, faults), key, content)
    ensures FirstOffered(tree, c, t, f, key, faults) && tree[c].types[t].files[f].node.content == content
  {
    var n := |tree| - 1;
    var front, last := tree[..n], tree[n];
    var before := Candidates(front, faults);
    var tail := if last.isDir then TypeCandidates(last.name, last.types, faults) else [];
    assert before + [] == before;
    FirstOfTwo(before, tail, key, content);
    if First(before, key, content) {
      c, t, f := FirstOfTree(front, faults, key, content);
    } else {
      c := n;
      t, f := FirstOfTypes(last.name, last.types, faults, key, content);
      TreeOffers(front, faults, key);
    }
    forall d: nat, u: nat, g: nat | OfferedAt(tree, d, u, g, key, faults)
      ensures c < d || (c == d && NotAfter(t, f, u, g))
    {
      assert d < n ==> OfferedAt(front, d, u, g, key, faults);
    }
  }

  /** Main result on the content of a pass: what is new in the exchange is the content of the first file of
      the tree, in the order of the scan, that is offered under its name. */
  lemma SyncContent(exchange: map<Key, Bytes>, tree: seq<CrsEntry>, faults: Faults, key: Key)
    returns (c: nat, t: nat, f: nat)
    requires key in Publish(exchange, Candidates(tree, faults)) && key !in exchange
    ensures FirstOffered(tree, c, t, f, key, faults)
    ensures Publish(exchange, Candidates(tree, faults))[key] == tree[c].types[t].files[f].node.content
  {
    PublishesFirst(exchange, Candidates(tree, faults), key);
    c, t, f := FirstOfTree(tree, faults, key, Publish(exchange, Candidates(tree, faults))[key]);
  }

  // ----- every candidate is a file of the tree -----

  lemma {:induction false} FileOf(crs: string, kind: string, files: seq<FileEntry>, faults: Faults, x: Candidate)
    returns (f: nat)
    requires x in FileCandidates(crs, kind, files, faults)
    ensures FileOffers(crs, kind, files, f, x.key, faults) && files[f].node.content == x.content
  {
    var n := |files| - 1;
    if x in FileCandidates(crs, kind, files[..n], faults) {
      f := FileOf(crs, kind, files[..n], faults, x);
    } else {
      f := n;
      SafeMeans(files[n].name);
    }
  }

  lemma {:induction false} FileOfTypes(crs: string, types: seq<TypeEntry>, faults: Faults, x: Candidate)
    returns (t: nat, f: nat)
    requires x in TypeCandidates(crs, types, faults)
    ensures TypeOffers(crs, types, t, f, x.key, faults) && types[t].files[f].node.content == x.content
  {
    var n := |types| - 1;
    if x in TypeCandidates(crs, types[..n], faults) {
      t, f := FileOfTypes(crs, types[..n], faults, x);
    } else {
      t := n;
      SafeMeans(types[n].name);
      f := FileOf(crs, types[n].name, types[n].files, faults, x);
    }
  }

  lemma {:induction false} FileOfTree(tree: seq<CrsEntry>, faults: Faults, x: Candidate)
    returns (c: nat, t: nat, f: nat)
    requires x in Candidates(tree, faults)
    ensures OfferedAt(tree, c, t, f, x.key, faults) && tree[c].types[t].files[f].node.content == x.content
  {
    var n := |tree| - 1;
    if x in Candidates(tree[..n], faults) {
      c, t, f := FileOfTree(tree[..n], faults, x);
    } else {
      c := n;
      t, f := FileOfTypes(tree[n].name, tree[n].types, faults, x);
    }
  }

  // ----- what a pass that breaks off has seen -----

  /** Coming to this directory ends the pass: it is to be created and cannot be, or cannot be listed. */
  ghost predicate TypeBreaks(crs: string, t: TypeEntry, created: set<string>, broken: Broken) {
    && t.isDir && IsDataType(t.name)
    && ((t.name !in created && t.name in broken.mkdirs) || [crs, t.name] in broken.scans)
  }

  /** None of the first n directories ends the pass. */
  ghost predicate TypesReached(crs: string, types: seq<TypeEntry>, n: nat, created: set<string>, broken: Broken) {
    forall u :: 0 <= u < n && u < |types| ==> !TypeBreaks(crs, types[u], created, broken)
  }

  lemma TypesReachedStep(crs: string, types: seq<TypeEntry>, n: nat, created: set<string>, broken: Broken)
    requires types != [] && n > 0 && !TypeBreaks(crs, types[0], created, broken)
    ensures TypesReached(crs, types, n, created, broken) <==>
              TypesReached(crs, types[1..], n - 1,
                           if IsIgnored(types[0]) then created else created + {types[0].name}, broken)
  {
    SafeMeans(types[0].name);
    var next := if IsIgnored(types[0]) then created else created + {types[0].name};
    forall u | 0 < u < |types|
      ensures TypeBreaks(crs, types[u], created, broken) <==> TypeBreaks(crs, types[1..][u - 1], next, broken)
    {
    }
    if TypesReached(crs, types[1..], n - 1, next, broken) {
      forall u | 0 <= u < n && u < |types|
        ensures !TypeBreaks(crs, types[u], created, broken)
      {
        assert u > 0 ==> !TypeBreaks(crs, types[1..][u - 1], next, broken);
      }
    }
  }

  lemma {:induction false} WholeMeans(crs: string, types: seq<TypeEntry>, created: set<string>, broken: Broken)
    ensures TypesWhole(crs, types, created, broken) <==> TypesReached(crs, types, |types|, created, broken)
    decreases |types|
  {
    if types != [] {
      SafeMeans(types[0].name);
      if !TypeBreaks(crs, types[0], created, broken) {
        WholeMeans(crs, types[1..], if IsIgnored(types[0]) then created else created + {types[0].name}, broken);
        TypesReachedStep(crs, types, |types|, created, broken);
      }
    }
  }

  lemma {:induction false} SeenTypesMean(crs: string, types: seq<TypeEntry>, created: set<string>, broken: Broken,
                                         t: nat, f: nat, key: Key, faults: Faults)
    ensures TypeOffers(crs, SeenTypes(crs, types, created, broken), t, f, key, faults) <==>
              TypeOffers(crs, types, t, f, key, faults) && TypesReached(crs, types, t + 1, created, broken)
    decreases |types|
  {
    if types != [] {
      if TypeBreaks(crs, types[0], created, broken) {
        BrokenHead(crs, types, created, broken, t, f, key, faults);
      } else {
        var next := if IsIgnored(types[0]) then created else created + {types[0].name};
        TypesReachedStep(crs, types, t + 1, created, broken);
        WholeHead(crs, types, created, broken);
        if t > 0 {
          SeenTypesMean(crs, types[1..], next, broken, t - 1, f, key, faults);
          assert TypeOffers(crs, types, t, f, key, faults) <==> TypeOffers(crs, types[1..], t - 1, f, key, faults);
        }
      }
    }
  }

  lemma BrokenHead(crs: string, types: seq<TypeEntry>, created: set<string>, broken: Broken,
                   t: nat, f: nat, key: Key, faults: Faults)
    requires types != [] && TypeBreaks(crs, types[0], created, broken)
    ensures !TypeOffers(crs, SeenTypes(crs, types, created, broken), t, f, key, faults)
    ensures !TypesReached(crs, types, t + 1, created, broken)
  {
    SafeMeans(types[0].name);
  }

  lemma WholeHead(crs: string, types: seq<TypeEntry>, created: set<string>, broken: Broken)
    requires types != [] && !TypeBreaks(crs, types[0], created, broken)
    ensures var next := if IsIgnored(types[0]) then created else created + {types[0].name};
            SeenTypes(crs, types, created, broken) == [types[0]] + SeenTypes(crs, types[1..], next, broken)
  {
    SafeMeans(types[0].name);
  }

  /** The pass ends in this CRS, whose directory, or one of whose first n directories, cannot be gone through. */
  ghost predicate CrsBreaks(c: CrsEntry, n: nat, created: set<string>, broken: Broken) {
    c.isDir && ([c.name] in broken.scans || !TypesReached(c.name, c.types, n, created, broken))
  }

  /** The pass comes to the end of directory t of CRS c. */
  ghost predicate TreeReached(tree: seq<CrsEntry>, c: nat, t: nat, created: set<string>, broken: Broken)
    requires c < |tree|
  {
    && (forall d :: 0 <= d < c ==> !CrsBreaks(tree[d], |tree[d].types|, created, broken))
    && !CrsBreaks(tree[c], t + 1, created, broken)
  }

  lemma CreatedMore(x: CrsEntry, n: nat, c: CrsEntry, created: set<string>, broken: Broken)
    requires !CrsBreaks(c, |c.types|, created, broken) && c.isDir
    ensures CrsBreaks(x, n, created + TypeNames(c.types) * ALLOWED_DATA_TYPES, broken)
       <==> CrsBreaks(x, n, created, broken)
  {
    var next := created + TypeNames(c.types) * ALLOWED_DATA_TYPES;
    forall u | 0 <= u < |x.types|
      ensures TypeBreaks(x.name, x.types[u], created, broken) <==> TypeBreaks(x.name, x.types[u], next, broken)
    {
      SafeMeans(x.types[u].name);
      if t :| t in c.types && t.isDir && t.name == x.types[u].name {
        var v :| 0 <= v < |c.types| && c.types[v] == t;
        assert !TypeBreaks(c.name, c.types[v], created, broken);
      }
    }
    if TypesReached(x.name, x.types, n, created, broken) {
      assert TypesReached(x.name, x.types, n, next, broken);
    }
    if TypesReached(x.name, x.types, n, next, broken) {
      assert TypesReached(x.name, x.types, n, created, broken);
    }
  }

  function CreatedBy(c: CrsEntry, created: set<string>): set<string> {
    if c.isDir then created + TypeNames(c.types) * ALLOWED_DATA_TYPES else created
  }

  lemma TreeReachedStep(tree: seq<CrsEntry>, c: nat, t: nat, created: set<string>, broken: Broken)
    requires 0 < c < |tree| && !CrsBreaks(tree[0], |tree[0].types|, created, broken)
    ensures TreeReached(tree, c, t, created, broken) <==>
              TreeReached(tree[1..], c - 1, t, CreatedBy(tree[0], created), broken)
  {
    var next := CreatedBy(tree[0], created);
    forall x: CrsEntry, n: nat
      ensures CrsBreaks(x, n, next, broken) <==> CrsBreaks(x, n, created, broken)
    {
      if tree[0].isDir {
        CreatedMore(x, n, tree[0], created, broken);
      }
    }
    assert forall d :: 0 < d < |tree| ==> tree[1..][d - 1] == tree[d];
    if TreeReached(tree[1..], c - 1, t, next, broken) {
      forall d | 0 <= d < c
        ensures !CrsBreaks(tree[d], |tree[d].types|, created, broken)
      {
        assert d > 0 ==> !CrsBreaks(tree[1..][d - 1], |tree[1..][d - 1].types|, next, broken);
      }
    }
  }

  /** What a pass that may break off has seen: the files up to the first directory that ends it. */
  lemma {:induction false} SeenTreeMeans(tree: seq<CrsEntry>, created: set<string>, broken: Broken,
                                         c: nat, t: nat, f: nat, key: Key, faults: Faults)
    ensures OfferedAt(SeenTree(tree, created, broken), c, t, f, key, faults) <==>
              OfferedAt(tree, c, t, f, key, faults) && TreeReached(tree, c, t, created, broken)
    decreases |tree|
  {
    if tree != [] {
      var head := tree[0];
      WholeMeans(head.name, head.types, created, broken);
      if c == 0 {
        SeenTypesMean(head.name, head.types, created, broken, t, f, key, faults);
        assert TypesReached(head.name, head.types, |head.types|, created, broken) && head.isDir && t < |head.types| ==>
            TypesReached(head.name, head.types, t + 1, created, broken);
      } else if !CrsBreaks(head, |head.types|, created, broken) {
        SeenTreeMeans(tree[1..], CreatedBy(head, created), broken, c - 1, t, f, key, faults);
        if c < |tree| {
          TreeReachedStep(tree, c, t, created, broken);
        }
      }
    }
  }

  /** A pass ends without an error exactly when no directory breaks it off. */
  lemma {:induction false} WholeTreeMeans(tree: seq<CrsEntry>, created: set<string>, broken: Broken)
    ensures TreeWhole(tree, created, broken) <==>
              forall c :: 0 <= c < |tree| ==> !CrsBreaks(tree[c], |tree[c].types|, created, broken)
    decreases |tree|
  {
    if tree != [] {
      var head, rest, next := tree[0], tree[1..], CreatedBy(tree[0], created);
      WholeMeans(head.name, head.types, created, broken);
      if !CrsBreaks(head, |head.types|, created, broken) {
        WholeTreeMeans(rest, next, broken);
        forall c | 0 < c < |tree|
          ensures CrsBreaks(tree[c], |tree[c].types|, created, broken)
             <==> CrsBreaks(rest[c - 1], |rest[c - 1].types|, next, broken)
        {
          if head.isDir {
            CreatedMore(tree[c], |tree[c].types|, head, created, broken);
          }
        }
        assert forall c :: 0 <= c < |rest| ==> rest[c] == tree[c + 1];
      }
    }
  }

  /** Main result for a pass that may break off: the new names are those of the files that it gets to, except
      those whose copy failed. */
  lemma BrokenPassNames(exchange: map<Key, Bytes>, tree: seq<CrsEntry>, created: set<string>, broken: Broken,
                        faults: Faults, key: Key)
    ensures key in Publish(exchange, Candidates(SeenTree(tree, created, broken), faults)) <==>
              || key in exchange
              || exists c: nat, t: nat, f: nat ::
                   OfferedAt(tree, c, t, f, key, faults) && TreeReached(tree, c, t, created, broken)
  {
    var seen := SeenTree(tree, created, broken);
    SyncNames(exchange, seen, faults, key);
    forall c: nat, t: nat, f: nat
      ensures OfferedAt(seen, c, t, f, key, faults) <==>
                OfferedAt(tree, c, t, f, key, faults) && TreeReached(tree, c, t, created, broken)
    {
      SeenTreeMeans(tree, created, broken, c, t, f, key, faults);
    }
  }
}
