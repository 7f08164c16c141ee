/** The consumer's fetch (libCRS/libCRS/infra_client.py), into a destination that nobody else touches. */
module Fetching {
  import opened Outcomes
  import opened Exchange

  /** The data files of a listing that the destination lacks, in listing order. */
  function NewNames(listing: seq<FileEntry>, dst: map<string, Bytes>): seq<string> {
    if listing == [] then []
    else
      var last := listing[|listing| - 1];
      NewNames(listing[..|listing| - 1], dst) + (if IsDataFile(last) && last.name !in dst then [last.name] else [])
  }

  /** How a fetch goes: the names rsync gets across, and whether an error is raised before the end. */
  datatype Transfer = Transfer(arrived: set<string>, raises: bool)

  datatype FetchError = FetchFailed

  /** The destination after the new files that arrive are in place. */
  function Fetched(listing: seq<FileEntry>, dst: map<string, Bytes>, arrived: set<string>): map<string, Bytes> {
    if listing == [] then dst
    else
      var last := listing[|listing| - 1];
      var before := Fetched(listing[..|listing| - 1], dst, arrived);
      if IsDataFile(last) && last.name !in dst && last.name in arrived then before[last.name := last.node.content]
      else before
  }

  /** The call returns: nothing is raised, and all new files arrive. */
  ghost predicate Completes(listing: seq<FileEntry>, dst: map<string, Bytes>, transfer: Transfer) {
    !transfer.raises && forall n :: n in NewNames(listing, dst) ==> n in transfer.arrived
  }

  class InfraClient {
    const hasFetchDir: bool
    var dst: map<string, Bytes>

    constructor (hasFetchDir: bool, dst: map<string, Bytes>)
      ensures this.hasFetchDir == hasFetchDir && this.dst == dst
    {
      this.hasFetchDir := hasFetchDir;
      this.dst := dst;
    }

    /** `fetch_new` for one data type; None stands for a missing type directory. A failing call may
        leave some of the new files in the destination, and their names are lost. */
    method FetchNew(typeDir: Option<seq<FileEntry>>, transfer: Transfer) returns (r: Result<seq<string>, FetchError>)
      modifies this
      ensures !hasFetchDir || typeDir.None? ==> r == Success([]) && dst == old(dst)
      ensures hasFetchDir && typeDir.Some? ==>
                && dst == Fetched(typeDir.value, old(dst), transfer.arrived)
                && r == if Completes(typeDir.value, old(dst), transfer) then Success(NewNames(typeDir.value, old(dst)))
                        else Failure(FetchFailed)
    {
      if !hasFetchDir || typeDir.None? {
        return Success([]);
      }
      var listing := typeDir.value;
      var newFiles := [];
      for i := 0 to |listing|
        invariant dst == old(dst)
        invariant newFiles == NewNames(listing[..i], dst)
      {
        assert listing[..i + 1][..i] == listing[..i];
        if IsDataFile(listing[i]) && listing[i].name !in dst {
          newFiles := newFiles + [listing[i].name];
        }
      }
      assert listing[..|listing|] == listing;
      var copied := CopyFiles(listing, newFiles, transfer);
      return if copied then Success(newFiles) else Failure(FetchFailed);
    }

    /** `rsync_copy_files`: whole files appear in the destination, all of them unless an error is
        raised. */
    method CopyFiles(listing: seq<FileEntry>, names: seq<string>, transfer: Transfer) returns (copied: bool)
      requires names == NewNames(listing, dst)
      modifies this
      ensures dst == Fetched(listing, old(dst), transfer.arrived)
      ensures copied <==> Completes(listing, old(dst), transfer)
    {
      var before := dst;
      for i := 0 to |listing|
        invariant dst == Fetched(listing[..i], before, transfer.arrived)
      {
        assert listing[..i + 1][..i] == listing[..i];
        if IsDataFile(listing[i]) && listing[i].name !in before && listing[i].name in transfer.arrived {
          dst := dst[listing[i].name := listing[i].node.content];
        }
      }
      assert listing[..|listing|] == listing;
      copied := !transfer.raises && forall n :: n in names ==> n in transfer.arrived;
    }
  }

  predicate IsDirectory(listing: seq<FileEntry>) {
    forall i, j :: 0 <= i < j < |listing| ==> listing[i].name != listing[j].name
  }

  predicate NoRepeats(names: seq<string>) {
    forall i, j :: 0 <= i < j < |names| ==> names[i] != names[j]
  }

  /** The i-th entry is a regular file of this name, which does not start with a dot. */
  ghost predicate ListedAt(listing: seq<FileEntry>, i: nat, name: string) {
    i < |listing| && listing[i].node.RegularFile? && listing[i].name == name && !("." <= name)
  }

  ghost predicate Lists(listing: seq<FileEntry>, name: string) {
    exists i: nat :: ListedAt(listing, i, name)
  }

  /** The new names are, without repeats, the data files that were missing, and nothing else. */
  lemma {:induction false} NewNamesMean(listing: seq<FileEntry>, dst: map<string, Bytes>)
    requires IsDirectory(listing)
    ensures NoRepeats(NewNames(listing, dst))
    ensures forall n :: n in NewNames(listing, dst) <==> Lists(listing, n) && n !in dst
  {
    if listing != [] {
      var k := |listing| - 1;
      var front, last := listing[..k], listing[k];
      NewNamesMean(front, dst);
      forall n
        ensures Lists(listing, n) <==> Lists(front, n) || (IsDataFile(last) && last.name == n)
      {
        ListsSnoc(listing, n);
      }
      if IsDataFile(last) && last.name !in dst {
        assert !Lists(front, last.name);
      }
    }
  }

  ghost predicate StandsBefore(listing: seq<FileEntry>, m: string, n: string) {
    exists a, b :: 0 <= a < b < |listing| && listing[a].name == m && listing[b].name == n
  }

  ghost predicate InListingOrder(names: seq<string>, listing: seq<FileEntry>) {
    forall i, j :: 0 <= i < j < |names| ==> StandsBefore(listing, names[i], names[j])
  }

  lemma BeforeInMore(listing: seq<FileEntry>, m: string, n: string)
    requires listing != [] && StandsBefore(listing[..|listing| - 1], m, n)
    ensures StandsBefore(listing, m, n)
  {
    var front := listing[..|listing| - 1];
    var a, b :| 0 <= a < b < |front| && front[a].name == m && front[b].name == n;
    assert listing[a] == front[a] && listing[b] == front[b];
  }

  /** The new names are in the order of the listing. */
  lemma {:induction false} NewNamesInOrder(listing: seq<FileEntry>, dst: map<string, Bytes>)
    requires IsDirectory(listing)
    ensures InListingOrder(NewNames(listing, dst), listing)
  {
    if listing != [] {
      var k := |listing| - 1;
      var front, names := listing[..k], NewNames(listing[..k], dst);
      NewNamesInOrder(front, dst);
      NewNamesMean(front, dst);
      forall i, j | 0 <= i < j < |NewNames(listing, dst)|
        ensures StandsBefore(listing, NewNames(listing, dst)[i], NewNames(listing, dst)[j])
      {
        assert names[i] in names;
        if j < |names| {
          BeforeInMore(listing, names[i], names[j]);
        } else {
          var a: nat :| ListedAt(front, a, names[i]);
          assert listing[a] == front[a];
        }
      }
    }
  }

  /** After a fetch the listed data files that arrived are there, what was there before is unchanged,
      and there is nothing else. */
  lemma {:induction false} FetchMeans(listing: seq<FileEntry>, dst: map<string, Bytes>, arrived: set<string>)
    ensures forall n :: n in Fetched(listing, dst, arrived) <==> n in dst || (Lists(listing, n) && n in arrived)
    ensures forall n :: n in dst ==> n in Fetched(listing, dst, arrived) && Fetched(listing, dst, arrived)[n] == dst[n]
  {
    if listing != [] {
      var k := |listing| - 1;
      FetchMeans(listing[..k], dst, arrived);
      forall n
        ensures Lists(listing, n) <==> Lists(listing[..k], n) || (IsDataFile(listing[k]) && listing[k].name == n)
      {
        ListsSnoc(listing, n);
      }
    }
  }

  /** Each file fetched arrives with the content it has in the listed directory. */
  lemma {:induction false} FetchedContent(listing: seq<FileEntry>, dst: map<string, Bytes>, arrived: set<string>,
                                          i: nat)
    requires IsDirectory(listing) && i < |listing| && IsDataFile(listing[i])
    requires listing[i].name !in dst && listing[i].name in arrived
    ensures listing[i].name in Fetched(listing, dst, arrived)
    ensures Fetched(listing, dst, arrived)[listing[i].name] == listing[i].node.content
  {
    if i < |listing| - 1 {
      FetchedContent(listing[..|listing| - 1], dst, arrived, i);
    }
  }

  lemma ListsSnoc(listing: seq<FileEntry>, n: string)
    requires listing != []
    ensures var last := listing[|listing| - 1];
            Lists(listing, n) <==> Lists(listing[..|listing| - 1], n) || (IsDataFile(last) && last.name == n)
  {
    var front, last := listing[..|listing| - 1], listing[|listing| - 1];
    HiddenMeans(last.name);
    if Lists(listing, n) {
      var i: nat :| ListedAt(listing, i, n);
      assert i < |front| ==> ListedAt(front, i, n);
    }
    if Lists(front, n) {
      var i: nat :| ListedAt(front, i, n);
      assert ListedAt(listing, i, n);
    }
    if IsDataFile(last) && last.name == n {
      assert ListedAt(listing, |listing| - 1, n);
    }
  }

  // ----- a series of fetches -----

  datatype Fetch = Fetch(listing: seq<FileEntry>, transfer: Transfer)

  ghost predicate AreDirectories(fetches: seq<Fetch>) {
    forall i :: 0 <= i < |fetches| ==> IsDirectory(fetches[i].listing)
  }

  /** The destination after a number of fetches, with no one else writing to it. */
  function FetchAll(fetches: seq<Fetch>, dst: map<string, Bytes>): map<string, Bytes> {
    if fetches == [] then dst
    else
      var last := fetches[|fetches| - 1];
      Fetched(last.listing, FetchAll(fetches[..|fetches| - 1], dst), last.transfer.arrived)
  }

  ghost predicate CompletesAt(fetches: seq<Fetch>, dst: map<string, Bytes>, k: nat)
    requires k < |fetches|
  {
    Completes(fetches[k].listing, FetchAll(fetches[..k], dst), fetches[k].transfer)
  }

  /** What the k-th of these fetches reports; a fetch that fails reports nothing. */
  ghost function Report(fetches: seq<Fetch>, dst: map<string, Bytes>, k: nat): seq<string>
    requires k < |fetches|
  {
    if CompletesAt(fetches, dst, k) then NewNames(fetches[k].listing, FetchAll(fetches[..k], dst)) else []
  }

  /** The k-th fetch sees the name and gets the file across, if it is still missing. */
  ghost predicate Carries(fetches: seq<Fetch>, k: nat, name: string)
    requires k < |fetches|
  {
    Lists(fetches[k].listing, name) && name in fetches[k].transfer.arrived
  }

  ghost predicate FirstCarriedBy(fetches: seq<Fetch>, k: nat, name: string)
    requires k < |fetches|
  {
    Carries(fetches, k, name) && forall j :: 0 <= j < k ==> !Carries(fetches, j, name)
  }

  lemma {:induction false} PresentAfter(fetches: seq<Fetch>, dst: map<string, Bytes>, k: nat, name: string)
    requires k <= |fetches|
    ensures name in FetchAll(fetches[..k], dst) <==> name in dst || exists j :: 0 <= j < k && Carries(fetches, j, name)
    decreases k
  {
    if k > 0 {
      PresentAfter(fetches, dst, k - 1, name);
      assert fetches[..k][..k - 1] == fetches[..k - 1];
      var last := fetches[k - 1];
      FetchMeans(last.listing, FetchAll(fetches[..k - 1], dst), last.transfer.arrived);
      assert FetchAll(fetches[..k], dst)
         == Fetched(last.listing, FetchAll(fetches[..k - 1], dst), last.transfer.arrived);
      assert name in FetchAll(fetches[..k], dst)
         <==> name in FetchAll(fetches[..k - 1], dst) || Carries(fetches, k - 1, name);
    }
  }

  /** Exactly which fetch reports a name: it was not there from the start, this is the first fetch to
      carry it over, and this fetch completes. */
  lemma ReportedBy(fetches: seq<Fetch>, dst: map<string, Bytes>, k: nat, name: string)
    requires AreDirectories(fetches) && k < |fetches|
    ensures NoRepeats(Report(fetches, dst, k))
    ensures name in Report(fetches, dst, k) <==>
              name !in dst && FirstCarriedBy(fetches, k, name) && CompletesAt(fetches, dst, k)
  {
    NewNamesMean(fetches[k].listing, FetchAll(fetches[..k], dst));
    PresentAfter(fetches, dst, k, name);
  }

  /** So no name is reported twice, and a name is reported at all exactly when it was not there from
      the start and the first fetch that carries it over completes. */
  lemma ReportedOnce(fetches: seq<Fetch>, dst: map<string, Bytes>, name: string)
    requires AreDirectories(fetches)
    ensures forall j: nat, k: nat :: (j < |fetches| && name in Report(fetches, dst, j)
                                      && k < |fetches| && name in Report(fetches, dst, k)) ==> j == k
    ensures (exists k: nat :: k < |fetches| && name in Report(fetches, dst, k))
       <==> name !in dst &&
            exists k: nat :: k < |fetches| && FirstCarriedBy(fetches, k, name) && CompletesAt(fetches, dst, k)
  {
    forall k: nat | k < |fetches|
      ensures name in Report(fetches, dst, k) <==>
                name !in dst && FirstCarriedBy(fetches, k, name) && CompletesAt(fetches, dst, k)
    {
      ReportedBy(fetches, dst, k, name);
    }
  }

  /** If no fetch fails, the first fetch that lists a missing name reports it, and no other does. */
  lemma WithoutFailures(fetches: seq<Fetch>, dst: map<string, Bytes>, k: nat, name: string)
    requires AreDirectories(fetches) && k < |fetches|
    requires forall j: nat :: j < |fetches| ==> CompletesAt(fetches, dst, j)
    ensures name in Report(fetches, dst, k) <==>
              name !in dst && Lists(fetches[k].listing, name)
              && forall j :: 0 <= j < k ==> !Lists(fetches[j].listing, name)
  {
    ReportedBy(fetches, dst, k, name);
    if name !in dst && name in Report(fetches, dst, k) {
      forall j: nat | j < k
        ensures !Lists(fetches[j].listing, name)
      {
        if Lists(fetches[j].listing, name) {
          ListedIsCarried(fetches, dst, j, name);
        }
      }
    }
    if name !in dst && Lists(fetches[k].listing, name) && forall j :: 0 <= j < k ==> !Lists(fetches[j].listing, name) {
      ListedIsCarried(fetches, dst, k, name);
    }
  }

  /** A fetch that completes has carried every missing name that it lists, now or earlier. */
  lemma ListedIsCarried(fetches: seq<Fetch>, dst: map<string, Bytes>, k: nat, name: string)
    requires AreDirectories(fetches) && k < |fetches| && CompletesAt(fetches, dst, k)
    requires name !in dst && Lists(fetches[k].listing, name)
    ensures exists j :: 0 <= j <= k && Carries(fetches, j, name)
  {
    PresentAfter(fetches, dst, k, name);
    if name !in FetchAll(fetches[..k], dst) {
      NewNamesMean(fetches[k].listing, FetchAll(fetches[..k], dst));
      assert Carries(fetches, k, name);
    }
  }

  /** A report can be lost: the first fetch gets the file across and then fails, and to the second
      the file is not new. */
  lemma LostReport(name: string, content: Bytes)
    requires name != "" && !IsHidden(name)
    ensures var listing := [FileEntry(name, RegularFile(content))];
      var fetches := [Fetch(listing, Transfer({name}, true)), Fetch(listing, Transfer({name}, false))];
      && AreDirectories(fetches)
      && FetchAll(fetches, map[]) == map[name := content]
      && CompletesAt(fetches, map[], 1)
      && forall k: nat :: k < 2 ==> name !in Report(fetches, map[], k)
  {
    var listing := [FileEntry(name, RegularFile(content))];
    var fetches := [Fetch(listing, Transfer({name}, true)), Fetch(listing, Transfer({name}, false))];
    OneFile(name, content, map[]);
    OneFile(name, content, map[name := content]);
    assert FetchAll([], map[]) == map[];
    assert fetches[..1] == [fetches[0]] && fetches[..1][..0] == [];
    assert FetchAll(fetches[..1], map[]) == map[name := content];
    assert FetchAll(fetches, map[]) == Fetched(listing, FetchAll(fetches[..1], map[]), {name});
    assert NewNames(listing, FetchAll(fetches[..1], map[])) == [];
    assert !CompletesAt(fetches, map[], 0);
  }

  /** What one visible file adds to a destination. */
  lemma OneFile(name: string, content: Bytes, dst: map<string, Bytes>)
    requires name != "" && !IsHidden(name) && (name in dst ==> dst[name] == content)
    ensures var listing := [FileEntry(name, RegularFile(content))];
      && Fetched(listing, dst, {name}) == dst[name := content]
      && NewNames(listing, dst) == if name in dst then [] else [name]
  {
    var listing := [FileEntry(name, RegularFile(content))];
    assert listing[..0] == [] && listing[|listing| - 1] == FileEntry(name, RegularFile(content));
    assert IsDataFile(listing[0]);
    assert Fetched(listing[..0], dst, {name}) == dst && NewNames(listing[..0], dst) == [];
    assert name in dst ==> dst[name := content] == dst;
  }
}
