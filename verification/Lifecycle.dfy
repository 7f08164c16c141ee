/** The lifecycle sidecar (oss-crs-infra/lifecycle/main.py): it lists containers, then follows the
    event stream, and signals ready when every watched service has exited. */
module Lifecycle {
  import opened Outcomes
  import opened Text

  /** What the sidecar keeps for an exited service. */
  datatype ExitRecord = ExitRecord(code: int, status: string)

  /** A container as listed. */
  datatype Listed = Listed(service: string, status: string, exitCode: int)

  /** A die event, with the shutdown flag as it is when the event is handled. */
  datatype DieEvent = DieEvent(service: string, rawCode: string, shutdown: bool)

  datatype Outcome =
    | NoProject
    | NothingToWatch
    | Ready(exitInfo: map<string, ExitRecord>)
    | GaveUp(exitInfo: map<string, ExitRecord>, remaining: set<string>)

  predicate HasExited(status: string) {
    status == "exited" || status == "dead"
  }

  /** The exit code an event gives as text; -1 if it is not a number. */
  function CodeOf(raw: string): int {
    if IsNumeral(raw) then StringToNat(raw) else -1
  }

  /** The services named in a comma-separated list, without blanks and empty pieces. */
  function WatchSet(raw: string): set<string> {
    set s | s in Split(raw, ',') && Strip(s) != "" :: Strip(s)
  }

  /** The services named: whatever the pieces between the commas are, stripped, unless nothing is left. */
  lemma WatchSetMeans(pieces: seq<string>)
    requires |pieces| >= 1 && forall i :: 0 <= i < |pieces| ==> Without(pieces[i], ',')
    ensures forall s :: s in WatchSet(Join(pieces, ',')) <==>
                    s != "" && exists i :: 0 <= i < |pieces| && IsStripped(pieces[i], s)
  {
    SplitJoin(pieces, ',');
    forall s
      ensures s in WatchSet(Join(pieces, ',')) <==>
                s != "" && exists i :: 0 <= i < |pieces| && IsStripped(pieces[i], s)
    {
      if s in WatchSet(Join(pieces, ',')) {
        var p :| p in pieces && Strip(p) == s;
        StripMeans(p);
        var i :| 0 <= i < |pieces| && pieces[i] == p;
        assert IsStripped(pieces[i], s);
      }
      if i :| s != "" && 0 <= i < |pieces| && IsStripped(pieces[i], s) {
        StripUnique(pieces[i], s);
        assert pieces[i] in pieces;
      }
    }
  }

  /** The records after the listing: the first exited container of each watched service counts. */
  function FromListing(watch: set<string>, listing: seq<Listed>): map<string, ExitRecord> {
    if listing == [] then map[]
    else
      var before := FromListing(watch, listing[..|listing| - 1]);
      var c := listing[|listing| - 1];
      if c.service in watch && c.service !in before && HasExited(c.status) then
        before[c.service := ExitRecord(c.exitCode, c.status)]
      else before
  }

  /** The records after the events, up to a shutdown or the last missing exit. */
  function FromEvents(watch: set<string>, info: map<string, ExitRecord>, events: seq<DieEvent>): map<string, ExitRecord>
    decreases |events|
  {
    if events == [] || watch <= info.Keys || events[0].shutdown then info
    else
      var e := events[0];
      if e.service in watch && e.service !in info then
        FromEvents(watch, info[e.service := ExitRecord(CodeOf(e.rawCode), "exited")], events[1..])
      else FromEvents(watch, info, events[1..])
  }

  /** `main`. A listing of None stands for a failed one; an event stream that breaks off is one
      that ends early. */
  method WatchServices(composeProject: string, watchRaw: string, listing: Option<seq<Listed>>, events: seq<DieEvent>)
    returns (r: Outcome)
    ensures composeProject == "" ==> r == NoProject
    ensures composeProject != "" && watchRaw == "" ==> r == NothingToWatch
    ensures composeProject != "" && watchRaw != "" ==>
              var watch := WatchSet(watchRaw);
              var listed := if listing.Some? then FromListing(watch, listing.value) else map[];
              var info := FromEvents(watch, listed, events);
              r == if watch <= info.Keys then Ready(info) else GaveUp(info, watch - info.Keys)
  {
    if composeProject == "" {
      return NoProject;
    }
    if watchRaw == "" {
      return NothingToWatch;
    }
    var watch := WatchSet(watchRaw);
    var remaining, exitInfo := CheckListing(watch, listing);
    if remaining == {} {
      AllRecorded(watch, remaining, exitInfo);
      return Ready(exitInfo);
    }
    remaining, exitInfo := FollowEvents(watch, remaining, exitInfo, events);
    if remaining == {} {
      AllRecorded(watch, remaining, exitInfo);
      return Ready(exitInfo);
    }
    return GaveUp(exitInfo, remaining);
  }

  /** The remaining services and the recorded ones partition the watched set. */
  predicate Partition(watch: set<string>, remaining: set<string>, info: map<string, ExitRecord>) {
    remaining == watch - info.Keys && info.Keys <= watch
  }

  lemma AllRecorded(watch: set<string>, remaining: set<string>, info: map<string, ExitRecord>)
    requires Partition(watch, remaining, info) && remaining == {}
    ensures watch <= info.Keys
  {
    assert forall s :: s in watch ==> s in info.Keys || s in watch - info.Keys;
  }

  method CheckListing(watch: set<string>, listing: Option<seq<Listed>>)
    returns (remaining: set<string>, exitInfo: map<string, ExitRecord>)
    ensures Partition(watch, remaining, exitInfo)
    ensures exitInfo == if listing.Some? then FromListing(watch, listing.value) else map[]
  {
    remaining, exitInfo := watch, map[];
    if listing.None? {
      return;
    }
    var containers := listing.value;
    for i := 0 to |containers|
      invariant Partition(watch, remaining, exitInfo)
      invariant exitInfo == FromListing(watch, containers[..i])
    {
      assert containers[..i + 1][..i] == containers[..i];
      var c := containers[i];
      if c.service in remaining && HasExited(c.status) {
        exitInfo := exitInfo[c.service := ExitRecord(c.exitCode, c.status)];
        remaining := remaining - {c.service};
      }
    }
    assert containers[..|containers|] == containers;
  }

  method FollowEvents(watch: set<string>, stillRemaining: set<string>, info: map<string, ExitRecord>,
                      events: seq<DieEvent>)
    returns (remaining: set<string>, exitInfo: map<string, ExitRecord>)
    requires Partition(watch, stillRemaining, info) && stillRemaining != {}
    ensures Partition(watch, remaining, exitInfo)
    ensures exitInfo == FromEvents(watch, info, events)
  {
    remaining, exitInfo := stillRemaining, info;
    for i := 0 to |events|
      invariant Partition(watch, remaining, exitInfo) && remaining != {}
      invariant FromEvents(watch, info, events) == FromEvents(watch, exitInfo, events[i..])
    {
      assert events[i..][1..] == events[i + 1..];
      var e := events[i];
      if e.shutdown {
        break;
      }
      if e.service in remaining {
        exitInfo := exitInfo[e.service := ExitRecord(CodeOf(e.rawCode), "exited")];
        remaining := remaining - {e.service};
        if remaining == {} {
          AllRecorded(watch, remaining, exitInfo);
          break;
        }
      }
    }
  }

  // ----- the world the sidecar observes -----

  type Container = nat

  /** What happens to containers, in order. */
  datatype Happening = Started(who: Container, time: nat) | Died(who: Container, time: nat, code: nat)

  /** The last happening of a container in a history, if any. */
  function LastOf(world: seq<Happening>, c: Container): (r: Option<Happening>)
    ensures r.Some? ==> r.value in world && r.value.who == c
    ensures r.None? <==> forall i :: 0 <= i < |world| ==> world[i].who != c
  {
    if world == [] then None
    else if world[|world| - 1].who == c then Some(world[|world| - 1])
    else
      var r := LastOf(world[..|world| - 1], c);
      assert r.None? ==> forall i :: 0 <= i < |world| ==> world[i].who != c;
      r
  }

  predicate IsDown(world: seq<Happening>, c: Container) {
    LastOf(world, c).Some? && LastOf(world, c).value.Died?
  }

  /** The listing: each known container is inspected at its own moment. */
  function Listing(world: seq<Happening>, order: seq<Container>, labels: map<Container, string>,
                   moment: map<Container, nat>): seq<Listed>
    requires forall c :: c in order ==> c in labels && c in moment && moment[c] <= |world|
  {
    if order == [] then []
    else
      var front := Listing(world, order[..|order| - 1], labels, moment);
      var c := order[|order| - 1];
      var last := LastOf(world[..moment[c]], c);
      if last.None? then front
      else if last.value.Died? then front + [Listed(labels[c], "exited", last.value.code)]
      else front + [Listed(labels[c], "running", 0)]
  }

  /** The event stream since a time: every death at or after it, with no shutdown request. */
  function Stream(world: seq<Happening>, since: nat, labels: map<Container, string>): seq<DieEvent> {
    if world == [] then []
    else
      var h := world[0];
      var rest := Stream(world[1..], since, labels);
      if h.Died? && h.time >= since && h.who in labels then
        [DieEvent(labels[h.who], NatToString(h.code), false)] + rest
      else rest
  }

  /** A service of which some container died with this exit code. */
  ghost predicate DiedWith(world: seq<Happening>, labels: map<Container, string>, service: string, code: int) {
    exists i :: 0 <= i < |world| && world[i].Died? && world[i].who in labels
                && labels[world[i].who] == service && world[i].code == code
  }

  /** The entry at i says that this service has exited. */
  predicate ExitAt(listing: seq<Listed>, service: string, i: nat) {
    && i < |listing| && listing[i].service == service
    && (listing[i].status == "exited" || listing[i].status == "dead")
  }

  ghost predicate ListedExited(listing: seq<Listed>, service: string) {
    exists i: nat :: ExitAt(listing, service, i)
  }

  /** The record is that of the first entry that says so. */
  ghost predicate RecordsEntry(listing: seq<Listed>, service: string, r: ExitRecord, i: nat) {
    && ExitAt(listing, service, i) && (forall j: nat :: j < i ==> !ExitAt(listing, service, j))
    && r == ExitRecord(listing[i].exitCode, listing[i].status)
  }

  ghost predicate ListedAs(listing: seq<Listed>, service: string, r: ExitRecord) {
    exists i: nat :: RecordsEntry(listing, service, r, i)
  }

  lemma ExitsSnoc(listing: seq<Listed>, service: string)
    requires listing != []
    ensures var n := |listing| - 1;
      && (ListedExited(listing, service) <==> ListedExited(listing[..n], service) || ExitAt(listing, service, n))
      && (forall r :: ListedAs(listing[..n], service, r) ==> ListedAs(listing, service, r))
      && (ExitAt(listing, service, n) && !ListedExited(listing[..n], service) ==>
            ListedAs(listing, service, ExitRecord(listing[n].exitCode, listing[n].status)))
  {
    var n := |listing| - 1;
    assert forall i: nat :: i < n ==> (ExitAt(listing[..n], service, i) <==> ExitAt(listing, service, i));
    forall r | ListedAs(listing[..n], service, r)
      ensures ListedAs(listing, service, r)
    {
      var i: nat :| RecordsEntry(listing[..n], service, r, i);
      assert RecordsEntry(listing, service, r, i);
    }
    if ExitAt(listing, service, n) && !ListedExited(listing[..n], service) {
      assert RecordsEntry(listing, service, ExitRecord(listing[n].exitCode, listing[n].status), n);
    }
  }

  /** After the listing a service is recorded exactly when it is watched and listed as exited or dead, with the
      exit code and the status of its first such entry. */
  lemma {:induction false} ListingRecord(watch: set<string>, listing: seq<Listed>, service: string)
    ensures service in FromListing(watch, listing) <==> service in watch && ListedExited(listing, service)
    ensures service in FromListing(watch, listing) ==>
              ListedAs(listing, service, FromListing(watch, listing)[service])
  {
    if listing != [] {
      ListingRecord(watch, listing[..|listing| - 1], service);
      ExitsSnoc(listing, service);
    }
  }

  lemma ListingRecords(watch: set<string>, listing: seq<Listed>)
    ensures FromListing(watch, listing).Keys <= watch
    ensures forall s :: s in FromListing(watch, listing) <==> s in watch && ListedExited(listing, s)
    ensures forall s :: s in FromListing(watch, listing) ==> ListedAs(listing, s, FromListing(watch, listing)[s])
  {
    forall s
      ensures s in FromListing(watch, listing) <==> s in watch && ListedExited(listing, s)
      ensures s in FromListing(watch, listing) ==> ListedAs(listing, s, FromListing(watch, listing)[s])
    {
      ListingRecord(watch, listing, s);
    }
  }

  /** The first event of a service. */
  ghost predicate FirstEventAt(events: seq<DieEvent>, service: string, i: nat) {
    i < |events| && events[i].service == service && forall j :: 0 <= j < i ==> events[j].service != service
  }

  /** The exit code is the number given, or -1, and the status is "exited". */
  ghost predicate RecordsEvent(r: ExitRecord, e: DieEvent) {
    && r.status == "exited"
    && r.code == if IsNumeral(e.rawCode) then StringToNat(e.rawCode) else -1
  }

  ghost predicate EventAs(events: seq<DieEvent>, service: string, r: ExitRecord) {
    exists i: nat :: FirstEventAt(events, service, i) && RecordsEvent(r, events[i])
  }

  lemma EventAsCons(events: seq<DieEvent>, service: string, r: ExitRecord)
    requires events != [] && events[0].service != service && EventAs(events[1..], service, r)
    ensures EventAs(events, service, r)
  {
    var i: nat :| FirstEventAt(events[1..], service, i) && RecordsEvent(r, events[1..][i]);
    assert forall j :: 0 < j <= i ==> events[j] == events[1..][j - 1];
    assert FirstEventAt(events, service, i + 1);
  }

  /** Events only add records, and unless a shutdown cuts it short, every watched service that has
      an event is recorded, as its first event says. */
  lemma {:induction false} EventRecords(watch: set<string>, info: map<string, ExitRecord>, events: seq<DieEvent>)
    requires info.Keys <= watch && forall i :: 0 <= i < |events| ==> !events[i].shutdown
    ensures var after := FromEvents(watch, info, events);
      && info.Keys <= after.Keys <= watch
      && (forall s :: s in info ==> after[s] == info[s])
      && (forall i :: 0 <= i < |events| && events[i].service in watch ==> events[i].service in after)
      && (forall s :: s in after && s !in info ==> EventAs(events, s, after[s]))
    decreases |events|
  {
    if events != [] && !(watch <= info.Keys) {
      var e := events[0];
      var next := if e.service in watch && e.service !in info
                  then info[e.service := ExitRecord(CodeOf(e.rawCode), "exited")] else info;
      EventRecords(watch, next, events[1..]);
      var after := FromEvents(watch, info, events);
      forall i | 0 <= i < |events| && events[i].service in watch
        ensures events[i].service in after
      {
        if i > 0 {
          assert events[1..][i - 1] == events[i];
        }
      }
      forall s | s in after && s !in info
        ensures EventAs(events, s, after[s])
      {
        if s == e.service {
          assert FirstEventAt(events, s, 0) && RecordsEvent(after[s], events[0]);
        } else {
          EventAsCons(events, s, after[s]);
        }
      }
    }
  }

  /** A shutdown ends it all: the event at which it is seen, and all after it, count for nothing. */
  lemma {:induction false} ShutdownEnds(watch: set<string>, info: map<string, ExitRecord>, events: seq<DieEvent>,
                                        i: nat)
    requires i < |events| && events[i].shutdown
    ensures FromEvents(watch, info, events) == FromEvents(watch, info, events[..i])
    decreases |events|
  {
    if i > 0 && !(watch <= info.Keys) && !events[0].shutdown {
      var e := events[0];
      var next := if e.service in watch && e.service !in info
                  then info[e.service := ExitRecord(CodeOf(e.rawCode), "exited")] else info;
      ShutdownEnds(watch, next, events[1..], i - 1);
      assert events[..i][1..] == events[1..][..i - 1];
    }
  }

  /** The events of a stream are real deaths, and no shutdown is requested. */
  lemma {:induction false} StreamIsReal(world: seq<Happening>, since: nat, labels: map<Container, string>, i: nat)
    requires i < |Stream(world, since, labels)|
    ensures var e := Stream(world, since, labels)[i];
            !e.shutdown && DiedWith(world, labels, e.service, CodeOf(e.rawCode))
    decreases |world|
  {
    var h, rest := world[0], Stream(world[1..], since, labels);
    var added := h.Died? && h.time >= since && h.who in labels;
    if added && i == 0 {
      DecimalRoundTrip(h.code);
      assert world[0].Died?;
    } else {
      var j := if added then i - 1 else i;
      StreamIsReal(world[1..], since, labels, j);
      DiedInTail(world, labels, rest[j].service, CodeOf(rest[j].rawCode));
    }
  }

  lemma DiedInTail(world: seq<Happening>, labels: map<Container, string>, service: string, code: int)
    requires world != [] && DiedWith(world[1..], labels, service, code)
    ensures DiedWith(world, labels, service, code)
  {
    var i :| 0 <= i < |world[1..]| && world[1..][i].Died? && world[1..][i].who in labels
             && labels[world[1..][i].who] == service && world[1..][i].code == code;
    assert world[i + 1] == world[1..][i];
  }

  lemma StreamIsCalm(world: seq<Happening>, since: nat, labels: map<Container, string>)
    ensures forall i :: 0 <= i < |Stream(world, since, labels)| ==> !Stream(world, since, labels)[i].shutdown
  {
    forall i | 0 <= i < |Stream(world, since, labels)|
      ensures !Stream(world, since, labels)[i].shutdown
    {
      StreamIsReal(world, since, labels, i);
    }
  }

  /** Every death since the timestamp is in the stream. */
  lemma {:induction false} StreamCovers(world: seq<Happening>, since: nat, labels: map<Container, string>, k: nat)
    returns (i: nat)
    requires k < |world| && world[k].Died? && world[k].time >= since && world[k].who in labels
    ensures i < |Stream(world, since, labels)| && Stream(world, since, labels)[i].service == labels[world[k].who]
    decreases |world|
  {
    if k == 0 {
      i := 0;
    } else {
      var j := StreamCovers(world[1..], since, labels, k - 1);
      var h := world[0];
      i := if h.Died? && h.time >= since && h.who in labels then j + 1 else j;
    }
  }

  /** A container that is down when it is inspected is listed as exited. */
  lemma {:induction false} DownIsListed(world: seq<Happening>, order: seq<Container>, labels: map<Container, string>,
                                        moment: map<Container, nat>, c: Container)
    requires forall d :: d in order ==> d in labels && d in moment && moment[d] <= |world|
    requires c in order && IsDown(world[..moment[c]], c)
    ensures ListedExited(Listing(world, order, labels, moment), labels[c])
  {
    var n := |order| - 1;
    var all, front := Listing(world, order, labels, moment), Listing(world, order[..n], labels, moment);
    if c == order[n] {
      assert ExitAt(all, labels[c], |all| - 1);
    } else {
      DownIsListed(world, order[..n], labels, moment, c);
      if |front| < |all| {
        assert all[..|all| - 1] == front;
        ExitsSnoc(all, labels[c]);
      }
    }
  }

  /** A service listed as exited did die, with the listed exit code. */
  lemma {:induction false} ListedIsReal(world: seq<Happening>, order: seq<Container>, labels: map<Container, string>,
                                        moment: map<Container, nat>, i: nat)
    requires forall d :: d in order ==> d in labels && d in moment && moment[d] <= |world|
    requires i < |Listing(world, order, labels, moment)| && HasExited(Listing(world, order, labels, moment)[i].status)
    ensures DiedWith(world, labels, Listing(world, order, labels, moment)[i].service,
                     Listing(world, order, labels, moment)[i].exitCode)
  {
    var n := |order| - 1;
    var all, front := Listing(world, order, labels, moment), Listing(world, order[..n], labels, moment);
    if i < |front| {
      assert all[i] == front[i];
      ListedIsReal(world, order[..n], labels, moment, i);
    } else {
      var c := order[n];
      var h := LastOf(world[..moment[c]], c).value;
      var k :| 0 <= k < |world[..moment[c]]| && world[..moment[c]][k] == h;
      assert world[k] == h;
    }
  }

  /** The last happening of c comes at or after a position, or was already the last one there. */
  lemma {:induction false} LastOfLater(world: seq<Happening>, c: Container, p: nat) returns (k: nat)
    requires p <= |world| && LastOf(world, c).Some?
    ensures k < |world| && world[k] == LastOf(world, c).value && (k >= p || LastOf(world[..p], c) == LastOf(world, c))
    decreases |world|
  {
    var n := |world| - 1;
    if p == |world| {
      assert world[..p] == world;
      k :| 0 <= k < |world| && world[k] == LastOf(world, c).value;
    } else if world[n].who == c {
      k := n;
    } else {
      assert world[..n][..p] == world[..p];
      k := LastOfLater(world[..n], c, p);
    }
  }

  /** The records the sidecar ends with, in a world it observes without failures. */
  function Observed(watch: set<string>, world: seq<Happening>, order: seq<Container>, labels: map<Container, string>,
                    moment: map<Container, nat>, since: nat): map<string, ExitRecord>
    requires forall c :: c in order ==> c in labels && c in moment && moment[c] <= |world|
  {
    FromEvents(watch, FromListing(watch, Listing(world, order, labels, moment)), Stream(world, since, labels))
  }

  /** Main result: the timestamp is taken first (from position `taken` on, nothing happens before it),
      each container is inspected later, the stream reports every death since the timestamp.
      Then a watched service with a container that is down in the end is always recorded, however
      its deaths and restarts fall between timestamp, inspection and subscription. */
  lemma NoFinalExitMissed(watch: set<string>, world: seq<Happening>, order: seq<Container>,
                          labels: map<Container, string>,
                          moment: map<Container, nat>, taken: nat, since: nat, c: Container)
    requires forall d :: d in order ==> d in labels && d in moment && taken <= moment[d] <= |world|
    requires forall i :: taken <= i < |world| ==> world[i].time >= since
    requires c in order && labels[c] in watch && IsDown(world, c)
    ensures labels[c] in Observed(watch, world, order, labels, moment, since)
  {
    var listing := Listing(world, order, labels, moment);
    var stream := Stream(world, since, labels);
    ListingRecords(watch, listing);
    StreamIsCalm(world, since, labels);
    EventRecords(watch, FromListing(watch, listing), stream);
    var k := LastOfLater(world, c, moment[c]);
    if k < moment[c] {
      DownIsListed(world, order, labels, moment, c);
    } else {
      var i := StreamCovers(world, since, labels, k);
    }
  }

  /** And nothing is made up: a recorded service did die, with the recorded exit code; so ready is
      signalled only after every watched service has exited at least once. */
  lemma RecordsAreReal(watch: set<string>, world: seq<Happening>, order: seq<Container>, labels: map<Container, string>,
                       moment: map<Container, nat>, since: nat, service: string)
    requires forall d :: d in order ==> d in labels && d in moment && moment[d] <= |world|
    requires service in Observed(watch, world, order, labels, moment, since)
    ensures service in watch
    ensures DiedWith(world, labels, service, Observed(watch, world, order, labels, moment, since)[service].code)
  {
    var listing := Listing(world, order, labels, moment);
    var stream := Stream(world, since, labels);
    ListingRecords(watch, listing);
    StreamIsCalm(world, since, labels);
    EventRecords(watch, FromListing(watch, listing), stream);
    if service in FromListing(watch, listing) {
      var i: nat :| RecordsEntry(listing, service, FromListing(watch, listing)[service], i);
      ListedIsReal(world, order, labels, moment, i);
    } else {
      var record := Observed(watch, world, order, labels, moment, since)[service];
      var i: nat :| FirstEventAt(stream, service, i) && RecordsEvent(record, stream[i]);
      StreamIsReal(world, since, labels, i);
    }
  }

  /** If in the end every watched service has a container that is down, ready is signalled. */
  lemma AllDownMeansReady(watch: set<string>, world: seq<Happening>, order: seq<Container>,
                          labels: map<Container, string>,
                          moment: map<Container, nat>, taken: nat, since: nat)
    requires forall d :: d in order ==> d in labels && d in moment && taken <= moment[d] <= |world|
    requires forall i :: taken <= i < |world| ==> world[i].time >= since
    requires forall s :: s in watch ==> exists c :: c in order && labels[c] == s && IsDown(world, c)
    ensures watch <= Observed(watch, world, order, labels, moment, since).Keys
  {
    forall s | s in watch
      ensures s in Observed(watch, world, order, labels, moment, since)
    {
      var c :| c in order && labels[c] == s && IsDown(world, c);
      NoFinalExitMissed(watch, world, order, labels, moment, taken, since, c);
    }
  }
}
