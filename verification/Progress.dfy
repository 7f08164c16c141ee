/** The tables behind MultiTaskProgress (oss_crs/src/ui.py) and what relates them to task trees. */
module ProgressBoard {
  import opened Text
  import opened TaskTree
  import opened TaskTreeLaws

  /** The tables shared by all tasks. A missing list is an empty one. */
  datatype Board = Board(
    subtasks: map<Path, seq<Path>>,
    cleanups: map<Path, seq<Path>>,
    funcs: map<Path, Script>,
    statuses: map<Path, Status>)

  function Lookup(lists: map<Path, seq<Path>>, p: Path): seq<Path> {
    if p in lists then lists[p] else []
  }

  /** The list of p, empty if there is none yet, grows by one. */
  function AppendTo(lists: map<Path, seq<Path>>, p: Path, id: Path): map<Path, seq<Path>> {
    lists[p := Lookup(lists, p) + [id]]
  }

  predicate IsPending(b: Board, id: Path) {
    id in b.statuses && b.statuses[id] == Pending
  }

  /** The pending tasks of a list, in order. */
  function TasksOf(ids: seq<Path>, b: Board): seq<Task> {
    if ids == [] then []
    else if IsPending(b, ids[0]) && ids[0] in b.funcs && ids[0] != [] then
      [Task(ids[0][|ids[0]| - 1], b.funcs[ids[0]])] + TasksOf(ids[1..], b)
    else TasksOf(ids[1..], b)
  }

  function PendingSubtasks(b: Board, p: Path): seq<Task> {
    TasksOf(Lookup(b.subtasks, p), b)
  }

  function PendingCleanups(b: Board, p: Path): seq<Task> {
    TasksOf(Lookup(b.cleanups, p), b)
  }

  // ----- well-formed tables -----

  /** Task names are distinct among siblings, for every list a script may build. */
  predicate WellNamed(s: Script, used: set<string>) {
    match s
    case Return(_) => true
    case Raise(_) => true
    case ReturnRun(_) => true
    case Add(name, body, next) => name !in used && WellNamed(body, {}) && WellNamed(next, used + {name})
    case AddCleanup(name, body, next) => name !in used && WellNamed(body, {}) && WellNamed(next, used + {name})
    case Run(_, ifOk, ifFailed) => WellNamed(ifOk, used) && WellNamed(ifFailed, used)
  }

  predicate Known(b: Board, p: Path) {
    p == [] || (p in b.statuses && b.statuses[p] != Pending)
  }

  predicate GoodId(b: Board, p: Path, id: Path) {
    IsChild(p, id) && id in b.statuses && id in b.funcs
  }

  predicate GoodList(b: Board, p: Path, ids: seq<Path>) {
    forall id :: id in ids ==> GoodId(b, p, id)
  }

  predicate DistinctIds(ids: seq<Path>) {
    forall i, j :: 0 <= i < j < |ids| ==> ids[i] != ids[j]
  }

  predicate ParentKnown(b: Board, q: Path) {
    q != [] && Known(b, q[..|q| - 1])
  }

  ghost predicate Valid(b: Board) {
    && (forall p :: GoodList(b, p, Lookup(b.subtasks, p)) && GoodList(b, p, Lookup(b.cleanups, p)))
    && (forall p :: DistinctIds(Lookup(b.subtasks, p) + Lookup(b.cleanups, p)))
    && (forall p :: p in b.subtasks || p in b.cleanups ==> Known(b, p))
    && (forall q :: q in b.statuses ==> ParentKnown(b, q))
    && (forall q :: IsPending(b, q) ==> q in b.funcs && WellNamed(b.funcs[q], {}))
  }

  /** The tasks in progress are exactly those on the path to the current task. */
  ghost predicate InProgressOn(b: Board, current: Path) {
    forall q :: q in b.statuses ==> (b.statuses[q] == InProgress <==> q <= current)
  }

  ghost predicate NamesUsed(b: Board, p: Path, used: set<string>) {
    forall n :: p + [n] in b.statuses ==> n in used
  }

  /** Only lists of tasks under root changed, and only bodies of tasks strictly below it. */
  ghost predicate SameOutside(root: Path, b: Board, b': Board) {
    && (forall p :: !Under(root, false, p) ==>
          Lookup(b.subtasks, p) == Lookup(b'.subtasks, p) && Lookup(b.cleanups, p) == Lookup(b'.cleanups, p))
    && (forall q :: !Under(root, true, q) ==> SameFunc(b, b', q))
  }

  predicate SameFunc(b: Board, b': Board, q: Path) {
    && (q in b.funcs <==> q in b'.funcs)
    && (q in b.funcs ==> b.funcs[q] == b'.funcs[q])
  }

  // ----- steps on the tables -----

  function AddedSubtask(b: Board, p: Path, name: string, body: Script): Board {
    Board(AppendTo(b.subtasks, p, p + [name]), b.cleanups,
          b.funcs[p + [name] := body], b.statuses[p + [name] := Pending])
  }

  function AddedCleanup(b: Board, p: Path, name: string, body: Script): Board {
    Board(b.subtasks, AppendTo(b.cleanups, p, p + [name]),
          b.funcs[p + [name] := body], b.statuses[p + [name] := Pending])
  }

  lemma FreshId(b: Board, p: Path, name: string, used: set<string>)
    requires Valid(b) && NamesUsed(b, p, used) && name !in used
    ensures p + [name] !in b.statuses
    ensures p + [name] !in Lookup(b.subtasks, p) + Lookup(b.cleanups, p)
    ensures !Known(b, p + [name])
  {
    assert GoodList(b, p, Lookup(b.subtasks, p)) && GoodList(b, p, Lookup(b.cleanups, p));
  }

  /** Giving a fresh task a status and a body keeps every list good. */
  lemma GoodListKept(b: Board, b': Board, p: Path, ids: seq<Path>)
    requires GoodList(b, p, ids)
    requires b.statuses.Keys <= b'.statuses.Keys && b.funcs.Keys <= b'.funcs.Keys
    ensures GoodList(b', p, ids)
  {
    forall id | id in ids
      ensures GoodId(b', p, id)
    {
      assert GoodId(b, p, id);
    }
  }

  lemma ChildParent(p: Path, name: string)
    ensures (p + [name])[..|p + [name]| - 1] == p
    ensures IsChild(p, p + [name])
  {
  }

  lemma DistinctAppend(a: seq<Path>, c: seq<Path>, id: Path)
    requires DistinctIds(a + c) && id !in a + c
    ensures DistinctIds(a + [id] + c) && DistinctIds(a + (c + [id]))
  {
    var x := a + [id] + c;
    forall i, j | 0 <= i < j < |x|
      ensures x[i] != x[j]
    {
      var i' := if i < |a| then i else i - 1;
      var j' := if j < |a| then j else j - 1;
      assert i != |a| ==> x[i] == (a + c)[i'];
      assert j != |a| ==> x[j] == (a + c)[j'];
    }
    assert a + (c + [id]) == (a + c) + [id];
  }

  lemma AddedValid(b: Board, b': Board, p: Path, name: string, body: Script, used: set<string>)
    requires Valid(b) && NamesUsed(b, p, used) && name !in used && Known(b, p) && WellNamed(body, {})
    requires b' == AddedSubtask(b, p, name, body) || b' == AddedCleanup(b, p, name, body)
    ensures Valid(b') && NamesUsed(b', p, used + {name})
  {
    var id := p + [name];
    FreshId(b, p, name, used);
    ChildParent(p, name);
    AddedLists(b, b', p, name, body, used);
    AddedKnown(b, b', id);
    forall q | q in b'.statuses
      ensures ParentKnown(b', q)
    {
      assert q != id ==> ParentKnown(b, q);
    }
    forall q | IsPending(b', q)
      ensures q in b'.funcs && WellNamed(b'.funcs[q], {})
    {
      assert q != id ==> IsPending(b, q);
    }
    forall n | p + [n] in b'.statuses
      ensures n in used + {name}
    {
      if n != name {
        assert (p + [n])[|p|] != id[|p|];
      }
    }
  }

  lemma AddedKnown(b: Board, b': Board, id: Path)
    requires !Known(b, id) && b'.statuses == b.statuses[id := Pending]
    ensures forall p :: Known(b, p) ==> Known(b', p)
  {
  }

  lemma AddedLists(b: Board, b': Board, p: Path, name: string, body: Script, used: set<string>)
    requires Valid(b) && NamesUsed(b, p, used) && name !in used && Known(b, p)
    requires b' == AddedSubtask(b, p, name, body) || b' == AddedCleanup(b, p, name, body)
    ensures forall x :: GoodList(b', x, Lookup(b'.subtasks, x)) && GoodList(b', x, Lookup(b'.cleanups, x))
    ensures forall x :: DistinctIds(Lookup(b'.subtasks, x) + Lookup(b'.cleanups, x))
  {
    var id := p + [name];
    FreshId(b, p, name, used);
    ChildParent(p, name);
    assert GoodId(b', p, id);
    forall x
      ensures GoodList(b', x, Lookup(b'.subtasks, x)) && GoodList(b', x, Lookup(b'.cleanups, x))
    {
      GoodListKept(b, b', x, Lookup(b.subtasks, x));
      GoodListKept(b, b', x, Lookup(b.cleanups, x));
    }
    forall x
      ensures DistinctIds(Lookup(b'.subtasks, x) + Lookup(b'.cleanups, x))
    {
      AddedDistinct(b, b', p, id, x);
    }
  }

  lemma AddedDistinct(b: Board, b': Board, p: Path, id: Path, x: Path)
    requires DistinctIds(Lookup(b.subtasks, x) + Lookup(b.cleanups, x))
    requires id !in Lookup(b.subtasks, p) + Lookup(b.cleanups, p)
    requires (b'.subtasks == AppendTo(b.subtasks, p, id) && b'.cleanups == b.cleanups)
          || (b'.subtasks == b.subtasks && b'.cleanups == AppendTo(b.cleanups, p, id))
    ensures DistinctIds(Lookup(b'.subtasks, x) + Lookup(b'.cleanups, x))
  {
    LookupAppended(b.subtasks, p, id, x);
    LookupAppended(b.cleanups, p, id, x);
    if x == p {
      DistinctAppend(Lookup(b.subtasks, x), Lookup(b.cleanups, x), id);
    }
  }

  lemma LookupAppended(lists: map<Path, seq<Path>>, p: Path, id: Path, x: Path)
    ensures Lookup(AppendTo(lists, p, id), x) == if x == p then Lookup(lists, p) + [id] else Lookup(lists, x)
  {
  }

  lemma {:induction false} TasksOfSame(ids: seq<Path>, b: Board, b': Board)
    requires forall id :: id in ids ==> (IsPending(b, id) <==> IsPending(b', id)) && SameFunc(b, b', id)
    ensures TasksOf(ids, b) == TasksOf(ids, b')
  {
    if ids != [] {
      TasksOfSame(ids[1..], b, b');
    }
  }

  lemma {:induction false} TasksOfAppend(ids: seq<Path>, id: Path, b: Board)
    requires IsPending(b, id) && id in b.funcs && id != []
    ensures TasksOf(ids + [id], b) == TasksOf(ids, b) + [Task(id[|id| - 1], b.funcs[id])]
  {
    if ids == [] {
      assert [id][1..] == [];
      assert ids + [id] == [id];
    } else {
      assert (ids + [id])[1..] == ids[1..] + [id];
      TasksOfAppend(ids[1..], id, b);
    }
  }

  /** Non-pending tasks at the front of a list do not matter. */
  lemma {:induction false} TasksOfSuffix(ids: seq<Path>, i: nat, b: Board)
    requires i <= |ids| && forall j :: 0 <= j < i ==> !IsPending(b, ids[j])
    ensures TasksOf(ids, b) == TasksOf(ids[i..], b)
    decreases i
  {
    if i > 0 {
      TasksOfSuffix(ids, i - 1, b);
      assert ids[i - 1..][1..] == ids[i..];
    } else {
      assert ids[0..] == ids;
    }
  }

  /** Adding a task appends it to the pending tasks of its list and changes no other. */
  lemma AddedTasks(b: Board, p: Path, name: string, body: Script, used: set<string>)
    requires Valid(b) && NamesUsed(b, p, used) && name !in used
    ensures var b' := AddedSubtask(b, p, name, body);
      && PendingSubtasks(b', p) == PendingSubtasks(b, p) + [Task(name, body)]
      && PendingCleanups(b', p) == PendingCleanups(b, p)
    ensures var b' := AddedCleanup(b, p, name, body);
      && PendingSubtasks(b', p) == PendingSubtasks(b, p)
      && PendingCleanups(b', p) == PendingCleanups(b, p) + [Task(name, body)]
  {
    FreshId(b, p, name, used);
    var sub, cl := AddedSubtask(b, p, name, body), AddedCleanup(b, p, name, body);
    AddedTo(b, sub, p, name, body, Lookup(b.subtasks, p));
    AddedTo(b, sub, p, name, body, Lookup(b.cleanups, p));
    AddedTo(b, cl, p, name, body, Lookup(b.subtasks, p));
    AddedTo(b, cl, p, name, body, Lookup(b.cleanups, p));
  }

  lemma AddedTo(b: Board, b': Board, p: Path, name: string, body: Script, ids: seq<Path>)
    requires p + [name] !in ids
    requires b'.statuses == b.statuses[p + [name] := Pending] && b'.funcs == b.funcs[p + [name] := body]
    ensures TasksOf(ids, b') == TasksOf(ids, b)
    ensures TasksOf(ids + [p + [name]], b') == TasksOf(ids, b) + [Task(name, body)]
  {
    TasksOfSame(ids, b, b');
    TasksOfAppend(ids, p + [name], b');
  }

  lemma AddedElsewhere(b: Board, p: Path, name: string, body: Script)
    ensures SameOutside(p, b, AddedSubtask(b, p, name, body))
    ensures SameOutside(p, b, AddedCleanup(b, p, name, body))
  {
    ChildIsUnder(p, name);
  }

  lemma SameOutsideTransitive(root: Path, a: Board, b: Board, c: Board)
    requires SameOutside(root, a, b) && SameOutside(root, b, c)
    ensures SameOutside(root, a, c)
  {
    forall q | !Under(root, true, q)
      ensures SameFunc(a, c, q)
    {
      assert SameFunc(a, b, q) && SameFunc(b, c, q);
    }
  }

  lemma SameOutsideWiden(p: Path, name: string, b: Board, b': Board)
    requires SameOutside(p + [name], b, b')
    ensures SameOutside(p, b, b')
  {
    forall q
      ensures Under(p + [name], false, q) ==> Under(p, true, q)
      ensures Under(p + [name], true, q) ==> Under(p, true, q)
    {
      if Under(p + [name], false, q) {
        assert p <= p + [name];
        assert |q| >= |p| + 1;
      }
    }
  }

  /** q is a prefix of p + [name] when it is that path or a prefix of p. */
  lemma PrefixOfChild(p: Path, name: string, q: Path)
    ensures q <= p + [name] <==> q <= p || q == p + [name]
  {
    if q <= p + [name] && q != p + [name] {
      assert |q| <= |p|;
      assert (p + [name])[..|q|] == p[..|q|];
    }
  }

  lemma EntersProgress(b: Board, b': Board, p: Path, name: string)
    requires InProgressOn(b, p) && b'.statuses == b.statuses[p + [name] := InProgress]
    ensures InProgressOn(b', p + [name])
  {
    forall q | q in b'.statuses
      ensures b'.statuses[q] == InProgress <==> q <= p + [name]
    {
      PrefixOfChild(p, name, q);
    }
  }

  lemma LeavesProgress(b: Board, b': Board, p: Path, name: string, status: Status)
    requires InProgressOn(b, p + [name]) && status != InProgress
    requires b'.statuses == b.statuses[p + [name] := status]
    ensures InProgressOn(b', p)
  {
    forall q | q in b'.statuses
      ensures b'.statuses[q] == InProgress <==> q <= p
    {
      PrefixOfChild(p, name, q);
    }
  }

  /** Moving a task on from or past PENDING keeps the tables valid. */
  lemma StatusValid(b: Board, b': Board, id: Path, status: Status)
    requires Valid(b) && id in b.statuses && status != Pending
    requires b' == b.(statuses := b.statuses[id := status])
    ensures Valid(b')
  {
    forall p
      ensures GoodList(b', p, Lookup(b'.subtasks, p)) && GoodList(b', p, Lookup(b'.cleanups, p))
    {
      GoodListKept(b, b', p, Lookup(b.subtasks, p));
      GoodListKept(b, b', p, Lookup(b.cleanups, p));
    }
    forall q | q in b'.statuses
      ensures ParentKnown(b', q)
    {
      assert ParentKnown(b, q);
    }
    forall q | IsPending(b', q)
      ensures q in b'.funcs && WellNamed(b'.funcs[q], {})
    {
      assert IsPending(b, q);
    }
  }

  /** A pending task has no lists and no children yet. */
  lemma PendingIsLeaf(b: Board, id: Path)
    requires Valid(b) && IsPending(b, id)
    ensures id != [] && Lookup(b.subtasks, id) == [] && Lookup(b.cleanups, id) == []
    ensures NamesUsed(b, id, {})
    ensures WellNamed(b.funcs[id], {})
  {
    assert ParentKnown(b, id);
    forall n
      ensures id + [n] !in b.statuses
    {
      ChildParent(id, n);
      assert id + [n] in b.statuses ==> ParentKnown(b, id + [n]);
    }
  }

  // ----- the invariant -----

  /** The tables are well formed, and exactly the tasks on the path to the current one are
      in progress. */
  ghost predicate Ready(b: Board, current: Path) {
    Valid(b) && InProgressOn(b, current) && Known(b, current)
  }

  /** What the adding methods do to the invariant, the pending tasks and the other tasks. */
  lemma AddedReady(b: Board, b': Board, p: Path, name: string, body: Script, used: set<string>)
    requires Ready(b, p) && NamesUsed(b, p, used) && name !in used && WellNamed(body, {})
    requires b' == AddedSubtask(b, p, name, body) || b' == AddedCleanup(b, p, name, body)
    ensures Ready(b', p) && NamesUsed(b', p, used + {name}) && SameOutside(p, b, b')
    ensures b' == AddedSubtask(b, p, name, body) ==>
              PendingSubtasks(b', p) == PendingSubtasks(b, p) + [Task(name, body)]
              && PendingCleanups(b', p) == PendingCleanups(b, p)
    ensures b' == AddedCleanup(b, p, name, body) ==>
              PendingSubtasks(b', p) == PendingSubtasks(b, p)
              && PendingCleanups(b', p) == PendingCleanups(b, p) + [Task(name, body)]
  {
    AddedValid(b, b', p, name, body, used);
    AddedTasks(b, p, name, body, used);
    AddedElsewhere(b, p, name, body);
    FreshId(b, p, name, used);
    AddedKnown(b, b', p + [name]);
    AddedProgress(b, b', p, name);
  }

  lemma AddedProgress(b: Board, b': Board, p: Path, name: string)
    requires InProgressOn(b, p) && b'.statuses == b.statuses[p + [name] := Pending]
    ensures InProgressOn(b', p)
  {
    ChildIsUnder(p, name);
    assert !(p + [name] <= p);
  }

  // ----- task identifiers as text -----

  /** The identifier that add_task builds: the parent's identifier, a slash, the name. */
  function TaskId(p: Path): string
    requires p != []
  {
    if |p| == 1 then p[0]
    else
      var parent := TaskId(p[..|p| - 1]);
      if parent != "" then parent + "/" + p[|p| - 1] else p[|p| - 1]
  }

  lemma {:induction false} JoinSnoc(pieces: seq<string>, last: string, sep: char)
    requires pieces != []
    ensures Join(pieces + [last], sep) == Join(pieces, sep) + [sep] + last
  {
    if |pieces| == 1 {
      assert (pieces + [last])[1..] == [last];
    } else {
      assert (pieces + [last])[1..] == pieces[1..] + [last];
      JoinSnoc(pieces[1..], last, sep);
    }
  }

  /** The path without its leading empty names; the last name stays. An empty identifier counts as
      none when a child's identifier is built. */
  function Effective(p: Path): (e: Path)
    requires p != []
    ensures e != [] && (|e| > 1 ==> e[0] != "")
  {
    if |p| > 1 && p[0] == "" then Effective(p[1..]) else p
  }

  lemma {:induction false} EffectiveSnoc(front: Path, last: string)
    requires front != []
    ensures Effective(front + [last]) == if Effective(front) == [""] then [last] else Effective(front) + [last]
  {
    assert (front + [last])[1..] == front[1..] + [last];
    if |front| == 1 {
      assert front[1..] + [last] == [last];
    } else if front[0] == "" {
      EffectiveSnoc(front[1..], last);
    }
  }

  lemma {:induction false} TaskIdIsJoin(p: Path)
    requires p != []
    ensures TaskId(p) == Join(Effective(p), '/')
    ensures TaskId(p) == "" <==> Effective(p) == [""]
  {
    if |p| > 1 {
      var front, last := p[..|p| - 1], p[|p| - 1];
      TaskIdIsJoin(front);
      assert p == front + [last];
      EffectiveSnoc(front, last);
      if Effective(front) != [""] {
        JoinSnoc(Effective(front), last, '/');
      }
    }
  }

  /** The pieces between slashes of all the names. */
  function Segments(names: seq<string>): (pieces: seq<string>)
    ensures names != [] ==> pieces != []
  {
    if names == [] then [] else Split(names[0], '/') + Segments(names[1..])
  }

  lemma {:induction false} JoinConcat(x: seq<string>, y: seq<string>)
    requires x != [] && y != []
    ensures Join(x + y, '/') == Join(x, '/') + "/" + Join(y, '/')
  {
    if |x| == 1 {
      assert (x + y)[1..] == y;
    } else {
      assert (x + y)[1..] == x[1..] + y;
      JoinConcat(x[1..], y);
    }
  }

  lemma {:induction false} JoinSegments(names: seq<string>)
    requires names != []
    ensures Join(Segments(names), '/') == Join(names, '/')
    ensures forall i :: 0 <= i < |Segments(names)| ==> Without(Segments(names)[i], '/')
  {
    JoinSplit(names[0], '/');
    if |names| == 1 {
      assert Segments(names[1..]) == [];
      assert Segments(names) == Split(names[0], '/');
    } else {
      JoinSegments(names[1..]);
      JoinConcat(Split(names[0], '/'), Segments(names[1..]));
    }
  }

  /** Exactly when two tasks share an identifier: their paths, without leading empty names, have the
      same pieces between slashes. */
  lemma SameTaskId(p: Path, q: Path)
    requires p != [] && q != []
    ensures TaskId(p) == TaskId(q) <==> Segments(Effective(p)) == Segments(Effective(q))
  {
    TaskIdIsJoin(p);
    TaskIdIsJoin(q);
    JoinSegments(Effective(p));
    JoinSegments(Effective(q));
    SplitJoin(Segments(Effective(p)), '/');
    SplitJoin(Segments(Effective(q)), '/');
  }

  /** Siblings share an identifier only if they share their name, whatever the names contain. */
  lemma SiblingIds(parent: Path, a: string, b: string)
    ensures TaskId(parent + [a]) == TaskId(parent + [b]) <==> a == b
  {
    assert (parent + [a])[..|parent|] == parent && (parent + [b])[..|parent|] == parent;
    if parent != [] && TaskId(parent) != "" {
      var prefix := TaskId(parent) + "/";
      assert (prefix + a)[|prefix|..] == a && (prefix + b)[|prefix|..] == b;
    }
  }

  predicate PlainNames(p: Path) {
    forall i :: 0 <= i < |p| ==> p[i] != "" && Without(p[i], '/')
  }

  lemma {:induction false} PlainSegments(names: seq<string>)
    requires PlainNames(names)
    ensures Segments(names) == names
  {
    if names != [] {
      SplitWithout(names[0], '/');
      PlainSegments(names[1..]);
      assert names == [names[0]] + names[1..];
    }
  }

  /** Among tasks whose names are neither empty nor contain a slash, identifiers are as good as paths. */
  lemma TaskIdInjective(p: Path, q: Path)
    requires p != [] && q != [] && PlainNames(p) && PlainNames(q) && TaskId(p) == TaskId(q)
    ensures p == q
  {
    SameTaskId(p, q);
    PlainSegments(p);
    PlainSegments(q);
  }

  /** Different tasks that share an identifier: one has a slash in its name, or an empty name leads. */
  lemma TaskIdClash()
    ensures TaskId(["a/b"]) == TaskId(["a", "b"]) && ["a/b"] != ["a", "b"]
    ensures TaskId(["", "a"]) == TaskId(["a"]) && ["", "a"] != ["a"]
  {
    assert ["a", "b"][..1] == ["a"] && ["", "a"][..1] == [""];
    assert TaskId(["a"]) == "a" && TaskId([""]) == "";
    assert |["a/b"]| == 1 && |["a"]| == 1;
  }
}
