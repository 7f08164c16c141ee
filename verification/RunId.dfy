/** `normalize_run_id` of oss_crs/src/utils.py. Lower-casing and hashing are parameters: `lower` may
    do anything to text that is not already clean, and `hash` stands for the first six hexadecimal
    digits of SHA-256. */
module RunId {
  import opened Outcomes
  import opened Text

  /** The class [a-z0-9_-]. */
  predicate IsKept(c: char) {
    'a' <= c <= 'z' || '0' <= c <= '9' || c == '_' || c == '-'
  }

  predicate IsHex(c: char) {
    '0' <= c <= '9' || 'a' <= c <= 'f'
  }

  predicate IsEdge(c: char) {
    c == '-' || c == '_'
  }

  predicate AllKept(s: string) {
    forall i :: 0 <= i < |s| ==> IsKept(s[i])
  }

  predicate NoDoubleDash(s: string) {
    forall i, j :: 0 <= i < |s| && j == i + 1 && j < |s| ==> !(s[i] == '-' && s[j] == '-')
  }

  /** What remains after all replacements: the texts that normalisation hashes. */
  predicate IsClean(s: string) {
    s != "" && AllKept(s) && NoDoubleDash(s) && !IsEdge(s[0]) && !IsEdge(s[|s| - 1])
  }

  ghost predicate IsLower(lower: string -> string) {
    forall s :: AllKept(s) ==> lower(s) == s
  }

  ghost predicate IsHash(hash: string -> string) {
    forall s :: |hash(s)| == 6 && forall i :: 0 <= i < 6 ==> IsHex(hash(s)[i])
  }

  // ----- the replacements -----

  function DropOther(s: string): (r: string)
    ensures |r| <= |s|
  {
    if s != "" && !IsKept(s[0]) then DropOther(s[1..]) else s
  }

  /** Each run of other characters becomes a single dash. */
  function DashOther(s: string): string
    decreases |s|
  {
    if s == "" then ""
    else if IsKept(s[0]) then [s[0]] + DashOther(s[1..])
    else "-" + DashOther(DropOther(s[1..]))
  }

  /** Each run of dashes becomes a single one. */
  function SingleDash(s: string): string {
    if s == "" then ""
    else if |s| > 1 && s[0] == '-' && s[1] == '-' then SingleDash(s[1..])
    else [s[0]] + SingleDash(s[1..])
  }

  function TrimLeft(s: string): string {
    if s != "" && IsEdge(s[0]) then TrimLeft(s[1..]) else s
  }

  /** Dashes and underscores are removed from both ends. */
  function Trim(s: string): string {
    TrimRight(TrimLeft(s))
  }

  function TrimRight(s: string): string {
    if s != "" && IsEdge(s[|s| - 1]) then TrimRight(s[..|s| - 1]) else s
  }

  function Clean(runId: string, lower: string -> string): string {
    Trim(SingleDash(DashOther(lower(Strip(runId)))))
  }

  // ----- the normal form -----

  /** The text ends in a dash and the hash of what stands before it. */
  predicate IsHashed(s: string, hash: string -> string) {
    |s| >= 8 && s[|s| - 7] == '-' && s[|s| - 6..] == hash(s[..|s| - 7])
    && forall i :: |s| - 6 <= i < |s| ==> IsHex(s[i])
  }

  function Hashed(s: string, hash: string -> string): string {
    if IsHashed(s, hash) then s else s + "-" + hash(s)
  }

  datatype RunIdError = NothingLeft

  function NormalizeRunId(runId: string, lower: string -> string, hash: string -> string): Result<string, RunIdError> {
    var cleaned := Clean(runId, lower);
    if cleaned == "" then Failure(NothingLeft) else Success(Hashed(cleaned, hash))
  }

  // ----- the replacements clean -----

  lemma {:induction false} DashOtherKept(s: string)
    ensures AllKept(DashOther(s))
    decreases |s|
  {
    if s != "" {
      if IsKept(s[0]) {
        DashOtherKept(s[1..]);
      } else {
        DashOtherKept(DropOther(s[1..]));
      }
    }
  }

  lemma {:induction false} SingleDashClean(s: string)
    requires AllKept(s)
    ensures var r := SingleDash(s);
      && AllKept(r) && NoDoubleDash(r)
      && (s != "" ==> r != "" && r[0] == s[0])
  {
    if s != "" {
      SingleDashClean(s[1..]);
      var rest := SingleDash(s[1..]);
      if !(|s| > 1 && s[0] == '-' && s[1] == '-') {
        var r := [s[0]] + rest;
        forall i, j | 0 <= i < |r| && j == i + 1 && j < |r|
          ensures !(r[i] == '-' && r[j] == '-')
        {
          if i > 0 {
            assert r[i] == rest[i - 1] && r[j] == rest[j - 1];
          }
        }
      }
    }
  }

  lemma {:induction false} TrimLeftKeeps(s: string)
    requires AllKept(s) && NoDoubleDash(s)
    ensures var r := TrimLeft(s); AllKept(r) && NoDoubleDash(r) && (r != "" ==> !IsEdge(r[0]))
  {
    if s != "" && IsEdge(s[0]) {
      TrimLeftKeeps(s[1..]);
    }
  }

  lemma {:induction false} TrimRightKeeps(s: string)
    requires AllKept(s) && NoDoubleDash(s) && (s != "" ==> !IsEdge(s[0]))
    ensures var r := TrimRight(s); r != "" ==> IsClean(r)
  {
    if s != "" && IsEdge(s[|s| - 1]) {
      TrimRightKeeps(s[..|s| - 1]);
    }
  }

  /** Cleaning yields a clean text or nothing. */
  lemma CleanIsClean(runId: string, lower: string -> string)
    ensures Clean(runId, lower) != "" ==> IsClean(Clean(runId, lower))
  {
    var dashed := DashOther(lower(Strip(runId)));
    DashOtherKept(lower(Strip(runId)));
    SingleDashClean(dashed);
    TrimLeftKeeps(SingleDash(dashed));
    TrimRightKeeps(TrimLeft(SingleDash(dashed)));
  }

  // ----- what the replacements do to any text -----

  /** Lower-case letters, digits, underscores and dashes stay, every other character becomes a dash. */
  function Dashed(s: string): (r: string)
    ensures |r| == |s|
  {
    seq(|s|, i requires 0 <= i < |s| => DashedChar(s[i]))
  }

  function DashedChar(c: char): char {
    if 'a' <= c <= 'z' || '0' <= c <= '9' || c == '_' then c else '-'
  }

  function NonEmpty(pieces: seq<string>): seq<string> {
    if pieces == [] then []
    else (if pieces[0] == "" then [] else [pieces[0]]) + NonEmpty(pieces[1..])
  }

  /** The pieces between dashes that are not empty. */
  function Words(s: string): seq<string> {
    NonEmpty(Split(s, '-'))
  }

  /** r has the words of s with single dashes between them, and starts and ends as s does. */
  predicate IsCollapsed(s: string, r: string) {
    && NoDoubleDash(r) && Words(r) == Words(s)
    && (s == "" <==> r == "") && (s != "" ==> r[0] == s[0] && r[|r| - 1] == s[|s| - 1])
  }

  lemma ConsSame(c: char, x: string, y: string)
    requires SingleDash(x) == SingleDash(y) && (x == "" <==> y == "")
    requires x != "" ==> (x[0] == '-' <==> y[0] == '-')
    ensures SingleDash([c] + x) == SingleDash([c] + y)
  {
    assert ([c] + x)[1..] == x && ([c] + y)[1..] == y;
  }

  lemma DashedCons(s: string)
    requires s != ""
    ensures Dashed(s) == [DashedChar(s[0])] + Dashed(s[1..])
  {
  }

  /** A dash in front absorbs the characters that become dashes. */
  lemma {:induction false} DropAbsorbed(t: string)
    ensures SingleDash("-" + Dashed(t)) == SingleDash("-" + Dashed(DropOther(t)))
  {
    if t != "" && !IsKept(t[0]) {
      DashedCons(t);
      DropAbsorbed(t[1..]);
      assert ("-" + Dashed(t))[1..] == Dashed(t) == "-" + Dashed(t[1..]);
    }
  }

  lemma FirstDashed(s: string)
    ensures s == "" <==> DashOther(s) == ""
    ensures s != "" ==> DashOther(s)[0] == DashedChar(s[0])
  {
  }

  /** Replacing runs, and then single dashes for runs of dashes, is the same as replacing each character. */
  lemma {:induction false} DashOtherMeans(s: string)
    ensures SingleDash(DashOther(s)) == SingleDash(Dashed(s))
    decreases |s|
  {
    if s != "" {
      var rest := if IsKept(s[0]) then s[1..] else DropOther(s[1..]);
      DashOtherMeans(rest);
      FirstDashed(rest);
      DashedCons(s);
      ConsSame(DashedChar(s[0]), DashOther(rest), Dashed(rest));
      if !IsKept(s[0]) {
        DropAbsorbed(s[1..]);
      }
    }
  }

  lemma SplitCons(c: char, x: string)
    ensures Split([c] + x, '-') == if c == '-' then [""] + Split(x, '-')
                                   else [[c] + Split(x, '-')[0]] + Split(x, '-')[1..]
  {
    assert ([c] + x)[1..] == x;
  }

  lemma {:induction false} SingleDashWords(s: string)
    ensures var r := SingleDash(s);
      && Split(r, '-')[0] == Split(s, '-')[0]
      && NonEmpty(Split(r, '-')[1..]) == NonEmpty(Split(s, '-')[1..])
      && (s != "" ==> r != "" && r[0] == s[0] && r[|r| - 1] == s[|s| - 1])
  {
    if s != "" {
      var t := s[1..];
      assert s == [s[0]] + t;
      SingleDashWords(t);
      SplitCons(s[0], t);
      SplitCons(s[0], SingleDash(t));
    }
  }

  /** Runs of dashes become single dashes, and nothing else changes. */
  lemma SingleDashMeans(s: string)
    requires AllKept(s)
    ensures IsCollapsed(s, SingleDash(s))
  {
    SingleDashClean(s);
    SingleDashWords(s);
  }

  predicate AllEdges(s: string) {
    forall i :: 0 <= i < |s| ==> s[i] == '-' || s[i] == '_'
  }

  /** Dashes and underscores are removed at both ends, all of them. */
  ghost predicate IsTrimmed(s: string, r: string) {
    && (exists a, b :: s == a + r + b && AllEdges(a) && AllEdges(b))
    && (r != "" ==> !AllEdges(r[..1]) && !AllEdges(r[|r| - 1..]))
  }

  lemma TrimMeans(s: string)
    ensures IsTrimmed(s, Trim(s))
  {
    var a := LeftEdges(s);
    var b := RightEdges(TrimLeft(s));
    assert s == a + Trim(s) + b;
  }

  lemma {:induction false} LeftEdges(s: string) returns (a: string)
    ensures s == a + TrimLeft(s) && AllEdges(a)
    ensures TrimLeft(s) != "" ==> !IsEdge(TrimLeft(s)[0])
  {
    a := "";
    if s != "" && IsEdge(s[0]) {
      a := LeftEdges(s[1..]);
      a := [s[0]] + a;
    }
  }

  lemma {:induction false} RightEdges(s: string) returns (b: string)
    ensures s == TrimRight(s) + b && AllEdges(b)
    ensures TrimRight(s) != "" ==> TrimRight(s)[0] == s[0] && !IsEdge(TrimRight(s)[|TrimRight(s)| - 1])
  {
    b := "";
    if s != "" && IsEdge(s[|s| - 1]) {
      b := RightEdges(s[..|s| - 1]);
      b := b + [s[|s| - 1]];
    }
  }

  lemma DashedKept(s: string)
    ensures AllKept(Dashed(s))
  {
  }

  /** What cleaning yields for any text: stripped and in lower case, every other character becomes a dash, runs
      of dashes are collapsed, and the edges are trimmed. */
  lemma CleanMeans(runId: string, lower: string -> string) returns (stripped: string, collapsed: string)
    ensures IsStripped(runId, stripped)
    ensures IsCollapsed(Dashed(lower(stripped)), collapsed)
    ensures IsTrimmed(collapsed, Clean(runId, lower))
  {
    stripped := Strip(runId);
    collapsed := SingleDash(Dashed(lower(stripped)));
    StripMeans(runId);
    DashOtherMeans(lower(stripped));
    DashedKept(lower(stripped));
    SingleDashMeans(Dashed(lower(stripped)));
    TrimMeans(collapsed);
  }

  /** The normal form ends in a dash and the hash of what stands before it: this is the cleaned text, or it
      has been appended to that. */
  lemma NormalFormMeans(runId: string, lower: string -> string, hash: string -> string)
    requires IsHash(hash)
    ensures var cleaned, r := Clean(runId, lower), NormalizeRunId(runId, lower, hash);
      && (r.Failure? <==> cleaned == "")
      && (r.Success? ==>
            if exists x :: x != "" && cleaned == x + "-" + hash(x) then r.value == cleaned
            else r.value == cleaned + "-" + hash(cleaned))
  {
    var cleaned := Clean(runId, lower);
    if x :| x != "" && cleaned == x + "-" + hash(x) {
      assert cleaned[..|cleaned| - 7] == x && cleaned[|cleaned| - 6..] == hash(x);
    }
    if IsHashed(cleaned, hash) {
      var x := cleaned[..|cleaned| - 7];
      assert cleaned == x + "-" + hash(x);
    }
  }

  // ----- clean texts are left alone -----

  lemma {:induction false} DashOtherIdle(s: string)
    requires AllKept(s)
    ensures DashOther(s) == s
  {
    if s != "" {
      DashOtherIdle(s[1..]);
      assert s == [s[0]] + s[1..];
    }
  }

  lemma {:induction false} SingleDashIdle(s: string)
    requires NoDoubleDash(s)
    ensures SingleDash(s) == s
  {
    if s != "" {
      SingleDashIdle(s[1..]);
      assert s == [s[0]] + s[1..];
    }
  }

  /** A clean text is cleaned to itself. */
  lemma CleanIsIdle(s: string, lower: string -> string)
    requires IsClean(s) && IsLower(lower)
    ensures Clean(s, lower) == s
  {
    assert IsKept(s[0]) && IsKept(s[|s| - 1]);
    assert Strip(s) == s;
    DashOtherIdle(s);
    SingleDashIdle(s);
    assert Trim(s) == s;
  }

  // ----- idempotence and collisions -----

  /** Appending the hash to a clean text gives a clean text that is recognised as hashed. */
  lemma HashedIsHashed(s: string, hash: string -> string)
    requires IsClean(s) && IsHash(hash)
    ensures IsClean(Hashed(s, hash)) && IsHashed(Hashed(s, hash), hash)
  {
    if !IsHashed(s, hash) {
      var h := hash(s);
      var r := s + "-" + h;
      assert r[..|r| - 7] == s && r[|r| - 6..] == h;
      forall i | |r| - 6 <= i < |r|
        ensures IsHex(r[i])
      {
        assert r[i] == h[i - |s| - 1];
      }
      SuffixKeepsClean(s, h);
    }
  }

  lemma SuffixKeepsClean(s: string, h: string)
    requires IsClean(s) && |h| == 6 && forall i :: 0 <= i < 6 ==> IsHex(h[i])
    ensures IsClean(s + "-" + h)
  {
    var r := s + "-" + h;
    forall i | 0 <= i < |r|
      ensures IsKept(r[i]) && (i > |s| ==> r[i] != '-') && (i < |s| ==> r[i] == s[i])
    {
      assert i > |s| ==> r[i] == h[i - |s| - 1];
    }
    assert r[|r| - 1] == h[5];
  }

  /** Normalising a normalised id changes nothing, for every accepted input and any hash. */
  lemma Idempotent(runId: string, lower: string -> string, hash: string -> string)
    requires IsLower(lower) && IsHash(hash)
    ensures var once := NormalizeRunId(runId, lower, hash);
            once.Success? ==> NormalizeRunId(once.value, lower, hash) == once
  {
    var cleaned := Clean(runId, lower);
    if cleaned != "" {
      CleanIsClean(runId, lower);
      HashedIsHashed(cleaned, hash);
      CleanIsIdle(Hashed(cleaned, hash), lower);
    }
  }

  /** Two ids share a normal form exactly when they are cleaned to the same text, or one text is the
      other with its hash appended, where the other does not end in its own hash already. */
  lemma Collisions(a: string, b: string, lower: string -> string, hash: string -> string)
    requires IsLower(lower) && IsHash(hash)
    requires NormalizeRunId(a, lower, hash).Success? && NormalizeRunId(b, lower, hash).Success?
    ensures NormalizeRunId(a, lower, hash) == NormalizeRunId(b, lower, hash) <==>
              var x, y := Clean(a, lower), Clean(b, lower);
              || x == y
              || (!IsHashed(y, hash) && x == y + "-" + hash(y))
              || (!IsHashed(x, hash) && y == x + "-" + hash(x))
  {
    var x, y := Clean(a, lower), Clean(b, lower);
    CleanIsClean(a, lower);
    CleanIsClean(b, lower);
    HashedIsHashed(x, hash);
    HashedIsHashed(y, hash);
    if !IsHashed(x, hash) && !IsHashed(y, hash) && Hashed(x, hash) == Hashed(y, hash) {
      assert Hashed(x, hash)[..|Hashed(x, hash)| - 7] == x;
      assert Hashed(y, hash)[..|Hashed(y, hash)| - 7] == y;
    }
    assert !IsHashed(y, hash) && x == y + "-" + hash(y) ==> x == Hashed(y, hash) && IsHashed(x, hash);
    assert !IsHashed(x, hash) && y == x + "-" + hash(x) ==> y == Hashed(x, hash) && IsHashed(y, hash);
  }

  /** Such ids exist, whatever the hash: a short id and its own normal form. */
  lemma DifferentIdsCollide(lower: string -> string, hash: string -> string)
    requires IsLower(lower) && IsHash(hash)
    ensures var a, b := "run", "run-" + hash("run");
            a != b && NormalizeRunId(a, lower, hash).Success?
            && NormalizeRunId(a, lower, hash) == NormalizeRunId(b, lower, hash)
  {
    CleanIsIdle("run", lower);
    assert "run" + "-" + hash("run") == "run-" + hash("run");
    Idempotent("run", lower, hash);
  }
}
