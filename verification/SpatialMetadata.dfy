/** Comparing a manifest with spatial metadata: one merge over both sorted lists. */
module SpatialMetadata {
  import opened Options
  import opened KeyOrder
  import opened ManifestCheck
  import opened CoarseCells

  const VERSION: nat := 1
  const MAX_ISSUES: nat := 64
  const MAX_UNITS: nat := 65_536
  const MAX_SPACE_BYTES: nat := 64

  datatype Content = Content(key: string, digest: string, space: string, bounds: Option<Bounds>)

  datatype Unit = Unit(key: string, digest: string, space: string, bounds: Bounds)

  datatype Code =
    | UnsupportedVersion | NamespaceMismatch | ResourceLimit | InvalidManifest
    | InvalidMetadata | UnknownUnit | ContentMismatch | SpaceMismatch
    | MissingManifestBounds | UnderboundedManifest | MissingMetadata

  datatype Issue = Issue(key: string, code: Code)

  datatype Status = Compatible | Incomplete | Rejected

  datatype Report = Report(status: Status, spatial: nat, compatible: nat, unverified: nat, rejected: nat,
                           truncated: bool, issues: seq<Issue>)

  predicate Contains(outer: Bounds, inner: Bounds) {
    forall a :: 0 <= a < 3 ==> outer.minimum[a] <= inner.minimum[a] && outer.maximum[a] >= inner.maximum[a]
  }

  function KeyOrBlank(key: string): string {
    if ValidKey(key) then key else ""
  }

  /** Notes an issue: counted when it rejects a record, kept only while there is room. */
  function Note(r: Report, key: string, code: Code, rejects: bool): Report {
    var counted := if rejects then r.(rejected := r.rejected + 1) else r;
    if |r.issues| == MAX_ISSUES then counted.(truncated := true)
    else counted.(issues := r.issues + [Issue(KeyOrBlank(key), code)])
  }

  // The reference: look every key up on its own.

  function Find(entries: seq<Content>, key: string): Option<Content> {
    if entries == [] then None
    else if entries[0].key == key then Some(entries[0])
    else Find(entries[1..], key)
  }

  /** What is wrong with a unit, if anything. */
  function UnitIssue(entries: seq<Content>, u: Unit): Option<Code> {
    var found := Find(entries, u.key);
    if found.None? then Some(UnknownUnit) else PairIssue(found.value, u)
  }

  function PairIssue(e: Content, u: Unit): Option<Code> {
    if u.digest != e.digest then Some(ContentMismatch)
    else if u.space != e.space then Some(SpaceMismatch)
    else if e.bounds.None? then Some(MissingManifestBounds)
    else if !Contains(e.bounds.value, u.bounds) then Some(UnderboundedManifest)
    else None
  }

  /** One volume contains another exactly when it contains each of its points. */
  lemma ContainsEveryPoint(outer: Bounds, inner: Bounds)
    requires BoundsValid(inner)
    ensures Contains(outer, inner) <==> forall p: Vector :: Holds(inner, p) ==> Holds(outer, p)
  {
    if Contains(outer, inner) {
      forall p: Vector | Holds(inner, p) ensures Holds(outer, p) {}
    } else {
      assert Holds(inner, inner.minimum) && Holds(inner, inner.maximum);
      assert !Holds(outer, inner.minimum) || !Holds(outer, inner.maximum);
    }
  }

  /** The entry of the unit's key, which it is judged by. */
  ghost predicate Listed(entries: seq<Content>, u: Unit, e: Content) {
    e in entries && e.key == u.key
  }

  /** Which code a unit gets: the first of these that applies to the entry of its key. */
  lemma CodeMeans(entries: seq<Content>, u: Unit)
    requires ContentOrder(entries) && BoundsValid(u.bounds)
    ensures UnitIssue(entries, u) == Some(UnknownUnit) <==> forall e :: !Listed(entries, u, e)
    ensures UnitIssue(entries, u) == Some(ContentMismatch)
            <==> exists e :: Listed(entries, u, e) && e.digest != u.digest
    ensures UnitIssue(entries, u) == Some(SpaceMismatch) <==>
            exists e :: Listed(entries, u, e) && e.digest == u.digest && e.space != u.space
    ensures UnitIssue(entries, u) == Some(MissingManifestBounds) <==>
            exists e :: Listed(entries, u, e) && e.digest == u.digest && e.space == u.space && e.bounds.None?
    ensures UnitIssue(entries, u) == Some(UnderboundedManifest) <==>
            exists e, p: Vector :: Listed(entries, u, e) && e.digest == u.digest && e.space == u.space
                                   && e.bounds.Some? && Holds(u.bounds, p) && !Holds(e.bounds.value, p)
    ensures UnitIssue(entries, u) == None <==>
            exists e :: Listed(entries, u, e) && e.digest == u.digest && e.space == u.space && e.bounds.Some?
                        && forall p: Vector :: Holds(u.bounds, p) ==> Holds(e.bounds.value, p)
  {
    hide Contains, Holds, BoundsValid;
    if e :| Listed(entries, u, e) {
      var a: nat :| a < |entries| && entries[a] == e;
      FindListed(entries, a);
      forall f | Listed(entries, u, f) ensures f == e {
        var b: nat :| b < |entries| && entries[b] == f;
        FindListed(entries, b);
      }
      if e.bounds.Some? {
        ContainsEveryPoint(e.bounds.value, u.bounds);
      }
    } else {
      forall a: nat | a < |entries| ensures entries[a].key != u.key {
        assert !Listed(entries, u, entries[a]);
      }
      FindUnlisted(entries, u.key);
    }
  }

  ghost predicate HasUnit(units: seq<Unit>, key: string) {
    exists k: nat :: k < |units| && units[k].key == key
  }

  ghost predicate Unverified(e: Content, units: seq<Unit>) {
    e.bounds.Some? && !HasUnit(units, e.key)
  }

  function CompatibleCount(entries: seq<Content>, units: seq<Unit>, n: nat): (c: nat)
    requires n <= |units|
    ensures c <= n
  {
    if n == 0 then 0
    else
      CompatibleCount(entries, units, n - 1)
      + (if UnitIssue(entries, units[n - 1]).None? then 1 else 0)
  }

  ghost function UnverifiedCount(entries: seq<Content>, units: seq<Unit>, n: nat): nat
    requires n <= |entries|
  {
    if n == 0 then 0 else UnverifiedCount(entries, units, n - 1) + (if Unverified(entries[n - 1], units) then 1 else 0)
  }

  function SpatialCount(entries: seq<Content>, n: nat): nat
    requires n <= |entries|
  {
    if n == 0 then 0 else SpatialCount(entries, n - 1) + (if entries[n - 1].bounds.Some? then 1 else 0)
  }

  lemma {:induction false} AllCompatible(entries: seq<Content>, units: seq<Unit>, n: nat)
    requires n <= |units|
    ensures CompatibleCount(entries, units, n) == n <==> forall k: nat :: k < n ==> UnitIssue(entries, units[k]).None?
  {
    if n > 0 {
      AllCompatible(entries, units, n - 1);
    }
  }

  lemma {:induction false} NoneUnverified(entries: seq<Content>, units: seq<Unit>, n: nat)
    requires n <= |entries|
    ensures UnverifiedCount(entries, units, n) == 0 <==> forall k: nat :: k < n ==> !Unverified(entries[k], units)
  {
    if n > 0 {
      NoneUnverified(entries, units, n - 1);
    }
  }

  // Order.

  ghost predicate ContentOrder(entries: seq<Content>) {
    forall a: nat, b: nat :: a < b < |entries| ==> Less(entries[a].key, entries[b].key)
  }

  ghost predicate UnitOrder(units: seq<Unit>) {
    forall a: nat, b: nat :: a < b < |units| ==> Less(units[a].key, units[b].key)
  }

  lemma {:induction false} FindListed(entries: seq<Content>, a: nat)
    requires ContentOrder(entries) && a < |entries|
    ensures Find(entries, entries[a].key) == Some(entries[a])
  {
    if a > 0 {
      LessIrreflexive(entries[a].key);
      assert Less(entries[0].key, entries[a].key);
      FindListed(entries[1..], a - 1);
    }
  }

  lemma {:induction false} FindUnlisted(entries: seq<Content>, key: string)
    requires forall a: nat :: a < |entries| ==> entries[a].key != key
    ensures Find(entries, key) == None
  {
    if entries != [] {
      FindUnlisted(entries[1..], key);
    }
  }

  // The merge in progress: `i` entries and `j` units are done.

  /** Everything done lies before everything still to come. */
  ghost predicate Frontier(entries: seq<Content>, units: seq<Unit>, i: nat, j: nat) {
    && i <= |entries| && j <= |units|
    && (forall a: nat, b: nat :: a < i && j <= b < |units| ==> Less(entries[a].key, units[b].key))
    && (forall a: nat, b: nat :: i <= a < |entries| && b < j ==> Less(units[b].key, entries[a].key))
  }

  ghost predicate Counted(entries: seq<Content>, units: seq<Unit>, i: nat, j: nat, r: Report)
    requires i <= |entries| && j <= |units|
  {
    && r.compatible == CompatibleCount(entries, units, j) && r.compatible + r.rejected == j
    && r.spatial == SpatialCount(entries, i) && r.unverified == UnverifiedCount(entries, units, i)
  }

  /** `all` is every issue so far, in ascending key order; the report keeps the first of them. */
  ghost predicate Kept(r: Report, all: seq<Issue>) {
    && r.issues == (if |all| <= MAX_ISSUES then all else all[..MAX_ISSUES])
    && (r.truncated <==> |all| > MAX_ISSUES)
  }

  ghost predicate FromUnit(entries: seq<Content>, units: seq<Unit>, j: nat, x: Issue)
    requires j <= |units|
  {
    exists b: nat :: b < j && x.key == units[b].key && UnitIssue(entries, units[b]) == Some(x.code)
  }

  ghost predicate FromEntry(entries: seq<Content>, units: seq<Unit>, i: nat, x: Issue)
    requires i <= |entries|
  {
    exists a: nat :: a < i && x.key == entries[a].key && Unverified(entries[a], units) && x.code == MissingMetadata
  }

  ghost predicate IssueOrder(all: seq<Issue>) {
    forall a: nat, b: nat :: a < b < |all| ==> Less(all[a].key, all[b].key)
  }

  ghost predicate Complete(entries: seq<Content>, units: seq<Unit>, i: nat, j: nat, all: seq<Issue>)
    requires i <= |entries| && j <= |units|
  {
    IssueOrder(all) && forall x :: x in all <==> FromUnit(entries, units, j, x) || FromEntry(entries, units, i, x)
  }

  lemma NoteKept(r: Report, all: seq<Issue>, key: string, code: Code, rejects: bool)
    requires Kept(r, all) && ValidKey(key)
    ensures Kept(Note(r, key, code, rejects), all + [Issue(key, code)])
  {
    hide ValidKey;
  }

  lemma FromUnitNext(entries: seq<Content>, units: seq<Unit>, j: nat, x: Issue)
    requires j < |units|
    ensures FromUnit(entries, units, j + 1, x)
            <==> FromUnit(entries, units, j, x)
                 || (x.key == units[j].key && UnitIssue(entries, units[j]) == Some(x.code))
  {
    hide UnitIssue;
  }

  lemma FromEntryNext(entries: seq<Content>, units: seq<Unit>, i: nat, x: Issue)
    requires i < |entries|
    ensures FromEntry(entries, units, i + 1, x)
            <==> FromEntry(entries, units, i, x)
                 || (x.key == entries[i].key && Unverified(entries[i], units) && x.code == MissingMetadata)
  {
    hide Unverified;
  }

  /** Issues so far are about keys that are done. */
  lemma IssuesBehind(entries: seq<Content>, units: seq<Unit>, i: nat, j: nat, all: seq<Issue>, key: string)
    requires Frontier(entries, units, i, j) && Complete(entries, units, i, j, all)
    requires ContentOrder(entries) && UnitOrder(units)
    requires (j < |units| && key == units[j].key) || (i < |entries| && key == entries[i].key)
    ensures forall a: nat :: a < |all| ==> Less(all[a].key, key)
  {
    hide Less, Unverified, UnitIssue;
    forall a: nat | a < |all| ensures Less(all[a].key, key) {
      assert all[a] in all;
    }
  }

  lemma OrderAppend(all: seq<Issue>, x: Issue)
    requires IssueOrder(all) && forall a: nat :: a < |all| ==> Less(all[a].key, x.key)
    ensures IssueOrder(all + [x])
  {
    hide Less;
  }

  /** A unit's own issue, if it has one, is appended when the unit is done. */
  lemma CompleteUnit(entries: seq<Content>, units: seq<Unit>, i: nat, j: nat, all: seq<Issue>)
    requires Frontier(entries, units, i, j) && Complete(entries, units, i, j, all) && ContentOrder(entries)
             && UnitOrder(units)
    requires j < |units|
    ensures var issue := UnitIssue(entries, units[j]);
            Complete(entries, units, i, j + 1, if issue.Some? then all + [Issue(units[j].key, issue.value)] else all)
  {
    IssuesBehind(entries, units, i, j, all, units[j].key);
    hide Less, FromUnit, FromEntry, Frontier, ContentOrder, UnitOrder, UnitIssue;
    forall x ensures FromUnit(entries, units, j + 1, x)
            <==> FromUnit(entries, units, j, x)
                 || (x.key == units[j].key && UnitIssue(entries, units[j]) == Some(x.code)) {
      FromUnitNext(entries, units, j, x);
    }
    var issue := UnitIssue(entries, units[j]);
    if issue.Some? {
      OrderAppend(all, Issue(units[j].key, issue.value));
    }
    hide IssueOrder;
  }

  lemma CompleteEntry(entries: seq<Content>, units: seq<Unit>, i: nat, j: nat, all: seq<Issue>)
    requires Frontier(entries, units, i, j) && Complete(entries, units, i, j, all) && ContentOrder(entries)
             && UnitOrder(units)
    requires i < |entries|
    ensures Complete(entries, units, i + 1, j,
                     if Unverified(entries[i], units) then all + [Issue(entries[i].key, MissingMetadata)] else all)
  {
    IssuesBehind(entries, units, i, j, all, entries[i].key);
    hide Less, FromUnit, FromEntry, Frontier, ContentOrder, UnitOrder, Unverified;
    forall x ensures FromEntry(entries, units, i + 1, x)
            <==> FromEntry(entries, units, i, x)
                 || (x.key == entries[i].key && Unverified(entries[i], units) && x.code == MissingMetadata) {
      FromEntryNext(entries, units, i, x);
    }
    if Unverified(entries[i], units) {
      OrderAppend(all, Issue(entries[i].key, MissingMetadata));
    }
    hide IssueOrder;
  }

  ghost predicate KeysValid(entries: seq<Content>, units: seq<Unit>) {
    && ContentOrder(entries) && UnitOrder(units)
    && (forall a: nat :: a < |entries| ==> ValidKey(entries[a].key))
    && (forall b: nat :: b < |units| ==> ValidKey(units[b].key))
  }

  ghost predicate Merging(entries: seq<Content>, units: seq<Unit>, i: nat, j: nat, r: Report, all: seq<Issue>) {
    && Frontier(entries, units, i, j) && Counted(entries, units, i, j, r) && Kept(r, all)
       && Complete(entries, units, i, j, all)
  }

  /** Nothing in the entries has the key of a unit that lies strictly between them. */
  lemma UnknownIssue(entries: seq<Content>, units: seq<Unit>, i: nat, j: nat)
    requires Frontier(entries, units, i, j) && j < |units| && ContentOrder(entries)
    requires i < |entries| ==> Less(units[j].key, entries[i].key)
    ensures UnitIssue(entries, units[j]) == Some(UnknownUnit)
    ensures forall a: nat :: i <= a < |entries| ==> Less(units[j].key, entries[a].key)
  {
    var key := units[j].key;
    forall a: nat | a < |entries| ensures entries[a].key != key && (i <= a ==> Less(key, entries[a].key)) {
      if i < a {
        LessTransitive(key, entries[i].key, entries[a].key);
      }
      LessIrreflexive(key);
    }
    FindUnlisted(entries, key);
  }

  lemma StepUnknown(entries: seq<Content>, units: seq<Unit>, i: nat, j: nat, r: Report, all: seq<Issue>)
    requires KeysValid(entries, units) && Merging(entries, units, i, j, r, all) && j < |units|
    requires i < |entries| ==> Less(units[j].key, entries[i].key)
    ensures Merging(entries, units, i, j + 1, Note(r, units[j].key, UnknownUnit, true),
                    all + [Issue(units[j].key, UnknownUnit)])
  {
    hide Less, ValidKey;
    UnknownIssue(entries, units, i, j);
    CompleteUnit(entries, units, i, j, all);
    NoteKept(r, all, units[j].key, UnknownUnit, true);
    hide Complete, ContentOrder, UnitOrder, UnverifiedCount, SpatialCount, UnitIssue, Kept;
  }

  method SkipUnknown(entries: seq<Content>, units: seq<Unit>, i: nat, start: nat, before: Report,
                     ghost issues: seq<Issue>)
    returns (j: nat, r: Report, ghost all: seq<Issue>)
    requires KeysValid(entries, units) && Merging(entries, units, i, start, before, issues)
    ensures Merging(entries, units, i, j, r, all)
    ensures j < |units| ==> i < |entries| && !Less(units[j].key, entries[i].key)
  {
    hide Less, KeysValid, Note;
    j, r, all := start, before, issues;
    MergingRange(entries, units, i, j, r, all);
    hide Merging;
    while j < |units| && (i == |entries| || Less(units[j].key, entries[i].key))
      invariant i <= |entries| && j <= |units| && Merging(entries, units, i, j, r, all)
    {
      StepUnknown(entries, units, i, j, r, all);
      r, all := Note(r, units[j].key, UnknownUnit, true), all + [Issue(units[j].key, UnknownUnit)];
      j := j + 1;
    }
  }

  lemma MergingRange(entries: seq<Content>, units: seq<Unit>, i: nat, j: nat, r: Report, all: seq<Issue>)
    requires Merging(entries, units, i, j, r, all)
    ensures i <= |entries| && j <= |units|
  {}

  /** With no unit of its key in front, an entry has none at all. */
  lemma AbsentUnit(entries: seq<Content>, units: seq<Unit>, i: nat, j: nat)
    requires Frontier(entries, units, i, j) && i < |entries| && UnitOrder(units)
    requires j < |units| ==> !Less(units[j].key, entries[i].key) && units[j].key != entries[i].key
    ensures !HasUnit(units, entries[i].key)
    ensures forall b: nat :: j <= b < |units| ==> Less(entries[i].key, units[b].key)
  {
    var key := entries[i].key;
    LessIrreflexive(key);
    if j < |units| {
      LessTotal(units[j].key, key);
    }
    forall b: nat | b < |units| ensures units[b].key != key && (j <= b ==> Less(key, units[b].key)) {
      if j < b {
        LessTransitive(key, units[j].key, units[b].key);
      }
    }
  }

  function Absent(r: Report, e: Content): Report {
    if e.bounds.None? then r
    else Note(r.(spatial := r.spatial + 1, unverified := r.unverified + 1), e.key, MissingMetadata, false)
  }

  lemma StepAbsent(entries: seq<Content>, units: seq<Unit>, i: nat, j: nat, r: Report, all: seq<Issue>)
    requires KeysValid(entries, units) && Merging(entries, units, i, j, r, all) && i < |entries|
    requires j < |units| ==> !Less(units[j].key, entries[i].key) && units[j].key != entries[i].key
    ensures Merging(entries, units, i + 1, j, Absent(r, entries[i]),
                    if entries[i].bounds.Some? then all + [Issue(entries[i].key, MissingMetadata)] else all)
  {
    hide Less, ValidKey;
    var e := entries[i];
    AbsentUnit(entries, units, i, j);
    CompleteEntry(entries, units, i, j, all);
    NoteKept(r.(spatial := r.spatial + 1, unverified := r.unverified + 1), all, e.key, MissingMetadata, false);
    hide Complete, ContentOrder, UnitOrder, CompatibleCount, HasUnit, Kept;
  }

  /** The entry and its unit leave the frontier together. */
  lemma PairFrontier(entries: seq<Content>, units: seq<Unit>, i: nat, j: nat)
    requires Frontier(entries, units, i, j) && ContentOrder(entries) && UnitOrder(units)
    requires i < |entries| && j < |units| && units[j].key == entries[i].key
    ensures Frontier(entries, units, i + 1, j + 1)
  {
    hide Less;
  }

  lemma CompletePair(entries: seq<Content>, units: seq<Unit>, i: nat, j: nat, all: seq<Issue>)
    requires i < |entries| && j < |units| && units[j].key == entries[i].key && Complete(entries, units, i, j + 1, all)
    ensures Complete(entries, units, i + 1, j + 1, all)
  {
    hide Less, FromUnit, FromEntry, IssueOrder;
    forall x ensures FromEntry(entries, units, i + 1, x) <==> FromEntry(entries, units, i, x) {
      FromEntryNext(entries, units, i, x);
    }
  }

  function Paired(r: Report, e: Content, u: Unit): Report {
    var seen := if e.bounds.Some? then r.(spatial := r.spatial + 1) else r;
    match PairIssue(e, u)
    case Some(code) => Note(seen, e.key, code, true)
    case None => seen.(compatible := seen.compatible + 1)
  }

  lemma StepPaired(entries: seq<Content>, units: seq<Unit>, i: nat, j: nat, r: Report, all: seq<Issue>)
    requires KeysValid(entries, units) && Merging(entries, units, i, j, r, all)
    requires i < |entries| && j < |units| && units[j].key == entries[i].key
    ensures var issue := PairIssue(entries[i], units[j]);
            Merging(entries, units, i + 1, j + 1, Paired(r, entries[i], units[j]),
                    if issue.Some? then all + [Issue(entries[i].key, issue.value)] else all)
  {
    hide Less, ValidKey, PairIssue, Find;
    var e, issue := entries[i], PairIssue(entries[i], units[j]);
    FindListed(entries, i);
    assert UnitIssue(entries, units[j]) == issue;
    CompleteUnit(entries, units, i, j, all);
    var more := if issue.Some? then all + [Issue(e.key, issue.value)] else all;
    CompletePair(entries, units, i, j, more);
    PairFrontier(entries, units, i, j);
    assert !Unverified(e, units);
    hide Complete, ContentOrder, UnitOrder, Unverified, Frontier, UnitIssue;
    if issue.Some? {
      NoteKept(if e.bounds.Some? then r.(spatial := r.spatial + 1) else r, all, e.key, issue.value, true);
    }
    hide Kept;
  }

  /** Compares one entry with the unit of its key, if there is one. */
  method MergeEntry(entries: seq<Content>, units: seq<Unit>, i: nat, j: nat, before: Report, ghost issues: seq<Issue>)
    returns (next: nat, r: Report, ghost all: seq<Issue>)
    requires KeysValid(entries, units) && Merging(entries, units, i, j, before, issues) && i < |entries|
    requires j < |units| ==> !Less(units[j].key, entries[i].key)
    ensures Merging(entries, units, i + 1, next, r, all)
  {
    hide Less, KeysValid, Note, Merging, Contains;
    r, all, next := before, issues, j;
    var e := entries[i];
    var present := j < |units| && units[j].key == e.key;
    if !present {
      StepAbsent(entries, units, i, j, before, issues);
    } else {
      StepPaired(entries, units, i, j, before, issues);
    }
    if e.bounds.Some? {
      r := r.(spatial := r.spatial + 1);
    }
    if !present {
      if e.bounds.Some? {
        r := Note(r.(unverified := r.unverified + 1), e.key, MissingMetadata, false);
        all := all + [Issue(e.key, MissingMetadata)];
      }
      return;
    }
    var u := units[j];
    next := j + 1;
    ghost var issue := PairIssue(e, u);
    if u.digest != e.digest {
      r := Note(r, e.key, ContentMismatch, true);
    } else if u.space != e.space {
      r := Note(r, e.key, SpaceMismatch, true);
    } else if e.bounds.None? {
      r := Note(r, e.key, MissingManifestBounds, true);
    } else if !Contains(e.bounds.value, u.bounds) {
      r := Note(r, e.key, UnderboundedManifest, true);
    } else {
      r := r.(compatible := r.compatible + 1);
    }
    all := if issue.Some? then all + [Issue(e.key, issue.value)] else all;
  }

  /** Merges both lists; the result says of every key what looking it up alone would say. */
  method MergeAll(entries: seq<Content>, units: seq<Unit>) returns (r: Report, ghost all: seq<Issue>)
    requires KeysValid(entries, units)
    ensures Merging(entries, units, |entries|, |units|, r, all)
    ensures r.status == if r.rejected > 0 then Rejected else if r.unverified > 0 then Incomplete else Compatible
  {
    r, all := Report(Rejected, 0, 0, 0, 0, false, []), [];
    MergingStarts(entries, units, r);
    hide KeysValid, Merging;
    var j: nat := 0;
    for i: nat := 0 to |entries|
      invariant j <= |units| && Merging(entries, units, i, j, r, all)
    {
      j, r, all := SkipUnknown(entries, units, i, j, r, all);
      j, r, all := MergeEntry(entries, units, i, j, r, all);
      MergingRange(entries, units, i + 1, j, r, all);
    }
    j, r, all := SkipUnknown(entries, units, |entries|, j, r, all);
    MergingRange(entries, units, |entries|, j, r, all);
    ghost var plain := r;
    r := r.(status := if r.rejected > 0 then Rejected else if r.unverified > 0 then Incomplete else Compatible);
    MergingStatus(entries, units, plain, r, all);
  }

  lemma MergingStarts(entries: seq<Content>, units: seq<Unit>, r: Report)
    requires r == Report(Rejected, 0, 0, 0, 0, false, [])
    ensures Merging(entries, units, 0, 0, r, [])
  {}

  lemma MergingStatus(entries: seq<Content>, units: seq<Unit>, plain: Report, r: Report, all: seq<Issue>)
    requires Merging(entries, units, |entries|, |units|, plain, all) && r == plain.(status := r.status)
    ensures Merging(entries, units, |entries|, |units|, r, all)
  {}

  /** A merged report is favourable exactly when every unit fits its entry and every spatial entry has a unit. */
  lemma MergedStatus(entries: seq<Content>, units: seq<Unit>, r: Report, all: seq<Issue>)
    requires Merging(entries, units, |entries|, |units|, r, all)
    ensures r.compatible + r.rejected == |units| && r.spatial == SpatialCount(entries, |entries|)
    ensures |r.issues| <= MAX_ISSUES && (r.truncated <==> |all| > MAX_ISSUES)
    ensures r.rejected == 0 <==> forall b: nat :: b < |units| ==> UnitIssue(entries, units[b]).None?
    ensures r.unverified == 0 <==> forall a: nat :: a < |entries| && entries[a].bounds.Some? ==>
            HasUnit(units, entries[a].key)
  {
    hide Complete, Frontier, UnitIssue, HasUnit;
    AllCompatible(entries, units, |units|);
    NoneUnverified(entries, units, |entries|);
  }

  ghost predicate Matches(e: Content, u: Unit) {
    e.key == u.key && e.digest == u.digest && e.space == u.space && e.bounds.Some? && Contains(e.bounds.value, u.bounds)
  }

  /** A unit is without issue exactly when some entry encloses it. */
  lemma NoIssueIsMatch(entries: seq<Content>, u: Unit)
    requires ContentOrder(entries)
    ensures UnitIssue(entries, u).None? <==> exists a: nat :: a < |entries| && Matches(entries[a], u)
  {
    hide Contains, Find;
    if a: nat :| a < |entries| && entries[a].key == u.key {
      FindListed(entries, a);
      forall b: nat | b < |entries| && entries[b].key == u.key ensures b == a {
        LessIrreflexive(u.key);
      }
      assert Matches(entries[a], u) <==> PairIssue(entries[a], u).None?;
    } else {
      FindUnlisted(entries, u.key);
    }
  }

  // What comes before the merge.

  predicate SpaceOk(space: string) {
    space != "" && |space| <= MAX_SPACE_BYTES
  }

  predicate ContentOk(e: Content) {
    ValidKey(e.key) && SpaceOk(e.space) && (e.bounds.Some? ==> BoundsValid(e.bounds.value))
  }

  predicate UnitOk(u: Unit) {
    ValidKey(u.key) && SpaceOk(u.space) && BoundsValid(u.bounds)
  }

  /** The first `n` entries are each acceptable and above the one before. */
  ghost predicate ContentsOk(entries: seq<Content>, n: nat)
    requires n <= |entries|
  {
    && (forall a: nat :: a < n ==> ContentOk(entries[a]))
    && (forall a: nat, b: nat :: a < n && b == a + 1 && b < n ==> Less(entries[a].key, entries[b].key))
  }

  ghost predicate UnitsOk(units: seq<Unit>, n: nat)
    requires n <= |units|
  {
    && (forall a: nat :: a < n ==> UnitOk(units[a]))
    && (forall a: nat, b: nat :: a < n && b == a + 1 && b < n ==> Less(units[a].key, units[b].key))
  }

  /** Finds the first unacceptable entry, if any. */
  method CheckContents(entries: seq<Content>) returns (bad: Option<nat>)
    ensures bad.None? <==> ContentsOk(entries, |entries|)
    ensures bad.Some? ==> bad.value < |entries| && ContentsOk(entries, bad.value) && !ContentsOk(entries, bad.value + 1)
  {
    hide ValidKey, Less, BoundsValid;
    var previous := "";
    for k: nat := 0 to |entries|
      invariant ContentsOk(entries, k) && previous == if k == 0 then "" else entries[k - 1].key
      invariant k > 0 ==> previous != ""
    {
      var e := entries[k];
      KeyNotEmpty(e.key);
      var valid := CheckKey(e.key);
      if !valid || (previous != "" && !Less(previous, e.key)) || e.space == "" || |e.space| > MAX_SPACE_BYTES
         || (e.bounds.Some? && !BoundsValid(e.bounds.value)) {
        assert !ContentsOk(entries, k + 1);
        return Some(k);
      }
      previous := e.key;
    }
    return None;
  }

  lemma KeyNotEmpty(key: string)
    ensures ValidKey(key) ==> key != ""
  {}

  method CheckUnits(units: seq<Unit>) returns (bad: Option<nat>)
    ensures bad.None? <==> UnitsOk(units, |units|)
    ensures bad.Some? ==> bad.value < |units| && UnitsOk(units, bad.value) && !UnitsOk(units, bad.value + 1)
  {
    hide ValidKey, Less, BoundsValid;
    var previous := "";
    for k: nat := 0 to |units|
      invariant UnitsOk(units, k) && previous == if k == 0 then "" else units[k - 1].key
      invariant k > 0 ==> previous != ""
    {
      var u := units[k];
      KeyNotEmpty(u.key);
      var valid := CheckKey(u.key);
      if !valid || (previous != "" && !Less(previous, u.key)) || u.space == "" || |u.space| > MAX_SPACE_BYTES
         || !BoundsValid(u.bounds) {
        assert !UnitsOk(units, k + 1);
        return Some(k);
      }
      previous := u.key;
    }
    return None;
  }

  lemma {:induction false} ContentPair(entries: seq<Content>, a: nat, b: nat)
    requires ContentsOk(entries, |entries|) && a < b < |entries|
    ensures Less(entries[a].key, entries[b].key)
    decreases b
  {
    hide ContentOk, Less;
    if a + 1 < b {
      ContentPair(entries, a, b - 1);
      LessTransitive(entries[a].key, entries[b - 1].key, entries[b].key);
    }
  }

  lemma {:induction false} UnitPair(units: seq<Unit>, a: nat, b: nat)
    requires UnitsOk(units, |units|) && a < b < |units|
    ensures Less(units[a].key, units[b].key)
    decreases b
  {
    hide UnitOk, Less;
    if a + 1 < b {
      UnitPair(units, a, b - 1);
      LessTransitive(units[a].key, units[b - 1].key, units[b].key);
    }
  }

  lemma CheckedKeys(entries: seq<Content>, units: seq<Unit>)
    requires ContentsOk(entries, |entries|) && UnitsOk(units, |units|)
    ensures KeysValid(entries, units)
  {
    hide Less, ValidKey;
    forall a: nat, b: nat | a < b < |entries| ensures Less(entries[a].key, entries[b].key) {
      ContentPair(entries, a, b);
    }
    forall a: nat, b: nat | a < b < |units| ensures Less(units[a].key, units[b].key) {
      UnitPair(units, a, b);
    }
  }

  /** The report of an early rejection: one issue and nothing counted. */
  predicate Turned(r: Report, key: string, code: Code) {
    r == Report(Rejected, 0, 0, 0, 1, false, [Issue(key, code)])
  }

  /** Why a comparison does not get as far as the merge. */
  ghost predicate Early(version: nat, samePackage: bool, entries: seq<Content>, units: seq<Unit>, r: Report) {
    if version != VERSION then Turned(r, "", UnsupportedVersion)
    else if !samePackage then Turned(r, "", NamespaceMismatch)
    else if |entries| > MAX_UNITS || |units| > MAX_UNITS then Turned(r, "", ResourceLimit)
    else if !ContentsOk(entries, |entries|) then
      exists k: nat :: k < |entries| && ContentsOk(entries, k) && !ContentsOk(entries, k + 1)
                       && Turned(r, KeyOrBlank(entries[k].key), InvalidManifest)
    else
      exists k: nat :: k < |units| && UnitsOk(units, k) && !UnitsOk(units, k + 1)
                       && Turned(r, KeyOrBlank(units[k].key), InvalidMetadata)
  }

  ghost predicate Comparable(version: nat, samePackage: bool, entries: seq<Content>, units: seq<Unit>) {
    && version == VERSION && samePackage && |entries| <= MAX_UNITS && |units| <= MAX_UNITS
    && ContentsOk(entries, |entries|) && UnitsOk(units, |units|)
  }

  /** The whole comparison. */
  method Inspect(version: nat, samePackage: bool, entries: seq<Content>, units: seq<Unit>)
    returns (r: Report, ghost all: seq<Issue>)
    ensures !Comparable(version, samePackage, entries, units) ==> Early(version, samePackage, entries, units, r)
    ensures Comparable(version, samePackage, entries, units) ==>
              && r.compatible + r.rejected == |units| && r.spatial == SpatialCount(entries, |entries|)
              && r.compatible == CompatibleCount(entries, units, |units|)
              && r.unverified == UnverifiedCount(entries, units, |entries|)
              && Complete(entries, units, |entries|, |units|, all) && Kept(r, all)
    ensures Comparable(version, samePackage, entries, units) ==>
              && (r.status == Rejected <==> exists b: nat :: b < |units| && UnitIssue(entries, units[b]).Some?)
              && (r.status == Compatible <==>
                    && (forall b: nat :: b < |units| ==> UnitIssue(entries, units[b]).None?)
                    && (forall a: nat :: a < |entries| && entries[a].bounds.Some? ==> HasUnit(units, entries[a].key)))
    ensures |r.issues| <= MAX_ISSUES
  {
    hide ContentsOk, UnitsOk, Complete, UnitIssue, HasUnit, KeyOrBlank, Frontier;
    r, all := Report(Rejected, 0, 0, 0, 0, false, []), [];
    if version != VERSION {
      BlankKey();
      return Note(r, "", UnsupportedVersion, true), all;
    }
    if !samePackage {
      BlankKey();
      return Note(r, "", NamespaceMismatch, true), all;
    }
    if |entries| > MAX_UNITS || |units| > MAX_UNITS {
      BlankKey();
      return Note(r, "", ResourceLimit, true), all;
    }
    var bad := CheckContents(entries);
    if bad.Some? {
      return Note(r, entries[bad.value].key, InvalidManifest, true), all;
    }
    bad := CheckUnits(units);
    if bad.Some? {
      return Note(r, units[bad.value].key, InvalidMetadata, true), all;
    }
    CheckedKeys(entries, units);
    hide KeysValid;
    r, all := MergeAll(entries, units);
    MergedStatus(entries, units, r, all);
  }

  lemma BlankKey()
    ensures KeyOrBlank("") == ""
  {}
}
