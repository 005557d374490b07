/** The order on content keys: byte-wise lexicographic, as std::string compares. */
module KeyOrder {

  predicate Less(a: string, b: string) {
    b != [] && (a == [] || a[0] < b[0] || (a[0] == b[0] && Less(a[1..], b[1..])))
  }

  lemma LessTransitive(a: string, b: string, c: string)
    requires Less(a, b) && Less(b, c)
    ensures Less(a, c)
  {
    if a != [] && a[0] == b[0] && b[0] == c[0] {
      LessTransitive(a[1..], b[1..], c[1..]);
    }
  }

  lemma LessIrreflexive(a: string)
    ensures !Less(a, a)
  {}

  lemma {:induction false} LessTotal(a: string, b: string)
    ensures Less(a, b) || a == b || Less(b, a)
  {
    if a != [] && b != [] && a[0] == b[0] {
      LessTotal(a[1..], b[1..]);
      assert a == [a[0]] + a[1..] && b == [b[0]] + b[1..];
    }
  }

  /** At place `n` the two keys first differ: `a` ends there, or has the smaller character. */
  ghost predicate ParesAt(a: string, b: string, n: nat) {
    n <= |a| && n < |b| && a[..n] == b[..n] && (n == |a| || a[n] < b[n])
  }

  /** The order is the dictionary's. */
  lemma {:induction false} LessIsDictionary(a: string, b: string)
    ensures Less(a, b) <==> exists n: nat :: ParesAt(a, b, n)
  {
    if Less(a, b) {
      if a == [] || a[0] < b[0] {
        assert ParesAt(a, b, 0);
      } else {
        LessIsDictionary(a[1..], b[1..]);
        var n: nat :| ParesAt(a[1..], b[1..], n);
        assert a[..n + 1] == [a[0]] + a[1..][..n] && b[..n + 1] == [b[0]] + b[1..][..n];
        assert ParesAt(a, b, n + 1);
      }
    }
    if n: nat :| ParesAt(a, b, n) {
      if n > 0 {
        assert a[0] == a[..n][0] == b[..n][0] == b[0];
        assert a[1..][..n - 1] == a[..n][1..] && b[1..][..n - 1] == b[..n][1..];
        assert ParesAt(a[1..], b[1..], n - 1);
        LessIsDictionary(a[1..], b[1..]);
      }
    }
  }

  /** Each key is above the one before it. */
  predicate Ascending(keys: seq<string>) {
    var n := |keys|;
    n <= 1 || (Less(keys[n - 2], keys[n - 1]) && Ascending(keys[..n - 1]))
  }

  lemma {:induction false} AscendingPrefix(keys: seq<string>, i: nat)
    requires Ascending(keys) && i <= |keys|
    ensures Ascending(keys[..i])
  {
    if i == |keys| {
      assert keys[..i] == keys;
    } else if |keys| > 1 {
      AscendingPrefix(keys[..|keys| - 1], i);
      assert keys[..|keys| - 1][..i] == keys[..i];
    }
  }

  lemma AscendingExtend(keys: seq<string>, i: nat)
    requires i < |keys|
    ensures Ascending(keys[..i + 1]) <==> Ascending(keys[..i]) && (i > 0 ==> Less(keys[i - 1], keys[i]))
  {
    assert keys[..i + 1][..i] == keys[..i];
  }

  lemma {:induction false} AscendingPair(keys: seq<string>, i: nat, j: nat)
    requires Ascending(keys) && i < j < |keys|
    ensures Less(keys[i], keys[j])
  {
    AscendingPrefix(keys, j + 1);
    AscendingExtend(keys, j);
    if i < j - 1 {
      AscendingPair(keys, i, j - 1);
      LessTransitive(keys[i], keys[j - 1], keys[j]);
    }
  }

  lemma AscendingDistinct(keys: seq<string>)
    requires Ascending(keys)
    ensures forall i, j :: 0 <= i < j < |keys| ==> keys[i] != keys[j]
  {
    forall i, j | 0 <= i < j < |keys| ensures keys[i] != keys[j] {
      AscendingPair(keys, i, j);
      LessIrreflexive(keys[i]);
    }
  }
}

/** The dependency part of package manifest parsing, from a parsed entry list. */
module ManifestCheck {
  import opened DependencyGraph
  import opened KeyOrder

  const MAX_UNITS: nat := 65536
  const MAX_DEPENDENCIES: nat := 262144
  const MAX_DEPENDENCIES_PER_UNIT: nat := 64
  const MAX_KEY_BYTES: nat := 128

  /** `fieldsValid` stands for the shape, digest, blob, size and bounds checks of one entry. */
  datatype Entry = Entry(key: string, dependencies: seq<string>, fieldsValid: bool)

  predicate KeyCharacter(c: char) {
    'a' <= c <= 'z' || '0' <= c <= '9' || c == '-' || c == '_' || c == '.' || c == '/'
  }

  predicate HasSegment(key: string, start: nat, segment: string) {
    && start + |segment| <= |key|
    && (start == 0 || key[start - 1] == '/')
    && key[start..start + |segment|] == segment
    && (start + |segment| == |key| || key[start + |segment|] == '/')
  }

  predicate ValidKey(key: string) {
    && 0 < |key| <= MAX_KEY_BYTES
    && key[0] != '/' && key[|key| - 1] != '/'
    && (forall i :: 0 <= i < |key| ==> KeyCharacter(key[i]))
    && (forall i {:trigger HasSegment(key, i, "")} :: 0 <= i < |key| ==>
          !HasSegment(key, i, "") && !HasSegment(key, i, ".") && !HasSegment(key, i, ".."))
  }

  predicate DependencyOk(e: Entry, k: nat)
    requires k < |e.dependencies|
  {
    ValidKey(e.dependencies[k]) && e.dependencies[k] != e.key
  }

  predicate EntryOk(e: Entry) {
    && e.fieldsValid && ValidKey(e.key)
    && |e.dependencies| <= MAX_DEPENDENCIES_PER_UNIT
    && Ascending(e.dependencies)
    && forall k :: 0 <= k < |e.dependencies| ==> DependencyOk(e, k)
  }

  function EdgeCount(entries: seq<Entry>): nat {
    if entries == [] then 0
    else EdgeCount(entries[..|entries| - 1]) + |entries[|entries| - 1].dependencies|
  }

  function Keys(entries: seq<Entry>): seq<string> {
    seq(|entries|, i requires 0 <= i < |entries| => entries[i].key)
  }

  predicate EntriesOk(entries: seq<Entry>) {
    && |entries| <= MAX_UNITS
    && (forall i :: 0 <= i < |entries| ==> EntryOk(entries[i]))
    && Ascending(Keys(entries))
    && EdgeCount(entries) <= MAX_DEPENDENCIES
  }

  /** `ids` are the positions of the keys named by `e`. */
  ghost predicate Resolves(entries: seq<Entry>, names: seq<string>, ids: seq<nat>) {
    && |ids| == |names|
    && forall k :: 0 <= k < |ids| ==> ids[k] < |entries| && entries[ids[k]].key == names[k]
  }

  /** `g` is the dependency graph that the entries name; it exists iff every named key does. */
  ghost predicate GraphOf(entries: seq<Entry>, g: Graph) {
    && |g| == |entries|
    && forall i :: 0 <= i < |g| ==> Resolves(entries, entries[i].dependencies, g[i])
  }

  ghost predicate UniqueKeys(entries: seq<Entry>) {
    forall i, j :: 0 <= i < |entries| && 0 <= j < |entries| && entries[i].key == entries[j].key ==> i == j
  }

  lemma EntriesOkUnique(entries: seq<Entry>)
    requires Ascending(Keys(entries))
    ensures UniqueKeys(entries)
  {
    var keys := Keys(entries);
    AscendingDistinct(keys);
    forall i, j | 0 <= i < |entries| && 0 <= j < |entries| && entries[i].key == entries[j].key ensures i == j {
      assert keys[i] == keys[j];
    }
  }

  lemma ResolvedDistinct(entries: seq<Entry>, names: seq<string>, ids: seq<nat>)
    requires Resolves(entries, names, ids) && Ascending(names)
    ensures Distinct(ids)
  {
    AscendingDistinct(names);
  }

  lemma GraphWellFormed(entries: seq<Entry>, g: Graph)
    requires EntriesOk(entries) && GraphOf(entries, g)
    ensures WellFormed(g)
  {
    forall u | 0 <= u < |g| ensures Distinct(g[u]) {
      assert EntryOk(entries[u]);
      ResolvedDistinct(entries, entries[u].dependencies, g[u]);
    }
  }

  lemma GraphUnique(entries: seq<Entry>, g: Graph, h: Graph)
    requires UniqueKeys(entries) && GraphOf(entries, g) && GraphOf(entries, h)
    ensures g == h
  {
    forall i | 0 <= i < |g| ensures g[i] == h[i] {
      assert Resolves(entries, entries[i].dependencies, g[i]) && Resolves(entries, entries[i].dependencies, h[i]);
    }
  }

  /** The per-entry loop: identity, key order, edge budget and the shape of each dependency list. */
  method CheckEntries(entries: seq<Entry>) returns (ok: bool)
    ensures ok <==> EntriesOk(entries)
  {
    hide EntryOk, Less;
    if |entries| > MAX_UNITS {
      return false;
    }
    ghost var keys := Keys(entries);
    var edgeCount := 0;
    var previous := "";
    for i := 0 to |entries|
      invariant forall j :: 0 <= j < i ==> EntryOk(entries[j])
      invariant Ascending(keys[..i])
      invariant i == 0 ==> previous == ""
      invariant i > 0 ==> previous == entries[i - 1].key && previous != ""
      invariant edgeCount == EdgeCount(entries[..i]) <= MAX_DEPENDENCIES
    {
      var e := entries[i];
      assert entries[..i + 1][..i] == entries[..i];
      EdgeCountGrows(entries, i + 1);
      AscendingExtend(keys, i);
      if Ascending(keys) {
        AscendingPrefix(keys, i + 1);
      }
      var accepted := CheckEntry(e, previous, MAX_DEPENDENCIES - edgeCount);
      if !accepted {
        return false;
      }
      edgeCount := edgeCount + |e.dependencies|;
      previous := e.key;
    }
    assert entries[..|entries|] == entries && keys[..|entries|] == keys;
    return true;
  }

  /** Neither an empty segment nor one that names a directory starts at `i`. */
  predicate PlainAt(key: string, i: nat) {
    !HasSegment(key, i, "") && !HasSegment(key, i, ".") && !HasSegment(key, i, "..")
  }

  lemma ValidKeyIs(key: string)
    ensures ValidKey(key) <==>
            && 0 < |key| <= MAX_KEY_BYTES && key[0] != '/' && key[|key| - 1] != '/'
            && (forall i: nat :: i < |key| ==> KeyCharacter(key[i])) && forall i: nat :: i < |key| ==> PlainAt(key, i)
  {
    if forall i: nat :: i < |key| ==> PlainAt(key, i) {
      forall i | 0 <= i < |key| ensures !HasSegment(key, i, "") && !HasSegment(key, i, ".")
        && !HasSegment(key, i, "..") {
        assert PlainAt(key, i);
      }
    }
    if forall i | 0 <= i < |key| :: !HasSegment(key, i, "") && !HasSegment(key, i, ".") && !HasSegment(key, i, "..") {
      assert forall i: nat :: i < |key| ==> PlainAt(key, i);
    }
  }

  /** The segment from `start` to the next slash, or to the end. */
  ghost predicate SegmentEnds(key: string, start: nat, end: nat) {
    && start <= end <= |key| && (end < |key| ==> key[end] == '/')
    && forall i: nat :: start <= i < end ==> key[i] != '/'
  }

  method FindSlash(key: string, start: nat) returns (end: nat)
    requires start < |key|
    ensures SegmentEnds(key, start, end)
  {
    end := start;
    while end < |key| && key[end] != '/'
      invariant start <= end <= |key| && forall i: nat :: start <= i < end ==> key[i] != '/'
    {
      end := end + 1;
    }
  }

  lemma SegmentIs(key: string, start: nat, end: nat, segment: string)
    requires start < |key| && (start == 0 || key[start - 1] == '/') && SegmentEnds(key, start, end)
    requires forall i: nat :: i < |segment| ==> segment[i] != '/'
    ensures HasSegment(key, start, segment) <==> key[start..end] == segment
  {
    if HasSegment(key, start, segment) {
      var stop := start + |segment|;
      forall i: nat | start <= i < stop ensures key[i] != '/' {
        assert key[i] == key[start..stop][i - start] == segment[i - start];
      }
      SegmentEndsOnce(key, start, end, stop);
    }
  }

  lemma SegmentEndsOnce(key: string, start: nat, end: nat, stop: nat)
    requires SegmentEnds(key, start, end) && SegmentEnds(key, start, stop)
    ensures end == stop
  {}

  /** Within a segment no further one starts. */
  lemma InsideSegment(key: string, start: nat, end: nat, i: nat)
    requires start < i <= end && i < |key| && SegmentEnds(key, start, end)
    ensures PlainAt(key, i)
  {
    assert key[i - 1] != '/';
  }

  method CheckKey(key: string) returns (ok: bool)
    ensures ok <==> ValidKey(key)
  {
    ValidKeyIs(key);
    hide ValidKey, HasSegment;
    if key == "" || |key| > MAX_KEY_BYTES || key[0] == '/' || key[|key| - 1] == '/' {
      return false;
    }
    for i: nat := 0 to |key|
      invariant forall j: nat :: j < i ==> KeyCharacter(key[j])
      invariant forall j: nat :: j + 1 < |key| && j < i ==> !(key[j] == '/' == key[j + 1])
    {
      var c := key[i];
      if i + 1 < |key| && c == '/' && key[i + 1] == '/' {
        EmptySegment(key, i + 1);
        return false;
      }
      if !(('a' <= c && c <= 'z') || ('0' <= c && c <= '9') || c == '-' || c == '_' || c == '.' || c == '/') {
        return false;
      }
    }
    var start: nat := 0;
    while start < |key|
      invariant start <= |key| + 1 && (start == 0 || start > |key| || key[start - 1] == '/')
      invariant forall i: nat :: i < start && i < |key| ==> PlainAt(key, i)
      decreases |key| + 1 - start
    {
      var end := FindSlash(key, start);
      SegmentIs(key, start, end, "");
      SegmentIs(key, start, end, ".");
      SegmentIs(key, start, end, "..");
      forall i: nat | start < i <= end && i < |key| ensures PlainAt(key, i) {
        InsideSegment(key, start, end, i);
      }
      if key[start..end] == "." || key[start..end] == ".." {
        assert !PlainAt(key, start);
        return false;
      }
      start := end + 1;
    }
    return true;
  }

  lemma EmptySegment(key: string, i: nat)
    requires 0 < i < |key| && key[i - 1] == '/' == key[i]
    ensures !PlainAt(key, i)
  {
    assert HasSegment(key, i, "");
  }

  method CheckEntry(e: Entry, previous: string, budget: nat) returns (ok: bool)
    ensures ok <==> EntryOk(e) && (previous != "" ==> Less(previous, e.key)) && |e.dependencies| <= budget
    ensures ok ==> e.key != ""
  {
    var valid := CheckKey(e.key);
    if !e.fieldsValid || !valid || (previous != "" && !Less(previous, e.key)) {
      return false;
    }
    if |e.dependencies| > MAX_DEPENDENCIES_PER_UNIT || |e.dependencies| > budget {
      return false;
    }
    ok := CheckDependencyList(e);
  }

  method CheckDependencyList(e: Entry) returns (ok: bool)
    ensures ok <==> Ascending(e.dependencies) && forall k :: 0 <= k < |e.dependencies| ==> DependencyOk(e, k)
  {
    var prior := "";
    for k := 0 to |e.dependencies|
      invariant prior == if k == 0 then "" else e.dependencies[k - 1]
      invariant forall j :: 0 <= j < k ==> DependencyOk(e, j)
      invariant Ascending(e.dependencies[..k])
    {
      var d := e.dependencies[k];
      AscendingExtend(e.dependencies, k);
      if Ascending(e.dependencies) {
        AscendingPrefix(e.dependencies, k + 1);
      }
      var valid := CheckKey(d);
      if !valid || d == e.key || (prior != "" && !Less(prior, d)) {
        assert ValidKey(d) && d != e.key ==> k > 0;
        assert !(ValidKey(d) && d != e.key) ==> !DependencyOk(e, k);
        return false;
      }
      prior := d;
    }
    assert e.dependencies[..|e.dependencies|] == e.dependencies;
    return true;
  }

  lemma {:induction false} EdgeCountGrows(entries: seq<Entry>, i: nat)
    requires i <= |entries|
    ensures EdgeCount(entries[..i]) <= EdgeCount(entries)
  {
    if i < |entries| {
      EdgeCountGrows(entries[..|entries| - 1], i);
      assert entries[..|entries| - 1][..i] == entries[..i];
    } else {
      assert entries[..i] == entries;
    }
  }

  /** `dependents[d]` lists, once each, the first `n` units that depend on `d`. */
  ghost predicate Inverse(dependents: seq<seq<nat>>, g: Graph, size: nat) {
    && |dependents| == size
    && (forall d :: 0 <= d < size ==> Distinct(dependents[d]))
    && (forall d: nat, i: nat :: d < size ==> Mirrors(dependents, g, d, i))
  }

  ghost predicate Mirrors(dependents: seq<seq<nat>>, g: Graph, d: nat, i: nat)
    requires d < |dependents|
  {
    i in dependents[d] <==> i < |g| && d in g[i]
  }

  /** Lines that look up every dependency, count in-degrees and fill the dependents lists. */
  method ResolveDependencies(entries: seq<Entry>)
      returns (found: bool, inDegree: array<nat>, dependents: seq<seq<nat>>, ghost g: Graph)
    requires EntriesOk(entries)
    ensures fresh(inDegree)
    ensures found ==> GraphOf(entries, g) && Inverse(dependents, g, |entries|)
    ensures found ==> inDegree.Length == |entries| && forall i :: 0 <= i < |entries| ==> inDegree[i] == |g[i]|
    ensures !found ==> forall h :: !GraphOf(entries, h)
  {
    hide EntryOk, Ascending;
    EntriesOkUnique(entries);
    var n := |entries|;
    var indices := IndexKeys(entries);
    inDegree := new nat[n](_ => 0);
    dependents := seq(n, _ => []);
    g := [];
    for i := 0 to n
      invariant |g| == i && inDegree.Length == n
      invariant forall j :: 0 <= j < i ==> Resolves(entries, entries[j].dependencies, g[j])
      invariant forall j :: 0 <= j < n ==> inDegree[j] == if j < i then |g[j]| else 0
      invariant Inverse(dependents, g, n)
    {
      ghost var row;
      StartRow(dependents, g, n);
      EntryAscending(entries[i]);
      found, dependents, row := ResolveEntry(entries, i, indices, inDegree, dependents, g);
      if !found {
        ghost var k :| 0 <= k < |entries[i].dependencies| && Absent(entries, entries[i].dependencies[k]);
        GraphNamesPresent(entries, i, k);
        return;
      }
      g := g + [row];
    }
    return true, inDegree, dependents, g;
  }

  ghost predicate Absent(entries: seq<Entry>, name: string) {
    forall j :: 0 <= j < |entries| ==> entries[j].key != name
  }

  lemma GraphNamesPresent(entries: seq<Entry>, i: nat, k: nat)
    requires i < |entries| && k < |entries[i].dependencies|
    ensures forall h :: GraphOf(entries, h) ==> !Absent(entries, entries[i].dependencies[k])
  {
    forall h | GraphOf(entries, h) ensures !Absent(entries, entries[i].dependencies[k]) {
      assert Resolves(entries, entries[i].dependencies, h[i]);
      assert entries[h[i][k]].key == entries[i].dependencies[k];
    }
  }

  lemma EntryAscending(e: Entry)
    requires EntryOk(e)
    ensures Ascending(e.dependencies)
  {}

  method IndexKeys(entries: seq<Entry>) returns (indices: map<string, nat>)
    requires UniqueKeys(entries)
    ensures forall key :: key in indices ==> indices[key] < |entries| && entries[indices[key]].key == key
    ensures forall j :: 0 <= j < |entries| ==> entries[j].key in indices
  {
    indices := map[];
    for i := 0 to |entries|
      invariant forall key :: key in indices ==> indices[key] < i && entries[indices[key]].key == key
      invariant forall j :: 0 <= j < i ==> entries[j].key in indices
    {
      indices := indices[entries[i].key := i];
    }
  }

  method ResolveEntry(entries: seq<Entry>, i: nat, indices: map<string, nat>, inDegree: array<nat>,
                      before: seq<seq<nat>>, ghost g: Graph)
      returns (found: bool, dependents: seq<seq<nat>>, ghost row: seq<nat>)
    requires i < |entries| && i == |g| && inDegree.Length == |entries| && inDegree[i] == 0
    requires Ascending(entries[i].dependencies)
    requires forall key :: key in indices ==> indices[key] < |entries| && entries[indices[key]].key == key
    requires forall j :: 0 <= j < |entries| ==> entries[j].key in indices
    requires Inverse(before, g + [[]], |entries|)
    modifies inDegree
    ensures forall j :: 0 <= j < |entries| && j != i ==> inDegree[j] == old(inDegree[j])
    ensures found ==> Resolves(entries, entries[i].dependencies, row) && inDegree[i] == |row|
    ensures found ==> Inverse(dependents, g + [row], |entries|)
    ensures !found ==> exists k :: 0 <= k < |entries[i].dependencies| && Absent(entries, entries[i].dependencies[k])
  {
    hide Less;
    var names := entries[i].dependencies;
    AscendingDistinct(names);
    dependents := before;
    row := [];
    for k := 0 to |names|
      invariant |row| == k == inDegree[i]
      invariant forall j :: 0 <= j < |entries| && j != i ==> inDegree[j] == old(inDegree[j])
      invariant Resolves(entries, names[..k], row)
      invariant Inverse(dependents, g + [row], |entries|)
    {
      if names[k] !in indices {
        assert Absent(entries, names[k]);
        return false, dependents, row;
      }
      var target := indices[names[k]];
      inDegree[i] := inDegree[i] + 1;
      LinkDependent(dependents, g, row, |entries|, target);
      dependents := dependents[target := dependents[target] + [i]];
      row := row + [target];
    }
    assert names[..|names|] == names;
    found := true;
  }

  lemma StartRow(dependents: seq<seq<nat>>, g: Graph, size: nat)
    requires Inverse(dependents, g, size)
    ensures Inverse(dependents, g + [[]], size)
  {
    var b := g + [[]];
    forall d: nat, i: nat | d < size ensures Mirrors(dependents, b, d, i) {
      assert Mirrors(dependents, g, d, i);
      assert if i < |g| then b[i] == g[i] else i == |g| ==> b[i] == [];
    }
  }

  lemma LinkDependent(dependents: seq<seq<nat>>, g: Graph, row: seq<nat>, size: nat, target: nat)
    requires target < size && target !in row && Inverse(dependents, g + [row], size)
    ensures Inverse(dependents[target := dependents[target] + [|g|]], g + [row + [target]], size)
  {
    var a, b := g + [row], g + [row + [target]];
    var after := dependents[target := dependents[target] + [|g|]];
    assert a[|g|] == row;
    assert Mirrors(dependents, a, target, |g|);
    assert b[|g|] == row + [target];
    forall d: nat, i: nat | d < size ensures Mirrors(after, b, d, i) {
      assert Mirrors(dependents, a, d, i);
      assert i < |g| ==> a[i] == b[i];
    }
  }

  /** The dependencies of `i` that have not been visited yet. */
  ghost function Waiting(g: Graph, i: nat, done: set<nat>): set<nat>
    requires i < |g|
  {
    set v | v in g[i] && v !in done
  }

  /** How far the in-degree queue has come: `done` was popped, in the order `rank` records. */
  ghost predicate Progress(g: Graph, done: set<nat>, rank: seq<nat>) {
    && |rank| == |g|
    && (forall u :: u in done ==> u < |g| && rank[u] < |done|)
    && (forall u, v :: u in done && v in g[u] ==> v in done && rank[v] < rank[u])
  }

  /** The queue holds exactly the unvisited units with no unvisited dependency. */
  ghost predicate Frontier(g: Graph, ready: seq<nat>, done: set<nat>, inDegree: seq<nat>)
    requires |inDegree| == |g|
  {
    && Distinct(ready)
    && forall i: nat :: i in ready <==> i < |g| && i !in done && inDegree[i] == 0
  }

  ghost predicate Counted(g: Graph, inDegree: seq<nat>, done: set<nat>) {
    && |inDegree| == |g|
    && forall i :: 0 <= i < |g| ==> inDegree[i] == |Waiting(g, i, done)|
  }

  lemma WaitingAfter(g: Graph, i: nat, done: set<nat>, u: nat)
    requires i < |g| && u !in done
    ensures |Waiting(g, i, done + {u})| == |Waiting(g, i, done)| - (if u in g[i] then 1 else 0)
  {
    if u in g[i] {
      assert Waiting(g, i, done) == Waiting(g, i, done + {u}) + {u};
    } else {
      assert Waiting(g, i, done) == Waiting(g, i, done + {u});
    }
  }

  lemma WaitingInitial(g: Graph, i: nat)
    requires WellFormed(g) && i < |g|
    ensures |Waiting(g, i, {})| == |g[i]|
  {
    DistinctSize(g[i]);
    assert Waiting(g, i, {}) == Elements(g[i]);
  }

  /** Popping `u` visits it: its dependencies are all behind it. */
  lemma Visit(g: Graph, done: set<nat>, rank: seq<nat>, u: nat)
    requires Progress(g, done, rank) && u < |g| && u !in done && |Waiting(g, u, done)| == 0
    ensures Progress(g, done + {u}, rank[u := |done|])
  {
    forall v | v in g[u] ensures v in done {
      assert v !in Waiting(g, u, done);
    }
  }

  /** The inner loop: release the dependents of the unit just popped. */
  method ReleaseDependents(index: nat, followers: seq<nat>, inDegree: array<nat>, queue: seq<nat>,
                           ghost g: Graph, ghost done: set<nat>) returns (ready: seq<nat>)
    requires index < |g| == inDegree.Length && index !in done
    requires Distinct(followers) && forall i: nat :: i in followers <==> i < |g| && index in g[i]
    requires Counted(g, inDegree[..], done)
    requires Frontier(g, queue, done + {index}, inDegree[..])
    requires forall i :: i in done ==> i < |g| && Waiting(g, i, done) == {}
    requires Waiting(g, index, done) == {}
    modifies inDegree
    ensures Counted(g, inDegree[..], done + {index})
    ensures Frontier(g, ready, done + {index}, inDegree[..])
  {
    ready := queue;
    for k := 0 to |followers|
      invariant forall i :: 0 <= i < |g| ==>
                  inDegree[i] == |Waiting(g, i, done)| - if i in followers[..k] then 1 else 0
      invariant Frontier(g, ready, done + {index}, inDegree[..])
    {
      var dependent := followers[k];
      assert dependent in followers && dependent !in followers[..k];
      assert index in Waiting(g, dependent, done);
      inDegree[dependent] := inDegree[dependent] - 1;
      if inDegree[dependent] == 0 {
        ready := ready + [dependent];
      }
    }
    forall i | 0 <= i < |g| ensures inDegree[i] == |Waiting(g, i, done + {index})| {
      assert followers[..|followers|] == followers;
      WaitingAfter(g, i, done, index);
    }
  }

  lemma NothingLeft(g: Graph, done: set<nat>, rank: seq<nat>, inDegree: seq<nat>)
    requires WellFormed(g) && Progress(g, done, rank) && Counted(g, inDegree, done) && Frontier(g, [], done, inDegree)
    ensures |done| == |g| <==> Acyclic(g)
  {
    hide Acyclic;
    var stuck := UpTo(|g|) - done;
    assert UpTo(|g|) == done + stuck;
    if |done| == |g| {
      assert stuck == {};
      assert Ranked(g, rank);
      RankedIsAcyclic(g, rank);
    } else {
      AllStuck(g, done, inDegree);
      hide *;
      StuckSetHasCycle(g, stuck);
    }
  }

  /** When nothing is ready, everything unvisited waits for something unvisited. */
  lemma AllStuck(g: Graph, done: set<nat>, inDegree: seq<nat>)
    requires WellFormed(g) && Counted(g, inDegree, done) && Frontier(g, [], done, inDegree)
    ensures forall u :: u in UpTo(|g|) - done ==> DependsInto(g, u, UpTo(|g|) - done)
  {
    var stuck := UpTo(|g|) - done;
    forall u | u in stuck ensures DependsInto(g, u, stuck) {
      assert u !in [] && |Waiting(g, u, done)| != 0;
      var v :| v in Waiting(g, u, done);
      assert v in g[u] && v in stuck;
    }
  }

  method FirstReady(inDegree: array<nat>) returns (ready: seq<nat>)
    ensures Distinct(ready) && forall j: nat :: j in ready <==> j < inDegree.Length && inDegree[j] == 0
  {
    ready := [];
    for i := 0 to inDegree.Length
      invariant Distinct(ready) && forall j: nat :: j in ready <==> j < i && inDegree[j] == 0
    {
      if inDegree[i] == 0 {
        ready := ready + [i];
      }
    }
  }

  /** The in-degree queue visits every unit exactly when no dependency cycle exists. */
  method VisitAll(inDegree: array<nat>, dependents: seq<seq<nat>>, ghost g: Graph) returns (visited: nat)
    requires WellFormed(g) && Inverse(dependents, g, |g|)
    requires inDegree.Length == |g| && forall i :: 0 <= i < |g| ==> inDegree[i] == |g[i]|
    modifies inDegree
    ensures visited == |g| <==> Acyclic(g)
  {
    hide Frontier, Counted, Progress, Waiting, Acyclic, WellFormed;
    var ready := FirstReady(inDegree);
    ghost var done: set<nat> := {};
    ghost var rank: seq<nat> := seq(|g|, _ => 0);
    NothingVisited(g, ready, rank, inDegree[..]);
    visited := 0;
    while ready != []
      invariant Progress(g, done, rank) && |rank| == |g| && visited == |done| <= |g|
      invariant Counted(g, inDegree[..], done)
      invariant Frontier(g, ready, done, inDegree[..])
      decreases |g| - |done|
    {
      var index := ready[0];
      PopFrontier(g, ready, done, rank, inDegree[..]);
      ready := ready[1..];
      visited := visited + 1;
      Followers(dependents, g, index);
      ready := ReleaseDependents(index, dependents[index], inDegree, ready, g, done);
      Visit(g, done, rank, index);
      rank := rank[index := |done|];
      done := done + {index};
    }
    NothingLeft(g, done, rank, inDegree[..]);
  }

  lemma Followers(dependents: seq<seq<nat>>, g: Graph, index: nat)
    requires Inverse(dependents, g, |g|) && index < |g|
    ensures forall i: nat :: i in dependents[index] <==> i < |g| && index in g[i]
  {
    forall i: nat ensures i in dependents[index] <==> i < |g| && index in g[i] {
      assert Mirrors(dependents, g, index, i);
    }
  }

  lemma NothingVisited(g: Graph, ready: seq<nat>, rank: seq<nat>, inDegree: seq<nat>)
    requires WellFormed(g) && |rank| == |inDegree| == |g| && forall i :: 0 <= i < |g| ==> inDegree[i] == |g[i]|
    requires Distinct(ready) && forall j: nat :: j in ready <==> j < |g| && inDegree[j] == 0
    ensures Progress(g, {}, rank) && Counted(g, inDegree, {}) && Frontier(g, ready, {}, inDegree)
  {
    forall i | 0 <= i < |g| ensures inDegree[i] == |Waiting(g, i, {})| {
      WaitingInitial(g, i);
    }
  }

  lemma PopFrontier(g: Graph, ready: seq<nat>, done: set<nat>, rank: seq<nat>, inDegree: seq<nat>)
    requires ready != [] && Counted(g, inDegree, done) && Frontier(g, ready, done, inDegree) && Progress(g, done, rank)
    ensures ready[0] < |g| && ready[0] !in done && |done| < |g| && Waiting(g, ready[0], done) == {}
    ensures Frontier(g, ready[1..], done + {ready[0]}, inDegree)
    ensures forall i :: i in done ==> i < |g| && Waiting(g, i, done) == {}
  {
    assert ready == [ready[0]] + ready[1..];
    assert ready[0] in ready;
    BoundedSet(done + {ready[0]}, |g|);
    forall i: nat ensures i in ready[1..] <==> i in ready && i != ready[0] {}
  }

  /** Acceptance: the entries are well shaped, every dependency exists, and no cycle does. */
  method CheckManifest(entries: seq<Entry>) returns (ok: bool)
    ensures ok <==> EntriesOk(entries) && exists g :: GraphOf(entries, g) && Acyclic(g)
  {
    hide EntryOk;
    ok := CheckEntries(entries);
    if !ok {
      return;
    }
    var found, inDegree, dependents, g := ResolveDependencies(entries);
    if !found {
      return false;
    }
    GraphWellFormed(entries, g);
    var visited := VisitAll(inDegree, dependents, g);
    ok := visited == |entries|;
    forall h | GraphOf(entries, h) ensures h == g {
      EntriesOkUnique(entries);
      GraphUnique(entries, g, h);
    }
  }
}
