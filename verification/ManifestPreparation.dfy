/** From a parsed manifest to the tables that the residency engine works on. */
module ManifestPreparation {
  import opened DependencyGraph
  import opened Options
  import opened KeyOrder
  import opened ManifestCheck
  import opened ResidencyState

  /** The size check is one of an entry's field checks. */
  ghost predicate SizesChecked(l: Limits, entries: seq<Entry>, units: seq<Unit>) {
    && |units| == |entries|
    && forall i :: 0 <= i < |entries| && entries[i].fieldsValid ==> 0 < units[i].compressedBytes <= l.maxPayloadBytes
  }

  /** One entry's dependencies, looked up, with the entry added to the list of each. */
  method LinkEntry(entries: seq<Entry>, i: nat, indices: map<string, nat>, before: seq<seq<nat>>, ghost g: Graph)
    returns (row: seq<nat>, dependents: seq<seq<nat>>)
    requires i < |entries| && i == |g| && Ascending(entries[i].dependencies)
    requires forall key :: key in indices ==> indices[key] < |entries| && entries[indices[key]].key == key
    requires forall k :: 0 <= k < |entries[i].dependencies| ==> entries[i].dependencies[k] in indices
    requires Inverse(before, g + [[]], |entries|)
    ensures Resolves(entries, entries[i].dependencies, row)
    ensures Inverse(dependents, g + [row], |entries|)
  {
    hide Less;
    var names := entries[i].dependencies;
    AscendingDistinct(names);
    row, dependents := [], before;
    for k := 0 to |names|
      invariant |row| == k && |dependents| == |entries|
      invariant Resolves(entries, names[..k], row)
      invariant Inverse(dependents, g + [row], |entries|)
    {
      var target := indices[names[k]];
      LinkDependent(dependents, g, row, |entries|, target);
      dependents := dependents[target := dependents[target] + [i]];
      row := row + [target];
    }
    assert names[..|names|] == names;
  }

  /** Every name that a resolved graph stands for is the key of some entry. */
  lemma NamesKnown(entries: seq<Entry>, h: Graph, indices: map<string, nat>, i: nat)
    requires GraphOf(entries, h) && i < |entries|
    requires forall j :: 0 <= j < |entries| ==> entries[j].key in indices
    ensures forall k :: 0 <= k < |entries[i].dependencies| ==> entries[i].dependencies[k] in indices
  {
    var names := entries[i].dependencies;
    forall k | 0 <= k < |names| ensures names[k] in indices {
      assert Resolves(entries, names, h[i]);
      assert entries[h[i][k]].key in indices;
    }
  }

  /** The second walk over an accepted manifest, which fills the engine's tables. */
  method BuildTables(entries: seq<Entry>, ghost h: Graph) returns (graph: Graph, dependents: seq<seq<nat>>)
    requires EntriesOk(entries) && GraphOf(entries, h)
    ensures GraphOf(entries, graph) && Inverse(dependents, graph, |entries|)
  {
    hide EntryOk, Ascending;
    EntriesOkUnique(entries);
    var indices := IndexKeys(entries);
    graph, dependents := [], seq(|entries|, _ => []);
    for i := 0 to |entries|
      invariant |graph| == i
      invariant forall j :: 0 <= j < i ==> Resolves(entries, entries[j].dependencies, graph[j])
      invariant Inverse(dependents, graph, |entries|)
    {
      EntryAscending(entries[i]);
      NamesKnown(entries, h, indices, i);
      StartRow(dependents, graph, |entries|);
      var row;
      row, dependents := LinkEntry(entries, i, indices, dependents, graph);
      graph := graph + [row];
    }
  }

  lemma SizesOk(l: Limits, entries: seq<Entry>, units: seq<Unit>)
    requires EntriesOk(entries) && SizesChecked(l, entries, units)
    ensures forall i :: 0 <= i < |units| ==> 0 < units[i].compressedBytes <= l.maxPayloadBytes
  {
    hide ValidKey, Ascending, DependencyOk, EdgeCount, Keys;
    forall i | 0 <= i < |units| ensures 0 < units[i].compressedBytes <= l.maxPayloadBytes {
      assert EntryOk(entries[i]);
    }
  }

  lemma LinksOk(dependents: seq<seq<nat>>, g: Graph)
    requires Inverse(dependents, g, |g|)
    ensures forall d, i :: 0 <= d < |g| && 0 <= i < |g| ==> (i in dependents[d] <==> d in g[i])
    ensures forall d, i :: 0 <= d < |g| && i in dependents[d] ==> i < |g|
  {
    hide Distinct;
    forall d, i | 0 <= d < |g| && 0 <= i < |g| ensures i in dependents[d] <==> d in g[i] {
      assert Mirrors(dependents, g, d, i);
    }
    forall d, i | 0 <= d < |g| && i in dependents[d] ensures i < |g| {
      assert Mirrors(dependents, g, d, i);
    }
  }

  lemma TablesOk(l: Limits, entries: seq<Entry>, m: Manifest)
    requires EntriesOk(entries) && SizesChecked(l, entries, m.units)
    requires GraphOf(entries, m.graph) && Acyclic(m.graph) && Inverse(m.dependents, m.graph, |entries|)
    ensures ManifestOk(l, m)
  {
    hide EntryOk, Ascending, EdgeCount, Keys, Resolves, Acyclic, WellFormed, Mirrors, Distinct;
    GraphWellFormed(entries, m.graph);
    SizesOk(l, entries, m.units);
    LinksOk(m.dependents, m.graph);
    assert |m.units| == |m.graph| == |m.dependents| <= MAX_UNITS;
    hide EntriesOk, GraphOf, SizesChecked, Inverse;
  }

  /** What the worker prepares from a manifest: exactly the accepted ones, and always fit for the engine. */
  method PrepareManifest(l: Limits, entries: seq<Entry>, units: seq<Unit>) returns (r: Option<Manifest>)
    requires SizesChecked(l, entries, units)
    ensures r.Some? <==> EntriesOk(entries) && exists g :: GraphOf(entries, g) && Acyclic(g)
    ensures r.Some? ==> ManifestOk(l, r.value) && r.value.units == units && GraphOf(entries, r.value.graph)
  {
    hide EntryOk, Acyclic;
    var ok := CheckManifest(entries);
    if !ok {
      return None;
    }
    ghost var h :| GraphOf(entries, h) && Acyclic(h);
    var graph, dependents := BuildTables(entries, h);
    EntriesOkUnique(entries);
    GraphUnique(entries, graph, h);
    r := Some(Manifest(units, graph, dependents));
    TablesOk(l, entries, r.value);
  }
}
