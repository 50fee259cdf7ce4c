/** Validating and copying a fixed manifest of files. */
module Delivery {
  import opened Wrappers
  import opened PathText
  import opened DeliveryTree

  const SCHEMA := "agi_v8_1.selected_skeleton_delivery.v1"
  const SCOPE := "selected-public-skeleton-v1"
  const MANIFEST_NAME := "delivery-manifest.json"
  const MAX_FILE_BYTES := 2 * 1024 * 1024
  const MAX_TOTAL_BYTES := 16 * 1024 * 1024

  /** The hash is ideal: a digest is known by the bytes it was taken of. */
  datatype Digest = Sha256(of: Bytes)

  datatype DeliveryEntry =
    DeliveryEntry(kind: string, source: string, destination: string, sha256: Digest, sizeBytes: int)
  datatype Manifest = Manifest(entries: seq<DeliveryEntry>, schema: string, scope: string)
  datatype Coordinate = Coordinate(kind: string, source: string, destination: string)

  /** The reviewed coordinates, and the payload paths that no public bundle may hold. */
  datatype Plan = Plan(coordinates: seq<Coordinate>, payload: set<string>)

  predicate Matches(data: Bytes, e: DeliveryEntry) { |data| == e.sizeBytes && Sha256(data) == e.sha256 }

  // ------------------------------------------------------------- manifest

  function TotalSize(entries: seq<DeliveryEntry>): int {
    if entries == [] then 0 else TotalSize(entries[..|entries| - 1]) + entries[|entries| - 1].sizeBytes
  }

  ghost predicate ValidManifest(m: Manifest, plan: Plan) {
    && m.schema == SCHEMA && m.scope == SCOPE
    && m.entries != [] && |m.entries| == |plan.coordinates|
    && (forall i :: 0 <= i < |m.entries| ==> EntryOk(m.entries[i], plan.coordinates[i]))
    && DistinctDestinations(m.entries)
    && TotalSize(m.entries) <= MAX_TOTAL_BYTES
    && (forall i :: 0 <= i < |m.entries| ==> m.entries[i].destination !in plan.payload)
  }

  predicate EntryOk(e: DeliveryEntry, c: Coordinate) {
    && Relative(e.source).Some? && Relative(e.destination).Some?
    && Coordinate(e.kind, e.source, e.destination) == c
    && 0 <= e.sizeBytes <= MAX_FILE_BYTES
  }

  /** An accepted relative path: proper names between slashes, and no backslash. */
  ghost predicate ProperText(value: string) {
    '\\' !in value && exists p :: ProperPath(p) && Join(p, '/') == value
  }

  /** The conditions on a manifest, field by field. */
  ghost predicate ManifestSpelled(m: Manifest, plan: Plan) {
    && m.schema == "agi_v8_1.selected_skeleton_delivery.v1" && m.scope == "selected-public-skeleton-v1"
    && m.entries != [] && |m.entries| == |plan.coordinates|
    && (forall i :: 0 <= i < |m.entries| ==>
          && m.entries[i].kind == plan.coordinates[i].kind
          && m.entries[i].source == plan.coordinates[i].source && ProperText(m.entries[i].source)
          && m.entries[i].destination == plan.coordinates[i].destination && ProperText(m.entries[i].destination)
          && m.entries[i].destination !in plan.payload
          && 0 <= m.entries[i].sizeBytes <= 2097152)
    && (forall i, j :: 0 <= i < |m.entries| && 0 <= j < |m.entries| && i != j ==>
          m.entries[i].destination != m.entries[j].destination)
    && SumOfSizes(m.entries) <= 16777216
  }

  /** Summed from the front. */
  function SumOfSizes(entries: seq<DeliveryEntry>): int {
    if entries == [] then 0 else entries[0].sizeBytes + SumOfSizes(entries[1..])
  }

  lemma {:induction false} SizesSummed(entries: seq<DeliveryEntry>)
    ensures TotalSize(entries) == SumOfSizes(entries)
  {
    if |entries| == 1 {
      assert entries[..0] == [] && entries[1..] == [];
    } else if |entries| > 1 {
      var n := |entries| - 1;
      SizesSummed(entries[..n]);
      SizesSummed(entries[1..]);
      SizesSummed(entries[1..n]);
      assert entries[..n][1..] == entries[1..n] && entries[1..][..n - 1] == entries[1..n];
      SumSplit(entries);
    }
  }

  lemma SumSplit(entries: seq<DeliveryEntry>)
    requires |entries| > 1
    ensures SumOfSizes(entries) == entries[0].sizeBytes + SumOfSizes(entries[1..])
    ensures SumOfSizes(entries[..|entries| - 1]) == entries[0].sizeBytes + SumOfSizes(entries[1..|entries| - 1])
    ensures TotalSize(entries[1..]) == TotalSize(entries[1..|entries| - 1]) + entries[|entries| - 1].sizeBytes
  {
    assert entries[..|entries| - 1][1..] == entries[1..|entries| - 1];
    assert entries[1..][..|entries| - 2] == entries[1..|entries| - 1];
  }

  lemma RelativeIsProper(value: string)
    ensures Relative(value).Some? <==> ProperText(value)
  {
    if Relative(value).Some? { RelativeExactly(value, Relative(value).value); }
    if ProperText(value) {
      var p :| ProperPath(p) && Join(p, '/') == value;
      RelativeExactly(value, p);
    }
  }

  lemma EntrySpelled(e: DeliveryEntry, c: Coordinate)
    ensures EntryOk(e, c) <==>
            && e.kind == c.kind && e.source == c.source && ProperText(e.source)
            && e.destination == c.destination && ProperText(e.destination) && 0 <= e.sizeBytes <= 2097152
  {
    RelativeIsProper(e.source);
    RelativeIsProper(e.destination);
  }

  lemma {:induction false} ValidSpelled(m: Manifest, plan: Plan)
    ensures ValidManifest(m, plan) <==> ManifestSpelled(m, plan)
  {
    SizesSummed(m.entries);
    if |m.entries| == |plan.coordinates| {
      forall i | 0 <= i < |m.entries|
        ensures EntryOk(m.entries[i], plan.coordinates[i]) <==>
                && m.entries[i].kind == plan.coordinates[i].kind
                && m.entries[i].source == plan.coordinates[i].source && ProperText(m.entries[i].source)
                && m.entries[i].destination == plan.coordinates[i].destination && ProperText(m.entries[i].destination)
                && 0 <= m.entries[i].sizeBytes <= 2097152
      {
        EntrySpelled(m.entries[i], plan.coordinates[i]);
      }
    }
  }

  method ValidateManifest(m: Manifest, plan: Plan) returns (ok: bool)
    ensures ok == ValidManifest(m, plan)
    ensures ok <==> ManifestSpelled(m, plan)
  {
    ValidSpelled(m, plan);
    if m.schema != SCHEMA || m.scope != SCOPE { return false; }
    if m.entries == [] || |m.entries| != |plan.coordinates| { return false; }
    var listed, seen, total := CheckEntries(m.entries, plan.coordinates);
    ok := listed && total <= MAX_TOTAL_BYTES && seen * plan.payload == {};
    if listed {
      assert forall i :: 0 <= i < |m.entries| ==> m.entries[i].destination in seen;
      assert forall d :: d in seen && d in plan.payload ==> d in seen * plan.payload;
    }
  }

  function Destinations(entries: seq<DeliveryEntry>): set<string> { set e | e in entries :: e.destination }

  ghost predicate DistinctDestinations(entries: seq<DeliveryEntry>) {
    forall i, j :: 0 <= i < j < |entries| ==> entries[i].destination != entries[j].destination
  }

  lemma DistinctSoFar(entries: seq<DeliveryEntry>, k: nat)
    requires k < |entries|
    ensures DistinctDestinations(entries[..k + 1]) <==>
            DistinctDestinations(entries[..k]) && entries[k].destination !in Destinations(entries[..k])
    ensures DistinctDestinations(entries) ==> DistinctDestinations(entries[..k + 1])
  {
    var before, e := entries[..k], entries[k];
    if e.destination in Destinations(before) {
      var i :| 0 <= i < k && before[i].destination == e.destination;
      assert entries[..k + 1][i] == before[i] && entries[..k + 1][k] == e;
    }
    if e.destination !in Destinations(before) {
      assert forall i :: 0 <= i < k ==> before[i] in before && entries[..k + 1][i] == before[i];
    }
    assert forall i :: 0 <= i < k ==> before[i] == entries[..k + 1][i];
  }

  lemma AddEntry(entries: seq<DeliveryEntry>, k: nat)
    requires k < |entries|
    ensures Destinations(entries[..k + 1]) == Destinations(entries[..k]) + {entries[k].destination}
    ensures TotalSize(entries[..k + 1]) == TotalSize(entries[..k]) + entries[k].sizeBytes
  {
    assert entries[..k + 1] == entries[..k] + [entries[k]];
  }

  method CheckEntries(entries: seq<DeliveryEntry>, coordinates: seq<Coordinate>)
    returns (ok: bool, seen: set<string>, total: int)
    requires |entries| == |coordinates|
    ensures ok <==>
            DistinctDestinations(entries) && forall i :: 0 <= i < |entries| ==> EntryOk(entries[i], coordinates[i])
    ensures ok ==> seen == Destinations(entries) && total == TotalSize(entries)
  {
    seen, total := {}, 0;
    for k := 0 to |entries|
      invariant DistinctDestinations(entries[..k])
      invariant forall i :: 0 <= i < k ==> EntryOk(entries[i], coordinates[i])
      invariant seen == Destinations(entries[..k]) && total == TotalSize(entries[..k])
    {
      var e, expected := entries[k], coordinates[k];
      DistinctSoFar(entries, k);
      AddEntry(entries, k);
      if e.destination in seen { return false, seen, total; }
      if Relative(e.source).None? || Relative(e.destination).None? { return false, seen, total; }
      seen := seen + {e.destination};
      if Coordinate(e.kind, e.source, e.destination) != expected { return false, seen, total; }
      if !(0 <= e.sizeBytes <= MAX_FILE_BYTES) { return false, seen, total; }
      total := total + e.sizeBytes;
    }
    assert entries[..|entries|] == entries;
    ok := true;
  }

  // ------------------------------------------------------------ inventory

  /** Where the files of a bundle belong: every destination, then the manifest. */
  function Paths(m: Manifest): (r: seq<Path>)
    requires forall e :: e in m.entries ==> Relative(e.destination).Some?
    ensures |r| == |m.entries| + 1 && r[|m.entries|] == [MANIFEST_NAME]
    ensures forall i :: 0 <= i < |m.entries| ==> r[i] == Relative(m.entries[i].destination).value
    ensures forall p :: p in r ==> p != []
  {
    seq(|m.entries|, i requires 0 <= i < |m.entries| => Relative(m.entries[i].destination).value) + [[MANIFEST_NAME]]
  }

  /** The names that some path has directly below d. */
  function Expected(paths: seq<Path>, d: Path): set<string> {
    set k, i | 0 <= k < |paths| && 0 <= i < |paths[k]| && paths[k][..i] == d :: paths[k][i]
  }

  /** d lies properly above some path. */
  ghost predicate IsAbove(paths: seq<Path>, d: Path) {
    exists k, i :: 0 <= k < |paths| && 0 <= i < |paths[k]| && paths[k][..i] == d
  }

  /** The local check: each expected directory lists exactly the expected names. */
  ghost predicate InventoryOk(t: Tree, paths: seq<Path>) {
    forall d :: IsAbove(paths, d) ==> IsDir(t, d) && Listing(t, d) == Expected(paths, d)
  }

  /** The global statement: these files, the directories they need, and nothing else at any depth. */
  ghost predicate Pinned(t: Tree, paths: seq<Path>) {
    && (forall p :: p in t <==> p in paths || IsAbove(paths, p))
    && FilesThere(t, paths)
    && (forall d :: IsAbove(paths, d) ==> IsDir(t, d))
  }

  lemma ExpectedMember(paths: seq<Path>, d: Path, n: string)
    ensures n in Expected(paths, d) <==> d + [n] in paths || IsAbove(paths, d + [n])
  {
    if n in Expected(paths, d) {
      var k, i :| 0 <= k < |paths| && 0 <= i < |paths[k]| && paths[k][..i] == d && paths[k][i] == n;
      assert paths[k][..i + 1] == d + [n];
      if i + 1 == |paths[k]| { assert paths[k] == d + [n]; }
    }
    if d + [n] in paths {
      var k :| 0 <= k < |paths| && paths[k] == d + [n];
      assert paths[k][..|d|] == d && paths[k][|d|] == n;
    }
    if IsAbove(paths, d + [n]) {
      var k, i :| 0 <= k < |paths| && 0 <= i < |paths[k]| && paths[k][..i] == d + [n];
      assert i == |d| + 1 && paths[k][..|d|] == paths[k][..i][..|d|] == d;
      assert paths[k][|d|] == paths[k][..i][|d|] == n;
    }
  }

  /** The listings of the expected directories, read locally, pin the whole recursive tree. */
  lemma {:induction false} ListingsPinTree(t: Tree, paths: seq<Path>)
    requires WellFormed(t) && paths != [] && forall p :: p in paths ==> p != []
    ensures InventoryOk(t, paths) && FilesThere(t, paths) <==> Pinned(t, paths)
  {
    if InventoryOk(t, paths) && FilesThere(t, paths) { NothingElse(t, paths); }
    if Pinned(t, paths) { PinnedListings(t, paths); }
  }

  ghost predicate FilesThere(t: Tree, paths: seq<Path>) { forall p :: p in paths ==> p in t && t[p].Reg? }

  lemma NothingElse(t: Tree, paths: seq<Path>)
    requires WellFormed(t) && paths != [] && forall p :: p in paths ==> p != []
    requires InventoryOk(t, paths) && FilesThere(t, paths)
    ensures Pinned(t, paths)
  {
    forall p ensures p in t <==> p in paths || IsAbove(paths, p) {
      if p in t { OnlyExpected(t, paths, p); }
    }
  }

  lemma {:induction false} PinnedListings(t: Tree, paths: seq<Path>)
    requires Pinned(t, paths)
    ensures InventoryOk(t, paths)
  {
    forall d | IsAbove(paths, d) ensures Listing(t, d) == Expected(paths, d) {
      forall n ensures n in Listing(t, d) <==> n in Expected(paths, d) {
        ListingMember(t, d, n);
        ExpectedMember(paths, d, n);
      }
    }
  }

  lemma {:induction false} OnlyExpected(t: Tree, paths: seq<Path>, p: Path)
    requires WellFormed(t) && paths != [] && paths[0] != [] && InventoryOk(t, paths)
    requires FilesThere(t, paths)
    requires p in t
    ensures p in paths || IsAbove(paths, p)
    decreases |p|
  {
    if p == [] {
      assert paths[0][..0] == p;
    } else {
      var d, n := p[..|p| - 1], p[|p| - 1];
      assert p == d + [n];
      OnlyExpected(t, paths, d);
      ListingMember(t, d, n);
      ExpectedMember(paths, d, n);
    }
  }

  // ----------------------------------------- the inventory as it is computed

  function Key(d: Path): string { Join(d, '/') }

  function FromKey(key: string): Path { if key == "" then [] else Split(key, '/') }

  /** Clean components: none empty, none with a slash. */
  ghost predicate Clean(p: Path) { forall i :: 0 <= i < |p| ==> p[i] != "" && '/' !in p[i] }

  lemma KeyRoundTrip(d: Path)
    requires Clean(d)
    ensures FromKey(Key(d)) == d
  {
    if d != [] {
      SplitOfJoin(d, '/');
      if |d| == 1 {} else { assert |Key(d)| > 0; }
    }
  }

  lemma RelativeClean(value: string)
    requires Relative(value).Some?
    ensures Clean(Relative(value).value)
  {
    var parts := Split(value, '/');
    forall i | 0 <= i < |parts| ensures parts[i] != "" && '/' !in parts[i] {
      assert parts[i] in parts;
    }
  }

  /** The table of children: for each directory above the paths, and those in `extra`, the expected names. */
  ghost predicate Reflects(children: map<string, set<string>>, paths: seq<Path>, extra: set<Path>) {
    && (forall d :: Clean(d) ==> (Key(d) in children <==> d == [] || IsAbove(paths, d) || d in extra))
    && (forall d :: Clean(d) && Key(d) in children ==> children[Key(d)] == Expected(paths, d))
    && (forall key :: key in children ==> Clean(FromKey(key)) && Key(FromKey(key)) == key)
  }

  lemma AboveStep(paths: seq<Path>, path: Path, i: nat, d: Path)
    requires i < |path|
    ensures IsAbove(paths + [path[..i + 1]], d) <==> IsAbove(paths + [path[..i]], d) || d == path[..i]
    ensures Expected(paths + [path[..i + 1]], d) ==
            Expected(paths + [path[..i]], d) + if d == path[..i] then {path[i]} else {}
  {
    var a, b := paths + [path[..i]], paths + [path[..i + 1]];
    var k := |paths|;
    assert b[k][..i] == path[..i] && b[k][i] == path[i];
    assert forall j :: 0 <= j < k ==> a[j] == b[j];
    assert forall j :: 0 <= j < i ==> a[k][..j] == b[k][..j] && a[k][j] == b[k][j];
  }

  lemma AboveStart(paths: seq<Path>, d: Path)
    ensures IsAbove(paths + [[]], d) <==> IsAbove(paths, d)
    ensures Expected(paths + [[]], d) == Expected(paths, d)
  {
    assert forall j :: 0 <= j < |paths| ==> (paths + [[]])[j] == paths[j];
  }

  lemma KeysDiffer(d: Path, e: Path)
    requires Clean(d) && Clean(e) && Key(d) == Key(e)
    ensures d == e
  {
    KeyRoundTrip(d);
    KeyRoundTrip(e);
  }

  /** children.setdefault(key, set()) followed by adding the given names. */
  function Added(children: map<string, set<string>>, key: string, names: set<string>): map<string, set<string>> {
    children[key := (if key in children then children[key] else {}) + names]
  }

  method AddPath(start: map<string, set<string>>, ghost paths: seq<Path>, path: Path)
    returns (children: map<string, set<string>>)
    requires path != [] && Clean(path) && Reflects(start, paths, {})
    ensures Reflects(children, paths + [path], {})
  {
    children := start;
    assert path[..0] == [];
    forall d { AboveStart(paths, d); }
    for i := 0 to |path|
      invariant Reflects(children, paths + [path[..i]], if i < |path| then {path[..i]} else {})
    {
      children := OneLevel(children, paths, path, i);
    }
    assert path[..|path|] == path;
  }

  /** Record one component below its directory, and open the next directory unless it is the last. */
  method OneLevel(start: map<string, set<string>>, ghost paths: seq<Path>, path: Path, i: nat)
    returns (children: map<string, set<string>>)
    requires Clean(path) && i < |path| && Reflects(start, paths + [path[..i]], {path[..i]})
    ensures Reflects(children, paths + [path[..i + 1]], if i + 1 < |path| then {path[..i + 1]} else {})
  {
    children := Added(start, Key(path[..i]), {path[i]});
    NameAdded(start, paths, path, i);
    if i < |path| - 1 {
      DirectoryAdded(children, paths, path[..i + 1]);
      children := Added(children, Key(path[..i + 1]), {});
    }
  }

  lemma NameAdded(start: map<string, set<string>>, paths: seq<Path>, path: Path, i: nat)
    requires Clean(path) && i < |path| && Reflects(start, paths + [path[..i]], {path[..i]})
    ensures Reflects(Added(start, Key(path[..i]), {path[i]}), paths + [path[..i + 1]], {})
  {
    var here := path[..i];
    forall d | Clean(d)
      ensures Key(d) in Added(start, Key(here), {path[i]}) <==> d == [] || IsAbove(paths + [path[..i + 1]], d)
      ensures Key(d) in Added(start, Key(here), {path[i]}) ==>
                Added(start, Key(here), {path[i]})[Key(d)] == Expected(paths + [path[..i + 1]], d)
    {
      NameAddedAt(start, paths, path, i, d);
    }
    KeyRoundTrip(here);
  }

  lemma NameAddedAt(start: map<string, set<string>>, paths: seq<Path>, path: Path, i: nat, d: Path)
    requires Clean(path) && Clean(d) && i < |path| && Key(path[..i]) in start
    requires Key(d) in start <==> d == [] || IsAbove(paths + [path[..i]], d) || d == path[..i]
    requires Key(d) in start ==> start[Key(d)] == Expected(paths + [path[..i]], d)
    ensures Key(d) in Added(start, Key(path[..i]), {path[i]}) <==> d == [] || IsAbove(paths + [path[..i + 1]], d)
    ensures Key(d) in Added(start, Key(path[..i]), {path[i]}) ==>
              Added(start, Key(path[..i]), {path[i]})[Key(d)] == Expected(paths + [path[..i + 1]], d)
  {
    AboveStep(paths, path, i, d);
    if Key(d) == Key(path[..i]) { KeysDiffer(d, path[..i]); }
  }

  lemma DirectoryAdded(children: map<string, set<string>>, paths: seq<Path>, next: Path)
    requires Clean(next) && Reflects(children, paths + [next], {})
    ensures Reflects(Added(children, Key(next), {}), paths + [next], {next})
  {
    NothingBelowEnd(paths, next);
    forall d | Clean(d) && Key(d) == Key(next) ensures d == next { KeysDiffer(d, next); }
    KeyRoundTrip(next);
    assert next == [] ==> Key(next) in children;
  }

  lemma NothingBelowEnd(paths: seq<Path>, p: Path)
    ensures !IsAbove(paths + [p], p) ==> Expected(paths + [p], p) == {}
  {
  }

  method ValidateInventory(tree: FileTree, m: Manifest) returns (ok: bool)
    requires WellFormed(tree.nodes)
    requires forall e :: e in m.entries ==> Relative(e.destination).Some?
    ensures ok == InventoryOk(tree.nodes, Paths(m))
  {
    var paths := Paths(m);
    var children: map<string, set<string>> := map["" := {}];
    RootReflects();
    assert paths[..0] == [];
    for k := 0 to |paths|
      invariant Reflects(children, paths[..k], {})
    {
      PathsClean(m, k);
      children := AddPath(children, paths[..k], paths[k]);
      assert paths[..k] + [paths[k]] == paths[..k + 1];
    }
    assert paths[..|paths|] == paths;
    RootIsAbove(m);
    ok := ListAll(tree, children, paths);
  }

  lemma RootReflects()
    ensures Reflects(map["" := {}], [], {})
  {
    forall d | Clean(d) && Key(d) == "" ensures d == [] { KeyRoundTrip(d); }
  }

  lemma RootIsAbove(m: Manifest)
    requires forall e :: e in m.entries ==> Relative(e.destination).Some?
    ensures IsAbove(Paths(m), [])
    ensures forall p :: p in Paths(m) ==> Clean(p)
  {
    assert Paths(m)[|m.entries|][..0] == [];
    forall p | p in Paths(m) ensures Clean(p) {
      var k :| 0 <= k < |Paths(m)| && Paths(m)[k] == p;
      PathsClean(m, k);
    }
  }

  lemma PathsClean(m: Manifest, k: nat)
    requires forall e :: e in m.entries ==> Relative(e.destination).Some?
    requires k <= |m.entries|
    ensures Clean(Paths(m)[k]) && Paths(m)[k] != []
  {
    if k < |m.entries| { RelativeClean(m.entries[k].destination); }
  }

  method ListAll(tree: FileTree, children: map<string, set<string>>, ghost paths: seq<Path>) returns (ok: bool)
    requires WellFormed(tree.nodes) && Reflects(children, paths, {}) && IsAbove(paths, [])
    requires forall p :: p in paths ==> Clean(p)
    ensures ok == InventoryOk(tree.nodes, paths)
  {
    var todo := children.Keys;
    while todo != {}
      invariant todo <= children.Keys
      invariant forall key :: key in children && key !in todo ==>
                  IsDir(tree.nodes, FromKey(key)) && Listing(tree.nodes, FromKey(key)) == children[key]
    {
      var key :| key in todo;
      todo := todo - {key};
      assert FromKey(key) == [] || IsAbove(paths, FromKey(key));
      assert children[Key(FromKey(key))] == Expected(paths, FromKey(key));
      var there := tree.OpenDirectory(FromKey(key), false);
      if !there || Listing(tree.nodes, FromKey(key)) != children[key] { return false; }
    }
    forall d | IsAbove(paths, d) ensures IsDir(tree.nodes, d) && Listing(tree.nodes, d) == Expected(paths, d) {
      AboveIsClean(paths, d);
      KeyRoundTrip(d);
      assert Key(d) in children;
    }
    return true;
  }

  lemma AboveIsClean(paths: seq<Path>, d: Path)
    requires IsAbove(paths, d) && forall p :: p in paths ==> Clean(p)
    ensures Clean(d)
  {
    var k, i :| 0 <= k < |paths| && 0 <= i < |paths[k]| && paths[k][..i] == d;
    assert paths[k] in paths;
  }

  // ------------------------------------------------------------- validation

  /** The tree holds the manifest's files with their recorded bytes, and nothing else at any depth. */
  ghost predicate ExactBundle(t: Tree, m: Manifest, text: Bytes)
    requires forall e :: e in m.entries ==> Relative(e.destination).Some?
  {
    && Pinned(t, Paths(m))
    && t[[MANIFEST_NAME]] == Reg(text)
    && forall i :: 0 <= i < |m.entries| ==> Matches(t[Paths(m)[i]].data, m.entries[i])
  }

  /** The files of a bundle, spelled out: at each destination these bytes, the manifest beside them, no other node. */
  ghost predicate BundleSpelled(t: Tree, m: Manifest, text: Bytes) {
    && ["delivery-manifest.json"] in t && t[["delivery-manifest.json"]] == Reg(text)
    && (forall i :: 0 <= i < |m.entries| ==>
          && FileAt(t, m.entries[i].destination) && |BytesAt(t, m.entries[i].destination)| == m.entries[i].sizeBytes
          && m.entries[i].sha256 == Sha256(BytesAt(t, m.entries[i].destination)))
    && (forall p :: p in t ==>
          || p == ["delivery-manifest.json"] || IsDestination(m, p)
          || (t[p] == Dir && (p == [] || IsOverDestination(m, p))))
  }

  predicate FileAt(t: Tree, destination: string) {
    Split(destination, '/') in t && t[Split(destination, '/')].Reg?
  }

  function BytesAt(t: Tree, destination: string): Bytes
    requires FileAt(t, destination)
  {
    t[Split(destination, '/')].data
  }

  lemma {:induction false} ExactSpelled(t: Tree, m: Manifest, text: Bytes)
    requires WellFormed(t) && forall e :: e in m.entries ==> Relative(e.destination).Some?
    requires ExactBundle(t, m, text)
    ensures BundleSpelled(t, m, text)
  {
    var paths := Paths(m);
    assert paths[|m.entries|] in paths;
    forall i | 0 <= i < |m.entries|
      ensures FileAt(t, m.entries[i].destination) && |BytesAt(t, m.entries[i].destination)| == m.entries[i].sizeBytes
      ensures m.entries[i].sha256 == Sha256(BytesAt(t, m.entries[i].destination))
    {
      assert paths[i] in paths && paths[i] == Split(m.entries[i].destination, '/');
      assert Matches(t[paths[i]].data, m.entries[i]);
    }
    forall p | p in t
      ensures || p == ["delivery-manifest.json"] || IsDestination(m, p)
              || (t[p] == Dir && (p == [] || IsOverDestination(m, p)))
    {
      if p in paths {
        var k :| 0 <= k < |paths| && paths[k] == p;
        assert k < |m.entries| ==> p == Split(m.entries[k].destination, '/');
      } else {
        var k, i :| 0 <= k < |paths| && 0 <= i < |paths[k]| && paths[k][..i] == p;
        assert k < |m.entries| ==> p < Split(m.entries[k].destination, '/');
      }
    }
  }

  lemma {:induction false} SpelledIsExact(t: Tree, m: Manifest, text: Bytes)
    requires WellFormed(t) && forall e :: e in m.entries ==> Relative(e.destination).Some?
    requires BundleSpelled(t, m, text)
    ensures ExactBundle(t, m, text)
  {
    var paths := Paths(m);
    forall p | p in paths ensures p in t && t[p].Reg? {
      var k :| 0 <= k < |paths| && paths[k] == p;
      if k < |m.entries| { assert FileAt(t, m.entries[k].destination); }
    }
    forall d | IsAbove(paths, d) ensures IsDir(t, d) {
      var k, i :| 0 <= k < |paths| && 0 <= i < |paths[k]| && paths[k][..i] == d;
      assert paths[k] in paths;
    }
    forall p | p in t ensures p in paths || IsAbove(paths, p) { OnlyBundleNodes(t, m, text, p); }
    forall i | 0 <= i < |m.entries| ensures Matches(t[paths[i]].data, m.entries[i]) {
      assert FileAt(t, m.entries[i].destination) && BytesAt(t, m.entries[i].destination) == t[paths[i]].data;
    }
  }

  lemma {:induction false} BundleExactly(t: Tree, m: Manifest, text: Bytes)
    requires WellFormed(t) && forall e :: e in m.entries ==> Relative(e.destination).Some?
    ensures ExactBundle(t, m, text) <==> BundleSpelled(t, m, text)
  {
    if ExactBundle(t, m, text) { ExactSpelled(t, m, text); }
    if BundleSpelled(t, m, text) { SpelledIsExact(t, m, text); }
  }

  /** The path of some destination, or a place above one. */
  ghost predicate IsDestination(m: Manifest, p: Path) {
    exists i :: 0 <= i < |m.entries| && p == Split(m.entries[i].destination, '/')
  }

  ghost predicate IsOverDestination(m: Manifest, p: Path) {
    exists i :: 0 <= i < |m.entries| && p < Split(m.entries[i].destination, '/')
  }

  lemma OnlyBundleNodes(t: Tree, m: Manifest, text: Bytes, p: Path)
    requires forall e :: e in m.entries ==> Relative(e.destination).Some?
    requires BundleSpelled(t, m, text) && p in t
    ensures p in Paths(m) || IsAbove(Paths(m), p)
  {
    RootIsAbove(m);
    if p == ["delivery-manifest.json"] {
      assert Paths(m)[|m.entries|] == p;
    } else if IsDestination(m, p) {
      DestinationListed(m, p);
    } else if p != [] {
      OverDestinationListed(m, p);
    }
  }

  lemma DestinationListed(m: Manifest, p: Path)
    requires (forall e :: e in m.entries ==> Relative(e.destination).Some?) && IsDestination(m, p)
    ensures p in Paths(m)
  {
    var i :| 0 <= i < |m.entries| && p == Split(m.entries[i].destination, '/');
    assert Paths(m)[i] == p;
  }

  lemma OverDestinationListed(m: Manifest, p: Path)
    requires (forall e :: e in m.entries ==> Relative(e.destination).Some?) && IsOverDestination(m, p)
    ensures IsAbove(Paths(m), p)
  {
    var i :| 0 <= i < |m.entries| && p < Split(m.entries[i].destination, '/');
    assert Paths(m)[i][..|p|] == p;
  }

  /** `text` is the manifest's own serialised form. */
  method ValidateBundle(tree: FileTree, m: Manifest, text: Bytes, plan: Plan) returns (ok: bool)
    requires WellFormed(tree.nodes)
    ensures ok <==> ValidManifest(m, plan) && |text| <= MAX_FILE_BYTES && ExactBundle(tree.nodes, m, text)
    ensures ok <==> ManifestSpelled(m, plan) && |text| <= 2097152 && BundleSpelled(tree.nodes, m, text)
  {
    ValidSpelled(m, plan);
    if ValidManifest(m, plan) { BundleExactly(tree.nodes, m, text); }
    var valid := ValidateManifest(m, plan);
    if !valid { return false; }
    ChecksMeanExact(tree.nodes, m, text, plan);
    var marker := tree.ReadRegular([MANIFEST_NAME], MAX_FILE_BYTES);
    if marker != Some(text) { return false; }
    var listed := ValidateInventory(tree, m);
    if !listed { return false; }
    ok := ContentMatches(tree, m);
  }

  /** The three local checks together say exactly that the tree is the bundle. */
  lemma {:induction false} ChecksMeanExact(t: Tree, m: Manifest, text: Bytes, plan: Plan)
    requires WellFormed(t) && ValidManifest(m, plan)
    ensures LocalChecks(t, m, text) <==> |text| <= MAX_FILE_BYTES && ExactBundle(t, m, text)
  {
    if LocalChecks(t, m, text) { ChecksGiveExact(t, m, text); }
    if |text| <= MAX_FILE_BYTES && ExactBundle(t, m, text) { ExactGivesChecks(t, m, text, plan); }
  }

  lemma ChecksGiveExact(t: Tree, m: Manifest, text: Bytes)
    requires WellFormed(t) && forall e :: e in m.entries ==> Relative(e.destination).Some?
    requires LocalChecks(t, m, text)
    ensures |text| <= MAX_FILE_BYTES && ExactBundle(t, m, text)
  {
    var paths := Paths(m);
    forall p | p in paths ensures p in t && t[p].Reg? {
      var k :| 0 <= k < |paths| && paths[k] == p;
      if k < |m.entries| { assert Readable(t, paths[k], MAX_FILE_BYTES).Some?; }
    }
    ListingsPinTree(t, paths);
    forall i | 0 <= i < |m.entries| ensures Matches(t[paths[i]].data, m.entries[i]) {
      assert Readable(t, paths[i], MAX_FILE_BYTES) == Some(t[paths[i]].data);
    }
  }

  lemma {:induction false} ExactGivesChecks(t: Tree, m: Manifest, text: Bytes, plan: Plan)
    requires WellFormed(t) && ValidManifest(m, plan)
    requires |text| <= MAX_FILE_BYTES && ExactBundle(t, m, text)
    ensures LocalChecks(t, m, text)
  {
    var paths := Paths(m);
    ListingsPinTree(t, paths);
    assert paths[|m.entries|] in paths;
    forall k | 0 <= k < |m.entries|
      ensures Readable(t, paths[k], MAX_FILE_BYTES) == Some(t[paths[k]].data)
    {
      assert paths[k] in paths;
      assert EntryOk(m.entries[k], plan.coordinates[k]) && Matches(t[paths[k]].data, m.entries[k]);
    }
  }

  ghost predicate LocalChecks(t: Tree, m: Manifest, text: Bytes)
    requires forall e :: e in m.entries ==> Relative(e.destination).Some?
  {
    && Readable(t, [MANIFEST_NAME], MAX_FILE_BYTES) == Some(text)
    && InventoryOk(t, Paths(m))
    && ContentOk(t, m)
  }

  ghost predicate ContentOk(t: Tree, m: Manifest)
    requires forall e :: e in m.entries ==> Relative(e.destination).Some?
  {
    forall i :: 0 <= i < |m.entries| ==>
      var r := Readable(t, Paths(m)[i], MAX_FILE_BYTES);
      r.Some? && Matches(r.value, m.entries[i])
  }

  method ContentMatches(tree: FileTree, m: Manifest) returns (ok: bool)
    requires WellFormed(tree.nodes)
    requires forall e :: e in m.entries ==> Relative(e.destination).Some?
    ensures ok == ContentOk(tree.nodes, m)
  {
    for k := 0 to |m.entries|
      invariant forall i :: 0 <= i < k ==>
                  var r := Readable(tree.nodes, Paths(m)[i], MAX_FILE_BYTES);
                  r.Some? && Matches(r.value, m.entries[i])
    {
      var r := tree.ReadRegular(Relative(m.entries[k].destination).value, MAX_FILE_BYTES);
      if r.None? || !Matches(r.value, m.entries[k]) {
        assert Readable(tree.nodes, Paths(m)[k], MAX_FILE_BYTES) == r;
        return false;
      }
    }
    return true;
  }
}
