/** Copying a manifest's files into a fresh directory. */
module DeliveryCopy {
  import opened Wrappers
  import opened PathText
  import opened DeliveryTree
  import opened Delivery

  /** No path is another one or lies above it. */
  ghost predicate PrefixFree(paths: seq<Path>) {
    forall i, j :: 0 <= i < |paths| && 0 <= j < |paths| && i != j ==> !(paths[i] <= paths[j])
  }

  /** The tree holds these files, the directories above them, and nothing else. */
  ghost predicate Shaped(t: Tree, paths: seq<Path>, datas: seq<Bytes>)
    requires |paths| == |datas|
  {
    && (forall p :: p in t <==> p == [] || p in paths || IsAbove(paths, p))
    && (forall k :: 0 <= k < |paths| ==> paths[k] in t && t[paths[k]] == Reg(datas[k]))
    && (forall p :: p in t && p !in paths ==> t[p] == Dir)
  }

  /** Neither is above, or the same as, the other. */
  ghost predicate Apart(paths: seq<Path>, p: Path) {
    forall k :: 0 <= k < |paths| ==> !(paths[k] <= p) && !(p <= paths[k])
  }

  lemma AboveMeansPrefix(paths: seq<Path>, p: Path)
    ensures IsAbove(paths, p) <==> exists k :: 0 <= k < |paths| && p < paths[k]
  {
    if IsAbove(paths, p) {
      var k, i :| 0 <= k < |paths| && 0 <= i < |paths[k]| && paths[k][..i] == p;
      assert p < paths[k];
    }
    if k :| 0 <= k < |paths| && p < paths[k] {
      assert paths[k][..|p|] == p;
    }
  }

  /** A file can be created next to the others exactly when it is apart from them all. */
  lemma CanCreateIffApart(t: Tree, paths: seq<Path>, datas: seq<Bytes>, p: Path)
    requires |paths| == |datas| && Shaped(t, paths, datas) && p != []
    ensures CanCreate(t, p) <==> Apart(paths, p)
  {
    if Apart(paths, p) {
      ApartCanCreate(t, paths, datas, p);
    } else {
      var k :| 0 <= k < |paths| && (paths[k] <= p || p <= paths[k]);
      ClashBlocks(t, paths, datas, p, k);
    }
  }

  lemma ClashBlocks(t: Tree, paths: seq<Path>, datas: seq<Bytes>, p: Path, k: nat)
    requires |paths| == |datas| && Shaped(t, paths, datas) && p != []
    requires k < |paths| && (paths[k] <= p || p <= paths[k])
    ensures !CanCreate(t, p)
  {
    assert paths[k] in paths && t[paths[k]] == Reg(datas[k]);
    AboveMeansPrefix(paths, p);
    if paths[k] < p {
      assert Parent(p)[..|paths[k]|] == paths[k];
    } else {
      assert p == paths[k] || p < paths[k];
    }
  }

  lemma ApartCanCreate(t: Tree, paths: seq<Path>, datas: seq<Bytes>, p: Path)
    requires |paths| == |datas| && Shaped(t, paths, datas) && p != [] && Apart(paths, p)
    ensures CanCreate(t, p)
  {
    AboveMeansPrefix(paths, p);
    assert p !in paths;
    forall i | 0 <= i <= |Parent(p)| ensures Parent(p)[..i] !in paths {
      assert Parent(p)[..i] <= p;
    }
  }

  lemma FileKeepsShape(t: Tree, paths: seq<Path>, datas: seq<Bytes>, p: Path, data: Bytes)
    requires |paths| == |datas| && Shaped(t, paths, datas) && p != [] && Apart(paths, p)
    ensures Shaped(WithFile(t, p, data), paths + [p], datas + [data])
  {
    var t' := WithFile(t, p, data);
    forall q ensures q in t' <==> q == [] || q in paths + [p] || IsAbove(paths + [p], q) {
      AboveMeansPrefix(paths, q);
      AboveMeansPrefix(paths + [p], q);
      PrefixOfParent(p, q);
      assert (paths + [p])[|paths|] == p;
      assert forall k :: 0 <= k < |paths| ==> (paths + [p])[k] == paths[k];
    }
    forall k | 0 <= k < |paths| ensures t'[paths[k]] == Reg(datas[k]) {
      assert !(paths[k] <= p);
      assert paths[k] != p;
    }
  }

  lemma PrefixOfParent(p: Path, q: Path)
    requires p != []
    ensures q in Prefixes(Parent(p)) <==> q < p
  {
    if q < p {
      assert Parent(p)[..|q|] == q;
    }
    if q in Prefixes(Parent(p)) {
      var i :| 0 <= i <= |Parent(p)| && q == Parent(p)[..i];
      assert q == p[..i];
    }
  }

  lemma PrefixFreeExtends(paths: seq<Path>, p: Path)
    ensures PrefixFree(paths + [p]) <==> PrefixFree(paths) && Apart(paths, p)
  {
    var all := paths + [p];
    assert all[|paths|] == p && forall k :: 0 <= k < |paths| ==> all[k] == paths[k];
    if PrefixFree(all) {
      forall i, j | 0 <= i < |paths| && 0 <= j < |paths| && i != j ensures !(paths[i] <= paths[j]) {
        assert !(all[i] <= all[j]);
      }
      forall k | 0 <= k < |paths| ensures !(paths[k] <= p) && !(p <= paths[k]) {
        assert !(all[k] <= all[|paths|]) && !(all[|paths|] <= all[k]);
      }
    }
  }

  // -------------------------------------------------------------------- copy

  /** Every source file is readable and is the one that was recorded. */
  ghost predicate SourcesOk(t: Tree, m: Manifest)
    requires forall e :: e in m.entries ==> Relative(e.source).Some?
  {
    forall i :: 0 <= i < |m.entries| ==>
      var r := Readable(t, Relative(m.entries[i].source).value, MAX_FILE_BYTES);
      r.Some? && Matches(r.value, m.entries[i])
  }

  method ReadSources(source: FileTree, m: Manifest) returns (datas: Option<seq<Bytes>>)
    requires WellFormed(source.nodes)
    requires forall e :: e in m.entries ==> Relative(e.source).Some?
    ensures datas.Some? <==> SourcesOk(source.nodes, m)
    ensures datas.Some? ==> |datas.value| == |m.entries|
    ensures datas.Some? ==> forall i :: 0 <= i < |m.entries| ==> Matches(datas.value[i], m.entries[i])
  {
    var got: seq<Bytes> := [];
    for k := 0 to |m.entries|
      invariant |got| == k
      invariant forall i :: 0 <= i < k ==>
                  var r := Readable(source.nodes, Relative(m.entries[i].source).value, MAX_FILE_BYTES);
                  r.Some? && Matches(r.value, m.entries[i]) && r.value == got[i]
    {
      var r := source.ReadRegular(Relative(m.entries[k].source).value, MAX_FILE_BYTES);
      if r.None? || !Matches(r.value, m.entries[k]) { return None; }
      got := got + [r.value];
    }
    datas := Some(got);
  }

  /** Write the files one after another; a path in the way of another one stops the copy. */
  method WriteAllFiles(dest: FileTree, paths: seq<Path>, datas: seq<Bytes>, willing: bool) returns (ok: bool)
    requires |paths| == |datas| && forall p :: p in paths ==> p != []
    requires dest.nodes == EMPTY_TREE
    modifies dest
    ensures WellFormed(dest.nodes)
    ensures ok ==> PrefixFree(paths) && Shaped(dest.nodes, paths, datas)
    ensures willing && PrefixFree(paths) ==> ok
  {
    for k := 0 to |paths|
      invariant WellFormed(dest.nodes)
      invariant PrefixFree(paths[..k]) && Shaped(dest.nodes, paths[..k], datas[..k])
    {
      assert paths[..k + 1] == paths[..k] + [paths[k]] && datas[..k + 1] == datas[..k] + [datas[k]];
      assert paths[k] in paths;
      CanCreateIffApart(dest.nodes, paths[..k], datas[..k], paths[k]);
      PrefixFreeExtends(paths[..k], paths[k]);
      ghost var before := dest.nodes;
      ok := dest.WriteRegular(paths[k], datas[k], willing);
      if !ok {
        assert PrefixFree(paths) ==> PrefixFree(paths[..k + 1]);
        return;
      }
      FileKeepsShape(before, paths[..k], datas[..k], paths[k], datas[k]);
    }
    assert paths[..|paths|] == paths && datas[..|paths|] == datas;
    ok := true;
  }

  lemma ShapedIsExact(t: Tree, m: Manifest, datas: seq<Bytes>, text: Bytes)
    requires forall e :: e in m.entries ==> Relative(e.destination).Some?
    requires |datas| == |m.entries| && forall i :: 0 <= i < |m.entries| ==> Matches(datas[i], m.entries[i])
    requires Shaped(t, Paths(m), datas + [text]) && PrefixFree(Paths(m))
    ensures ExactBundle(t, m, text)
  {
    var paths := Paths(m);
    RootIsAbove(m);
    forall d | IsAbove(paths, d) ensures IsDir(t, d) {
      AboveIsNoFile(paths, d);
    }
    forall p | p in paths ensures p in t && t[p].Reg? {
      var k :| 0 <= k < |paths| && paths[k] == p;
    }
  }

  lemma AboveIsNoFile(paths: seq<Path>, d: Path)
    requires PrefixFree(paths) && IsAbove(paths, d)
    ensures d !in paths
  {
    var k, i :| 0 <= k < |paths| && 0 <= i < |paths[k]| && paths[k][..i] == d;
    forall j | 0 <= j < |paths| ensures paths[j] != d {
      assert j != k ==> !(paths[j] <= paths[k]);
    }
  }

  /** Every source is a regular file of the recorded size and digest. */
  ghost predicate SourcesSpelled(t: Tree, m: Manifest) {
    forall i :: 0 <= i < |m.entries| ==>
                  && FileAt(t, m.entries[i].source) && |BytesAt(t, m.entries[i].source)| == m.entries[i].sizeBytes
                  && m.entries[i].sha256 == Sha256(BytesAt(t, m.entries[i].source))
  }

  lemma SourcesExactly(t: Tree, m: Manifest)
    requires WellFormed(t) && forall i :: 0 <= i < |m.entries| ==> Relative(m.entries[i].source).Some?
    requires forall i :: 0 <= i < |m.entries| ==> m.entries[i].sizeBytes <= MAX_FILE_BYTES
    ensures SourcesOk(t, m) <==> SourcesSpelled(t, m)
  {
    forall i | 0 <= i < |m.entries|
      ensures var r := Readable(t, Relative(m.entries[i].source).value, MAX_FILE_BYTES);
              r.Some? && Matches(r.value, m.entries[i]) <==>
              && FileAt(t, m.entries[i].source) && |BytesAt(t, m.entries[i].source)| == m.entries[i].sizeBytes
              && m.entries[i].sha256 == Sha256(BytesAt(t, m.entries[i].source))
    {
      SourceExactly(t, m.entries[i]);
    }
  }

  lemma SourceExactly(t: Tree, e: DeliveryEntry)
    requires WellFormed(t) && Relative(e.source).Some? && e.sizeBytes <= MAX_FILE_BYTES
    ensures var r := Readable(t, Relative(e.source).value, MAX_FILE_BYTES);
            r.Some? && Matches(r.value, e) <==>
            && FileAt(t, e.source) && |BytesAt(t, e.source)| == e.sizeBytes && e.sha256 == Sha256(BytesAt(t, e.source))
  {
    var p := Relative(e.source).value;
    assert p == Split(e.source, '/');
    assert p in t ==> IsDir(t, p[..|p| - 1]);
  }

  /** No file stands where another one, or the manifest, needs a directory or a file. */
  ghost predicate NoClashes(m: Manifest) {
    && (forall i :: 0 <= i < |m.entries| ==>
          && !(Split(m.entries[i].destination, '/') <= ["delivery-manifest.json"])
          && !(["delivery-manifest.json"] <= Split(m.entries[i].destination, '/')))
    && (forall i, j :: 0 <= i < |m.entries| && 0 <= j < |m.entries| && i != j ==>
          !(Split(m.entries[i].destination, '/') <= Split(m.entries[j].destination, '/')))
  }

  lemma ClashesExactly(m: Manifest)
    requires forall e :: e in m.entries ==> Relative(e.destination).Some?
    ensures PrefixFree(Paths(m)) <==> NoClashes(m)
  {
    var paths, n := Paths(m), |m.entries|;
    assert forall i :: 0 <= i < n ==> paths[i] == Split(m.entries[i].destination, '/');
    if PrefixFree(paths) {
      forall i | 0 <= i < n ensures !(paths[i] <= paths[n]) && !(paths[n] <= paths[i]) {}
      forall i, j | 0 <= i < n && 0 <= j < n && i != j ensures !(paths[i] <= paths[j]) {}
    }
  }

  /** What a copy needs, spelled out. */
  ghost predicate CopySpelled(source: Tree, m: Manifest, text: Bytes, plan: Plan) {
    ManifestSpelled(m, plan) && SourcesSpelled(source, m) && |text| <= 2097152 && NoClashes(m)
  }

  lemma PossibleExactly(source: Tree, m: Manifest, text: Bytes, plan: Plan)
    requires WellFormed(source)
    ensures CopyPossible(source, m, text, plan) <==> CopySpelled(source, m, text, plan)
  {
    ValidSpelled(m, plan);
    if ValidManifest(m, plan) {
      assert forall i :: 0 <= i < |m.entries| ==> EntryOk(m.entries[i], plan.coordinates[i]);
      SourcesExactly(source, m);
      ClashesExactly(m);
    }
  }

  /** Nothing but the inputs can stand in the way of a copy. */
  ghost predicate CopyPossible(source: Tree, m: Manifest, text: Bytes, plan: Plan) {
    ValidManifest(m, plan) && SourcesOk(source, m) && |text| <= MAX_FILE_BYTES && PrefixFree(Paths(m))
  }

  /**
   Copy into a new directory.  Success means an exact bundle; and whenever the inputs
   allow it the copy succeeds, however the writes are split (`willing`: each takes something).
   */
  method CopyBundle(source: FileTree, m: Manifest, text: Bytes, plan: Plan, willing: bool)
    returns (ok: bool, dest: FileTree)
    requires WellFormed(source.nodes)
    ensures fresh(dest)
    ensures ok ==>
              CopyPossible(source.nodes, m, text, plan) && WellFormed(dest.nodes) && ExactBundle(dest.nodes, m, text)
    ensures ok ==> CopySpelled(source.nodes, m, text, plan) && BundleSpelled(dest.nodes, m, text)
    ensures willing && CopyPossible(source.nodes, m, text, plan) ==> ok
    ensures willing && CopySpelled(source.nodes, m, text, plan) ==> ok
  {
    PossibleExactly(source.nodes, m, text, plan);
    dest := new FileTree();
    var valid := ValidateManifest(m, plan);
    if !valid { return false, dest; }
    var datas := ReadSources(source, m);
    if datas.None? { return false, dest; }
    var written := WriteAllFiles(dest, Paths(m), datas.value + [text], willing);
    if !written { return false, dest; }
    ShapedIsExact(dest.nodes, m, datas.value, text);
    ChecksMeanExact(dest.nodes, m, text, plan);
    var listed := ValidateInventory(dest, m);
    if !listed { return false, dest; }
    var matching := ContentMatches(dest, m);
    if !matching { return false, dest; }
    ok := ValidateBundle(dest, m, text, plan);
  }
}
