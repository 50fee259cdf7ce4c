/** A directory tree and the few file operations that bundle delivery performs on it. */
module DeliveryTree {
  import opened Wrappers
  import opened PathText

  type byte = b: int | 0 <= b < 256
  type Bytes = seq<byte>

  /** The names below the root; [] is the root itself. */
  type Path = seq<string>

  /** Odd stands for anything that is neither: a symbolic link, a FIFO, a device. */
  datatype Node = Dir | Reg(data: Bytes) | Odd

  type Tree = map<Path, Node>

  const EMPTY_TREE: Tree := map[[] := Dir]

  ghost predicate WellFormed(t: Tree) {
    && [] in t && t[[]] == Dir
    && forall p, i :: p in t && 0 <= i < |p| ==> IsDir(t, p[..i])
  }

  predicate IsDir(t: Tree, p: Path) { p in t && t[p] == Dir }

  /** A no-follow walk reaches p: every directory on the way exists. */
  ghost predicate DirAt(t: Tree, p: Path) { forall i :: 0 <= i <= |p| ==> IsDir(t, p[..i]) }

  lemma DirAtIsDir(t: Tree, p: Path)
    requires WellFormed(t)
    ensures DirAt(t, p) <==> IsDir(t, p)
  {
    assert p[..|p|] == p;
  }

  function Listing(t: Tree, d: Path): set<string> {
    set p | p in t && p != [] && p[..|p| - 1] == d :: p[|p| - 1]
  }

  lemma ListingMember(t: Tree, d: Path, n: string)
    ensures n in Listing(t, d) <==> d + [n] in t
  {
    if d + [n] in t {
      var p := d + [n];
      assert p[..|p| - 1] == d && p[|p| - 1] == n;
    }
    if n in Listing(t, d) {
      var p :| p in t && p != [] && p[..|p| - 1] == d && p[|p| - 1] == n;
      assert p == d + [n];
    }
  }

  // --------------------------------------------------------------- paths

  /** A clean relative path, or None for one that the program refuses. */
  function Relative(value: string): (r: Option<Path>)
    ensures r.Some? ==> r.value != []
  {
    if value == "" || '\\' in value then None
    else
      var parts := Split(value, '/');
      if "" in parts || "." in parts || ".." in parts then None else Some(parts)
  }

  /** A name that stands for itself. */
  predicate ProperName(n: string) { n != "" && n != "." && n != ".." && '/' !in n }

  predicate ProperPath(p: Path) { p != [] && forall i :: 0 <= i < |p| ==> ProperName(p[i]) }

  /** A text is accepted with these parts exactly when they are proper names that join to it, without a backslash. */
  lemma RelativeExactly(value: string, p: Path)
    ensures Relative(value) == Some(p) <==> ProperPath(p) && Join(p, '/') == value && '\\' !in value
  {
    JoinOfSplit(value, '/');
    if ProperPath(p) && Join(p, '/') == value { ProperIsAccepted(value, p); }
    if Relative(value) == Some(p) {
      forall i | 0 <= i < |p| ensures ProperName(p[i]) { assert p[i] in p; }
    }
  }

  lemma ProperIsAccepted(value: string, p: Path)
    requires ProperPath(p) && Join(p, '/') == value
    ensures value != "" && Split(value, '/') == p && "" !in p && "." !in p && ".." !in p
  {
    SplitOfJoin(p, '/');
    assert value == "" ==> p == [""];
  }

  lemma RelativeInjective(a: string, b: string)
    requires Relative(a).Some? && Relative(a) == Relative(b)
    ensures a == b
  {
    SplitInjective(a, b, '/');
  }

  function Parent(p: Path): Path
    requires p != []
  {
    p[..|p| - 1]
  }

  // ------------------------------------------------------------- creation

  /** p and every directory above it. */
  function Prefixes(p: Path): set<Path> { set i | 0 <= i <= |p| :: p[..i] }

  /** t with p and every directory above it present. */
  function WithDirs(t: Tree, p: Path): Tree {
    map q | q in t.Keys + Prefixes(p) :: if q in t then t[q] else Dir
  }

  /** Nothing on the way to p is other than a directory. */
  ghost predicate WayOpen(t: Tree, p: Path) { forall i :: 0 <= i <= |p| && p[..i] in t ==> t[p[..i]] == Dir }

  class FileTree {
    var nodes: Tree

    constructor ()
      ensures nodes == EMPTY_TREE
    {
      nodes := EMPTY_TREE;
    }

    /** Walk the components, making the missing directories when `create` is set. */
    method OpenDirectory(parts: Path, create: bool) returns (ok: bool)
      requires WellFormed(nodes)
      modifies (if create then {this} else {})
      ensures WellFormed(nodes)
      ensures !create ==> nodes == old(nodes) && ok == IsDir(nodes, parts)
      ensures create ==> ok == WayOpen(old(nodes), parts)
      ensures create && ok ==> nodes == WithDirs(old(nodes), parts)
    {
      ghost var start := nodes;
      assert WithDirs(start, parts[..0]) == start by { assert parts[..0] == []; }
      for k := 0 to |parts|
        invariant WellFormed(nodes) && IsDir(nodes, parts[..k])
        invariant WayOpen(start, parts[..k])
        invariant nodes == if create then WithDirs(start, parts[..k]) else start
      {
        var here := parts[..k + 1];
        assert here[..k] == parts[..k] && |here| == k + 1;
        DirsStep(start, parts, k);
        if create && here !in nodes {
          nodes := nodes[here := Dir];
        }
        if !IsDir(nodes, here) {
          DirAtIsDir(start, parts);
          if create {
            assert parts[..k + 1] == here && start[here] != Dir;
          } else {
            assert !IsDir(start, parts[..k + 1]);
          }
          return false;
        }
      }
      assert parts[..|parts|] == parts;
      return true;
    }

    /** The bytes of a regular file within the size limit, read in chunks of any size. */
    method ReadRegular(parts: Path, maxBytes: nat) returns (r: Option<Bytes>)
      requires WellFormed(nodes) && parts != []
      ensures r == Readable(nodes, parts, maxBytes)
    {
      var ok := OpenDirectory(Parent(parts), false);
      if !ok || parts !in nodes || !nodes[parts].Reg? || |nodes[parts].data| > maxBytes { return None; }
      var file := nodes[parts].data;
      var data: Bytes, remaining := [], |file| + 1;
      while remaining > 0
        invariant |data| + remaining == |file| + 1 && |data| <= |file|
        invariant data == file[..|data|]
        decreases remaining
      {
        var left := |file| - |data|;
        if left == 0 { break; }
        var got: nat :| 1 <= got <= left && got <= 65536;
        data := data + file[|data|..|data| + got];
        remaining := remaining - got;
      }
      assert file[..|file|] == file;
      r := Some(data);
    }

    /** Create a file that must not exist and write it, however little each write takes. */
    method WriteRegular(parts: Path, data: Bytes, willing: bool) returns (ok: bool)
      requires WellFormed(nodes) && parts != []
      modifies this
      ensures WellFormed(nodes)
      ensures ok ==> CanCreate(old(nodes), parts) && nodes == WithFile(old(nodes), parts, data)
      ensures willing && CanCreate(old(nodes), parts) ==> ok
    {
      ghost var start := nodes;
      ok := CreateNew(parts);
      if ok {
        ok := WriteAll(parts, data, willing);
        FileKeepsWellFormed(start, parts, nodes[parts].data);
      }
    }

    /** Make the parent directories and, exclusively, an empty file. */
    method CreateNew(parts: Path) returns (ok: bool)
      requires WellFormed(nodes) && parts != []
      modifies this
      ensures ok == CanCreate(old(nodes), parts)
      ensures if ok then nodes == WithFile(old(nodes), parts, []) else WellFormed(nodes)
    {
      ok := OpenDirectory(Parent(parts), true);
      if ok {
        ok := parts !in nodes;
        NotAmongParents(parts);
        if ok { nodes := nodes[parts := Reg([])]; }
      }
    }

    /** Offer what is left until all is taken or a write takes nothing. */
    method WriteAll(parts: Path, data: Bytes, willing: bool) returns (ok: bool)
      requires parts in nodes && nodes[parts] == Reg([])
      modifies this
      ensures parts in nodes && nodes[parts].Reg? && nodes == old(nodes)[parts := nodes[parts]]
      ensures ok ==> nodes[parts].data == data
      ensures willing ==> ok
    {
      var view := data;
      while view != []
        invariant parts in nodes && nodes[parts].Reg? && nodes == old(nodes)[parts := nodes[parts]]
        invariant data == nodes[parts].data + view
        decreases |view|
      {
        var written: int :| written <= |view| && (willing ==> written >= 1);
        if written <= 0 { return false; }
        nodes := nodes[parts := Reg(nodes[parts].data + view[..written])];
        view := view[written..];
      }
      return true;
    }
  }

  lemma NotAmongParents(parts: Path)
    requires parts != []
    ensures parts !in Prefixes(Parent(parts))
  {
  }

  lemma FileKeepsWellFormed(t: Tree, parts: Path, data: Bytes)
    requires WellFormed(t) && parts != [] && CanCreate(t, parts)
    ensures WellFormed(WithFile(t, parts, data))
  {
    var up := Parent(parts);
    var t' := WithFile(t, parts, data);
    assert up == up[..|up|];
    forall p, i | p in t' && 0 <= i < |p| ensures IsDir(t', p[..i]) {
      if p == parts {
        assert p[..i] == up[..i];
      } else if p !in t {
        var k :| 0 <= k <= |up| && p == up[..k];
        assert p[..i] == up[..i];
      }
    }
  }

  lemma PrefixesStep(parts: Path, k: nat)
    requires k < |parts|
    ensures Prefixes(parts[..k + 1]) == Prefixes(parts[..k]) + {parts[..k + 1]}
  {
    var p, q := parts[..k], parts[..k + 1];
    assert q == q[..|q|];
    forall x | x in Prefixes(q) ensures x in Prefixes(p) + {q} {
      var i :| 0 <= i <= |q| && x == q[..i];
      if i <= k { assert x == parts[..i] == p[..i]; }
    }
    forall x | x in Prefixes(p) ensures x in Prefixes(q) {
      var i :| 0 <= i <= |p| && x == p[..i];
      assert x == parts[..i] == q[..i];
    }
  }

  lemma DirsStep(t: Tree, parts: Path, k: nat)
    requires k < |parts| && WayOpen(t, parts[..k])
    ensures var q := parts[..k + 1];
            WithDirs(t, q) == WithDirs(t, parts[..k])[q := if q in t then t[q] else Dir]
    ensures WayOpen(t, parts[..k + 1]) <==> (parts[..k + 1] in t ==> t[parts[..k + 1]] == Dir)
  {
    PrefixesStep(parts, k);
    WayStep(t, parts, k);
  }

  lemma WayStep(t: Tree, parts: Path, k: nat)
    requires k < |parts| && WayOpen(t, parts[..k])
    ensures WayOpen(t, parts[..k + 1]) <==> (parts[..k + 1] in t ==> t[parts[..k + 1]] == Dir)
  {
    var p, q := parts[..k], parts[..k + 1];
    assert q[..k + 1] == q;
    forall i | 0 <= i <= k ensures q[..i] in t ==> t[q[..i]] == Dir {
      assert p[..i] == parts[..i] == q[..i];
    }
  }

  function Readable(t: Tree, parts: Path, maxBytes: nat): Option<Bytes>
    requires parts != []
  {
    if IsDir(t, Parent(parts)) && parts in t && t[parts].Reg? && |t[parts].data| <= maxBytes then Some(t[parts].data)
    else None
  }

  /** Exclusive creation succeeds exactly when this holds. */
  ghost predicate CanCreate(t: Tree, parts: Path)
    requires parts != []
  {
    WayOpen(t, Parent(parts)) && parts !in t
  }

  function WithFile(t: Tree, parts: Path, data: Bytes): Tree
    requires parts != []
  {
    WithDirs(t, Parent(parts))[parts := Reg(data)]
  }
}
