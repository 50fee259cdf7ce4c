/** Python's sort by a text key, and when its result does not depend on the input order. */
module TextSort {
  /** Code-point order on strings. */
  predicate LexLe(s: string, t: string) {
    s == [] || (t != [] && (s[0] < t[0] || (s[0] == t[0] && LexLe(s[1..], t[1..]))))
  }

  lemma {:induction false} LexTotal(s: string, t: string)
    ensures LexLe(s, t) || LexLe(t, s)
  {
    if s != [] && t != [] { LexTotal(s[1..], t[1..]); }
  }

  lemma {:induction false} LexAntisymmetric(s: string, t: string)
    requires LexLe(s, t) && LexLe(t, s)
    ensures s == t
  {
    if s != [] && t != [] {
      LexAntisymmetric(s[1..], t[1..]);
      assert s == [s[0]] + s[1..] && t == [t[0]] + t[1..];
    }
  }

  lemma {:induction false} LexTransitive(s: string, t: string, u: string)
    requires LexLe(s, t) && LexLe(t, u)
    ensures LexLe(s, u)
  {
    if s != [] && s[0] == t[0] == u[0] { LexTransitive(s[1..], t[1..], u[1..]); }
  }

  /** Stable: an element goes before the first one whose key is not smaller. */
  function Insert<T>(key: T -> string, x: T, ys: seq<T>): (r: seq<T>)
    ensures multiset(r) == multiset([x]) + multiset(ys)
  {
    if ys == [] || LexLe(key(x), key(ys[0])) then [x] + ys
    else
      assert ys == [ys[0]] + ys[1..];
      [ys[0]] + Insert(key, x, ys[1..])
  }

  function SortBy<T>(key: T -> string, xs: seq<T>): (r: seq<T>)
    ensures multiset(r) == multiset(xs)
  {
    if xs == [] then []
    else
      assert xs == [xs[0]] + xs[1..];
      Insert(key, xs[0], SortBy(key, xs[1..]))
  }

  ghost predicate Sorted<T>(key: T -> string, xs: seq<T>) {
    xs == [] || ((forall y :: y in xs ==> LexLe(key(xs[0]), key(y))) && Sorted(key, xs[1..]))
  }

  lemma {:induction false} InsertSorted<T>(key: T -> string, x: T, ys: seq<T>)
    requires Sorted(key, ys)
    ensures Sorted(key, Insert(key, x, ys))
  {
    LexTotal(key(x), key(x));
    if ys != [] {
      LexTotal(key(x), key(ys[0]));
      if LexLe(key(x), key(ys[0])) {
        forall y | y in ys ensures LexLe(key(x), key(y)) {
          LexTransitive(key(x), key(ys[0]), key(y));
        }
        assert ([x] + ys)[1..] == ys;
      } else {
        var r := Insert(key, x, ys[1..]);
        InsertSorted(key, x, ys[1..]);
        forall y | y in [ys[0]] + r ensures LexLe(key(ys[0]), key(y)) {
          LexTotal(key(ys[0]), key(ys[0]));
          assert y in r ==> y in multiset(r);
          assert y in multiset([x]) + multiset(ys[1..]) ==> y == x || y in ys[1..];
        }
        assert ([ys[0]] + r)[1..] == r;
      }
    }
  }

  lemma {:induction false} SortBySorted<T>(key: T -> string, xs: seq<T>)
    ensures Sorted(key, SortBy(key, xs))
  {
    if xs != [] {
      SortBySorted(key, xs[1..]);
      InsertSorted(key, xs[0], SortBy(key, xs[1..]));
    }
  }

  /** When no two listed elements share a key, the sorted order is unique. */
  lemma {:induction false} SortedUnique<T>(key: T -> string, xs: seq<T>, ys: seq<T>)
    requires Sorted(key, xs) && Sorted(key, ys) && multiset(xs) == multiset(ys)
    requires KeysIdentify(key, xs)
    ensures xs == ys
  {
    assert |xs| == |multiset(xs)| == |multiset(ys)| == |ys|;
    if xs != [] {
      SameHead(key, xs, ys);
      assert xs == [xs[0]] + xs[1..] && ys == [ys[0]] + ys[1..];
      assert multiset(xs[1..]) == multiset(xs) - multiset([xs[0]]);
      assert multiset(ys[1..]) == multiset(ys) - multiset([ys[0]]);
      SortedUnique(key, xs[1..], ys[1..]);
    }
  }

  /** Distinct listed elements have distinct keys. */
  ghost predicate KeysIdentify<T>(key: T -> string, xs: seq<T>) {
    forall i, j :: 0 <= i < |xs| && 0 <= j < |xs| && key(xs[i]) == key(xs[j]) ==> xs[i] == xs[j]
  }

  lemma {:induction false} SameHead<T>(key: T -> string, xs: seq<T>, ys: seq<T>)
    requires xs != [] && ys != []
    requires Sorted(key, xs) && Sorted(key, ys) && multiset(xs) == multiset(ys)
    requires KeysIdentify(key, xs)
    ensures xs[0] == ys[0]
  {
    assert xs[0] in multiset(ys) && ys[0] in multiset(xs);
    LexAntisymmetric(key(xs[0]), key(ys[0]));
  }

  lemma {:induction false} SortIgnoresOrder<T>(key: T -> string, xs: seq<T>, ys: seq<T>)
    requires multiset(xs) == multiset(ys)
    requires KeysIdentify(key, xs)
    ensures SortBy(key, xs) == SortBy(key, ys)
  {
    SortBySorted(key, xs);
    SortBySorted(key, ys);
    var s := SortBy(key, xs);
    forall i | 0 <= i < |s| ensures s[i] in xs {
      assert s[i] in multiset(s);
    }
    SortedUnique(key, s, SortBy(key, ys));
  }

  // ------------------------------------------------------- what the order is

  /** s comes before t, or is t: a prefix of it, or smaller at the first place where they differ. */
  ghost predicate Ascending(s: string, t: string) {
    exists n: nat ::
      && n <= |s| && n <= |t| && s[..n] == t[..n]
      && (n == |s| || (n < |t| && s[n] < t[n]))
  }

  lemma {:induction false} LexLeMeans(s: string, t: string)
    requires LexLe(s, t)
    ensures Ascending(s, t)
  {
    if s == [] || s[0] < t[0] {
      assert s[..0] == t[..0];
    } else {
      LexLeMeans(s[1..], t[1..]);
      var n: nat :| && n <= |s| - 1 && n <= |t| - 1 && s[1..][..n] == t[1..][..n]
                    && (n == |s| - 1 || (n < |t| - 1 && s[1..][n] < t[1..][n]));
      assert s[..n + 1] == [s[0]] + s[1..][..n] && t[..n + 1] == [t[0]] + t[1..][..n];
    }
  }

  /** The sorted list ascends: no key is greater than one that stands after it. */
  lemma {:induction false} SortedAscends<T>(key: T -> string, xs: seq<T>, i: nat, j: nat)
    requires Sorted(key, xs) && i < j < |xs|
    ensures Ascending(key(xs[i]), key(xs[j]))
  {
    if i == 0 {
      LexLeMeans(key(xs[0]), key(xs[j]));
    } else {
      SortedAscends(key, xs[1..], i - 1, j - 1);
    }
  }

  lemma {:induction false} SortByAscends<T>(key: T -> string, xs: seq<T>)
    ensures forall i, j :: 0 <= i < j < |SortBy(key, xs)| ==>
                             Ascending(key(SortBy(key, xs)[i]), key(SortBy(key, xs)[j]))
  {
    SortBySorted(key, xs);
    forall i, j | 0 <= i < j < |SortBy(key, xs)| ensures Ascending(key(SortBy(key, xs)[i]), key(SortBy(key, xs)[j])) {
      SortedAscends(key, SortBy(key, xs), i, j);
    }
  }

  // ---------------------------------------------------------- permutations

  /** p lists every index below n once. */
  ghost predicate IsPermutation(p: seq<nat>, n: nat) {
    && |p| == n
    && (forall i :: 0 <= i < n ==> p[i] < n)
    && (forall i, j :: 0 <= i < j < n ==> p[i] != p[j])
  }

  function DropAt<T>(s: seq<T>, k: nat): seq<T>
    requires k < |s|
  {
    s[..k] + s[k + 1..]
  }

  /** The permutation of the remaining places once the first pair has been taken out. */
  function Rest(p: seq<nat>): (q: seq<nat>)
    requires p != []
    ensures |q| == |p| - 1
  {
    seq(|p| - 1, i requires 0 <= i < |p| - 1 => Shift(p[i + 1], p[0]))
  }

  function Shift(i: nat, k: nat): nat { if i <= k then i else i - 1 }

  lemma RestIsPermutation(p: seq<nat>, n: nat)
    requires n > 0 && IsPermutation(p, n)
    ensures IsPermutation(Rest(p), n - 1)
  {
    var q := Rest(p);
    forall i | 0 <= i < n - 1 ensures q[i] < n - 1 {
      assert p[0] != p[i + 1];
    }
    forall i, j | 0 <= i < j < n - 1 ensures q[i] != q[j] {
      assert p[i + 1] != p[j + 1] && p[0] != p[i + 1] && p[0] != p[j + 1];
    }
  }

  function Unshift(i: nat, k: nat): nat { if i < k then i else i + 1 }

  lemma SameRest<T>(a: seq<T>, b: seq<T>, k: nat)
    requires a != [] && k < |b| && a[0] == b[k] && multiset(a) == multiset(b)
    ensures multiset(a[1..]) == multiset(DropAt(b, k))
  {
    assert a == [a[0]] + a[1..];
    DropTakesOne(b, k);
    assert multiset(a[1..]) == multiset(a) - multiset([a[0]]);
  }

  lemma DropTakesOne<T>(b: seq<T>, k: nat)
    requires k < |b|
    ensures multiset(DropAt(b, k)) == multiset(b) - multiset([b[k]])
  {
    assert b == b[..k] + [b[k]] + b[k + 1..];
  }

  /** Sequences with the same members are permutations of each other. */
  lemma {:induction false} MultisetPermutation<T>(a: seq<T>, b: seq<T>) returns (p: seq<nat>)
    requires multiset(a) == multiset(b)
    ensures |a| == |b| && IsPermutation(p, |a|)
    ensures forall i :: 0 <= i < |a| ==> a[i] == b[p[i]]
  {
    assert |a| == |multiset(a)| == |multiset(b)| == |b|;
    if a == [] {
      p := [];
    } else {
      assert a[0] in multiset(b);
      var k :| 0 <= k < |b| && b[k] == a[0];
      SameRest(a, b, k);
      var q := MultisetPermutation(a[1..], DropAt(b, k));
      p := [k] + seq(|q|, i requires 0 <= i < |q| => Unshift(q[i], k));
      Unshifted(a, b, k, q, p);
    }
  }

  lemma Unshifted<T>(a: seq<T>, b: seq<T>, k: nat, q: seq<nat>, p: seq<nat>)
    requires |a| == |b| > k && a[0] == b[k] && IsPermutation(q, |a| - 1) && |p| == |a| && p[0] == k
    requires forall i :: 0 <= i < |q| ==> p[i + 1] == Unshift(q[i], k)
    requires forall i :: 0 <= i < |q| ==> a[1..][i] == DropAt(b, k)[q[i]]
    ensures IsPermutation(p, |a|)
    ensures forall i :: 0 <= i < |a| ==> a[i] == b[p[i]]
  {
    forall i | 0 <= i < |a| ensures p[i] < |a| && a[i] == b[p[i]] {
      if i > 0 { assert p[i - 1 + 1] == Unshift(q[i - 1], k) && a[1..][i - 1] == DropAt(b, k)[q[i - 1]]; }
    }
    forall i, j | 0 <= i < j < |a| ensures p[i] != p[j] {
      assert p[j - 1 + 1] == Unshift(q[j - 1], k);
      if i > 0 { assert p[i - 1 + 1] == Unshift(q[i - 1], k) && q[i - 1] != q[j - 1]; }
    }
  }

  lemma {:induction false} PermutationMultiset<T>(a: seq<T>, b: seq<T>, p: seq<nat>)
    requires |a| == |b| && IsPermutation(p, |a|)
    requires forall i :: 0 <= i < |a| ==> a[i] == b[p[i]]
    ensures multiset(a) == multiset(b)
  {
    if a != [] {
      var k := p[0];
      var rest := DropAt(b, k);
      RestIsPermutation(p, |a|);
      forall i | 0 <= i < |a| - 1 ensures a[1..][i] == rest[Rest(p)[i]] {
        assert p[0] != p[i + 1];
        assert a[i + 1] == b[p[i + 1]];
      }
      PermutationMultiset(a[1..], rest, Rest(p));
      assert a == [a[0]] + a[1..] && b == b[..k] + [b[k]] + b[k + 1..];
    }
  }
}

/**
 The fallback hash basis of the falsifier bus: every value is folded into plain
 JSON data whose form must not depend on the iteration order of dicts and sets.
 */
module CanonicalForm {
  import opened JsonText
  import opened TextSort

  /**
   A finite Python value.  Dicts and sets are listed in the order in which
   iterating over them happens to yield their members.  An opaque leaf (bytes, a
   memoryview, any foreign object) is given by the text the bus makes of it.
   */
  datatype PyVal =
    | PNone
    | PBool(b: bool)
    | PInt(i: int)
    | PFloat(repr: string)
    | PStr(s: string)
    | POpaque(text: string)
    | PList(items: seq<PyVal>)
    | PTuple(items: seq<PyVal>)
    | PSet(items: seq<PyVal>)
    | PDict(entries: seq<Entry>)
  datatype Entry = Entry(key: PyVal, val: PyVal)

  predicate FloatsOk(v: PyVal)
    decreases v
  {
    match v
    case PFloat(r) => IsFloatRepr(r)
    case PList(xs) => forall x :: x in xs ==> FloatsOk(x)
    case PTuple(xs) => forall x :: x in xs ==> FloatsOk(x)
    case PSet(xs) => forall x :: x in xs ==> FloatsOk(x)
    case PDict(es) => forall e :: e in es ==> FloatsOk(e.key) && FloatsOk(e.val)
    case _ => true
  }

  const MAX_DEPTH := 12

  function Canonical(v: PyVal, depth: nat): Canon
    decreases v, 1
  {
    if depth > MAX_DEPTH then CStr("<max_depth>")
    else
      match v
      case PNone => CNull
      case PBool(b) => CBool(b)
      case PInt(i) => CInt(i)
      case PFloat(r) => CFloat(r)
      case PStr(s) => CStr(s)
      case POpaque(text) => CStr(text)
      case PDict(es) => CList(SortBy(Json, CanonicalEntries(es, depth + 1)))
      case PSet(xs) => CList(AsStrings(SortBy(Itself, Texts(CanonicalAll(xs, depth + 1)))))
      case PList(xs) => CList(CanonicalAll(xs, depth + 1))
      case PTuple(xs) => CList(CanonicalAll(xs, depth + 1))
  }

  function CanonicalAll(xs: seq<PyVal>, depth: nat): (r: seq<Canon>)
    ensures |r| == |xs|
    ensures forall i :: 0 <= i < |xs| ==> r[i] == Canonical(xs[i], depth)
    decreases xs, 0
  {
    if xs == [] then [] else [Canonical(xs[0], depth)] + CanonicalAll(xs[1..], depth)
  }

  function CanonicalEntries(es: seq<Entry>, depth: nat): (r: seq<Canon>)
    ensures |r| == |es|
    ensures forall i :: 0 <= i < |es| ==> r[i] == CanonicalEntry(es[i], depth)
    decreases es, 0
  {
    if es == [] then [] else [CanonicalEntry(es[0], depth)] + CanonicalEntries(es[1..], depth)
  }

  /** A dict entry becomes a two-element list whose first member is the key's text. */
  function CanonicalEntry(e: Entry, depth: nat): Canon
    decreases e, 0
  {
    CList([CStr(Json(Canonical(e.key, depth))), Canonical(e.val, depth)])
  }

  function Itself(s: string): string { s }

  function Texts(cs: seq<Canon>): (r: seq<string>)
    ensures |r| == |cs| && forall i :: 0 <= i < |cs| ==> r[i] == Json(cs[i])
  {
    seq(|cs|, i requires 0 <= i < |cs| => Json(cs[i]))
  }

  function AsStrings(ss: seq<string>): (r: seq<Canon>)
    ensures |r| == |ss| && forall i :: 0 <= i < |ss| ==> r[i] == CStr(ss[i])
  {
    seq(|ss|, i requires 0 <= i < |ss| => CStr(ss[i]))
  }

  // ------------------------------------------------------------ order-freedom

  /** w is v with dict entries and set elements listed in another order, at any depth. */
  ghost predicate Reordered(v: PyVal, w: PyVal)
    decreases v
  {
    match (v, w)
    case (PList(xs), PList(ys)) => |xs| == |ys| && forall i :: 0 <= i < |xs| ==> Reordered(xs[i], ys[i])
    case (PTuple(xs), PTuple(ys)) => |xs| == |ys| && forall i :: 0 <= i < |xs| ==> Reordered(xs[i], ys[i])
    case (PSet(xs), PSet(ys)) =>
      && |xs| == |ys|
      && exists p: seq<nat> ::
           IsPermutation(p, |xs|) && forall i :: 0 <= i < |xs| ==> Reordered(xs[i], ys[p[i]])
    case (PDict(es), PDict(fs)) =>
      && |es| == |fs|
      && exists p: seq<nat> ::
           && IsPermutation(p, |es|)
           && forall i :: 0 <= i < |es| ==>
                Reordered(es[i].key, fs[p[i]].key) && Reordered(es[i].val, fs[p[i]].val)
    case _ => v == w
  }

  lemma {:induction false} AllWellformedFromEach(cs: seq<Canon>)
    requires forall c :: c in cs ==> Wellformed(c)
    ensures AllWellformed(cs)
  {
    if cs != [] { AllWellformedFromEach(cs[1..]); }
  }

  lemma {:induction false} CanonicalWellformed(v: PyVal, depth: nat)
    requires FloatsOk(v)
    ensures Wellformed(Canonical(v, depth))
    decreases v
  {
    if depth > MAX_DEPTH || !Nested(v) {
      LeafWellformed(v, depth);
    } else {
      match v
      case PList(xs) => ItemsWellformed(xs, depth + 1);
      case PTuple(xs) => ItemsWellformed(xs, depth + 1);
      case PSet(xs) => StringsWellformed(SortBy(Itself, Texts(CanonicalAll(xs, depth + 1))));
      case PDict(es) => DictWellformed(es, depth + 1);
    }
  }

  predicate Nested(v: PyVal) { v.PList? || v.PTuple? || v.PSet? || v.PDict? }

  lemma LeafWellformed(v: PyVal, depth: nat)
    requires FloatsOk(v) && (depth > MAX_DEPTH || !Nested(v))
    ensures Wellformed(Canonical(v, depth))
  {
  }

  lemma {:induction false} ItemsWellformed(xs: seq<PyVal>, depth: nat)
    requires forall x :: x in xs ==> FloatsOk(x)
    ensures AllWellformed(CanonicalAll(xs, depth))
    decreases xs
  {
    var cs := CanonicalAll(xs, depth);
    forall c | c in cs ensures Wellformed(c) {
      var i :| 0 <= i < |cs| && c == cs[i];
      assert xs[i] in xs;
      CanonicalWellformed(xs[i], depth);
    }
    AllWellformedFromEach(cs);
  }

  lemma StringsWellformed(ss: seq<string>)
    ensures AllWellformed(AsStrings(ss))
  {
    AllWellformedFromEach(AsStrings(ss));
  }

  lemma SortKeepsWellformed(ps: seq<Canon>)
    requires forall c :: c in ps ==> Wellformed(c)
    ensures AllWellformed(SortBy(Json, ps))
  {
    forall c | c in SortBy(Json, ps) ensures Wellformed(c) {
      assert c in multiset(SortBy(Json, ps));
      assert c in ps;
    }
    AllWellformedFromEach(SortBy(Json, ps));
  }

  lemma {:induction false} EntriesWellformed(es: seq<Entry>, depth: nat)
    requires forall e :: e in es ==> FloatsOk(e.key) && FloatsOk(e.val)
    ensures forall c :: c in CanonicalEntries(es, depth) ==> Wellformed(c)
    decreases es, 0
  {
    var ps := CanonicalEntries(es, depth);
    forall c | c in ps ensures Wellformed(c) {
      var i :| 0 <= i < |ps| && c == ps[i];
      EntryWellformed(es[i], depth);
    }
  }

  lemma {:induction false} DictWellformed(es: seq<Entry>, depth: nat)
    requires forall e :: e in es ==> FloatsOk(e.key) && FloatsOk(e.val)
    ensures AllWellformed(SortBy(Json, CanonicalEntries(es, depth)))
    decreases es, 1
  {
    EntriesWellformed(es, depth);
    SortKeepsWellformed(CanonicalEntries(es, depth));
  }

  lemma {:induction false} EntryWellformed(e: Entry, depth: nat)
    requires FloatsOk(e.key) && FloatsOk(e.val)
    ensures Wellformed(CanonicalEntry(e, depth))
    decreases e
  {
    CanonicalWellformed(e.val, depth);
    AllWellformedFromEach([CStr(Json(Canonical(e.key, depth))), Canonical(e.val, depth)]);
  }

  /**
   The basis is a canonical form: listing dict entries or set elements in another
   order, at any depth, never changes it, and the depth cap keeps this.
   */
  lemma {:induction false} CanonicalIgnoresOrder(v: PyVal, w: PyVal, depth: nat)
    requires Reordered(v, w) && FloatsOk(v)
    ensures Canonical(v, depth) == Canonical(w, depth)
    decreases v
  {
    if depth <= MAX_DEPTH {
      match (v, w)
      case (PList(xs), PList(ys)) => ListsAgree(xs, ys, depth + 1);
      case (PTuple(xs), PTuple(ys)) => ListsAgree(xs, ys, depth + 1);
      case (PSet(xs), PSet(ys)) => SetsAgree(xs, ys, depth + 1);
      case (PDict(es), PDict(fs)) => DictsAgree(es, fs, depth + 1);
      case _ =>
    }
  }

  lemma {:induction false} ListsAgree(xs: seq<PyVal>, ys: seq<PyVal>, depth: nat)
    requires |xs| == |ys| && forall i :: 0 <= i < |xs| ==> Reordered(xs[i], ys[i])
    requires forall x :: x in xs ==> FloatsOk(x)
    ensures CanonicalAll(xs, depth) == CanonicalAll(ys, depth)
    decreases xs
  {
    forall i | 0 <= i < |xs| ensures Canonical(xs[i], depth) == Canonical(ys[i], depth) {
      assert xs[i] in xs;
      CanonicalIgnoresOrder(xs[i], ys[i], depth);
    }
  }

  lemma {:induction false} SetsAgree(xs: seq<PyVal>, ys: seq<PyVal>, depth: nat)
    requires Reordered(PSet(xs), PSet(ys))
    requires forall x :: x in xs ==> FloatsOk(x)
    ensures SortBy(Itself, Texts(CanonicalAll(xs, depth))) == SortBy(Itself, Texts(CanonicalAll(ys, depth)))
    decreases xs
  {
    var p: seq<nat> :| IsPermutation(p, |xs|) && forall i :: 0 <= i < |xs| ==> Reordered(xs[i], ys[p[i]]);
    var a, b := Texts(CanonicalAll(xs, depth)), Texts(CanonicalAll(ys, depth));
    forall i | 0 <= i < |xs| ensures a[i] == b[p[i]] {
      assert xs[i] in xs;
      CanonicalIgnoresOrder(xs[i], ys[p[i]], depth);
    }
    PermutationMultiset(a, b, p);
    TextsIgnoreOrder(a, b);
  }

  lemma {:induction false} DictsAgree(es: seq<Entry>, fs: seq<Entry>, depth: nat)
    requires Reordered(PDict(es), PDict(fs))
    requires forall e :: e in es ==> FloatsOk(e.key) && FloatsOk(e.val)
    ensures SortBy(Json, CanonicalEntries(es, depth)) == SortBy(Json, CanonicalEntries(fs, depth))
    decreases es
  {
    var p: seq<nat> :| IsPermutation(p, |es|)
      && forall i :: 0 <= i < |es| ==>
           Reordered(es[i].key, fs[p[i]].key) && Reordered(es[i].val, fs[p[i]].val);
    var a, b := CanonicalEntries(es, depth), CanonicalEntries(fs, depth);
    forall i | 0 <= i < |es| ensures a[i] == b[p[i]] {
      assert es[i] in es;
      EntriesAgree(es[i], fs[p[i]], depth);
    }
    PermutationMultiset(a, b, p);
    EntriesWellformed(es, depth);
    SortedEntriesAgree(a, b);
  }

  lemma {:induction false} SortedEntriesAgree(a: seq<Canon>, b: seq<Canon>)
    requires multiset(a) == multiset(b) && forall c :: c in a ==> Wellformed(c)
    ensures SortBy(Json, a) == SortBy(Json, b)
  {
    TiesAreEqual(a);
    SortIgnoresOrder(Json, a, b);
  }

  lemma {:induction false} TextsIgnoreOrder(a: seq<string>, b: seq<string>)
    requires multiset(a) == multiset(b)
    ensures SortBy(Itself, a) == SortBy(Itself, b)
  {
    SortIgnoresOrder(Itself, a, b);
  }

  lemma {:induction false} EntriesAgree(e: Entry, f: Entry, depth: nat)
    requires Reordered(e.key, f.key) && Reordered(e.val, f.val) && FloatsOk(e.key) && FloatsOk(e.val)
    ensures CanonicalEntry(e, depth) == CanonicalEntry(f, depth)
    decreases e
  {
    CanonicalIgnoresOrder(e.key, f.key, depth);
    CanonicalIgnoresOrder(e.val, f.val, depth);
  }

  /** The sort key is the whole text, so entries that tie are the same entry. */
  lemma TiesAreEqual(a: seq<Canon>)
    requires forall c :: c in a ==> Wellformed(c)
    ensures forall i, j :: 0 <= i < |a| && 0 <= j < |a| && Json(a[i]) == Json(a[j]) ==> a[i] == a[j]
  {
    forall i, j | 0 <= i < |a| && 0 <= j < |a| && Json(a[i]) == Json(a[j]) ensures a[i] == a[j] {
      JsonInjective(a[i], a[j]);
    }
  }

  // ------------------------------------------------------ what it looks like

  /** A dict becomes a list of one pair for each entry, ascending by the pairs' texts. */
  lemma {:induction false} DictFormAscends(es: seq<Entry>, depth: nat)
    requires depth <= 12
    ensures var c := Canonical(PDict(es), depth);
            && c.CList? && |c.items| == |es|
            && multiset(c.items) == multiset(seq(|es|, i requires 0 <= i < |es| => PairOf(es[i], depth + 1)))
            && forall i, j :: 0 <= i < j < |c.items| ==> Ascending(Json(c.items[i]), Json(c.items[j]))
  {
    var entries := CanonicalEntries(es, depth + 1);
    EntriesInPlace(es, depth + 1);
    SortByAscends(Json, entries);
    SortKeepsLength(entries);
  }

  lemma EntriesInPlace(es: seq<Entry>, depth: nat)
    ensures CanonicalEntries(es, depth) == seq(|es|, i requires 0 <= i < |es| => PairOf(es[i], depth))
  {
  }

  lemma SortKeepsLength(cs: seq<Canon>)
    ensures |SortBy(Json, cs)| == |cs|
  {
    assert |SortBy(Json, cs)| == |multiset(SortBy(Json, cs))| == |multiset(cs)|;
  }

  /** The text of the key's form, and the form of the value. */
  function PairOf(e: Entry, depth: nat): Canon {
    CList([CStr(Json(Canonical(e.key, depth))), Canonical(e.val, depth)])
  }

  /** A set becomes a list of its members' texts, ascending. */
  lemma {:induction false} SetFormAscends(xs: seq<PyVal>, depth: nat)
    requires depth <= 12
    ensures var c := Canonical(PSet(xs), depth);
            && c.CList? && |c.items| == |xs| && (forall i :: 0 <= i < |c.items| ==> c.items[i].CStr?)
            && multiset(TextsIn(c.items)) ==
               multiset(seq(|xs|, i requires 0 <= i < |xs| => Json(Canonical(xs[i], depth + 1))))
            && forall i, j :: 0 <= i < j < |c.items| ==> Ascending(c.items[i].s, c.items[j].s)
  {
    var texts := Texts(CanonicalAll(xs, depth + 1));
    TextsInPlace(xs, depth + 1);
    SortByAscends(Itself, texts);
    TextsSorted(texts);
  }

  lemma TextsInPlace(xs: seq<PyVal>, depth: nat)
    ensures Texts(CanonicalAll(xs, depth)) == seq(|xs|, i requires 0 <= i < |xs| => Json(Canonical(xs[i], depth)))
  {
  }

  lemma TextsSorted(texts: seq<string>)
    ensures var cs := AsStrings(SortBy(Itself, texts)); |cs| == |texts| && TextsIn(cs) == SortBy(Itself, texts)
  {
    var sorted := SortBy(Itself, texts);
    assert |sorted| == |multiset(sorted)| == |multiset(texts)|;
  }

  function TextsIn(cs: seq<Canon>): seq<string>
    requires forall i :: 0 <= i < |cs| ==> cs[i].CStr?
  {
    seq(|cs|, i requires 0 <= i < |cs| => cs[i].s)
  }

  /** Lists and tuples keep their order. */
  lemma ListFormInOrder(xs: seq<PyVal>, depth: nat, i: nat)
    requires depth <= 12 && i < |xs|
    ensures var c := Canonical(PList(xs), depth);
            c.CList? && |c.items| == |xs| && c.items[i] == Canonical(xs[i], depth + 1)
    ensures Canonical(PTuple(xs), depth) == Canonical(PList(xs), depth)
  {
  }

  /** Below the cap and beyond it. */
  lemma DepthCapAt(v: PyVal, depth: nat)
    ensures depth > 12 ==> Canonical(v, depth) == CStr("<max_depth>")
    ensures depth <= 12 && v.PNone? ==> Canonical(v, depth) == CNull
    ensures depth <= 12 && v.PBool? ==> Canonical(v, depth) == CBool(v.b)
    ensures depth <= 12 && v.PInt? ==> Canonical(v, depth) == CInt(v.i)
    ensures depth <= 12 && v.PFloat? ==> Canonical(v, depth) == CFloat(v.repr)
    ensures depth <= 12 && v.PStr? ==> Canonical(v, depth) == CStr(v.s)
    ensures depth <= 12 && v.POpaque? ==> Canonical(v, depth) == CStr(v.text)
  {
  }

  // ---------------------------------------------------------------- event ids

  datatype Basis = Basis(schema: PyVal, source: PyVal, producer: PyVal, ts: PyVal,
                         prediction: PyVal, outcome: PyVal, isWrong: PyVal)

  function BasisDict(b: Basis): PyVal {
    PDict([Entry(PStr("schema_version"), b.schema), Entry(PStr("source"), b.source),
           Entry(PStr("producer"), b.producer), Entry(PStr("ts"), b.ts),
           Entry(PStr("prediction"), b.prediction), Entry(PStr("outcome"), b.outcome),
           Entry(PStr("is_wrong"), b.isWrong)])
  }

  /** The hash is ideal: an id is known by the text that was hashed. */
  datatype EventId = Fe(blob: string)

  function FallbackEventId(b: Basis): EventId { Fe(Json(Canonical(BasisDict(b), 0))) }

  ghost predicate ReorderedBasis(a: Basis, b: Basis) {
    && Reordered(a.schema, b.schema) && Reordered(a.source, b.source)
    && Reordered(a.producer, b.producer) && Reordered(a.ts, b.ts)
    && Reordered(a.prediction, b.prediction) && Reordered(a.outcome, b.outcome)
    && Reordered(a.isWrong, b.isWrong)
  }

  ghost predicate BasisFloatsOk(b: Basis) {
    && FloatsOk(b.schema) && FloatsOk(b.source) && FloatsOk(b.producer) && FloatsOk(b.ts)
    && FloatsOk(b.prediction) && FloatsOk(b.outcome) && FloatsOk(b.isWrong)
  }

  lemma BasisDictFloatsOk(b: Basis)
    requires BasisFloatsOk(b)
    ensures FloatsOk(BasisDict(b))
  {
  }

  /**
   Two events get the same fallback id exactly when their bases have the same
   canonical form: the text that is hashed adds no collision of its own.
   */
  lemma SameIdIffSameForm(a: Basis, b: Basis)
    requires BasisFloatsOk(a) && BasisFloatsOk(b)
    ensures FallbackEventId(a) == FallbackEventId(b) <==>
            Canonical(BasisDict(a), 0) == Canonical(BasisDict(b), 0)
  {
    BasisDictFloatsOk(a);
    BasisDictFloatsOk(b);
    CanonicalWellformed(BasisDict(a), 0);
    CanonicalWellformed(BasisDict(b), 0);
    if FallbackEventId(a) == FallbackEventId(b) {
      JsonInjective(Canonical(BasisDict(a), 0), Canonical(BasisDict(b), 0));
    }
  }

  /** A producer that emits an event again gets its id again, whatever the hash seed. */
  lemma {:induction false} ReemittedEventKeepsId(a: Basis, b: Basis)
    requires ReorderedBasis(a, b) && BasisFloatsOk(a)
    ensures FallbackEventId(a) == FallbackEventId(b)
  {
    BasisDictFloatsOk(a);
    var es, fs := BasisDict(a).entries, BasisDict(b).entries;
    forall i | 0 <= i < 7 ensures SameKey(es[i], fs[i]) && Reordered(es[i].val, fs[i].val) {
      if i < 3 {
        assert i == 0 || i == 1 || i == 2;
      } else {
        assert i == 3 || i == 4 || i == 5 || i == 6;
      }
    }
    SamePlaceReordered(es, fs);
    CanonicalIgnoresOrder(BasisDict(a), BasisDict(b), 0);
  }

  ghost predicate SameKey(e: Entry, f: Entry) { e.key == f.key && e.key.PStr? }

  lemma SamePlaceReordered(es: seq<Entry>, fs: seq<Entry>)
    requires |es| == |fs|
    requires forall i :: 0 <= i < |es| ==> SameKey(es[i], fs[i]) && Reordered(es[i].val, fs[i].val)
    ensures Reordered(PDict(es), PDict(fs))
  {
    var p: seq<nat> := seq(|es|, i => i);
    assert IsPermutation(p, |es|);
    forall i | 0 <= i < |es|
      ensures Reordered(es[i].key, fs[p[i]].key) && Reordered(es[i].val, fs[p[i]].val)
    {
      assert p[i] == i && SameKey(es[i], fs[i]);
    }
  }

  /** Keys of a dict that differ canonically never fold into one entry. */
  lemma EntriesDifferIffPartsDiffer(e: Entry, f: Entry, depth: nat)
    requires FloatsOk(e.key) && FloatsOk(e.val) && FloatsOk(f.key) && FloatsOk(f.val)
    ensures CanonicalEntry(e, depth) == CanonicalEntry(f, depth) <==>
            Canonical(e.key, depth) == Canonical(f.key, depth) && Canonical(e.val, depth) == Canonical(f.val, depth)
  {
    CanonicalWellformed(e.key, depth);
    CanonicalWellformed(f.key, depth);
    if CanonicalEntry(e, depth) == CanonicalEntry(f, depth) {
      assert CanonicalEntry(e, depth).items[0] == CanonicalEntry(f, depth).items[0];
      assert CanonicalEntry(e, depth).items[1] == CanonicalEntry(f, depth).items[1];
      JsonInjective(Canonical(e.key, depth), Canonical(f.key, depth));
    }
  }

  /** The form keeps order out but not every type in: a set of one number and the list of that number's text. */
  lemma SetAndListOfTextCollide(i: int, depth: nat)
    requires depth < MAX_DEPTH
    ensures Canonical(PSet([PInt(i)]), depth) == Canonical(PList([PStr(Json(CInt(i)))]), depth)
    ensures !Reordered(PSet([PInt(i)]), PList([PStr(Json(CInt(i)))]))
  {
    var ts := Texts(CanonicalAll([PInt(i)], depth + 1));
    assert ts == [Json(CInt(i))];
    assert SortBy(Itself, ts) == [Json(CInt(i))] by { assert ts[1..] == []; }
    assert AsStrings([Json(CInt(i))]) == [CStr(Json(CInt(i)))];
    assert CanonicalAll([PStr(Json(CInt(i)))], depth + 1) == [CStr(Json(CInt(i)))];
  }
}
