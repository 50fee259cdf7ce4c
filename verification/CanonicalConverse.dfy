/** What the fallback event id tells apart, and the values that it cannot. */
module CanonicalConverse {
  import opened JsonText
  import opened TextSort
  import opened CanonicalForm

  // ------------------------------------------------------------ field by field

  function FieldName(i: nat): string
    requires i < 7
  {
    if i == 0 then "schema_version" else if i == 1 then "source" else if i == 2 then "producer"
    else if i == 3 then "ts" else if i == 4 then "prediction" else if i == 5 then "outcome" else "is_wrong"
  }

  function Field(b: Basis, i: nat): PyVal
    requires i < 7
  {
    if i == 0 then b.schema else if i == 1 then b.source else if i == 2 then b.producer
    else if i == 3 then b.ts else if i == 4 then b.prediction else if i == 5 then b.outcome else b.isWrong
  }

  lemma FieldNamesDiffer(i: nat, j: nat)
    requires i < 7 && j < 7 && FieldName(i) == FieldName(j)
    ensures i == j
  {
    assert |FieldName(i)| == |FieldName(j)| && FieldName(i)[0] == FieldName(j)[0];
  }

  predicate NamesField(e: Entry, b: Basis, i: nat)
    requires i < 7
  {
    e == Entry(PStr(FieldName(i)), Field(b, i))
  }

  lemma FieldListed(b: Basis, i: nat)
    requires i < 7
    ensures |BasisDict(b).entries| == 7 && NamesField(BasisDict(b).entries[i], b, i)
  {
  }

  function FieldForms(b: Basis): (r: seq<Canon>)
    ensures |r| == 7 && forall i :: 0 <= i < 7 ==> r[i] == Canonical(Field(b, i), 1)
  {
    seq(7, i requires 0 <= i < 7 => Canonical(Field(b, i), 1))
  }

  function NamedForm(i: nat, c: Canon): Canon
    requires i < 7
  {
    CList([CStr(Json(CStr(FieldName(i)))), c])
  }

  lemma NamedFormsDiffer(i: nat, j: nat, c: Canon, d: Canon)
    requires i < 7 && j < 7 && NamedForm(i, c) == NamedForm(j, d)
    ensures i == j && c == d
  {
    assert NamedForm(i, c).items[0] == NamedForm(j, d).items[0];
    assert NamedForm(i, c).items[1] == NamedForm(j, d).items[1];
    JsonInjective(CStr(FieldName(i)), CStr(FieldName(j)));
    FieldNamesDiffer(i, j);
  }

  lemma NamedEntry(i: nat, v: PyVal)
    requires i < 7
    ensures CanonicalEntry(Entry(PStr(FieldName(i)), v), 1) == NamedForm(i, Canonical(v, 1))
  {
    assert Canonical(PStr(FieldName(i)), 1) == CStr(FieldName(i));
  }

  lemma DictForm(es: seq<Entry>)
    ensures Canonical(PDict(es), 0) == CList(SortBy(Json, CanonicalEntries(es, 1)))
  {
  }

  /** These forms are the seven named fields, in the order in which they are listed. */
  predicate Named(es: seq<Canon>, forms: seq<Canon>) {
    |es| == |forms| == 7 && forall i :: 0 <= i < 7 ==> es[i] == NamedForm(i, forms[i])
  }

  lemma EntryNamed(e: Entry, b: Basis, i: nat)
    requires i < 7 && NamesField(e, b, i)
    ensures CanonicalEntry(e, 1) == NamedForm(i, FieldForms(b)[i])
  {
    NamedEntry(i, Field(b, i));
  }

  lemma BasisForm(b: Basis) returns (es: seq<Canon>)
    ensures Named(es, FieldForms(b)) && Canonical(BasisDict(b), 0) == CList(SortBy(Json, es))
  {
    var entries := BasisDict(b).entries;
    es := CanonicalEntries(entries, 1);
    DictForm(entries);
    forall i | 0 <= i < 7 ensures |es| == 7 && es[i] == NamedForm(i, FieldForms(b)[i]) {
      FieldListed(b, i);
      EntryNamed(entries[i], b, i);
    }
  }

  lemma SameNamedMember(es: seq<Canon>, fs: seq<Canon>, a: seq<Canon>, b: seq<Canon>, i: nat)
    requires Named(es, a) && Named(fs, b) && multiset(es) == multiset(fs) && i < 7
    ensures a[i] == b[i]
  {
    assert es[i] in multiset(fs);
    var j :| 0 <= j < 7 && fs[j] == es[i];
    NamedFormsDiffer(i, j, a[i], b[j]);
  }

  /** Named forms are sorted to the same list exactly when they name the same fields. */
  lemma NamedFormsAgree(es: seq<Canon>, fs: seq<Canon>, a: seq<Canon>, b: seq<Canon>)
    requires Named(es, a) && Named(fs, b)
    ensures SortBy(Json, es) == SortBy(Json, fs) <==> a == b
  {
    if SortBy(Json, es) == SortBy(Json, fs) {
      SameMembers(es, fs);
      AllNamedMembersSame(es, fs, a, b);
    }
    if a == b { SameNames(es, fs, a); }
  }

  lemma SameMembers(es: seq<Canon>, fs: seq<Canon>)
    requires SortBy(Json, es) == SortBy(Json, fs)
    ensures multiset(es) == multiset(fs)
  {
  }

  lemma SameNames(es: seq<Canon>, fs: seq<Canon>, a: seq<Canon>)
    requires Named(es, a) && Named(fs, a)
    ensures es == fs
  {
  }

  lemma AllNamedMembersSame(es: seq<Canon>, fs: seq<Canon>, a: seq<Canon>, b: seq<Canon>)
    requires Named(es, a) && Named(fs, b) && multiset(es) == multiset(fs)
    ensures a == b
  {
    forall i: nat | i < 7 ensures a[i] == b[i] { SameNamedMember(es, fs, a, b, i); }
  }

  /** Two events get the same fallback id exactly when each of their seven fields has the same canonical form. */
  lemma SameIdIffSameFields(a: Basis, b: Basis)
    requires BasisFloatsOk(a) && BasisFloatsOk(b)
    ensures FallbackEventId(a) == FallbackEventId(b) <==> FieldForms(a) == FieldForms(b)
  {
    SameIdIffSameForm(a, b);
    var es := BasisForm(a);
    var fs := BasisForm(b);
    NamedFormsAgree(es, fs, FieldForms(a), FieldForms(b));
  }

  // -------------------------------------------------- where the form tells apart

  /** Besides dicts, values of a plain class have one kind of container. */
  datatype Kind = Lists | Tuples | Sets

  /** Every member looks like a folded dict entry: two members, the first one text. */
  predicate PairShaped(xs: seq<PyVal>) {
    forall x :: x in xs ==> (x.PList? || x.PTuple?) && |x.items| == 2 && x.items[0].PStr?
  }

  /** Leaves, dicts and one kind of other container, none shaped like a folded dict or set, within the depth cap. */
  predicate Plain(v: PyVal, kind: Kind, depth: nat)
    decreases v
  {
    && depth <= MAX_DEPTH
    && match v
       case POpaque(_) => false
       case PDict(es) => forall e :: e in es ==> Plain(e.key, kind, depth + 1) && Plain(e.val, kind, depth + 1)
       case PList(xs) => kind.Lists? && !PairShaped(xs) && forall x :: x in xs ==> Plain(x, kind, depth + 1)
       case PTuple(xs) => kind.Tuples? && !PairShaped(xs) && forall x :: x in xs ==> Plain(x, kind, depth + 1)
       case PSet(xs) => kind.Sets? && xs != [] && forall x :: x in xs ==> Plain(x, kind, depth + 1)
       case _ => true
  }

  /** A folded dict entry: a list of a text and a value. */
  predicate IsPair(c: Canon) { c.CList? && |c.items| == 2 && c.items[0].CStr? }

  lemma OnlyTextIsText(v: PyVal, kind: Kind, depth: nat)
    requires Plain(v, kind, depth)
    ensures Canonical(v, depth).CStr? <==> v.PStr?
  {
  }

  lemma EntriesArePairs(es: seq<Entry>, depth: nat)
    ensures forall c :: c in SortBy(Json, CanonicalEntries(es, depth)) ==> IsPair(c)
  {
    forall c | c in SortBy(Json, CanonicalEntries(es, depth)) ensures IsPair(c) {
      assert c in multiset(SortBy(Json, CanonicalEntries(es, depth)));
      assert c in CanonicalEntries(es, depth);
      var i :| 0 <= i < |es| && c == CanonicalEntry(es[i], depth);
    }
  }

  /** A member that is not pair-shaped does not become a pair. */
  lemma PairsComeFromPairs(x: PyVal, kind: Kind, depth: nat)
    requires Plain(x, kind, depth) && IsPair(Canonical(x, depth)) && !kind.Sets?
    ensures (x.PList? || x.PTuple?) && |x.items| == 2 && x.items[0].PStr?
  {
    if x.PDict? {
      EntriesArePairs(x.entries, depth + 1);
      assert Canonical(x, depth).items[0] in SortBy(Json, CanonicalEntries(x.entries, depth + 1));
      assert false;
    } else {
      assert Canonical(x, depth).items == CanonicalAll(x.items, depth + 1);
      assert x.items[0] in x.items;
      OnlyTextIsText(x.items[0], kind, depth + 1);
    }
  }

  /** A dict's form is no list's form. */
  lemma DictIsNoList(es: seq<Entry>, xs: seq<PyVal>, kind: Kind, depth: nat)
    requires !kind.Sets? && !PairShaped(xs) && forall x :: x in xs ==> Plain(x, kind, depth)
    ensures SortBy(Json, CanonicalEntries(es, depth)) != CanonicalAll(xs, depth)
  {
    var x :| x in xs && !((x.PList? || x.PTuple?) && |x.items| == 2 && x.items[0].PStr?);
    var i :| 0 <= i < |xs| && xs[i] == x;
    var c := CanonicalAll(xs, depth)[i];
    assert !IsPair(c) by { if IsPair(c) { PairsComeFromPairs(x, kind, depth); } }
    EntriesArePairs(es, depth);
    assert c in CanonicalAll(xs, depth);
  }

  lemma DictIsNoSet(es: seq<Entry>, xs: seq<PyVal>, depth: nat)
    requires xs != []
    ensures SortBy(Json, CanonicalEntries(es, depth)) != AsStrings(SortBy(Itself, Texts(CanonicalAll(xs, depth))))
  {
    var ts := SortBy(Itself, Texts(CanonicalAll(xs, depth)));
    assert |ts| == |multiset(ts)| == |multiset(Texts(CanonicalAll(xs, depth)))| == |xs|;
    EntriesArePairs(es, depth);
    assert AsStrings(ts)[0] in AsStrings(ts) && AsStrings(ts)[0].CStr?;
  }

  /** Within a plain class, values with one canonical form are the same up to the order of dicts and sets. */
  lemma {:induction false} FormTellsApart(v: PyVal, w: PyVal, kind: Kind, depth: nat)
    requires Plain(v, kind, depth) && Plain(w, kind, depth) && FloatsOk(v) && FloatsOk(w)
    requires Canonical(v, depth) == Canonical(w, depth)
    ensures Reordered(v, w)
    decreases v
  {
    match (v, w) {
      case (PDict(es), PDict(fs)) => DictsToldApart(es, fs, kind, depth + 1);
      case (PList(xs), PList(ys)) => ListsToldApart(xs, ys, kind, depth + 1);
      case (PTuple(xs), PTuple(ys)) => ListsToldApart(xs, ys, kind, depth + 1);
      case (PSet(xs), PSet(ys)) => SetsToldApart(xs, ys, kind, depth + 1);
      case (PDict(es), PList(ys)) => DictIsNoList(es, ys, kind, depth + 1);
      case (PDict(es), PTuple(ys)) => DictIsNoList(es, ys, kind, depth + 1);
      case (PDict(es), PSet(ys)) => DictIsNoSet(es, ys, depth + 1);
      case (PList(xs), PDict(fs)) => DictIsNoList(fs, xs, kind, depth + 1);
      case (PTuple(xs), PDict(fs)) => DictIsNoList(fs, xs, kind, depth + 1);
      case (PSet(xs), PDict(fs)) => DictIsNoSet(fs, xs, depth + 1);
      case _ =>
    }
  }

  lemma {:induction false} ListsToldApart(xs: seq<PyVal>, ys: seq<PyVal>, kind: Kind, depth: nat)
    requires forall x :: x in xs ==> Plain(x, kind, depth) && FloatsOk(x)
    requires forall y :: y in ys ==> Plain(y, kind, depth) && FloatsOk(y)
    requires CanonicalAll(xs, depth) == CanonicalAll(ys, depth)
    ensures |xs| == |ys| && forall i :: 0 <= i < |xs| ==> Reordered(xs[i], ys[i])
    decreases xs
  {
    assert |xs| == |CanonicalAll(xs, depth)| == |ys|;
    forall i | 0 <= i < |xs| ensures Reordered(xs[i], ys[i]) {
      assert xs[i] in xs && ys[i] in ys;
      assert CanonicalAll(xs, depth)[i] == CanonicalAll(ys, depth)[i];
      FormTellsApart(xs[i], ys[i], kind, depth);
    }
  }

  lemma {:induction false} SetsToldApart(xs: seq<PyVal>, ys: seq<PyVal>, kind: Kind, depth: nat)
    requires forall x :: x in xs ==> Plain(x, kind, depth) && FloatsOk(x)
    requires forall y :: y in ys ==> Plain(y, kind, depth) && FloatsOk(y)
    requires AsStrings(SortBy(Itself, Texts(CanonicalAll(xs, depth)))) ==
             AsStrings(SortBy(Itself, Texts(CanonicalAll(ys, depth))))
    ensures Reordered(PSet(xs), PSet(ys))
    decreases xs
  {
    var a, b := Texts(CanonicalAll(xs, depth)), Texts(CanonicalAll(ys, depth));
    SameStrings(SortBy(Itself, a), SortBy(Itself, b));
    assert multiset(a) == multiset(SortBy(Itself, a)) == multiset(SortBy(Itself, b)) == multiset(b);
    var p := MultisetPermutation(a, b);
    forall i | 0 <= i < |xs| ensures Reordered(xs[i], ys[p[i]]) {
      assert xs[i] in xs && ys[p[i]] in ys && a[i] == b[p[i]];
      SameTextSameForm(xs[i], ys[p[i]], depth);
      FormTellsApart(xs[i], ys[p[i]], kind, depth);
    }
  }

  lemma SameStrings(s: seq<string>, t: seq<string>)
    requires AsStrings(s) == AsStrings(t)
    ensures s == t
  {
    assert |s| == |AsStrings(s)| == |t|;
    forall i | 0 <= i < |s| ensures s[i] == t[i] { assert AsStrings(s)[i] == AsStrings(t)[i]; }
  }

  lemma SameTextSameForm(v: PyVal, w: PyVal, depth: nat)
    requires FloatsOk(v) && FloatsOk(w) && Json(Canonical(v, depth)) == Json(Canonical(w, depth))
    ensures Canonical(v, depth) == Canonical(w, depth)
  {
    CanonicalWellformed(v, depth);
    CanonicalWellformed(w, depth);
    JsonInjective(Canonical(v, depth), Canonical(w, depth));
  }

  lemma {:induction false} DictsToldApart(es: seq<Entry>, fs: seq<Entry>, kind: Kind, depth: nat)
    requires forall e :: e in es ==> EntryPlain(e, kind, depth)
    requires forall f :: f in fs ==> EntryPlain(f, kind, depth)
    requires SortBy(Json, CanonicalEntries(es, depth)) == SortBy(Json, CanonicalEntries(fs, depth))
    ensures Reordered(PDict(es), PDict(fs))
    decreases es
  {
    var a, b := CanonicalEntries(es, depth), CanonicalEntries(fs, depth);
    assert multiset(a) == multiset(SortBy(Json, a)) == multiset(SortBy(Json, b)) == multiset(b);
    var p := MultisetPermutation(a, b);
    forall i | 0 <= i < |es| ensures Reordered(es[i].key, fs[p[i]].key) && Reordered(es[i].val, fs[p[i]].val) {
      assert es[i] in es && fs[p[i]] in fs && a[i] == b[p[i]];
      EntriesToldApart(es[i], fs[p[i]], kind, depth);
    }
  }

  predicate EntryPlain(e: Entry, kind: Kind, depth: nat) {
    Plain(e.key, kind, depth) && Plain(e.val, kind, depth) && FloatsOk(e.key) && FloatsOk(e.val)
  }

  lemma {:induction false} EntriesToldApart(e: Entry, f: Entry, kind: Kind, depth: nat)
    requires EntryPlain(e, kind, depth) && EntryPlain(f, kind, depth)
    requires CanonicalEntry(e, depth) == CanonicalEntry(f, depth)
    ensures Reordered(e.key, f.key) && Reordered(e.val, f.val)
    decreases e
  {
    EntriesDifferIffPartsDiffer(e, f, depth);
    FormTellsApart(e.key, f.key, kind, depth);
    FormTellsApart(e.val, f.val, kind, depth);
  }

  /**
   On plain values the form is exactly the value up to order: it discriminates, and it
   forgets nothing but the iteration order.
   */
  lemma FormIsValueUpToOrder(v: PyVal, w: PyVal, kind: Kind, depth: nat)
    requires Plain(v, kind, depth) && Plain(w, kind, depth) && FloatsOk(v) && FloatsOk(w)
    ensures Canonical(v, depth) == Canonical(w, depth) <==> Reordered(v, w)
  {
    if Reordered(v, w) { CanonicalIgnoresOrder(v, w, depth); }
    if Canonical(v, depth) == Canonical(w, depth) { FormTellsApart(v, w, kind, depth); }
  }

  ghost predicate PlainBasis(b: Basis, kind: Kind) {
    forall i: nat :: i < 7 ==> Plain(Field(b, i), kind, 1) && FloatsOk(Field(b, i))
  }

  lemma PlainBasisFloatsOk(b: Basis, kind: Kind)
    requires PlainBasis(b, kind)
    ensures BasisFloatsOk(b)
  {
    assert Field(b, 0) == b.schema && Field(b, 1) == b.source && Field(b, 2) == b.producer && Field(b, 3) == b.ts;
    assert Field(b, 4) == b.prediction && Field(b, 5) == b.outcome && Field(b, 6) == b.isWrong;
  }

  lemma PlainFieldsToldApart(a: Basis, b: Basis, kind: Kind, i: nat)
    requires PlainBasis(a, kind) && PlainBasis(b, kind) && i < 7
    ensures FieldForms(a)[i] == FieldForms(b)[i] <==> Reordered(Field(a, i), Field(b, i))
  {
    var v, w := Field(a, i), Field(b, i);
    assert FieldForms(a)[i] == Canonical(v, 1) && FieldForms(b)[i] == Canonical(w, 1);
    FormIsValueUpToOrder(v, w, kind, 1);
  }

  ghost predicate FieldsReordered(a: Basis, b: Basis) {
    forall i: nat :: i < 7 ==> Reordered(Field(a, i), Field(b, i))
  }

  /** So for plain events the fallback id is the event's identity: the same id means the same fields up to order. */
  lemma PlainEventsIdentified(a: Basis, b: Basis, kind: Kind)
    requires PlainBasis(a, kind) && PlainBasis(b, kind)
    ensures FallbackEventId(a) == FallbackEventId(b) <==> FieldsReordered(a, b)
  {
    PlainBasisFloatsOk(a, kind);
    PlainBasisFloatsOk(b, kind);
    SameIdIffSameFields(a, b);
    FormsAgreeByField(a, b, kind);
  }

  lemma FormsAgreeByField(a: Basis, b: Basis, kind: Kind)
    requires PlainBasis(a, kind) && PlainBasis(b, kind)
    ensures FieldForms(a) == FieldForms(b) <==> FieldsReordered(a, b)
  {
    forall i: nat | i < 7 ensures FieldForms(a)[i] == FieldForms(b)[i] <==> Reordered(Field(a, i), Field(b, i)) {
      PlainFieldsToldApart(a, b, kind, i);
    }
  }

  // ------------------------------------------------- what each exclusion is for

  /** An opaque leaf and its text. */
  lemma OpaqueAndTextCollide(s: string, depth: nat)
    ensures Canonical(POpaque(s), depth) == Canonical(PStr(s), depth) && !Reordered(POpaque(s), PStr(s))
  {
  }

  /** A tuple and a list. */
  lemma TupleAndListCollide(xs: seq<PyVal>, depth: nat)
    ensures Canonical(PTuple(xs), depth) == Canonical(PList(xs), depth) && !Reordered(PTuple(xs), PList(xs))
  {
  }

  /** All empty containers. */
  lemma EmptyContainersCollide(depth: nat)
    ensures Canonical(PDict([]), depth) == Canonical(PList([]), depth) == Canonical(PSet([]), depth)
    ensures !Reordered(PDict([]), PList([])) && !Reordered(PSet([]), PList([]))
  {
  }

  /** A dict and the list of its folded entries. */
  lemma DictAndPairsCollide(k: string, v: PyVal, depth: nat)
    requires !Nested(v) && depth + 2 <= MAX_DEPTH
    ensures var pairs := PList([PList([PStr(Json(CStr(k))), v])]);
            Canonical(PDict([Entry(PStr(k), v)]), depth) == Canonical(pairs, depth)
            && !Reordered(PDict([Entry(PStr(k), v)]), pairs)
  {
    EntryIsPair(k, v, depth + 1);
    EntryIsItem(Entry(PStr(k), v), PList([PStr(Json(CStr(k))), v]), depth);
  }

  lemma EntryIsPair(k: string, v: PyVal, depth: nat)
    requires !Nested(v) && depth + 1 <= MAX_DEPTH
    ensures CanonicalEntry(Entry(PStr(k), v), depth) == Canonical(PList([PStr(Json(CStr(k))), v]), depth)
  {
    PairForm(Json(CStr(k)), v, depth);
    LeafAtAnyDepth(v, depth);
  }

  lemma EntryIsItem(e: Entry, x: PyVal, depth: nat)
    requires depth <= MAX_DEPTH && CanonicalEntry(e, depth + 1) == Canonical(x, depth + 1)
    ensures Canonical(PDict([e]), depth) == Canonical(PList([x]), depth)
  {
    OneEntryDict(e, depth);
    OneItemList(x, depth);
  }

  lemma LeafAtAnyDepth(v: PyVal, depth: nat)
    requires !Nested(v) && depth + 1 <= MAX_DEPTH
    ensures Canonical(v, depth) == Canonical(v, depth + 1)
  {
  }

  lemma OneEntryDict(e: Entry, depth: nat)
    requires depth <= MAX_DEPTH
    ensures Canonical(PDict([e]), depth) == CList([CanonicalEntry(e, depth + 1)])
  {
    OneEntry(e, depth + 1);
    SortOne(CanonicalEntry(e, depth + 1));
  }

  lemma OneItemList(v: PyVal, depth: nat)
    requires depth <= MAX_DEPTH
    ensures Canonical(PList([v]), depth) == CList([Canonical(v, depth + 1)])
  {
    OneItem(v, depth + 1);
  }

  lemma PairForm(t: string, v: PyVal, depth: nat)
    requires depth + 1 <= MAX_DEPTH
    ensures Canonical(PList([PStr(t), v]), depth) == CList([CStr(t), Canonical(v, depth + 1)])
  {
    assert CanonicalAll([PStr(t), v], depth + 1) == [CStr(t), Canonical(v, depth + 1)];
  }

  lemma OneItem(v: PyVal, depth: nat)
    ensures CanonicalAll([v], depth) == [Canonical(v, depth)]
  {
  }

  lemma OneEntry(e: Entry, depth: nat)
    ensures CanonicalEntries([e], depth) == [CanonicalEntry(e, depth)]
  {
  }

  lemma SortOne(c: Canon)
    ensures SortBy(Json, [c]) == [c]
  {
    assert multiset(SortBy(Json, [c])) == multiset([c]);
    assert |SortBy(Json, [c])| == |multiset([c])| == 1;
    assert SortBy(Json, [c])[0] in multiset([c]);
  }

  /** So many lists around a value. */
  function Wrapped(v: PyVal, n: nat): PyVal { if n == 0 then v else PList([Wrapped(v, n - 1)]) }

  /** Beyond the depth cap any two values. */
  lemma DepthCapCollides(v: PyVal, w: PyVal, n: nat, depth: nat)
    requires n + depth > MAX_DEPTH && !Reordered(v, w)
    ensures Canonical(Wrapped(v, n), depth) == Canonical(Wrapped(w, n), depth)
    ensures !Reordered(Wrapped(v, n), Wrapped(w, n))
  {
    CapHidesWrapped(v, w, n, depth);
    WrapKeepsApart(v, w, n);
  }

  lemma {:induction false} CapHidesWrapped(v: PyVal, w: PyVal, n: nat, depth: nat)
    requires n + depth > MAX_DEPTH
    ensures Canonical(Wrapped(v, n), depth) == Canonical(Wrapped(w, n), depth)
    decreases n
  {
    if depth <= MAX_DEPTH {
      CapHidesWrapped(v, w, n - 1, depth + 1);
      InOneList(Wrapped(v, n - 1), Wrapped(w, n - 1), depth);
    } else {
      CapHides(Wrapped(v, n), depth);
      CapHides(Wrapped(w, n), depth);
    }
  }

  lemma CapHides(v: PyVal, depth: nat)
    requires depth > MAX_DEPTH
    ensures Canonical(v, depth) == CStr("<max_depth>")
  {
  }

  lemma {:induction false} InOneList(v: PyVal, w: PyVal, depth: nat)
    requires Canonical(v, depth + 1) == Canonical(w, depth + 1)
    ensures Canonical(PList([v]), depth) == Canonical(PList([w]), depth)
  {
    OneItem(v, depth + 1);
    OneItem(w, depth + 1);
  }

  lemma {:induction false} WrapKeepsApart(v: PyVal, w: PyVal, n: nat)
    requires !Reordered(v, w)
    ensures !Reordered(Wrapped(v, n), Wrapped(w, n))
  {
    if n > 0 {
      WrapKeepsApart(v, w, n - 1);
      if Reordered(Wrapped(v, n), Wrapped(w, n)) { OneApart(Wrapped(v, n - 1), Wrapped(w, n - 1)); }
    }
  }

  lemma OneApart(v: PyVal, w: PyVal)
    requires Reordered(PList([v]), PList([w]))
    ensures Reordered(v, w)
  {
    assert [v][0] == v && [w][0] == w;
  }

  /** Two events whose predictions differ, a set and the list of its member's text, and which share an id. */
  lemma EventsThatShareAnId(b: Basis, i: int)
    requires BasisFloatsOk(b)
    ensures var set1, list1 := PSet([PInt(i)]), PList([PStr(Json(CInt(i)))]);
            && FallbackEventId(b.(prediction := set1)) == FallbackEventId(b.(prediction := list1))
            && !Reordered(set1, list1)
  {
    SetAndListOfTextCollide(i, 1);
    SamePredictionForm(b, PSet([PInt(i)]), PList([PStr(Json(CInt(i)))]));
  }

  /** The primary dump refuses a dict with such a key, so that the fallback id is the one that is issued. */
  predicate RefusedByDumps(v: PyVal) {
    v.PDict? && exists e :: e in v.entries && (Nested(e.key) || e.key.POpaque?)
  }

  /** The same two events share the id that is issued when their outcome is refused. */
  lemma IssuedIdsCollide(b: Basis, i: int)
    requires BasisFloatsOk(b) && RefusedByDumps(b.outcome)
    ensures var x, y := b.(prediction := PSet([PInt(i)])), b.(prediction := PList([PStr(Json(CInt(i)))]));
            && RefusedByDumps(x.outcome) && RefusedByDumps(y.outcome)
            && !Reordered(x.prediction, y.prediction) && FallbackEventId(x) == FallbackEventId(y)
  {
    EventsThatShareAnId(b, i);
  }

  /** As it is when it is a dict keyed by a tuple. */
  lemma TupleKeyIsRefused(xs: seq<PyVal>, v: PyVal)
    ensures RefusedByDumps(PDict([Entry(PTuple(xs), v)]))
  {
    var e := Entry(PTuple(xs), v);
    assert e in [e];
  }

  lemma SamePredictionForm(b: Basis, v: PyVal, w: PyVal)
    requires BasisFloatsOk(b) && FloatsOk(v) && FloatsOk(w) && Canonical(v, 1) == Canonical(w, 1)
    ensures FallbackEventId(b.(prediction := v)) == FallbackEventId(b.(prediction := w))
  {
    var x, y := b.(prediction := v), b.(prediction := w);
    SameIdIffSameFields(x, y);
    forall k: nat | k < 7 ensures FieldForms(x)[k] == FieldForms(y)[k] {
      SameOtherField(b, v, w, k);
    }
  }

  lemma SameOtherField(b: Basis, v: PyVal, w: PyVal, k: nat)
    requires k < 7
    ensures var x, y := Field(b.(prediction := v), k), Field(b.(prediction := w), k);
            if k == 4 then x == v && y == w else x == y
  {
  }
}
