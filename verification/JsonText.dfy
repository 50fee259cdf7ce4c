/**
 The text json.dumps(value, ensure_ascii=False) gives for a canonical value, and
 the proof that no two canonical values share a text.  Strings are quoted as in
 section 7 of RFC 8259.
 */
module JsonText {
  import opened Decimals

  /** The characters of what float.__repr__ (or json's NaN and Infinity) prints. */
  predicate IsFloatChar(c: char) {
    || IsDigit(c) || c == '+' || c == '-' || IsFloatMark(c)
    || c == 'a' || c == 'n' || c == 'f' || c == 'i' || c == 't' || c == 'y'
  }

  /** A float's text has one of these, an int's has none. */
  predicate IsFloatMark(c: char) { c == '.' || c == 'e' || c == 'N' || c == 'I' }

  predicate IsFloatRepr(s: string) {
    && (forall i :: 0 <= i < |s| ==> IsFloatChar(s[i]))
    && (exists i :: 0 <= i < |s| && IsFloatMark(s[i]))
  }

  /** None, bool, int, float, str and list: all that a canonical form contains. */
  datatype Canon =
    | CNull
    | CBool(b: bool)
    | CInt(i: int)
    | CFloat(repr: string)
    | CStr(s: string)
    | CList(items: seq<Canon>)

  /** Every float inside carries a float's printed form. */
  predicate Wellformed(c: Canon)
    decreases c
  {
    match c
    case CFloat(r) => IsFloatRepr(r)
    case CList(items) => AllWellformed(items)
    case _ => true
  }

  predicate AllWellformed(cs: seq<Canon>)
    decreases cs
  {
    cs == [] || (Wellformed(cs[0]) && AllWellformed(cs[1..]))
  }

  const HEX: string := "0123456789abcdef"

  /** The letter of a two-character escape; 'u' for a character that has none. */
  function Letter(c: char): char {
    if c == '\"' then '\"'
    else if c == '\\' then '\\'
    else if c == '\n' then 'n'
    else if c == '\r' then 'r'
    else if c == '\t' then 't'
    else if c == '\U{0c}' then 'f'
    else if c == '\U{08}' then 'b'
    else 'u'
  }

  function EscapeChar(c: char): string {
    if Letter(c) != 'u' then ['\\', Letter(c)]
    else if c < ' ' then ['\\', 'u', '0', '0', HEX[c as int / 16], HEX[c as int % 16]]
    else [c]
  }

  function Escape(s: string): string {
    if s == [] then [] else EscapeChar(s[0]) + Escape(s[1..])
  }

  function Quote(s: string): string { "\"" + Escape(s) + "\"" }

  function Json(c: Canon): string
    decreases c
  {
    match c
    case CNull => "null"
    case CBool(b) => if b then "true" else "false"
    case CInt(i) => Decimal(i)
    case CFloat(r) => r
    case CStr(s) => Quote(s)
    case CList(items) => "[" + Items(items) + "]"
  }

  function Items(cs: seq<Canon>): string
    decreases cs
  {
    if cs == [] then ""
    else if |cs| == 1 then Json(cs[0])
    else Json(cs[0]) + ", " + Items(cs[1..])
  }

  // ----------------------------------------------------- what it looks like

  /** The words, the brackets and the separator of json.dumps. */
  lemma JsonSpelled(a: Canon, b: Canon)
    ensures Json(CNull) == "null" && Json(CBool(true)) == "true" && Json(CBool(false)) == "false"
    ensures Json(CList([])) == "[]" && Json(CList([a])) == "[" + Json(a) + "]"
    ensures Json(CList([a, b])) == "[" + Json(a) + ", " + Json(b) + "]"
  {
    ItemsOfTwo(a, b);
    assert Items([a]) == Json(a) && Items([]) == "";
    ListSpelled([]);
    ListSpelled([a]);
    ListSpelled([a, b]);
  }

  lemma ListSpelled(cs: seq<Canon>)
    ensures Json(CList(cs)) == "[" + Items(cs) + "]"
  {
  }

  lemma ItemsOfTwo(a: Canon, b: Canon)
    ensures Items([a, b]) == Json(a) + ", " + Json(b)
  {
    assert [a, b][1..] == [b];
    assert Items([b]) == Json(b);
  }

  /** Two-character escapes for seven characters, \u00XX for the other controls, and everything else as it is. */
  lemma EscapesSpelled(c: char)
    ensures EscapeChar('\n') == "\\n" && EscapeChar('\r') == "\\r" && EscapeChar('\t') == "\\t"
    ensures EscapeChar('\U{08}') == "\\b" && EscapeChar('\U{0c}') == "\\f"
    ensures EscapeChar('\"') == "\\\"" && EscapeChar('\\') == "\\\\"
    ensures EscapeChar('\U{00}') == "\\u0000" && EscapeChar('\U{1f}') == "\\u001f"
    ensures c >= ' ' && c != '\"' && c != '\\' ==> EscapeChar(c) == [c]
    ensures c < ' ' ==> |EscapeChar(c)| == 2 || (|EscapeChar(c)| == 6 && EscapeChar(c)[..4] == "\\u00")
  {
    assert HEX[0] == '0' && HEX[1] == '1' && HEX[15] == 'f';
  }

  // ---------------------------------------------------------------- strings

  lemma EscapeCharPrefix(c: char, d: char, s: string, t: string)
    requires EscapeChar(c) + s == EscapeChar(d) + t
    ensures c == d && s == t
  {
    var a, b := EscapeChar(c), EscapeChar(d);
    var x := a + s;
    assert x == b + t;
    assert x[0] == a[0] == b[0];
    if |a| > 1 {
      assert x[1] == a[1] == b[1];
    }
    if |a| == 6 && |b| == 6 {
      assert x[4] == a[4] == b[4] && x[5] == a[5] == b[5];
    }
    EscapeCharInjective(c, d);
    assert s == x[|a|..] && t == x[|b|..];
  }

  /** The first two characters of an escape, and the two hex digits where there are any, tell which it is. */
  lemma {:induction false} EscapeCharInjective(c: char, d: char)
    requires EscapeChar(c)[0] == EscapeChar(d)[0]
    requires EscapeChar(c)[0] == '\\' ==> EscapeChar(c)[1] == EscapeChar(d)[1]
    requires |EscapeChar(c)| == |EscapeChar(d)| == 6 ==>
               EscapeChar(c)[4] == EscapeChar(d)[4] && EscapeChar(c)[5] == EscapeChar(d)[5]
    ensures c == d
  {
    if Letter(c) == 'u' && c < ' ' {
      assert EscapeChar(c)[1] == 'u' && EscapeChar(d)[1] == 'u';
      assert Letter(d) == 'u' && d < ' ';
      HexInjective(c as int / 16, d as int / 16);
      HexInjective(c as int % 16, d as int % 16);
      assert c as int == d as int;
    }
  }

  lemma HexInjective(i: nat, j: nat)
    requires i < 16 && j < 16 && HEX[i] == HEX[j]
    ensures i == j
  {
    assert forall k | 0 <= k < 16 :: HEX[k] as int == (if k < 10 then 48 + k else 87 + k);
  }

  /** No escape begins with the closing quote. */
  lemma EscapeHead(a: string, s: string)
    ensures (Escape(a) + "\"" + s)[0] == '\"' <==> a == []
    ensures a != [] ==>
      Escape(a) + "\"" + s == EscapeChar(a[0]) + (Escape(a[1..]) + "\"" + s)
    ensures a == [] ==> Escape(a) + "\"" + s == ['\"'] + s
  {
    if a != [] {
      var rest := Escape(a[1..]) + "\"" + s;
      assert Escape(a) + "\"" + s == EscapeChar(a[0]) + rest;
      assert (EscapeChar(a[0]) + rest)[0] == EscapeChar(a[0])[0];
    }
  }

  /** A quoted string is self-delimiting. */
  lemma {:induction false} EscapePrefix(a: string, b: string, s: string, t: string)
    requires Escape(a) + "\"" + s == Escape(b) + "\"" + t
    ensures a == b && s == t
    decreases |a|
  {
    EscapeHead(a, s);
    EscapeHead(b, t);
    if a == [] {
      assert s == (['\"'] + s)[1..] && t == (['\"'] + t)[1..];
    } else {
      EscapeCharPrefix(a[0], b[0], Escape(a[1..]) + "\"" + s, Escape(b[1..]) + "\"" + t);
      EscapePrefix(a[1..], b[1..], s, t);
    }
  }

  // ------------------------------------------------------------ bare tokens

  predicate IsBareChar(c: char) { c != ',' && c != ']' && c != '\"' && c != '[' }

  predicate Bare(s: string) { forall i :: 0 <= i < |s| ==> IsBareChar(s[i]) }

  /** What may follow a value inside a larger text. */
  predicate Delimited(s: string) { s == [] || s[0] == ',' || s[0] == ']' }

  lemma BareRun(x: string, y: string, s: string, t: string)
    requires Bare(x) && Bare(y) && Delimited(s) && Delimited(t)
    requires x + s == y + t
    ensures x == y && s == t
  {
    RunLength(x, y, s, t);
    RunLength(y, x, t, s);
    assert x == (x + s)[..|x|] && s == (x + s)[|x|..];
    assert y == (y + t)[..|y|] && t == (y + t)[|y|..];
  }

  lemma RunLength(x: string, y: string, s: string, t: string)
    requires Bare(y) && Delimited(s)
    requires x + s == y + t
    ensures |y| <= |x|
  {
    assert s != [] ==> !IsBareChar((x + s)[|x|]);
    assert forall k :: 0 <= k < |y| ==> IsBareChar((y + t)[k]);
  }

  predicate IsAtom(c: Canon) { !c.CStr? && !c.CList? }

  /** Atoms print as bare tokens; strings and lists show their kind in the first character. */
  lemma Head(c: Canon)
    requires Wellformed(c)
    ensures |Json(c)| > 0
    ensures IsAtom(c) ==> Bare(Json(c))
    ensures c.CStr? <==> Json(c)[0] == '\"'
    ensures c.CList? <==> Json(c)[0] == '['
    ensures Json(c)[0] != ']' && Json(c)[0] != ','
  {
    match c {
      case CInt(i) => DecimalChars(i);
      case _ =>
    }
  }

  lemma AtomsDiffer(a: Canon, b: Canon)
    requires IsAtom(a) && IsAtom(b) && Wellformed(a) && Wellformed(b)
    requires Json(a) == Json(b)
    ensures a == b
  {
    if a.CInt? && b.CInt? {
      DecimalInjective(a.i, b.i);
    } else if a.CInt? {
      IntTokenIsNoOther(a.i, b);
    } else if b.CInt? {
      IntTokenIsNoOther(b.i, a);
    } else if a.CFloat? {
      if !b.CFloat? { WordIsNoFloat(b, a.repr); }
    } else if b.CFloat? {
      WordIsNoFloat(a, b.repr);
    }
  }

  lemma WordIsNoFloat(w: Canon, f: string)
    requires (w.CNull? || w.CBool?) && IsFloatRepr(f)
    ensures Json(w) != f
  {
    assert !IsFloatChar(Json(w)[2]);
  }

  lemma IntTokenIsNoOther(i: int, b: Canon)
    requires IsAtom(b) && Wellformed(b) && !b.CInt?
    ensures Json(b) != Decimal(i)
  {
    DecimalChars(i);
    if b.CFloat? {
      var k :| 0 <= k < |b.repr| && IsFloatMark(b.repr[k]);
      assert !IsDecimalChar(b.repr[k]);
    } else {
      assert !IsDecimalChar(Json(b)[0]);
    }
  }

  // ------------------------------------------------------------- whole values

  /** JSON texts form a prefix code up to the character that follows a value. */
  lemma {:induction false} JsonPrefix(a: Canon, b: Canon, s: string, t: string)
    requires Wellformed(a) && Wellformed(b) && Delimited(s) && Delimited(t)
    requires Json(a) + s == Json(b) + t
    ensures a == b && s == t
    decreases a, 1
  {
    var x, y := Json(a) + s, Json(b) + t;
    Head(a);
    Head(b);
    assert x[0] == Json(a)[0] && y[0] == Json(b)[0];
    if a.CStr? {
      StrTail(a.s, s);
      StrTail(b.s, t);
      EscapePrefix(a.s, b.s, s, t);
    } else if a.CList? {
      ListTail(a.items, s);
      ListTail(b.items, t);
      ItemsPrefix(a.items, b.items, s, t);
    } else {
      BareRun(Json(a), Json(b), s, t);
      AtomsDiffer(a, b);
    }
  }

  lemma StrTail(v: string, s: string)
    ensures (Json(CStr(v)) + s)[1..] == Escape(v) + "\"" + s
  {
  }

  lemma ListTail(items: seq<Canon>, s: string)
    ensures (Json(CList(items)) + s)[1..] == Items(items) + "]" + s
  {
  }

  lemma {:induction false} ItemsPrefix(xs: seq<Canon>, ys: seq<Canon>, s: string, t: string)
    requires AllWellformed(xs) && AllWellformed(ys)
    requires Items(xs) + "]" + s == Items(ys) + "]" + t
    ensures xs == ys && s == t
    decreases xs, 0
  {
    ItemsHead(xs, s);
    ItemsHead(ys, t);
    if xs == [] {
      assert s == ([']'] + s)[1..] && t == ([']'] + t)[1..];
    } else {
      ItemsSplit(xs, s);
      ItemsSplit(ys, t);
      JsonPrefix(xs[0], ys[0], AfterHead(xs, s), AfterHead(ys, t));
      TailsAgree(xs, ys, s, t);
      if |xs| > 1 { ItemsPrefix(xs[1..], ys[1..], s, t); }
      SameParts(xs, ys);
    }
  }

  lemma SameParts(xs: seq<Canon>, ys: seq<Canon>)
    requires xs != [] && ys != [] && xs[0] == ys[0] && (|xs| == 1 <==> |ys| == 1)
    requires |xs| > 1 ==> xs[1..] == ys[1..]
    ensures xs == ys
  {
    assert |xs| == 1 ==> xs == [xs[0]] && ys == [ys[0]];
    assert |xs| > 1 ==> xs == [xs[0]] + xs[1..] && ys == [ys[0]] + ys[1..];
  }

  lemma TailsAgree(xs: seq<Canon>, ys: seq<Canon>, s: string, t: string)
    requires xs != [] && ys != [] && AfterHead(xs, s) == AfterHead(ys, t)
    ensures |xs| == 1 <==> |ys| == 1
    ensures |xs| == 1 ==> s == t
    ensures |xs| > 1 ==> Items(xs[1..]) + "]" + s == Items(ys[1..]) + "]" + t
  {
    DropOne(xs, s);
    DropOne(ys, t);
  }

  /** Only the empty list's items are followed at once by the closing bracket. */
  lemma ItemsHead(xs: seq<Canon>, s: string)
    requires AllWellformed(xs)
    ensures (Items(xs) + "]" + s)[0] == ']' <==> xs == []
    ensures xs == [] ==> Items(xs) + "]" + s == [']'] + s
  {
    if xs == [] {
      assert Items(xs) + "]" + s == [']'] + s;
    } else {
      Head(xs[0]);
      ItemsSplit(xs, s);
      assert (Json(xs[0]) + AfterHead(xs, s))[0] == Json(xs[0])[0];
    }
  }

  /** What follows the first item in a list's text. */
  function AfterHead(xs: seq<Canon>, s: string): (r: string)
    requires xs != []
    ensures r != [] && Delimited(r)
    ensures r[0] == ']' <==> |xs| == 1
  {
    if |xs| == 1 then [']'] + s else [','] + ([' '] + (Items(xs[1..]) + "]" + s))
  }

  lemma ItemsSplit(xs: seq<Canon>, s: string)
    requires xs != []
    ensures Items(xs) + "]" + s == Json(xs[0]) + AfterHead(xs, s)
  {
    Regroup(Json(xs[0]), Items(xs[1..]), s);
  }

  lemma Regroup(a: string, b: string, s: string)
    ensures a + "]" + s == a + ([']'] + s)
    ensures a + ", " + b + "]" + s == a + ([','] + ([' '] + (b + "]" + s)))
  {
  }

  lemma DropOne(xs: seq<Canon>, s: string)
    requires xs != []
    ensures |xs| == 1 ==> AfterHead(xs, s)[1..] == s
    ensures |xs| > 1 ==> AfterHead(xs, s)[1..][1..] == Items(xs[1..]) + "]" + s
  {
  }

  /** The text used as sort key and hash input determines the canonical value. */
  lemma JsonInjective(a: Canon, b: Canon)
    requires Wellformed(a) && Wellformed(b)
    requires Json(a) == Json(b)
    ensures a == b
  {
    assert Json(a) + [] == Json(b) + [];
    JsonPrefix(a, b, [], []);
  }
}
