/** Splitting text at a separator character and joining it again. */
module PathText {
  function Split(s: string, sep: char): (parts: seq<string>)
    ensures |parts| >= 1
    ensures forall i :: 0 <= i < |parts| ==> sep !in parts[i]
  {
    if s == [] then [""]
    else
      var rest := Split(s[1..], sep);
      if s[0] == sep then [""] + rest else [[s[0]] + rest[0]] + rest[1..]
  }

  function Join(parts: seq<string>, sep: char): string {
    if parts == [] then ""
    else if |parts| == 1 then parts[0]
    else parts[0] + [sep] + Join(parts[1..], sep)
  }

  lemma {:induction false} JoinOfSplit(s: string, sep: char)
    ensures Join(Split(s, sep), sep) == s
  {
    if s != [] {
      var rest := Split(s[1..], sep);
      JoinOfSplit(s[1..], sep);
      if s[0] == sep {
        assert ([""] + rest)[1..] == rest;
        assert s == [s[0]] + s[1..];
      } else {
        var p := [[s[0]] + rest[0]] + rest[1..];
        assert p[1..] == rest[1..];
        assert Join(p, sep) == [s[0]] + Join(rest, sep);
      }
    }
  }

  lemma SplitInjective(s: string, t: string, sep: char)
    requires Split(s, sep) == Split(t, sep)
    ensures s == t
  {
    JoinOfSplit(s, sep);
    JoinOfSplit(t, sep);
  }

  /** Splitting a + sep + rest splits a and rest separately. */
  lemma {:induction false} SplitConcat(a: string, rest: string, sep: char)
    ensures Split(a + [sep] + rest, sep) == Split(a, sep) + Split(rest, sep)
  {
    if a == [] {
      assert a + [sep] + rest == [sep] + rest;
      assert ([sep] + rest)[1..] == rest;
    } else {
      var whole := a + [sep] + rest;
      assert whole[1..] == a[1..] + [sep] + rest;
      SplitConcat(a[1..], rest, sep);
    }
  }

  lemma {:induction false} SplitFree(a: string, sep: char)
    requires sep !in a
    ensures Split(a, sep) == [a]
  {
    if a != [] {
      SplitFree(a[1..], sep);
      assert a == [a[0]] + a[1..];
    }
  }

  /** Parts without the separator come back from the joined text. */
  lemma {:induction false} SplitOfJoin(parts: seq<string>, sep: char)
    requires parts != [] && forall i :: 0 <= i < |parts| ==> sep !in parts[i]
    ensures Split(Join(parts, sep), sep) == parts
  {
    SplitFree(parts[0], sep);
    if |parts| > 1 {
      SplitOfJoin(parts[1..], sep);
      SplitConcat(parts[0], Join(parts[1..], sep), sep);
      assert parts == [parts[0]] + parts[1..];
    }
  }

  /** How many pieces the joined text falls into, whatever the parts contain. */
  function Pieces(parts: seq<string>, sep: char): nat {
    if parts == [] then 0 else |Split(parts[0], sep)| + Pieces(parts[1..], sep)
  }

  lemma {:induction false} PiecesOfJoin(parts: seq<string>, sep: char)
    requires parts != []
    ensures |Split(Join(parts, sep), sep)| == Pieces(parts, sep) >= |parts|
    ensures Pieces(parts, sep) == |parts| ==> forall i :: 0 <= i < |parts| ==> sep !in parts[i]
  {
    if |Split(parts[0], sep)| == 1 {
      JoinOfSplit(parts[0], sep);
      assert Split(parts[0], sep)[0] == parts[0];
    }
    if |parts| > 1 {
      PiecesOfJoin(parts[1..], sep);
      SplitConcat(parts[0], Join(parts[1..], sep), sep);
      assert forall i :: 1 <= i < |parts| ==> parts[i] == parts[1..][i - 1];
    } else {
      assert Pieces(parts[1..], sep) == 0;
    }
  }

  /**
   Joining is injective against clean tuples: arbitrary parts that join to the same
   text as equally many separator-free parts are those parts.
   */
  lemma JoinInjectiveOnClean(clean: seq<string>, other: seq<string>, sep: char)
    requires |clean| == |other| > 0 && forall i :: 0 <= i < |clean| ==> sep !in clean[i]
    requires Join(clean, sep) == Join(other, sep)
    ensures clean == other
  {
    SplitOfJoin(clean, sep);
    PiecesOfJoin(other, sep);
    SplitOfJoin(other, sep);
  }
}
