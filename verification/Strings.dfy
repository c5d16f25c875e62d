/** The few std::string operations the server is written with, and their laws. */
module Strings {

  const BLANKS: set<char> := {' ', '\t'}

  ghost predicate Distinct<T>(s: seq<T>) {
    forall i, j :: 0 <= i < j < |s| ==> s[i] != s[j]
  }

  /** Index of the first character of s that lies in cs; |s| stands for npos. */
  function FindIn(s: string, cs: set<char>): (i: nat)
    ensures i <= |s|
    ensures forall j :: 0 <= j < i ==> s[j] !in cs
    ensures i < |s| ==> s[i] in cs
  {
    if s == "" || s[0] in cs then 0 else 1 + FindIn(s[1..], cs)
  }

  /** FindIn stops where a piece free of the characters ends. */
  lemma {:induction false} FindInAfter(a: string, b: string, cs: set<char>)
    requires (forall c :: c in a ==> c !in cs) && (b == "" || b[0] in cs)
    ensures FindIn(a + b, cs) == |a|
  {
    if a == "" {
      assert a + b == b;
    } else {
      assert (a + b)[1..] == a[1..] + b;
      assert a[0] in a;
      FindInAfter(a[1..], b, cs);
    }
  }

  /** Index of the first occurrence of c in s; |s| stands for npos. */
  function Find(s: string, c: char): (i: nat)
    ensures i <= |s|
    ensures i < |s| <==> c in s
    ensures i < |s| ==> s[i] == c
  {
    if s == "" || s[0] == c then 0
    else
      assert s == [s[0]] + s[1..];
      1 + Find(s[1..], c)
  }

  lemma {:induction false} FindFirst(s: string, c: char)
    ensures c !in s[..Find(s, c)]
  {
    if s != "" && s[0] != c {
      FindFirst(s[1..], c);
      var i := Find(s[1..], c);
      assert s[..1 + i] == [s[0]] + s[1..][..i];
    }
  }

  /** A text is cut at the first occurrence. */
  lemma {:induction false} FindCut(s: string, c: char)
    requires c in s
    ensures var p := Find(s, c); c !in s[..p] && s == s[..p] + [c] + s[p + 1..]
  {
    FindFirst(s, c);
  }

  /** Find within a text that starts with a piece free of c. */
  lemma {:induction false} FindSkips(a: string, b: string, c: char)
    requires c !in a
    ensures Find(a + b, c) == |a| + Find(b, c)
  {
    if a == "" {
      assert a + b == b;
    } else {
      assert (a + b)[1..] == a[1..] + b;
      assert a[0] in a;
      FindSkips(a[1..], b, c);
    }
  }

  /** The first occurrence is where the text before it stops being free of c. */
  lemma {:induction false} FindAfter(a: string, c: char, b: string)
    requires c !in a
    ensures Find(a + [c] + b, c) == |a|
    ensures (a + [c] + b)[..|a|] == a && (a + [c] + b)[|a| + 1..] == b
  {
    FindSkips(a, [c] + b, c);
    assert a + [c] + b == a + ([c] + b);
  }

  lemma Assoc<T>(a: seq<T>, b: seq<T>, c: seq<T>)
    ensures (a + b) + c == a + (b + c)
  {}

  lemma EmptyPrefix<T>(s: seq<T>)
    ensures [] + s == s
  {}

  lemma EmptySuffix<T>(s: seq<T>)
    ensures s + [] == s
  {}

  lemma LastBack<T>(s: seq<T>)
    requires s != []
    ensures s[..|s| - 1] + [s[|s| - 1]] == s
  {}

  /** The pieces of s between separators: always one more piece than separators. */
  function Split(s: string, sep: char): (pieces: seq<string>)
    ensures |pieces| >= 1
    ensures forall p :: p in pieces ==> sep !in p
    decreases |s|
  {
    var i := Find(s, sep);
    if i == |s| then [s]
    else
      FindFirst(s, sep);
      [s[..i]] + Split(s[i + 1..], sep)
  }

  function Join(pieces: seq<string>, sep: string): string
  {
    if pieces == [] then ""
    else if |pieces| == 1 then pieces[0]
    else pieces[0] + sep + Join(pieces[1..], sep)
  }

  lemma {:induction false} JoinOfSplit(s: string, sep: char)
    ensures Join(Split(s, sep), [sep]) == s
    decreases |s|
  {
    var i := Find(s, sep);
    if i < |s| {
      JoinOfSplit(s[i + 1..], sep);
      assert Split(s, sep)[1..] == Split(s[i + 1..], sep);
      FindCut(s, sep);
    }
  }

  lemma {:induction false} SplitOfJoin(pieces: seq<string>, sep: char)
    requires pieces != []
    requires forall p :: p in pieces ==> sep !in p
    ensures Split(Join(pieces, [sep]), sep) == pieces
  {
    var s := Join(pieces, [sep]);
    assert pieces[0] in pieces;
    if |pieces| == 1 {
      assert Find(s, sep) == |s|;
      assert pieces == [pieces[0]];
    } else {
      forall p | p in pieces[1..] ensures sep !in p {
        assert p in pieces;
      }
      SplitOfJoin(pieces[1..], sep);
      FindAfter(pieces[0], sep, Join(pieces[1..], [sep]));
      assert pieces == [pieces[0]] + pieces[1..];
    }
  }

  /** One more piece goes behind a separator. */
  lemma {:induction false} JoinOneMore(pieces: seq<string>, piece: string, sep: string)
    ensures Join(pieces + [piece], sep) == if pieces == [] then piece else Join(pieces, sep) + sep + piece
  {
    if pieces == [] {
      assert pieces + [piece] == [piece];
    } else if |pieces| == 1 {
      assert (pieces + [piece])[1..] == [piece];
    } else {
      assert (pieces + [piece])[1..] == pieces[1..] + [piece];
      JoinOneMore(pieces[1..], piece, sep);
      var rest := Join(pieces[1..], sep);
      assert pieces[0] + sep + (rest + sep + piece) == pieces[0] + sep + rest + sep + piece;
    }
  }

  lemma {:induction false} JoinWithout(pieces: seq<string>, sep: string, c: char)
    requires c !in sep && forall p :: p in pieces ==> c !in p
    ensures c !in Join(pieces, sep)
  {
    if pieces != [] {
      assert pieces[0] in pieces;
      JoinWithout(pieces[1..], sep, c);
    }
  }
}
