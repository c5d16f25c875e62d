/** The comma lists of JOIN, PART and KICK. */
module Lists {
  import opened Strings

  /** split_join_cmd and split_channels: the pieces pushed, and what is left of the text. */
  datatype Cut = Cut(pieces: seq<string>, left: string)

  /** The loop: up to each comma, then the rest unless it is empty. */
  function CutLoop(s: string): Cut
    decreases |s|
  {
    var p := Find(s, ',');
    if p == |s| then Cut(if s == "" then [] else [s], s)
    else
      var rest := CutLoop(s[p + 1..]);
      Cut([s[..p]] + rest.pieces, rest.left)
  }

  /** What the loop yields when some pieces have been taken already. */
  function CutFrom(pieces: seq<string>, left: string): Cut
  {
    Cut(pieces + CutLoop(left).pieces, CutLoop(left).left)
  }

  lemma {:induction false} CutLoopStep(left: string)
    requires ',' in left
    ensures var p := Find(left, ',');
            CutLoop(left) == Cut([left[..p]] + CutLoop(left[p + 1..]).pieces, CutLoop(left[p + 1..]).left)
  {}

  lemma {:induction false} CutFromStep(pieces: seq<string>, left: string)
    requires ',' in left
    ensures var p := Find(left, ',');
            p < |left| && CutFrom(pieces, left) == CutFrom(pieces + [left[..p]], left[p + 1..])
  {
    var p := Find(left, ',');
    CutLoopStep(left);
    Assoc(pieces, [left[..p]], CutLoop(left[p + 1..]).pieces);
  }

  lemma {:induction false} CutFromStart(s: string)
    ensures CutFrom([], s) == CutLoop(s)
  {
    EmptyPrefix(CutLoop(s).pieces);
  }

  lemma CutFromEnd(pieces: seq<string>, left: string)
    requires ',' !in left
    ensures CutFrom(pieces, left) == Cut(if left == "" then pieces else pieces + [left], left)
  {
    assert Find(left, ',') == |left|;
  }

  function CutList(s: string): Cut
  {
    if ',' !in s then Cut([s], s) else CutLoop(s)
  }

  /** The channels of a JOIN or PART: an empty rest adds an empty name. */
  function ChannelList(s: string): seq<string>
  {
    var cut := CutList(s);
    if cut.left == "" then cut.pieces + [""] else cut.pieces
  }

  function KeyList(s: string): seq<string>
  {
    CutList(s).pieces
  }

  lemma {:induction false} CutLoopIsSplit(s: string)
    ensures var cut := CutLoop(s);
            var all := Split(s, ',');
            && cut.left == all[|all| - 1]
            && cut.pieces == if cut.left == "" then all[..|all| - 1] else all
    decreases |s|
  {
    var p := Find(s, ',');
    if p < |s| {
      CutLoopIsSplit(s[p + 1..]);
      var all, rest := Split(s, ','), Split(s[p + 1..], ',');
      assert all == [s[..p]] + rest;
      assert all[..|all| - 1] == [s[..p]] + rest[..|rest| - 1];
    } else {
      assert Split(s, ',') == [s];
    }
  }

  lemma EmptyList()
    ensures ChannelList("") == ["", ""] && Join(["", ""], ",") != ""
  {
    assert [""] + [""] == ["", ""] && ["", ""][1..] == [""];
  }

  lemma {:induction false} NonEmptyList(s: string)
    requires s != ""
    ensures ChannelList(s) == Split(s, ',')
  {
    if ',' in s {
      CutLoopIsSplit(s);
      LastBack(Split(s, ','));
    } else {
      assert Find(s, ',') == |s|;
    }
  }

  /** The channel list is the split at commas, so joining it gives the parameter back; only the
      empty parameter is read as two empty names. */
  lemma {:induction false} ChannelListExact(s: string)
    ensures s != "" ==> ChannelList(s) == Split(s, ',')
    ensures s == "" ==> ChannelList(s) == ["", ""]
    ensures Join(ChannelList(s), ",") == s <==> s != ""
  {
    if s == "" {
      EmptyList();
    } else {
      NonEmptyList(s);
      JoinOfSplit(s, ',');
    }
  }

  /** A list of names without commas is read back as it was joined. */
  lemma {:induction false} ChannelListOfJoin(names: seq<string>)
    requires names != [] && forall n :: n in names ==> ',' !in n && n != ""
    ensures Join(names, ",") != "" && ChannelList(Join(names, ",")) == names
  {
    assert names[0] in names;
    SplitOfJoin(names, ',');
    ChannelListExact(Join(names, ","));
  }

  /** Position of ", " in a text; |s| when there is none. */
  function FindCommaSpace(s: string): (i: nat)
    ensures i <= |s|
    ensures i < |s| ==> i + 1 < |s| && s[i] == ',' && s[i + 1] == ' '
  {
    if |s| < 2 then |s|
    else if s[0] == ',' && s[1] == ' ' then 0
    else 1 + FindCommaSpace(s[1..])
  }

  /** return_kick_target: names separated by comma and space; a comma alone separates nothing. */
  function KickTargets(s: string): seq<string>
    decreases |s|
  {
    var p := FindCommaSpace(s);
    if p == |s| then [s] else [s[..p]] + KickTargets(s[p + 2..])
  }

  lemma {:induction false} CommaSpaceAfter(a: string, b: string)
    requires ',' !in a
    ensures FindCommaSpace(a + ", " + b) == |a|
  {
    var s := a + ", " + b;
    if a == "" {
      assert s == ", " + b;
    } else {
      assert s[1..] == a[1..] + ", " + b && a[0] in a;
      CommaSpaceAfter(a[1..], b);
    }
  }

  lemma {:induction false} NoCommaSpace(s: string)
    requires ',' !in s
    ensures FindCommaSpace(s) == |s|
  {
    if |s| >= 2 {
      assert s[0] in s;
      NoCommaSpace(s[1..]);
    }
  }

  /** Nicknames without commas are read back as they were joined. */
  lemma {:induction false} KickTargetsOfJoin(nicks: seq<string>)
    requires nicks != [] && forall n :: n in nicks ==> ',' !in n
    ensures KickTargets(Join(nicks, ", ")) == nicks
  {
    assert nicks[0] in nicks;
    if |nicks| == 1 {
      NoCommaSpace(nicks[0]);
    } else {
      var rest := Join(nicks[1..], ", ");
      KickTargetsOfJoin(nicks[1..]);
      CommaSpaceAfter(nicks[0], rest);
      var s := nicks[0] + ", " + rest;
      assert s[..|nicks[0]|] == nicks[0] && s[|nicks[0]| + 2..] == rest;
    }
  }

  lemma {:induction false} KickTargetsJoin(s: string)
    ensures KickTargets(s) != [] && Join(KickTargets(s), ", ") == s
    decreases |s|
  {
    var p := FindCommaSpace(s);
    if p < |s| {
      KickTargetsJoin(s[p + 2..]);
      assert KickTargets(s)[1..] == KickTargets(s[p + 2..]);
      assert s == s[..p] + ", " + s[p + 2..];
    }
  }
}
