/** The printed mode changes are themselves a request: parsing gives back what was printed. */
module ModeReplay {
  import opened Strings
  import opened Channels
  import opened Decimal
  import opened ModeSpec

  // ---- picked flags ----

  function One(m: StatusMap, s: Status, flag: char): string
  {
    if Get(m, flag) == s then [flag] else ""
  }

  lemma {:induction false} PickedStep(m: StatusMap, s: Status, flag: char, rest: string)
    ensures Picked(m, s, [flag] + rest) == One(m, s, flag) + Picked(m, s, rest)
  {
    assert ([flag] + rest)[1..] == rest;
  }

  lemma {:induction false} PickedForm(m: StatusMap, s: Status)
    ensures Picked(m, s, FLAGS)
         == One(m, s, 'i') + (One(m, s, 'k') + (One(m, s, 'l') + (One(m, s, 'o') + (One(m, s, 't') + ""))))
  {
    PickedStep(m, s, 'i', "klot");
    PickedStep(m, s, 'k', "lot");
    PickedStep(m, s, 'l', "ot");
    PickedStep(m, s, 'o', "t");
    PickedStep(m, s, 't', "");
    assert FLAGS == ['i'] + "klot" && "klot" == ['k'] + "lot" && "lot" == ['l'] + "ot" && "ot" == ['o'] + "t";
    assert "t" == ['t'] + "";
  }

  lemma {:induction false} PickedMembers(m: StatusMap, s: Status, flags: string, c: char)
    ensures c in Picked(m, s, flags) <==> c in flags && Get(m, c) == s
  {
    if flags != "" {
      assert c in flags <==> c == flags[0] || c in flags[1..];
      PickedMembers(m, s, flags[1..], c);
    }
  }

  lemma {:induction false} TakingConcat(sign: char, a: string, b: string)
    ensures Taking(sign, a + b) == Taking(sign, a) + Taking(sign, b)
  {
    if a == "" {
      assert a + b == b;
    } else {
      assert (a + b)[1..] == a[1..] + b;
      TakingConcat(sign, a[1..], b);
    }
  }

  lemma {:induction false} TakingOne(sign: char, m: StatusMap, s: Status, flag: char)
    ensures Taking(sign, One(m, s, flag)) == if TakesParam(sign, flag) then One(m, s, flag) else ""
  {
    assert [flag][1..] == "";
  }

  lemma {:induction false} TakingStep(sign: char, m: StatusMap, s: Status, flag: char, rest: string)
    ensures Taking(sign, One(m, s, flag) + rest)
         == (if TakesParam(sign, flag) then One(m, s, flag) else "") + Taking(sign, rest)
  {
    TakingConcat(sign, One(m, s, flag), rest);
    TakingOne(sign, m, s, flag);
  }

  lemma Empties(k: string, l: string, o: string)
    ensures "" + (k + (l + (o + ("" + "")))) == k + (l + o)
  {}

  lemma {:induction false} TakingForm(sign: char, m: StatusMap, s: Status)
    requires IsSign(sign)
    ensures Taking(sign, Picked(m, s, FLAGS))
         == One(m, s, 'k') + ((if sign == '+' then One(m, s, 'l') else "") + One(m, s, 'o'))
  {
    PickedForm(m, s);
    var t := One(m, s, 't') + "";
    var o := One(m, s, 'o') + t;
    var l := One(m, s, 'l') + o;
    var k := One(m, s, 'k') + l;
    TakingStep(sign, m, s, 'i', k);
    TakingStep(sign, m, s, 'k', l);
    TakingStep(sign, m, s, 'l', o);
    TakingStep(sign, m, s, 'o', t);
    TakingStep(sign, m, s, 't', "");
    Empties(One(m, s, 'k'), if sign == '+' then One(m, s, 'l') else "", One(m, s, 'o'));
  }

  /** The flags whose parameter is printed, in printing order. */
  function Takers(m: StatusMap): string
  {
    Taking('+', Picked(m, Add, FLAGS)) + Taking('-', Picked(m, Remove, FLAGS))
  }

  lemma TakersText(m: StatusMap)
    ensures Takers(m) == (One(m, Add, 'k') + (One(m, Add, 'l') + One(m, Add, 'o')))
                         + (One(m, Remove, 'k') + One(m, Remove, 'o'))
  {
    TakingForm('+', m, Add);
    TakingForm('-', m, Remove);
    EmptyPrefix(One(m, Remove, 'o'));
  }

  /** At most three flags take a parameter, each once. */
  lemma TakersForm(m: StatusMap)
    ensures |Takers(m)| <= 3 && Distinct(Takers(m))
  {
    TakersText(m);
  }

  lemma TakersMembers(m: StatusMap, c: char)
    ensures c in Takers(m) <==> (c in "klo" && Get(m, c) == Add) || (c in "ko" && Get(m, c) == Remove)
  {
    TakersText(m);
  }

  // ---- filling in a printed modestring ----

  function FillEach(flags: string, sign: char, r: Request): Request
  {
    if flags == "" then r else FillEach(flags[1..], sign, FillOne(r, sign, flags[0]))
  }

  lemma {:induction false} FillFlags(flags: string, rest: string, sign: char, r: Request)
    requires forall c :: c in flags ==> !IsSign(c)
    ensures Fill(flags + rest, sign, r) == Fill(rest, sign, FillEach(flags, sign, r))
  {
    if flags == "" {
      assert flags + rest == rest;
    } else {
      assert (flags + rest)[1..] == flags[1..] + rest;
      FillFlags(flags[1..], rest, sign, FillOne(r, sign, flags[0]));
    }
  }

  lemma {:induction false} FillEachStatus(flags: string, sign: char, r: Request, c: char)
    requires forall f :: f in flags ==> IsFlag(f)
    ensures Get(FillEach(flags, sign, r).status, c) == if c in flags then StatusOf(sign) else Get(r.status, c)
    ensures FillEach(flags, sign, r).tokens == r.tokens
    ensures FillEach(flags, sign, r).status.Keys == r.status.Keys + (set f | f in flags)
  {
    if flags != "" {
      assert flags == [flags[0]] + flags[1..];
      FillEachStatus(flags[1..], sign, FillOne(r, sign, flags[0]), c);
    }
  }

  lemma {:induction false} FillEachBound(flags: string, sign: char, r: Request)
    requires Distinct(r.bound + Taking(sign, flags))
    ensures FillEach(flags, sign, r).bound == r.bound + Taking(sign, flags)
  {
    if flags == "" {
      assert r.bound + "" == r.bound;
    } else {
      var next := FillOne(r, sign, flags[0]);
      var all := r.bound + Taking(sign, flags);
      if TakesParam(sign, flags[0]) {
        assert all[|r.bound|] == flags[0];
        assert forall i :: 0 <= i < |r.bound| ==> all[i] == r.bound[i];
        assert next.bound == r.bound + [flags[0]];
        Assoc(r.bound, [flags[0]], Taking(sign, flags[1..]));
      } else {
        assert Taking(sign, flags) == Taking(sign, flags[1..]);
      }
      FillEachBound(flags[1..], sign, next);
    }
  }

  lemma {:induction false} FillSigned(sign: char, flags: string, rest: string, before: char, r: Request)
    requires IsSign(sign) && forall c :: c in flags ==> IsFlag(c)
    requires rest == "" || IsSign(rest[0])
    ensures Fill(Signed(sign, flags) + rest, before, r) == Fill(rest, before, FillEach(flags, sign, r))
  {
    assert forall c :: IsFlag(c) ==> !IsSign(c);
    if flags == "" {
      EmptyPrefix(rest);
    } else {
      var text := Signed(sign, flags) + rest;
      assert text[1..] == flags + rest;
      FillFlags(flags, rest, sign, r);
    }
  }

  /** Filling in the printed flags: exactly the printed statuses, and the takers bound in order. */
  lemma {:induction false} FillPrinted(m: StatusMap, r0: Request)
    requires r0.status == RESET && r0.bound == [] && m.Keys == RESET.Keys
    ensures var r := Fill(Signed('+', Picked(m, Add, FLAGS)) + Signed('-', Picked(m, Remove, FLAGS)), '+', r0);
            r.status == m && r.bound == Takers(m) && r.tokens == r0.tokens
  {
    var plus, minus := Picked(m, Add, FLAGS), Picked(m, Remove, FLAGS);
    forall c ensures c in plus ==> IsFlag(c)
             ensures c in minus ==> IsFlag(c) {
      PickedMembers(m, Add, FLAGS, c);
      PickedMembers(m, Remove, FLAGS, c);
    }
    EmptySuffix(Signed('-', minus));
    FillSigned('+', plus, Signed('-', minus), '+', r0);
    var r1 := FillEach(plus, '+', r0);
    FillSigned('-', minus, "", '+', r1);
    var r2 := FillEach(minus, '-', r1);
    TakersForm(m);
    TakersDistinct(m);
    FillEachBound(plus, '+', r0);
    FillEachBound(minus, '-', r1);
    FillEachKeys(plus, minus, r0);
    forall c | c in RESET ensures Get(r2.status, c) == m[c] {
      FillEachStatus(plus, '+', r0, c);
      FillEachStatus(minus, '-', r1, c);
      PickedMembers(m, Add, FLAGS, c);
      PickedMembers(m, Remove, FLAGS, c);
    }
    assert r2.status == m;
    FillEachStatus(plus, '+', r0, 'i');
    FillEachStatus(minus, '-', r1, 'i');
  }

  lemma {:induction false} TakersDistinct(m: StatusMap)
    ensures Distinct([] + Taking('+', Picked(m, Add, FLAGS)))
    ensures [] + Taking('+', Picked(m, Add, FLAGS)) == Taking('+', Picked(m, Add, FLAGS))
  {
    TakersForm(m);
    var plus := Taking('+', Picked(m, Add, FLAGS));
    assert Takers(m)[..|plus|] == plus;
  }

  lemma {:induction false} FillEachKeys(plus: string, minus: string, r0: Request)
    requires r0.status == RESET
    requires (forall f :: f in plus ==> IsFlag(f)) && (forall f :: f in minus ==> IsFlag(f))
    ensures FillEach(minus, '-', FillEach(plus, '+', r0)).status.Keys == RESET.Keys
  {
    FillEachStatus(plus, '+', r0, 'i');
    FillEachStatus(minus, '-', FillEach(plus, '+', r0), 'i');
    assert forall f :: IsFlag(f) ==> f in RESET.Keys;
  }

  // ---- the parameters of a printed request ----

  function Params(flags: string, r: Request): (ps: seq<string>)
    ensures |ps| == |flags|
  {
    if flags == "" then [] else [Param(r, flags[0])] + Params(flags[1..], r)
  }

  lemma {:induction false} ParamsAt(flags: string, r: Request, i: nat)
    requires i < |flags|
    ensures Params(flags, r)[i] == Param(r, flags[i])
  {
    if i > 0 {
      ParamsAt(flags[1..], r, i - 1);
    }
  }

  lemma {:induction false} SuffixConcat(a: string, b: string, r: Request)
    ensures Suffix(a + b, r) == Suffix(a, r) + Suffix(b, r)
  {
    if a == "" {
      assert a + b == b;
      EmptyPrefix(Suffix(b, r));
    } else {
      assert (a + b)[1..] == a[1..] + b;
      SuffixConcat(a[1..], b, r);
      Assoc(" " + Param(r, a[0]), Suffix(a[1..], r), Suffix(b, r));
    }
  }

  lemma {:induction false} SuffixJoins(flags: string, r: Request)
    requires flags != ""
    ensures Suffix(flags, r) == " " + Join(Params(flags, r), " ")
  {
    var ps := Params(flags, r);
    if |flags| == 1 {
      assert flags[1..] == "";
      EmptySuffix(" " + ps[0]);
    } else {
      SuffixJoins(flags[1..], r);
      assert ps[1..] == Params(flags[1..], r);
      Assoc(" " + ps[0], " ", Join(ps[1..], " "));
      Assoc(" ", ps[0], " " + Join(ps[1..], " "));
      Assoc(ps[0], " ", Join(ps[1..], " "));
    }
  }

  lemma {:induction false} TokensFirst(token: string, rest: string, i: nat)
    requires i < 2 && ' ' !in token
    ensures Tokens(token + " " + rest, i) == [token] + Tokens(rest, i + 1)
    ensures TooMany(token + " " + rest, i) == TooMany(rest, i + 1)
  {
    FindAfter(token, ' ', rest);
    assert (token + " " + rest)[|token|] == ' ';
  }

  /** Up to three space-free tokens, the last not empty, are read back as they were joined. */
  lemma {:induction false} TokensOfJoin(ps: seq<string>, i: nat)
    requires 1 <= |ps| <= 3 - i
    requires forall p :: p in ps ==> ' ' !in p && p != ""
    ensures Tokens(Join(ps, " "), i) == ps && !TooMany(Join(ps, " "), i)
    decreases |ps|
  {
    assert ps[0] in ps;
    if |ps| == 1 {
      assert Find(ps[0], ' ') == |ps[0]|;
      assert ps == [ps[0]];
    } else {
      forall p | p in ps[1..] ensures p in ps {}
      TokensOfJoin(ps[1..], i + 1);
      TokensFirst(ps[0], Join(ps[1..], " "), i);
      assert ps == [ps[0]] + ps[1..];
    }
  }

  /** The sign and flag part of what is printed. */
  function Head(m: StatusMap): string
  {
    Signed('+', Picked(m, Add, FLAGS)) + Signed('-', Picked(m, Remove, FLAGS))
  }

  lemma HeadHasNoBlank(m: StatusMap)
    ensures forall c :: c in Head(m) ==> c !in BLANKS
  {
    forall c | c in Head(m) ensures c !in BLANKS {
      PickedMembers(m, Add, FLAGS, c);
      PickedMembers(m, Remove, FLAGS, c);
      assert IsSign(c) || c in Picked(m, Add, FLAGS) || c in Picked(m, Remove, FLAGS);
    }
  }

  lemma {:induction false} PrintForm(m: StatusMap, r: Request)
    ensures Print(m, r) == Head(m) + Suffix(Takers(m), r)
  {
    SuffixConcat(Taking('+', Picked(m, Add, FLAGS)), Taking('-', Picked(m, Remove, FLAGS)), r);
  }

  /** Every printed parameter is a token: not empty and free of spaces. */
  ghost predicate Printable(m: StatusMap, r: Request) {
    && m.Keys == RESET.Keys
    && forall f :: f in Takers(m) ==> Param(r, f) != "" && ' ' !in Param(r, f)
  }

  lemma CutAtBlank(head: string, rest: string)
    requires forall c :: c in head ==> c !in BLANKS
    ensures ModeString(head + (" " + rest)) == head && Parameters(head + (" " + rest)) == rest
    ensures ModeString(head) == head && Parameters(head) == ""
  {
    var text := head + (" " + rest);
    FindInAfter(head, " " + rest, BLANKS);
    FindInAfter(head, "", BLANKS);
    EmptySuffix(head);
    assert text[..|head|] == head && text[|head| + 1..] == rest;
  }

  lemma {:induction false} ParamsPrintable(m: StatusMap, r: Request)
    requires Printable(m, r)
    ensures forall p :: p in Params(Takers(m), r) ==> ' ' !in p && p != ""
  {
    var ps := Params(Takers(m), r);
    forall p | p in ps ensures ' ' !in p && p != "" {
      var i :| 0 <= i < |ps| && ps[i] == p;
      ParamsAt(Takers(m), r, i);
      assert Takers(m)[i] in Takers(m);
    }
  }

  lemma {:induction false} SplitPrinted(m: StatusMap, r: Request)
    requires Printable(m, r)
    ensures ModeString(Print(m, r)) == Head(m)
    ensures Tokens(Parameters(Print(m, r)), 0) == Params(Takers(m), r)
    ensures !TooMany(Parameters(Print(m, r)), 0)
  {
    var takers := Takers(m);
    var ps := Params(takers, r);
    PrintForm(m, r);
    HeadHasNoBlank(m);
    TakersForm(m);
    CutAtBlank(Head(m), Join(ps, " "));
    if takers == "" {
      EmptySuffix(Head(m));
    } else {
      SuffixJoins(takers, r);
      ParamsPrintable(m, r);
      TokensOfJoin(ps, 0);
    }
  }

  lemma {:induction false} IndexOfDistinct(bound: seq<char>, i: nat)
    requires i < |bound| && Distinct(bound)
    ensures IndexOf(bound, bound[i]) == i
  {
    if i > 0 {
      assert bound[0] != bound[i] && bound[1..][i - 1] == bound[i];
      assert Distinct(bound[1..]);
      IndexOfDistinct(bound[1..], i - 1);
    }
  }

  lemma {:induction false} ParamOfPrinted(m: StatusMap, r: Request, f: char)
    requires f in Takers(m)
    ensures Param(Request(m, Takers(m), Params(Takers(m), r)), f) == Param(r, f)
  {
    var takers := Takers(m);
    var i :| 0 <= i < |takers| && takers[i] == f;
    TakersForm(m);
    IndexOfDistinct(takers, i);
    ParamsAt(takers, r, i);
  }

  /** Round trip of the printer: parsing what was printed gives the printed statuses, their
      parameters, and no complaint. */
  lemma {:induction false} ParseOfPrint(m: StatusMap, r: Request)
    requires Printable(m, r)
    ensures Parse(Print(m, r)) == Request(m, Takers(m), Params(Takers(m), r))
    ensures !TooMany(Parameters(Print(m, r)), 0) && Unknown(ModeString(Print(m, r))) == 0
  {
    SplitPrinted(m, r);
    FillPrinted(m, Request(RESET, [], Params(Takers(m), r)));
    forall c | c in Head(m) ensures IsSign(c) || IsFlag(c) {
      PickedMembers(m, Add, FLAGS, c);
      PickedMembers(m, Remove, FLAGS, c);
      assert IsSign(c) || c in Picked(m, Add, FLAGS) || c in Picked(m, Remove, FLAGS);
    }
    AllKnown(Head(m));
  }

  lemma {:induction false} AllKnown(modes: string)
    requires forall c :: c in modes ==> IsSign(c) || IsFlag(c)
    ensures Unknown(modes) == 0
  {
    if modes != "" {
      assert modes[0] in modes;
      AllKnown(modes[1..]);
    }
  }

  lemma {:induction false} SuffixSame(flags: string, r: Request, s: Request)
    requires forall f :: f in flags ==> Param(r, f) == Param(s, f)
    ensures Suffix(flags, r) == Suffix(flags, s)
  {
    if flags != "" {
      assert flags[0] in flags;
      SuffixSame(flags[1..], r, s);
    }
  }

  lemma PrintOfParse(m: StatusMap, r: Request)
    requires Printable(m, r)
    ensures Print(m, Parse(Print(m, r))) == Print(m, r)
  {
    var s := Parse(Print(m, r));
    ParseOfPrint(m, r);
    forall f | f in Takers(m) ensures Param(r, f) == Param(s, f) {
      ParamOfPrinted(m, r, f);
    }
    SuffixSame(Takers(m), r, s);
    PrintForm(m, r);
    PrintForm(m, s);
  }
}
