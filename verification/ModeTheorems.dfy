/** What the MODE engine promises: replay, idempotence, exact announcement, report round trip. */
module ModeTheorems {
  import opened Strings
  import opened Channels
  import opened Decimal
  import opened ModeSpec
  import opened ModeReplay

  // ---- parameter binding ----

  /** The parameter-taking flags of a modestring, as often as they occur. */
  function Occurrences(modes: string, sign: char): string
  {
    if modes == "" then ""
    else if IsSign(modes[0]) then Occurrences(modes[1..], modes[0])
    else (if TakesParam(sign, modes[0]) then [modes[0]] else "") + Occurrences(modes[1..], sign)
  }

  function Without(s: string, c: char): string
  {
    if s == "" then "" else (if s[0] == c then "" else [s[0]]) + Without(s[1..], c)
  }

  /** Each character of s once, in order of first appearance. */
  function Firsts(s: string): string
    decreases |s|
  {
    if s == "" then ""
    else
      WithoutShrinks(s[1..], s[0]);
      [s[0]] + Firsts(Without(s[1..], s[0]))
  }

  lemma {:induction false} WithoutShrinks(s: string, c: char)
    ensures |Without(s, c)| <= |s|
  {
    if s != "" {
      WithoutShrinks(s[1..], c);
    }
  }

  lemma {:induction false} WithoutMembers(s: string, c: char, x: char)
    ensures x in Without(s, c) <==> x in s && x != c
  {
    if s != "" {
      assert x in s <==> x == s[0] || x in s[1..];
      WithoutMembers(s[1..], c, x);
    }
  }

  /** Binding a flag that is already bound changes nothing. */
  function BindAll(bound: seq<char>, flags: string): seq<char>
    decreases |flags|
  {
    if flags == "" then bound else BindAll(Bind(bound, flags[0]), flags[1..])
  }

  lemma {:induction false} FillBinds(modes: string, sign: char, r: Request)
    ensures Fill(modes, sign, r).bound == BindAll(r.bound, Occurrences(modes, sign))
    ensures Fill(modes, sign, r).tokens == r.tokens
  {
    if modes != "" {
      if IsSign(modes[0]) {
        FillBinds(modes[1..], modes[0], r);
      } else {
        FillBinds(modes[1..], sign, FillOne(r, sign, modes[0]));
        var rest := Occurrences(modes[1..], sign);
        if TakesParam(sign, modes[0]) {
          assert ([modes[0]] + rest)[1..] == rest;
        } else {
          EmptyPrefix(rest);
        }
      }
    }
  }

  lemma {:induction false} BindAllSkips(bound: seq<char>, flags: string, c: char)
    requires c in bound
    ensures BindAll(bound, flags) == BindAll(bound, Without(flags, c))
    decreases |flags|
  {
    if flags != "" {
      var next := Bind(bound, flags[0]);
      assert c in next;
      BindAllSkips(next, flags[1..], c);
      if flags[0] == c {
        EmptyPrefix(Without(flags[1..], c));
      } else {
        assert Without(flags, c)[1..] == Without(flags[1..], c);
      }
    }
  }

  lemma {:induction false} BindAllIsFirsts(bound: seq<char>, flags: string)
    requires forall c :: c in flags ==> c !in bound
    ensures BindAll(bound, flags) == bound + Firsts(flags)
    decreases |flags|
  {
    if flags == "" {
      assert bound + "" == bound;
    } else {
      var c := flags[0];
      var rest := Without(flags[1..], c);
      assert c in flags;
      WithoutShrinks(flags[1..], c);
      BindAllSkips(bound + [c], flags[1..], c);
      forall x | x in rest ensures x !in bound + [c] {
        WithoutMembers(flags[1..], c, x);
      }
      BindAllIsFirsts(bound + [c], rest);
      Assoc(bound, [c], Firsts(rest));
    }
  }

  lemma {:induction false} FirstsDistinct(s: string)
    ensures Distinct(Firsts(s)) && forall c :: c in Firsts(s) <==> c in s
    decreases |s|
  {
    if s != "" {
      var rest := Without(s[1..], s[0]);
      WithoutShrinks(s[1..], s[0]);
      FirstsDistinct(rest);
      forall c ensures c in rest <==> c in s[1..] && c != s[0] {
        WithoutMembers(s[1..], s[0], c);
      }
      assert s == [s[0]] + s[1..];
      var all := Firsts(s);
      forall i, j | 0 <= i < j < |all| ensures all[i] != all[j] {
        assert all[j] == Firsts(rest)[j - 1] && Firsts(rest)[j - 1] in Firsts(rest);
        if i > 0 {
          assert all[i] == Firsts(rest)[i - 1];
        }
      }
    }
  }

  lemma {:induction false} OccurrencesTake(modes: string, sign: char)
    ensures forall c :: c in Occurrences(modes, sign) ==> c in "klo"
  {
    if modes != "" {
      OccurrencesTake(modes[1..], if IsSign(modes[0]) then modes[0] else sign);
    }
  }

  lemma ThreeSlots(s: string)
    requires Distinct(s) && forall c :: c in s ==> c in "klo"
    ensures |s| <= 3
  {
    var chars := set c | c in s;
    assert chars <= {'k', 'l', 'o'};
    SetCardinality(chars, {'k', 'l', 'o'});
    DistinctCount(s);
  }

  lemma SetCardinality(a: set<char>, b: set<char>)
    requires a <= b
    ensures |a| <= |b|
  {
    assert b == a + (b - a);
  }

  lemma {:induction false} DistinctCount(s: string)
    requires Distinct(s)
    ensures |s| == |set c | c in s|
  {
    if s != "" {
      var rest := s[1..];
      assert s == [s[0]] + rest;
      assert Distinct(rest);
      DistinctCount(rest);
      assert (set c | c in s) == {s[0]} + (set c | c in rest);
    }
  }

  /** Parameter binding: the slots in use carry the parameter-taking flags once each, in order of
      first appearance; three always suffice; and the j-th of them reads the j-th token. */
  lemma BindingInOrder(request: string)
    ensures var r := Parse(request);
            && r.bound == Firsts(Occurrences(ModeString(request), '+'))
            && Distinct(r.bound) && |r.bound| <= 3
            && r.tokens == Tokens(Parameters(request), 0)
            && forall j :: 0 <= j < |r.bound| ==>
                 Param(r, r.bound[j]) == if j < |r.tokens| then r.tokens[j] else ""
  {
    var modes := ModeString(request);
    var r := Parse(request);
    var all := Occurrences(modes, '+');
    FillBinds(modes, '+', Request(RESET, [], Tokens(Parameters(request), 0)));
    BindAllIsFirsts([], all);
    EmptyPrefix(Firsts(all));
    FirstsDistinct(all);
    OccurrencesTake(modes, '+');
    ThreeSlots(r.bound);
    BoundParams(r);
  }

  lemma BoundParams(r: Request)
    requires Distinct(r.bound)
    ensures forall j :: 0 <= j < |r.bound| ==> Param(r, r.bound[j]) == if j < |r.tokens| then r.tokens[j] else ""
  {
    forall j | 0 <= j < |r.bound|
      ensures Param(r, r.bound[j]) == if j < |r.tokens| then r.tokens[j] else ""
    {
      IndexOfDistinct(r.bound, j);
    }
  }

  lemma {:induction false} TokensSpaceFree(s: string, i: nat)
    requires i < 3
    ensures |Tokens(s, i)| <= 3 - i
    ensures forall t :: t in Tokens(s, i) ==> ' ' !in t
    decreases 3 - i
  {
    var p := Find(s, ' ');
    FindFirst(s, ' ');
    if p == |s| {
      assert s[..p] == s;
    } else if i < 2 {
      TokensSpaceFree(s[p + 1..], i + 1);
    }
  }

  lemma ParamSpaceFree(request: string, f: char)
    ensures ' ' !in Param(Parse(request), f)
  {
    var r := Parse(request);
    FillBinds(ModeString(request), '+', Request(RESET, [], Tokens(Parameters(request), 0)));
    TokensSpaceFree(Parameters(request), 0);
    var i := IndexOf(r.bound, f);
    if i < |r.bound| && i < |r.tokens| {
      assert r.tokens[i] in r.tokens;
    }
  }

  // ---- what a modestring asks for ----

  /** The status asked for a flag is that of the sign before its last occurrence. */
  lemma {:induction false} LastSignCounts(a: string, sign: char, b: string, flag: char, c: string, first: char,
                                          r: Request)
    requires IsSign(sign) && IsFlag(flag) && (forall x :: x in b ==> !IsSign(x)) && flag !in c
    ensures Get(Fill(a + [sign] + b + [flag] + c, first, r).status, flag) == if sign == '+' then Add else Remove
    decreases |a| + |b|
  {
    var modes := a + [sign] + b + [flag] + c;
    if a != "" {
      assert modes[1..] == a[1..] + [sign] + b + [flag] + c;
      if IsSign(a[0]) {
        LastSignCounts(a[1..], sign, b, flag, c, a[0], r);
      } else {
        LastSignCounts(a[1..], sign, b, flag, c, first, FillOne(r, first, a[0]));
      }
    } else {
      assert modes[0] == sign && modes[1..] == b + [flag] + c;
      FlagUnder(b, flag, c, sign, r);
    }
  }

  lemma {:induction false} FlagUnder(b: string, flag: char, c: string, sign: char, r: Request)
    requires IsSign(sign) && IsFlag(flag) && (forall x :: x in b ==> !IsSign(x)) && flag !in c
    ensures Get(Fill(b + [flag] + c, sign, r).status, flag) == if sign == '+' then Add else Remove
  {
    var modes := b + [flag] + c;
    if b != "" {
      assert modes[1..] == b[1..] + [flag] + c && b[0] in b;
      FlagUnder(b[1..], flag, c, sign, FillOne(r, sign, b[0]));
    } else {
      assert modes[0] == flag && modes[1..] == c && !IsSign(flag);
      FlagAbsent(c, flag, sign, FillOne(r, sign, flag));
    }
  }

  /** A flag that does not occur is not asked for. */
  lemma {:induction false} FlagAbsent(modes: string, flag: char, sign: char, r: Request)
    requires flag !in modes
    ensures Get(Fill(modes, sign, r).status, flag) == Get(r.status, flag)
  {
    if modes != "" {
      assert flag !in modes[1..] && modes[0] != flag;
      if IsSign(modes[0]) {
        FlagAbsent(modes[1..], flag, modes[0], r);
      } else {
        FlagAbsent(modes[1..], flag, sign, FillOne(r, sign, modes[0]));
      }
    }
  }

  lemma {:induction false} UnknownConcat(a: string, b: string)
    ensures Unknown(a + b) == Unknown(a) + Unknown(b)
  {
    if a == "" {
      assert a + b == b;
    } else {
      assert (a + b)[1..] == a[1..] + b;
      UnknownConcat(a[1..], b);
    }
  }

  /** There is one complaint per character that is neither a sign nor one of the five flags. */
  lemma {:induction false} UnknownCounts(modes: string)
    ensures Unknown(modes) == |set i | 0 <= i < |modes| && modes[i] !in "+-iklot"|
  {
    if modes != "" {
      var n := |modes| - 1;
      var front, last := modes[..n], modes[n];
      var before := set i | 0 <= i < |front| && front[i] !in "+-iklot";
      var all := set i | 0 <= i < |modes| && modes[i] !in "+-iklot";
      LastBack(modes);
      UnknownConcat(front, [last]);
      UnknownCounts(front);
      assert [last][1..] == "";
      assert last !in "+-iklot" <==> !IsSign(last) && !IsFlag(last);
      assert all == before + if last !in "+-iklot" then {n} else {};
    }
  }

  /** A fourth token is one too many. */
  lemma {:induction false} TooManyExact(s: string, i: nat)
    requires i < 3
    ensures TooMany(s, i) <==> |Split(s, ' ')| + i >= 4
    decreases 3 - i
  {
    var p := Find(s, ' ');
    if p < |s| && i < 2 {
      TooManyExact(s[p + 1..], i + 1);
    }
  }

  /** A text cut at spaces, without the empty piece behind a last space. */
  function Words(s: string): seq<string>
  {
    var all := Split(s, ' ');
    if all[|all| - 1] == "" then all[..|all| - 1] else all
  }

  lemma {:induction false} WordsStep(s: string)
    requires ' ' in s
    ensures Words(s) == [s[..Find(s, ' ')]] + Words(s[Find(s, ' ') + 1..])
  {
    var p := Find(s, ' ');
    var all, rest := Split(s, ' '), Split(s[p + 1..], ' ');
    assert all == [s[..p]] + rest;
    assert all[..|all| - 1] == [s[..p]] + rest[..|rest| - 1];
  }

  lemma WordsAtEnd(s: string)
    requires ' ' !in s
    ensures Words(s) == if s == "" then [] else [s]
  {
    assert Split(s, ' ') == [s];
  }

  /** The first three words are the tokens. */
  lemma {:induction false} TokensAreWords(s: string, i: nat)
    requires i < 3
    ensures Tokens(s, i) == if |Words(s)| <= 3 - i then Words(s) else Words(s)[..3 - i]
    decreases 3 - i
  {
    hide Words;
    var p := Find(s, ' ');
    if p == |s| {
      WordsAtEnd(s);
    } else {
      WordsStep(s);
      var rest := Words(s[p + 1..]);
      if i < 2 {
        TokensAreWords(s[p + 1..], i + 1);
        if |rest| + 1 > 3 - i {
          assert ([s[..p]] + rest)[..3 - i] == [s[..p]] + rest[..2 - i];
        }
      } else {
        assert ([s[..p]] + rest)[..1] == [s[..p]];
      }
    }
  }

  // ---- what a request does ----

  /** The exact effect of an operator's request, field by field. */
  lemma ApplyExact(ch: Chan, r: Request, whom: string -> int)
    ensures var a := Apply(ch, r, whom).chan;
            && (a.inviteOnly <==> Get(r.status, 'i') == Add || (Get(r.status, 'i') == Unchanged && ch.inviteOnly))
            && (a.topicRestricted <==>
                  Get(r.status, 't') == Add || (Get(r.status, 't') == Unchanged && ch.topicRestricted))
  {}

  lemma ApplyKeyExact(ch: Chan, r: Request, whom: string -> int)
    ensures var key, param := Apply(ch, r, whom).chan.key, Param(r, 'k');
            && (Get(r.status, 'k') == Add && param != "" ==> key == param)
            && (Get(r.status, 'k') == Remove && ch.key == param ==> key == "")
            && (Get(r.status, 'k') == Unchanged || param == "" ==> key == ch.key)
            && (Get(r.status, 'k') == Remove && ch.key != param ==> key == ch.key)
  {}

  lemma ApplyLimitExact(ch: Chan, r: Request, whom: string -> int)
    ensures var limit, n := Apply(ch, r, whom).chan.limit, ReadInt(Param(r, 'l'));
            && (Get(r.status, 'l') == Add && n.Some? && n.value >= 0 ==> limit == n.value)
            && (Get(r.status, 'l') == Add && (n.None? || n.value < 0) ==> limit == ch.limit)
            && (Get(r.status, 'l') == Remove ==> limit == -1)
            && (Get(r.status, 'l') == Unchanged ==> limit == ch.limit)
  {}

  /** "+o" and "-o" set the operator bit of the entry named, if there is one, and nothing else. */
  lemma ApplyOperatorExact(ch: Chan, r: Request, whom: string -> int)
    ensures var a, fd := Apply(ch, r, whom).chan, whom(Param(r, 'o'));
            && a.clients.Keys == ch.clients.Keys
            && (forall x :: x in ch.clients ==>
                  && a.clients[x].member == ch.clients[x].member && a.clients[x].invited == ch.clients[x].invited
                  && (a.clients[x].chanop <==>
                        if x == fd && Param(r, 'o') != "" && Get(r.status, 'o') != Unchanged
                        then Get(r.status, 'o') == Add else ch.clients[x].chanop))
            && a.name == ch.name && a.topic == ch.topic && a.topicAuthor == ch.topicAuthor
            && a.topicDate == ch.topicDate
  {}

  // ---- what is announced ----

  lemma ApplyStatuses(e: Effects)
    ensures var m := StatusesOf(e);
            && m.Keys == RESET.Keys
            && Get(m, 'i') == e.i.status && Get(m, 'k') == e.k.status && Get(m, 'l') == e.l.status
            && Get(m, 'o') == e.o.status && Get(m, 't') == e.t.status
  {}

  /** The announcement names exactly the modes that changed, with their new values. */
  lemma AnnouncesChanges(ch: Chan, r: Request, whom: string -> int)
    ensures var a := Apply(ch, r, whom);
            var m := a.status;
            && (Get(m, 'i') == Add <==> !ch.inviteOnly && a.chan.inviteOnly)
            && (Get(m, 'i') == Remove <==> ch.inviteOnly && !a.chan.inviteOnly)
            && (Get(m, 't') == Add <==> !ch.topicRestricted && a.chan.topicRestricted)
            && (Get(m, 't') == Remove <==> ch.topicRestricted && !a.chan.topicRestricted)
            && (Get(m, 'k') == Add <==> a.chan.key != ch.key && a.chan.key != "")
            && (Get(m, 'k') == Remove <==> a.chan.key != ch.key && a.chan.key == "")
            && (Get(m, 'k') == Add ==> a.chan.key == Param(r, 'k'))
            && (Get(m, 'k') == Remove ==> ch.key == Param(r, 'k'))
            && (Get(m, 'l') == Add <==> a.chan.limit != ch.limit && a.chan.limit != NO_LIMIT)
            && (Get(m, 'l') == Remove <==> a.chan.limit != ch.limit && a.chan.limit == NO_LIMIT)
            && (Get(m, 'l') == Add ==> ReadInt(Param(r, 'l')) == Some(a.chan.limit))
  {
    ApplyStatuses(EffectsOf(ch, r, whom));
  }

  /** Of the entries, at most that of the client named with 'o' changes, in its operator bit only,
      and it does exactly when 'o' is announced. */
  lemma AnnouncesOperator(ch: Chan, r: Request, whom: string -> int)
    ensures var a := Apply(ch, r, whom);
            var fd := whom(Param(r, 'o'));
            && (Get(a.status, 'o') == Unchanged <==> a.chan.clients == ch.clients)
            && (Get(a.status, 'o') != Unchanged ==>
                && fd in ch.clients
                && ch.clients[fd].chanop == (Get(a.status, 'o') == Remove)
                && a.chan.clients == ch.clients[fd := ch.clients[fd].(chanop := Get(a.status, 'o') == Add)])
  {
    ApplyStatuses(EffectsOf(ch, r, whom));
    var a := Apply(ch, r, whom);
    var fd := whom(Param(r, 'o'));
    if Get(a.status, 'o') != Unchanged {
      assert a.chan.clients[fd] != ch.clients[fd];
    }
  }

  lemma KeyParam(key: string, s: Status, param: string)
    ensures ApplyKey(key, s, param).status != Unchanged ==> param != ""
  {}

  lemma OperatorParam(clients: map<int, Bits>, s: Status, param: string, fd: int)
    ensures ApplyOperator(clients, s, param, fd).status != Unchanged ==> param != ""
  {}

  lemma LimitParam(limit: int, s: Status, param: string)
    ensures ApplyLimit(limit, s, param).status == Add ==> param != ""
  {
    assert ReadInt("") == None;
  }

  lemma AppliedPrintable(ch: Chan, request: string, whom: string -> int)
    ensures Printable(Apply(ch, Parse(request), whom).status, Parse(request))
  {
    var r := Parse(request);
    var e := EffectsOf(ch, r, whom);
    ApplyStatuses(e);
    KeyParam(ch.key, Get(r.status, 'k'), Param(r, 'k'));
    OperatorParam(ch.clients, Get(r.status, 'o'), Param(r, 'o'), whom(Param(r, 'o')));
    LimitParam(ch.limit, Get(r.status, 'l'), Param(r, 'l'));
    forall f | f in Takers(StatusesOf(e)) ensures Param(r, f) != "" && ' ' !in Param(r, f) {
      TakersMembers(StatusesOf(e), f);
      ParamSpaceFree(request, f);
    }
  }

  // ---- replay ----

  /** A request that asks for what r brought about, with the same parameters. */
  ghost predicate AsksFor(s: Request, m: StatusMap, r: Request) {
    && s.status == m
    && forall f :: f in Takers(m) ==> Param(s, f) == Param(r, f)
  }

  lemma AsksForParams(s: Request, m: StatusMap, r: Request)
    requires AsksFor(s, m, r)
    ensures Get(m, 'k') != Unchanged ==> Param(s, 'k') == Param(r, 'k')
    ensures Get(m, 'o') != Unchanged ==> Param(s, 'o') == Param(r, 'o')
    ensures Get(m, 'l') == Add ==> Param(s, 'l') == Param(r, 'l')
  {
    TakersMembers(m, 'k');
    TakersMembers(m, 'l');
    TakersMembers(m, 'o');
  }

  lemma KeyReplay(key: string, s: Status, param: string, again: string)
    requires ApplyKey(key, s, param).status != Unchanged ==> again == param
    ensures ApplyKey(key, ApplyKey(key, s, param).status, again) == ApplyKey(key, s, param)
  {}

  lemma OperatorReplay(clients: map<int, Bits>, s: Status, param: string, again: string, whom: string -> int)
    requires ApplyOperator(clients, s, param, whom(param)).status != Unchanged ==> again == param
    ensures ApplyOperator(clients, ApplyOperator(clients, s, param, whom(param)).status, again, whom(again))
         == ApplyOperator(clients, s, param, whom(param))
  {}

  lemma LimitReplay(limit: int, s: Status, param: string, again: string)
    requires ApplyLimit(limit, s, param).status == Add ==> again == param
    ensures ApplyLimit(limit, ApplyLimit(limit, s, param).status, again) == ApplyLimit(limit, s, param)
  {}

  lemma ReplayApplies(ch: Chan, r: Request, s: Request, whom: string -> int)
    requires AsksFor(s, Apply(ch, r, whom).status, r)
    ensures EffectsOf(ch, s, whom) == EffectsOf(ch, r, whom)
  {
    var e := EffectsOf(ch, r, whom);
    ApplyStatuses(e);
    AsksForParams(s, StatusesOf(e), r);
    KeyReplay(ch.key, Get(r.status, 'k'), Param(r, 'k'), Param(s, 'k'));
    OperatorReplay(ch.clients, Get(r.status, 'o'), Param(r, 'o'), Param(s, 'o'), whom);
    LimitReplay(ch.limit, Get(r.status, 'l'), Param(r, 'l'), Param(s, 'l'));
  }

  /** Replay: the announcement of any request, taken as a request itself and applied to the channel
      as it was, has the same effect and is announced in the same words, without any complaint. */
  lemma Replay(ch: Chan, request: string, whom: string -> int)
    ensures var a := Apply(ch, Parse(request), whom);
            var announced := Print(a.status, Parse(request));
            && Apply(ch, Parse(announced), whom) == a
            && Print(a.status, Parse(announced)) == announced
            && !TooMany(Parameters(announced), 0) && Unknown(ModeString(announced)) == 0
            && (announced != "" ==> IsSign(announced[0]))
  {
    var r := Parse(request);
    var a := Apply(ch, r, whom);
    AppliedPrintable(ch, request, whom);
    PrintedAsksFor(a.status, r);
    PrintOfParse(a.status, r);
    ReplayApplies(ch, r, Parse(Print(a.status, r)), whom);
    AnnouncedStart(a.status, r);
  }

  lemma PrintedAsksFor(m: StatusMap, r: Request)
    requires Printable(m, r)
    ensures var printed := Print(m, r);
            && AsksFor(Parse(printed), m, r)
            && !TooMany(Parameters(printed), 0) && Unknown(ModeString(printed)) == 0
  {
    ParseOfPrint(m, r);
    forall f | f in Takers(m) ensures Param(Parse(Print(m, r)), f) == Param(r, f) {
      ParamOfPrinted(m, r, f);
    }
  }

  lemma AnnouncedStart(m: StatusMap, r: Request)
    ensures Print(m, r) != "" ==> IsSign(Print(m, r)[0])
  {
    PrintForm(m, r);
    if Picked(m, Add, FLAGS) == "" && Picked(m, Remove, FLAGS) == "" {
      assert Takers(m) == "";
      EmptyPrefix("");
    }
  }

  /** Asking twice changes nothing the second time, and announces nothing. */
  lemma Idempotent(ch: Chan, r: Request, whom: string -> int)
    ensures Apply(Apply(ch, r, whom).chan, r, whom) == Applied(Apply(ch, r, whom).chan, RESET)
    ensures Print(RESET, r) == ""
  {
    var e := EffectsOf(ch, r, whom);
    var once := WithModes(ch, e);
    OperatorTwice(ch.clients, Get(r.status, 'o'), Param(r, 'o'), whom(Param(r, 'o')));
    KeyTwice(ch.key, Get(r.status, 'k'), Param(r, 'k'));
    LimitTwice(ch.limit, Get(r.status, 'l'), Param(r, 'l'));
    assert EffectsOf(once, r, whom)
        == Effects(Effect(once.inviteOnly, Unchanged), Effect(once.key, Unchanged), Effect(once.limit, Unchanged),
                   Effect(once.clients, Unchanged), Effect(once.topicRestricted, Unchanged));
    NothingPrinted(r);
  }

  lemma KeyTwice(key: string, s: Status, param: string)
    ensures var once := ApplyKey(key, s, param).value;
            ApplyKey(once, s, param) == Effect(once, Unchanged)
  {}

  lemma LimitTwice(limit: int, s: Status, param: string)
    ensures var once := ApplyLimit(limit, s, param).value;
            ApplyLimit(once, s, param) == Effect(once, Unchanged)
  {}

  lemma OperatorTwice(clients: map<int, Bits>, s: Status, param: string, fd: int)
    ensures var once := ApplyOperator(clients, s, param, fd).value;
            ApplyOperator(once, s, param, fd) == Effect(once, Unchanged)
  {}

  lemma NothingPrinted(r: Request)
    ensures Print(RESET, r) == ""
  {
    PickedForm(RESET, Add);
    PickedForm(RESET, Remove);
    PrintForm(RESET, r);
    EmptyPrefix("");
  }

  // ---- the report ----

  /** What every stored key and limit satisfies in every run. */
  ghost predicate ModesOk(ch: Chan) {
    ' ' !in ch.key && NO_LIMIT <= ch.limit <= INT_MAX
  }

  lemma ApplyKeepsModesOk(ch: Chan, request: string, whom: string -> int)
    requires ModesOk(ch)
    ensures ModesOk(Apply(ch, Parse(request), whom).chan)
  {
    ParamSpaceFree(request, 'k');
  }

  ghost predicate AllOff(ch: Chan) {
    !ch.inviteOnly && !ch.topicRestricted && ch.key == "" && ch.limit == NO_LIMIT
  }

  lemma CurrentPrintable(ch: Chan)
    requires ModesOk(ch)
    ensures Printable(Current(ch, true).status, Current(ch, true))
  {
    var r := Current(ch, true);
    if ch.limit >= 0 {
      PrintIsDigits(ch.limit);
    }
    CurrentParams(ch, true);
    forall f | f in Takers(r.status) ensures Param(r, f) != "" && ' ' !in Param(r, f) {
      CurrentTaker(ch, true, f);
    }
  }

  /** The report prints a parameter for a key and for a limit that are set. */
  lemma CurrentTaker(ch: Chan, operator: bool, f: char)
    ensures f in Takers(Current(ch, operator).status)
      <==> (f == 'k' && ch.key != "") || (f == 'l' && ch.limit != NO_LIMIT)
  {
    TakersMembers(Current(ch, operator).status, f);
  }

  lemma CurrentParams(ch: Chan, operator: bool)
    ensures Param(Current(ch, operator), 'k') == if operator then ch.key else "*"
    ensures ch.limit >= 0 ==> Param(Current(ch, operator), 'l') == PrintInt(ch.limit)
  {
    IndexOfDistinct(['k', 'l'], 0);
    IndexOfDistinct(['k', 'l'], 1);
  }

  /** Report round trip: what an operator is told, applied to a channel with every mode off,
      restores invite-only, topic-restricted, key and limit. */
  lemma ReportRoundTrip(ch: Chan, off: Chan, whom: string -> int)
    requires ModesOk(ch) && AllOff(off)
    ensures Apply(off, Parse(Report(ch, true)), whom).chan
         == off.(inviteOnly := ch.inviteOnly, topicRestricted := ch.topicRestricted, key := ch.key, limit := ch.limit)
  {
    var r := Current(ch, true);
    if Print(r.status, r) == "" {
      NothingSet(ch);
      NothingAsked(off, Parse("+"), whom);
    } else {
      CurrentPrintable(ch);
      PrintedAsksFor(r.status, r);
      ReportApplies(ch, off, Parse(Print(r.status, r)), whom);
    }
  }

  lemma KeyRestored(key: string, param: string)
    requires key != "" ==> param == key
    ensures ApplyKey("", if key != "" then Add else Unchanged, param).value == key
  {}

  lemma {:induction false} LimitRestored(limit: int, param: string)
    requires NO_LIMIT <= limit <= INT_MAX && (limit >= 0 ==> param == PrintInt(limit))
    ensures ApplyLimit(NO_LIMIT, if limit != NO_LIMIT then Add else Unchanged, param).value == limit
  {
    if limit >= 0 {
      ReadOfPrint(limit);
    }
  }

  lemma CurrentStatuses(ch: Chan)
    ensures var m := Current(ch, true).status;
            && Get(m, 'i') == (if ch.inviteOnly then Add else Unchanged)
            && Get(m, 't') == (if ch.topicRestricted then Add else Unchanged)
            && Get(m, 'k') == (if ch.key != "" then Add else Unchanged)
            && Get(m, 'l') == (if ch.limit != NO_LIMIT then Add else Unchanged)
            && Get(m, 'o') == Unchanged
  {}

  lemma ReportApplies(ch: Chan, off: Chan, s: Request, whom: string -> int)
    requires ModesOk(ch) && AllOff(off)
    requires AsksFor(s, Current(ch, true).status, Current(ch, true))
    ensures Apply(off, s, whom).chan
         == off.(inviteOnly := ch.inviteOnly, topicRestricted := ch.topicRestricted, key := ch.key, limit := ch.limit)
  {
    AsksForParams(s, Current(ch, true).status, Current(ch, true));
    CurrentParams(ch, true);
    CurrentStatuses(ch);
    KeyRestored(ch.key, Param(s, 'k'));
    LimitRestored(ch.limit, Param(s, 'l'));
    var e := EffectsOf(off, s, whom);
    assert e.o.value == off.clients;
  }

  lemma NothingAsked(ch: Chan, s: Request, whom: string -> int)
    requires s.status == RESET
    ensures Apply(ch, s, whom).chan == ch
  {}

  /** An empty report is sent as "+", which asks for nothing. */
  lemma NothingSet(ch: Chan)
    requires Print(Current(ch, true).status, Current(ch, true)) == ""
    ensures AllOff(ch) && Parse("+").status == RESET
  {
    var r := Current(ch, true);
    PrintForm(r.status, r);
    PickedForm(r.status, Add);
    PlusAsksNothing();
  }

  lemma PlusAsksNothing()
    ensures Parse("+").status == RESET
  {
    FindInAfter("+", "", BLANKS);
    EmptySuffix("+");
    assert ModeString("+") == "+" && "+"[1..] == "";
  }

  /** What a client that is not an operator is told does not depend on the key. */
  lemma ReportHidesKey(ch: Chan, key: string)
    requires ch.key != "" && key != ""
    ensures Report(ch, false) == Report(ch.(key := key), false)
  {
    assert Current(ch, false) == Current(ch.(key := key), false);
  }
}
