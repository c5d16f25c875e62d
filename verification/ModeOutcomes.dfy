/** What a MODE command on a channel does, whom it tells, and how the announcement reads. */
module ModeOutcomes {
  import opened Strings
  import opened Decimal
  import opened Channels
  import opened World
  import opened ModeSpec
  import opened ModeReplay
  import opened ModeTheorems
  import opened Commands

  ghost predicate NoBlanks(s: string) {
    forall c :: c in s ==> c !in BLANKS
  }

  lemma ModeReads(name: string, rest: string)
    requires NoBlanks(name)
    ensures ModeString(name + " " + rest) == name && Parameters(name + " " + rest) == rest
    ensures ModeString(name) == name && Parameters(name) == ""
  {
    CutAtBlank(name, rest);
    assert name + " " + rest == name + (" " + rest);
  }

  // ---- the four forms ----

  /** The name alone asks for the modes; "b" for the ban list; anything else must start with a sign. */
  lemma ModeQueries(w: World, fd: int, name: string, rest: string)
    requires NoBlanks(name) && name in w.channels
    ensures var ch := w.channels[name];
            && ModeCommand(w, fd, name)
               == Result(w, [Notice(fd, {fd}, [RplChannelModeIs], [ch.name, Report(ch, fd in Operators(ch))])])
            && (rest == "b" ==>
                  ModeCommand(w, fd, name + " " + rest) == Result(w, [Notice(fd, {fd}, [RplEndOfBanList], [ch.name])]))
            && (rest != "b" && (rest == "" || rest[0] !in {'+', '-'}) ==>
                  ModeCommand(w, fd, name + " " + rest) == Result(w, [Notice(fd, {fd}, [ErrModeBadFormat], [])]))
  {
    ModeReads(name, rest);
    assert |name + " " + rest| > |name|;
  }

  /** A name that is no channel's is refused, unless it is the client's own nickname. */
  lemma ModeElsewhere(w: World, fd: int, name: string, rest: string)
    requires NoBlanks(name) && name !in w.channels
    ensures var r, client := ModeCommand(w, fd, name + " " + rest), ClientByNick(w.clients, name);
            if client == -1 then r == Result(w, [Notice(fd, {fd}, [ErrNoSuchNick], [name])])
            else if client != fd then r == Result(w, [Notice(fd, {fd}, [ErrUsersDontMatch], [])])
            else r.world == w
  {
    ModeReads(name, rest);
  }

  /** An operator's request is applied, and announced to everybody with an entry when it has changed
      something. */
  lemma ModeByOperator(w: World, fd: int, name: string, rest: string)
    requires NoBlanks(name) && name in w.channels && fd in Operators(w.channels[name])
    requires rest != "" && rest[0] in {'+', '-'}
    ensures var ch, r := w.channels[name], ModeCommand(w, fd, name + " " + rest);
            var a := Apply(ch, Parse(rest), Whom(w.clients));
            var announced := Print(a.status, Parse(rest));
            && r.world.channels == w.channels[name := a.chan] && r.world.clients == w.clients
            && w.queued <= r.world.queued
            && r.reply == if announced == "" then []
                          else [Notice(fd, ch.clients.Keys, [RplChangeMode], [ch.name, announced])]
  {
    hide Apply, Print, Parse, Report, ModeWarnings, ModeString, Parameters;
    ModeReads(name, rest);
    var ch := w.channels[name];
    ApplyOperatorExact(ch, Parse(rest), Whom(w.clients));
    assert fd in ch.clients && {fd} + ch.clients.Keys == ch.clients.Keys;
    assert |name + " " + rest| > |name|;
  }

  /** Anybody else's changes nothing and is refused. */
  lemma ModeByOthers(w: World, fd: int, name: string, rest: string)
    requires NoBlanks(name) && name in w.channels && fd !in Operators(w.channels[name])
    requires rest != "" && rest[0] in {'+', '-'}
    ensures var ch, r := w.channels[name], ModeCommand(w, fd, name + " " + rest);
            && r.world.channels == w.channels && r.world.clients == w.clients
            && r.reply == [Notice(fd, {fd}, [ErrChanOPrivsNeeded], [ch.name])]
  {
    ModeReads(name, rest);
    assert w.channels[name := w.channels[name]] == w.channels;
    assert |name + " " + rest| > |name|;
  }

  // ---- whom the warnings go to ----

  lemma {:induction false} RepeatedAll(n: Notice, count: nat)
    ensures forall x :: x in Repeated(n, count) ==> x == n
  {
    if count > 0 {
      RepeatedAll(n, count - 1);
    }
  }

  /** Something the client that asks is told about its own request. */
  ghost predicate Complaint(n: Notice, fd: int) {
    n.emitter == fd && n.target == {fd} && n.replies != [RplYoureChanop]
  }

  lemma OperatorWarned(client: int, fd: int, ch: Chan, s: Status, nick: string)
    ensures var told := OperatorWarnings(client, fd, ch, s, nick);
            if s == Add && nick != "" && client in ch.clients && !ch.clients[client].chanop
            then told == [Notice(client, {client}, [RplYoureChanop], [ch.name])]
            else forall n :: n in told ==> Complaint(n, fd)
  {}

  ghost predicate Complaints(told: seq<Notice>, fd: int) {
    forall n :: n in told ==> Complaint(n, fd)
  }

  lemma OthersComplain(fd: int, rest: string, r: Request)
    ensures Complaints(TokenWarnings(fd, rest), fd)
    ensures Complaints(Repeated(To(fd, ErrUModeUnknownFlag, []), Unknown(ModeString(rest))), fd)
    ensures Complaints(KeyWarnings(fd, Get(r.status, 'k'), Param(r, 'k')), fd)
    ensures Complaints(LimitWarnings(fd, Get(r.status, 'l'), Param(r, 'l')), fd)
  {
    RepeatedAll(To(fd, ErrUModeUnknownFlag, []), Unknown(ModeString(rest)));
  }

  lemma ComplaintsConcat(a: seq<Notice>, b: seq<Notice>, fd: int)
    requires Complaints(a, fd) && Complaints(b, fd)
    ensures Complaints(a + b, fd)
  {}

  /** The client that was no operator of the channel and is asked to become one, if it has an entry. */
  predicate IsNewOperator(ch: Chan, fd: int, r: Request, client: int) {
    && Entry(ch, fd).chanop && Get(r.status, 'o') == Add && Param(r, 'o') != ""
    && client in ch.clients && !ch.clients[client].chanop
  }

  lemma WarningsTell(w: World, fd: int, ch: Chan, rest: string) returns (a: seq<Notice>, b: seq<Notice>)
    ensures var client := ClientByNick(w.clients, Param(Parse(rest), 'o'));
            && Complaints(a, fd) && Complaints(b, fd)
            && ModeWarnings(w, fd, ch, rest)
               == a + ((if IsNewOperator(ch, fd, Parse(rest), client)
                        then [Notice(client, {client}, [RplYoureChanop], [ch.name])] else []) + b)
  {
    var r := Parse(rest);
    var client := ClientByNick(w.clients, Param(r, 'o'));
    hide Complaints, Parse, OperatorWarnings, KeyWarnings, LimitWarnings, TokenWarnings, ClientByNick, Unknown;
    var tokens := TokenWarnings(fd, rest);
    var unknown := Repeated(To(fd, ErrUModeUnknownFlag, []), Unknown(ModeString(rest)));
    OthersComplain(fd, rest, r);
    ComplaintsConcat(tokens, unknown, fd);
    if !Entry(ch, fd).chanop {
      a, b := tokens + unknown, [];
      NoComplaints(fd);
    } else {
      var key := KeyWarnings(fd, Get(r.status, 'k'), Param(r, 'k'));
      var named := OperatorWarnings(client, fd, ch, Get(r.status, 'o'), Param(r, 'o'));
      var limit := LimitWarnings(fd, Get(r.status, 'l'), Param(r, 'l'));
      ComplaintsConcat(tokens + unknown, key, fd);
      OperatorWarned(client, fd, ch, Get(r.status, 'o'), Param(r, 'o'));
      a, b := tokens + unknown + key, limit;
      assert ModeWarnings(w, fd, ch, rest) == a + (named + limit);
      if !IsNewOperator(ch, fd, r, client) {
        SomeComplaints(named, fd);
        ComplaintsConcat(named, limit, fd);
        b := named + limit;
        EmptyPrefix(b);
      }
    }
  }

  lemma NoTokenComplaint(w: World, fd: int, ch: Chan, r: Request)
    ensures forall n :: n in ApplyWarnings(w, fd, ch, r) ==> n.replies != [ErrTooManyParam]
  {}

  /** A fourth token is complained about, */
  lemma FourthToken(w: World, fd: int, ch: Chan, rest: string)
    ensures To(fd, ErrTooManyParam, ["MODE"]) in ModeWarnings(w, fd, ch, rest)
        <==> |Split(Parameters(rest), ' ')| >= 4
  {
    hide Parse, Split, Unknown, TooMany, Parameters, ModeString, Repeated, ApplyWarnings;
    TooManyExact(Parameters(rest), 0);
    RepeatedAll(To(fd, ErrUModeUnknownFlag, []), Unknown(ModeString(rest)));
    NoTokenComplaint(w, fd, ch, Parse(rest));
  }

  /** and so are, of an operator's request, a "k" or "o" without a parameter and a "+l" without a limit. */
  lemma MissingParameter(w: World, fd: int, ch: Chan, rest: string)
    ensures var r := Parse(rest);
            To(fd, ErrNeedMoreParams, ["MODE"]) in ModeWarnings(w, fd, ch, rest)
            <==> Entry(ch, fd).chanop && (
                   || (Get(r.status, 'k') != Unchanged && Param(r, 'k') == "")
                   || (Get(r.status, 'o') != Unchanged && Param(r, 'o') == "")
                   || (Get(r.status, 'l') == Add
                       && var n := ReadInt(Param(r, 'l')); n.None? || n.value < 0))
  {
    hide Parse, ReadInt, Unknown, TooMany, ClientByNick, Parameters, ModeString, Repeated;
    RepeatedAll(To(fd, ErrUModeUnknownFlag, []), Unknown(ModeString(rest)));
  }

  /** A nickname behind "o" that is nobody's with an entry is complained about. */
  lemma StrangerNamed(w: World, fd: int, ch: Chan, rest: string)
    ensures var r := Parse(rest);
            var nick := Param(r, 'o');
            To(fd, ErrUserNotInChannel, [nick, ch.name]) in ModeWarnings(w, fd, ch, rest)
            <==> fd in Operators(ch) && Get(r.status, 'o') != Unchanged && nick != ""
                 && ClientByNick(w.clients, nick) !in ch.clients
  {
    hide Parse, ReadInt, Unknown, TooMany, ClientByNick, Parameters, ModeString, Repeated;
    RepeatedAll(To(fd, ErrUModeUnknownFlag, []), Unknown(ModeString(rest)));
  }

  lemma {:induction false} RepeatedCount(n: Notice, count: nat)
    ensures multiset(Repeated(n, count))[n] == count
  {
    if count > 0 {
      RepeatedCount(n, count - 1);
    }
  }

  /** Each character of the modestring that is neither a sign nor a flag is complained about once. */
  lemma UnknownFlags(w: World, fd: int, ch: Chan, rest: string)
    ensures var modes := ModeString(rest);
            multiset(ModeWarnings(w, fd, ch, rest))[To(fd, ErrUModeUnknownFlag, [])]
            == |set i | 0 <= i < |modes| && modes[i] !in "+-iklot"|
  {
    hide Parse, ReadInt, Unknown, TooMany, ClientByNick, Parameters, ModeString, Repeated;
    var n := To(fd, ErrUModeUnknownFlag, []);
    UnknownCounts(ModeString(rest));
    RepeatedCount(n, Unknown(ModeString(rest)));
    assert n !in TokenWarnings(fd, rest) && n !in ApplyWarnings(w, fd, ch, Parse(rest));
  }

  lemma NoComplaints(fd: int)
    ensures Complaints([], fd)
  {}

  lemma SomeComplaints(told: seq<Notice>, fd: int)
    requires forall n :: n in told ==> Complaint(n, fd)
    ensures Complaints(told, fd)
  {}

  /** Besides its reply a change request queues complaints to the client that asks, and tells a client that it
      is now operator exactly when the request has made it one. */
  lemma ModeTells(w: World, fd: int, name: string, rest: string) returns (a: seq<Notice>, b: seq<Notice>)
    requires name in w.channels
    ensures var ch, after := w.channels[name], ModeChange(w, fd, name, rest).world;
            var client := ClientByNick(w.clients, Param(Parse(rest), 'o'));
            var told := client !in Operators(ch) && client in Operators(after.channels[name]);
            && Complaints(a, fd) && Complaints(b, fd)
            && after.queued
               == w.queued + (a + ((if told then [Notice(client, {client}, [RplYoureChanop], [ch.name])] else []) + b))
  {
    var ch, r := w.channels[name], Parse(rest);
    a, b := WarningsTell(w, fd, ch, rest);
    hide Complaints, Parse, ModeWarnings, ClientByNick, Apply;
    ApplyOperatorExact(ch, r, Whom(w.clients));
  }

  // ---- how the announcement reads ----

  lemma {:induction false} SuffixOfOne(m: StatusMap, s: Status, flag: char, r: Request)
    ensures Suffix(One(m, s, flag), r) == if Get(m, flag) == s then " " + Param(r, flag) else ""
  {
    assert [flag][1..] == "";
    EmptySuffix(" " + Param(r, flag));
  }

  /** One flag if it has the status, and its parameter behind a space. */
  function Shown(m: StatusMap, s: Status, flag: char, text: string): string {
    if Get(m, flag) == s then text else ""
  }

  lemma Drop5(a: string, b: string, c: string, d: string, e: string)
    ensures a + (b + (c + (d + (e + "")))) == a + (b + (c + (d + e)))
  {}

  lemma {:induction false} FlagsSpelled(m: StatusMap, s: Status)
    ensures Picked(m, s, FLAGS)
         == Shown(m, s, 'i', "i") + (Shown(m, s, 'k', "k") + (Shown(m, s, 'l', "l")
            + (Shown(m, s, 'o', "o") + Shown(m, s, 't', "t"))))
  {
    PickedForm(m, s);
    Drop5(One(m, s, 'i'), One(m, s, 'k'), One(m, s, 'l'), One(m, s, 'o'), One(m, s, 't'));
  }

  lemma {:induction false} ParametersSpelled(m: StatusMap, r: Request)
    ensures Suffix(Takers(m), r)
         == (Shown(m, Add, 'k', " " + Param(r, 'k')) + (Shown(m, Add, 'l', " " + Param(r, 'l'))
             + Shown(m, Add, 'o', " " + Param(r, 'o'))))
            + (Shown(m, Remove, 'k', " " + Param(r, 'k')) + Shown(m, Remove, 'o', " " + Param(r, 'o')))
  {
    var k, l, o := One(m, Add, 'k'), One(m, Add, 'l'), One(m, Add, 'o');
    var k', o' := One(m, Remove, 'k'), One(m, Remove, 'o');
    TakersText(m);
    SuffixConcat(k + (l + o), k' + o', r);
    SuffixConcat(k, l + o, r);
    SuffixConcat(l, o, r);
    SuffixConcat(k', o', r);
    SuffixOfOne(m, Add, 'k', r);
    SuffixOfOne(m, Add, 'l', r);
    SuffixOfOne(m, Add, 'o', r);
    SuffixOfOne(m, Remove, 'k', r);
    SuffixOfOne(m, Remove, 'o', r);
  }

  /** An announcement reads: what was added behind one '+', what was removed behind one '-', both in the order
      i, k, l, o, t; then the parameters in that order - of the limit only when it was set. */
  lemma {:induction false} AnnouncementSpelled(m: StatusMap, r: Request)
    ensures var plus := Shown(m, Add, 'i', "i") + (Shown(m, Add, 'k', "k") + (Shown(m, Add, 'l', "l")
                        + (Shown(m, Add, 'o', "o") + Shown(m, Add, 't', "t"))));
            var minus := Shown(m, Remove, 'i', "i") + (Shown(m, Remove, 'k', "k") + (Shown(m, Remove, 'l', "l")
                         + (Shown(m, Remove, 'o', "o") + Shown(m, Remove, 't', "t"))));
            Print(m, r)
            == ((if plus == "" then "" else "+" + plus) + (if minus == "" then "" else "-" + minus))
               + ((Shown(m, Add, 'k', " " + Param(r, 'k')) + (Shown(m, Add, 'l', " " + Param(r, 'l'))
                   + Shown(m, Add, 'o', " " + Param(r, 'o'))))
                  + (Shown(m, Remove, 'k', " " + Param(r, 'k')) + Shown(m, Remove, 'o', " " + Param(r, 'o'))))
  {
    FlagsSpelled(m, Add);
    FlagsSpelled(m, Remove);
    PrintForm(m, r);
    ParametersSpelled(m, r);
  }

  lemma NothingBehind(head: string, a: string, b: string)
    ensures (head + "") + ((a + (b + "")) + ("" + "")) == head + (a + b)
  {}

  /** A status that neither removes anything nor speaks of operators. */
  lemma {:induction false} AddedSpelled(m: StatusMap, r: Request)
    requires (forall f :: f in FLAGS ==> Get(m, f) != Remove) && Get(m, 'o') == Unchanged
    ensures var plus := Shown(m, Add, 'i', "i") + (Shown(m, Add, 'k', "k")
                        + (Shown(m, Add, 'l', "l") + Shown(m, Add, 't', "t")));
            Print(m, r)
            == (if plus == "" then "" else "+" + plus)
               + (Shown(m, Add, 'k', " " + Param(r, 'k')) + Shown(m, Add, 'l', " " + Param(r, 'l')))
  {
    hide Print, Param;
    AnnouncementSpelled(m, r);
    var plus := Shown(m, Add, 'i', "i") + (Shown(m, Add, 'k', "k")
                + (Shown(m, Add, 'l', "l") + Shown(m, Add, 't', "t")));
    EmptyPrefix(Shown(m, Add, 't', "t"));
    NothingBehind(if plus == "" then "" else "+" + plus,
                  Shown(m, Add, 'k', " " + Param(r, 'k')), Shown(m, Add, 'l', " " + Param(r, 'l')));
  }

  lemma StatusReported(ch: Chan, operator: bool)
    ensures var m := Current(ch, operator).status;
            && Get(m, 'i') == (if ch.inviteOnly then Add else Unchanged)
            && Get(m, 'k') == (if ch.key != "" then Add else Unchanged)
            && Get(m, 'l') == (if ch.limit != -1 then Add else Unchanged)
            && Get(m, 't') == (if ch.topicRestricted then Add else Unchanged)
            && Get(m, 'o') == Unchanged
  {}

  /** The answer to the name alone spells the modes that are set, behind a '+' that is there even when none is:
      the flags, the key - for an operator only - and the limit. */
  lemma {:induction false} ReportSpelled(ch: Chan, operator: bool)
    requires ch.limit >= -1
    ensures Report(ch, operator)
         == "+" + ((if ch.inviteOnly then "i" else "") + ((if ch.key != "" then "k" else "")
            + ((if ch.limit != -1 then "l" else "") + (if ch.topicRestricted then "t" else ""))))
            + ((if ch.key != "" then " " + (if operator then ch.key else "*") else "")
               + (if ch.limit != -1 then " " + PrintInt(ch.limit) else ""))
  {
    hide Print, PrintInt, Current, Param, Get;
    var r := Current(ch, operator);
    StatusReported(ch, operator);
    CurrentParams(ch, operator);
    AddedSpelled(r.status, r);
  }

  // ---- one switch ----

  ghost predicate OnlyFlag(m: StatusMap, flag: char) {
    forall f :: f in "iklot" && f != flag ==> Get(m, f) == Unchanged
  }

  /** A request for one switch asks for it and for nothing else. */
  lemma {:induction false} SwitchAsked(sign: char, flag: char)
    requires sign in {'+', '-'} && flag in {'i', 't'}
    ensures var r := Parse([sign, flag]);
            && Get(r.status, flag) == (if sign == '+' then Add else Remove)
            && OnlyFlag(r.status, flag)
            && Parameters([sign, flag]) == "" && ModeString([sign, flag]) == [sign, flag]
  {
    var request := [sign, flag];
    CutAtBlank(request, "");
    LastSignCounts("", sign, "", flag, "", '+', Request(RESET, [], Tokens("", 0)));
    assert "" + [sign] + "" + [flag] + "" == request;
    forall f | f in "iklot" && f != flag ensures Get(Parse(request).status, f) == Unchanged {
      assert f !in request;
      FlagAbsent(request, f, '+', Request(RESET, [], Tokens("", 0)));
    }
  }

  lemma {:induction false} SwitchShown(m: StatusMap, r: Request, flag: char, s: Status)
    requires flag in {'i', 't'} && s != Unchanged
    requires OnlyFlag(m, flag)
    ensures Get(m, flag) == s ==> Print(m, r) == [if s == Add then '+' else '-', flag]
    ensures Get(m, flag) == Unchanged ==> Print(m, r) == ""
  {
    hide Print;
    AnnouncementSpelled(m, r);
    assert Get(m, 'k') == Unchanged && Get(m, 'l') == Unchanged && Get(m, 'o') == Unchanged;
    assert flag == 't' ==> Get(m, 'i') == Unchanged;
    assert flag == 'i' ==> Get(m, 't') == Unchanged;
  }

  /** End to end: an operator's "+i", "-i", "+t" or "-t" leaves the switch as asked and everything else of the
      channel as it was; it is announced to everybody with an entry exactly when the switch was not so
      before. */
  lemma {:induction false} ModeSwitch(w: World, fd: int, name: string, sign: char, flag: char)
    requires NoBlanks(name) && name in w.channels && fd in Operators(w.channels[name])
    requires sign in {'+', '-'} && flag in {'i', 't'}
    ensures var ch, r := w.channels[name], ModeCommand(w, fd, name + " " + [sign, flag]);
            var was := if flag == 'i' then ch.inviteOnly else ch.topicRestricted;
            && r.world.channels
               == w.channels[name := if flag == 'i' then ch.(inviteOnly := sign == '+')
                                     else ch.(topicRestricted := sign == '+')]
            && r.reply == if was == (sign == '+') then []
                          else [Notice(fd, ch.clients.Keys, [RplChangeMode], [ch.name, [sign, flag]])]
  {
    var ch, request := w.channels[name], Parse([sign, flag]);
    var a := Apply(ch, request, Whom(w.clients));
    hide ModeCommand, Apply, Print, Parse, OnlyFlag, NoBlanks;
    ModeByOperator(w, fd, name, [sign, flag]);
    SwitchAsked(sign, flag);
    SwitchApplied(ch, request, Whom(w.clients), flag);
    SwitchShown(a.status, request, flag, Get(request.status, flag));
  }

  lemma SwitchApplied(ch: Chan, r: Request, whom: string -> int, flag: char)
    requires flag in {'i', 't'} && Get(r.status, flag) != Unchanged
    requires OnlyFlag(r.status, flag)
    ensures var a, on := Apply(ch, r, whom), Get(r.status, flag) == Add;
            var was := if flag == 'i' then ch.inviteOnly else ch.topicRestricted;
            && a.chan == (if flag == 'i' then ch.(inviteOnly := on) else ch.(topicRestricted := on))
            && OnlyFlag(a.status, flag)
            && Get(a.status, flag) == if was == on then Unchanged else Get(r.status, flag)
  {
    ApplyStatuses(EffectsOf(ch, r, whom));
    assert Get(r.status, 'k') == Unchanged && Get(r.status, 'l') == Unchanged && Get(r.status, 'o') == Unchanged;
    assert flag == 't' ==> Get(r.status, 'i') == Unchanged;
    assert flag == 'i' ==> Get(r.status, 't') == Unchanged;
  }
}
