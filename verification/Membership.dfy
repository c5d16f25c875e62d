/** Every change of a channel is one of five atomic steps; what each step, and so every run, keeps. */
module Membership {
  import opened Ordering
  import opened Decimal
  import opened Channels
  import opened Lists
  import opened World
  import opened ModeSpec
  import opened ModeReplay
  import opened ModeTheorems
  import opened Commands

  type ChannelMap = map<string, Chan>

  /** The steps: one channel of a JOIN, one of a PART, one removal by KICK or QUIT, one INVITE, one
      MODE change. */
  datatype Atom =
    | Enter(fd: int, name: string, key: Option<string>)
    | Leave(fd: int, name: string)
    | Drop(fd: int, name: string)
    | Invite(issuer: int, fd: int, name: string)
    | Change(issuer: int, name: string, rest: string, clients: map<int, Client>)

  function Do(chs: ChannelMap, a: Atom): ChannelMap
  {
    match a
    case Enter(fd, name, key) =>
      if !ChannelNameAllowed(name) then chs
      else if name !in chs then chs[name := NewChan(fd, name)]
      else if Entry(chs[name], fd).member || Refusal(chs[name], fd, key).Some? then chs
      else chs[name := Admit(chs[name], fd)]
    case Leave(fd, name) =>
      if name !in chs || !Entry(chs[name], fd).member then chs
      else
        var left := DelClient(chs[name], fd).chan;
        if Members(left) == {} then chs - {name} else chs[name := left]
    case Drop(fd, name) =>
      if name !in chs || !Entry(chs[name], fd).member then chs
      else chs[name := DelClient(chs[name], fd).chan]
    case Invite(issuer, fd, name) =>
      if name !in chs || fd in chs[name].clients || issuer !in chs[name].clients then chs
      else chs[name := Invited(chs[name], fd)]
    case Change(issuer, name, rest, clients) =>
      if name !in chs then chs
      else chs[name := ModeAfter(chs[name], issuer, rest, clients)]
  }

  function DoAll(chs: ChannelMap, atoms: seq<Atom>): ChannelMap
    decreases |atoms|
  {
    if atoms == [] then chs else DoAll(Do(chs, atoms[0]), atoms[1..])
  }

  // ---- what one step does to one channel ----

  /** A channel only changes under a step that names it. */
  lemma OnlyNamed(chs: ChannelMap, a: Atom, name: string)
    requires name != a.name
    ensures name in Do(chs, a) <==> name in chs
    ensures name in chs ==> Do(chs, a)[name] == chs[name]
  {}

  /** Each entry has exactly one of INVITED and MEMBER. */
  ghost predicate ShapeOk(ch: Chan) {
    forall fd :: fd in ch.clients ==> ch.clients[fd].invited != ch.clients[fd].member
  }

  ghost predicate ChannelOk(name: string, ch: Chan) {
    ch.name == name && ChannelNameAllowed(name) && ShapeOk(ch) && ModesOk(ch)
  }

  ghost predicate AllOk(chs: ChannelMap) {
    forall n :: n in chs ==> ChannelOk(n, chs[n])
  }

  lemma RemovalKeepsShape(ch: Chan, fd: int)
    requires ShapeOk(ch)
    ensures ShapeOk(DelClient(ch, fd).chan)
    ensures DelClient(ch, fd).chan.name == ch.name
    ensures ModesOk(ch) ==> ModesOk(DelClient(ch, fd).chan)
  {
    var r := DelClient(ch, fd).chan;
    forall other | other in r.clients ensures r.clients[other].invited != r.clients[other].member {
      DelClientEntries(ch, fd, other);
      assert Entry(r, other) == r.clients[other];
      assert Entry(ch, other) == ch.clients[other];
    }
  }

  lemma ChangeKeepsShape(ch: Chan, rest: string, whom: string -> int)
    requires ShapeOk(ch) && ModesOk(ch)
    ensures var after := Apply(ch, Parse(rest), whom).chan;
            ShapeOk(after) && ModesOk(after) && after.name == ch.name
  {
    AnnouncesOperator(ch, Parse(rest), whom);
    ApplyKeepsModesOk(ch, rest, whom);
  }

  /** Every step keeps every channel well formed: its own legal name, one of INVITED and MEMBER per
      entry, a key without spaces and a limit in range. */
  lemma StepKeepsOk(chs: ChannelMap, a: Atom)
    requires AllOk(chs)
    ensures AllOk(Do(chs, a))
  {
    forall n | n in Do(chs, a) ensures ChannelOk(n, Do(chs, a)[n]) {
      if n != a.name {
        OnlyNamed(chs, a, n);
      } else if n in chs {
        RemovalKeepsShape(chs[n], if a.Change? then 0 else a.fd);
        if a.Change? {
          ChangeKeepsShape(chs[n], a.rest, Whom(a.clients));
        }
      }
    }
  }

  // ---- operators ----

  /** CHANOP implies MEMBER. */
  ghost predicate OpsAreMembers(ch: Chan) {
    Operators(ch) <= Members(ch)
  }

  ghost predicate AllOpsAreMembers(chs: ChannelMap) {
    forall n :: n in chs ==> OpsAreMembers(chs[n])
  }

  /** The request asks for "+o" or "-o", with a parameter. */
  predicate AsksOperator(r: Request, s: Status) {
    Get(r.status, 'o') == s && Param(r, 'o') != ""
  }

  /** A "+o" of an operator does not name an entry that is neither operator nor member. */
  ghost predicate PromotesMember(chs: ChannelMap, a: Atom) {
    a.Change? && a.name in chs && Entry(chs[a.name], a.issuer).chanop ==>
      MemberPromoted(chs[a.name], Parse(a.rest), a.clients)
  }

  ghost predicate MemberPromoted(ch: Chan, r: Request, clients: map<int, Client>) {
    var fd := ClientByNick(clients, Param(r, 'o'));
    AsksOperator(r, Add) && fd in ch.clients && !ch.clients[fd].chanop ==> ch.clients[fd].member
  }

  /** What is left of the "o" asked for. */
  lemma OperatorAsked(ch: Chan, r: Request, clients: map<int, Client>)
    ensures var fd := ClientByNick(clients, Param(r, 'o'));
            Get(Apply(ch, r, Whom(clients)).status, 'o')
            == if Param(r, 'o') == "" || fd !in ch.clients then Unchanged
               else if Get(r.status, 'o') == Add && !ch.clients[fd].chanop then Add
               else if Get(r.status, 'o') == Remove && ch.clients[fd].chanop then Remove
               else Unchanged
  {}

  lemma ChangeKeepsOps(ch: Chan, r: Request, clients: map<int, Client>)
    requires OpsAreMembers(ch)
    ensures OpsAreMembers(Apply(ch, r, Whom(clients)).chan) <==> MemberPromoted(ch, r, clients)
  {
    var a := Apply(ch, r, Whom(clients));
    var fd := Whom(clients)(Param(r, 'o'));
    AnnouncesOperator(ch, r, Whom(clients));
    OperatorAsked(ch, r, clients);
    OperatorChange(ch, a.chan, fd, Get(a.status, 'o'));
    if Get(a.status, 'o') == Add {
      assert Operators(a.chan) == Operators(ch) + {fd};
    }
  }

  /** CHANOP implies MEMBER is kept by a step if and only if it does not ask for "+o" of an entry that is
      only invited. */
  lemma StepKeepsOps(chs: ChannelMap, a: Atom)
    requires AllOk(chs) && AllOpsAreMembers(chs)
    ensures AllOpsAreMembers(Do(chs, a)) <==> PromotesMember(chs, a)
  {
    if a.Change? && a.name in chs && Entry(chs[a.name], a.issuer).chanop {
      ChangeStepOps(chs, a);
    } else {
      forall n | n in Do(chs, a) ensures OpsAreMembers(Do(chs, a)[n]) {
        OtherStepsKeepOps(chs, a, n);
      }
    }
  }

  lemma ChangeStepOps(chs: ChannelMap, a: Atom)
    requires AllOpsAreMembers(chs) && a.Change? && a.name in chs && Entry(chs[a.name], a.issuer).chanop
    ensures AllOpsAreMembers(Do(chs, a)) <==> PromotesMember(chs, a)
  {
    ChangeKeepsOps(chs[a.name], Parse(a.rest), a.clients);
    forall n | n in Do(chs, a) && n != a.name ensures OpsAreMembers(Do(chs, a)[n]) {
      OnlyNamed(chs, a, n);
    }
    assert a.name in Do(chs, a);
  }

  lemma OtherStepsKeepOps(chs: ChannelMap, a: Atom, n: string)
    requires AllOpsAreMembers(chs) && n in Do(chs, a)
    requires !(a.Change? && a.name in chs && Entry(chs[a.name], a.issuer).chanop)
    ensures OpsAreMembers(Do(chs, a)[n])
  {
    if n != a.name {
      OnlyNamed(chs, a, n);
    } else if n in chs {
      assert OpsAreMembers(chs[n]);
      if !a.Change? {
        RemovalKeepsOps(chs[n], a.fd);
        OthersKeepOps(chs[n], a.fd);
      }
    } else {
      NewChannelOps(a.fd, n);
    }
  }

  lemma NewChannelOps(fd: int, name: string)
    ensures OpsAreMembers(NewChan(fd, name)) && Operators(NewChan(fd, name)) == {fd}
  {}

  lemma RemovalKeepsOps(ch: Chan, fd: int)
    requires OpsAreMembers(ch)
    ensures OpsAreMembers(DelClient(ch, fd).chan)
  {
    DelClientSucceeds(ch, fd);
    DelClientEntries(ch, fd, fd);
  }

  lemma OthersKeepOps(ch: Chan, fd: int)
    requires OpsAreMembers(ch)
    ensures OpsAreMembers(Admit(ch, fd))
    ensures fd !in ch.clients ==> OpsAreMembers(Invited(ch, fd))
  {
    forall x | x in Operators(Admit(ch, fd)) ensures x in Members(Admit(ch, fd)) {
      assert x in Operators(ch);
    }
    if fd !in ch.clients {
      forall x | x in Operators(Invited(ch, fd)) ensures x in Members(Invited(ch, fd)) {
        assert x in Operators(ch);
      }
    }
  }

  /** A channel that had an operator and still has members has lost its operators. */
  ghost predicate LosesOperators(ch: Chan, after: Chan) {
    Operators(ch) != {} && Members(after) != {} && Operators(after) == {}
  }

  /** Succession: while CHANOP implies MEMBER, no step but a MODE change leaves a channel that had an
      operator with members and without one. */
  lemma OnlyModeLosesOperators(chs: ChannelMap, a: Atom)
    requires AllOpsAreMembers(chs) && a.name in chs && a.name in Do(chs, a)
    requires LosesOperators(chs[a.name], Do(chs, a)[a.name])
    ensures a.Change?
  {
    var ch := chs[a.name];
    assert OpsAreMembers(ch);
    if !a.Change? {
      DelClientSucceeds(ch, a.fd);
      DelClientEntries(ch, a.fd, a.fd);
      ArrivalsKeepOperators(ch, a.fd);
    }
  }

  lemma ArrivalsKeepOperators(ch: Chan, fd: int)
    requires OpsAreMembers(ch)
    ensures fd !in Members(ch) ==> Operators(Admit(ch, fd)) == Operators(ch)
    ensures fd !in ch.clients ==> Operators(Invited(ch, fd)) == Operators(ch)
  {
    if fd !in Members(ch) {
      assert fd !in Operators(ch);
      assert Operators(Admit(ch, fd)) == Operators(ch);
    }
    if fd !in ch.clients {
      assert Operators(Invited(ch, fd)) == Operators(ch);
    }
  }

  /** And a MODE change does so exactly when it asks for "-o" of the only operator. */
  lemma ModeLosesOperators(ch: Chan, rest: string, clients: map<int, Client>)
    requires Operators(ch) != {} && Members(ch) != {}
    ensures var after := Apply(ch, Parse(rest), Whom(clients));
            LosesOperators(ch, after.chan) <==>
              AsksOperator(Parse(rest), Remove)
              && Operators(ch) == {ClientByNick(clients, Param(Parse(rest), 'o'))}
  {
    var r := Parse(rest);
    var a := Apply(ch, r, Whom(clients));
    var fd := Whom(clients)(Param(r, 'o'));
    AnnouncesOperator(ch, r, Whom(clients));
    OperatorAsked(ch, r, clients);
    OperatorChange(ch, a.chan, fd, Get(a.status, 'o'));
    if Operators(ch) == {fd} {
      assert fd in Operators(ch);
    }
  }

  lemma OperatorChange(ch: Chan, after: Chan, fd: int, s: Status)
    requires s == Unchanged ==> after.clients == ch.clients
    requires s != Unchanged ==> fd in ch.clients && ch.clients[fd].chanop == (s == Remove)
    requires s != Unchanged ==> after.clients == ch.clients[fd := ch.clients[fd].(chanop := s == Add)]
    ensures Members(after) == Members(ch)
    ensures s == Unchanged ==> Operators(after) == Operators(ch)
    ensures s == Add ==> Operators(after) != {}
    ensures s == Remove ==> fd in Operators(ch) && Operators(after) == Operators(ch) - {fd}
  {
    if s == Add {
      assert fd in Operators(after);
    }
  }

  lemma ModeAfterSuccession(ch: Chan, fd: int, rest: string, clients: map<int, Client>)
    requires LosesOperators(ch, ModeAfter(ch, fd, rest, clients))
    ensures AsksOperator(Parse(rest), Remove)
    ensures Operators(ch) == {ClientByNick(clients, Param(Parse(rest), 'o'))}
  {
    AnnouncesOperator(ch, Parse(rest), Whom(clients));
    assert Members(ModeAfter(ch, fd, rest, clients)) == Members(ch);
    ModeLosesOperators(ch, rest, clients);
  }

  /** A MODE step that takes the last operator from a channel with members asked for "-o" of that operator. */
  lemma ChangeSuccession(chs: ChannelMap, a: Atom, name: string)
    requires a.Change? && name in chs && name in Do(chs, a)
    requires LosesOperators(chs[name], Do(chs, a)[name])
    ensures a.name == name && AsksOperator(Parse(a.rest), Remove)
    ensures Operators(chs[name]) == {ClientByNick(a.clients, Param(Parse(a.rest), 'o'))}
  {
    if a.name != name {
      OnlyNamed(chs, a, name);
    } else {
      ModeAfterSuccession(chs[name], a.issuer, a.rest, a.clients);
    }
  }

  // ---- channels without members ----

  /** The only step that leaves a channel without members is the removal of its last member by KICK or
      QUIT; PART and JOIN 0 erase the channel. */
  lemma OnlyRemovalEmpties(chs: ChannelMap, a: Atom, name: string)
    requires name in chs && Members(chs[name]) != {}
    ensures name in Do(chs, a) && Members(Do(chs, a)[name]) == {}
        <==> a.Drop? && a.name == name && Members(chs[name]) == {a.fd}
  {
    var ch := chs[name];
    if a.name != name {
      OnlyNamed(chs, a, name);
    } else if a.Drop? {
      DelClientEntries(ch, a.fd, a.fd);
      DelClientSucceeds(ch, a.fd);
      if Members(ch) == {a.fd} {
        assert a.fd in Members(ch);
      }
    } else if a.Enter? || a.Invite? {
      ArrivalsKeepMembers(ch, a.fd);
    } else if a.Change? {
      AnnouncesOperator(ch, Parse(a.rest), Whom(a.clients));
    }
  }

  lemma ArrivalsKeepMembers(ch: Chan, fd: int)
    ensures fd in Members(Admit(ch, fd))
    ensures fd !in ch.clients ==> Members(Invited(ch, fd)) == Members(ch)
  {}
}
