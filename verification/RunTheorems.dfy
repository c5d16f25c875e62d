/** What holds in every state of every run of the server. */
module RunTheorems {
  import opened Decimal
  import Lists
  import Strings
  import opened Channels
  import opened World
  import opened ModeSpec
  import opened ModeTheorems
  import opened Commands
  import opened Membership
  import opened Admission
  import opened CommandEffects
  import opened Registration
  import opened Targets
  import opened Runs

  ghost predicate WorldOk(w: World) {
    ClientsOk(w.clients) && AllOk(w.channels)
  }

  lemma {:induction false} DoAllKeepsOk(chs: ChannelMap, atoms: seq<Atom>)
    requires AllOk(chs)
    ensures AllOk(DoAll(chs, atoms))
    decreases |atoms|
  {
    if atoms != [] {
      StepKeepsOk(chs, atoms[0]);
      DoAllKeepsOk(Do(chs, atoms[0]), atoms[1..]);
    }
  }

  lemma ChannelCommandsKeepClients(w: World, fd: int, verb: Verb, param: string)
    requires fd in w.clients && !OpenToAll(verb) && AllOk(w.channels)
    ensures Execute(w, fd, verb, param).world.clients == w.clients
  {
    match verb
    case JOIN => JoinIsAtoms(w, fd, param);
    case PART => PartListIsLeave(w, fd, Lists.ChannelList(FirstWord(param)), AfterWord(param));
    case KICK => KickIsAtoms(w, fd, param);
    case INVITE => InviteIsAtoms(w, fd, param);
    case QUIT => QuitExact(w, fd, "Quit: " + param);
    case MODE => ModeIsAtoms(w, fd, param);
    case PRIVMSG =>
  }

  lemma StepKeepsClients(w: World, e: Event)
    requires WorldOk(w)
    ensures ClientsOk(Step(w, e).clients)
  {
    match e
    case Connect(fd) => ConnectKeepsClients(w.clients, fd);
    case Disconnect(fd) =>
    case HangUp(fd) =>
      QuitExact(w, fd, "Quit: ");
    case Command(fd, verb, param) =>
      if fd in w.clients {
        CommandKeepsClients(w, fd, verb, param);
      }
  }

  lemma ConnectKeepsClients(clients: map<int, Client>, fd: int)
    requires ClientsOk(clients)
    ensures fd >= 0 && fd !in clients ==> ClientsOk(clients[fd := NEWCOMER])
  {
    forall x | x in clients ensures |Lower(clients[x].nick)| == |clients[x].nick| {
      LowerLength(clients[x].nick);
    }
    LowerLength("");
  }

  lemma CommandKeepsClients(w: World, fd: int, verb: Verb, param: string)
    requires WorldOk(w) && fd in w.clients
    ensures ClientsOk(Execute(w, fd, verb, param).world.clients)
  {
    match verb
    case PASS => PassKeeps(w, fd, param);
    case NICK => NickKeeps(w, fd, param);
    case USER => UserKeeps(w, fd, param);
    case _ => ChannelCommandsKeepClients(w, fd, verb, param);
  }

  lemma StepKeepsWorld(w: World, e: Event)
    requires WorldOk(w)
    ensures WorldOk(Step(w, e))
  {
    StepKeepsClients(w, e);
    StepIsAtoms(w, e);
    DoAllKeepsOk(w.channels, AtomsOf(w, e));
  }

  /** Identity and registration in every run: nicknames that are set are legal and differ by more
      than case; a client is registered exactly when it has given a nickname and a real name, and
      has then passed PASS; every channel stands under its own legal name, with entries that are
      either invitations or memberships, a key without spaces and a limit in range. */
  lemma {:induction false} RunInvariant(w: World, events: seq<Event>, k: nat)
    requires k <= |events| && w == Start(w.socket, w.password)
    ensures WorldOk(State(w, events, k))
  {
    if k > 0 {
      RunInvariant(w, events, k - 1);
      StepKeepsWorld(State(w, events, k - 1), events[k - 1]);
    }
  }

  /** In every run a nickname that is set leads back to its client, and names no channel. */
  lemma {:induction false} RunIdentity(w: World, events: seq<Event>, k: nat, fd: int)
    requires k <= |events| && w == Start(w.socket, w.password)
    requires fd in State(w, events, k).clients && State(w, events, k).clients[fd].nick != ""
    ensures var s := State(w, events, k);
            ClientByNick(s.clients, s.clients[fd].nick) == fd && s.clients[fd].nick !in s.channels
  {
    var s := State(w, events, k);
    RunInvariant(w, events, k);
    LookupInverse(s.clients, fd);
    NicknamesAreNoChannels(s.clients[fd].nick);
    forall n | n in s.channels ensures ChannelNameAllowed(n) {
      assert ChannelOk(n, s.channels[n]);
    }
  }

  // ---- operator succession ----

  /** No MODE command of an operator asks for "+o" of an entry that is only invited. */
  ghost predicate PromotesOnlyMembers(w: World, e: Event) {
    forall a :: a in AtomsOf(w, e) ==> PromotesMember(w.channels, a)
  }

  predicate NotChange(a: Atom) { !a.Change? }

  lemma {:induction false} DoAllKeepsOps(chs: ChannelMap, atoms: seq<Atom>)
    requires AllOk(chs) && AllOpsAreMembers(chs) && forall a :: a in atoms ==> NotChange(a)
    ensures AllOpsAreMembers(DoAll(chs, atoms))
    decreases |atoms|
  {
    if atoms != [] {
      assert atoms[0] in atoms && NotChange(atoms[0]);
      StepKeepsOps(chs, atoms[0]);
      StepKeepsOk(chs, atoms[0]);
      DoAllKeepsOps(Do(chs, atoms[0]), atoms[1..]);
    }
  }

  lemma {:induction false} EnterAtomsEnter(fd: int, channels: seq<string>, keys: seq<string>)
    ensures forall a :: a in EnterAtoms(fd, channels, keys) ==> a.Enter? && a.fd == fd
    decreases |channels|
  {
    if channels != [] {
      EnterAtomsEnter(fd, channels[1..], if keys == [] then [] else keys[1..]);
    }
  }

  lemma {:induction false} LeaveAtomsLeave(fd: int, names: seq<string>)
    ensures forall a :: a in LeaveAtoms(fd, names) ==> a.Leave? && a.fd == fd
  {
    if names != [] {
      LeaveAtomsLeave(fd, names[1..]);
    }
  }

  lemma {:induction false} DropAtomsDrop(clients: map<int, Client>, name: string, nicks: seq<string>)
    ensures forall a :: a in DropAtoms(clients, name, nicks) ==> a.Drop?
  {
    if nicks != [] {
      DropAtomsDrop(clients, name, nicks[1..]);
    }
  }

  lemma {:induction false} DropEachDrop(fd: int, names: seq<string>)
    ensures forall a :: a in DropEach(fd, names) ==> a.Drop? && a.fd == fd
  {
    if names != [] {
      DropEachDrop(fd, names[1..]);
    }
  }

  predicate IsCommand(e: Event, verb: Verb) {
    e.Command? && e.verb == verb
  }

  /** The steps of an event are all of its own kind. */
  lemma AtomsByVerb(w: World, e: Event)
    ensures forall a :: a in AtomsOf(w, e) ==>
      (a.Enter? <==> IsCommand(e, JOIN) && e.param != "0")
      && (a.Leave? <==> IsCommand(e, PART) || (IsCommand(e, JOIN) && e.param == "0"))
      && (a.Drop? <==> IsCommand(e, KICK) || IsCommand(e, QUIT) || e.HangUp?)
      && (a.Invite? <==> IsCommand(e, INVITE)) && (a.Change? <==> IsCommand(e, MODE))
      && (a.Enter? ==> a.fd == e.fd)
  {
    if e.HangUp? {
      DropEachDrop(e.fd, NamesOfAll(w));
    } else if e.Command? && e.fd in w.clients && w.clients[e.fd].registered {
      match e.verb
      case JOIN =>
        LeaveAtomsLeave(e.fd, ChannelsOf(w, e.fd));
        EnterAtomsEnter(e.fd, Lists.ChannelList(FirstWord(e.param)),
                        if ' ' in e.param then Lists.KeyList(AfterWord(e.param)) else []);
      case PART => LeaveAtomsLeave(e.fd, Lists.ChannelList(FirstWord(e.param)));
      case KICK =>
        DropAtomsDrop(w.clients, FirstWord(e.param), Lists.KickTargets(KickParts(AfterWord(e.param)).0));
      case QUIT => DropEachDrop(e.fd, NamesOfAll(w));
      case _ =>
    }
  }

  lemma StepKeepsRunOps(w: World, e: Event)
    requires WorldOk(w) && AllOpsAreMembers(w.channels) && PromotesOnlyMembers(w, e)
    ensures AllOpsAreMembers(Step(w, e).channels)
  {
    StepIsAtoms(w, e);
    AtomsByVerb(w, e);
    if e.Command? && e.verb == MODE {
      if AtomsOf(w, e) != [] {
        var a := AtomsOf(w, e)[0];
        assert a in AtomsOf(w, e);
        DoAllOne(w.channels, a);
        StepKeepsOps(w.channels, a);
      }
    } else {
      DoAllKeepsOps(w.channels, AtomsOf(w, e));
    }
  }

  /** A channel is led, or has no members to lead. */
  ghost predicate Led(ch: Chan) {
    Operators(ch) != {} || Members(ch) == {}
  }

  lemma {:induction false} RemovalsKeepLed(chs: ChannelMap, atoms: seq<Atom>, name: string)
    requires AllOk(chs) && AllOpsAreMembers(chs) && forall a :: a in atoms ==> a.Drop? || a.Leave?
    requires name in chs ==> Led(chs[name])
    ensures name in DoAll(chs, atoms) ==> Led(DoAll(chs, atoms)[name])
    decreases |atoms|
  {
    if atoms != [] {
      var a := atoms[0];
      assert a in atoms;
      StepKeepsOk(chs, a);
      StepKeepsOps(chs, a);
      if a.name != name {
        OnlyNamed(chs, a, name);
      } else if name in chs {
        assert OpsAreMembers(chs[name]);
        DelClientSucceeds(chs[name], a.fd);
        DelClientEntries(chs[name], a.fd, a.fd);
      }
      RemovalsKeepLed(Do(chs, a), atoms[1..], name);
    }
  }

  lemma {:induction false} ArrivalsKeepLed(chs: ChannelMap, atoms: seq<Atom>, name: string)
    requires AllOk(chs) && AllOpsAreMembers(chs) && forall a :: a in atoms ==> a.Enter? || a.Invite?
    requires name in chs && Operators(chs[name]) != {}
    ensures name in DoAll(chs, atoms) && Operators(DoAll(chs, atoms)[name]) != {}
    decreases |atoms|
  {
    if atoms != [] {
      var a := atoms[0];
      assert a in atoms;
      StepKeepsOk(chs, a);
      StepKeepsOps(chs, a);
      if a.name != name {
        OnlyNamed(chs, a, name);
      } else {
        assert OpsAreMembers(chs[name]);
        ArrivalsKeepOperators(chs[name], a.fd);
      }
      ArrivalsKeepLed(Do(chs, a), atoms[1..], name);
    }
  }

  /** No whole command but MODE - not a KICK of many, a PART of many, JOIN 0 or QUIT, the client's own
      or the server's for it - takes a channel that had an operator to one with members and no operator. */
  lemma CommandSuccession(w: World, e: Event, name: string)
    requires WorldOk(w) && AllOpsAreMembers(w.channels)
    requires name in w.channels && name in Step(w, e).channels
    requires LosesOperators(w.channels[name], Step(w, e).channels[name])
    ensures e.Command? && e.verb == MODE
  {
    StepIsAtoms(w, e);
    AtomsByVerb(w, e);
    var atoms := AtomsOf(w, e);
    if e.Command? && (e.verb == INVITE || (e.verb == JOIN && e.param != "0")) {
      ArrivalsKeepLed(w.channels, atoms, name);
    } else if !IsCommand(e, MODE) {
      RemovalsKeepLed(w.channels, atoms, name);
    }
  }

  /** Up to event k no operator asked for "+o" of an entry that was only invited. */
  ghost predicate PromotedMembersOnly(w: World, events: seq<Event>, k: nat)
    requires k <= |events|
  {
    k > 0 ==> PromotedMembersOnly(w, events, k - 1) && PromotesOnlyMembers(State(w, events, k - 1), events[k - 1])
  }

  lemma {:induction false} RunOperators(w: World, events: seq<Event>, k: nat)
    requires k <= |events| && w == Start(w.socket, w.password) && PromotedMembersOnly(w, events, k)
    ensures AllOpsAreMembers(State(w, events, k).channels)
  {
    if k > 0 {
      RunOperators(w, events, k - 1);
      RunInvariant(w, events, k - 1);
      StepKeepsRunOps(State(w, events, k - 1), events[k - 1]);
    }
  }

  /** What a MODE command that takes the last operator from a channel must have asked for. */
  lemma ModeSuccession(w: World, e: Event, name: string)
    requires e.Command? && e.verb == MODE && AllOpsAreMembers(w.channels)
    requires name in w.channels && name in DoAll(w.channels, AtomsOf(w, e))
    requires LosesOperators(w.channels[name], DoAll(w.channels, AtomsOf(w, e))[name])
    ensures ModeString(e.param) == name && AsksOperator(Parse(Parameters(e.param)), Remove)
    ensures Operators(w.channels[name]) == {ClientByNick(w.clients, Param(Parse(Parameters(e.param)), 'o'))}
  {
    assert AtomsOf(w, e) != [];
    var a := Change(e.fd, ModeString(e.param), Parameters(e.param), w.clients);
    assert AtomsOf(w, e) == [a];
    DoAllOne(w.channels, a);
    ChangeSuccession(w.channels, a, name);
  }

  /** Operator succession over whole runs: while no "+o" has been asked of an entry that was only invited,
      operators are members, and only a MODE command can leave a channel that had an operator with
      members but none; it then asked for "-o" of the only operator there was. */
  lemma RunSuccession(w: World, events: seq<Event>, k: nat, name: string)
    requires k < |events| && w == Start(w.socket, w.password) && PromotedMembersOnly(w, events, k)
    requires name in State(w, events, k).channels && name in State(w, events, k + 1).channels
    requires LosesOperators(State(w, events, k).channels[name], State(w, events, k + 1).channels[name])
    ensures AllOpsAreMembers(State(w, events, k).channels)
    ensures events[k].Command? && events[k].verb == MODE && ModeString(events[k].param) == name
    ensures AsksOperator(Parse(Parameters(events[k].param)), Remove)
    ensures Operators(State(w, events, k).channels[name])
         == {ClientByNick(State(w, events, k).clients, Param(Parse(Parameters(events[k].param)), 'o'))}
  {
    RunInvariant(w, events, k);
    RunOperators(w, events, k);
    CommandSuccession(State(w, events, k), events[k], name);
    StepIsAtoms(State(w, events, k), events[k]);
    ModeSuccession(State(w, events, k), events[k], name);
  }

  // ---- channels without members ----

  ghost predicate Peopled(chs: ChannelMap, name: string) {
    name in chs ==> Members(chs[name]) != {}
  }

  lemma {:induction false} OtherStepsKeepPeopled(chs: ChannelMap, atoms: seq<Atom>, name: string)
    requires Peopled(chs, name) && forall a :: a in atoms ==> !a.Drop?
    ensures Peopled(DoAll(chs, atoms), name)
    decreases |atoms|
  {
    if atoms != [] {
      var a := atoms[0];
      assert a in atoms;
      if name in chs {
        OnlyRemovalEmpties(chs, a, name);
      } else if a.Enter? && a.name == name {
        NewChannelMembers(a.fd, name);
      }
      OtherStepsKeepPeopled(Do(chs, a), atoms[1..], name);
    }
  }

  lemma NewChannelMembers(fd: int, name: string)
    ensures Members(NewChan(fd, name)) == {fd}
  {}

  /** Only KICK and QUIT, the client's own or the server's for it, leave a channel without members: what
      JOIN, PART and JOIN 0 leave has members or is gone. */
  lemma OnlyKickAndQuitEmpty(w: World, e: Event, name: string)
    requires AllOk(w.channels) && Peopled(w.channels, name) && !Peopled(Step(w, e).channels, name)
    ensures IsCommand(e, KICK) || IsCommand(e, QUIT) || e.HangUp?
  {
    StepIsAtoms(w, e);
    AtomsByVerb(w, e);
    if !(IsCommand(e, KICK) || IsCommand(e, QUIT) || e.HangUp?) {
      OtherStepsKeepPeopled(w.channels, AtomsOf(w, e), name);
    }
  }

  // ---- the password, and the gate ----

  lemma ChannelCommandsKeepServer(w: World, fd: int, verb: Verb, param: string)
    requires fd in w.clients && AllOk(w.channels)
    ensures Execute(w, fd, verb, param).world.password == w.password
  {
    match verb
    case JOIN => JoinKeepsPassword(w, fd, param);
    case PART => PartListKeepsPassword(w, fd, Lists.ChannelList(FirstWord(param)), AfterWord(param));
    case KICK => KickKeepsPassword(w, fd, param);
    case INVITE =>
    case QUIT => QuitKeepsPassword(w, fd, "Quit: " + param);
    case MODE =>
    case _ =>
  }

  lemma {:induction false} JoinListKeepsPassword(w: World, fd: int, channels: seq<string>, keys: seq<string>)
    ensures JoinList(w, fd, channels, keys).password == w.password
    decreases |channels|
  {
    if channels != [] {
      JoinListKeepsPassword(JoinOne(w, fd, channels[0], if keys == [] then None else Some(keys[0])), fd, channels[1..],
                            if keys == [] then [] else keys[1..]);
    }
  }

  lemma {:induction false} PartListKeepsPassword(w: World, fd: int, channels: seq<string>, reason: string)
    ensures PartList(w, fd, channels, reason).password == w.password
    decreases |channels|
  {
    if channels != [] {
      PartListKeepsPassword(PartOne(w, fd, channels[0], reason), fd, channels[1..], reason);
    }
  }

  lemma JoinKeepsPassword(w: World, fd: int, param: string)
    ensures JoinCommand(w, fd, param).password == w.password
  {
    var all := Strings.Join(ChannelsOf(w, fd), ",");
    PartListKeepsPassword(w, fd, Lists.ChannelList(FirstWord(all)), AfterWord(all));
    JoinListKeepsPassword(w, fd, Lists.ChannelList(FirstWord(param)),
                          if ' ' in param then Lists.KeyList(AfterWord(param)) else []);
  }

  lemma {:induction false} KickListKeepsPassword(w: World, fd: int, name: string, nicks: seq<string>, comment: string)
    requires name in w.channels
    ensures KickList(w, fd, name, nicks, comment).password == w.password
    decreases |nicks|
  {
    if nicks != [] {
      KickListKeepsPassword(KickOne(w, fd, name, nicks[0], comment), fd, name, nicks[1..], comment);
    }
  }

  lemma KickKeepsPassword(w: World, fd: int, param: string)
    ensures KickCommand(w, fd, param).world.password == w.password
  {
    var name := FirstWord(param);
    var (targets, comment) := KickParts(AfterWord(param));
    if name in w.channels {
      KickListKeepsPassword(w, fd, name, Lists.KickTargets(targets), comment);
    }
  }

  lemma {:induction false} LeaveEachKeepsPassword(l: Leaving, fd: int, names: seq<string>)
    requires forall n :: n in names ==> n in l.world.channels
    ensures LeaveEach(l, fd, names).world.password == l.world.password
    decreases |names|
  {
    if names != [] {
      assert names[0] in names;
      LeaveEachKeepsPassword(LeaveOne(l, fd, names[0]), fd, names[1..]);
    }
  }

  lemma QuitKeepsPassword(w: World, fd: int, comment: string)
    ensures LeaveAll(w, fd, comment).password == w.password
  {
    LeaveEachKeepsPassword(Leaving(w, {}), fd, NamesOfAll(w));
  }

  lemma StepKeepsPassword(w: World, e: Event)
    requires AllOk(w.channels)
    ensures Step(w, e).password == w.password
  {
    if e.Command? && e.fd in w.clients {
      ChannelCommandsKeepServer(w, e.fd, e.verb, e.param);
    } else if e.HangUp? {
      QuitKeepsPassword(w, e.fd, "Quit: ");
    }
  }

  lemma {:induction false} RunKeepsPassword(w: World, events: seq<Event>, k: nat)
    requires k <= |events| && w == Start(w.socket, w.password)
    ensures State(w, events, k).password == w.password
  {
    if k > 0 {
      RunKeepsPassword(w, events, k - 1);
      RunInvariant(w, events, k - 1);
      StepKeepsPassword(State(w, events, k - 1), events[k - 1]);
    }
  }

  predicate IsAuthenticated(w: World, fd: int) {
    fd in w.clients && w.clients[fd].authenticated
  }

  /** A step that makes a client authenticated is its PASS with the server's password. */
  lemma AuthenticatedByPass(w: World, e: Event, fd: int)
    requires WorldOk(w) && IsAuthenticated(Step(w, e), fd)
    ensures IsAuthenticated(w, fd) || (e == Command(fd, PASS, w.password) && fd in w.clients)
    ensures fd in w.clients
  {
    match e
    case Connect(x) =>
    case Disconnect(x) =>
    case HangUp(x) => QuitExact(w, x, "Quit: ");
    case Command(x, verb, param) =>
      if x in w.clients {
        match verb
        case PASS => PassExact(w, x, param);
        case NICK => NickStores(w, x, param);
        case USER => UserStores(w, x, param);
        case _ => ChannelCommandsKeepClients(w, x, verb, param);
      }
  }

  /** In every state from before event i to after event k - 1 the client is connected. */
  ghost predicate ConnectedThroughout(w: World, events: seq<Event>, i: nat, k: nat, fd: int)
    requires i <= k <= |events|
  {
    forall j :: i <= j <= k ==> fd in State(w, events, j).clients
  }

  lemma {:induction false} ConnectedAt(w: World, events: seq<Event>, i: nat, fd: int)
    requires i <= |events| && fd in State(w, events, i).clients
    ensures ConnectedThroughout(w, events, i, i, fd)
  {}

  lemma {:induction false} ConnectedLonger(w: World, events: seq<Event>, i: nat, k: nat, fd: int)
    requires i < k <= |events| && fd in State(w, events, k).clients
    requires ConnectedThroughout(w, events, i, k - 1, fd)
    ensures ConnectedThroughout(w, events, i, k, fd)
  {
    hide State;
    forall j | i < j <= k ensures fd in State(w, events, j).clients {
      if j < k {
        assert ConnectedThroughout(w, events, i, k - 1, fd);
      }
    }
  }

  /** Every authenticated client has given the server's password, during the connection it has now. */
  lemma {:induction false} RunPassword(w: World, events: seq<Event>, k: nat, fd: int) returns (i: nat)
    requires k <= |events| && w == Start(w.socket, w.password) && IsAuthenticated(State(w, events, k), fd)
    ensures i < k && events[i] == Command(fd, PASS, w.password)
    ensures ConnectedThroughout(w, events, i, k, fd)
  {
    hide Step, WorldOk, ConnectedThroughout;
    var before := State(w, events, k - 1);
    RunInvariant(w, events, k - 1);
    RunKeepsPassword(w, events, k - 1);
    AuthenticatedByPass(before, events[k - 1], fd);
    if IsAuthenticated(before, fd) {
      i := RunPassword(w, events, k - 1, fd);
    } else {
      i := k - 1;
      ConnectedAt(w, events, i, fd);
    }
    ConnectedLonger(w, events, i, k, fd);
  }

  /** So has every registered client. */
  lemma RunRegistered(w: World, events: seq<Event>, k: nat, fd: int) returns (i: nat)
    requires k <= |events| && w == Start(w.socket, w.password)
    requires fd in State(w, events, k).clients && State(w, events, k).clients[fd].registered
    ensures i < k && events[i] == Command(fd, PASS, w.password)
    ensures ConnectedThroughout(w, events, i, k, fd)
  {
    RunInvariant(w, events, k);
    assert ClientOk(State(w, events, k).clients[fd]);
    i := RunPassword(w, events, k, fd);
  }

  /** The gate: a client that is not registered changes nothing but its own record, and that by PASS, NICK and
      USER only; any other command is answered and no more. */
  lemma GateExact(w: World, fd: int, verb: Verb, param: string)
    requires fd in w.clients && !w.clients[fd].registered
    ensures Step(w, Command(fd, verb, param)).channels == w.channels
    ensures forall x :: x in w.clients && x != fd ==>
      x in Step(w, Command(fd, verb, param)).clients
      && Step(w, Command(fd, verb, param)).clients[x] == w.clients[x]
    ensures verb !in {PASS, NICK, USER} ==>
      Step(w, Command(fd, verb, param)) == w.(queued := w.queued + [Notice(fd, {fd}, [ErrNotRegistered], [])])
  {
    match verb
    case PASS => PassExact(w, fd, param);
    case NICK => NickStores(w, fd, param);
    case USER => UserStores(w, fd, param);
    case _ =>
  }

  lemma ClientsAreNumbered(w: World)
    requires WorldOk(w)
    ensures -1 !in w.clients
  {}

  /** The step of a registered client's command is the command, and then its reply in the queue. */
  lemma StepReplies(w: World, fd: int, verb: Verb, param: string)
    requires fd in w.clients && w.clients[fd].registered
    ensures var r, after := Execute(w, fd, verb, param), Step(w, Command(fd, verb, param));
            after == r.world.(queued := r.world.queued + r.reply)
  {}

  lemma ExecutesPrivmsg(w: World, fd: int, param: string)
    requires fd in w.clients
    ensures Execute(w, fd, PRIVMSG, param) == PrivmsgCommand(w, fd, param)
  {}

  /** What a command leaves in its message is queued: a registered client's PRIVMSG goes behind everything else to
      those it reaches, if there are any. */
  lemma PrivmsgIsQueued(w: World, fd: int, list: string, text: string)
    requires WorldOk(w) && fd in w.clients && w.clients[fd].registered && ':' !in list
    ensures var g := GatherAll(w, fd, list);
            var queued := Step(w, Command(fd, PRIVMSG, list + [':'] + text)).queued;
            g.target != {} ==>
              && |queued| > |w.queued|
              && queued[|queued| - 1] == Notice(fd, g.target, [RplPrivmsg(|g.accepted|)], g.accepted + [text])
  {
    hide GatherAll, Execute, WorldOk, Step;
    assert -1 !in w.clients by { ClientsAreNumbered(w); }
    Targets.PrivmsgExact(w, fd, list, text);
    StepReplies(w, fd, PRIVMSG, list + [':'] + text);
    ExecutesPrivmsg(w, fd, list + [':'] + text);
  }

  /** And so is the answer to PASS. */
  lemma WrongPasswordIsAnswered(w: World, fd: int, param: string)
    requires fd in w.clients && !w.clients[fd].registered && !w.clients[fd].authenticated && param != w.password
    ensures Step(w, Command(fd, PASS, param))
         == w.(queued := w.queued + [Notice(w.socket, {fd}, [ErrPasswdMismatch], [])])
  {
    PassExact(w, fd, param);
  }
}
