/** Whole runs of the server: connections, commands with their raw parameters, disconnections. */
module Runs {
  import opened Strings
  import opened Ordering
  import opened Decimal
  import opened Channels
  import opened Lists
  import opened World
  import opened ModeSpec
  import opened ModeTheorems
  import opened Commands
  import opened Membership
  import opened Admission
  import opened CommandEffects
  import opened Registration
  import opened Targets

  datatype Verb = PASS | NICK | USER | JOIN | PART | KICK | INVITE | QUIT | MODE | PRIVMSG

  /** Disconnect: the ERROR line that answers QUIT has been sent. HangUp: reading from the client has
      failed, and the server quits for it. */
  datatype Event =
    | Connect(fd: int)
    | Disconnect(fd: int)
    | HangUp(fd: int)
    | Command(fd: int, verb: Verb, param: string)

  const NEWCOMER := Client("", "", "", "", false, false)

  /** The command itself, once check_for_cmds has let it through. */
  function Execute(w: World, fd: int, verb: Verb, param: string): Result
    requires fd in w.clients
  {
    match verb
    case PASS => PassCommand(w, fd, param)
    case NICK => NickCommand(w, fd, param)
    case USER => UserCommand(w, fd, param)
    case JOIN => Result(JoinCommand(w, fd, param), [])
    case PART => Result(PartCommand(w, fd, param), [])
    case KICK => KickCommand(w, fd, param)
    case INVITE => InviteCommand(w, fd, param)
    case QUIT => QuitCommand(w, fd, param)
    case MODE => ModeCommand(w, fd, param)
    case PRIVMSG => PrivmsgCommand(w, fd, param)
  }

  predicate OpenToAll(verb: Verb) {
    verb in {PASS, NICK, USER}
  }

  /** QUIT with manual_quit unset: no ERROR line, the client is deleted at once. */
  function QuitByServer(w: World, fd: int): World
  {
    var left := if fd in w.clients && w.clients[fd].registered then LeaveAll(w, fd, "Quit: ") else w;
    left.(clients := left.clients - {fd})
  }

  function Step(w: World, e: Event): World
  {
    match e
    case Connect(fd) => if fd < 0 || fd in w.clients then w else Update(w, fd, NEWCOMER)
    case Disconnect(fd) => w.(clients := w.clients - {fd})
    case HangUp(fd) => QuitByServer(w, fd)
    case Command(fd, verb, param) =>
      if fd !in w.clients then w
      else if !w.clients[fd].registered && !OpenToAll(verb) then Push(w, [To(fd, ErrNotRegistered, [])])
      else
        var r := Execute(w, fd, verb, param);
        Push(r.world, r.reply)
  }

  function Start(socket: int, password: string): World
  {
    World(socket, password, map[], map[], [])
  }

  /** The state after the first k events. */
  function State(w: World, events: seq<Event>, k: nat): World
    requires k <= |events|
  {
    if k == 0 then w else Step(State(w, events, k - 1), events[k - 1])
  }

  // ---- a command is a list of channel steps ----

  function InviteAtoms(w: World, fd: int, param: string): seq<Atom>
  {
    if ' ' !in param then []
    else
      var first, last := Find(param, ' '), LastSpace(param);
      var nick, name := param[..first], param[last + 1..];
      if (exists i :: first <= i < last && param[i] != ' ') || ClientByNick(w.clients, nick) == -1 then []
      else [Invite(fd, ClientByNick(w.clients, nick), name)]
  }

  function KickAtoms(w: World, fd: int, param: string): seq<Atom>
  {
    var name := FirstWord(param);
    if ' ' in param && name in w.channels && fd in w.channels[name].clients && w.channels[name].clients[fd].chanop
    then DropAtoms(w.clients, name, KickTargets(KickParts(AfterWord(param)).0))
    else []
  }

  function ModeAtoms(w: World, fd: int, param: string): seq<Atom>
  {
    var name, rest := ModeString(param), Parameters(param);
    if name in w.channels && name != param && rest != "b" && rest != "" && IsSign(rest[0])
    then [Change(fd, name, rest, w.clients)]
    else []
  }

  function AtomsOf(w: World, e: Event): seq<Atom>
  {
    if !(e.Command? || e.HangUp?) || e.fd !in w.clients || !w.clients[e.fd].registered then []
    else if e.HangUp? then DropEach(e.fd, NamesOfAll(w))
    else
      match e.verb
      case PASS | NICK | USER | PRIVMSG => []
      case JOIN =>
        if e.param == "0" then LeaveAtoms(e.fd, ChannelsOf(w, e.fd))
        else
          EnterAtoms(e.fd, ChannelList(FirstWord(e.param)), if ' ' in e.param then KeyList(AfterWord(e.param)) else [])
      case PART => LeaveAtoms(e.fd, ChannelList(FirstWord(e.param)))
      case KICK => KickAtoms(w, e.fd, e.param)
      case INVITE => InviteAtoms(w, e.fd, e.param)
      case QUIT => DropEach(e.fd, NamesOfAll(w))
      case MODE => ModeAtoms(w, e.fd, e.param)
  }

  lemma {:induction false} DoAllOne(chs: ChannelMap, a: Atom)
    ensures DoAll(chs, [a]) == Do(chs, a)
  {
    assert [a][1..] == [];
  }

  lemma InviteIsAtoms(w: World, fd: int, param: string)
    ensures InviteCommand(w, fd, param).world.channels == DoAll(w.channels, InviteAtoms(w, fd, param))
    ensures InviteCommand(w, fd, param).world.clients == w.clients
  {
    if ' ' in param {
      var nick, name := param[..Find(param, ' ')], param[LastSpace(param) + 1..];
      DoAllOne(w.channels, Invite(fd, ClientByNick(w.clients, nick), name));
      if name in w.channels {
        InviteIsInvite(w, fd, name, nick, ClientByNick(w.clients, nick));
      }
    }
  }

  lemma KickIsAtoms(w: World, fd: int, param: string)
    ensures KickCommand(w, fd, param).world.channels == DoAll(w.channels, KickAtoms(w, fd, param))
    ensures KickCommand(w, fd, param).world.clients == w.clients
  {
    if KickAtoms(w, fd, param) != [] {
      var (targets, comment) := KickParts(AfterWord(param));
      KickListIsDrop(w, fd, FirstWord(param), KickTargets(targets), comment);
    }
  }

  /** What MODE does to the server. */
  function ModeWorld(w: World, fd: int, param: string): World
  {
    var name, rest := ModeString(param), Parameters(param);
    if name !in w.channels || name == param || rest == "b" || rest == "" || !IsSign(rest[0]) then w
    else ModeChange(w, fd, name, rest).world
  }

  lemma ModeWorldOf(w: World, fd: int, param: string)
    ensures ModeCommand(w, fd, param).world == ModeWorld(w, fd, param)
  {}

  lemma ModeIsAtoms(w: World, fd: int, param: string)
    ensures ModeCommand(w, fd, param).world.channels == DoAll(w.channels, ModeAtoms(w, fd, param))
    ensures ModeCommand(w, fd, param).world.clients == w.clients
  {
    var name, rest := ModeString(param), Parameters(param);
    ModeWorldOf(w, fd, param);
    if ModeAtoms(w, fd, param) != [] {
      ModeIsChange(w, fd, name, rest);
      DoAllOne(w.channels, Change(fd, name, rest, w.clients));
    }
  }

  lemma {:induction false} QuitIsAtoms(w: World, fd: int, comment: string)
    ensures LeaveAll(w, fd, comment).channels == DoAll(w.channels, DropEach(fd, NamesOfAll(w)))
  {
    QuitExact(w, fd, comment);
    QuitChannels(w, fd, NamesOfAll(w));
  }

  lemma {:induction false} JoinIsAtoms(w: World, fd: int, param: string)
    requires AllOk(w.channels)
    ensures JoinCommand(w, fd, param).channels == DoAll(w.channels,
      if param == "0" then LeaveAtoms(fd, ChannelsOf(w, fd))
      else EnterAtoms(fd, ChannelList(FirstWord(param)), if ' ' in param then KeyList(AfterWord(param)) else []))
    ensures JoinCommand(w, fd, param).clients == w.clients
  {
    if param == "0" {
      JoinZeroIsLeave(w, fd);
    } else {
      JoinListIsEnter(w, fd, ChannelList(FirstWord(param)), if ' ' in param then KeyList(AfterWord(param)) else []);
    }
  }

  /** Every event acts on the channels as its list of channel steps. */
  lemma StepIsAtoms(w: World, e: Event)
    requires AllOk(w.channels)
    ensures Step(w, e).channels == DoAll(w.channels, AtomsOf(w, e))
  {
    if e.HangUp? {
      QuitIsAtoms(w, e.fd, "Quit: ");
    } else if e.Command? && e.fd in w.clients && w.clients[e.fd].registered {
      match e.verb
      case PASS | NICK | USER | PRIVMSG =>
      case JOIN => JoinIsAtoms(w, e.fd, e.param);
      case PART => PartListIsLeave(w, e.fd, ChannelList(FirstWord(e.param)), AfterWord(e.param));
      case KICK => KickIsAtoms(w, e.fd, e.param);
      case INVITE => InviteIsAtoms(w, e.fd, e.param);
      case QUIT => QuitIsAtoms(w, e.fd, "Quit: " + e.param);
      case MODE => ModeIsAtoms(w, e.fd, e.param);
    }
  }
}
