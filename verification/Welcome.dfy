/** The welcome burst is queued once per connection, when the client becomes registered. */
module Welcome {
  import Strings
  import Ordering
  import Decimal
  import opened Channels
  import opened Lists
  import opened World
  import opened ModeSpec
  import opened Commands
  import opened CommandEffects
  import opened Registration
  import opened Targets
  import opened Runs
  import opened RunTheorems

  /** The welcome bursts among these notices that are for the client. */
  function Welcomes(queued: seq<Notice>, fd: int): nat
  {
    if queued == [] then 0
    else (if queued[0].target == {fd} && RplWelcomeBurst in queued[0].replies then 1 else 0) + Welcomes(queued[1..], fd)
  }

  lemma {:induction false} WelcomesConcat(a: seq<Notice>, b: seq<Notice>, fd: int)
    ensures Welcomes(a + b, fd) == Welcomes(a, fd) + Welcomes(b, fd)
  {
    if a == [] {
      assert a + b == b;
    } else {
      assert (a + b)[1..] == a[1..] + b;
      WelcomesConcat(a[1..], b, fd);
    }
  }

  /** No welcome is among the notices. */
  ghost predicate Quiet(notices: seq<Notice>) {
    forall n :: n in notices ==> RplWelcomeBurst !in n.replies
  }

  lemma {:induction false} QuietCounts(notices: seq<Notice>, fd: int)
    requires Quiet(notices)
    ensures Welcomes(notices, fd) == 0
  {
    if notices != [] {
      assert notices[0] in notices;
      QuietCounts(notices[1..], fd);
    }
  }

  /** The second state has queued more notices, none of them a welcome. */
  ghost predicate QueuesQuietly(w: World, v: World) {
    exists more :: v.queued == w.queued + more && Quiet(more)
  }

  lemma PushesQuietly(w: World, v: World, more: seq<Notice>)
    requires v.queued == w.queued + more && Quiet(more)
    ensures QueuesQuietly(w, v)
  {}

  lemma QuietStays(w: World)
    ensures QueuesQuietly(w, w)
  {
    PushesQuietly(w, w, []);
  }

  lemma QuietTwice(w: World, u: World, v: World)
    requires QueuesQuietly(w, u) && QueuesQuietly(u, v)
    ensures QueuesQuietly(w, v)
  {
    var a :| u.queued == w.queued + a && Quiet(a);
    var b :| v.queued == u.queued + b && Quiet(b);
    assert w.queued + a + b == w.queued + (a + b);
    PushesQuietly(w, v, a + b);
  }

  lemma JoinOneQuiet(w: World, fd: int, name: string, key: Decimal.Option<string>)
    ensures QueuesQuietly(w, JoinOne(w, fd, name, key))
  {
    if !ChannelNameAllowed(name) {
      PushesQuietly(w, JoinOne(w, fd, name, key), [To(fd, ErrNoSuchChannel, [name])]);
    } else if name !in w.channels {
      PushesQuietly(w, JoinOne(w, fd, name, key), JoinNotices(w, fd, NewChan(fd, name)));
    } else {
      JoinExistingQuiet(w, fd, name, key);
    }
  }

  lemma JoinExistingQuiet(w: World, fd: int, name: string, key: Decimal.Option<string>)
    requires name in w.channels
    ensures QueuesQuietly(w, JoinExisting(w, fd, name, key))
  {
    var ch := w.channels[name];
    var refusal := Refusal(ch, fd, key);
    if Entry(ch, fd).member {
      QuietStays(w);
    } else {
      PushesQuietly(w, JoinExisting(w, fd, name, key),
        if refusal.Some? then [To(fd, refusal.value, [ch.name])] else JoinNotices(w, fd, Admit(ch, fd)));
    }
  }

  lemma {:induction false} JoinListQuiet(w: World, fd: int, channels: seq<string>, keys: seq<string>)
    ensures QueuesQuietly(w, JoinList(w, fd, channels, keys))
    decreases |channels|
  {
    if channels == [] {
      QuietStays(w);
    } else {
      var key := if keys == [] then Decimal.None else Decimal.Some(keys[0]);
      var next := JoinOne(w, fd, channels[0], key);
      JoinOneQuiet(w, fd, channels[0], key);
      JoinListQuiet(next, fd, channels[1..], if keys == [] then [] else keys[1..]);
      QuietTwice(w, next, JoinList(w, fd, channels, keys));
    }
  }

  lemma PartOneQuiet(w: World, fd: int, name: string, reason: string)
    ensures QueuesQuietly(w, PartOne(w, fd, name, reason))
  {
    var v := PartOne(w, fd, name, reason);
    PushesQuietly(w, v, v.queued[|w.queued|..]);
  }

  lemma {:induction false} PartListQuiet(w: World, fd: int, names: seq<string>, reason: string)
    ensures QueuesQuietly(w, PartList(w, fd, names, reason))
    decreases |names|
  {
    if names == [] {
      QuietStays(w);
    } else {
      var next := PartOne(w, fd, names[0], reason);
      PartOneQuiet(w, fd, names[0], reason);
      PartListQuiet(next, fd, names[1..], reason);
      QuietTwice(w, next, PartList(w, fd, names, reason));
    }
  }

  lemma KickOneQuiet(w: World, fd: int, name: string, nick: string, comment: string)
    requires name in w.channels
    ensures QueuesQuietly(w, KickOne(w, fd, name, nick, comment))
  {
    var v := KickOne(w, fd, name, nick, comment);
    PushesQuietly(w, v, v.queued[|w.queued|..]);
  }

  lemma {:induction false} KickListQuiet(w: World, fd: int, name: string, nicks: seq<string>, comment: string)
    requires name in w.channels
    ensures QueuesQuietly(w, KickList(w, fd, name, nicks, comment))
    decreases |nicks|
  {
    if nicks == [] {
      QuietStays(w);
    } else {
      var next := KickOne(w, fd, name, nicks[0], comment);
      KickOneQuiet(w, fd, name, nicks[0], comment);
      KickListQuiet(next, fd, name, nicks[1..], comment);
      QuietTwice(w, next, KickList(w, fd, name, nicks, comment));
    }
  }

  lemma LeaveAllQuiet(w: World, fd: int, comment: string)
    ensures QueuesQuietly(w, LeaveAll(w, fd, comment))
  {
    var v := LeaveAll(w, fd, comment);
    QuitExact(w, fd, comment);
    var more := v.queued[|w.queued|..];
    forall n | n in more ensures RplWelcomeBurst !in n.replies {
      var i :| 0 <= i < |more| && more[i] == n;
      assert n == v.queued[|w.queued| + i];
    }
    assert v.queued == w.queued + more;
    PushesQuietly(w, v, more);
  }

  lemma {:induction false} RepeatedQuiet(n: Notice, count: nat)
    requires RplWelcomeBurst !in n.replies
    ensures Quiet(Repeated(n, count))
  {
    if count > 0 {
      RepeatedQuiet(n, count - 1);
    }
  }

  lemma ModeWarningsQuiet(w: World, fd: int, ch: Chan, rest: string)
    ensures Quiet(ModeWarnings(w, fd, ch, rest))
  {
    RepeatedQuiet(To(fd, ErrUModeUnknownFlag, []), Unknown(ModeString(rest)));
    ApplyWarningsQuiet(w, fd, ch, Parse(rest));
  }

  lemma ApplyWarningsQuiet(w: World, fd: int, ch: Chan, r: Request)
    ensures Quiet(ApplyWarnings(w, fd, ch, r))
  {
    var client := ClientByNick(w.clients, Param(r, 'o'));
    OperatorQuiet(client, fd, ch, Get(r.status, 'o'), Param(r, 'o'));
    KeyAndLimitQuiet(fd, Get(r.status, 'k'), Param(r, 'k'), Get(r.status, 'l'), Param(r, 'l'));
  }

  lemma OperatorQuiet(client: int, fd: int, ch: Chan, s: Status, nick: string)
    ensures Quiet(OperatorWarnings(client, fd, ch, s, nick))
  {}

  lemma KeyAndLimitQuiet(fd: int, k: Status, key: string, l: Status, limit: string)
    ensures Quiet(KeyWarnings(fd, k, key)) && Quiet(LimitWarnings(fd, l, limit))
  {}

  lemma ModeQuiet(w: World, fd: int, param: string)
    ensures QueuesQuietly(w, ModeCommand(w, fd, param).world) && Quiet(ModeCommand(w, fd, param).reply)
  {
    var name, rest := ModeString(param), Parameters(param);
    QuietStays(w);
    if name in w.channels {
      var ch := w.channels[name];
      ModeWarningsQuiet(w, fd, ch, rest);
      PushesQuietly(w, ModeChange(w, fd, name, rest).world, ModeWarnings(w, fd, ch, rest));
      ModeReplyQuiet(ch, fd, rest, w.clients);
    }
  }

  lemma ModeReplyQuiet(ch: Chan, fd: int, rest: string, clients: map<int, Client>)
    ensures Quiet(ModeReply(ch, fd, rest, clients))
  {}

  lemma InviteQuiet(w: World, fd: int, param: string)
    ensures QueuesQuietly(w, InviteCommand(w, fd, param).world) && Quiet(InviteCommand(w, fd, param).reply)
  {
    QuietStays(w);
    var v := InviteCommand(w, fd, param).world;
    PushesQuietly(w, v, v.queued[|w.queued|..]);
  }

  lemma KickQuiet(w: World, fd: int, param: string)
    ensures QueuesQuietly(w, KickCommand(w, fd, param).world) && Quiet(KickCommand(w, fd, param).reply)
  {
    QuietStays(w);
    var name := FirstWord(param);
    if name in w.channels {
      var (targets, comment) := KickParts(AfterWord(param));
      KickListQuiet(w, fd, name, KickTargets(targets), comment);
    }
  }

  lemma {:induction false} GatherQuiet(w: World, fd: int, names: seq<string>, i: nat)
    requires i <= |names|
    ensures Quiet(Gather(w, fd, names, i).warnings)
  {
    if i > 0 {
      GatherQuiet(w, fd, names, i - 1);
    }
  }

  lemma PrivmsgQuiet(w: World, fd: int, param: string)
    ensures QueuesQuietly(w, PrivmsgCommand(w, fd, param).world) && Quiet(PrivmsgCommand(w, fd, param).reply)
  {
    QuietStays(w);
    var colon := Strings.Find(param, ':');
    if colon < |param| {
      var names := Ordering.Names(TargetNames(param[..colon]));
      GatherQuiet(w, fd, names, |names|);
      PushesQuietly(w, PrivmsgCommand(w, fd, param).world, GatherAll(w, fd, param[..colon]).warnings);
    }
  }

  /** Commands other than PASS, NICK and USER never queue a welcome. */
  lemma ChannelCommandsQuiet(w: World, fd: int, verb: Verb, param: string)
    requires fd in w.clients && !OpenToAll(verb)
    ensures QueuesQuietly(w, Execute(w, fd, verb, param).world) && Quiet(Execute(w, fd, verb, param).reply)
  {
    QuietStays(w);
    match verb
    case JOIN =>
      if param == "0" {
        var all := Strings.Join(ChannelsOf(w, fd), ",");
        PartListQuiet(w, fd, ChannelList(FirstWord(all)), AfterWord(all));
      } else {
        JoinListQuiet(w, fd, ChannelList(FirstWord(param)), if ' ' in param then KeyList(AfterWord(param)) else []);
      }
    case PART => PartListQuiet(w, fd, ChannelList(FirstWord(param)), AfterWord(param));
    case KICK => KickQuiet(w, fd, param);
    case INVITE => InviteQuiet(w, fd, param);
    case QUIT => LeaveAllQuiet(w, fd, "Quit: " + param);
    case MODE => ModeQuiet(w, fd, param);
    case PRIVMSG => PrivmsgQuiet(w, fd, param);
  }

  // ---- registration ----

  predicate IsRegistered(w: World, fd: int) {
    fd in w.clients && w.clients[fd].registered
  }

  /** The client becomes registered between the two states. */
  function Registers(w: World, v: World, fd: int): nat
  {
    if !IsRegistered(w, fd) && IsRegistered(v, fd) then 1 else 0
  }

  lemma {:induction false} QuietWelcomes(w: World, v: World, reply: seq<Notice>, fd: int)
    requires QueuesQuietly(w, v) && Quiet(reply)
    ensures Welcomes(Push(v, reply).queued, fd) == Welcomes(w.queued, fd)
  {
    var more :| v.queued == w.queued + more && Quiet(more);
    WelcomesConcat(w.queued, more, fd);
    WelcomesConcat(v.queued, reply, fd);
    QuietCounts(more, fd);
    QuietCounts(reply, fd);
  }

  lemma {:induction false} RegisterWelcomes(w: World, joiner: int, fd: int)
    requires joiner in w.clients
    ensures Welcomes(RegisterIfAble(w, joiner).queued, fd)
         == Welcomes(w.queued, fd) + Registers(w, RegisterIfAble(w, joiner), fd)
    ensures IsRegistered(w, fd) ==> IsRegistered(RegisterIfAble(w, joiner), fd)
  {
    var c := w.clients[joiner];
    var welcome := To(joiner, RplWelcomeBurst, [c.nick, c.host]);
    WelcomesConcat(w.queued, [welcome], fd);
    assert [welcome][1..] == [] && {joiner} == {fd} <==> joiner == fd;
    if joiner != fd {
      assert fd !in {joiner};
    }
  }

  lemma {:induction false} OpenCommandWelcomes(w: World, issuer: int, verb: Verb, param: string, fd: int)
    requires issuer in w.clients && OpenToAll(verb)
    ensures var r := Execute(w, issuer, verb, param);
            && Welcomes(Push(r.world, r.reply).queued, fd) == Welcomes(w.queued, fd) + Registers(w, r.world, fd)
            && (IsRegistered(w, fd) ==> IsRegistered(r.world, fd))
  {
    var r := Execute(w, issuer, verb, param);
    QuietStays(r.world);
    QuietWelcomes(r.world, r.world, r.reply, fd);
    var c := w.clients[issuer];
    if verb == NICK && r.reply == [] {
      RegisterWelcomes(Update(w, issuer, c.(nick := param)), issuer, fd);
    } else if verb == USER && r.reply == [] {
      var u := ReadUserParams(param).value;
      RegisterWelcomes(Update(w, issuer, c.(user := u.user, realname := u.realname, host := u.host)), issuer, fd);
    }
  }

  /** A command queues a welcome for a client exactly when the client becomes registered by it. */
  lemma {:induction false} CommandWelcomes(w: World, e: Event, fd: int)
    requires e.Command? && WorldOk(w)
    ensures Welcomes(Step(w, e).queued, fd) == Welcomes(w.queued, fd) + Registers(w, Step(w, e), fd)
    ensures IsRegistered(w, fd) ==> IsRegistered(Step(w, e), fd)
    ensures Step(w, e).clients.Keys == w.clients.Keys
  {
    if e.fd in w.clients {
      QuietStays(w);
      if !w.clients[e.fd].registered && !OpenToAll(e.verb) {
        QuietWelcomes(w, w, [To(e.fd, ErrNotRegistered, [])], fd);
      } else if OpenToAll(e.verb) {
        OpenCommandWelcomes(w, e.fd, e.verb, e.param, fd);
      } else {
        var r := Execute(w, e.fd, e.verb, e.param);
        ChannelCommandsQuiet(w, e.fd, e.verb, e.param);
        ChannelCommandsKeepClients(w, e.fd, e.verb, e.param);
        QuietWelcomes(w, r.world, r.reply, fd);
      }
    }
  }

  lemma {:induction false} HangUpWelcomes(w: World, leaver: int, fd: int)
    ensures Welcomes(QuitByServer(w, leaver).queued, fd) == Welcomes(w.queued, fd)
    ensures QuitByServer(w, leaver).clients == w.clients - {leaver}
  {
    var v := LeaveAll(w, leaver, "Quit: ");
    QuitExact(w, leaver, "Quit: ");
    LeaveAllQuiet(w, leaver, "Quit: ");
    QuietWelcomes(w, v, [], fd);
    assert v.queued + [] == v.queued;
  }

  // ---- runs ----

  function Connects(w: World, e: Event, fd: int): nat
  {
    if e == Connect(fd) && fd >= 0 && fd !in w.clients then 1 else 0
  }

  function Departs(w: World, e: Event, fd: int): nat
  {
    if e in {Disconnect(fd), HangUp(fd)} && IsRegistered(w, fd) then 1 else 0
  }

  function RegisteredNow(w: World, fd: int): nat
  {
    if IsRegistered(w, fd) then 1 else 0
  }

  function PresentNow(w: World, fd: int): nat
  {
    if fd in w.clients then 1 else 0
  }

  lemma {:induction false} StepWelcomes(w: World, e: Event, fd: int)
    requires WorldOk(w)
    ensures Welcomes(Step(w, e).queued, fd) + RegisteredNow(w, fd)
         == Welcomes(w.queued, fd) + RegisteredNow(Step(w, e), fd) + Departs(w, e, fd)
    ensures Departs(w, e, fd) + PresentNow(Step(w, e), fd) <= Connects(w, e, fd) + PresentNow(w, fd)
  {
    if e.Command? {
      CommandWelcomes(w, e, fd);
    } else if e.HangUp? {
      HangUpWelcomes(w, e.fd, fd);
    } else {
      ComingAndGoing(w, e, fd);
    }
  }

  lemma ComingAndGoing(w: World, e: Event, fd: int)
    requires e.Connect? || e.Disconnect?
    ensures Step(w, e).queued == w.queued
    ensures RegisteredNow(w, fd) == RegisteredNow(Step(w, e), fd) + Departs(w, e, fd)
    ensures Departs(w, e, fd) + PresentNow(Step(w, e), fd) <= Connects(w, e, fd) + PresentNow(w, fd)
  {}

  /** How often the descriptor was given to a new client among the first k events. */
  function Connections(w: World, events: seq<Event>, k: nat, fd: int): nat
    requires k <= |events|
  {
    if k == 0 then 0
    else Connections(w, events, k - 1, fd) + Connects(State(w, events, k - 1), events[k - 1], fd)
  }

  /** How often a registered client with the descriptor left among the first k events. */
  function Departures(w: World, events: seq<Event>, k: nat, fd: int): nat
    requires k <= |events|
  {
    if k == 0 then 0
    else Departures(w, events, k - 1, fd) + Departs(State(w, events, k - 1), events[k - 1], fd)
  }

  /** In every run one welcome has been queued for each client that was ever registered, present or
      gone, so never more than one per connection: one for a descriptor that was given out once. */
  lemma {:induction false} RunWelcomes(w: World, events: seq<Event>, k: nat, fd: int)
    requires k <= |events| && w == Start(w.socket, w.password)
    ensures Welcomes(State(w, events, k).queued, fd)
         == Departures(w, events, k, fd) + RegisteredNow(State(w, events, k), fd)
    ensures Departures(w, events, k, fd) + PresentNow(State(w, events, k), fd) <= Connections(w, events, k, fd)
  {
    if k > 0 {
      RunWelcomes(w, events, k - 1, fd);
      RunInvariant(w, events, k - 1);
      StepWelcomes(State(w, events, k - 1), events[k - 1], fd);
    }
  }
}
