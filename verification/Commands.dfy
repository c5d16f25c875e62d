/** JOIN, PART, KICK, INVITE, QUIT and MODE on a channel, as functions on the server's state. */
module Commands {
  import opened Strings
  import opened Ordering
  import opened Decimal
  import opened Channels
  import opened Lists
  import opened World
  import opened ModeSpec

  /** The new state, and the reply left in the message itself. */
  datatype Result = Result(world: World, reply: seq<Notice>)

  /** The parameter up to the first space, and what follows it. */
  function FirstWord(s: string): string
  {
    s[..Find(s, ' ')]
  }

  function AfterWord(s: string): string
  {
    var p := Find(s, ' ');
    if p == |s| then "" else s[p + 1..]
  }

  // ---- JOIN ----

  /** The nicknames of these members, operators marked. */
  function NamesOf(w: World, ch: Chan, fds: seq<int>): seq<string>
  {
    if fds == [] then []
    else
      var nick := NickOf(w, fds[0]);
      [if Entry(ch, fds[0]).chanop then "@" + nick else nick] + NamesOf(w, ch, fds[1..])
  }

  /** new_chan_member_sucess: the reply to the joining client and the warning to the other members. */
  function JoinNotices(w: World, fd: int, ch: Chan): seq<Notice>
  {
    var topic := ch.topic != "";
    var reply := Notice(fd, {fd},
      [RplJoin] + (if topic then [RplTopic, RplTopicWhoTime] else []) + [RplNamReply(|ch.clients|), RplEndOfNames],
      [ch.name] + (if topic then [ch.name, ch.topic, ch.name, ch.topicAuthor, ch.topicDate] else [])
        + ["=", ch.name] + NamesOf(w, ch, Fds(Members(ch))) + [ch.name]);
    var warning := Notice(fd, Members(ch) - {fd}, [RplJoin], [ch.name]);
    if |ch.clients| > 1 then [reply, warning] else [reply]
  }

  /** Why a client may not enter an existing channel. */
  function Refusal(ch: Chan, fd: int, key: Option<string>): Option<Reply>
  {
    if ch.limit != NO_LIMIT && |ch.clients| >= ch.limit then Some(ErrChannelIsFull)
    else if ch.key != "" && (key.None? || key.value != ch.key) then Some(ErrBadChannelKey)
    else if !Entry(ch, fd).invited && ch.inviteOnly then Some(ErrInviteOnlyChan)
    else None
  }

  function Admit(ch: Chan, fd: int): Chan
  {
    ch.(clients := ch.clients[fd := Bits(false, true, false)])
  }

  /** join_check_existing_chan */
  function JoinExisting(w: World, fd: int, name: string, key: Option<string>): World
    requires name in w.channels
  {
    var ch := w.channels[name];
    if Entry(ch, fd).member then w
    else
      var refusal := Refusal(ch, fd, key);
      if refusal.Some? then Push(w, [To(fd, refusal.value, [ch.name])])
      else
        var joined := Admit(ch, fd);
        Push(WithChannel(w, joined, name), JoinNotices(w, fd, joined))
  }

  /** One channel of a JOIN, with the key that stands at the same place of the key list. */
  function JoinOne(w: World, fd: int, name: string, key: Option<string>): World
  {
    if !ChannelNameAllowed(name) then Push(w, [To(fd, ErrNoSuchChannel, [name])])
    else if name !in w.channels then
      Push(WithChannel(w, NewChan(fd, name), name), JoinNotices(w, fd, NewChan(fd, name)))
    else JoinExisting(w, fd, name, key)
  }

  /** join_channel: the key list is consumed as the channels are gone through. */
  function JoinList(w: World, fd: int, channels: seq<string>, keys: seq<string>): World
    decreases |channels|
  {
    if channels == [] then w
    else
      JoinList(JoinOne(w, fd, channels[0], if keys == [] then None else Some(keys[0])), fd, channels[1..],
               if keys == [] then [] else keys[1..])
  }

  /** The channels a client has an entry in, in map order. */
  function ChannelsOf(w: World, fd: int): seq<string>
  {
    Names(set n | n in w.channels && fd in w.channels[n].clients)
  }

  function JoinCommand(w: World, fd: int, param: string): World
  {
    if param == "0" then
      var all := Join(ChannelsOf(w, fd), ",");
      if all == "" then w else PartCommand(w, fd, all)
    else
      JoinList(w, fd, ChannelList(FirstWord(param)), if ' ' in param then KeyList(AfterWord(param)) else [])
  }

  // ---- PART ----

  const KICK_DEFAULT_COMMENT := "No comment has been provided"

  function PartOne(w: World, fd: int, name: string, reason: string): World
  {
    if name !in w.channels then Push(w, [To(fd, ErrNoSuchChannel, [name])])
    else
      var ch := w.channels[name];
      if !Entry(ch, fd).member then Push(w, [To(fd, ErrNotOnChannel, [name])])
      else
        var r := DelClient(ch, fd);
        var left := if Members(r.chan) == {} then w.(channels := w.channels - {ch.name})
                    else WithChannel(w, r.chan, name);
        Push(left, PromotionNotices(r)
          + [Notice(fd, {fd} + Members(r.chan), [RplPart],
                    [ch.name, if reason == "" then KICK_DEFAULT_COMMENT else reason])])
  }

  function PartList(w: World, fd: int, channels: seq<string>, reason: string): World
    decreases |channels|
  {
    if channels == [] then w else PartList(PartOne(w, fd, channels[0], reason), fd, channels[1..], reason)
  }

  function PartCommand(w: World, fd: int, param: string): World
  {
    PartList(w, fd, ChannelList(FirstWord(param)), AfterWord(param))
  }

  // ---- KICK ----

  /** register_comment: the targets text and the comment. */
  function KickParts(rest: string): (string, string)
  {
    var p := Find(rest, ':');
    if p == |rest| then (rest, KICK_DEFAULT_COMMENT)
    else
      var targets := rest[..p];
      (if targets != "" && targets[|targets| - 1] == ' ' then targets[..|targets| - 1] else targets, rest[p + 1..])
  }

  /** What the comment is behind the first colon, and what the targets text is before it. */
  lemma KickPartsCover(rest: string)
    ensures var (targets, comment) := KickParts(rest);
            if ':' in rest then
              && ':' !in targets
              && (rest == targets + " :" + comment
                  || (rest == targets + ":" + comment && (targets == "" || targets[|targets| - 1] != ' ')))
            else targets == rest && comment == KICK_DEFAULT_COMMENT
  {
    if ':' in rest {
      FindCut(rest, ':');
      var before := rest[..Find(rest, ':')];
      if before != "" && before[|before| - 1] == ' ' {
        LastBack(before);
      }
    }
  }

  /** Targets, a space, a colon and a comment are read as they were written. */
  lemma KickPartsRoundTrip(targets: string, comment: string)
    requires ':' !in targets
    ensures KickParts(targets + " :" + comment) == (targets, comment)
    ensures KickParts(targets) == (targets, KICK_DEFAULT_COMMENT)
  {
    var before := targets + " ";
    assert targets + " :" + comment == before + [':'] + comment;
    FindAfter(before, ':', comment);
    assert before[..|before| - 1] == targets;
  }

  /** A KICK of several members with a comment is read back: the nicknames and the comment. */
  lemma {:induction false} KickReadsBack(nicks: seq<string>, comment: string)
    requires nicks != [] && forall n :: n in nicks ==> ',' !in n && ':' !in n
    ensures var (targets, said) := KickParts(Join(nicks, ", ") + " :" + comment);
            KickTargets(targets) == nicks && said == comment
  {
    JoinWithout(nicks, ", ", ':');
    KickPartsRoundTrip(Join(nicks, ", "), comment);
    KickTargetsOfJoin(nicks);
  }

  function KickOne(w: World, fd: int, name: string, nick: string, comment: string): World
    requires name in w.channels
  {
    var ch := w.channels[name];
    var target := ClientByNick(w.clients, nick);
    if !Entry(ch, target).member then Push(w, [To(fd, ErrUserNotInChannel, [nick, ch.name])])
    else
      var r := DelClient(ch, target);
      Push(WithChannel(w, r.chan, name),
           PromotionNotices(r) + [Notice(fd, {fd} + Members(ch), [RplKick], [ch.name, nick, comment])])
  }

  function KickList(w: World, fd: int, name: string, nicks: seq<string>, comment: string): World
    requires name in w.channels
    decreases |nicks|
  {
    if nicks == [] then w else KickList(KickOne(w, fd, name, nicks[0], comment), fd, name, nicks[1..], comment)
  }

  function KickCommand(w: World, fd: int, param: string): Result
  {
    var name := FirstWord(param);
    if ' ' !in param then Result(w, [To(fd, ErrNeedMoreParams, ["KICK"])])
    else if name !in w.channels then Result(w, [To(fd, ErrNoSuchChannel, [name])])
    else if fd !in w.channels[name].clients then Result(w, [To(fd, ErrNotOnChannel, [w.channels[name].name])])
    else if !w.channels[name].clients[fd].chanop then
      Result(w, [To(fd, ErrChanOPrivsNeeded, [w.channels[name].name])])
    else
      var (targets, comment) := KickParts(AfterWord(param));
      Result(KickList(w, fd, name, KickTargets(targets), comment), [])
  }

  // ---- INVITE ----

  /** Position of the last space of a text that has one. */
  function LastSpace(s: string): (i: nat)
    requires ' ' in s
    ensures i < |s| && s[i] == ' '
    ensures ' ' !in s[i + 1..]
  {
    if s[|s| - 1] == ' ' then |s| - 1 else LastSpace(s[..|s| - 1])
  }

  function Invited(ch: Chan, fd: int): Chan
  {
    ch.(clients := ch.clients[fd := Entry(ch, fd).(invited := true)])
  }

  function InviteCommand(w: World, fd: int, param: string): Result
  {
    if ' ' !in param then Result(w, [To(fd, ErrNeedMoreParams, ["INVITE"])])
    else
      var first, last := Find(param, ' '), LastSpace(param);
      var nick, name := param[..first], param[last + 1..];
      if exists i :: first <= i < last && param[i] != ' ' then Result(w, [To(fd, ErrTooManyParam, ["INVITE"])])
      else if name !in w.channels then Result(w, [To(fd, ErrNoSuchChannel, [name])])
      else if ClientByNick(w.clients, nick) == -1 then Result(w, [To(fd, ErrNoSuchNick, [nick])])
      else InviteClient(w, fd, name, nick, ClientByNick(w.clients, nick))
  }

  /** are_param_membership_valid and the invitation itself. */
  function InviteClient(w: World, fd: int, name: string, nick: string, client: int): Result
    requires name in w.channels
  {
    var ch := w.channels[name];
    if client in ch.clients then
      Result(w, [To(fd, if ch.clients[client].member then ErrUserOnChannel else RplInviting, [nick, ch.name])])
    else if fd !in ch.clients then Result(w, [To(fd, ErrNotOnChannel, [ch.name])])
    else
      Result(Push(WithChannel(w, Invited(ch, client), name), [Notice(fd, {client}, [RplInvite], [nick, ch.name])]),
             [To(fd, RplInviting, [nick, ch.name])])
  }

  // ---- QUIT ----

  const QUIT_MANUAL := "Manual disconnection through commands"

  /** A state and the members of the channels left so far. */
  datatype Leaving = Leaving(world: World, told: set<int>)

  function LeaveOne(l: Leaving, fd: int, name: string): Leaving
    requires name in l.world.channels
  {
    var ch := l.world.channels[name];
    if !Entry(ch, fd).member then l
    else
      var r := DelClient(ch, fd);
      Leaving(Push(WithChannel(l.world, r.chan, name), PromotionNotices(r)), l.told + Members(r.chan))
  }

  function LeaveEach(l: Leaving, fd: int, names: seq<string>): Leaving
    requires forall n :: n in names ==> n in l.world.channels
    decreases |names|
  {
    if names == [] then l
    else
      assert names[0] in names;
      LeaveEach(LeaveOne(l, fd, names[0]), fd, names[1..])
  }

  /** leave_all_channels: the notice goes out only when somebody is left to be told. */
  function LeaveAll(w: World, fd: int, comment: string): World
  {
    NamesEnumerate(w.channels.Keys);
    var l := LeaveEach(Leaving(w, {}), fd, Names(w.channels.Keys));
    if l.told == {} then l.world else Push(l.world, [Notice(fd, l.told, [RplQuit], [comment])])
  }

  function QuitCommand(w: World, fd: int, param: string): Result
  {
    Result(if fd in w.clients && w.clients[fd].registered then LeaveAll(w, fd, "Quit: " + param) else w,
           [Notice(w.socket, {fd}, [RplError], [QUIT_MANUAL])])
  }

  // ---- MODE on a channel ----

  function Repeated(n: Notice, count: nat): seq<Notice>
  {
    if count == 0 then [] else [n] + Repeated(n, count - 1)
  }

  /** A fourth token is complained about. */
  function TokenWarnings(fd: int, rest: string): seq<Notice>
  {
    if TooMany(Parameters(rest), 0) then [To(fd, ErrTooManyParam, ["MODE"])] else []
  }

  /** What the parser and the applier complain about, and the message to a new operator. */
  function ModeWarnings(w: World, fd: int, ch: Chan, rest: string): seq<Notice>
  {
    TokenWarnings(fd, rest)
    + Repeated(To(fd, ErrUModeUnknownFlag, []), Unknown(ModeString(rest)))
    + if Entry(ch, fd).chanop then ApplyWarnings(w, fd, ch, Parse(rest)) else []
  }

  function ApplyWarnings(w: World, fd: int, ch: Chan, r: Request): seq<Notice>
  {
    KeyWarnings(fd, Get(r.status, 'k'), Param(r, 'k'))
    + OperatorWarnings(ClientByNick(w.clients, Param(r, 'o')), fd, ch, Get(r.status, 'o'), Param(r, 'o'))
    + LimitWarnings(fd, Get(r.status, 'l'), Param(r, 'l'))
  }

  function KeyWarnings(fd: int, s: Status, param: string): seq<Notice>
  {
    if s != Unchanged && param == "" then [To(fd, ErrNeedMoreParams, ["MODE"])] else []
  }

  function OperatorWarnings(client: int, fd: int, ch: Chan, s: Status, nick: string): seq<Notice>
  {
    if s == Unchanged then []
    else if nick == "" then [To(fd, ErrNeedMoreParams, ["MODE"])]
    else if client !in ch.clients then [To(fd, ErrUserNotInChannel, [nick, ch.name])]
    else if s == Add && !ch.clients[client].chanop then [To(client, RplYoureChanop, [ch.name])]
    else []
  }

  function LimitWarnings(fd: int, s: Status, param: string): seq<Notice>
  {
    var n := ReadInt(param);
    if s == Add && (n.None? || n.value < 0) then [To(fd, ErrNeedMoreParams, ["MODE"])] else []
  }

  function Whom(clients: map<int, Client>): string -> int
  {
    nick => ClientByNick(clients, nick)
  }

  /** The channel after a change request: only an operator's request is applied. */
  function ModeAfter(ch: Chan, fd: int, rest: string, clients: map<int, Client>): Chan
  {
    if Entry(ch, fd).chanop then Apply(ch, Parse(rest), Whom(clients)).chan else ch
  }

  /** The announcement to everybody with an entry, or the refusal. */
  function ModeReply(ch: Chan, fd: int, rest: string, clients: map<int, Client>): seq<Notice>
  {
    if !Entry(ch, fd).chanop then [To(fd, ErrChanOPrivsNeeded, [ch.name])]
    else
      var a := Apply(ch, Parse(rest), Whom(clients));
      var announced := Print(a.status, Parse(rest));
      if announced == "" then []
      else [Notice(fd, {fd} + a.chan.clients.Keys, [RplChangeMode], [ch.name, announced])]
  }

  /** A change request, after the report and the ban list query. */
  function ModeChange(w: World, fd: int, name: string, rest: string): Result
    requires name in w.channels
  {
    var ch := w.channels[name];
    Result(Push(WithChannel(w, ModeAfter(ch, fd, rest, w.clients), name), ModeWarnings(w, fd, ch, rest)),
           ModeReply(ch, fd, rest, w.clients))
  }

  function ModeCommand(w: World, fd: int, param: string): Result
  {
    var name, rest := ModeString(param), Parameters(param);
    if name !in w.channels then
      Result(w,
        if ClientByNick(w.clients, name) == -1 then [To(fd, ErrNoSuchNick, [name])]
        else if ClientByNick(w.clients, name) != fd then [To(fd, ErrUsersDontMatch, [])]
        else [])
    else
      var ch := w.channels[name];
      if name == param then
        Result(w, [To(fd, RplChannelModeIs, [ch.name, Report(ch, Entry(ch, fd).chanop)])])
      else if rest == "b" then Result(w, [To(fd, RplEndOfBanList, [ch.name])])
      else if rest == "" || !IsSign(rest[0]) then Result(w, [To(fd, ErrModeBadFormat, [])])
      else ModeChange(w, fd, name, rest)
  }
}
