/** PASS, NICK and USER: authentication, nickname identity and registration. */
module Registration {
  import opened Strings
  import opened Ordering
  import opened Decimal
  import opened Channels
  import opened World
  import opened Commands

  function Update(w: World, fd: int, c: Client): World
  {
    w.(clients := w.clients[fd := c])
  }

  /** setup_error: the server itself answers. */
  function Refuse(w: World, fd: int, reply: Reply, values: seq<string>): Result
  {
    Result(w, [Notice(w.socket, {fd}, [reply], values)])
  }

  /** register_client_if_able */
  function RegisterIfAble(w: World, fd: int): World
    requires fd in w.clients
  {
    var c := w.clients[fd];
    if c.registered || c.nick == "" || (c.realname == "" && c.user == "") then w
    else Push(Update(w, fd, c.(registered := true)), [To(fd, RplWelcomeBurst, [c.nick, c.host])])
  }

  function PassCommand(w: World, fd: int, param: string): Result
    requires fd in w.clients
  {
    var c := w.clients[fd];
    if c.registered || c.authenticated then Refuse(w, fd, ErrAlreadyRegistered, [])
    else if w.password != param then Refuse(w, fd, ErrPasswdMismatch, [])
    else Result(Update(w, fd, c.(authenticated := true)), [])
  }

  // ---- NICK ----

  /** is_nickname_allowed */
  predicate NicknameAllowed(nick: string) {
    && 0 < |nick| <= 9
    && !IsDigit(nick[0]) && nick[0] != '-'
    && forall c :: c in nick ==> GoodCharacter(c)
  }

  function LowerChar(c: char): char
  {
    if 'A' <= c <= 'Z' then (c as int - 'A' as int + 'a' as int) as char else c
  }

  /** str_tolower */
  function Lower(s: string): string
  {
    if s == "" then "" else [LowerChar(s[0])] + Lower(s[1..])
  }

  /** is_nick_unique: no client, the asking one included, has the nickname in any case. */
  predicate NickUnique(clients: map<int, Client>, nick: string) {
    forall fd :: fd in clients ==> Lower(clients[fd].nick) != Lower(nick)
  }

  function NickCommand(w: World, fd: int, nick: string): Result
    requires fd in w.clients
  {
    if !w.clients[fd].authenticated then Refuse(w, fd, ErrNotRegistered, [])
    else if nick == "" then Refuse(w, fd, ErrNoNicknameGiven, [])
    else if !NicknameAllowed(nick) then Refuse(w, fd, ErrErroneousNickname, [nick])
    else if !NickUnique(w.clients, nick) then Refuse(w, fd, ErrNicknameInUse, [nick])
    else Result(RegisterIfAble(Update(w, fd, w.clients[fd].(nick := nick)), fd), [])
  }

  // ---- USER ----

  datatype UserParams = UserParams(user: string, host: string, realname: string)

  const HOST_END: set<char> := {':', ' ', '\t'}

  /** The text from its first character that is no blank. */
  function SkipBlanks(s: string): string
  {
    if s != "" && s[0] in BLANKS then SkipBlanks(s[1..]) else s
  }

  /** get_correct_user_params: user name, a second word, host, then a colon and the real name. */
  function ReadUserParams(params: string): Option<UserParams>
  {
    var p := FindIn(params, BLANKS);
    var second := SkipBlanks(params[p..]);
    var third := SkipBlanks(second[FindIn(second, BLANKS)..]);
    var host := third[..FindIn(third, HOST_END)];
    var last := SkipBlanks(third[FindIn(third, HOST_END)..]);
    if last == "" || last[0] != ':' || params[..p] == "" || last[1..] == "" then None
    else Some(UserParams(params[..p], host, last[1..]))
  }

  function UserCommand(w: World, fd: int, param: string): Result
    requires fd in w.clients
  {
    var c := w.clients[fd];
    var u := ReadUserParams(param);
    if !c.authenticated then Refuse(w, fd, ErrNotRegistered, [])
    else if c.realname != "" then Refuse(w, fd, ErrAlreadyRegistered, [])
    else if u.None? then Refuse(w, fd, ErrNeedMoreParams, ["USER"])
    else
      Result(RegisterIfAble(
        Update(w, fd, c.(user := u.value.user, realname := u.value.realname, host := u.value.host)), fd), [])
  }

  // ---- what the three commands do ----

  /** PASS authenticates a client that is neither authenticated nor registered exactly when it gives the
      server's password; in every other case nothing changes and the client is told why. */
  lemma PassExact(w: World, fd: int, param: string)
    requires fd in w.clients
    ensures var c, r := w.clients[fd], PassCommand(w, fd, param);
            if c.registered || c.authenticated then
              r == Result(w, [Notice(w.socket, {fd}, [ErrAlreadyRegistered], [])])
            else if param == w.password then
              r == Result(w.(clients := w.clients[fd := c.(authenticated := true)]), [])
            else r == Result(w, [Notice(w.socket, {fd}, [ErrPasswdMismatch], [])])
  {}

  /** What NICK and USER leave of the other parts of the state. */
  ghost predicate OnlyClient(w: World, v: World, fd: int, c: Client) {
    && v.clients == w.clients[fd := c]
    && v.channels == w.channels && v.socket == w.socket && v.password == w.password
    && w.queued <= v.queued
  }

  /** NICK changes the nickname of an authenticated client, and registers it if it has given its real name, exactly
      when the nickname is legal and nobody's in any case; otherwise nothing changes, and the client is
      told the first reason. */
  lemma NickStores(w: World, fd: int, nick: string)
    requires fd in w.clients
    ensures var c, r := w.clients[fd], NickCommand(w, fd, nick);
            if c.authenticated && NicknameAllowed(nick) && NickUnique(w.clients, nick) then
              && r.reply == []
              && OnlyClient(w, r.world, fd,
                            c.(nick := nick, registered := c.registered || c.realname != "" || c.user != ""))
            else
              r == Result(w, [if !c.authenticated then Notice(w.socket, {fd}, [ErrNotRegistered], [])
                              else if nick == "" then Notice(w.socket, {fd}, [ErrNoNicknameGiven], [])
                              else if !NicknameAllowed(nick) then Notice(w.socket, {fd}, [ErrErroneousNickname], [nick])
                              else Notice(w.socket, {fd}, [ErrNicknameInUse], [nick])])
  {}

  /** The limits of a legal nickname. */
  lemma NicknameLimits()
    ensures NicknameAllowed("abcdefgh9") && !NicknameAllowed("abcdefghi9") && !NicknameAllowed("")
    ensures NicknameAllowed("a-") && !NicknameAllowed("-a") && !NicknameAllowed("9a")
    ensures !NicknameAllowed("a b") && !NicknameAllowed("#a") && !NicknameAllowed("a<") && NicknameAllowed("[a]")
  {
    assert ' ' in "a b" && '<' in "a<" && '#' in "#a";
  }

  /** USER stores user name, host and real name of an authenticated client that has given no real name yet, and
      registers it if it has a nickname; otherwise nothing changes, and the client is told why. */
  lemma UserStores(w: World, fd: int, param: string)
    requires fd in w.clients
    ensures var c, r, u := w.clients[fd], UserCommand(w, fd, param), ReadUserParams(param);
            if c.authenticated && c.realname == "" && u.Some? then
              && r.reply == []
              && OnlyClient(w, r.world, fd,
                            Client(c.nick, u.value.user, u.value.realname, u.value.host, true,
                                   c.registered || c.nick != ""))
            else
              r == Result(w, [if !c.authenticated then Notice(w.socket, {fd}, [ErrNotRegistered], [])
                              else if c.realname != "" then Notice(w.socket, {fd}, [ErrAlreadyRegistered], [])
                              else Notice(w.socket, {fd}, [ErrNeedMoreParams], ["USER"])])
  {
    var u := ReadUserParams(param);
    if u.Some? {
      assert u.value.user != "" && u.value.realname != "";
    }
  }

  // ---- what every run keeps ----

  /** A client is registered exactly when it has passed PASS, NICK and USER. */
  ghost predicate ClientOk(c: Client) {
    && (c.registered <==> c.nick != "" && c.realname != "")
    && (c.user != "" <==> c.realname != "")
    && (c.nick != "" ==> NicknameAllowed(c.nick) && c.authenticated)
    && (c.realname != "" ==> c.authenticated)
  }

  /** Nicknames that are set differ by more than case. */
  ghost predicate NicksDiffer(clients: map<int, Client>) {
    forall a, b :: a in clients && b in clients && a != b && clients[a].nick != ""
      ==> Lower(clients[a].nick) != Lower(clients[b].nick)
  }

  ghost predicate ClientsOk(clients: map<int, Client>) {
    (forall fd :: fd in clients ==> ClientOk(clients[fd]) && fd >= 0) && NicksDiffer(clients)
  }

  lemma RegisterKeeps(w: World, fd: int)
    requires fd in w.clients && NicksDiffer(w.clients) && fd >= 0
    requires forall x :: x in w.clients && x != fd ==> ClientOk(w.clients[x]) && x >= 0
    requires ClientOk(w.clients[fd].(registered := w.clients[fd].nick != "" && w.clients[fd].realname != ""))
    requires w.clients[fd].registered ==> w.clients[fd].nick != "" && w.clients[fd].realname != ""
    ensures ClientsOk(RegisterIfAble(w, fd).clients)
  {}

  lemma PassKeeps(w: World, fd: int, param: string)
    requires fd in w.clients && ClientsOk(w.clients)
    ensures ClientsOk(PassCommand(w, fd, param).world.clients)
  {}

  lemma {:induction false} LowerLength(s: string)
    ensures |Lower(s)| == |s|
  {
    if s != "" {
      LowerLength(s[1..]);
    }
  }

  /** Case folding turns the letters A to Z into a to z and leaves every other character. */
  lemma {:induction false} LowerAt(s: string, i: nat)
    requires i < |s|
    ensures |Lower(s)| == |s|
    ensures 'A' <= s[i] <= 'Z' ==> Lower(s)[i] as int - 'a' as int == s[i] as int - 'A' as int
    ensures !('A' <= s[i] <= 'Z') ==> Lower(s)[i] == s[i]
  {
    LowerLength(s);
    if i > 0 {
      LowerAt(s[1..], i - 1);
    }
  }

  lemma NickKeeps(w: World, fd: int, nick: string)
    requires fd in w.clients && ClientsOk(w.clients)
    ensures ClientsOk(NickCommand(w, fd, nick).world.clients)
  {
    if w.clients[fd].authenticated && NicknameAllowed(nick) && NickUnique(w.clients, nick) {
      var named := Update(w, fd, w.clients[fd].(nick := nick));
      LowerLength(nick);
      forall x | x in w.clients ensures |Lower(w.clients[x].nick)| == |w.clients[x].nick| {
        LowerLength(w.clients[x].nick);
      }
      RegisterKeeps(named, fd);
    }
  }

  lemma UserKeeps(w: World, fd: int, param: string)
    requires fd in w.clients && ClientsOk(w.clients)
    ensures ClientsOk(UserCommand(w, fd, param).world.clients)
  {
    var c, u := w.clients[fd], ReadUserParams(param);
    if c.authenticated && c.realname == "" && u.Some? {
      var filled := Update(w, fd, c.(user := u.value.user, realname := u.value.realname, host := u.value.host));
      RegisterKeeps(filled, fd);
    }
  }

  // ---- identity ----

  /** Nickname lookup is the inverse of the nickname map on the nicknames that are set. */
  lemma LookupInverse(clients: map<int, Client>, fd: int)
    requires ClientsOk(clients) && fd in clients && clients[fd].nick != ""
    ensures ClientByNick(clients, clients[fd].nick) == fd
  {
    var found := set x | x in clients && clients[x].nick == clients[fd].nick;
    assert fd in found;
    var least := Least(found, FdLess);
    assert clients[least].nick == clients[fd].nick;
  }

  lemma LookupFinds(clients: map<int, Client>, nick: string)
    requires ClientsOk(clients)
    ensures ClientByNick(clients, nick) != -1 <==> exists fd :: fd in clients && clients[fd].nick == nick
    ensures ClientByNick(clients, nick) != -1 ==>
      ClientByNick(clients, nick) in clients && clients[ClientByNick(clients, nick)].nick == nick
  {
    var found := set x | x in clients && clients[x].nick == nick;
    assert forall fd :: fd in clients && clients[fd].nick == nick ==> fd in found;
    if found != {} {
      assert Least(found, FdLess) in found;
    }
  }

  lemma NicknamesAreNoChannels(name: string)
    requires NicknameAllowed(name)
    ensures !ChannelNameAllowed(name)
  {
    assert name[0] in name;
  }

  /** No string names both a channel and a client. */
  lemma NamesAreApart(clients: map<int, Client>, name: string)
    requires ClientsOk(clients) && ChannelNameAllowed(name)
    ensures ClientByNick(clients, name) == -1
  {
    LookupFinds(clients, name);
    forall fd | fd in clients ensures clients[fd].nick != name {
      if clients[fd].nick != "" {
        NicknamesAreNoChannels(clients[fd].nick);
      }
    }
  }

  /** A nickname that is taken in any case is refused, and a free legal one is accepted. */
  lemma NickExact(w: World, fd: int, nick: string)
    requires fd in w.clients && ClientsOk(w.clients) && w.clients[fd].authenticated
    ensures NickCommand(w, fd, nick).reply == [] <==> NicknameAllowed(nick) && NickUnique(w.clients, nick)
    ensures NickCommand(w, fd, nick).reply == [] ==>
            ClientByNick(NickCommand(w, fd, nick).world.clients, nick) == fd
    ensures NickCommand(w, fd, nick).reply != [] ==> NickCommand(w, fd, nick).world == w
  {
    NickKeeps(w, fd, nick);
    if NickCommand(w, fd, nick).reply == [] {
      LookupInverse(NickCommand(w, fd, nick).world.clients, fd);
    }
  }

  lemma {:induction false} SkipSpace(s: string)
    requires s != "" && s[0] !in BLANKS
    ensures SkipBlanks(" " + s) == s
  {
    assert (" " + s)[1..] == s;
  }

  lemma FirstStays(a: string, b: string)
    requires a != ""
    ensures a + b != "" && (a + b)[0] == a[0] && a[0] in a
  {}

  /** A well-formed USER is read back field by field. */
  lemma UserParamsRoundTrip(user: string, mode: string, host: string, realname: string)
    requires user != "" && mode != "" && host != "" && realname != ""
    requires forall c :: c in user ==> c !in BLANKS
    requires forall c :: c in mode ==> c !in BLANKS
    requires forall c :: c in host ==> c !in HOST_END
    ensures ReadUserParams(user + (" " + (mode + (" " + (host + (" " + (":" + realname)))))))
         == Some(UserParams(user, host, realname))
  {
    var last := ":" + realname;
    var third := host + (" " + last);
    var second := mode + (" " + third);
    FirstStays(host, " " + last);
    FirstStays(mode, " " + third);
    Cut(user, " " + second, BLANKS);
    Cut(mode, " " + third, BLANKS);
    Cut(host, " " + last, HOST_END);
    SkipSpace(second);
    SkipSpace(third);
    SkipSpace(last);
    assert last[1..] == realname;
  }

  lemma {:induction false} Cut(a: string, b: string, cs: set<char>)
    requires (forall c :: c in a ==> c !in cs) && b != "" && b[0] in cs
    ensures FindIn(a + b, cs) == |a| && (a + b)[..|a|] == a && (a + b)[|a|..] == b
  {
    FindInAfter(a, b, cs);
  }

  lemma {:induction false} BlanksSkipped(s: string)
    ensures exists gap :: s == gap + SkipBlanks(s) && forall c :: c in gap ==> c in BLANKS
    ensures SkipBlanks(s) != "" ==> SkipBlanks(s)[0] !in BLANKS
  {
    if s != "" && s[0] in BLANKS {
      BlanksSkipped(s[1..]);
      var gap :| s[1..] == gap + SkipBlanks(s[1..]) && forall c :: c in gap ==> c in BLANKS;
      assert s == ([s[0]] + gap) + SkipBlanks(s);
    } else {
      assert s == "" + SkipBlanks(s);
    }
  }

  ghost predicate Blank(s: string) {
    forall c :: c in s ==> c in BLANKS
  }

  ghost predicate FreeOf(s: string, cs: set<char>) {
    forall c :: c in s ==> c !in cs
  }

  lemma {:induction false} GapOf(s: string) returns (gap: string)
    ensures s == gap + SkipBlanks(s) && Blank(gap)
  {
    BlanksSkipped(s);
    gap :| s == gap + SkipBlanks(s) && forall c :: c in gap ==> c in BLANKS;
  }

  lemma {:induction false} HeadOf(s: string, cs: set<char>)
    ensures FreeOf(s[..FindIn(s, cs)], cs) && s == s[..FindIn(s, cs)] + s[FindIn(s, cs)..]
  {
    var p := FindIn(s, cs);
    forall c | c in s[..p] ensures c !in cs {
      var i :| 0 <= i < p && s[..p][i] == c;
      assert s[i] == c;
    }
  }

  /** Only a well-formed USER is read: user name, a word, host and, behind a colon, the real name, with blanks
      in between, and both names not empty. */
  lemma {:induction false} UserParamsCover(params: string)
    returns (gap1: string, mode: string, gap2: string, gap3: string)
    requires ReadUserParams(params).Some?
    ensures var u := ReadUserParams(params).value;
            && params == u.user + (gap1 + (mode + (gap2 + (u.host + (gap3 + (":" + u.realname))))))
            && u.user != "" && u.realname != ""
            && FreeOf(u.user, BLANKS) && FreeOf(mode, BLANKS) && FreeOf(u.host, HOST_END)
            && Blank(gap1) && Blank(gap2) && Blank(gap3)
  {
    var rest := params[FindIn(params, BLANKS)..];
    var second := SkipBlanks(rest);
    var behind := second[FindIn(second, BLANKS)..];
    var third := SkipBlanks(behind);
    var end := third[FindIn(third, HOST_END)..];
    HeadOf(params, BLANKS);
    gap1 := GapOf(rest);
    HeadOf(second, BLANKS);
    mode := second[..FindIn(second, BLANKS)];
    gap2 := GapOf(behind);
    HeadOf(third, HOST_END);
    gap3 := GapOf(end);
    var last := SkipBlanks(end);
    assert last == ":" + last[1..];
  }
}
