/** PASS, NICK and USER as the server runs them. */
module Registering {
  import opened Strings
  import opened Ordering
  import opened Decimal
  import opened Channels
  import W = World
  import opened Commands
  import opened Registration
  import opened Servers

  class Pass {
    const serv: Server

    constructor (serv: Server)
      ensures this.serv == serv
    {
      this.serv := serv;
    }

    method Execute(emitter: int, param: string) returns (reply: seq<Notice>)
      requires serv.Valid() && emitter in serv.clientList
      modifies serv.clientList[emitter]
      ensures serv.Valid()
      ensures Result(serv.View(), reply) == PassCommand(old(serv.View()), emitter, param)
    {
      var client := serv.clientList[emitter];
      assert serv.View().clients[emitter] == client.State();
      if client.isRegistered || client.isAuthenticated {
        return [Notice(serv.socket, {emitter}, [ErrAlreadyRegistered], [])];
      }
      if serv.password != param {
        return [Notice(serv.socket, {emitter}, [ErrPasswdMismatch], [])];
      }
      client.isAuthenticated := true;
      serv.AfterClientChange(emitter);
      return [];
    }
  }

  /** str_tolower */
  method StrToLower(str: string) returns (ret: string)
    ensures ret == Lower(str)
  {
    ret := "";
    var i := 0;
    while i < |str|
      invariant 0 <= i <= |str|
      invariant ret + Lower(str[i..]) == Lower(str)
    {
      assert str[i..][0] == str[i] && str[i..][1..] == str[i + 1..];
      Assoc(ret, [LowerChar(str[i])], Lower(str[i + 1..]));
      ret := ret + [LowerChar(str[i])];
      i := i + 1;
    }
    assert ret + Lower("") == ret;
  }

  class Nick {
    const serv: Server

    constructor (serv: Server)
      ensures this.serv == serv
    {
      this.serv := serv;
    }

    method IsNickUnique(nickname: string) returns (unique: bool)
      ensures unique <==> NickUnique(serv.Clients(), nickname)
    {
      var wanted := StrToLower(nickname);
      var order := Fds(serv.clientList.Keys);
      FdsEnumerate(serv.clientList.Keys);
      var i := 0;
      while i < |order|
        invariant 0 <= i <= |order|
        invariant forall j :: 0 <= j < i ==>
          order[j] in serv.clientList && Lower(serv.clientList[order[j]].nickname) != wanted
      {
        FdsMember(serv.clientList.Keys, i);
        var compare := StrToLower(serv.clientList[order[i]].nickname);
        if wanted == compare {
          assert order[i] in serv.Clients();
          return false;
        }
        i := i + 1;
      }
      forall fd | fd in serv.Clients() ensures Lower(serv.Clients()[fd].nick) != Lower(nickname) {
        assert fd in order;
      }
      return true;
    }

    /** Why the nickname is refused, if it is. */
    method Refusal(emitter: int, nickname: string) returns (reply: seq<Notice>)
      requires emitter in serv.clientList
      ensures reply ==
        if !serv.clientList[emitter].isAuthenticated then [Notice(serv.socket, {emitter}, [ErrNotRegistered], [])]
        else if nickname == "" then [Notice(serv.socket, {emitter}, [ErrNoNicknameGiven], [])]
        else if !NicknameAllowed(nickname) then [Notice(serv.socket, {emitter}, [ErrErroneousNickname], [nickname])]
        else if !NickUnique(serv.Clients(), nickname)
        then [Notice(serv.socket, {emitter}, [ErrNicknameInUse], [nickname])]
        else []
    {
      if !serv.clientList[emitter].isAuthenticated {
        return [Notice(serv.socket, {emitter}, [ErrNotRegistered], [])];
      }
      if nickname == "" {
        return [Notice(serv.socket, {emitter}, [ErrNoNicknameGiven], [])];
      }
      if !NicknameAllowed(nickname) {
        return [Notice(serv.socket, {emitter}, [ErrErroneousNickname], [nickname])];
      }
      var unique := IsNickUnique(nickname);
      return if unique then [] else [Notice(serv.socket, {emitter}, [ErrNicknameInUse], [nickname])];
    }

    method Execute(emitter: int, nickname: string) returns (reply: seq<Notice>)
      requires serv.Valid() && emitter in serv.clientList
      modifies serv`msgs, serv.clientList[emitter]
      ensures serv.Valid()
      ensures Result(serv.View(), reply) == NickCommand(old(serv.View()), emitter, nickname)
    {
      assert serv.View().clients[emitter] == serv.clientList[emitter].State();
      reply := Refusal(emitter, nickname);
      if reply == [] {
        serv.clientList[emitter].nickname := nickname;
        serv.AfterClientChange(emitter);
        serv.RegisterClientIfAble(emitter);
      }
    }
  }

  datatype Tail = Tail(host: string, realname: string)

  /** What is read of USER's parameters from the host on. */
  function ReadTail(third: string): Option<Tail>
  {
    var last := SkipBlanks(third[FindIn(third, HOST_END)..]);
    if last == "" || last[0] != ':' || last[1..] == "" then None
    else Some(Tail(third[..FindIn(third, HOST_END)], last[1..]))
  }

  /** USER's parameters from the host on, given what follows the user name. */
  function ThirdOf(afterUser: string): string
  {
    var second := SkipBlanks(afterUser);
    SkipBlanks(second[FindIn(second, BLANKS)..])
  }

  lemma {:induction false} UserParamsByParts(params: string)
    ensures var p := FindIn(params, BLANKS);
      var tail := ReadTail(ThirdOf(params[p..]));
      ReadUserParams(params)
      == if tail.None? || params[..p] == "" then None
         else Some(UserParams(params[..p], tail.value.host, tail.value.realname))
    ensures ReadTail("") == None
  {}

  class User {
    const serv: Server
    var username: string
    var host: string
    var realname: string

    constructor (serv: Server)
      ensures this.serv == serv
    {
      this.serv := serv;
      username, host, realname := "", "", "";
    }

    /** The host and the real name, from the cursor on. */
    method ReadHostAndRealname(params: string, start: nat) returns (ok: bool)
      requires start <= |params|
      modifies this`host, this`realname
      ensures ReadTail(params[start..]) == if ok then Some(Tail(host, realname)) else None
    {
      var cursor := start + FindIn(params[start..], HOST_END);
      assert params[start..][FindIn(params[start..], HOST_END)..] == params[cursor..];
      host := params[start..][..FindIn(params[start..], HOST_END)];
      if cursor == |params| {
        return false;
      }
      cursor := NotBlankFrom(params, cursor);
      if cursor == |params| || params[cursor] != ':' {
        return false;
      }
      assert params[cursor..][1..] == params[cursor + 1..];
      realname := params[cursor + 1..];
      return realname != "";
    }

    /** The second word is passed over, with the blanks around it; the length when nothing follows. */
    method SkipSecond(params: string, start: nat) returns (cursor: nat)
      requires start <= |params|
      ensures cursor <= |params| && params[cursor..] == ThirdOf(params[start..])
    {
      cursor := NotBlankFrom(params, start);
      ghost var second := params[cursor..];
      assert second[FindIn(second, BLANKS)..] == params[cursor + FindIn(second, BLANKS)..];
      cursor := cursor + FindIn(params[cursor..], BLANKS);
      cursor := NotBlankFrom(params, cursor);
    }

    /** get_correct_user_params: a cursor moves over the parameters. */
    method GetCorrectUserParams(params: string) returns (ok: bool)
      modifies this
      ensures ReadUserParams(params) == if ok then Some(UserParams(username, host, realname)) else None
    {
      var cursor := FindIn(params, BLANKS);
      username := params[..cursor];
      UserParamsByParts(params);
      cursor := SkipSecond(params, cursor);
      if cursor == |params| {
        return false;
      }
      ok := ReadHostAndRealname(params, cursor);
      ok := ok && username != "";
    }

    method Execute(emitter: int, param: string) returns (reply: seq<Notice>)
      requires serv.Valid() && emitter in serv.clientList
      modifies this, serv`msgs, serv.clientList[emitter]
      ensures serv.Valid()
      ensures Result(serv.View(), reply) == UserCommand(old(serv.View()), emitter, param)
    {
      var client := serv.clientList[emitter];
      assert serv.View().clients[emitter] == client.State();
      if !client.isAuthenticated {
        return [Notice(serv.socket, {emitter}, [ErrNotRegistered], [])];
      }
      if client.realname != "" {
        return [Notice(serv.socket, {emitter}, [ErrAlreadyRegistered], [])];
      }
      var ok := GetCorrectUserParams(param);
      if !ok {
        return [Notice(serv.socket, {emitter}, [ErrNeedMoreParams], ["USER"])];
      }
      client.username, client.realname, client.host := username, realname, host;
      serv.AfterClientChange(emitter);
      serv.RegisterClientIfAble(emitter);
      return [];
    }
  }

  /** find_first_not_of for blanks, from a position on; the length when there is nothing else. */
  function NotBlankFrom(s: string, from: nat): (i: nat)
    requires from <= |s|
    ensures from <= i <= |s| && s[i..] == SkipBlanks(s[from..])
    decreases |s| - from
  {
    if from < |s| && s[from] in BLANKS then
      assert s[from..][1..] == s[from + 1..];
      NotBlankFrom(s, from + 1)
    else from
  }
}
