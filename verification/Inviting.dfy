/** INVITE as the server runs it. */
module Inviting {
  import opened Strings
  import opened Channels
  import W = World
  import opened Commands
  import opened Servers

  class Invite {
    const serv: Server
    var channel: Channel?
    var client: int

    constructor (serv: Server)
      ensures this.serv == serv
    {
      this.serv := serv;
      channel, client := null, -1;
    }

    /** do_param_exist_and_set_if_so: sets channel and client, or gives an error reply. */
    method DoParamExistAndSetIfSo(emitter: int, param: string) returns (reply: seq<Notice>)
      requires serv.Valid() && ' ' in param
      modifies this
      ensures var nick, name := param[..Find(param, ' ')], param[LastSpace(param) + 1..];
              var found := W.ClientByNick(serv.Clients(), nick);
        reply == if exists i :: Find(param, ' ') <= i < LastSpace(param) && param[i] != ' '
                 then [To(emitter, ErrTooManyParam, ["INVITE"])]
                 else if name !in serv.channelList then [To(emitter, ErrNoSuchChannel, [name])]
                 else if found == -1 then [To(emitter, ErrNoSuchNick, [nick])]
                 else []
      ensures reply == [] ==>
        && channel != null && channel.name == param[LastSpace(param) + 1..]
        && channel.name in serv.channelList && channel == serv.channelList[channel.name]
        && client == W.ClientByNick(serv.Clients(), param[..Find(param, ' ')]) && client != -1
    {
      var first, last := Find(param, ' '), LastSpace(param);
      var nick, name := param[..first], param[last + 1..];
      var i := first;
      while i < last
        invariant first <= i <= |param| && forall j :: first <= j < i && j < last ==> param[j] == ' '
      {
        if param[i] != ' ' {
          return [To(emitter, ErrTooManyParam, ["INVITE"])];
        }
        i := i + 1;
      }
      var existing := serv.GetChannelByName(name);
      if existing == null {
        return [To(emitter, ErrNoSuchChannel, [name])];
      }
      var found := serv.GetClientByNickname(nick);
      if found == -1 {
        return [To(emitter, ErrNoSuchNick, [nick])];
      }
      channel, client := existing, found;
      return [];
    }

    /** are_param_membership_valid: the reply the message is left with. */
    method AreParamMembershipValid(emitter: int, nick: string) returns (valid: bool, reply: seq<Notice>)
      requires channel != null
      ensures valid <==> client !in channel.clients && emitter in channel.clients
      ensures reply ==
        if client in channel.clients
        then [To(emitter, if channel.clients[client].member then ErrUserOnChannel else RplInviting,
                 [nick, channel.name])]
        else if emitter !in channel.clients then [To(emitter, ErrNotOnChannel, [channel.name])]
        else [To(emitter, RplInviting, [nick, channel.name])]
    {
      reply := [To(emitter, RplInviting, [nick, channel.name])];
      if client in channel.clients {
        if channel.clients[client].member {
          reply := [To(emitter, ErrUserOnChannel, [nick, channel.name])];
        }
        return false, reply;
      }
      if emitter !in channel.clients {
        return false, [To(emitter, ErrNotOnChannel, [channel.name])];
      }
      return true, reply;
    }

    /** The end of execute: the invitation itself. */
    method GiveInvitation(emitter: int, nick: string) returns (reply: seq<Notice>)
      requires serv.Valid() && channel != null
      requires channel.name in serv.channelList && channel == serv.channelList[channel.name]
      modifies serv`msgs, channel`clients
      ensures serv.Valid()
      ensures Result(serv.View(), reply) == InviteClient(old(serv.View()), emitter, channel.name, nick, client)
    {
      assert serv.View().channels[channel.name] == channel.State();
      var valid;
      valid, reply := AreParamMembershipValid(emitter, nick);
      if !valid {
        return;
      }
      serv.SetEntry(channel.name, channel, client, Bits(true, false, false));
      serv.PushBack(Notice(emitter, {client}, [RplInvite], [nick, channel.name]));
    }

    method Execute(emitter: int, param: string) returns (reply: seq<Notice>)
      requires serv.Valid()
      modifies this, serv`msgs, serv.channelList.Values
      ensures serv.Valid()
      ensures Result(serv.View(), reply) == InviteCommand(old(serv.View()), emitter, param)
    {
      if ' ' !in param {
        return [To(emitter, ErrNeedMoreParams, ["INVITE"])];
      }
      reply := DoParamExistAndSetIfSo(emitter, param);
      assert serv.View().channels.Keys == serv.channelList.Keys;
      if reply == [] {
        reply := GiveInvitation(emitter, param[..Find(param, ' ')]);
      }
    }
  }
}
