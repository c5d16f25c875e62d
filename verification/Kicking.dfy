/** KICK as the server runs it. */
module Kicking {
  import opened Strings
  import opened Ordering
  import opened Channels
  import opened Lists
  import W = World
  import opened Commands
  import opened Servers
  import opened Parting

  class Kick {
    const serv: Server
    var comment: string

    constructor (serv: Server)
      ensures this.serv == serv
    {
      this.serv := serv;
      comment := "";
    }

    /** return_kick_target: the targets, cut at each comma followed by a space. */
    method ReturnKickTarget(text: string) returns (targets: seq<string>)
      ensures targets == KickTargets(text)
    {
      targets := [];
      if ',' !in text {
        NoCommaSpace(text);
        return [text];
      }
      var left := text;
      while FindCommaSpace(left) < |left|
        invariant targets + KickTargets(left) == KickTargets(text)
        decreases |left|
      {
        var p := FindCommaSpace(left);
        Assoc(targets, [left[..p]], KickTargets(left[p + 2..]));
        targets := targets + [left[..p]];
        left := left[p + 2..];
      }
      targets := targets + [left];
    }

    /** is_issuer_membership_valid: an error reply, or none. */
    method IsIssuerMembershipValid(emitter: int, channel: Channel) returns (reply: seq<Notice>)
      ensures reply ==
        if emitter !in channel.clients then [To(emitter, ErrNotOnChannel, [channel.name])]
        else if !channel.clients[emitter].chanop then [To(emitter, ErrChanOPrivsNeeded, [channel.name])]
        else []
    {
      if emitter !in channel.clients {
        return [To(emitter, ErrNotOnChannel, [channel.name])];
      }
      if !channel.clients[emitter].chanop {
        return [To(emitter, ErrChanOPrivsNeeded, [channel.name])];
      }
      return [];
    }

    /** register_comment: what follows the colon; what stands before it, less one space, is left. */
    method RegisterComment(param: string) returns (left: string)
      modifies this`comment
      ensures (left, comment) == KickParts(param)
    {
      left := param;
      if ':' in param {
        comment := param[Find(param, ':') + 1..];
        left := param[..Find(param, ':')];
        if left != "" && left[|left| - 1] == ' ' {
          left := left[..|left| - 1];
        }
      } else {
        comment := KICK_DEFAULT_COMMENT;
      }
    }

    /** A member is removed; those who were there are told. */
    method RemoveTarget(emitter: int, nick: string, target: int, channel: Channel)
      requires serv.Valid() && channel.name in serv.channelList && serv.channelList[channel.name] == channel
      modifies channel`clients, serv`msgs
      ensures serv.Valid()
      ensures serv.View() == W.Push(Removed(old(serv.View()), channel.name, target),
                [Notice(emitter, {emitter} + Members(old(channel.State())), [RplKick], [channel.name, nick, comment])])
    {
      var told := CollectMembers(channel.clients, {emitter});
      assert told == {emitter} + Members(channel.State());
      serv.RemoveFrom(channel.name, channel, target);
      serv.PushBack(Notice(emitter, told, [RplKick], [channel.name, nick, comment]));
    }

    /** One turn of the loop in kick_targets_if_member. */
    method KickTarget(emitter: int, nick: string, target: int, channel: Channel)
      requires target == W.ClientByNick(serv.Clients(), nick)
      requires serv.Valid() && channel.name in serv.channelList && serv.channelList[channel.name] == channel
      modifies channel`clients, serv`msgs
      ensures serv.Valid()
      ensures serv.View() == KickOne(old(serv.View()), emitter, channel.name, nick, comment)
    {
      assert serv.View().channels[channel.name] == channel.State();
      KickOneBySteps(serv.View(), emitter, channel.name, nick, comment);
      if target !in channel.clients || !channel.clients[target].member {
        serv.PushBack(To(emitter, ErrUserNotInChannel, [nick, channel.name]));
      } else {
        RemoveTarget(emitter, nick, target, channel);
      }
    }

    /** kick_targets_if_member */
    method KickTargetsIfMember(emitter: int, targets: seq<string>, channel: Channel)
      requires serv.Valid() && channel.name in serv.channelList && serv.channelList[channel.name] == channel
      modifies channel`clients, serv`msgs
      ensures serv.Valid()
      ensures serv.View() == KickList(old(serv.View()), emitter, channel.name, targets, comment)
    {
      var i := 0;
      while i < |targets|
        invariant 0 <= i <= |targets|
        invariant serv.Valid() && channel.name in serv.View().channels
        invariant KickList(serv.View(), emitter, channel.name, targets[i..], comment)
               == KickList(old(serv.View()), emitter, channel.name, targets, comment)
      {
        assert targets[i..][0] == targets[i] && targets[i..][1..] == targets[i + 1..];
        var target := serv.GetClientByNickname(targets[i]);
        KickTarget(emitter, targets[i], target, channel);
        i := i + 1;
      }
    }

    /** execute; the reply is what is left in the message itself. */
    method Execute(emitter: int, param: string) returns (reply: seq<Notice>)
      requires serv.Valid()
      modifies this, serv`msgs, serv.channelList.Values
      ensures serv.Valid()
      ensures Result(serv.View(), reply) == KickCommand(old(serv.View()), emitter, param)
    {
      assert serv.View().channels.Keys == serv.channelList.Keys;
      if ' ' !in param {
        return [To(emitter, ErrNeedMoreParams, ["KICK"])];
      }
      var name, rest := param[..Find(param, ' ')], param[Find(param, ' ') + 1..];
      var channel := serv.GetChannelByName(name);
      if channel == null {
        return [To(emitter, ErrNoSuchChannel, [name])];
      }
      assert serv.View().channels[name] == channel.State();
      reply := IsIssuerMembershipValid(emitter, channel);
      if reply == [] {
        KickAll(emitter, rest, channel);
      }
    }

    /** The end of execute: comment, targets, kicks. */
    method KickAll(emitter: int, rest: string, channel: Channel)
      requires serv.Valid() && channel.name in serv.channelList && serv.channelList[channel.name] == channel
      modifies this, serv`msgs, channel`clients
      ensures serv.Valid()
      ensures serv.View()
           == KickList(old(serv.View()), emitter, channel.name, KickTargets(KickParts(rest).0), KickParts(rest).1)
    {
      var targets := ReadTargets(rest);
      KickTargetsIfMember(emitter, targets, channel);
    }

    method ReadTargets(rest: string) returns (targets: seq<string>)
      modifies this`comment
      ensures targets == KickTargets(KickParts(rest).0) && comment == KickParts(rest).1
      ensures serv.View() == old(serv.View()) && (old(serv.Valid()) ==> serv.Valid())
    {
      var text := RegisterComment(rest);
      targets := ReturnKickTarget(text);
    }
  }

  lemma KickOneBySteps(w: W.World, fd: int, name: string, nick: string, comment: string)
    requires name in w.channels
    ensures var target, ch := W.ClientByNick(w.clients, nick), w.channels[name];
      KickOne(w, fd, name, nick, comment)
      == if !Entry(ch, target).member then W.Push(w, [To(fd, ErrUserNotInChannel, [nick, ch.name])])
         else W.Push(Removed(w, name, target), [Notice(fd, {fd} + Members(ch), [RplKick], [ch.name, nick, comment])])
  {
    assert forall a, b, c: seq<Notice> :: a + (b + c) == a + b + c;
  }
}
