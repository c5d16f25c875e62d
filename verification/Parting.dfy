/** PART as the server runs it. */
module Parting {
  import opened Strings
  import opened Ordering
  import opened Channels
  import opened Lists
  import W = World
  import opened Commands
  import opened Servers

  /** The members among the entries, collected in map order. */
  method CollectMembers(clients: map<int, Bits>, start: set<int>) returns (target: set<int>)
    ensures target == start + set fd | fd in clients && clients[fd].member
  {
    var order := Fds(clients.Keys);
    FdsEnumerate(clients.Keys);
    target := start;
    var i := 0;
    while i < |order|
      invariant 0 <= i <= |order|
      invariant forall fd :: fd in target <==>
        fd in start || (fd in order[..i] && fd in clients && clients[fd].member)
    {
      FdsMember(clients.Keys, i);
      if clients[order[i]].member {
        target := target + {order[i]};
      }
      assert order[..i + 1] == order[..i] + [order[i]];
      i := i + 1;
    }
    assert order[..i] == order;
    forall fd ensures fd in target <==> fd in start || (fd in clients && clients[fd].member) {
      assert fd in order <==> fd in clients;
    }
  }

  class Part {
    const serv: Server
    var channels: seq<string>
    var reason: string

    constructor (serv: Server)
      ensures this.serv == serv
    {
      this.serv := serv;
      channels, reason := [], "";
    }

    /** split_channels: the names go to channels, the text is consumed. */
    method SplitChannels(params: string) returns (left: string)
      modifies this`channels
      ensures Cut(channels, left) == CutList(params)
    {
      left := params;
      var pieces := [];
      CutFromStart(left);
      if ',' !in left {
        channels := [left];
        return;
      }
      while ',' in left
        invariant CutFrom(pieces, left) == CutLoop(params)
        decreases |left|
      {
        var comma := Find(left, ',');
        CutFromStep(pieces, left);
        pieces := pieces + [left[..comma]];
        left := left[comma + 1..];
      }
      CutFromEnd(pieces, left);
      channels := if left == "" then pieces else pieces + [left];
    }

    /** A channel without members is erased from the map. */
    method DeleteChanIfEmpty(current: Channel) returns (deleted: bool)
      requires serv.Valid() && current.name in serv.channelList && serv.channelList[current.name] == current
      modifies serv`channelList
      ensures deleted <==> Members(current.State()) == {}
      ensures serv.Valid() && serv.channelList.Values <= old(serv.channelList.Values)
      ensures serv.View() == Cleared(old(serv.View()), current.name)
    {
      var members := CollectMembers(current.clients, {});
      assert members == Members(current.State());
      if members != {} {
        return false;
      }
      serv.channelList := serv.channelList - {current.name};
      assert serv.Chans() == old(serv.Chans()) - {current.name};
      return true;
    }

    /** Everybody who is left, and the client itself, is told. */
    method TellLeft(emitter: int, current: Channel)
      modifies serv`msgs
      ensures old(serv.Valid()) ==> serv.Valid()
      ensures serv.View() == W.Push(old(serv.View()), [Goodbye(current.State(), emitter, reason)])
    {
      var target := CollectMembers(current.clients, {emitter});
      assert target == {emitter} + Members(current.State());
      var text := if reason == "" then KICK_DEFAULT_COMMENT else reason;
      serv.PushBack(Notice(emitter, target, [RplPart], [current.name, text]));
    }

    /** success_behaviour: the client leaves and an emptied channel goes. */
    method SuccessBehaviour(emitter: int, current: Channel)
      requires serv.Valid() && current.name in serv.channelList && serv.channelList[current.name] == current
      requires Entry(current.State(), emitter).member
      modifies current`clients, serv`channelList, serv`msgs
      ensures serv.Valid() && serv.View() == PartOne(old(serv.View()), emitter, old(current.name), reason)
      ensures serv.channelList.Values <= old(serv.channelList.Values)
    {
      PartOneBySteps(serv.View(), emitter, current.name, reason);
      serv.RemoveFrom(current.name, current, emitter);
      var deleted := DeleteChanIfEmpty(current);
      TellLeft(emitter, current);
    }

    /** One turn of the loop in loop_check. */
    method PartChannel(emitter: int, name: string)
      requires serv.Valid()
      modifies serv`channelList, serv`msgs, serv.channelList.Values
      ensures serv.Valid() && serv.View() == PartOne(old(serv.View()), emitter, name, reason)
      ensures serv.channelList.Values <= old(serv.channelList.Values)
    {
      if name !in serv.channelList {
        serv.PushBack(To(emitter, ErrNoSuchChannel, [name]));
        return;
      }
      var current := serv.channelList[name];
      assert serv.View().channels[name] == current.State();
      if emitter !in current.clients || !current.clients[emitter].member {
        serv.PushBack(To(emitter, ErrNotOnChannel, [name]));
        return;
      }
      SuccessBehaviour(emitter, current);
    }

    /** loop_check */
    method LoopCheck(emitter: int)
      requires serv.Valid()
      modifies serv`channelList, serv`msgs, serv.channelList.Values
      ensures serv.Valid() && serv.View() == PartList(old(serv.View()), emitter, channels, reason)
      ensures serv.channelList.Values <= old(serv.channelList.Values)
    {
      var i := 0;
      while i < |channels|
        invariant 0 <= i <= |channels|
        invariant serv.Valid() && serv.channelList.Values <= old(serv.channelList.Values)
        invariant PartList(serv.View(), emitter, channels[i..], reason)
               == PartList(old(serv.View()), emitter, channels, reason)
      {
        assert channels[i..][0] == channels[i] && channels[i..][1..] == channels[i + 1..];
        PartChannel(emitter, channels[i]);
        i := i + 1;
      }
    }

    /** The part of execute that reads the parameter into channels and reason. */
    method ReadParam(param: string)
      modifies this
      ensures channels == ChannelList(FirstWord(param)) && reason == AfterWord(param)
    {
      var names := param;
      reason := "";
      if ' ' in param {
        reason := param[Find(param, ' ') + 1..];
        names := param[..Find(param, ' ')];
      }
      assert names == FirstWord(param);
      var left := SplitChannels(names);
      if left == "" {
        channels := channels + [""];
      }
    }

    method Execute(emitter: int, param: string)
      requires serv.Valid()
      modifies this, serv`channelList, serv`msgs, serv.channelList.Values
      ensures serv.Valid() && serv.View() == PartCommand(old(serv.View()), emitter, param)
      ensures serv.channelList.Values <= old(serv.channelList.Values)
    {
      ReadParam(param);
      LoopCheck(emitter);
    }
  }

  function Goodbye(ch: Chan, fd: int, reason: string): Notice
  {
    Notice(fd, {fd} + Members(ch), [RplPart], [ch.name, if reason == "" then KICK_DEFAULT_COMMENT else reason])
  }

  /** The state without the channel if it has no members. */
  ghost function Cleared(w: W.World, name: string): W.World
    requires name in w.channels
  {
    if Members(w.channels[name]) == {} then w.(channels := w.channels - {name}) else w
  }

  lemma PartOneBySteps(w: W.World, fd: int, name: string, reason: string)
    requires name in w.channels && Entry(w.channels[name], fd).member && w.channels[name].name == name
    ensures PartOne(w, fd, name, reason)
         == W.Push(Cleared(Removed(w, name, fd), name),
                   [Goodbye(Channels.DelClient(w.channels[name], fd).chan, fd, reason)])
  {
    var r := Channels.DelClient(w.channels[name], fd);
    assert Removed(w, name, fd).channels - {name} == w.channels - {name};
  }
}
