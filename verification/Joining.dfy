/** JOIN as the server runs it. */
module Joining {
  import opened Strings
  import opened Ordering
  import opened Decimal
  import opened Channels
  import opened Lists
  import W = World
  import opened Commands
  import opened Servers
  import opened Parting

  /** The members among these clients, in the same order. */
  function Filter(ch: Chan, fds: seq<int>): seq<int>
  {
    if fds == [] then [] else (if Entry(ch, fds[0]).member then [fds[0]] else []) + Filter(ch, fds[1..])
  }

  lemma {:induction false} FilterKeeps(ch: Chan, fds: seq<int>)
    requires forall i, j :: 0 <= i < j < |fds| ==> fds[i] < fds[j]
    ensures forall fd :: fd in Filter(ch, fds) <==> fd in fds && Entry(ch, fd).member
    ensures forall i, j :: 0 <= i < j < |Filter(ch, fds)| ==> Filter(ch, fds)[i] < Filter(ch, fds)[j]
  {
    if fds != [] {
      FilterKeeps(ch, fds[1..]);
      var rest := Filter(ch, fds[1..]);
      assert fds == [fds[0]] + fds[1..];
      forall j | 0 <= j < |rest| ensures fds[0] < rest[j] {
        assert rest[j] in rest;
      }
    }
  }

  /** Going over all entries and keeping the members enumerates the members. */
  lemma {:induction false} FilterIsMembers(ch: Chan)
    ensures Filter(ch, Fds(ch.clients.Keys)) == Fds(Members(ch))
  {
    FdsEnumerate(ch.clients.Keys);
    FilterKeeps(ch, Fds(ch.clients.Keys));
    FdsUnique(Members(ch), Filter(ch, Fds(ch.clients.Keys)));
  }

  /** Names and targets found among the first i entries, and what the rest adds, make the whole. */
  ghost predicate CollectsAt(w: W.World, ch: Chan, emitter: int, i: nat, names: seq<string>, target: set<int>)
    requires i <= |ch.clients.Keys|
  {
    Collects(w, ch, emitter, Fds(ch.clients.Keys)[i..], names, target)
  }

  lemma {:induction false} CollectsNext(w: W.World, ch: Chan, emitter: int, i: nat, names: seq<string>,
                                        target: set<int>)
    requires i < |ch.clients.Keys| && CollectsAt(w, ch, emitter, i, names, target)
    ensures var fd := Fds(ch.clients.Keys)[i];
      if !Entry(ch, fd).member then CollectsAt(w, ch, emitter, i + 1, names, target)
      else CollectsAt(w, ch, emitter, i + 1, names + NamesOf(w, ch, [fd]), target + if fd == emitter then {} else {fd})
  {
    var rest := Fds(ch.clients.Keys)[i..];
    assert rest[0] == Fds(ch.clients.Keys)[i] && rest[1..] == Fds(ch.clients.Keys)[i + 1..];
    if Entry(ch, rest[0]).member {
      CollectsTake(w, ch, emitter, rest, names, target);
    } else {
      CollectsSkip(w, ch, emitter, rest, names, target);
    }
  }

  /** What has been found and what the remaining entries add make the whole. */
  ghost predicate Collects(w: W.World, ch: Chan, emitter: int, rest: seq<int>, names: seq<string>, target: set<int>)
  {
    && names + NamesOf(w, ch, Filter(ch, rest)) == NamesOf(w, ch, Fds(Members(ch)))
    && target + (set fd | fd in Filter(ch, rest)) - {emitter} == Members(ch) - {emitter}
    && emitter !in target
  }

  lemma CollectsStart(w: W.World, ch: Chan, emitter: int)
    ensures Collects(w, ch, emitter, Fds(ch.clients.Keys), [], {})
  {
    FilterIsMembers(ch);
    EmptyPrefix(NamesOf(w, ch, Fds(Members(ch))));
    FdsAsSet(Members(ch));
    assert {} + (set fd | fd in Fds(Members(ch))) - {emitter} == Members(ch) - {emitter};
  }

  lemma FdsAsSet(s: set<int>)
    ensures (set fd | fd in Fds(s)) == s
  {
    FdsEnumerate(s);
  }

  lemma {:induction false} CollectsEnd(w: W.World, ch: Chan, emitter: int, names: seq<string>, target: set<int>)
    requires Collects(w, ch, emitter, [], names, target)
    ensures names == NamesOf(w, ch, Fds(Members(ch))) && target == Members(ch) - {emitter}
  {
    assert names + [] == names;
  }

  lemma CollectsSkip(w: W.World, ch: Chan, emitter: int, rest: seq<int>, names: seq<string>, target: set<int>)
    requires rest != [] && !Entry(ch, rest[0]).member && Collects(w, ch, emitter, rest, names, target)
    ensures Collects(w, ch, emitter, rest[1..], names, target)
  {
    assert Filter(ch, rest) == Filter(ch, rest[1..]);
  }

  lemma {:induction false} CollectsTake(w: W.World, ch: Chan, emitter: int, rest: seq<int>, names: seq<string>,
                                        target: set<int>)
    requires rest != [] && Entry(ch, rest[0]).member && Collects(w, ch, emitter, rest, names, target)
    ensures Collects(w, ch, emitter, rest[1..], names + NamesOf(w, ch, [rest[0]]),
                     target + if rest[0] == emitter then {} else {rest[0]})
  {
    var fds := Filter(ch, rest[1..]);
    NamesTake(w, ch, names, rest[0], fds);
    TargetTake(target, rest[0], fds, emitter);
  }

  lemma {:induction false} NamesTake(w: W.World, ch: Chan, names: seq<string>, fd: int, fds: seq<int>)
    ensures names + NamesOf(w, ch, [fd] + fds) == names + NamesOf(w, ch, [fd]) + NamesOf(w, ch, fds)
  {
    assert ([fd] + fds)[1..] == fds && [fd][1..] == [];
    Assoc(names, NamesOf(w, ch, [fd]), NamesOf(w, ch, fds));
  }

  lemma TargetTake(target: set<int>, fd: int, fds: seq<int>, emitter: int)
    ensures target + (set x | x in [fd] + fds) - {emitter}
         == target + (if fd == emitter then {} else {fd}) + (set x | x in fds) - {emitter}
  {}

  lemma {:induction false} NamesByClients(w: W.World, v: W.World, ch: Chan, fds: seq<int>)
    requires w.clients == v.clients
    ensures NamesOf(w, ch, fds) == NamesOf(v, ch, fds)
  {
    if fds != [] {
      NamesByClients(w, v, ch, fds[1..]);
    }
  }

  /** The notices of a join depend on the clients only. */
  lemma NoticesByClients(w: W.World, v: W.World, fd: int, ch: Chan)
    requires w.clients == v.clients
    ensures JoinNotices(w, fd, ch) == JoinNotices(v, fd, ch)
  {
    NamesByClients(w, v, ch, Fds(Members(ch)));
  }

  /** A channel put in place, and its new member announced. */
  ghost function Joined(w: W.World, fd: int, ch: Chan, name: string): W.World
  {
    W.Push(W.WithChannel(w, ch, name), JoinNotices(w, fd, ch))
  }

  lemma JoinedAfter(w: W.World, fd: int, ch: Chan, name: string)
    ensures var v := W.WithChannel(w, ch, name); W.Push(v, JoinNotices(v, fd, ch)) == Joined(w, fd, ch, name)
  {
    NoticesByClients(w, W.WithChannel(w, ch, name), fd, ch);
  }

  class Join {
    const serv: Server
    const part: Part
    var channels: seq<string>
    var keys: seq<string>

    constructor (serv: Server, part: Part)
      ensures this.serv == serv && this.part == part
    {
      this.serv, this.part := serv, part;
      channels, keys := [], [];
    }

    /** split_join_cmd: the pieces, and what is left of the text. */
    method SplitJoinCmd(text: string) returns (result: seq<string>, left: string)
      ensures Cut(result, left) == CutList(text)
    {
      result, left := [], text;
      if ',' !in left {
        return [left], left;
      }
      CutFromStart(left);
      while ',' in left
        invariant CutFrom(result, left) == CutLoop(text)
        decreases |left|
      {
        var comma := Find(left, ',');
        CutFromStep(result, left);
        result := result + [left[..comma]];
        left := left[comma + 1..];
      }
      CutFromEnd(result, left);
      if left != "" {
        result := result + [left];
      }
    }

    /** A member's name in the list, operators marked. */
    method ShownName(fd: int, channel: Channel) returns (nick: string)
      requires fd in channel.clients
      ensures NamesOf(serv.View(), channel.State(), [fd]) == [nick]
    {
      nick := if fd in serv.clientList then serv.clientList[fd].nickname else "";
      assert [fd][1..] == [] && nick == W.NickOf(serv.View(), fd);
      if channel.clients[fd].chanop {
        nick := "@" + nick;
      }
    }

    /** The loop of new_chan_member_sucess over the entries of the channel. */
    method CollectNames(emitter: int, channel: Channel) returns (names: seq<string>, target: set<int>)
      ensures names == NamesOf(serv.View(), channel.State(), Fds(Members(channel.State())))
      ensures target == Members(channel.State()) - {emitter}
    {
      var order := Fds(channel.clients.Keys);
      ghost var w, ch := serv.View(), channel.State();
      names, target := [], {};
      CollectsStart(w, ch, emitter);
      var i := 0;
      while i < |order|
        invariant 0 <= i <= |order| && CollectsAt(w, ch, emitter, i, names, target)
      {
        FdsMember(channel.clients.Keys, i);
        CollectsNext(w, ch, emitter, i, names, target);
        var fd := order[i];
        if channel.clients[fd].member {
          var nick := ShownName(fd, channel);
          names := names + [nick];
          target := target + if fd == emitter then {} else {fd};
        }
        i := i + 1;
      }
      CollectsEnd(w, ch, emitter, names, target);
    }

    /** The reply to the client, and who else is to be told. */
    method ReplyAndTarget(emitter: int, channel: Channel) returns (reply: Notice, target: set<int>)
      ensures reply == JoinNotices(serv.View(), emitter, channel.State())[0]
      ensures target == Members(channel.State()) - {emitter}
    {
      var chan := channel.name;
      var replies, replace := [RplJoin], [chan];
      if channel.topic != "" {
        replies := replies + [RplTopic, RplTopicWhoTime];
        replace := replace + [chan, channel.topic, chan, channel.topicAuthor, channel.topicDate];
      }
      var names;
      names, target := CollectNames(emitter, channel);
      replies := replies + [RplNamReply(|channel.clients|), RplEndOfNames];
      replace := replace + ["=", chan] + names + [chan];
      reply := Notice(emitter, {emitter}, replies, replace);
    }

    /** new_chan_member_sucess */
    method NewChanMemberSuccess(emitter: int, chan: string)
      requires serv.Valid() && chan in serv.channelList
      modifies serv`msgs
      ensures serv.Valid()
      ensures serv.View() == W.Push(old(serv.View()),
                JoinNotices(old(serv.View()), emitter, old(serv.channelList[chan].State())))
    {
      var channel := serv.channelList[chan];
      var reply, target := ReplyAndTarget(emitter, channel);
      serv.PushBack(reply);
      if |channel.clients| > 1 {
        serv.PushBack(Notice(emitter, target, [RplJoin], [chan]));
      }
    }

    /** join_create_channel */
    method JoinCreateChannel(emitter: int, name: string)
      requires serv.Valid() && name !in serv.channelList && W.ChannelNameAllowed(name)
      modifies serv`channelList, serv`msgs
      ensures serv.Valid() && fresh(serv.channelList.Values - old(serv.channelList.Values))
      ensures serv.View() == Joined(old(serv.View()), emitter, NewChan(emitter, name), name)
    {
      ghost var w := serv.View();
      JoinedAfter(w, emitter, NewChan(emitter, name), name);
      var channel := new Channel(emitter, name);
      assert serv.View() == w;
      serv.Insert(name, channel);
      NewChanMemberSuccess(emitter, name);
    }

    /** The key for the next channel. */
    function FirstKey(): Option<string>
      reads this
    {
      if keys == [] then None else Some(keys[0])
    }

    /** The refusals of join_check_existing_chan, in their order. */
    method Refuse(emitter: int, channel: Channel) returns (refused: bool)
      requires serv.Valid()
      modifies serv`msgs
      ensures serv.Valid()
      ensures var refusal := Refusal(channel.State(), emitter, FirstKey());
        && (refused <==> refusal.Some?)
        && (refused ==> serv.View() == W.Push(old(serv.View()), [To(emitter, refusal.value, [channel.name])]))
        && (!refused ==> serv.View() == old(serv.View()))
    {
      if channel.memberLimit != -1 && |channel.clients| >= channel.memberLimit {
        serv.PushBack(To(emitter, ErrChannelIsFull, [channel.name]));
        return true;
      }
      if channel.key != "" && (keys == [] || channel.key != keys[0]) {
        serv.PushBack(To(emitter, ErrBadChannelKey, [channel.name]));
        return true;
      }
      if !(emitter in channel.clients && channel.clients[emitter].invited) && channel.isInviteOnly {
        serv.PushBack(To(emitter, ErrInviteOnlyChan, [channel.name]));
        return true;
      }
      return false;
    }

    /** join_check_existing_chan */
    method JoinCheckExistingChan(emitter: int, channel: Channel)
      requires serv.Valid() && channel.name in serv.channelList && serv.channelList[channel.name] == channel
      modifies channel`clients, serv`msgs
      ensures serv.Valid()
      ensures serv.View() == JoinExisting(old(serv.View()), emitter, channel.name, FirstKey())
    {
      assert serv.View().channels[channel.name] == channel.State();
      if emitter in channel.clients && channel.clients[emitter].member {
        return;
      }
      var refused := Refuse(emitter, channel);
      if refused {
        return;
      }
      JoinedAfter(serv.View(), emitter, Admit(channel.State(), emitter), channel.name);
      serv.SetEntry(channel.name, channel, emitter, Bits(false, true, false));
      NewChanMemberSuccess(emitter, channel.name);
    }

    /** The channel of one turn of the loop in join_channel. */
    method JoinOneChannel(emitter: int, name: string)
      requires serv.Valid()
      modifies serv`channelList, serv`msgs, serv.channelList.Values
      ensures serv.Valid() && fresh(serv.channelList.Values - old(serv.channelList.Values))
      ensures serv.View() == JoinOne(old(serv.View()), emitter, name, FirstKey())
    {
      if !W.ChannelNameAllowed(name) {
        serv.PushBack(To(emitter, ErrNoSuchChannel, [name]));
        return;
      }
      if name !in serv.channelList {
        JoinCreateChannel(emitter, name);
        return;
      }
      JoinCheckExistingChan(emitter, serv.channelList[name]);
    }

    /** join_channel */
    method JoinChannel(emitter: int)
      requires serv.Valid()
      modifies this`keys, serv`channelList, serv`msgs, serv.channelList.Values
      ensures serv.Valid() && fresh(serv.channelList.Values - old(serv.channelList.Values))
      ensures serv.View() == JoinList(old(serv.View()), emitter, channels, old(keys))
    {
      var i := 0;
      while i < |channels|
        invariant 0 <= i <= |channels|
        invariant serv.Valid() && fresh(serv.channelList.Values - old(serv.channelList.Values))
        invariant JoinList(serv.View(), emitter, channels[i..], keys)
               == JoinList(old(serv.View()), emitter, channels, old(keys))
      {
        assert channels[i..][0] == channels[i] && channels[i..][1..] == channels[i + 1..];
        JoinOneChannel(emitter, channels[i]);
        if keys != [] {
          keys := keys[1..];
        }
        i := i + 1;
      }
    }

    /** The loop of special_argument over the channel map. */
    method ListChannels(emitter: int) returns (text: string)
      ensures text == Listed(serv.Chans(), emitter, Names(serv.channelList.Keys), |serv.channelList.Keys|)
    {
      var order := Names(serv.channelList.Keys);
      ghost var chs := serv.Chans();
      NamesEnumerate(serv.channelList.Keys);
      text := "";
      var i := 0;
      while i < |order|
        invariant 0 <= i <= |order| && text == Listed(chs, emitter, order, i)
      {
        var name := order[i];
        assert name in order;
        assert name in serv.channelList;
        var channel := serv.channelList[name];
        assert chs[name].clients == channel.clients;
        if emitter in channel.clients {
          text := AppendName(text, name);
        }
        i := i + 1;
      }
    }

    /** special_argument: the channels the client has an entry in, as a list for PART. */
    method OwnChannels(emitter: int) returns (text: string)
      requires serv.Valid()
      ensures text == Strings.Join(ChannelsOf(serv.View(), emitter), ",")
    {
      text := ListChannels(emitter);
      assert serv.View().channels.Keys == serv.channelList.Keys;
      ListedAll(serv.View(), emitter);
    }

    method SpecialArgument(emitter: int)
      requires serv.Valid() && part.serv == serv
      modifies part, serv`channelList, serv`msgs, serv.channelList.Values
      ensures serv.Valid() && serv.View() == JoinCommand(old(serv.View()), emitter, "0")
    {
      var text := OwnChannels(emitter);
      if text != "" {
        part.Execute(emitter, text);
      }
    }

    /** The part of execute that reads the parameter into channels and keys. */
    method ReadParam(param: string)
      modifies this
      ensures channels == ChannelList(FirstWord(param))
      ensures keys == if ' ' in param then KeyList(AfterWord(param)) else []
    {
      var names, left := param, "";
      channels, keys := [], [];
      if ' ' in param {
        keys, left := SplitJoinCmd(param[Find(param, ' ') + 1..]);
        names := param[..Find(param, ' ')];
      }
      assert names == FirstWord(param);
      channels, left := SplitJoinCmd(names);
      if left == "" {
        channels := channels + [""];
      }
    }

    method Execute(emitter: int, param: string)
      requires serv.Valid() && part.serv == serv
      modifies this, part, serv`channelList, serv`msgs, serv.channelList.Values
      ensures serv.Valid() && serv.View() == JoinCommand(old(serv.View()), emitter, param)
    {
      if param == "0" {
        SpecialArgument(emitter);
        return;
      }
      ReadParam(param);
      JoinChannel(emitter);
    }
  }

  /** The channels among these in which the client has an entry. */
  ghost function WithEntryOf(chs: map<string, Chan>, fd: int, names: seq<string>): seq<string>
  {
    if names == [] then []
    else (if names[0] in chs && fd in chs[names[0]].clients then [names[0]] else []) + WithEntryOf(chs, fd, names[1..])
  }

  lemma {:induction false} WithEntryConcat(chs: map<string, Chan>, fd: int, a: seq<string>, b: seq<string>)
    ensures WithEntryOf(chs, fd, a + b) == WithEntryOf(chs, fd, a) + WithEntryOf(chs, fd, b)
  {
    if a == [] {
      assert a + b == b;
    } else {
      assert (a + b)[1..] == a[1..] + b;
      WithEntryConcat(chs, fd, a[1..], b);
    }
  }

  /** The text after going over the first i channels. */
  ghost function Listed(chs: map<string, Chan>, fd: int, names: seq<string>, i: nat): string
    requires i <= |names|
  {
    if i == 0 then ""
    else
      var text, last := Listed(chs, fd, names, i - 1), names[i - 1];
      if last !in chs || fd !in chs[last].clients then text
      else AppendName(text, last)
  }

  function AppendName(text: string, name: string): string
  {
    if text == "" then name else text + "," + name
  }

  lemma {:induction false} ListedIsJoin(chs: map<string, Chan>, fd: int, names: seq<string>, i: nat)
    requires i <= |names| && forall n :: n in names ==> n in chs && n != ""
    ensures Listed(chs, fd, names, i) == Strings.Join(WithEntryOf(chs, fd, names[..i]), ",")
    ensures Listed(chs, fd, names, i) == "" <==> WithEntryOf(chs, fd, names[..i]) == []
  {
    if i > 0 {
      ListedIsJoin(chs, fd, names, i - 1);
      assert names[i - 1] in names;
      NextOwn(chs, fd, names, i - 1);
    }
  }

  lemma {:induction false} ListedAll(w: W.World, fd: int)
    requires forall n :: n in w.channels ==> n != ""
    ensures Listed(w.channels, fd, Names(w.channels.Keys), |w.channels.Keys|) == Strings.Join(ChannelsOf(w, fd), ",")
  {
    var order := Names(w.channels.Keys);
    NamesEnumerate(w.channels.Keys);
    ListedIsJoin(w.channels, fd, order, |order|);
    assert order[..|order|] == order;
    OwnAreChannelsOf(w, fd);
  }

  lemma {:induction false} NextOwn(chs: map<string, Chan>, fd: int, order: seq<string>, i: nat)
    requires i < |order| && order[i] in chs && order[i] != ""
    ensures var own := WithEntryOf(chs, fd, order[..i]);
      && WithEntryOf(chs, fd, order[..i + 1]) == (if fd in chs[order[i]].clients then own + [order[i]] else own)
      && Strings.Join(own + [order[i]], ",")
         == (if own == [] then order[i] else Strings.Join(own, ",") + "," + order[i])
  {
    assert order[..i + 1] == order[..i] + [order[i]];
    WithEntryConcat(chs, fd, order[..i], [order[i]]);
    assert [order[i]][1..] == [];
    JoinOneMore(WithEntryOf(chs, fd, order[..i]), order[i], ",");
  }

  lemma {:induction false} WithEntryKeeps(chs: map<string, Chan>, fd: int, names: seq<string>)
    requires forall i, j :: 0 <= i < j < |names| ==> NameLess(names[i], names[j])
    ensures forall n :: n in WithEntryOf(chs, fd, names) <==> n in names && n in chs && fd in chs[n].clients
    ensures forall i, j :: 0 <= i < j < |WithEntryOf(chs, fd, names)| ==>
      NameLess(WithEntryOf(chs, fd, names)[i], WithEntryOf(chs, fd, names)[j])
  {
    if names != [] {
      WithEntryKeeps(chs, fd, names[1..]);
      var rest := WithEntryOf(chs, fd, names[1..]);
      assert names == [names[0]] + names[1..];
      forall j | 0 <= j < |rest| ensures NameLess(names[0], rest[j]) {
        assert rest[j] in rest;
      }
    }
  }

  lemma {:induction false} OwnAreChannelsOf(w: W.World, fd: int)
    ensures WithEntryOf(w.channels, fd, Names(w.channels.Keys)) == ChannelsOf(w, fd)
  {
    var order := Names(w.channels.Keys);
    NamesEnumerate(w.channels.Keys);
    WithEntryKeeps(w.channels, fd, order);
    var own := set n | n in w.channels && fd in w.channels[n].clients;
    NamesUnique(own, WithEntryOf(w.channels, fd, order));
  }
}
