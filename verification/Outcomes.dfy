/** What each command does to the channels, and whom it tells: case by case, from its parameter and the
    channel as it was. */
module Outcomes {
  import opened Strings
  import opened Ordering
  import opened Decimal
  import opened Channels
  import opened Lists
  import opened World
  import opened ModeSpec
  import opened ModeTheorems
  import opened Commands

  // ---- JOIN ----

  /** There is room, the key is right, and the client is invited where it has to be. */
  predicate MayEnter(ch: Chan, fd: int, key: Option<string>) {
    && (ch.limit == -1 || |ch.clients| < ch.limit)
    && (ch.key == "" || key == Some(ch.key))
    && (!ch.inviteOnly || (fd in ch.clients && ch.clients[fd].invited))
  }

  /** A client that is no member enters an existing channel exactly when it may: its entry is then that of a
      plain member, and nothing else of any channel changes. Otherwise no channel changes, and the client
      is told the first reason. */
  lemma JoinExact(w: World, fd: int, name: string, key: Option<string>)
    requires ChannelNameAllowed(name) && name in w.channels && w.channels[name].name == name
    requires fd !in Members(w.channels[name])
    ensures var ch, after := w.channels[name], JoinOne(w, fd, name, key);
            && name in after.channels && (fd in Members(after.channels[name]) <==> MayEnter(ch, fd, key))
            && (MayEnter(ch, fd, key) ==>
                  after.channels == w.channels[name := ch.(clients := ch.clients[fd := Bits(false, true, false)])])
            && (!MayEnter(ch, fd, key) ==>
                  && after.channels == w.channels
                  && after.queued == w.queued
                     + [Notice(fd, {fd},
                               [if ch.limit != -1 && |ch.clients| >= ch.limit then ErrChannelIsFull
                                else if ch.key != "" && key != Some(ch.key) then ErrBadChannelKey
                                else ErrInviteOnlyChan],
                               [name])])
            && after.clients == w.clients
  {
    hide JoinNotices, ChannelNameAllowed;
  }

  /** A name that names no channel yet: legal, it becomes one, with the client as member and operator, the topic
      restricted and every other mode off; illegal, the client is told so. A member joining again changes
      nothing. */
  lemma JoinOtherwise(w: World, fd: int, name: string, key: Option<string>)
    ensures !ChannelNameAllowed(name) ==>
      JoinOne(w, fd, name, key) == w.(queued := w.queued + [Notice(fd, {fd}, [ErrNoSuchChannel], [name])])
    ensures ChannelNameAllowed(name) && name !in w.channels ==>
      && JoinOne(w, fd, name, key).clients == w.clients
      && JoinOne(w, fd, name, key).channels
         == w.channels[name := Chan(name, "", "", "", "", false, true, -1, map[fd := Bits(false, true, true)])]
    ensures ChannelNameAllowed(name) && name in w.channels && fd in Members(w.channels[name]) ==>
      JoinOne(w, fd, name, key) == w
  {}

  /** Who is told of a new member: the client itself, first; then, if anybody else has an entry, exactly the
      other members. */
  lemma JoinTells(w: World, fd: int, name: string, key: Option<string>)
    requires ChannelNameAllowed(name) && (name in w.channels ==> w.channels[name].name == name)
    requires name in w.channels ==> fd !in Members(w.channels[name])
    requires var after := JoinOne(w, fd, name, key).channels; name in after && fd in Members(after[name])
    ensures var after := JoinOne(w, fd, name, key);
            var ch, told := after.channels[name], after.queued[|w.queued|..];
            && w.queued <= after.queued
            && |told| == (if |ch.clients| > 1 then 2 else 1)
            && told[0].emitter == fd && told[0].target == {fd}
            && told[0].replies[..1] == [RplJoin] && told[0].values[..1] == [name]
            && (|ch.clients| > 1 ==> told[1] == Notice(fd, Members(ch) - {fd}, [RplJoin], [name]))
  {
    if name in w.channels {
      JoinExact(w, fd, name, key);
    }
    var ch := JoinOne(w, fd, name, key).channels[name];
    var notices := JoinNotices(w, fd, ch);
    assert JoinOne(w, fd, name, key).queued == w.queued + notices;
    assert notices[0].replies[..1] == [RplJoin] && notices[0].values[..1] == [ch.name];
  }

  /** JOIN of one channel, with a key, */
  lemma JoinReadsKey(w: World, fd: int, name: string, key: string)
    requires ChannelNameAllowed(name) && ',' !in key
    ensures JoinCommand(w, fd, name + " " + key) == JoinOne(w, fd, name, Some(key))
  {
    AllowedNamesAreTokens(name);
    FindAfter(name, ' ', key);
    assert name + " " + key == name + [' '] + key;
    assert (name + " " + key)[0] == name[0] != '0';
    JoinOfOne(w, fd, name, [key]);
  }

  /** and without. */
  lemma JoinReadsNoKey(w: World, fd: int, name: string)
    requires ChannelNameAllowed(name)
    ensures JoinCommand(w, fd, name) == JoinOne(w, fd, name, None)
  {
    AllowedNamesAreTokens(name);
    assert Find(name, ' ') == |name| && name[..|name|] == name && name[0] != '0';
    JoinOfOne(w, fd, name, []);
  }

  lemma {:induction false} JoinOfOne(w: World, fd: int, name: string, keys: seq<string>)
    requires ChannelNameAllowed(name)
    ensures JoinList(w, fd, ChannelList(name), keys) == JoinOne(w, fd, name, if keys == [] then None else Some(keys[0]))
  {
    AllowedNamesAreTokens(name);
    assert ChannelList(name) == [name];
    assert [name][1..] == [];
  }

  // ---- INVITE ----

  ghost predicate OnlySpaces(s: string) {
    forall c :: c in s ==> c == ' '
  }

  /** A parameter of INVITE: a nickname, spaces, a channel name. */
  ghost predicate TwoWords(nick: string, gap: string, name: string) {
    ' ' !in nick && ' ' !in name && gap != "" && OnlySpaces(gap)
  }

  lemma {:induction false} LastSpaceAt(a: string, name: string)
    requires a != "" && a[|a| - 1] == ' ' && ' ' !in name
    ensures ' ' in a + name && LastSpace(a + name) == |a| - 1
  {
    var s := a + name;
    assert s[|a| - 1] == ' ';
    if name == "" {
      assert s == a;
    } else {
      assert s[|s| - 1] == name[|name| - 1] && name[|name| - 1] in name;
      assert s[..|s| - 1] == a + name[..|name| - 1];
      LastSpaceAt(a, name[..|name| - 1]);
    }
  }

  lemma InviteReadsBack(nick: string, gap: string, name: string)
    requires TwoWords(nick, gap, name)
    ensures var param := nick + gap + name;
            && ' ' in param && Find(param, ' ') == |nick| && LastSpace(param) == |nick| + |gap| - 1
            && param[..|nick|] == nick && param[|nick| + |gap|..] == name
            && forall i :: |nick| <= i < |nick| + |gap| - 1 ==> param[i] == ' '
  {
    var param := nick + gap + name;
    assert gap[0] in gap && gap[|gap| - 1] in gap;
    assert param == nick + [' '] + (gap[1..] + name);
    FindAfter(nick, ' ', gap[1..] + name);
    LastSpaceAt(nick + gap, name);
    forall i | |nick| <= i < |nick| + |gap| - 1 ensures param[i] == ' ' {
      assert param[i] == gap[i - |nick|] && gap[i - |nick|] in gap;
    }
  }

  /** INVITE by somebody with an entry in the channel, of a client without one, gives that client an entry that
      is an invitation and nothing else, tells it and answers. In every other case nothing changes, and the
      one answer is the first error there is; that somebody is invited already is answered like success. */
  lemma InviteExact(w: World, fd: int, nick: string, gap: string, name: string)
    requires TwoWords(nick, gap, name)
    ensures var r, client := InviteCommand(w, fd, nick + gap + name), ClientByNick(w.clients, nick);
      if name !in w.channels then r == Result(w, [Notice(fd, {fd}, [ErrNoSuchChannel], [name])])
      else if client == -1 then r == Result(w, [Notice(fd, {fd}, [ErrNoSuchNick], [nick])])
      else
        var ch := w.channels[name];
        if client in Members(ch) then r == Result(w, [Notice(fd, {fd}, [ErrUserOnChannel], [nick, ch.name])])
        else if client in ch.clients then r == Result(w, [Notice(fd, {fd}, [RplInviting], [nick, ch.name])])
        else if fd !in ch.clients then r == Result(w, [Notice(fd, {fd}, [ErrNotOnChannel], [ch.name])])
        else
          && r.world.channels == w.channels[name := ch.(clients := ch.clients[client := Bits(true, false, false)])]
          && r.world.clients == w.clients
          && r.world.queued == w.queued + [Notice(fd, {client}, [RplInvite], [nick, ch.name])]
          && r.reply == [Notice(fd, {fd}, [RplInviting], [nick, ch.name])]
  {
    InviteReadsBack(nick, gap, name);
    assert (nick + gap + name)[..|nick|] == nick;
  }

  lemma {:induction false} SpacesInOrder(param: string)
    requires ' ' in param
    ensures Find(param, ' ') <= LastSpace(param)
  {
    var first, last := Find(param, ' '), LastSpace(param);
    forall j | last < j < |param| ensures param[j] != ' ' {
      assert param[j] == param[last + 1..][j - last - 1];
    }
    assert param[first] == ' ';
  }

  lemma CutTwice(s: string, i: nat, j: nat)
    requires i <= j <= |s|
    ensures s == s[..i] + s[i..j] + s[j..]
  {}

  /** A parameter with a space is a first word, what lies between, and a last word. */
  lemma {:induction false} SplitAtSpaces(param: string)
    requires ' ' in param
    ensures var first, last := Find(param, ' '), LastSpace(param);
            && first <= last && param == param[..first] + param[first..last + 1] + param[last + 1..]
            && (OnlySpaces(param[first..last + 1])
                ==> TwoWords(param[..first], param[first..last + 1], param[last + 1..]))
  {
    hide Find, LastSpace;
    SpacesInOrder(param);
    FindFirst(param, ' ');
    CutTwice(param, Find(param, ' '), LastSpace(param) + 1);
  }

  /** Neither one word nor two. */
  ghost predicate OtherWords(param: string) {
    forall nick, gap, name :: TwoWords(nick, gap, name) ==> param != nick + gap + name
  }

  lemma TwoWordsAreNoOther(nick: string, gap: string, name: string)
    requires TwoWords(nick, gap, name)
    ensures !OtherWords(nick + gap + name)
  {}

  lemma WordBetween(param: string) returns (k: nat)
    requires ' ' in param && OtherWords(param)
    ensures Find(param, ' ') <= k < LastSpace(param) && param[k] != ' '
  {
    hide OtherWords, LastSpace, Find;
    var first, last := Find(param, ' '), LastSpace(param);
    var gap := param[first..last + 1];
    SplitAtSpaces(param);
    if OnlySpaces(gap) {
      TwoWordsAreNoOther(param[..first], gap, param[last + 1..]);
      assert false;
    }
    var j :| 0 <= j < |gap| && gap[j] != ' ';
    k := first + j;
    assert param[k] == gap[j];
  }

  /** Any other parameter is refused: with no space, or with a third word. */
  lemma InviteOtherwise(w: World, fd: int, param: string)
    requires OtherWords(param)
    ensures InviteCommand(w, fd, param)
         == Result(w, [Notice(fd, {fd}, [if ' ' in param then ErrTooManyParam else ErrNeedMoreParams], ["INVITE"])])
  {
    hide OtherWords;
    if ' ' in param {
      var k := WordBetween(param);
      assert exists i :: Find(param, ' ') <= i < LastSpace(param) && param[i] != ' ';
    }
  }

  /** End to end: an invitation lets its client in, by whatever key is right - if there is room for one entry
      more than the invitation itself has taken. */
  lemma InvitedMayJoin(w: World, fd: int, nick: string, gap: string, name: string, key: Option<string>)
    requires TwoWords(nick, gap, name) && ChannelNameAllowed(name)
    requires name in w.channels && w.channels[name].name == name && fd in w.channels[name].clients
    requires var client := ClientByNick(w.clients, nick); client != -1 && client !in w.channels[name].clients
    ensures var ch, client := w.channels[name], ClientByNick(w.clients, nick);
            var after := JoinOne(InviteCommand(w, fd, nick + gap + name).world, client, name, key).channels;
            && name in after
            && (client in Members(after[name])
                <==> (ch.limit == -1 || |ch.clients| + 1 < ch.limit) && (ch.key == "" || key == Some(ch.key)))
  {
    var client := ClientByNick(w.clients, nick);
    var invited := InviteCommand(w, fd, nick + gap + name).world;
    InviteExact(w, fd, nick, gap, name);
    var ch := invited.channels[name];
    assert ch.clients.Keys == w.channels[name].clients.Keys + {client};
    assert |ch.clients| == |ch.clients.Keys| == |w.channels[name].clients| + 1;
    JoinExact(invited, client, name, key);
  }

  // ---- PART ----

  /** Who is told that it is now operator: the lowest member left, when the last operator leaves. */
  function NewOperator(ch: Chan, fd: int): seq<Notice>
  {
    if fd in Operators(ch) && fd in Members(ch) && Operators(ch) == {fd} && Members(ch) != {fd} then
      var heir := Fds(Members(ch) - {fd});
      if heir == [] then [] else [Notice(heir[0], {heir[0]}, [RplYoureChanop], [ch.name])]
    else []
  }

  lemma RemovalTells(ch: Chan, fd: int)
    ensures PromotionNotices(DelClient(ch, fd)) == NewOperator(ch, fd)
    ensures DelClient(ch, fd).chan.name == ch.name
  {
    var r := DelClient(ch, fd);
    var left := Members(ch) - {fd};
    DelClientSucceeds(ch, fd);
    assert fd in Members(ch) ==> Members(ch) == {fd} + left;
    if r.promoted != [] {
      FdsHead(left, r.promoted[0]);
    }
  }

  /** A member parts: the channel is gone if it was the last one, and has lost its entry and nobody else's
      otherwise; a new operator is told, and then the client and the members left. */
  lemma PartExact(w: World, fd: int, name: string, reason: string)
    requires name in w.channels && w.channels[name].name == name && fd in Members(w.channels[name])
    ensures var ch, after := w.channels[name], PartOne(w, fd, name, reason);
            && (if Members(ch) == {fd} then after.channels == w.channels - {name}
                else
                  && after.channels.Keys == w.channels.Keys
                  && (forall n :: n in w.channels && n != name ==> after.channels[n] == w.channels[n])
                  && after.channels[name].clients.Keys == ch.clients.Keys - {fd}
                  && Members(after.channels[name]) == Members(ch) - {fd})
            && after.queued
               == w.queued + (NewOperator(ch, fd)
                  + [Notice(fd, Members(ch), [RplPart],
                            [name, if reason == "" then "No comment has been provided" else reason])])
            && after.clients == w.clients
  {
    var ch := w.channels[name];
    DelClientEntries(ch, fd, fd);
    RemovalTells(ch, fd);
    assert {fd} + (Members(ch) - {fd}) == Members(ch);
  }

  /** Nobody else parts. */
  lemma PartOtherwise(w: World, fd: int, name: string, reason: string)
    requires name in w.channels ==> fd !in Members(w.channels[name])
    ensures PartOne(w, fd, name, reason)
         == w.(queued := w.queued + [To(fd, if name in w.channels then ErrNotOnChannel else ErrNoSuchChannel, [name])])
  {}

  lemma {:induction false} PartOfOne(w: World, fd: int, name: string, reason: string)
    requires name != "" && ',' !in name
    ensures PartList(w, fd, ChannelList(name), reason) == PartOne(w, fd, name, reason)
  {
    assert ChannelList(name) == [name] && [name][1..] == [];
    assert PartList(PartOne(w, fd, name, reason), fd, [], reason) == PartOne(w, fd, name, reason);
  }

  /** PART of one channel, with a reason, */
  lemma PartReads(w: World, fd: int, name: string, reason: string)
    requires name != "" && ',' !in name && ' ' !in name
    ensures PartCommand(w, fd, name + " " + reason) == PartOne(w, fd, name, reason)
  {
    FindAfter(name, ' ', reason);
    assert name + " " + reason == name + [' '] + reason;
    PartOfOne(w, fd, name, reason);
  }

  /** and without. */
  lemma PartReadsNoReason(w: World, fd: int, name: string)
    requires name != "" && ',' !in name && ' ' !in name
    ensures PartCommand(w, fd, name) == PartOne(w, fd, name, "")
  {
    assert Find(name, ' ') == |name| && name[..|name|] == name;
    PartOfOne(w, fd, name, "");
  }

  // ---- KICK ----

  /** A member named by its nickname is kicked: it loses its entry, nobody else does, a new operator is told,
      and then the client that kicks and all who were members, the one kicked included. */
  lemma KickedExact(w: World, fd: int, name: string, nick: string, comment: string)
    requires name in w.channels && ClientByNick(w.clients, nick) in Members(w.channels[name])
    ensures var ch, target := w.channels[name], ClientByNick(w.clients, nick);
            var after := KickOne(w, fd, name, nick, comment);
            && after.channels.Keys == w.channels.Keys
            && (forall n :: n in w.channels && n != name ==> after.channels[n] == w.channels[n])
            && after.channels[name].clients.Keys == ch.clients.Keys - {target}
            && Members(after.channels[name]) == Members(ch) - {target}
            && after.queued
               == w.queued + (NewOperator(ch, target)
                  + [Notice(fd, {fd} + Members(ch), [RplKick], [ch.name, nick, comment])])
            && after.clients == w.clients
  {
    var ch, target := w.channels[name], ClientByNick(w.clients, nick);
    DelClientEntries(ch, target, target);
    RemovalTells(ch, target);
  }

  lemma KickOtherwise(w: World, fd: int, name: string, nick: string, comment: string)
    requires name in w.channels && ClientByNick(w.clients, nick) !in Members(w.channels[name])
    ensures KickOne(w, fd, name, nick, comment)
         == w.(queued := w.queued + [Notice(fd, {fd}, [ErrUserNotInChannel], [nick, w.channels[name].name])])
  {}

  lemma {:induction false} KickOfOne(w: World, fd: int, name: string, nick: string, comment: string)
    requires name in w.channels
    ensures KickList(w, fd, name, [nick], comment) == KickOne(w, fd, name, nick, comment)
  {
    assert [nick][1..] == [];
    assert KickList(KickOne(w, fd, name, nick, comment), fd, name, [], comment)
        == KickOne(w, fd, name, nick, comment);
  }

  /** An operator's KICK of one nickname with a comment kicks it with that comment. */
  lemma KickReads(w: World, fd: int, name: string, nick: string, comment: string)
    requires ' ' !in name && ',' !in nick && ':' !in nick
    requires name in w.channels && fd in Operators(w.channels[name])
    ensures KickCommand(w, fd, name + " " + (nick + " :" + comment)) == Result(KickOne(w, fd, name, nick, comment), [])
  {
    var rest := nick + " :" + comment;
    hide KickOne, KickList, KickTargets, KickParts, Find;
    FindAfter(name, ' ', rest);
    assert name + " " + rest == name + [' '] + rest;
    KickPartsRoundTrip(nick, comment);
    KickTargetsOfJoin([nick]);
    assert Join([nick], ", ") == nick;
    KickOfOne(w, fd, name, nick, comment);
  }

  /** Everybody else's is refused, and changes nothing. */
  lemma KickRefused(w: World, fd: int, name: string, rest: string)
    requires ' ' !in name && (name in w.channels ==> fd !in Operators(w.channels[name]))
    ensures KickCommand(w, fd, name + " " + rest)
         == Result(w, [Notice(fd, {fd},
                       [if name !in w.channels then ErrNoSuchChannel
                        else if fd !in w.channels[name].clients then ErrNotOnChannel else ErrChanOPrivsNeeded],
                       [if name in w.channels then w.channels[name].name else name])])
    ensures KickCommand(w, fd, name) == Result(w, [Notice(fd, {fd}, [ErrNeedMoreParams], ["KICK"])])
  {
    FindAfter(name, ' ', rest);
    assert name + " " + rest == name + [' '] + rest;
  }

  // ---- QUIT ----

  /** Who is told that it is now operator when the client leaves the channels it is a member of. */
  ghost function NewOperators(chs: map<string, Chan>, fd: int, names: seq<string>): seq<Notice>
    requires forall n :: n in names ==> n in chs
  {
    if names == [] then []
    else
      assert names[0] in names;
      (if fd in Members(chs[names[0]]) then NewOperator(chs[names[0]], fd) else []) + NewOperators(chs, fd, names[1..])
  }

  lemma {:induction false} NewOperatorsElsewhere(chs: map<string, Chan>, chs': map<string, Chan>, fd: int,
                                                 names: seq<string>)
    requires forall n :: n in names ==> n in chs && n in chs' && chs'[n] == chs[n]
    ensures NewOperators(chs', fd, names) == NewOperators(chs, fd, names)
  {
    if names != [] {
      assert names[0] in names;
      NewOperatorsElsewhere(chs, chs', fd, names[1..]);
    }
  }

  lemma {:induction false} LeaveEachQueued(l: Leaving, fd: int, names: seq<string>)
    requires Distinct(names) && forall n :: n in names ==> n in l.world.channels
    ensures LeaveEach(l, fd, names).world.queued == l.world.queued + NewOperators(l.world.channels, fd, names)
    decreases |names|
  {
    if names == [] {
      EmptySuffix(l.world.queued);
    } else {
      var name, rest := names[0], names[1..];
      assert name in names && forall n :: n in rest ==> n in names && n != name;
      var next := LeaveOne(l, fd, name);
      RemovalTells(l.world.channels[name], fd);
      LeaveEachQueued(next, fd, rest);
      NewOperatorsElsewhere(l.world.channels, next.world.channels, fd, rest);
      var first := if fd in Members(l.world.channels[name]) then NewOperator(l.world.channels[name], fd) else [];
      if first == [] {
        EmptySuffix(l.world.queued);
      }
      Assoc(l.world.queued, first, NewOperators(l.world.channels, fd, rest));
    }
  }

  /** QUIT queues, channel by channel in map order, the message to each new operator, and then, if anybody is
      left behind, the one notice about the client. */
  lemma {:induction false} QuitTells(w: World, fd: int, comment: string)
    ensures var names := Names(w.channels.Keys);
            && (forall n :: n in names ==> n in w.channels)
            && var told := w.queued + NewOperators(w.channels, fd, names);
               var queued := LeaveAll(w, fd, comment).queued;
               queued == told
               || exists left :: left != {} && queued == told + [Notice(fd, left, [RplQuit], [comment])]
  {
    var names := Names(w.channels.Keys);
    NamesEnumerate(w.channels.Keys);
    LeaveEachQueued(Leaving(w, {}), fd, names);
  }
}
