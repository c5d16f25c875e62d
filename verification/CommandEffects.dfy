/** Every command is a list of channel steps; what JOIN, JOIN 0 and QUIT amount to as a whole. */
module CommandEffects {
  import opened Strings
  import opened Ordering
  import opened Decimal
  import opened Channels
  import opened Lists
  import opened World
  import opened ModeSpec
  import opened Commands
  import opened Membership

  // ---- JOIN ----

  function EnterAtoms(fd: int, channels: seq<string>, keys: seq<string>): seq<Atom>
    decreases |channels|
  {
    if channels == [] then []
    else
      [Enter(fd, channels[0], if keys == [] then None else Some(keys[0]))]
        + EnterAtoms(fd, channels[1..], if keys == [] then [] else keys[1..])
  }

  lemma JoinOneIsEnter(w: World, fd: int, name: string, key: Option<string>)
    ensures JoinOne(w, fd, name, key).channels == Do(w.channels, Enter(fd, name, key))
    ensures JoinOne(w, fd, name, key).clients == w.clients
  {}

  lemma {:induction false} JoinListIsEnter(w: World, fd: int, channels: seq<string>, keys: seq<string>)
    ensures JoinList(w, fd, channels, keys).channels == DoAll(w.channels, EnterAtoms(fd, channels, keys))
    ensures JoinList(w, fd, channels, keys).clients == w.clients
    decreases |channels|
  {
    if channels != [] {
      var key := if keys == [] then None else Some(keys[0]);
      var rest := if keys == [] then [] else keys[1..];
      JoinOneIsEnter(w, fd, channels[0], key);
      JoinListIsEnter(JoinOne(w, fd, channels[0], key), fd, channels[1..], rest);
      assert EnterAtoms(fd, channels, keys)[1..] == EnterAtoms(fd, channels[1..], rest);
    }
  }

  /** The first n joins of a list, channel i with key i, and with no key past the end of the keys. */
  function JoinEach(w: World, fd: int, channels: seq<string>, keys: seq<string>, n: nat): World
    requires n <= |channels|
  {
    if n == 0 then w
    else
      JoinOne(JoinEach(w, fd, channels, keys, n - 1), fd, channels[n - 1],
              if n - 1 < |keys| then Some(keys[n - 1]) else None)
  }

  lemma {:induction false} JoinEachTail(w: World, fd: int, channels: seq<string>, keys: seq<string>, n: nat)
    requires 0 < n <= |channels|
    ensures JoinEach(w, fd, channels, keys, n)
         == JoinEach(JoinOne(w, fd, channels[0], if keys == [] then None else Some(keys[0])),
                     fd, channels[1..], if keys == [] then [] else keys[1..], n - 1)
  {
    if n > 1 {
      JoinEachTail(w, fd, channels, keys, n - 1);
    }
  }

  lemma {:induction false} JoinListIsEach(w: World, fd: int, channels: seq<string>, keys: seq<string>)
    ensures JoinList(w, fd, channels, keys) == JoinEach(w, fd, channels, keys, |channels|)
    decreases |channels|
  {
    if channels != [] {
      JoinEachTail(w, fd, channels, keys, |channels|);
      JoinListIsEach(JoinOne(w, fd, channels[0], if keys == [] then None else Some(keys[0])), fd,
                     channels[1..], if keys == [] then [] else keys[1..]);
    }
  }

  /** Batch JOIN: the same channels and the same notices, in the same order, as joining the
      comma-separated channels one by one, each with the key at its own place. */
  lemma {:induction false} BatchJoin(w: World, fd: int, param: string)
    requires param != "0" && FirstWord(param) != ""
    ensures var channels := Split(FirstWord(param), ',');
            var keys := if ' ' in param then KeyList(AfterWord(param)) else [];
            JoinCommand(w, fd, param) == JoinEach(w, fd, channels, keys, |channels|)
  {
    ChannelListExact(FirstWord(param));
    JoinListIsEach(w, fd, Split(FirstWord(param), ','), if ' ' in param then KeyList(AfterWord(param)) else []);
  }

  // ---- PART ----

  function LeaveAtoms(fd: int, names: seq<string>): seq<Atom>
  {
    if names == [] then [] else [Leave(fd, names[0])] + LeaveAtoms(fd, names[1..])
  }

  lemma PartOneIsLeave(w: World, fd: int, name: string, reason: string)
    requires AllOk(w.channels)
    ensures PartOne(w, fd, name, reason).channels == Do(w.channels, Leave(fd, name))
    ensures PartOne(w, fd, name, reason).clients == w.clients
  {
    if name in w.channels {
      assert ChannelOk(name, w.channels[name]);
    }
  }

  lemma {:induction false} PartListIsLeave(w: World, fd: int, names: seq<string>, reason: string)
    requires AllOk(w.channels)
    ensures PartList(w, fd, names, reason).channels == DoAll(w.channels, LeaveAtoms(fd, names))
    ensures PartList(w, fd, names, reason).clients == w.clients
    decreases |names|
  {
    if names != [] {
      PartOneIsLeave(w, fd, names[0], reason);
      StepKeepsOk(w.channels, Leave(fd, names[0]));
      PartListIsLeave(PartOne(w, fd, names[0], reason), fd, names[1..], reason);
      assert LeaveAtoms(fd, names)[1..] == LeaveAtoms(fd, names[1..]);
    }
  }

  // ---- JOIN 0 ----

  /** The channels after a client has left every channel it is a member of: emptied ones are gone,
      the others have lost its entry and, if need be, promoted their first member. */
  ghost function AllLeft(chs: ChannelMap, fd: int): ChannelMap
  {
    map n | n in chs && !(Entry(chs[n], fd).member && Members(chs[n]) == {fd})
      :: if Entry(chs[n], fd).member then DelClient(chs[n], fd).chan else chs[n]
  }

  lemma LeaveAlone(ch: Chan, fd: int)
    requires Entry(ch, fd).member
    ensures Members(DelClient(ch, fd).chan) == {} <==> Members(ch) == {fd}
  {
    DelClientEntries(ch, fd, fd);
    assert fd in Members(ch);
    assert Members(ch) - {fd} == {} <==> Members(ch) == {fd};
  }

  /** What is left of a channel when a client leaves it, if it is left at all. */
  ghost predicate LeftAs(chs: ChannelMap, after: ChannelMap, fd: int, n: string) {
    && (n in after <==> n in chs && !(Entry(chs[n], fd).member && Members(chs[n]) == {fd}))
    && (n in after ==> after[n] == if Entry(chs[n], fd).member then DelClient(chs[n], fd).chan else chs[n])
  }

  ghost predicate SameAs(chs: ChannelMap, after: ChannelMap, n: string) {
    (n in after <==> n in chs) && (n in chs ==> after[n] == chs[n])
  }

  lemma LeaveOneOf(chs: ChannelMap, fd: int, name: string, n: string)
    ensures n != name ==> SameAs(chs, Do(chs, Leave(fd, name)), n)
    ensures n == name ==> LeftAs(chs, Do(chs, Leave(fd, name)), fd, n)
  {
    if name in chs && Entry(chs[name], fd).member {
      LeaveAlone(chs[name], fd);
    }
  }

  /** Leaving a list of distinct channels treats each of them on its own. */
  lemma {:induction false} LeaveAllOf(chs: ChannelMap, fd: int, names: seq<string>, n: string)
    requires Distinct(names)
    ensures n !in names ==> SameAs(chs, DoAll(chs, LeaveAtoms(fd, names)), n)
    ensures n in names ==> LeftAs(chs, DoAll(chs, LeaveAtoms(fd, names)), fd, n)
    decreases |names|
  {
    if names != [] {
      var next := Do(chs, Leave(fd, names[0]));
      LeaveOneOf(chs, fd, names[0], n);
      LeaveAllOf(next, fd, names[1..], n);
      assert LeaveAtoms(fd, names)[1..] == LeaveAtoms(fd, names[1..]);
      DistinctTail(names, n);
    }
  }

  lemma DistinctTail<T>(s: seq<T>, x: T)
    requires s != [] && Distinct(s)
    ensures Distinct(s[1..]) && s[0] !in s[1..]
    ensures x in s <==> x == s[0] || x in s[1..]
  {
    assert s == [s[0]] + s[1..];
  }

  /** The names built from the channel map come back from PART's split as they were. */
  lemma JoinZeroNames(w: World, fd: int)
    requires AllOk(w.channels) && ChannelsOf(w, fd) != []
    ensures var all := Join(ChannelsOf(w, fd), ",");
            all != "" && FirstWord(all) == all && ChannelList(all) == ChannelsOf(w, fd)
  {
    var names := ChannelsOf(w, fd);
    NamesEnumerate(set n | n in w.channels && fd in w.channels[n].clients);
    forall n | n in names ensures ',' !in n && ' ' !in n && n != "" {
      assert ChannelOk(n, w.channels[n]);
      AllowedNamesAreTokens(n);
    }
    ChannelListOfJoin(names);
    JoinWithout(names, ",", ' ');
  }

  lemma {:induction false} JoinZeroIsLeave(w: World, fd: int)
    requires AllOk(w.channels)
    ensures JoinCommand(w, fd, "0").channels == DoAll(w.channels, LeaveAtoms(fd, ChannelsOf(w, fd)))
    ensures JoinCommand(w, fd, "0").clients == w.clients
  {
    var names := ChannelsOf(w, fd);
    if names != [] {
      JoinZeroNames(w, fd);
      PartListIsLeave(w, fd, names, AfterWord(Join(names, ",")));
    }
  }

  /** JOIN 0: the client leaves exactly the channels it is a member of. */
  lemma JoinZero(w: World, fd: int)
    requires AllOk(w.channels)
    ensures JoinCommand(w, fd, "0").channels == AllLeft(w.channels, fd)
  {
    var names := ChannelsOf(w, fd);
    var here := set n | n in w.channels && fd in w.channels[n].clients;
    NamesEnumerate(here);
    JoinZeroIsLeave(w, fd);
    var after := DoAll(w.channels, LeaveAtoms(fd, names));
    forall n
      ensures n in after <==> n in AllLeft(w.channels, fd)
      ensures n in after ==> after[n] == AllLeft(w.channels, fd)[n]
    {
      LeaveAllOf(w.channels, fd, names, n);
      assert n in names <==> n in here;
    }
  }

  /** After JOIN 0 the client is a member nowhere, every channel it was in keeps a member or is gone,
      and nobody else's entry changes but by becoming operator. */
  lemma JoinZeroLeavesAll(w: World, fd: int, name: string, other: int)
    requires AllOk(w.channels) && name in w.channels && other != fd
    ensures var chs := JoinCommand(w, fd, "0").channels;
            var ch := w.channels[name];
            && !IsMemberOf(chs, name, fd)
            && (Entry(ch, fd).member ==>
                  (name in chs <==> Members(ch) != {fd}) && (name in chs ==> Members(chs[name]) != {}))
            && (!Entry(ch, fd).member ==> name in chs && chs[name] == ch)
            && (name in chs ==>
                var e, e' := Entry(ch, other), Entry(chs[name], other);
                e'.member == e.member && e'.invited == e.invited && (e' != e ==> e.member && !e.chanop && e'.chanop))
  {
    JoinZero(w, fd);
    var ch := w.channels[name];
    DelClientEntries(ch, fd, other);
    if Entry(ch, fd).member {
      LeaveAlone(ch, fd);
    }
  }

  predicate IsMemberOf(chs: ChannelMap, name: string, fd: int) {
    name in chs && Entry(chs[name], fd).member
  }

  // ---- KICK ----

  function DropAtoms(clients: map<int, Client>, name: string, nicks: seq<string>): seq<Atom>
  {
    if nicks == [] then [] else [Drop(ClientByNick(clients, nicks[0]), name)] + DropAtoms(clients, name, nicks[1..])
  }

  lemma {:induction false} KickListIsDrop(w: World, fd: int, name: string, nicks: seq<string>, comment: string)
    requires name in w.channels
    ensures KickList(w, fd, name, nicks, comment).channels == DoAll(w.channels, DropAtoms(w.clients, name, nicks))
    ensures KickList(w, fd, name, nicks, comment).clients == w.clients
    decreases |nicks|
  {
    if nicks != [] {
      var next := KickOne(w, fd, name, nicks[0], comment);
      KickListIsDrop(next, fd, name, nicks[1..], comment);
      assert DropAtoms(w.clients, name, nicks)[1..] == DropAtoms(w.clients, name, nicks[1..]);
    }
  }

  // ---- QUIT ----

  /** The channels after a client has quit: unlike PART, QUIT keeps the channels it empties. */
  ghost function AllQuit(chs: ChannelMap, fd: int): ChannelMap
  {
    map n | n in chs :: if Entry(chs[n], fd).member then DelClient(chs[n], fd).chan else chs[n]
  }

  /** The members left in the channels among these that the client was a member of. */
  ghost function LeftBehind(chs: ChannelMap, fd: int, names: set<string>): set<int>
  {
    set n, m | n in names && n in chs && Entry(chs[n], fd).member && m in Members(chs[n]) && m != fd :: m
  }

  lemma LeaveOneTells(l: Leaving, fd: int, name: string)
    requires name in l.world.channels
    ensures var r := LeaveOne(l, fd, name);
            && r.world.channels == Do(l.world.channels, Drop(fd, name))
            && r.world.clients == l.world.clients && r.world.socket == l.world.socket
            && r.told == l.told + LeftBehind(l.world.channels, fd, {name})
  {
    DelClientEntries(l.world.channels[name], fd, fd);
    LeftBehindOne(l.world.channels, fd, name);
  }

  lemma LeftBehindOne(chs: ChannelMap, fd: int, name: string)
    requires name in chs
    ensures LeftBehind(chs, fd, {name}) == if Entry(chs[name], fd).member then Members(chs[name]) - {fd} else {}
  {
    assert name in {name};
    forall m | m in Members(chs[name]) - {fd} && Entry(chs[name], fd).member ensures m in LeftBehind(chs, fd, {name}) {}
  }

  lemma LeftBehindAfter(chs: ChannelMap, fd: int, name: string, names: set<string>)
    requires name !in names
    ensures LeftBehind(Do(chs, Drop(fd, name)), fd, names) == LeftBehind(chs, fd, names)
    ensures LeftBehind(chs, fd, {name} + names) == LeftBehind(chs, fd, {name}) + LeftBehind(chs, fd, names)
  {
    forall n | n in names ensures n in Do(chs, Drop(fd, name)) <==> n in chs
                          ensures n in chs ==> Do(chs, Drop(fd, name))[n] == chs[n]
    {
      OnlyNamed(chs, Drop(fd, name), n);
    }
  }

  lemma {:induction false} LeaveEachTells(l: Leaving, fd: int, names: seq<string>)
    requires Distinct(names) && forall n :: n in names ==> n in l.world.channels
    ensures var r := LeaveEach(l, fd, names);
            && r.told == l.told + LeftBehind(l.world.channels, fd, set n | n in names)
            && r.world.clients == l.world.clients && r.world.socket == l.world.socket
    decreases |names|
  {
    if names != [] {
      assert names[0] in names;
      var rest := set n | n in names[1..];
      var next := LeaveOne(l, fd, names[0]);
      LeaveOneTells(l, fd, names[0]);
      LeaveEachTells(next, fd, names[1..]);
      LeftBehindAfter(l.world.channels, fd, names[0], rest);
      assert (set n | n in names) == {names[0]} + rest;
    }
  }

  function DropEach(fd: int, names: seq<string>): seq<Atom>
  {
    if names == [] then [] else [Drop(fd, names[0])] + DropEach(fd, names[1..])
  }

  lemma {:induction false} LeaveEachIsDrop(l: Leaving, fd: int, names: seq<string>)
    requires forall n :: n in names ==> n in l.world.channels
    ensures LeaveEach(l, fd, names).world.channels == DoAll(l.world.channels, DropEach(fd, names))
    decreases |names|
  {
    if names != [] {
      assert names[0] in names;
      LeaveOneTells(l, fd, names[0]);
      LeaveEachIsDrop(LeaveOne(l, fd, names[0]), fd, names[1..]);
      assert DropEach(fd, names)[1..] == DropEach(fd, names[1..]);
    }
  }

  lemma {:induction false} DropAllOf(chs: ChannelMap, fd: int, names: seq<string>, n: string)
    requires Distinct(names)
    ensures var after := DoAll(chs, DropEach(fd, names));
            && (n in after <==> n in chs)
            && (n in chs ==>
                after[n] == if n in names && Entry(chs[n], fd).member then DelClient(chs[n], fd).chan else chs[n])
    decreases |names|
  {
    if names != [] {
      var next := Do(chs, Drop(fd, names[0]));
      DropAllOf(next, fd, names[1..], n);
      assert DropEach(fd, names)[1..] == DropEach(fd, names[1..]);
      assert names == [names[0]] + names[1..];
      if n == names[0] {
        assert n !in names[1..];
      }
    }
  }

  /** The notices from position k on only announce promotions. */
  ghost predicate OnlyPromotions(queued: seq<Notice>, k: nat) {
    forall i :: k <= i < |queued| ==> queued[i].replies == [RplYoureChanop]
  }

  lemma {:induction false} LeaveEachQueues(l: Leaving, fd: int, names: seq<string>)
    requires forall n :: n in names ==> n in l.world.channels
    ensures l.world.queued <= LeaveEach(l, fd, names).world.queued
    ensures OnlyPromotions(LeaveEach(l, fd, names).world.queued, |l.world.queued|)
    decreases |names|
  {
    if names != [] {
      assert names[0] in names;
      LeaveEachQueues(LeaveOne(l, fd, names[0]), fd, names[1..]);
    }
  }

  lemma {:induction false} QuitChannels(w: World, fd: int, names: seq<string>)
    requires names == NamesOfAll(w)
    ensures DoAll(w.channels, DropEach(fd, names)) == AllQuit(w.channels, fd)
  {
    NamesEnumerate(w.channels.Keys);
    var after := DoAll(w.channels, DropEach(fd, names));
    forall n
      ensures n in after <==> n in AllQuit(w.channels, fd)
      ensures n in after ==> after[n] == AllQuit(w.channels, fd)[n]
    {
      DropAllOf(w.channels, fd, names, n);
    }
  }

  lemma AllQuitLeaves(chs: ChannelMap, fd: int, name: string)
    requires name in chs
    ensures !Entry(AllQuit(chs, fd)[name], fd).member
    ensures !Entry(chs[name], fd).member ==> AllQuit(chs, fd)[name] == chs[name]
  {
    DelClientEntries(chs[name], fd, fd);
  }

  /** QUIT of a registered client: it leaves every channel it is a member of and no other channel
      changes; besides promotions it queues one notice, to exactly the union of the members it
      leaves behind, and none when there are none. */
  lemma QuitExact(w: World, fd: int, comment: string)
    ensures LeaveAll(w, fd, comment).channels == AllQuit(w.channels, fd)
    ensures LeaveAll(w, fd, comment).clients == w.clients
    ensures var queued := LeaveAll(w, fd, comment).queued;
            var told := LeftBehind(w.channels, fd, w.channels.Keys);
            if told == {} then w.queued <= queued && OnlyPromotions(queued, |w.queued|)
            else
              && |queued| > |w.queued| && w.queued <= queued[..|queued| - 1]
              && OnlyPromotions(queued[..|queued| - 1], |w.queued|)
              && queued[|queued| - 1] == Notice(fd, told, [RplQuit], [comment])
  {
    var names := NamesOfAll(w);
    var l := LeaveEach(Leaving(w, {}), fd, names);
    NamesEnumerate(w.channels.Keys);
    LeaveEachTells(Leaving(w, {}), fd, names);
    LeaveEachIsDrop(Leaving(w, {}), fd, names);
    LeaveEachQueues(Leaving(w, {}), fd, names);
    assert (set n | n in names) == w.channels.Keys;
    QuitChannels(w, fd, names);
    if l.told != {} {
      var queued := LeaveAll(w, fd, comment).queued;
      assert queued[..|queued| - 1] == l.world.queued;
    }
  }

  /** So after QUIT the client is a member nowhere, and the channels it was no member of are as they were. */
  lemma QuitLeavesAll(w: World, fd: int, comment: string, name: string)
    requires name in w.channels
    ensures var chs := LeaveAll(w, fd, comment).channels;
            && name in chs && !Entry(chs[name], fd).member
            && (!Entry(w.channels[name], fd).member ==> chs[name] == w.channels[name])
  {
    QuitExact(w, fd, comment);
    AllQuitLeaves(w.channels, fd, name);
  }

  /** QUIT is answered with an ERROR line, and tells those left behind the comment given. */
  lemma QuitAnswers(w: World, fd: int, param: string)
    requires fd in w.clients
    ensures var r := QuitCommand(w, fd, param);
            && r.reply == [Notice(w.socket, {fd}, [RplError], ["Manual disconnection through commands"])]
            && r.world.clients == w.clients
            && (!w.clients[fd].registered ==> r.world == w)
            && (w.clients[fd].registered && LeftBehind(w.channels, fd, w.channels.Keys) != {} ==>
                  && |r.world.queued| > 0
                  && r.world.queued[|r.world.queued| - 1]
                     == Notice(fd, LeftBehind(w.channels, fd, w.channels.Keys), [RplQuit], ["Quit: " + param]))
  {
    QuitExact(w, fd, "Quit: " + param);
  }

  function NamesOfAll(w: World): seq<string>
    ensures forall n :: n in NamesOfAll(w) ==> n in w.channels
  {
    NamesEnumerate(w.channels.Keys);
    Names(w.channels.Keys)
  }

  // ---- INVITE and MODE ----

  lemma InviteIsInvite(w: World, fd: int, name: string, nick: string, client: int)
    requires name in w.channels
    ensures InviteClient(w, fd, name, nick, client).world.channels == Do(w.channels, Invite(fd, client, name))
    ensures InviteClient(w, fd, name, nick, client).world.clients == w.clients
  {}

  lemma ModeIsChange(w: World, fd: int, name: string, rest: string)
    requires name in w.channels
    ensures ModeChange(w, fd, name, rest).world.channels == Do(w.channels, Change(fd, name, rest, w.clients))
    ensures ModeChange(w, fd, name, rest).world.clients == w.clients
  {}
}
