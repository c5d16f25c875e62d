/** The reply a JOIN queues, rendered: a channel with an entry that is only invited breaks it. */
module JoinRendering {
  import Strings
  import Decimal
  import opened Ordering
  import opened Channels
  import opened World
  import opened Commands
  import opened Membership
  import opened Registration
  import opened Templates
  import opened Rendering
  import Wordings = Replies
  import opened NamesReply

  /** The replies of a successful JOIN. */
  predicate OfJoin(r: Reply) {
    r.RplJoin? || r.RplTopic? || r.RplTopicWhoTime? || r.RplEndOfNames? || (r.RplNamReply? && r.entries >= 1)
  }

  /** Their templates in define.hpp, the names list expanded. */
  function Wording(r: Reply): Template
    requires OfJoin(r)
  {
    match r
    case RplJoin => Wordings.RplJoin()
    case RplTopic => Wordings.RplTopic()
    case RplTopicWhoTime => Wordings.RplTopicWhoTime()
    case RplNamReply(entries) => Wordings.RplNamReply(entries)
    case RplEndOfNames => Wordings.RplEndOfNames()
  }

  function Worded(replies: seq<Reply>): seq<Template>
    requires forall r :: r in replies ==> OfJoin(r)
  {
    if replies == [] then [] else [Wording(replies[0])] + Worded(replies[1..])
  }

  function TopicValues(ch: Chan): seq<string>
  {
    if ch.topic == "" then [] else [ch.name, ch.topic, ch.name, ch.topicAuthor, ch.topicDate]
  }

  lemma {:induction false} WordedConcat(a: seq<Reply>, b: seq<Reply>)
    requires (forall r :: r in a ==> OfJoin(r)) && (forall r :: r in b ==> OfJoin(r))
    ensures Worded(a + b) == Worded(a) + Worded(b)
  {
    if a == [] {
      assert a + b == b;
    } else {
      assert (a + b)[1..] == a[1..] + b;
      WordedConcat(a[1..], b);
    }
  }

  lemma WordedOne(r: Reply)
    requires OfJoin(r)
    ensures Worded([r]) == [Wording(r)]
  {
    assert [r][1..] == [];
  }

  lemma WordedTwo(r: Reply, q: Reply)
    requires OfJoin(r) && OfJoin(q)
    ensures Worded([r, q]) == [Wording(r), Wording(q)]
  {
    assert [r, q] == [r] + [q];
    WordedConcat([r], [q]);
    WordedOne(r);
    WordedOne(q);
  }

  lemma {:induction false} JoinNoticeParts(w: World, fd: int, ch: Chan)
    requires |ch.clients| >= 1
    ensures var n := JoinNotices(w, fd, ch)[0];
            && (forall r :: r in n.replies ==> OfJoin(r))
            && Worded(n.replies) == JoinReply(|ch.clients|, TopicValues(ch) != [])
            && n.values == JoinValues(ch.name, TopicValues(ch), NamesOf(w, ch, Fds(Members(ch))))
  {
    var topic := if ch.topic != "" then [RplTopic, RplTopicWhoTime] else [];
    WordedOne(RplJoin);
    WordedTwo(RplTopic, RplTopicWhoTime);
    WordedTwo(RplNamReply(|ch.clients|), RplEndOfNames);
    WordedConcat([RplJoin], topic);
    WordedConcat([RplJoin] + topic, [RplNamReply(|ch.clients|), RplEndOfNames]);
  }

  lemma {:induction false} NamesOfClean(w: World, ch: Chan, fds: seq<int>)
    requires ClientsOk(w.clients)
    ensures |NamesOf(w, ch, fds)| == |fds| && AllClean(NamesOf(w, ch, fds))
  {
    if fds != [] {
      NamesOfClean(w, ch, fds[1..]);
      NicknameClean(w, fds[0]);
    }
  }

  lemma NicknameClean(w: World, fd: int)
    requires ClientsOk(w.clients)
    ensures Clean(NickOf(w, fd)) && Clean("@" + NickOf(w, fd))
  {
    assert !GoodCharacter('<') && !GoodCharacter('>');
    if fd in w.clients {
      assert ClientOk(w.clients[fd]);
    }
  }

  lemma ChannelNameClean(name: string)
    requires ChannelNameAllowed(name)
    ensures Clean(name)
  {
    assert !GoodCharacter('<') && !GoodCharacter('>');
  }

  /** As many members as entries means that every entry is a member. */
  lemma MembersByNumber(ch: Chan)
    ensures |Members(ch)| <= |ch.clients|
    ensures |Members(ch)| == |ch.clients| <==> Members(ch) == ch.clients.Keys
  {
    var others := ch.clients.Keys - Members(ch);
    assert ch.clients.Keys == Members(ch) + others;
    assert |ch.clients.Keys| == |Members(ch)| + |others|;
  }

  /** The reply queued for a joining client is rendered in full, listing exactly the members by their
      nicknames, if and only if every entry of the channel is a member; otherwise the renderer reads
      past its values. */
  lemma {:induction false} JoinRendered(w: World, fd: int, ch: Chan, who: Sender)
    requires ClientsOk(w.clients) && ChannelNameAllowed(ch.name) && |ch.clients| >= 1
    requires CleanSender(who) && Clean(ch.topic) && Clean(ch.topicAuthor) && Clean(ch.topicDate)
    ensures forall r :: r in JoinNotices(w, fd, ch)[0].replies ==> OfJoin(r)
    ensures var n := JoinNotices(w, fd, ch)[0];
            var o := Format("", Sources(Worded(n.replies)), n.values, who);
            if Members(ch) == ch.clients.Keys then
              && |n.values| == TotalHoles(Worded(n.replies))
              && (forall t :: t in Worded(n.replies) ==> WellFormed(t))
              && o == Done(Render(Worded(n.replies), n.values, who), [])
            else o == Broken
  {
    var names := NamesOf(w, ch, Fds(Members(ch)));
    JoinNoticeParts(w, fd, ch);
    NamesOfClean(w, ch, Fds(Members(ch)));
    ChannelNameClean(ch.name);
    MembersByNumber(ch);
    JoinReplyExact(who, ch.name, TopicValues(ch), names, |ch.clients|);
  }

  lemma {:induction false} NamesOfAt(w: World, ch: Chan, fds: seq<int>, i: nat)
    requires i < |fds| == |NamesOf(w, ch, fds)|
    ensures NamesOf(w, ch, fds)[i] == (if fds[i] in Operators(ch) then "@" else "") + NickOf(w, fds[i])
  {
    assert NamesOf(w, ch, fds)[1..] == NamesOf(w, ch, fds[1..]);
    if i == 0 {
      Strings.EmptyPrefix(NickOf(w, fds[0]));
    } else {
      NamesOfAt(w, ch, fds[1..], i - 1);
    }
  }

  /** And its names line reads "= channel :" and the members' nicknames, operators marked. */
  lemma {:induction false} NamesLine(w: World, ch: Chan, who: Sender)
    requires ClientsOk(w.clients) && Members(ch) == ch.clients.Keys && |ch.clients| >= 1
    ensures var names := NamesOf(w, ch, Fds(Members(ch)));
            && |names| == |ch.clients|
            && (forall i :: 0 <= i < |names| ==>
                  var fd := Fds(ch.clients.Keys)[i];
                  names[i] == (if fd in Operators(ch) then "@" else "") + NickOf(w, fd))
            && WellFormed(Wordings.RplNamReply(|ch.clients|))
            && TotalHoles([Wordings.RplNamReply(|ch.clients|)]) == |["=", ch.name] + names|
            && Render([Wordings.RplNamReply(|ch.clients|)], ["=", ch.name] + names, who)
               == ("353" + " ") + ((who.nick + " ") + (("=" + " ")
                  + ((ch.name + " :") + (Strings.Join(names, " ") + "\r\n"))))
  {
    NamesOfClean(w, ch, Fds(Members(ch)));
    MembersByNumber(ch);
    forall i | 0 <= i < |NamesOf(w, ch, Fds(Members(ch)))|
      ensures NamesOf(w, ch, Fds(Members(ch)))[i]
           == (if Fds(ch.clients.Keys)[i] in Operators(ch) then "@" else "") + NickOf(w, Fds(ch.clients.Keys)[i])
    {
      NamesOfAt(w, ch, Fds(Members(ch)), i);
    }
    NamReplyText(who, ch.name, NamesOf(w, ch, Fds(Members(ch))));
  }
}
