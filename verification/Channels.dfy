/** Channels and the notices commands queue, as values. */
module Channels {
  import opened Ordering

  /** The bitfield a channel keeps for a client: INVITED, MEMBER and CHANOP. */
  datatype Bits = Bits(invited: bool, member: bool, chanop: bool)

  const NOBODY := Bits(false, false, false)

  datatype Chan = Chan(
    name: string,
    topic: string, topicAuthor: string, topicDate: string,
    key: string,
    inviteOnly: bool,
    topicRestricted: bool,
    limit: int,
    clients: map<int, Bits>)

  const NO_LIMIT := -1

  /** A new channel: its creator is member and operator, and the topic is restricted. */
  function NewChan(creator: int, name: string): Chan
  {
    Chan(name, "", "", "", "", false, true, NO_LIMIT, map[creator := Bits(false, true, true)])
  }

  /** The bitfield of a client, 0 when it has no entry. */
  function Entry(ch: Chan, fd: int): Bits
  {
    if fd in ch.clients then ch.clients[fd] else NOBODY
  }

  function Members(ch: Chan): set<int>
  {
    set fd | fd in ch.clients && ch.clients[fd].member
  }

  function Operators(ch: Chan): set<int>
  {
    set fd | fd in ch.clients && ch.clients[fd].chanop
  }

  /** The replies of define.hpp the modelled commands send; a count is that of the expanded
      "{...}" of a names list or a target list. RplWelcomeBurst stands for the five replies of a registration. */
  datatype Reply =
    | RplWelcomeBurst
    | RplChannelModeIs | RplTopic | RplTopicWhoTime | RplInviting
    | RplPrivmsg(targets: nat)
    | RplNamReply(entries: nat) | RplEndOfNames | RplEndOfBanList
    | ErrTooManyParam | ErrNoSuchNick | ErrNoSuchChannel
    | ErrCannotSendToChan | ErrNoTextToSend
    | ErrNoNicknameGiven | ErrErroneousNickname | ErrNicknameInUse
    | ErrUserNotInChannel | ErrNotOnChannel | ErrUserOnChannel | ErrNotRegistered
    | ErrNeedMoreParams | ErrAlreadyRegistered | ErrPasswdMismatch
    | ErrChannelIsFull | ErrInviteOnlyChan | ErrBadChannelKey | ErrChanOPrivsNeeded
    | ErrUModeUnknownFlag | ErrUsersDontMatch | ErrModeBadFormat
    | RplJoin | RplPart | RplInvite | RplKick | RplError | RplQuit
    | RplChangeMode | RplYoureChanop

  /** A message for Server::msgs: who emits it, whom it is for, and what reply_format was given. */
  datatype Notice = Notice(emitter: int, target: set<int>, replies: seq<Reply>, values: seq<string>)

  /** A reply to the client itself, as reply_format addresses it. */
  function To(client: int, reply: Reply, values: seq<string>): Notice
  {
    Notice(client, {client}, [reply], values)
  }

  // ---- Channel::del_client ----

  /** A channel after a removal, and the member that became operator, if any. */
  datatype Removal = Removal(chan: Chan, promoted: seq<int>)

  function Without(ch: Chan, fd: int): Chan
  {
    ch.(clients := ch.clients - {fd})
  }

  function Promote(ch: Chan, fd: int): Chan
    requires fd in ch.clients
  {
    ch.(clients := ch.clients[fd := ch.clients[fd].(chanop := true)])
  }

  /** The member with the lowest descriptor: the first the iterator meets. */
  function FirstMember(ch: Chan): (fd: int)
    requires Members(ch) != {}
    ensures fd in Members(ch)
  {
    FdsFirst(Members(ch));
    Fds(Members(ch))[0]
  }

  /** Removing a member operator that leaves no operator behind promotes the first member left. */
  function DelClient(ch: Chan, fd: int): Removal
  {
    var left := Without(ch, fd);
    var e := Entry(ch, fd);
    if e.member && e.chanop && Operators(left) == {} && Members(left) != {}
    then Removal(Promote(left, FirstMember(left)), [FirstMember(left)])
    else Removal(left, [])
  }

  /** assign_next_chanop tells the new operator. */
  function PromotionNotices(r: Removal): seq<Notice>
  {
    if r.promoted == [] then [] else [To(r.promoted[0], RplYoureChanop, [r.chan.name])]
  }

  /** Who is member and who is invited is changed for the removed client only; at most one other
      client changes at all, and it becomes operator. */
  lemma DelClientEntries(ch: Chan, fd: int, other: int)
    ensures Entry(DelClient(ch, fd).chan, fd) == NOBODY
    ensures other != fd ==>
      var e, e' := Entry(ch, other), Entry(DelClient(ch, fd).chan, other);
      e'.member == e.member && e'.invited == e.invited && (e' != e ==> e.member && !e.chanop && e'.chanop)
    ensures Members(DelClient(ch, fd).chan) == Members(ch) - {fd}
  {
    var left := Without(ch, fd);
    assert Members(left) == Members(ch) - {fd};
    assert forall x :: Entry(left, x) == if x == fd then NOBODY else Entry(ch, x);
    if DelClient(ch, fd).promoted != [] {
      assert Members(Promote(left, FirstMember(left))) == Members(left);
    }
  }

  /** Succession: exactly when the removed client was a member operator, no operator is left and a
      member is, somebody is promoted, and it is the member with the lowest descriptor. */
  lemma DelClientSucceeds(ch: Chan, fd: int)
    ensures var r := DelClient(ch, fd);
            && (r.promoted != [] <==>
                Entry(ch, fd).member && Entry(ch, fd).chanop
                && Operators(ch) <= {fd} && Members(ch) - {fd} != {})
            && (r.promoted != [] ==>
                && r.promoted == [r.promoted[0]]
                && r.promoted[0] in Members(ch) - {fd}
                && (forall m :: m in Members(ch) - {fd} ==> r.promoted[0] <= m)
                && Operators(r.chan) == {r.promoted[0]})
            && (r.promoted == [] ==> Operators(r.chan) == Operators(ch) - {fd})
  {
    var left := Without(ch, fd);
    assert Members(left) == Members(ch) - {fd};
    assert Operators(left) == Operators(ch) - {fd};
    if DelClient(ch, fd).promoted != [] {
      FdsFirst(Members(left));
    }
  }
}
