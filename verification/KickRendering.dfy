/** The notice a KICK queues, rendered. */
module KickRendering {
  import opened Channels
  import opened World
  import opened Commands
  import opened Membership
  import opened Registration
  import opened Templates
  import opened Rendering
  import Wordings = Replies
  import JoinRendering

  /** One member kicked by its nickname: the last message queued goes to the client that kicks and to all
      who were members, and it reads as meant exactly when the comment holds no '<' and the sender no
      bracket. */
  lemma {:induction false} KickRendered(w: World, fd: int, name: string, nick: string, comment: string, who: Sender)
    requires ClientsOk(w.clients) && AllOk(w.channels) && name in w.channels
    requires var target := ClientByNick(w.clients, nick); target != -1 && Entry(w.channels[name], target).member
    ensures var queued := KickOne(w, fd, name, nick, comment).queued;
            && |queued| > 0
            && queued[|queued| - 1]
               == Notice(fd, {fd} + Members(w.channels[name]), [RplKick], [name, nick, comment])
    ensures Format("", [Wordings.RPL_KICK], [name, nick, comment], who)
            == Done(Wordings.KickText(who, name, nick, comment), [])
        <==> CleanSender(who) && '<' !in comment
  {
    var ch := w.channels[name];
    assert ChannelOk(name, ch);
    JoinRendering.ChannelNameClean(name);
    LookupFinds(w.clients, nick);
    JoinRendering.NicknameClean(w, ClientByNick(w.clients, nick));
    Wordings.KickExact(who, name, nick, comment);
  }
}
