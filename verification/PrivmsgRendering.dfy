/** The notice a PRIVMSG queues, rendered: as many holes as accepted targets and text. */
module PrivmsgRendering {
  import Strings
  import opened Ordering
  import opened Channels
  import opened World
  import opened Commands
  import opened Membership
  import opened Registration
  import opened Targets
  import opened Templates
  import opened Rendering
  import Wordings = Replies
  import JoinRendering

  lemma AcceptedClean(w: World, fd: int, list: string)
    requires ClientsOk(w.clients) && AllOk(w.channels)
    ensures AllClean(GatherAll(w, fd, list).accepted)
  {
    GatherAllExact(w, fd, list);
    forall n | n in GatherAll(w, fd, list).accepted ensures Clean(n) {
      if n in w.channels {
        assert ChannelOk(n, w.channels[n]);
        JoinRendering.ChannelNameClean(n);
      } else {
        LookupFinds(w.clients, n);
        JoinRendering.NicknameClean(w, ClientByNick(w.clients, n));
      }
    }
  }

  /** RPL_PRIVMSG expanded for a number of targets. */
  function Expanded(targets: nat): string
    requires targets >= 1
  {
    Wordings.PrivmsgSource(targets);
    Wordings.Expand(Wordings.RPL_PRIVMSG, targets)
  }

  /** Targets, a colon and a text: if anybody is reached, the message that goes out has one value per
      accepted target and the text, as many as its expanded template has holes; and it reads as meant
      exactly when the text holds no '<' and the sender no bracket. */
  lemma {:induction false} PrivmsgRendered(w: World, fd: int, list: string, text: string, who: Sender)
    requires ClientsOk(w.clients) && AllOk(w.channels)
    requires ':' !in list && GatherAll(w, fd, list).target != {}
    ensures var g := GatherAll(w, fd, list);
      && g.accepted != []
      && PrivmsgCommand(w, fd, list + [':'] + text).reply
         == [Notice(fd, g.target, [RplPrivmsg(|g.accepted|)], g.accepted + [text])]
      && TotalHoles([Wordings.RplPrivmsg(|g.accepted|)]) == |g.accepted + [text]|
      && (Format("", [Expanded(|g.accepted|)], g.accepted + [text], who)
            == Done(Wordings.PrivmsgText(who, g.accepted, text), [])
          <==> CleanSender(who) && '<' !in text)
  {
    var targets := GatherAll(w, fd, list).accepted;
    Strings.FindAfter(list, ':', text);
    ReachedByTarget(w, fd, list);
    AcceptedClean(w, fd, list);
    Wordings.PrivmsgExact(who, targets, text);
    Wordings.PrivmsgRender(who, targets, text);
  }
}
