/** Invitations come from INVITE, memberships from a JOIN that is not refused. */
module Admission {
  import opened Decimal
  import opened Channels
  import opened World
  import opened ModeSpec
  import opened ModeTheorems
  import opened Commands
  import opened Membership

  /** The client has an entry that is only an invitation. */
  predicate IsInvited(chs: ChannelMap, name: string, fd: int) {
    name in chs && Entry(chs[name], fd).invited
  }

  predicate IsMember(chs: ChannelMap, name: string, fd: int) {
    name in chs && Entry(chs[name], fd).member
  }

  lemma InvitationsComeFromInvite(chs: ChannelMap, a: Atom, name: string, fd: int)
    requires IsInvited(Do(chs, a), name, fd)
    ensures IsInvited(chs, name, fd) || (a.Invite? && a.name == name && a.fd == fd && a.issuer in chs[name].clients)
  {
    if name != a.name {
      OnlyNamed(chs, a, name);
    } else if name in chs {
      if a.Change? {
        AnnouncesOperator(chs[name], Parse(a.rest), Whom(a.clients));
      } else {
        DelClientEntries(chs[name], a.fd, fd);
      }
    }
  }

  lemma AdmissionsComeFromEnter(chs: ChannelMap, a: Atom, name: string, fd: int)
    requires name in chs && !IsMember(chs, name, fd) && IsMember(Do(chs, a), name, fd)
    ensures a.Enter? && a.name == name && a.fd == fd && Refusal(chs[name], fd, a.key) == None
    ensures Do(chs, a)[name] == Admit(chs[name], fd)
  {
    if name != a.name {
      OnlyNamed(chs, a, name);
    } else if a.Change? {
      AnnouncesOperator(chs[name], Parse(a.rest), Whom(a.clients));
    } else {
      DelClientEntries(chs[name], a.fd, fd);
    }
  }

  lemma MembersWithin(ch: Chan)
    ensures |Members(ch)| <= |ch.clients|
  {
    assert |ch.clients| == |ch.clients.Keys|;
    assert ch.clients.Keys == Members(ch) + (ch.clients.Keys - Members(ch));
  }
}
