/** Admission over whole runs of commands. */
module RunAdmission {
  import opened Decimal
  import opened Channels
  import opened World
  import opened ModeTheorems
  import opened ModeSpec
  import opened Commands
  import opened Membership
  import opened Admission
  import opened CommandEffects
  import opened Runs
  import opened RunTheorems

  // ---- invitations ----

  lemma {:induction false} InvitationsInCommand(chs: ChannelMap, atoms: seq<Atom>, name: string, fd: int)
    requires IsInvited(DoAll(chs, atoms), name, fd)
    ensures IsInvited(chs, name, fd) || exists a :: a in atoms && a.Invite? && a.name == name && a.fd == fd
    decreases |atoms|
  {
    if atoms != [] {
      InvitationsInCommand(Do(chs, atoms[0]), atoms[1..], name, fd);
      if IsInvited(Do(chs, atoms[0]), name, fd) {
        InvitationsComeFromInvite(chs, atoms[0], name, fd);
        assert atoms[0] in atoms;
      }
    }
  }

  /** An INVITE command by a registered client that is in the channel and names the client. */
  ghost predicate Invites(w: World, e: Event, name: string, fd: int) {
    && e.Command? && e.verb == INVITE && e.fd in w.clients && w.clients[e.fd].registered
    && name in w.channels && e.fd in w.channels[name].clients
    && AtomsOf(w, e) == [Invite(e.fd, fd, name)]
  }

  lemma NewInvitation(w: World, e: Event, name: string, fd: int)
    requires AllOk(w.channels) && !IsInvited(w.channels, name, fd)
    requires IsInvited(DoAll(w.channels, AtomsOf(w, e)), name, fd)
    ensures Invites(w, e, name, fd)
  {
    var atoms := AtomsOf(w, e);
    InvitationsInCommand(w.channels, atoms, name, fd);
    AtomsByVerb(w, e);
    var a :| a in atoms && a.Invite? && a.name == name && a.fd == fd;
    assert e.verb == INVITE;
    assert atoms == [a];
    DoAllOne(w.channels, a);
    InvitationsComeFromInvite(w.channels, a, name, fd);
  }

  /** From the state after event i up to the state before event k the client is invited to the
      channel and no member of it. */
  ghost predicate InvitedThroughout(w: World, events: seq<Event>, i: nat, k: nat, name: string, fd: int)
    requires k <= |events|
    decreases k
  {
    i < k ==>
      && IsInvited(State(w, events, k).channels, name, fd)
      && !IsMember(State(w, events, k).channels, name, fd)
      && (i + 1 < k ==> InvitedThroughout(w, events, i, k - 1, name, fd))
  }

  lemma {:induction false} RunInvitation(w: World, events: seq<Event>, k: nat, name: string, fd: int) returns (i: nat)
    requires k <= |events| && w == Start(w.socket, w.password)
    requires IsInvited(State(w, events, k).channels, name, fd)
    ensures i < k && Invites(State(w, events, i), events[i], name, fd)
    ensures InvitedThroughout(w, events, i, k, name, fd)
  {
    RunInvariant(w, events, k);
    assert ChannelOk(name, State(w, events, k).channels[name]);
    RunInvariant(w, events, k - 1);
    StepIsAtoms(State(w, events, k - 1), events[k - 1]);
    if IsInvited(State(w, events, k - 1).channels, name, fd) {
      i := RunInvitation(w, events, k - 1, name, fd);
    } else {
      NewInvitation(State(w, events, k - 1), events[k - 1], name, fd);
      i := k - 1;
    }
  }

  // ---- admissions ----

  /** Somewhere in the steps stands a JOIN of the channel by the client that is not refused. */
  ghost predicate JoinsWithLeave(ch: Chan, atoms: seq<Atom>, name: string, fd: int) {
    exists key :: Enter(fd, name, key) in atoms && Refusal(ch, fd, key) == None
  }

  lemma {:induction false} EntersAdmit(chs: ChannelMap, atoms: seq<Atom>, name: string, fd: int)
    requires (forall a :: a in atoms ==> a.Enter? && a.fd == fd) && name in chs && ChannelNameAllowed(name)
    ensures name in DoAll(chs, atoms)
    ensures DoAll(chs, atoms)[name] == chs[name]
         || (!IsMember(chs, name, fd) && JoinsWithLeave(chs[name], atoms, name, fd)
             && DoAll(chs, atoms)[name] == Admit(chs[name], fd))
    decreases |atoms|
  {
    if atoms != [] {
      var a := atoms[0];
      assert a in atoms;
      var next := Do(chs, a);
      if a.name != name {
        OnlyNamed(chs, a, name);
        EntersAdmit(next, atoms[1..], name, fd);
      } else if next[name] == chs[name] {
        EntersAdmit(next, atoms[1..], name, fd);
      } else {
        assert Enter(fd, name, a.key) in atoms;
        EntersAdmit(next, atoms[1..], name, fd);
      }
      if JoinsWithLeave(next[name], atoms[1..], name, fd) && next[name] == chs[name] {
        var key :| Enter(fd, name, key) in atoms[1..] && Refusal(next[name], fd, key) == None;
        assert Enter(fd, name, key) in atoms;
      }
    }
  }

  lemma {:induction false} OthersAdmitNobody(chs: ChannelMap, atoms: seq<Atom>, name: string, fd: int)
    requires forall a :: a in atoms ==> !a.Enter?
    requires !IsMember(chs, name, fd)
    ensures !IsMember(DoAll(chs, atoms), name, fd)
    decreases |atoms|
  {
    if atoms != [] {
      var a := atoms[0];
      assert a in atoms;
      if IsMember(Do(chs, a), name, fd) {
        AdmissionsComeFromEnter(chs, a, name, fd);
      }
      OthersAdmitNobody(Do(chs, a), atoms[1..], name, fd);
    }
  }

  lemma {:induction false} EntersByOthers(chs: ChannelMap, atoms: seq<Atom>, name: string, fd: int, joiner: int)
    requires (forall a :: a in atoms ==> a.Enter? && a.fd == joiner) && joiner != fd
    requires name in chs && ChannelNameAllowed(name) && !IsMember(chs, name, fd)
    ensures !IsMember(DoAll(chs, atoms), name, fd)
  {
    EntersAdmit(chs, atoms, name, joiner);
  }

  lemma CommandAdmits(w: World, e: Event, name: string, fd: int)
    requires AllOk(w.channels) && name in w.channels && !IsMember(w.channels, name, fd)
    requires IsMember(DoAll(w.channels, AtomsOf(w, e)), name, fd)
    ensures e.Command? && e.verb == JOIN && e.fd == fd
    ensures JoinsWithLeave(w.channels[name], AtomsOf(w, e), name, fd)
    ensures DoAll(w.channels, AtomsOf(w, e))[name] == Admit(w.channels[name], fd)
  {
    var atoms := AtomsOf(w, e);
    AtomsByVerb(w, e);
    assert ChannelOk(name, w.channels[name]);
    if !e.Command? || e.verb != JOIN || e.param == "0" {
      OthersAdmitNobody(w.channels, atoms, name, fd);
    } else if e.fd != fd {
      EntersByOthers(w.channels, atoms, name, fd, e.fd);
    } else {
      EntersAdmit(w.channels, atoms, name, fd);
    }
  }

  /** Admission over whole runs: a client becomes a member of an existing channel only by its own
      JOIN; the channel is then within any limit set, the key paired with it matched any key set, and
      if the channel was invite-only, an INVITE by somebody in the channel named the client, since
      when it has been invited without a break and no member - so since the channel was created, and
      since it was last a member. */
  lemma RunAdmission(w: World, events: seq<Event>, k: nat, name: string, fd: int) returns (i: nat)
    requires k < |events| && w == Start(w.socket, w.password)
    requires name in State(w, events, k).channels && !IsMember(State(w, events, k).channels, name, fd)
    requires IsMember(State(w, events, k + 1).channels, name, fd)
    ensures events[k].Command? && events[k].verb == JOIN && events[k].fd == fd
    ensures var ch, after := State(w, events, k).channels[name], State(w, events, k + 1).channels[name];
            && (ch.limit != NO_LIMIT ==> |Members(after)| <= |after.clients| <= ch.limit)
            && (ch.key != "" ==> Enter(fd, name, Some(ch.key)) in AtomsOf(State(w, events, k), events[k]))
    ensures State(w, events, k).channels[name].inviteOnly ==>
              i < k && Invites(State(w, events, i), events[i], name, fd)
              && InvitedThroughout(w, events, i, k, name, fd)
  {
    var s, e := State(w, events, k), events[k];
    RunInvariant(w, events, k);
    StepIsAtoms(s, e);
    CommandAdmits(s, e, name, fd);
    AdmissionTerms(s.channels[name], AtomsOf(s, e), name, fd);
    i := 0;
    if s.channels[name].inviteOnly {
      i := RunInvitation(w, events, k, name, fd);
    }
  }

  lemma AdmissionTerms(ch: Chan, atoms: seq<Atom>, name: string, fd: int)
    requires JoinsWithLeave(ch, atoms, name, fd) && !Entry(ch, fd).member
    ensures ch.limit != NO_LIMIT ==> |Members(Admit(ch, fd))| <= |Admit(ch, fd).clients| <= ch.limit
    ensures ch.key != "" ==> Enter(fd, name, Some(ch.key)) in atoms
    ensures ch.inviteOnly ==> Entry(ch, fd).invited
  {
    var key :| Enter(fd, name, key) in atoms && Refusal(ch, fd, key) == None;
    MembersWithin(Admit(ch, fd));
    assert Admit(ch, fd).clients.Keys == ch.clients.Keys + {fd};
  }

  lemma {:induction false} InvitedAt(w: World, events: seq<Event>, i: nat, k: nat, name: string, fd: int, j: nat)
    requires k <= |events| && i < j <= k && InvitedThroughout(w, events, i, k, name, fd)
    ensures !IsMember(State(w, events, j).channels, name, fd)
    decreases k
  {
    if j < k {
      InvitedAt(w, events, i, k - 1, name, fd, j);
    }
  }

  /** Each invitation is used at most once: the INVITE an admission rests on was given after the client
      was last a member, so never before an earlier admission. */
  lemma InvitationsAreConsumed(w: World, events: seq<Event>, k: nat, name: string, fd: int, j: nat)
    returns (i: nat)
    requires j <= k < |events| && w == Start(w.socket, w.password)
    requires name in State(w, events, k).channels && State(w, events, k).channels[name].inviteOnly
    requires !IsMember(State(w, events, k).channels, name, fd)
    requires IsMember(State(w, events, k + 1).channels, name, fd)
    requires IsMember(State(w, events, j).channels, name, fd)
    ensures j <= i < k && Invites(State(w, events, i), events[i], name, fd)
  {
    i := RunAdmission(w, events, k, name, fd);
    if i < j {
      InvitedAt(w, events, i, k, name, fd, j);
    }
  }
}
