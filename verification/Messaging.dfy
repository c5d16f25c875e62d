/** PRIVMSG as the server runs it. */
module Messaging {
  import opened Strings
  import opened Ordering
  import opened Channels
  import W = World
  import opened Commands
  import opened Registration
  import opened Servers
  import opened Targets

  /** erase(find_last_not_of(" \t") + 1) */
  method Trim(s: string) returns (name: string)
    ensures name == TrimEnd(s)
  {
    name := s;
    while name != "" && name[|name| - 1] in BLANKS
      invariant TrimEnd(name) == TrimEnd(s)
      decreases |name|
    {
      name := name[..|name| - 1];
    }
  }

  /** get_targets: the names become the keys of a map. */
  method GetTargets(list: string) returns (targets: set<string>)
    ensures targets == TargetNames(list)
  {
    targets := {};
    var left := list;
    while ',' in left
      invariant targets + TargetNames(left) == TargetNames(list)
      decreases |left|
    {
      var comma := Find(left, ',');
      assert TargetNames(left) == {left[..comma]} + TargetNames(left[comma + 1..]);
      targets := targets + {left[..comma]};
      left := left[comma + 1..];
    }
    assert Find(left, ',') == |left|;
    var name := Trim(left);
    targets := targets + {name};
  }

  class Privmsg {
    const serv: Server

    constructor (serv: Server)
      ensures this.serv == serv
    {
      this.serv := serv;
    }

    /** One name: whom it reaches, or why it is refused. */
    method Look(emitter: int, name: string) returns (accepted: bool, reached: set<int>, warnings: seq<Notice>)
      ensures accepted == Accepts(serv.View(), emitter, name)
      ensures reached == Reaches(serv.View(), emitter, name)
      ensures warnings == TargetWarnings(serv.View(), emitter, name)
    {
      var channel := serv.GetChannelByName(name);
      assert serv.View().channels.Keys == serv.channelList.Keys;
      if channel != null {
        assert serv.View().channels[name] == channel.State();
        if emitter !in channel.clients || !channel.clients[emitter].member {
          return false, {}, [To(emitter, ErrCannotSendToChan, [channel.name])];
        }
        return true, channel.clients.Keys - {emitter}, [];
      }
      if name == "" {
        return false, {}, [To(emitter, ErrNoNicknameGiven, [])];
      }
      var client := serv.GetClientByNickname(name);
      if client == -1 {
        return false, {}, [To(emitter, ErrNoSuchNick, [name])];
      }
      return true, {client}, [];
    }

    /** One turn of the loop in add_correct_targets. */
    method AddTarget(emitter: int, name: string) returns (accepted: bool, reached: set<int>)
      requires serv.Valid()
      modifies serv`msgs
      ensures serv.Valid()
      ensures accepted == Accepts(old(serv.View()), emitter, name)
      ensures reached == Reaches(old(serv.View()), emitter, name)
      ensures serv.View() == W.Push(old(serv.View()), TargetWarnings(old(serv.View()), emitter, name))
    {
      var warnings;
      accepted, reached, warnings := Look(emitter, name);
      serv.PushReply(warnings);
    }

    /** add_correct_targets, with the names in map order. */
    method AddCorrectTargets(emitter: int, names: seq<string>) returns (target: set<int>, accepted: seq<string>)
      requires serv.Valid()
      modifies serv`msgs
      ensures serv.Valid()
      ensures var g := Gather(old(serv.View()), emitter, names, |names|);
        target == g.target && accepted == g.accepted && serv.View() == W.Push(old(serv.View()), g.warnings)
    {
      ghost var w := serv.View();
      target, accepted := {}, [];
      var i := 0;
      while i < |names|
        invariant 0 <= i <= |names| && serv.Valid()
        invariant Gathered(w, serv.View(), emitter, names, i, target, accepted)
      {
        GatheredNext(w, serv.View(), emitter, names, i, target, accepted);
        var ok, reached := AddTarget(emitter, names[i]);
        target := target + reached;
        if ok {
          accepted := accepted + [names[i]];
        }
        i := i + 1;
      }
    }

    method Execute(emitter: int, param: string) returns (reply: seq<Notice>)
      requires serv.Valid()
      modifies serv`msgs
      ensures serv.Valid()
      ensures Result(serv.View(), reply) == PrivmsgCommand(old(serv.View()), emitter, param)
    {
      if ':' !in param {
        return [To(emitter, ErrNoTextToSend, [])];
      }
      var colon := Find(param, ':');
      var names := GetTargets(param[..colon]);
      var target, accepted := AddCorrectTargets(emitter, Names(names));
      reply := [];
      if target != {} {
        reply := [Notice(emitter, target, [RplPrivmsg(|accepted|)], accepted + [param[colon + 1..]])];
      }
    }
  }

  /** The first i names have been dealt with: v is the state now, w the state before the first. */
  ghost predicate Gathered(w: W.World, v: W.World, fd: int, names: seq<string>, i: nat,
                           target: set<int>, accepted: seq<string>)
    requires i <= |names|
  {
    var g := Gather(w, fd, names, i);
    target == g.target && accepted == g.accepted && v == W.Push(w, g.warnings)
  }

  lemma GatheredNext(w: W.World, v: W.World, fd: int, names: seq<string>, i: nat,
                     target: set<int>, accepted: seq<string>)
    requires i < |names| && Gathered(w, v, fd, names, i, target, accepted)
    ensures Gathered(w, W.Push(v, TargetWarnings(v, fd, names[i])), fd, names, i + 1, target + Reaches(v, fd, names[i]),
                     if Accepts(v, fd, names[i]) then accepted + [names[i]] else accepted)
  {
    LooksTheSame(w, v, fd, names[i]);
    var g := Gather(w, fd, names, i);
    assert w.queued + g.warnings + TargetWarnings(w, fd, names[i])
        == w.queued + (g.warnings + TargetWarnings(w, fd, names[i]));
  }

  /** What is queued has no bearing on the targets. */
  lemma LooksTheSame(w: W.World, v: W.World, fd: int, name: string)
    requires w.clients == v.clients && w.channels == v.channels
    ensures Accepts(v, fd, name) == Accepts(w, fd, name) && Reaches(v, fd, name) == Reaches(w, fd, name)
    ensures TargetWarnings(v, fd, name) == TargetWarnings(w, fd, name)
  {}
}
