/** PRIVMSG, as a function on the server's state: which targets are accepted and who is reached. */
module Targets {
  import opened Strings
  import opened Ordering
  import opened Channels
  import opened World
  import opened Commands
  import opened Registration

  /** A name without the blanks at its end. */
  function TrimEnd(s: string): string
  {
    if s != "" && s[|s| - 1] in BLANKS then TrimEnd(s[..|s| - 1]) else s
  }

  /** get_targets: the names between commas, each once; blanks are dropped behind the last only. */
  function TargetNames(s: string): set<string>
    decreases |s|
  {
    var p := Find(s, ',');
    if p == |s| then {TrimEnd(s)} else {s[..p]} + TargetNames(s[p + 1..])
  }

  /** A channel the client is a member of, or the nickname of a client. */
  predicate Accepts(w: World, fd: int, name: string) {
    if name in w.channels then Entry(w.channels[name], fd).member else name != "" && ClientByNick(w.clients, name) != -1
  }

  /** Whom an accepted name stands for: a channel for everybody else with an entry in it. */
  function Reaches(w: World, fd: int, name: string): set<int>
  {
    if !Accepts(w, fd, name) then {}
    else if name in w.channels then w.channels[name].clients.Keys - {fd}
    else {ClientByNick(w.clients, name)}
  }

  function TargetWarnings(w: World, fd: int, name: string): seq<Notice>
  {
    if Accepts(w, fd, name) then []
    else if name in w.channels then [To(fd, ErrCannotSendToChan, [w.channels[name].name])]
    else if name == "" then [To(fd, ErrNoNicknameGiven, [])]
    else [To(fd, ErrNoSuchNick, [name])]
  }

  datatype Gathering = Gathering(target: set<int>, warnings: seq<Notice>, accepted: seq<string>)

  /** add_correct_targets on the first i names. */
  function Gather(w: World, fd: int, names: seq<string>, i: nat): Gathering
    requires i <= |names|
  {
    if i == 0 then Gathering({}, [], [])
    else
      var g, name := Gather(w, fd, names, i - 1), names[i - 1];
      Gathering(g.target + Reaches(w, fd, name), g.warnings + TargetWarnings(w, fd, name),
                if Accepts(w, fd, name) then g.accepted + [name] else g.accepted)
  }

  function GatherAll(w: World, fd: int, list: string): Gathering
  {
    var names := Names(TargetNames(list));
    Gather(w, fd, names, |names|)
  }

  function PrivmsgCommand(w: World, fd: int, param: string): Result
  {
    var colon := Find(param, ':');
    if colon == |param| then Result(w, [To(fd, ErrNoTextToSend, [])])
    else
      var g := GatherAll(w, fd, param[..colon]);
      Result(Push(w, g.warnings),
        if g.target == {} then []
        else [Notice(fd, g.target, [RplPrivmsg(|g.accepted|)], g.accepted + [param[colon + 1..]])])
  }

  lemma {:induction false} GatherExact(w: World, fd: int, names: seq<string>, i: nat)
    requires i <= |names|
    ensures var g := Gather(w, fd, names, i);
      && (forall n :: n in g.accepted <==> n in names[..i] && Accepts(w, fd, n))
      && (forall x :: x in g.target <==> exists n :: n in names[..i] && x in Reaches(w, fd, n))
  {
    if i > 0 {
      GatherExact(w, fd, names, i - 1);
      assert names[..i] == names[..i - 1] + [names[i - 1]];
      var g := Gather(w, fd, names, i);
      forall x | x in g.target ensures exists n :: n in names[..i] && x in Reaches(w, fd, n) {
        if x in Reaches(w, fd, names[i - 1]) {
          assert names[i - 1] in names[..i];
        } else {
          var n :| n in names[..i - 1] && x in Reaches(w, fd, n);
          assert n in names[..i];
        }
      }
    }
  }

  lemma {:induction false} GatherAllExact(w: World, fd: int, list: string)
    ensures var g := GatherAll(w, fd, list);
      && (forall n :: n in g.accepted <==> n in TargetNames(list) && Accepts(w, fd, n))
      && (forall i, j :: 0 <= i < j < |g.accepted| ==> g.accepted[i] != g.accepted[j])
      && (forall x :: x in g.target <==> exists n :: n in TargetNames(list) && x in Reaches(w, fd, n))
  {
    var names := Names(TargetNames(list));
    NamesEnumerate(TargetNames(list));
    GatherExact(w, fd, names, |names|);
    GatherDistinct(w, fd, names, |names|);
    assert names[..|names|] == names;
    var g := GatherAll(w, fd, list);
    forall x ensures x in g.target <==> exists n :: n in TargetNames(list) && x in Reaches(w, fd, n) {
      if n :| n in TargetNames(list) && x in Reaches(w, fd, n) {
        assert n in names[..|names|];
      }
    }
  }

  lemma {:induction false} GatherDistinct(w: World, fd: int, names: seq<string>, i: nat)
    requires i <= |names| && forall a, b :: 0 <= a < b < |names| ==> names[a] != names[b]
    ensures var g := Gather(w, fd, names, i);
      forall a, b :: 0 <= a < b < |g.accepted| ==> g.accepted[a] != g.accepted[b]
  {
    if i > 0 {
      GatherDistinct(w, fd, names, i - 1);
      GatherExact(w, fd, names, i - 1);
      var before := Gather(w, fd, names, i - 1).accepted;
      forall a | 0 <= a < |before| ensures before[a] != names[i - 1] {
        assert before[a] in names[..i - 1];
      }
    }
  }

  /** A target the client may send to: a channel it is a member of, or a nickname somebody has. */
  ghost predicate MaySendTo(w: World, fd: int, name: string) {
    if name in w.channels then fd in w.channels[name].clients && w.channels[name].clients[fd].member
    else name != "" && exists c :: c in w.clients && w.clients[c].nick == name
  }

  /** The lowest descriptor with the nickname. */
  ghost predicate IsFirst(clients: map<int, Client>, nick: string, x: int) {
    && x in clients && clients[x].nick == nick
    && forall y :: y in clients && clients[y].nick == nick ==> x <= y
  }

  /** A client that such a target stands for: anybody else with an entry in the channel - member or only
      invited -, or the first with the nickname. */
  ghost predicate StandsFor(w: World, fd: int, name: string, x: int) {
    MaySendTo(w, fd, name) &&
      if name in w.channels then x in w.channels[name].clients && x != fd
      else IsFirst(w.clients, name, x)
  }

  lemma LookupFirst(clients: map<int, Client>, nick: string, x: int)
    requires -1 !in clients
    ensures ClientByNick(clients, nick) != -1 <==> exists c :: c in clients && clients[c].nick == nick
    ensures x == ClientByNick(clients, nick) && x != -1 <==> IsFirst(clients, nick, x)
  {
    var found := set c | c in clients && clients[c].nick == nick;
    if found == {} {
      assert forall c :: c in clients && clients[c].nick == nick ==> c in found;
    } else {
      var least := Least(found, FdLess);
      forall y | y in clients && clients[y].nick == nick ensures least <= y {
        assert y in found && (y != least ==> FdLess(least, y));
      }
      assert IsFirst(clients, nick, least);
      if IsFirst(clients, nick, x) {
        assert x in found;
      }
    }
  }

  lemma AcceptsExactly(w: World, fd: int, name: string, x: int)
    requires -1 !in w.clients
    ensures Accepts(w, fd, name) <==> MaySendTo(w, fd, name)
    ensures x in Reaches(w, fd, name) <==> StandsFor(w, fd, name, x)
  {
    LookupFirst(w.clients, name, x);
  }

  /** The names accepted are exactly the targets the client may send to, each once; those reached are
      exactly the clients these targets stand for. */
  lemma {:induction false} TargetsExact(w: World, fd: int, list: string)
    requires -1 !in w.clients
    ensures var g := GatherAll(w, fd, list);
      && (forall n :: n in g.accepted <==> n in TargetNames(list) && MaySendTo(w, fd, n))
      && Distinct(g.accepted)
      && (forall x :: x in g.target <==> exists n :: n in TargetNames(list) && StandsFor(w, fd, n, x))
  {
    var g := GatherAll(w, fd, list);
    GatherAllExact(w, fd, list);
    forall n ensures n in g.accepted <==> n in TargetNames(list) && MaySendTo(w, fd, n) {
      AcceptsExactly(w, fd, n, 0);
    }
    forall x ensures x in g.target <==> exists n :: n in TargetNames(list) && StandsFor(w, fd, n, x) {
      if n :| n in TargetNames(list) && StandsFor(w, fd, n, x) {
        AcceptsExactly(w, fd, n, x);
      }
      if x in g.target {
        var n :| n in TargetNames(list) && x in Reaches(w, fd, n);
        AcceptsExactly(w, fd, n, x);
      }
    }
  }

  lemma {:induction false} WarningsGathered(w: World, fd: int, names: seq<string>, i: nat)
    requires i <= |names|
    ensures forall m :: m in Gather(w, fd, names, i).warnings
                 <==> exists n :: n in names[..i] && m in TargetWarnings(w, fd, n)
    decreases i
  {
    if i > 0 {
      WarningsGathered(w, fd, names, i - 1);
      assert names[..i] == names[..i - 1] + [names[i - 1]];
      var last := names[i - 1];
      forall m ensures m in Gather(w, fd, names, i).warnings
                   <==> exists n :: n in names[..i] && m in TargetWarnings(w, fd, n) {
        if m in TargetWarnings(w, fd, last) {
          assert last in names[..i];
        }
        if n :| n in names[..i - 1] && m in TargetWarnings(w, fd, n) {
          assert n in names[..i];
        }
      }
    }
  }

  /** Why a target is refused. */
  ghost function RefusedAs(w: World, fd: int, name: string): Notice
  {
    if name in w.channels then Notice(fd, {fd}, [ErrCannotSendToChan], [w.channels[name].name])
    else if name == "" then Notice(fd, {fd}, [ErrNoNicknameGiven], [])
    else Notice(fd, {fd}, [ErrNoSuchNick], [name])
  }

  lemma RefusedExactly(w: World, fd: int, name: string, m: Notice)
    requires -1 !in w.clients
    ensures m in TargetWarnings(w, fd, name) <==> !MaySendTo(w, fd, name) && m == RefusedAs(w, fd, name)
  {
    AcceptsExactly(w, fd, name, 0);
  }

  lemma {:induction false} AllWarnings(w: World, fd: int, list: string, m: Notice)
    requires -1 !in w.clients
    ensures m in GatherAll(w, fd, list).warnings
        <==> exists n :: n in TargetNames(list) && !MaySendTo(w, fd, n) && m == RefusedAs(w, fd, n)
  {
    hide MaySendTo, RefusedAs, TargetWarnings, TargetNames;
    var names := Names(TargetNames(list));
    NamesEnumerate(TargetNames(list));
    WarningsGathered(w, fd, names, |names|);
    assert names[..|names|] == names;
    if n :| n in TargetNames(list) && !MaySendTo(w, fd, n) && m == RefusedAs(w, fd, n) {
      RefusedExactly(w, fd, n, m);
      assert n in names && m in TargetWarnings(w, fd, n);
    }
    if m in GatherAll(w, fd, list).warnings {
      var n :| n in names && m in TargetWarnings(w, fd, n);
      RefusedExactly(w, fd, n, m);
    }
  }

  /** PRIVMSG with a text: every target refused is answered, and nothing else is queued on the way; the message
      goes to those reached, if there are any, with the targets accepted and the text. */
  lemma {:induction false} PrivmsgExact(w: World, fd: int, list: string, text: string)
    requires -1 !in w.clients && ':' !in list
    ensures var g, r := GatherAll(w, fd, list), PrivmsgCommand(w, fd, list + [':'] + text);
      && r.world.clients == w.clients && r.world.channels == w.channels && w.queued <= r.world.queued
      && (forall m :: m in r.world.queued[|w.queued|..]
            <==> exists n :: n in TargetNames(list) && !MaySendTo(w, fd, n) && m == RefusedAs(w, fd, n))
      && r.reply == if g.target == {} then []
                    else [Notice(fd, g.target, [RplPrivmsg(|g.accepted|)], g.accepted + [text])]
  {
    hide GatherAll, MaySendTo, TargetNames, RefusedAs;
    FindAfter(list, ':', text);
    var g, r := GatherAll(w, fd, list), PrivmsgCommand(w, fd, list + [':'] + text);
    assert r.world.queued == w.queued + g.warnings;
    assert r.world.queued[|w.queued|..] == g.warnings;
    forall m ensures m in g.warnings
                 <==> exists n :: n in TargetNames(list) && !MaySendTo(w, fd, n) && m == RefusedAs(w, fd, n) {
      AllWarnings(w, fd, list, m);
    }
  }

  /** Without a colon there is no text to send. */
  lemma PrivmsgWithoutText(w: World, fd: int, param: string)
    requires ':' !in param
    ensures PrivmsgCommand(w, fd, param) == Result(w, [Notice(fd, {fd}, [ErrNoTextToSend], [])])
  {}

  lemma {:induction false} TargetNamesStep(a: string, rest: string)
    requires ',' !in a
    ensures TargetNames(a + "," + rest) == {a} + TargetNames(rest)
  {
    FindAfter(a, ',', rest);
    assert a + "," + rest == a + [','] + rest;
  }

  lemma {:induction false} TrimmedEnd(last: string, blanks: string)
    requires last == "" || last[|last| - 1] !in BLANKS
    requires forall c :: c in blanks ==> c in BLANKS
    ensures TrimEnd(last + blanks) == last
  {
    if blanks == "" {
      EmptySuffix(last);
    } else {
      var s := last + blanks;
      assert s[|s| - 1] == blanks[|blanks| - 1] && blanks[|blanks| - 1] in blanks;
      assert s[..|s| - 1] == last + blanks[..|blanks| - 1];
      TrimmedEnd(last, blanks[..|blanks| - 1]);
    }
  }

  lemma {:induction false} TargetNamesEnd(last: string, blanks: string)
    requires ',' !in last && (last == "" || last[|last| - 1] !in BLANKS)
    requires forall c :: c in blanks ==> c in BLANKS
    ensures TargetNames(last + blanks) == {last}
  {
    assert ',' !in last + blanks;
    assert Find(last + blanks, ',') == |last + blanks|;
    TrimmedEnd(last, blanks);
  }

  /** Targets separated by commas, with blanks behind the last, are read as they were written. */
  lemma {:induction false} TargetNamesOfJoin(names: seq<string>, blanks: string)
    requires names != [] && forall n :: n in names ==> ',' !in n
    requires var last := names[|names| - 1]; last == "" || last[|last| - 1] !in BLANKS
    requires forall c :: c in blanks ==> c in BLANKS
    ensures TargetNames(Join(names, ",") + blanks) == set n | n in names
  {
    hide TargetNames;
    assert names[0] in names;
    if |names| == 1 {
      TargetNamesEnd(names[0], blanks);
      assert (set n | n in names) == {names[0]};
    } else {
      var rest := names[1..];
      assert rest[|rest| - 1] == names[|names| - 1];
      TargetNamesOfJoin(rest, blanks);
      TargetNamesStep(names[0], Join(rest, ",") + blanks);
      Assoc(names[0] + ",", Join(rest, ","), blanks);
      assert names == [names[0]] + rest;
      assert (set n | n in names) == {names[0]} + (set n | n in rest);
    }
  }

  /** When somebody is reached, some target was accepted. */
  lemma ReachedByTarget(w: World, fd: int, list: string)
    ensures var g := GatherAll(w, fd, list); g.target != {} ==> g.accepted != []
  {
    GatherAllExact(w, fd, list);
    var target := GatherAll(w, fd, list).target;
    if target != {} {
      var x := Least(target, FdLess);
      var n :| n in TargetNames(list) && x in Reaches(w, fd, n);
      assert n in GatherAll(w, fd, list).accepted;
    }
  }
}
