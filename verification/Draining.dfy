/** What repeated rounds of send_messages deliver when every recipient stays writable. */
module Draining {
  import opened Messages
  import opened Merging
  import opened Ordering
  import opened Sending

  /** get_write_fds: every descriptor some message is addressed to. */
  function WriteFds(msgs: seq<Message>): set<int>
  {
    set m, fd | m in msgs && fd in m.target :: fd
  }

  /** One call of send_messages with the given writable descriptors. */
  function Round(msgs: seq<Message>, writable: set<int>): Pass
  {
    PassOver(Merge(msgs, 0), writable)
  }

  /** n calls, each finding all wanted descriptors writable; the log runs over all of them. */
  function Rounds(msgs: seq<Message>, n: nat): Pass
    decreases n
  {
    if n == 0 then Pass(msgs, [])
    else
      var first := Round(msgs, WriteFds(msgs));
      var rest := Rounds(first.msgs, n - 1);
      Pass(rest.msgs, first.log + rest.log)
  }

  /** Every message that is addressed to somebody holds a complete line. */
  ghost predicate Deliverable(msgs: seq<Message>) {
    forall m :: m in msgs && m.target != {} ==> HasCrlf(m.text)
  }

  /** Every message for fd is for fd alone. */
  ghost predicate Private(msgs: seq<Message>, fd: int) {
    forall m :: m in msgs && fd in m.target ==> m.target == {fd}
  }

  // ---- merging ----

  lemma CrlfOfConcat(a: string, b: string)
    requires HasCrlf(a)
    ensures HasCrlf(a + b)
  {
    var i :| 0 <= i < |a| - 1 && a[i] == '\r' && a[i + 1] == '\n';
    assert (a + b)[i] == '\r' && (a + b)[i + 1] == '\n';
  }

  lemma GlueRespects(msgs: seq<Message>, a: nat, b: nat, fd: int)
    requires a < b < |msgs| && msgs[a].target == msgs[b].target
    ensures Deliverable(msgs) ==> Deliverable(Glue(msgs, a, b))
    ensures Private(msgs, fd) ==> Private(Glue(msgs, a, b), fd)
  {
    assert msgs[a] in msgs && msgs[b] in msgs;
    if HasCrlf(msgs[a].text) {
      CrlfOfConcat(msgs[a].text, msgs[b].text);
    }
    forall m | m in Glue(msgs, a, b)
      ensures m in msgs || m == msgs[a].(text := msgs[a].text + msgs[b].text)
    {
      GlueMembers(msgs, a, b, m);
    }
  }

  lemma GlueWriteFds(msgs: seq<Message>, a: nat, b: nat)
    requires a < b < |msgs| && msgs[a].target == msgs[b].target
    ensures WriteFds(Glue(msgs, a, b)) == WriteFds(msgs)
  {
    var glued := msgs[a].(text := msgs[a].text + msgs[b].text);
    assert msgs[a] in msgs && glued in Glue(msgs, a, b);
    forall m | m in Glue(msgs, a, b) ensures m in msgs || m == glued {
      GlueMembers(msgs, a, b, m);
    }
    forall m | m in msgs ensures m.target == glued.target || m in Glue(msgs, a, b) {
      Parts(msgs, a, b);
    }
  }

  lemma {:induction false} MergeRespects(msgs: seq<Message>, fd: int)
    ensures Deliverable(msgs) ==> Deliverable(Merge(msgs, 0))
    ensures Private(msgs, fd) ==> Private(Merge(msgs, 0), fd)
    ensures WriteFds(Merge(msgs, 0)) == WriteFds(msgs)
  {
    var keeps := (q: seq<Message>) =>
      && (Deliverable(msgs) ==> Deliverable(q))
      && (Private(msgs, fd) ==> Private(q, fd))
      && WriteFds(q) == WriteFds(msgs);
    forall q, i, j | Matches(q, i, j) && keeps(q) ensures keeps(Glue(q, i, j)) {
      GlueRespects(q, i, j, fd);
      GlueWriteFds(q, i, j);
    }
    MergeInduction(msgs, 0, keeps);
  }

  // ---- one pass ----

  lemma {:induction false} PassMembers(msgs: seq<Message>, writable: set<int>, m: Message)
    requires m in PassOver(msgs, writable).msgs
    ensures exists x :: x in msgs && m.text == x.text && m.emitter == x.emitter && m.target <= x.target
  {
    if msgs != [] {
      var d := Reached(msgs[0], writable);
      if m in Kept(msgs[0], d) {
        assert msgs[0] in msgs;
      } else {
        PassMembers(msgs[1..], writable - d, m);
        var x :| x in msgs[1..] && m.text == x.text && m.emitter == x.emitter && m.target <= x.target;
        assert x in msgs;
      }
    }
  }

  lemma {:induction false} PassRespects(msgs: seq<Message>, writable: set<int>, fd: int)
    ensures Deliverable(msgs) ==> Deliverable(PassOver(msgs, writable).msgs)
    ensures Private(msgs, fd) ==> Private(PassOver(msgs, writable).msgs, fd)
  {
    forall m | m in PassOver(msgs, writable).msgs
      ensures exists x :: x in msgs && m.text == x.text && m.emitter == x.emitter && m.target <= x.target
    {
      PassMembers(msgs, writable, m);
    }
  }

  /** The bytes a log carries to one descriptor. */
  function BytesSent(log: seq<Sent>, fd: int): multiset<char>
  {
    if log == [] then multiset{}
    else (if log[0].fd == fd then multiset(log[0].text) else multiset{}) + BytesSent(log[1..], fd)
  }

  lemma {:induction false} BytesSentConcat(a: seq<Sent>, b: seq<Sent>, fd: int)
    ensures BytesSent(a + b, fd) == BytesSent(a, fd) + BytesSent(b, fd)
  {
    if a == [] {
      assert a + b == b;
    } else {
      assert (a + b)[1..] == a[1..] + b;
      BytesSentConcat(a[1..], b, fd);
    }
  }

  lemma {:induction false} BytesOfFds(d: set<int>, text: string, fd: int)
    ensures BytesSent(LogFor(Fds(d), text), fd) == if fd in d then multiset(text) else multiset{}
  {
    FdsEnumerate(d);
    BytesOfLogFor(Fds(d), text, fd);
  }

  lemma {:induction false} BytesOfLogFor(fds: seq<int>, text: string, fd: int)
    requires forall i, j :: 0 <= i < j < |fds| ==> fds[i] < fds[j]
    ensures BytesSent(LogFor(fds, text), fd) == if fd in fds then multiset(text) else multiset{}
  {
    if fds != [] {
      assert LogFor(fds, text)[1..] == LogFor(fds[1..], text);
      BytesOfLogFor(fds[1..], text, fd);
    }
  }

  lemma {:induction false} KeptBytes(m: Message, d: set<int>, fd: int)
    requires d <= m.target
    ensures BytesFor(Kept(m, d), fd) == if fd in m.target - d then multiset(m.text) else multiset{}
  {
    if Kept(m, d) != [] {
      assert Kept(m, d)[1..] == [];
    }
  }

  lemma {:induction false} PassBytesStep(m: Message, d: set<int>, rest: Pass, fd: int)
    requires d <= m.target
    ensures BytesSent(LogFor(Fds(d), m.text) + rest.log, fd) + BytesFor(Kept(m, d) + rest.msgs, fd)
         == (if fd in m.target then multiset(m.text) else multiset{})
            + (BytesSent(rest.log, fd) + BytesFor(rest.msgs, fd))
  {
    var sent, left := LogFor(Fds(d), m.text), Kept(m, d);
    BytesOfFds(d, m.text, fd);
    BytesSentConcat(sent, rest.log, fd);
    BytesForConcat(left, rest.msgs, fd);
    KeptBytes(m, d, fd);
    assert BytesSent(sent, fd) + BytesFor(left, fd) == if fd in m.target then multiset(m.text) else multiset{};
  }

  /** For each recipient: bytes sent in a pass plus bytes still owed are the bytes owed before. */
  lemma {:induction false} PassBytes(msgs: seq<Message>, writable: set<int>, fd: int)
    ensures BytesFor(msgs, fd)
         == BytesSent(PassOver(msgs, writable).log, fd) + BytesFor(PassOver(msgs, writable).msgs, fd)
  {
    if msgs != [] {
      var d := Reached(msgs[0], writable);
      var rest := PassOver(msgs[1..], writable - d);
      DeliveredFacts(msgs[0].target, writable);
      PassBytes(msgs[1..], writable - d, fd);
      PassBytesStep(msgs[0], d, rest, fd);
    }
  }

  /** The text a log carries to one descriptor, in sending order. */
  function Stream(log: seq<Sent>, fd: int): string
  {
    if log == [] then ""
    else (if log[0].fd == fd then log[0].text else "") + Stream(log[1..], fd)
  }

  lemma {:induction false} StreamConcat(a: seq<Sent>, b: seq<Sent>, fd: int)
    ensures Stream(a + b, fd) == Stream(a, fd) + Stream(b, fd)
  {
    if a == [] {
      assert a + b == b;
    } else {
      assert (a + b)[1..] == a[1..] + b;
      StreamConcat(a[1..], b, fd);
    }
  }

  // ---- rounds ----

  lemma DeliverableRound(msgs: seq<Message>, writable: set<int>, fd: int)
    requires Deliverable(msgs)
    ensures Deliverable(Round(msgs, writable).msgs)
    ensures Private(msgs, fd) ==> Private(Round(msgs, writable).msgs, fd)
  {
    MergeRespects(msgs, fd);
    PassRespects(Merge(msgs, 0), writable, fd);
  }

  lemma {:induction false} SomethingToSend(msgs: seq<Message>)
    requires Deliverable(msgs) && PendingCount(msgs) > 0
    ensures CanSend(msgs, WriteFds(msgs))
  {
    var m := SomebodyWaits(msgs);
    FdsFirst(m.target);
    var fd := Fds(m.target)[0];
    assert fd in m.target * WriteFds(msgs);
  }

  /** While somebody is owed something, a round with all of get_write_fds writable sends something. */
  lemma {:induction false} RoundProgress(msgs: seq<Message>)
    requires Deliverable(msgs)
    ensures PendingCount(Round(msgs, WriteFds(msgs)).msgs) <= PendingCount(msgs)
    ensures PendingCount(msgs) > 0 ==> PendingCount(Round(msgs, WriteFds(msgs)).msgs) < PendingCount(msgs)
  {
    var merged := Merge(msgs, 0);
    MergePending(msgs);
    MergeRespects(msgs, 0);
    PassCounts(merged, WriteFds(msgs));
    PassSends(merged, WriteFds(msgs));
    if PendingCount(merged) > 0 {
      SomethingToSend(merged);
    }
  }

  lemma {:induction false} SomebodyWaits(msgs: seq<Message>) returns (m: Message)
    requires PendingCount(msgs) > 0
    ensures m in msgs && m.target != {}
  {
    m := msgs[0];
    if m.target == {} {
      m := SomebodyWaits(msgs[1..]);
    }
  }

  /** Draining: after as many rounds as there were waiting pairs, nobody is owed anything. */
  lemma {:induction false} RoundsDrain(msgs: seq<Message>, n: nat)
    requires Deliverable(msgs) && n >= PendingCount(msgs)
    ensures PendingCount(Rounds(msgs, n).msgs) == 0
    decreases n
  {
    if n > 0 {
      var p := Round(msgs, WriteFds(msgs));
      RoundProgress(msgs);
      DeliverableRound(msgs, WriteFds(msgs), 0);
      RoundsDrain(p.msgs, n - 1);
    }
  }

  lemma {:induction false} RoundBytes(msgs: seq<Message>, writable: set<int>, fd: int)
    ensures var p := Round(msgs, writable);
            BytesFor(msgs, fd) == BytesSent(p.log, fd) + BytesFor(p.msgs, fd)
  {
    MergeKeepsBytes(msgs, fd);
    PassBytes(Merge(msgs, 0), writable, fd);
  }

  lemma AssocBytes(a: multiset<char>, b: multiset<char>, c: multiset<char>)
    ensures (a + b) + c == a + (b + c)
  {}

  lemma {:induction false} RoundsBytes(msgs: seq<Message>, n: nat, fd: int)
    ensures var p := Rounds(msgs, n);
            BytesFor(msgs, fd) == BytesSent(p.log, fd) + BytesFor(p.msgs, fd)
    decreases n
  {
    if n == 0 {
      assert Rounds(msgs, n).log == [];
    } else {
      var p := Round(msgs, WriteFds(msgs));
      RoundBytes(msgs, WriteFds(msgs), fd);
      RoundsBytes(p.msgs, n - 1, fd);
      var rest := Rounds(p.msgs, n - 1);
      BytesSentConcat(p.log, rest.log, fd);
      AssocBytes(BytesSent(p.log, fd), BytesSent(rest.log, fd), BytesFor(rest.msgs, fd));
    }
  }

  lemma {:induction false} NothingOwed(msgs: seq<Message>, fd: int)
    requires PendingCount(msgs) == 0
    ensures BytesFor(msgs, fd) == multiset{}
    ensures TextFor(msgs, {fd}) == ""
  {
    if msgs != [] {
      assert msgs[0].target == {};
      NothingOwed(msgs[1..], fd);
    }
  }

  /** Delivery: every recipient gets exactly the bytes that were queued for it, each once. */
  lemma {:induction false} EverythingIsDelivered(msgs: seq<Message>, n: nat, fd: int)
    requires Deliverable(msgs) && n >= PendingCount(msgs)
    ensures BytesSent(Rounds(msgs, n).log, fd) == BytesFor(msgs, fd)
  {
    RoundsDrain(msgs, n);
    RoundsBytes(msgs, n, fd);
    NothingOwed(Rounds(msgs, n).msgs, fd);
  }
}
