/** send_messages: one pass over the merged queue, and what repeated passes deliver. */
module Sending {
  import opened Messages
  import opened Merging
  import opened Ordering
  import opened Strings

  datatype Sent = Sent(fd: int, text: string)

  /** The recipients one message reaches in a pass. The iterator restarts at begin() after
      each erase and is then incremented, so exactly one target is never looked at again:
      the second smallest, when the smallest is writable. */
  function Delivered(target: set<int>, writable: set<int>): set<int>
  {
    var order := Fds(target);
    var hit := target * writable;
    if |order| >= 2 && order[0] in writable then hit - {order[1]} else hit
  }

  /** Only messages with a complete line are sent at all. */
  function Reached(m: Message, writable: set<int>): set<int>
  {
    if HasCrlf(m.text) then Delivered(m.target, writable) else {}
  }

  /** What stays queued of a message that has just reached d: nothing once all its targets are served. */
  function Kept(m: Message, d: set<int>): seq<Message>
  {
    if d != {} && m.target - d == {} then [] else [m.(target := m.target - d)]
  }

  /** The (descriptor, text) pairs of one message, in sending order. */
  function LogFor(fds: seq<int>, text: string): (log: seq<Sent>)
    ensures |log| == |fds|
    ensures forall i :: 0 <= i < |fds| ==> log[i] == Sent(fds[i], text)
  {
    seq(|fds|, i requires 0 <= i < |fds| => Sent(fds[i], text))
  }

  datatype Pass = Pass(msgs: seq<Message>, log: seq<Sent>)

  /** One pass over the queue with the writable descriptors of select(). */
  function PassOver(msgs: seq<Message>, writable: set<int>): Pass
  {
    if msgs == [] then Pass([], [])
    else
      var d := Reached(msgs[0], writable);
      var rest := PassOver(msgs[1..], writable - d);
      Pass(Kept(msgs[0], d) + rest.msgs, LogFor(Fds(d), msgs[0].text) + rest.log)
  }

  /** The descriptors not yet sent to when a pass comes to message i. */
  function StillWritable(msgs: seq<Message>, writable: set<int>, i: nat): set<int>
    requires i <= |msgs|
  {
    if i == 0 then writable else StillWritable(msgs[1..], writable - Reached(msgs[0], writable), i - 1)
  }

  lemma DeliveredFacts(target: set<int>, writable: set<int>)
    ensures Delivered(target, writable) <= target * writable
    ensures target * writable != {} ==> Delivered(target, writable) != {}
    ensures |target| == 1 ==> Delivered(target, writable) == target * writable
  {
    var order := Fds(target);
    FdsEnumerate(target);
    if target * writable != {} {
      var fd :| fd in target * writable;
      if |order| >= 2 && order[0] in writable {
        assert order[0] in order && order[0] != order[1];
        assert order[0] in Delivered(target, writable);
      } else {
        assert fd in Delivered(target, writable);
      }
    }
  }

  /** The second smallest target, when the smallest one is writable. */
  ghost predicate PassedOver(target: set<int>, writable: set<int>, fd: int) {
    exists least :: least in target * writable && least < fd
                    && forall x :: x in target && x != least ==> fd <= x
  }

  /** A writable target is passed over exactly when it is the second smallest and the smallest one is
      writable too. */
  lemma PassedOverExactly(target: set<int>, writable: set<int>, fd: int)
    requires fd in target * writable
    ensures fd !in Delivered(target, writable) <==> PassedOver(target, writable, fd)
  {
    var order := Fds(target);
    FdsEnumerate(target);
    if fd !in Delivered(target, writable) {
      assert order[0] in order && order[0] < order[1] == fd;
      assert order[0] in target * writable;
      forall x | x in target && x != order[0] ensures fd <= x {
        assert x in order;
      }
    }
    if least :| least in target * writable && least < fd && forall x :: x in target && x != least ==> fd <= x {
      SecondInOrder(target, least, fd);
    }
  }

  lemma SecondInOrder(target: set<int>, least: int, second: int)
    requires least in target && second in target && least < second
    requires forall x :: x in target && x != least ==> second <= x
    ensures |Fds(target)| >= 2 && Fds(target)[0] == least && Fds(target)[1] == second
  {
    var order := Fds(target);
    FdsEnumerate(target);
    assert least in order && second in order;
    assert order[0] in order && order[1] in order;
  }

  // ---- conservation ----

  function PairsOf(m: Message): multiset<Sent>
  {
    multiset(set fd | fd in m.target :: Sent(fd, m.text))
  }

  /** The (recipient, text) pairs waiting in the queue. */
  function Pairs(msgs: seq<Message>): multiset<Sent>
  {
    if msgs == [] then multiset{} else PairsOf(msgs[0]) + Pairs(msgs[1..])
  }

  lemma {:induction false} MultisetOfDistinct(log: seq<Sent>)
    requires forall i, j :: 0 <= i < j < |log| ==> log[i] != log[j]
    ensures multiset(log) == multiset(set s | s in log)
  {
    if log != [] {
      var rest := log[1..];
      assert log == [log[0]] + rest;
      MultisetOfDistinct(rest);
      assert (set s | s in log) == {log[0]} + (set s | s in rest);
    }
  }

  lemma LogMultiset(d: set<int>, text: string)
    ensures multiset(LogFor(Fds(d), text)) == multiset(set fd | fd in d :: Sent(fd, text))
  {
    var order := Fds(d);
    FdsEnumerate(d);
    var log := LogFor(order, text);
    MultisetOfDistinct(log);
    forall fd | fd in d ensures Sent(fd, text) in log {
      var i :| 0 <= i < |order| && order[i] == fd;
      assert log[i] == Sent(fd, text);
    }
    assert (set s | s in log) == (set fd | fd in d :: Sent(fd, text));
  }

  lemma {:induction false} PairsConcat(a: seq<Message>, b: seq<Message>)
    ensures Pairs(a + b) == Pairs(a) + Pairs(b)
  {
    if a == [] {
      assert a + b == b;
    } else {
      assert (a + b)[1..] == a[1..] + b;
      PairsConcat(a[1..], b);
    }
  }

  lemma KeptPairs(m: Message, d: set<int>)
    requires d <= m.target
    ensures PairsOf(m) == multiset(LogFor(Fds(d), m.text)) + Pairs(Kept(m, d))
  {
    var gone := set fd | fd in d :: Sent(fd, m.text);
    var left := set fd | fd in m.target - d :: Sent(fd, m.text);
    hide LogFor, Fds;
    LogMultiset(d, m.text);
    assert (set fd | fd in m.target :: Sent(fd, m.text)) == gone + left;
    if Kept(m, d) == [] {
      assert left == {};
    } else {
      assert Kept(m, d)[1..] == [];
    }
  }

  /** Pairs sent plus pairs still queued are the pairs queued before the pass. */
  lemma {:induction false} PassConserves(msgs: seq<Message>, writable: set<int>)
    ensures var p := PassOver(msgs, writable); Pairs(msgs) == multiset(p.log) + Pairs(p.msgs)
  {
    if msgs != [] {
      var d := Reached(msgs[0], writable);
      DeliveredFacts(msgs[0].target, writable);
      PassConserves(msgs[1..], writable - d);
      KeptPairs(msgs[0], d);
      PairsConcat(Kept(msgs[0], d), PassOver(msgs[1..], writable - d).msgs);
    }
  }

  lemma LogIndex(first: seq<Sent>, rest: seq<Sent>, i: nat)
    requires i < |first + rest|
    ensures (first + rest)[i] == if i < |first| then first[i] else rest[i - |first|]
  {}

  lemma {:induction false} PassLogSplit(msgs: seq<Message>, writable: set<int>)
    requires msgs != []
    ensures var d := Reached(msgs[0], writable);
      PassOver(msgs, writable).log == LogFor(Fds(d), msgs[0].text) + PassOver(msgs[1..], writable - d).log
  {}

  /** The log of a pass starts with the sends of the first message. */
  lemma {:induction false} PassLog(msgs: seq<Message>, writable: set<int>, i: nat)
    requires i < |PassOver(msgs, writable).log|
    ensures msgs != [] && Reached(msgs[0], writable) <= writable
    ensures var d := Reached(msgs[0], writable);
            var log, rest := PassOver(msgs, writable).log, PassOver(msgs[1..], writable - d).log;
            && (i < |d| ==> log[i].fd == Fds(d)[i] && log[i].fd in d)
            && (i >= |d| ==> i - |d| < |rest| && log[i] == rest[i - |d|])
  {
    var d := Reached(msgs[0], writable);
    DeliveredFacts(msgs[0].target, writable);
    PassLogSplit(msgs, writable);
    LogIndex(LogFor(Fds(d), msgs[0].text), PassOver(msgs[1..], writable - d).log, i);
    if i < |d| {
      FdsMember(d, i);
    }
  }

  lemma {:induction false} SendsAreWritable(msgs: seq<Message>, writable: set<int>, i: nat)
    requires i < |PassOver(msgs, writable).log|
    ensures PassOver(msgs, writable).log[i].fd in writable
    decreases |msgs|
  {
    PassLog(msgs, writable, i);
    var d := Reached(msgs[0], writable);
    if i >= |d| {
      SendsAreWritable(msgs[1..], writable - d, i - |d|);
    }
  }

  /** Each descriptor is sent to at most once per pass, and only when it was writable. */
  lemma {:induction false} OneSendEach(msgs: seq<Message>, writable: set<int>, i: nat, j: nat)
    requires i < j < |PassOver(msgs, writable).log|
    ensures var log := PassOver(msgs, writable).log;
            log[i].fd in writable && log[j].fd in writable && log[i].fd != log[j].fd
    decreases |msgs|
  {
    PassLog(msgs, writable, i);
    PassLog(msgs, writable, j);
    var d := Reached(msgs[0], writable);
    if j < |d| {
      FdsDistinct(d, i, j);
    } else {
      SendsAreWritable(msgs[1..], writable - d, j - |d|);
      if i >= |d| {
        OneSendEach(msgs[1..], writable - d, i - |d|, j - |d|);
      }
    }
  }

  // ---- what a pass leaves alone ----

  function Incomplete(msgs: seq<Message>): seq<Message>
  {
    if msgs == [] then []
    else (if HasCrlf(msgs[0].text) then [] else [msgs[0]]) + Incomplete(msgs[1..])
  }

  lemma {:induction false} IncompleteConcat(a: seq<Message>, b: seq<Message>)
    ensures Incomplete(a + b) == Incomplete(a) + Incomplete(b)
  {
    if a == [] {
      assert a + b == b;
    } else {
      assert (a + b)[1..] == a[1..] + b;
      IncompleteConcat(a[1..], b);
    }
  }

  /** Messages without "\r\n" stay as they are, in order. */
  lemma {:induction false} PassKeepsIncomplete(msgs: seq<Message>, writable: set<int>)
    ensures Incomplete(PassOver(msgs, writable).msgs) == Incomplete(msgs)
  {
    if msgs != [] {
      var m := msgs[0];
      var d := Reached(m, writable);
      PassKeepsIncomplete(msgs[1..], writable - d);
      IncompleteConcat(Kept(m, d), PassOver(msgs[1..], writable - d).msgs);
      if Kept(m, d) != [] {
        assert Kept(m, d)[1..] == [] && m.target - {} == m.target;
      }
    }
  }

  lemma KeptUnaddressed(m: Message, d: set<int>)
    requires d <= m.target
    ensures Unaddressed(Kept(m, d)) == if m.target == {} then 1 else 0
  {
    if Kept(m, d) != [] {
      assert Kept(m, d)[1..] == [];
      assert d == {} ==> m.target - d == m.target;
    }
  }

  /** A pass keeps the messages addressed to nobody, and leaves no others that are. */
  lemma {:induction false} UnaddressedStay(msgs: seq<Message>, writable: set<int>)
    ensures Unaddressed(PassOver(msgs, writable).msgs) == Unaddressed(msgs)
  {
    if msgs != [] {
      var d := Reached(msgs[0], writable);
      DeliveredFacts(msgs[0].target, writable);
      UnaddressedStay(msgs[1..], writable - d);
      KeptUnaddressed(msgs[0], d);
      UnaddressedConcat(Kept(msgs[0], d), PassOver(msgs[1..], writable - d).msgs);
    }
  }

  lemma {:induction false} PassLeft(msgs: seq<Message>, writable: set<int>)
    requires msgs != []
    ensures var d := Reached(msgs[0], writable);
      PassOver(msgs, writable).msgs == Kept(msgs[0], d) + PassOver(msgs[1..], writable - d).msgs
  {}

  lemma {:induction false} PassLeftOf(first: Message, some: seq<Message>, writable: set<int>)
    ensures var d := Reached(first, writable);
      PassOver([first] + some, writable).msgs == Kept(first, d) + PassOver(some, writable - d).msgs
  {
    assert ([first] + some)[1..] == some;
    PassLeft([first] + some, writable);
  }

  lemma {:induction false} LeftAround(msgs: seq<Message>, writable: set<int>, i: nat)
    requires i < |msgs|
    ensures var still := StillWritable(msgs, writable, i);
            var d := Reached(msgs[i], still);
            PassOver(msgs, writable).msgs
            == PassOver(msgs[..i], writable).msgs + Kept(msgs[i], d) + PassOver(msgs[i + 1..], still - d).msgs
  {
    hide PassOver, Reached, Kept;
    PassLeft(msgs, writable);
    var d := Reached(msgs[0], writable);
    if i == 0 {
      PassNothing(writable);
      assert msgs[..0] == [];
      EmptyPrefix(Kept(msgs[0], d));
    } else {
      var more, still := msgs[1..], StillWritable(msgs, writable, i);
      LeftAround(more, writable - d, i - 1);
      assert more[..i - 1] == msgs[1..i] && more[i..] == msgs[i + 1..] && msgs[..i] == [msgs[0]] + msgs[1..i];
      PassLeftOf(msgs[0], msgs[1..i], writable);
      var before, kept := PassOver(msgs[1..i], writable - d).msgs, Kept(msgs[i], Reached(msgs[i], still));
      var after := PassOver(msgs[i + 1..], still - Reached(msgs[i], still)).msgs;
      Assoc(Kept(msgs[0], d), before, kept);
      Assoc(Kept(msgs[0], d), before + kept, after);
    }
  }

  lemma {:induction false} PassNothing(writable: set<int>)
    ensures PassOver([], writable) == Pass([], [])
  {}

  /** Each message, between what is left of those around it: it is gone exactly when it was addressed
      to somebody and all of its targets were reached; otherwise it stays for the rest of them. */
  lemma {:induction false} LeavesWhenServed(msgs: seq<Message>, writable: set<int>, i: nat)
    requires i < |msgs|
    ensures var m, still := msgs[i], StillWritable(msgs, writable, i);
            var d := Reached(m, still);
            PassOver(msgs, writable).msgs
            == PassOver(msgs[..i], writable).msgs
               + (if m.target != {} && m.target <= d then [] else [m.(target := m.target - d)])
               + PassOver(msgs[i + 1..], still - d).msgs
  {
    hide PassOver;
    var d := Reached(msgs[i], StillWritable(msgs, writable, i));
    LeftAround(msgs, writable, i);
    assert msgs[i].target - d == {} <==> msgs[i].target <= d;
    DeliveredFacts(msgs[i].target, StillWritable(msgs, writable, i));
  }

  // ---- progress ----

  /** Some message that may be sent has a writable target. */
  ghost predicate CanSend(msgs: seq<Message>, writable: set<int>) {
    exists m :: m in msgs && HasCrlf(m.text) && m.target * writable != {}
  }

  lemma KeptPending(m: Message, d: set<int>)
    requires d <= m.target
    ensures PendingCount(Kept(m, d)) == |m.target| - |d|
  {
    assert |m.target - d| == |m.target| - |d|;
    if Kept(m, d) != [] {
      assert Kept(m, d)[1..] == [];
    }
  }

  /** Every send uses up exactly one waiting pair. */
  lemma {:induction false} PassCounts(msgs: seq<Message>, writable: set<int>)
    ensures var p := PassOver(msgs, writable); PendingCount(msgs) == PendingCount(p.msgs) + |p.log|
  {
    if msgs != [] {
      var d := Reached(msgs[0], writable);
      DeliveredFacts(msgs[0].target, writable);
      PassCounts(msgs[1..], writable - d);
      KeptPending(msgs[0], d);
      PendingCountConcat(Kept(msgs[0], d), PassOver(msgs[1..], writable - d).msgs);
    }
  }

  lemma CanSendStep(msgs: seq<Message>, writable: set<int>)
    requires msgs != []
    ensures CanSend(msgs, writable) <==> Reached(msgs[0], writable) != {} || CanSend(msgs[1..], writable)
  {
    var m := msgs[0];
    DeliveredFacts(m.target, writable);
    assert forall x :: x in msgs <==> x == m || x in msgs[1..];
    assert Reached(m, writable) != {} <==> HasCrlf(m.text) && m.target * writable != {};
  }

  /** Something is sent exactly when something can be sent. */
  lemma {:induction false} PassSends(msgs: seq<Message>, writable: set<int>)
    ensures PassOver(msgs, writable).log != [] <==> CanSend(msgs, writable)
  {
    if msgs != [] {
      CanSendStep(msgs, writable);
      var d := Reached(msgs[0], writable);
      assert |LogFor(Fds(d), msgs[0].text)| == |d|;
      PassSends(msgs[1..], writable - d);
      assert d == {} ==> writable - d == writable;
    }
  }
}
