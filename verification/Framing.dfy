/** Runs of the server loop over one shared queue: reads of many clients between send rounds. */
module Framing {
  import opened Strings
  import opened Messages
  import opened Merging
  import opened Sending
  import opened Draining
  import opened Receiving

  datatype Event = Read(client: int, text: string) | Send(writable: set<int>)

  function Step(commands: Commands, q: Queue, e: Event): Queue
  {
    match e
    case Read(client, text) => Receive(commands, q, client, text)
    case Send(writable) => q.(msgs := Round(q.msgs, writable).msgs)
  }

  function Run(commands: Commands, q: Queue, events: seq<Event>): Queue
    decreases |events|
  {
    if events == [] then q else Run(commands, Step(commands, q, events[0]), events[1..])
  }

  /** The bytes one client sent during the run, however they were cut into reads. */
  function Input(events: seq<Event>, client: int): string
  {
    if events == [] then ""
    else (if events[0].Read? && events[0].client == client then events[0].text else "") + Input(events[1..], client)
  }

  /** Whenever messages are sent, merging glues no unfinished line. */
  ghost predicate SendsSpareInput(commands: Commands, q: Queue, events: seq<Event>)
    decreases |events|
  {
    events != [] ==>
      && (events[0].Send? ==> !TouchesInput(q.msgs))
      && SendsSpareInput(commands, Step(commands, q, events[0]), events[1..])
  }

  // ---- sending does not touch unfinished lines ----

  lemma {:induction false} KeptTails(m: Message, writable: set<int>, c: int)
    ensures Tails(Kept(m, Reached(m, writable)), c) == Tails([m], c)
    ensures (Unfinished(m) ==> m.target == {})
      ==> forall x :: x in Kept(m, Reached(m, writable)) && Unfinished(x) ==> x.target == {}
  {
    var d := Reached(m, writable);
    TailsOfOne(m, c);
    if Unfinished(m) {
      assert !HasCrlf(m.text);
      assert m.target - {} == m.target;
      assert Kept(m, d) == [m];
    } else if Kept(m, d) != [] {
      TailsOfOne(m.(target := m.target - d), c);
    }
  }

  lemma {:induction false} PassKeepsTails(msgs: seq<Message>, writable: set<int>, c: int)
    requires InputUnaddressed(msgs)
    ensures Tails(PassOver(msgs, writable).msgs, c) == Tails(msgs, c)
    ensures InputUnaddressed(PassOver(msgs, writable).msgs)
  {
    if msgs != [] {
      var d := Reached(msgs[0], writable);
      var rest := PassOver(msgs[1..], writable - d);
      assert msgs[0] in msgs;
      PassKeepsTails(msgs[1..], writable - d, c);
      KeptTails(msgs[0], writable, c);
      TailsConcat(Kept(msgs[0], d), rest.msgs, c);
      TailsOfOne(msgs[0], c);
    }
  }

  lemma {:induction false} RoundKeepsTails(msgs: seq<Message>, writable: set<int>, c: int)
    requires InputUnaddressed(msgs) && !TouchesInput(msgs)
    ensures Tails(Round(msgs, writable).msgs, c) == Tails(msgs, c)
    ensures InputUnaddressed(Round(msgs, writable).msgs)
  {
    MergeSparesInput(msgs, c);
    MergeKeepsUnaddressed(msgs);
    PassKeepsTails(Merge(msgs, 0), writable, c);
  }

  // ---- framing over runs ----

  lemma {:induction false} StepFrames(commands: Commands, q: Queue, e: Event, c: int)
    requires RepliesAreLines(commands) && WellFramed(q.msgs)
    requires e.Send? ==> !TouchesInput(q.msgs)
    ensures WellFramed(Step(commands, q, e).msgs)
    ensures FramedBy(q, c, Input([e], c), Step(commands, q, e), c)
    ensures '\n' !in Pending(q.msgs, c)
  {
    TailsUnfinished(q.msgs, c);
    assert [e][1..] == [];
    EmptySuffix(Pending(q.msgs, c));
    if e.Send? {
      forall d ensures Tails(Step(commands, q, e).msgs, d) == Tails(q.msgs, d) {
        RoundKeepsTails(q.msgs, e.writable, d);
      }
      RoundKeepsTails(q.msgs, e.writable, c);
    } else {
      ReceiveFrames(commands, q, e.client, e.text, c);
      EmptySuffix(e.text);
    }
  }

  lemma {:induction false} TailsUnfinished(msgs: seq<Message>, c: int)
    ensures forall t :: t in Tails(msgs, c) ==> '\n' !in t
  {
    if msgs != [] {
      TailsUnfinished(msgs[1..], c);
    }
  }

  lemma FramedByCompose(q: Queue, mid: Queue, r: Queue, c: int, a: string, b: string)
    requires FramedBy(q, c, a, mid, c) && FramedBy(mid, c, b, r, c)
    ensures FramedBy(q, c, a + b, r, c)
  {
    var tail := Pending(q.msgs, c);
    LinesOfConcat(tail + a, b);
    Assoc(tail, a, b);
    Assoc(LinesOf(q.executed, c), Lines(tail + a), Lines(Rest(tail + a) + b));
  }

  /** Framing: over any interleaving of reads and send rounds, each client's executed lines are the
      lines of the concatenation of its chunks, and what is queued for it is the unfinished rest. */
  lemma {:induction false} RunFrames(commands: Commands, q: Queue, events: seq<Event>, c: int)
    requires RepliesAreLines(commands) && WellFramed(q.msgs)
    requires SendsSpareInput(commands, q, events)
    ensures WellFramed(Run(commands, q, events).msgs)
    ensures FramedBy(q, c, Input(events, c), Run(commands, q, events), c)
    decreases |events|
  {
    if events == [] {
      TailsUnfinished(q.msgs, c);
      EmptySuffix(Pending(q.msgs, c));
    } else {
      var mid := Step(commands, q, events[0]);
      StepFrames(commands, q, events[0], c);
      RunFrames(commands, mid, events[1..], c);
      FramedByCompose(q, mid, Run(commands, q, events), c, Input([events[0]], c), Input(events[1..], c));
      InputOfFirst(events, c);
    }
  }

  lemma {:induction false} InputOfFirst(events: seq<Event>, c: int)
    requires events != []
    ensures Input(events, c) == Input([events[0]], c) + Input(events[1..], c)
  {
    assert [events[0]][1..] == [];
    EmptySuffix(if events[0].Read? && events[0].client == c then events[0].text else "");
  }

  /** Chunking and interleaving do not matter: two runs from an empty queue in which a client sent
      the same bytes have executed the same lines for it, and hold the same unfinished line. */
  lemma {:induction false} ChunkingIndependent(commands: Commands, e1: seq<Event>, e2: seq<Event>, c: int)
    requires RepliesAreLines(commands)
    requires SendsSpareInput(commands, Queue([], []), e1)
    requires SendsSpareInput(commands, Queue([], []), e2)
    requires Input(e1, c) == Input(e2, c)
    ensures var q1, q2 := Run(commands, Queue([], []), e1), Run(commands, Queue([], []), e2);
            && LinesOf(q1.executed, c) == LinesOf(q2.executed, c) == Lines(Input(e1, c))
            && Pending(q1.msgs, c) == Pending(q2.msgs, c) == Rest(Input(e1, c))
  {
    var q := Queue([], []);
    RunFrames(commands, q, e1, c);
    RunFrames(commands, q, e2, c);
    EmptyPrefix(Input(e1, c));
    assert [] + Lines(Input(e1, c)) == Lines(Input(e1, c));
  }

  /** Whenever messages are sent, at most one is addressed to nobody. */
  ghost predicate SendsFindOneUnaddressed(commands: Commands, q: Queue, events: seq<Event>)
    decreases |events|
  {
    events != [] ==>
      && (events[0].Send? ==> Unaddressed(q.msgs) <= 1)
      && SendsFindOneUnaddressed(commands, Step(commands, q, events[0]), events[1..])
  }

  lemma {:induction false} OneUnaddressedIsEnough(commands: Commands, q: Queue, events: seq<Event>)
    requires RepliesAreLines(commands) && WellFramed(q.msgs)
    requires SendsFindOneUnaddressed(commands, q, events)
    ensures SendsSpareInput(commands, q, events)
    decreases |events|
  {
    if events != [] {
      if events[0].Send? {
        OneUnaddressedIsSpared(q.msgs);
      }
      StepFrames(commands, q, events[0], 0);
      OneUnaddressedIsEnough(commands, Step(commands, q, events[0]), events[1..]);
    }
  }

  /** Framing holds in particular while never more than one message is addressed to nobody when messages
      are sent: an unfinished line of one client, say. */
  lemma {:induction false} RunFramesOneUnaddressed(commands: Commands, q: Queue, events: seq<Event>, c: int)
    requires RepliesAreLines(commands) && WellFramed(q.msgs)
    requires SendsFindOneUnaddressed(commands, q, events)
    ensures WellFramed(Run(commands, q, events).msgs)
    ensures FramedBy(q, c, Input(events, c), Run(commands, q, events), c)
  {
    OneUnaddressedIsEnough(commands, q, events);
    RunFrames(commands, q, events, c);
  }

  /** Reads alone never need the hypothesis about sending. */
  lemma {:induction false} ReadsNeedNothing(commands: Commands, q: Queue, events: seq<Event>)
    requires forall e :: e in events ==> e.Read?
    ensures SendsSpareInput(commands, q, events)
    decreases |events|
  {
    if events != [] {
      assert events[0] in events;
      ReadsNeedNothing(commands, Step(commands, q, events[0]), events[1..]);
    }
  }
}
