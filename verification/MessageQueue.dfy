/** Server::msgs as the server changes it: the loops of receive_messages.cpp and
    send_messages.cpp, each proved against the function that specifies it. */
module MessageQueue {
  import opened Strings
  import opened Messages
  import opened Ordering
  import opened Merging
  import opened Sending
  import opened Receiving
  import opened SendLoop
  import opened Draining

  class MessageQueue {
    var msgs: seq<Message>
    /** The lines executed so far; they stand for all server state a command may consult. */
    var executed: seq<Executed>
    const commands: Commands

    ghost function State(): Queue
      reads this
    {
      Queue(msgs, executed)
    }

    constructor (commands: Commands)
      ensures State() == Queue([], []) && this.commands == commands
    {
      msgs, executed := [], [];
      this.commands := commands;
    }

    // ---- receive_messages.cpp ----

    /** find_incomplete_msg */
    method FindIncompleteMsg(client: int) returns (pos: int)
      ensures pos == FindIncomplete(msgs, client)
    {
      var i := 0;
      while i < |msgs|
        invariant 0 <= i <= |msgs|
        invariant var f := FindIncomplete(msgs[i..], client);
                  FindIncomplete(msgs, client) == if f == -1 then -1 else f + i
      {
        if msgs[i].emitter == client && Unfinished(msgs[i]) {
          return i;
        }
        assert msgs[i..][1..] == msgs[i + 1..];
        i := i + 1;
      }
      return -1;
    }

    /** check_for_cmds: the command rewrites its message and may append to the queue. */
    method CheckForCmds(m: Message) returns (reply: Message)
      modifies this
      ensures reply == commands(old(executed), old(msgs), m).msg
      ensures msgs == old(msgs) + commands(old(executed), old(msgs), m).appended
      ensures executed == old(executed) + [Executed(m.emitter, m.text)]
    {
      var r := commands(executed, msgs, m);
      msgs := msgs + r.appended;
      executed := executed + [Executed(m.emitter, m.text)];
      reply := r.msg;
    }

    /** One turn of the loop in found_new_line. */
    method ExecuteLine(client: int, pos: int, text: string)
      requires -1 <= pos < |msgs| && '\n' in text
      modifies this
      ensures State() == FirstLine(commands, old(State()), client, pos, text)
    {
      var line := text[..Find(text, '\n') + 1];
      if pos != -1 {
        msgs := msgs[pos := msgs[pos].(text := msgs[pos].text + line)];
        var reply := CheckForCmds(msgs[pos]);
        if reply.text == "" || reply.target == {} {
          msgs := msgs[..pos] + msgs[pos + 1..];
        } else {
          msgs := msgs[pos := reply];
        }
      } else {
        var reply := CheckForCmds(Message(client, {}, line));
        if reply.text != "" && reply.target != {} {
          msgs := msgs + [reply];
        }
      }
    }

    /** found_new_line */
    method FoundNewLine(client: int, chunk: string, firstPos: int)
      requires -1 <= firstPos < |msgs|
      modifies this
      ensures State() == Feed(commands, old(State()), client, firstPos, chunk)
    {
      var text, pos := chunk, firstPos;
      while '\n' in text
        invariant -1 <= pos < |msgs|
        invariant Feed(commands, State(), client, pos, text)
               == Feed(commands, old(State()), client, firstPos, chunk)
        decreases |text|
      {
        ExecuteLine(client, pos, text);
        pos := -1;
        text := text[Find(text, '\n') + 1..];
      }
      if text != "" {
        msgs := msgs + [Message(client, {}, text)];
      }
    }

    /** found_text */
    method FoundText(client: int, text: string)
      modifies this
      ensures State() == Receive(commands, old(State()), client, text)
    {
      var pos := FindIncompleteMsg(client);
      if '\n' !in text {
        if pos != -1 {
          msgs := msgs[pos := msgs[pos].(text := msgs[pos].text + text)];
        } else {
          msgs := msgs + [Message(client, {}, text)];
        }
      } else {
        FoundNewLine(client, text, pos);
      }
    }

    // ---- send_messages.cpp ----

    /** The inner loop of merge_msgs: the next message with the target set of message a. */
    method FindSame(a: nat) returns (b: nat)
      requires a < |msgs|
      ensures b == FirstSame(msgs, a, a + 1)
    {
      b := a + 1;
      while b < |msgs| && msgs[b].target != msgs[a].target
        invariant a < b <= |msgs|
        invariant FirstSame(msgs, a, b) == FirstSame(msgs, a, a + 1)
        decreases |msgs| - b
      {
        b := b + 1;
      }
    }

    /** The text of b is appended to a, and b erased. */
    method AppendAndErase(a: nat, b: nat)
      requires a < b < |msgs|
      modifies this`msgs
      ensures msgs == Glue(old(msgs), a, b) && |msgs| == |old(msgs)| - 1
    {
      GlueInPlace(msgs, a, b);
      msgs := msgs[a := msgs[a].(text := msgs[a].text + msgs[b].text)];
      msgs := msgs[..b] + msgs[b + 1..];
    }

    /** One turn of the outer loop of merge_msgs: the index it goes on with. */
    method MergeOne(a: nat) returns (next: nat)
      requires a < |msgs|
      modifies this`msgs
      ensures next <= |msgs| && |msgs| - next < |old(msgs)| - a
      ensures Merge(msgs, next) == Merge(old(msgs), a)
    {
      hide Merge;
      var b := FindSame(a);
      var it: int := a;
      MergeStep(msgs, a);
      if b < |msgs| {
        AppendAndErase(a, b);
        it := b - 2;
      }
      next := it + 1;
    }

    /** merge_msgs */
    method MergeMsgs()
      modifies this`msgs
      ensures msgs == Merge(old(msgs), 0)
    {
      if |msgs| <= 1 {
        MergeShort(msgs);
        return;
      }
      var a := 0;
      while a < |msgs|
        invariant 0 <= a <= |msgs|
        invariant Merge(msgs, a) == Merge(old(msgs), 0)
        decreases |msgs| - a
      {
        a := MergeOne(a);
      }
    }

    /** send_messages, after check_msgs_to_delete */
    method SendMessages(writeFds: set<int>) returns (log: seq<Sent>)
      modifies this`msgs
      ensures Pass(msgs, log) == Round(old(msgs), writeFds)
    {
      MergeMsgs();
      ghost var merged := msgs;
      var writable := writeFds;
      log := [];
      var i := 0;
      while i < |msgs|
        invariant 0 <= i <= |msgs|
        invariant PassOver(merged, writeFds) == Continue(msgs[..i], log, PassOver(msgs[i..], writable))
        decreases |msgs| - i
      {
        var m := msgs[i];
        var left, emptied, stillWritable, sent := SendOne(m, writable);
        ContinueStep(msgs, i, log, writable);
        ghost var before := msgs;
        if emptied {
          msgs := msgs[..i] + msgs[i + 1..];
          assert msgs[..i] == before[..i] + [] && msgs[i..] == before[i + 1..];
        } else {
          msgs := msgs[i := m.(target := left)];
          assert msgs[..i + 1] == before[..i] + [msgs[i]] && msgs[i + 1..] == before[i + 1..];
          i := i + 1;
        }
        writable, log := stillWritable, log + sent;
      }
    }
  }

  lemma GlueInPlace(msgs: seq<Message>, a: nat, b: nat)
    requires a < b < |msgs|
    ensures var longer := msgs[a := msgs[a].(text := msgs[a].text + msgs[b].text)];
            longer[..b] + longer[b + 1..] == Glue(msgs, a, b)
  {}

  /** A pass whose first messages have been dealt with. */
  ghost function Continue(done: seq<Message>, log: seq<Sent>, rest: Pass): Pass
  {
    Pass(done + rest.msgs, log + rest.log)
  }

  lemma {:induction false} ContinueStep(msgs: seq<Message>, i: nat, log: seq<Sent>, writable: set<int>)
    requires i < |msgs|
    ensures Continue(msgs[..i], log, PassOver(msgs[i..], writable))
         == Continue(msgs[..i] + Kept(msgs[i], Reached(msgs[i], writable)),
                     log + LogFor(Fds(Reached(msgs[i], writable)), msgs[i].text),
                     PassOver(msgs[i + 1..], writable - Reached(msgs[i], writable)))
  {
    var d := Reached(msgs[i], writable);
    var rest := PassOver(msgs[i + 1..], writable - d);
    assert msgs[i..][0] == msgs[i] && msgs[i..][1..] == msgs[i + 1..];
    Assoc(msgs[..i], Kept(msgs[i], d), rest.msgs);
    Assoc(log, LogFor(Fds(d), msgs[i].text), rest.log);
  }

  lemma LogGrows(sent: set<int>, fd: int, text: string)
    requires forall x :: x in sent ==> x < fd
    ensures LogFor(Fds(sent + {fd}), text) == LogFor(Fds(sent), text) + [Sent(fd, text)]
  {
    FdsAppend(sent, fd);
  }

  lemma AllSent(m: Message, writable: set<int>, sent: set<int>)
    requires sent == if HasCrlf(m.text) then Delivered(m.target, writable) else {}
    ensures Reached(m, writable) == sent
    ensures Kept(m, sent) == [] <==> sent != {} && m.target - sent == {}
  {}

  /** Where the inner loop of send_messages stands. */
  ghost predicate Serving(m: Message, writable: set<int>, sent: set<int>, last: int, order: seq<int>, i: nat,
                          left: set<int>, still: set<int>, log: seq<Sent>)
  {
    && left == m.target - sent && still == writable - sent
    && log == LogFor(Fds(sent), m.text) && order == Fds(left)
    && if HasCrlf(m.text) then Progress(m.target, writable, sent, last, order, i) else sent == {}
  }

  lemma ServingStart(m: Message, writable: set<int>)
    ensures Serving(m, writable, {}, 0, Fds(m.target), 0, m.target, writable, [])
  {
    Start(m.target, writable);
    assert m.target - {} == m.target && writable - {} == writable;
  }

  lemma ServingSend(m: Message, writable: set<int>, sent: set<int>, last: int, order: seq<int>, i: nat,
                    left: set<int>, still: set<int>, log: seq<Sent>)
    requires HasCrlf(m.text) && i < |order| && order[i] in still
    requires Serving(m, writable, sent, last, order, i, left, still, log)
    ensures var fd, more := order[i], log + [Sent(order[i], m.text)];
      if left - {fd} == {} then ServedAs(m, writable, left - {fd}, true, still - {fd}, more)
      else Serving(m, writable, sent + {fd}, fd, Fds(left - {fd}), 1, left - {fd}, still - {fd}, more)
  {
    var fd := order[i];
    Send(m.target, writable, sent, last, order, i);
    LogGrows(sent, fd, m.text);
    assert left - {fd} == m.target - (sent + {fd}) && still - {fd} == writable - (sent + {fd});
    if left - {fd} == {} {
      AllSent(m, writable, sent + {fd});
    }
  }

  lemma ServingSkip(m: Message, writable: set<int>, sent: set<int>, last: int, order: seq<int>, i: nat,
                    left: set<int>, still: set<int>, log: seq<Sent>)
    requires i < |order| && !(order[i] in still && HasCrlf(m.text))
    requires Serving(m, writable, sent, last, order, i, left, still, log)
    ensures Serving(m, writable, sent, last, order, i + 1, left, still, log)
  {
    if HasCrlf(m.text) {
      Skip(order, still, if sent == {} then 0 else 1, i);
    }
  }

  lemma ServingEnd(m: Message, writable: set<int>, sent: set<int>, last: int, order: seq<int>,
                   left: set<int>, still: set<int>, log: seq<Sent>)
    requires Serving(m, writable, sent, last, order, |order|, left, still, log)
    requires sent != {} ==> left != {}
    ensures ServedAs(m, writable, left, false, still, log)
  {
    if HasCrlf(m.text) {
      Finish(m.target, writable, sent, last, order);
    }
    AllSent(m, writable, sent);
  }

  /** What the inner loop leaves of a message, and what it has sent. */
  ghost predicate ServedAs(m: Message, writable: set<int>, left: set<int>, emptied: bool, still: set<int>,
                           log: seq<Sent>)
  {
    && left == m.target - Reached(m, writable)
    && still == writable - Reached(m, writable)
    && log == LogFor(Fds(Reached(m, writable)), m.text)
    && (emptied <==> Kept(m, Reached(m, writable)) == [])
  }

  /** The inner loop of send_messages over the targets of one message. */
  method SendOne(m: Message, writable: set<int>)
      returns (left: set<int>, emptied: bool, stillWritable: set<int>, log: seq<Sent>)
    ensures left == m.target - Reached(m, writable)
    ensures stillWritable == writable - Reached(m, writable)
    ensures log == LogFor(Fds(Reached(m, writable)), m.text)
    ensures emptied <==> Kept(m, Reached(m, writable)) == []
  {
    left, stillWritable, log, emptied := m.target, writable, [], false;
    var order := Fds(left);
    var i := 0;
    ghost var sent, last := {}, 0;
    ServingStart(m, writable);
    while i < |order|
      invariant 0 <= i <= |order| == |left| && (sent != {} ==> left != {})
      invariant Serving(m, writable, sent, last, order, i, left, stillWritable, log)
      decreases |left|, |order| - i
    {
      var fd := order[i];
      if fd in stillWritable && HasCrlf(m.text) {
        ServingSend(m, writable, sent, last, order, i, left, stillWritable, log);
        FdsMember(left, i);
        log := log + [Sent(fd, m.text)];
        stillWritable := stillWritable - {fd};
        left := left - {fd};
        if left == {} {
          emptied := true;
          return;
        }
        sent, last := sent + {fd}, fd;
        order := Fds(left);
        i := 0;
      } else {
        ServingSkip(m, writable, sent, last, order, i, left, stillWritable, log);
      }
      i := i + 1;
    }
    ServingEnd(m, writable, sent, last, order, left, stillWritable, log);
  }
}
