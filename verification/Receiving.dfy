/** found_text and found_new_line: reassembly of lines inside the shared queue. */
module Receiving {
  import opened Strings
  import opened Messages
  import opened Merging
  import opened Sending
  import opened Draining

  /** A line handed to check_for_cmds. */
  datatype Executed = Executed(emitter: int, line: string)

  /** What a command does: the message it was given, rewritten, and the messages it appended. */
  datatype Reply = Reply(msg: Message, appended: seq<Message>)

  /** check_for_cmds, as a function of everything it can look at: the lines executed so far
      (which determine the rest of the server's state), the queue and the message. */
  type Commands = (seq<Executed>, seq<Message>, Message) -> Reply

  datatype Queue = Queue(msgs: seq<Message>, executed: seq<Executed>)

  /** The handled message stays queued only with a text and a recipient. */
  function Settle(m: Message): seq<Message>
  {
    if m.text == "" || m.target == {} then [] else [m]
  }

  /** Position of the unfinished message of a client, -1 when there is none. */
  function FindIncomplete(msgs: seq<Message>, client: int): (i: int)
    ensures -1 <= i < |msgs|
    ensures i >= 0 ==> msgs[i].emitter == client && Unfinished(msgs[i])
    ensures i == -1 ==> Tails(msgs, client) == []
  {
    if msgs == [] then -1
    else if msgs[0].emitter == client && Unfinished(msgs[0]) then 0
    else
      var i := FindIncomplete(msgs[1..], client);
      if i == -1 then -1 else i + 1
  }

  /** The first line of text is executed: it completes message pos, or is a message of its own. */
  function FirstLine(commands: Commands, q: Queue, client: int, pos: int, text: string): Queue
    requires -1 <= pos < |q.msgs| && '\n' in text
  {
    var k := Find(text, '\n') + 1;
    if pos != -1 then
      var m := q.msgs[pos].(text := q.msgs[pos].text + text[..k]);
      var reply := commands(q.executed, q.msgs[pos := m], m);
      Queue(q.msgs[..pos] + Settle(reply.msg) + q.msgs[pos + 1..] + reply.appended,
            q.executed + [Executed(m.emitter, m.text)])
    else
      var m := Message(client, {}, text[..k]);
      var reply := commands(q.executed, q.msgs, m);
      Queue(q.msgs + reply.appended + Settle(reply.msg), q.executed + [Executed(m.emitter, m.text)])
  }

  /** found_new_line: consume the text line by line, then queue what is left. */
  function Feed(commands: Commands, q: Queue, client: int, pos: int, text: string): Queue
    requires -1 <= pos < |q.msgs|
    decreases |text|
  {
    if '\n' in text then
      Feed(commands, FirstLine(commands, q, client, pos, text), client, -1, text[Find(text, '\n') + 1..])
    else if text == "" then q
    else q.(msgs := q.msgs + [Message(client, {}, text)])
  }

  /** found_text: what one successful read of a client does to the queue. */
  function Receive(commands: Commands, q: Queue, client: int, text: string): Queue
  {
    var pos := FindIncomplete(q.msgs, client);
    if '\n' in text then Feed(commands, q, client, pos, text)
    else if pos != -1 then q.(msgs := q.msgs[pos := q.msgs[pos].(text := q.msgs[pos].text + text)])
    else q.(msgs := q.msgs + [Message(client, {}, text)])
  }

  // ---- the framing that is meant ----

  /** The complete lines of a byte stream, each with its line feed. */
  function Lines(s: string): seq<string>
    decreases |s|
  {
    if '\n' !in s then [] else [s[..Find(s, '\n') + 1]] + Lines(s[Find(s, '\n') + 1..])
  }

  /** What follows the last line feed. */
  function Rest(s: string): string
    decreases |s|
  {
    if '\n' !in s then s else Rest(s[Find(s, '\n') + 1..])
  }

  lemma {:induction false} LinesOfFirst(l: string, r: string)
    requires '\n' !in l
    ensures Lines(l + ['\n'] + r) == [l + ['\n']] + Lines(r)
    ensures Rest(l + ['\n'] + r) == Rest(r)
  {
    var s := l + ['\n'] + r;
    FindAfter(l, '\n', r);
    assert s[|l|] == '\n';
    assert s[..|l| + 1] == l + ['\n'];
  }

  lemma {:induction false} LinesOfConcat(a: string, b: string)
    ensures Lines(a + b) == Lines(a) + Lines(Rest(a) + b)
    ensures Rest(a + b) == Rest(Rest(a) + b)
    decreases |a|
  {
    if '\n' in a {
      var k := Find(a, '\n');
      var l, r := a[..k], a[k + 1..];
      FindCut(a, '\n');
      Assoc(l + ['\n'], r, b);
      LinesOfFirst(l, r);
      LinesOfFirst(l, r + b);
      LinesOfConcat(r, b);
      Assoc([l + ['\n']], Lines(r), Lines(Rest(r) + b));
    } else {
      EmptyPrefix(Lines(a + b));
    }
  }

  function Flatten(pieces: seq<string>): string
  {
    if pieces == [] then "" else pieces[0] + Flatten(pieces[1..])
  }

  ghost predicate IsLine(l: string) {
    |l| > 0 && l[|l| - 1] == '\n' && '\n' !in l[..|l| - 1]
  }

  lemma {:induction false} FlattenFirst(piece: string, pieces: seq<string>)
    ensures Flatten([piece] + pieces) == piece + Flatten(pieces)
  {
    assert ([piece] + pieces)[1..] == pieces;
  }

  /** Lines and Rest lose nothing of the stream. */
  lemma {:induction false} LinesAndRest(s: string)
    ensures Flatten(Lines(s)) + Rest(s) == s
    decreases |s|
  {
    if '\n' in s {
      var k := Find(s, '\n');
      var l, r := s[..k], s[k + 1..];
      FindCut(s, '\n');
      LinesOfFirst(l, r);
      LinesAndRest(r);
      FlattenFirst(l + ['\n'], Lines(r));
      Assoc(l + ['\n'], Flatten(Lines(r)), Rest(r));
    } else {
      EmptyPrefix(s);
    }
  }

  /** Lines and Rest cut a stream at its line feeds and nowhere else. */
  lemma {:induction false} LinesAreLines(s: string)
    ensures forall l :: l in Lines(s) ==> IsLine(l)
    ensures '\n' !in Rest(s)
    decreases |s|
  {
    if '\n' in s {
      var k := Find(s, '\n') + 1;
      FindFirst(s, '\n');
      LinesAreLines(s[k..]);
      assert s[..k][..k - 1] == s[..k - 1];
      assert IsLine(s[..k]);
    }
  }

  /** A text without a line feed delays the first line and changes nothing else. */
  lemma LinesAfterTail(tail: string, text: string)
    requires '\n' !in tail && '\n' in text
    ensures Lines(tail + text) == [tail + text[..Find(text, '\n') + 1]] + Lines(text[Find(text, '\n') + 1..])
    ensures Rest(tail + text) == Rest(text[Find(text, '\n') + 1..])
  {
    var k := Find(text, '\n');
    var l := tail + text[..k];
    FindCut(text, '\n');
    assert tail + text == l + ['\n'] + text[k + 1..];
    assert tail + text[..k + 1] == l + ['\n'];
    LinesOfFirst(l, text[k + 1..]);
  }

  // ---- one read ----

  /** Commands append only messages with a line feed, and leave either no reply or one with a line feed. */
  ghost predicate RepliesAreLines(commands: Commands) {
    forall h, q, m ::
      && (forall x :: x in commands(h, q, m).appended ==> !Unfinished(x))
      && (forall x :: x in Settle(commands(h, q, m).msg) ==> !Unfinished(x))
  }

  /** At most one unfinished line per client, addressed to nobody. */
  ghost predicate WellFramed(msgs: seq<Message>) {
    InputUnaddressed(msgs) && forall c :: |Tails(msgs, c)| <= 1
  }

  function Pending(msgs: seq<Message>, client: int): string
  {
    if Tails(msgs, client) == [] then "" else Tails(msgs, client)[0]
  }

  function LinesOf(executed: seq<Executed>, client: int): seq<string>
  {
    if executed == [] then []
    else (if executed[0].emitter == client then [executed[0].line] else []) + LinesOf(executed[1..], client)
  }

  lemma {:induction false} LinesOfConcatLog(a: seq<Executed>, b: seq<Executed>, client: int)
    ensures LinesOf(a + b, client) == LinesOf(a, client) + LinesOf(b, client)
  {
    if a == [] {
      assert a + b == b;
    } else {
      assert (a + b)[1..] == a[1..] + b;
      LinesOfConcatLog(a[1..], b, client);
    }
  }

  lemma {:induction false} LinesOfLast(log: seq<Executed>, e: Executed, client: int)
    ensures LinesOf(log + [e], client) == LinesOf(log, client) + if e.emitter == client then [e.line] else []
  {
    LinesOfConcatLog(log, [e], client);
    assert [e][1..] == [];
  }

  lemma {:induction false} TailsOfOne(m: Message, client: int)
    ensures Tails([m], client) == if m.emitter == client && Unfinished(m) then [m.text] else []
  {
    assert [m][1..] == [];
  }

  lemma {:induction false} TailsAt(msgs: seq<Message>, pos: nat, c: int)
    requires pos < |msgs| && Unfinished(msgs[pos])
    ensures Tails(msgs, c) == Tails(msgs[..pos], c)
                              + (if msgs[pos].emitter == c then [msgs[pos].text] else [])
                              + Tails(msgs[pos + 1..], c)
  {
    var pre, post := msgs[..pos], msgs[pos + 1..];
    assert msgs == pre + [msgs[pos]] + post;
    TailsConcat(pre, [msgs[pos]], c);
    TailsConcat(pre + [msgs[pos]], post, c);
    TailsOfOne(msgs[pos], c);
  }

  /** Completing the message at pos takes its tail out of the queue and adds none. */
  lemma CompletedTails(msgs: seq<Message>, pos: nat, settled: seq<Message>, appended: seq<Message>, c: int)
    requires pos < |msgs| && Unfinished(msgs[pos]) && |Tails(msgs, msgs[pos].emitter)| <= 1
    requires forall m :: m in settled ==> !Unfinished(m)
    requires forall m :: m in appended ==> !Unfinished(m)
    ensures Tails(msgs[..pos] + settled + msgs[pos + 1..] + appended, c)
         == if c == msgs[pos].emitter then [] else Tails(msgs, c)
    ensures Tails(msgs, msgs[pos].emitter) == [msgs[pos].text]
  {
    var pre, post := msgs[..pos], msgs[pos + 1..];
    TailsAt(msgs, pos, c);
    TailsAt(msgs, pos, msgs[pos].emitter);
    TailsConcat(pre, settled, c);
    TailsConcat(pre + settled, post, c);
    TailsConcat(pre + settled + post, appended, c);
    NoTails(settled, c);
    NoTails(appended, c);
  }

  lemma {:induction false} AppendedTails(msgs: seq<Message>, more: seq<Message>, last: seq<Message>, c: int)
    requires forall m :: m in more ==> !Unfinished(m)
    requires forall m :: m in last ==> !Unfinished(m)
    ensures Tails(msgs + more + last, c) == Tails(msgs, c)
  {
    TailsConcat(msgs, more, c);
    TailsConcat(msgs + more, last, c);
    NoTails(more, c);
    NoTails(last, c);
  }

  lemma {:induction false} PushedTails(msgs: seq<Message>, m: Message, c: int)
    ensures Tails(msgs + [m], c) == Tails(msgs, c) + if m.emitter == c && Unfinished(m) then [m.text] else []
  {
    TailsConcat(msgs, [m], c);
    TailsOfOne(m, c);
  }

  /** pos is where the unfinished line of the client waits, or -1 when it has none. */
  ghost predicate Points(msgs: seq<Message>, client: int, pos: int) {
    && -1 <= pos < |msgs|
    && (pos == -1 ==> Tails(msgs, client) == [])
    && (pos != -1 ==> msgs[pos].emitter == client && Unfinished(msgs[pos]))
  }

  lemma {:induction false} FirstLineTails(commands: Commands, q: Queue, client: int, pos: int, text: string, c: int)
    requires RepliesAreLines(commands) && WellFramed(q.msgs) && Points(q.msgs, client, pos) && '\n' in text
    ensures Tails(FirstLine(commands, q, client, pos, text).msgs, c)
         == if c == client then [] else Tails(q.msgs, c)
    ensures LinesOf(FirstLine(commands, q, client, pos, text).executed, c)
         == LinesOf(q.executed, c)
            + if c == client then [Pending(q.msgs, client) + text[..Find(text, '\n') + 1]] else []
    ensures '\n' !in Pending(q.msgs, client)
  {
    if pos != -1 {
      CompletedLine(commands, q, client, pos, text, c);
    } else {
      WholeLine(commands, q, client, text, c);
    }
  }

  lemma {:induction false} CompletedLine(commands: Commands, q: Queue, client: int, pos: int, text: string, c: int)
    requires RepliesAreLines(commands) && WellFramed(q.msgs) && Points(q.msgs, client, pos) && '\n' in text
    requires pos != -1
    ensures Tails(FirstLine(commands, q, client, pos, text).msgs, c)
         == if c == client then [] else Tails(q.msgs, c)
    ensures LinesOf(FirstLine(commands, q, client, pos, text).executed, c)
         == LinesOf(q.executed, c)
            + if c == client then [Pending(q.msgs, client) + text[..Find(text, '\n') + 1]] else []
    ensures '\n' !in Pending(q.msgs, client)
  {
    var m := q.msgs[pos].(text := q.msgs[pos].text + text[..Find(text, '\n') + 1]);
    var reply := commands(q.executed, q.msgs[pos := m], m);
    CompletedQueue(commands, q, client, pos, text);
    CompletedTails(q.msgs, pos, Settle(reply.msg), reply.appended, c);
    LinesOfLast(q.executed, Executed(m.emitter, m.text), c);
  }

  lemma {:induction false} CompletedQueue(commands: Commands, q: Queue, client: int, pos: int, text: string)
    requires 0 <= pos < |q.msgs| && '\n' in text
    ensures var m := q.msgs[pos].(text := q.msgs[pos].text + text[..Find(text, '\n') + 1]);
      var reply := commands(q.executed, q.msgs[pos := m], m);
      FirstLine(commands, q, client, pos, text)
      == Queue(q.msgs[..pos] + Settle(reply.msg) + q.msgs[pos + 1..] + reply.appended,
               q.executed + [Executed(m.emitter, m.text)])
  {}

  lemma {:induction false} WholeLine(commands: Commands, q: Queue, client: int, text: string, c: int)
    requires RepliesAreLines(commands) && Tails(q.msgs, client) == [] && '\n' in text
    ensures Tails(FirstLine(commands, q, client, -1, text).msgs, c) == Tails(q.msgs, c)
    ensures LinesOf(FirstLine(commands, q, client, -1, text).executed, c)
         == LinesOf(q.executed, c)
            + if c == client then [Pending(q.msgs, client) + text[..Find(text, '\n') + 1]] else []
    ensures Pending(q.msgs, client) == ""
  {
    var m := Message(client, {}, text[..Find(text, '\n') + 1]);
    var reply := commands(q.executed, q.msgs, m);
    AppendedTails(q.msgs, reply.appended, Settle(reply.msg), c);
    LinesOfLast(q.executed, Executed(m.emitter, m.text), c);
    EmptyPrefix(m.text);
  }

  lemma FirstLineInput(commands: Commands, q: Queue, client: int, pos: int, text: string)
    requires RepliesAreLines(commands) && WellFramed(q.msgs) && Points(q.msgs, client, pos) && '\n' in text
    ensures InputUnaddressed(FirstLine(commands, q, client, pos, text).msgs)
  {}

  lemma FirstLineFramed(commands: Commands, q: Queue, client: int, pos: int, text: string)
    requires RepliesAreLines(commands) && WellFramed(q.msgs) && Points(q.msgs, client, pos) && '\n' in text
    ensures WellFramed(FirstLine(commands, q, client, pos, text).msgs)
  {
    FirstLineInput(commands, q, client, pos, text);
    forall c ensures |Tails(FirstLine(commands, q, client, pos, text).msgs, c)| <= 1 {
      FirstLineTails(commands, q, client, pos, text, c);
    }
  }

  /** One read, seen by client c: its lines are those of its unfinished tail and the new text. */
  ghost predicate FramedBy(q: Queue, client: int, text: string, r: Queue, c: int) {
    && LinesOf(r.executed, c)
       == LinesOf(q.executed, c) + (if c == client then Lines(Pending(q.msgs, c) + text) else [])
    && Pending(r.msgs, c) == if c == client then Rest(Pending(q.msgs, c) + text) else Pending(q.msgs, c)
  }

  lemma LinesCompose(before: seq<string>, tail: string, text: string)
    requires '\n' in text && '\n' !in tail
    ensures var k := Find(text, '\n') + 1;
      before + [tail + text[..k]] + Lines(text[k..]) == before + Lines(tail + text)
    ensures Rest(text[Find(text, '\n') + 1..]) == Rest(tail + text)
  {
    var k := Find(text, '\n') + 1;
    LinesAfterTail(tail, text);
    Insert(before, tail + text[..k], Lines(text[k..]), Lines(tail + text));
  }

  lemma Insert(before: seq<string>, first: string, more: seq<string>, all: seq<string>)
    requires all == [first] + more
    ensures before + [first] + more == before + all
  {
    Assoc(before, [first], more);
  }

  lemma {:induction false} FramesCompose(q: Queue, client: int, text: string, next: Queue, r: Queue, c: int)
    requires '\n' in text && '\n' !in Pending(q.msgs, client)
    requires Tails(next.msgs, c) == if c == client then [] else Tails(q.msgs, c)
    requires LinesOf(next.executed, c) == LinesOf(q.executed, c)
      + if c == client then [Pending(q.msgs, client) + text[..Find(text, '\n') + 1]] else []
    requires FramedBy(next, client, text[Find(text, '\n') + 1..], r, c)
    ensures FramedBy(q, client, text, r, c)
  {
    hide Lines, Rest, LinesOf, Tails;
    if c != client {
      FramedElsewhere(q, client, text, next, r, c);
    } else {
      var rest := text[Find(text, '\n') + 1..];
      FramedEmpty(next, client, rest, r);
      LinesCompose(LinesOf(q.executed, c), Pending(q.msgs, c), text);
    }
  }

  lemma {:induction false} FramedEmpty(q: Queue, client: int, text: string, r: Queue)
    requires Tails(q.msgs, client) == [] && FramedBy(q, client, text, r, client)
    ensures LinesOf(r.executed, client) == LinesOf(q.executed, client) + Lines(text)
    ensures Pending(r.msgs, client) == Rest(text)
  {
    EmptyPrefix(text);
  }

  lemma {:induction false} FramedElsewhere(q: Queue, client: int, text: string, next: Queue, r: Queue, c: int)
    requires c != client && '\n' in text
    requires Tails(next.msgs, c) == Tails(q.msgs, c)
    requires LinesOf(next.executed, c) == LinesOf(q.executed, c) + []
    requires FramedBy(next, client, text[Find(text, '\n') + 1..], r, c)
    ensures FramedBy(q, client, text, r, c)
  {
    EmptySuffix(LinesOf(q.executed, c));
    EmptySuffix(LinesOf(next.executed, c));
  }

  lemma {:induction false} FeedFrames(commands: Commands, q: Queue, client: int, pos: int, text: string, c: int)
    requires RepliesAreLines(commands) && WellFramed(q.msgs) && Points(q.msgs, client, pos)
    requires pos == -1 || '\n' in text
    ensures WellFramed(Feed(commands, q, client, pos, text).msgs)
    ensures FramedBy(q, client, text, Feed(commands, q, client, pos, text), c)
    decreases |text|
  {
    if '\n' in text {
      var next := FirstLine(commands, q, client, pos, text);
      FirstLineFramed(commands, q, client, pos, text);
      FirstLineTails(commands, q, client, pos, text, client);
      FirstLineTails(commands, q, client, pos, text, c);
      FeedFrames(commands, next, client, -1, text[Find(text, '\n') + 1..], c);
      FramesCompose(q, client, text, next, Feed(commands, q, client, pos, text), c);
    } else if text != "" {
      PushFrames(q, client, text, c);
    } else {
      assert "" + text == text;
    }
  }

  lemma {:induction false} PushFrames(q: Queue, client: int, text: string, c: int)
    requires WellFramed(q.msgs) && Tails(q.msgs, client) == [] && '\n' !in text
    ensures WellFramed(q.msgs + [Message(client, {}, text)])
    ensures FramedBy(q, client, text, q.(msgs := q.msgs + [Message(client, {}, text)]), c)
  {
    forall d ensures |Tails(q.msgs + [Message(client, {}, text)], d)| <= 1 {
      PushedTails(q.msgs, Message(client, {}, text), d);
    }
    PushedTails(q.msgs, Message(client, {}, text), c);
    assert "" + text == text;
  }

  lemma ExtendFrames(q: Queue, pos: nat, text: string, c: int)
    requires WellFramed(q.msgs) && pos < |q.msgs| && Unfinished(q.msgs[pos]) && '\n' !in text
    ensures var m := q.msgs[pos];
            var r := q.(msgs := q.msgs[pos := m.(text := m.text + text)]);
            WellFramed(r.msgs) && FramedBy(q, m.emitter, text, r, c)
  {
    var m := q.msgs[pos];
    var longer := m.(text := m.text + text);
    var msgs' := q.msgs[pos := longer];
    assert msgs'[..pos] == q.msgs[..pos] && msgs'[pos + 1..] == q.msgs[pos + 1..];
    forall d ensures |Tails(msgs', d)| == |Tails(q.msgs, d)| {
      TailsAt(q.msgs, pos, d);
      TailsAt(msgs', pos, d);
    }
    TailsAt(q.msgs, pos, c);
    TailsAt(msgs', pos, c);
    forall x | x in msgs' && Unfinished(x) ensures x.target == {} {
      assert x in q.msgs || x == longer;
    }
  }

  /** Framing of one read, whatever else is queued. */
  lemma ReceiveFrames(commands: Commands, q: Queue, client: int, text: string, c: int)
    requires RepliesAreLines(commands) && WellFramed(q.msgs)
    ensures WellFramed(Receive(commands, q, client, text).msgs)
    ensures FramedBy(q, client, text, Receive(commands, q, client, text), c)
  {
    var pos := FindIncomplete(q.msgs, client);
    if '\n' in text {
      FeedFrames(commands, q, client, pos, text, c);
    } else if pos != -1 {
      ExtendFrames(q, pos, text, c);
    } else {
      PushFrames(q, client, text, c);
    }
  }

  // ---- replies ----

  /** What the commands of whole lines leave in the queue, line by line: the messages the command appends,
      then its own reply, when that has a text and somebody to go to. */
  function Answered(commands: Commands, q: Queue, client: int, lines: seq<string>): Queue
    decreases |lines|
  {
    if lines == [] then q
    else
      var r := commands(q.executed, q.msgs, Message(client, {}, lines[0]));
      Answered(commands,
               Queue(q.msgs + (r.appended + if r.msg.text != "" && r.msg.target != {} then [r.msg] else []),
                     q.executed + [Executed(client, lines[0])]),
               client, lines[1..])
  }

  lemma {:induction false} AnsweredGrows(commands: Commands, q: Queue, client: int, lines: seq<string>)
    ensures q.msgs <= Answered(commands, q, client, lines).msgs
    decreases |lines|
  {
    if lines != [] {
      var r := commands(q.executed, q.msgs, Message(client, {}, lines[0]));
      var more := r.appended + if r.msg.text != "" && r.msg.target != {} then [r.msg] else [];
      AnsweredGrows(commands, Queue(q.msgs + more, q.executed + [Executed(client, lines[0])]), client, lines[1..]);
    }
  }

  /** The queue with what follows the last line feed as an unfinished line. */
  function WithRest(q: Queue, client: int, rest: string): Queue
  {
    if rest == "" then q else q.(msgs := q.msgs + [Message(client, {}, rest)])
  }

  lemma {:induction false} WholeLineAnswered(commands: Commands, q: Queue, client: int, line: string,
                                             lines: seq<string>)
    requires IsLine(line)
    ensures Answered(commands, q, client, [line] + lines)
         == Answered(commands, FirstLine(commands, q, client, -1, line), client, lines)
  {
    LineEnds(line);
    var r := commands(q.executed, q.msgs, Message(client, {}, line));
    assert ([line] + lines)[1..] == lines;
    assert line[..|line|] == line;
    Assoc(q.msgs, r.appended, Settle(r.msg));
  }

  lemma {:induction false} LineEnds(line: string)
    requires IsLine(line)
    ensures '\n' in line && Find(line, '\n') == |line| - 1
  {
    assert line == line[..|line| - 1] + ['\n'] + "";
    FindAfter(line[..|line| - 1], '\n', "");
  }

  lemma {:induction false} FirstLineAlone(commands: Commands, q: Queue, client: int, pos: int, text: string)
    requires -1 <= pos < |q.msgs| && '\n' in text
    ensures var line := text[..Find(text, '\n') + 1];
            IsLine(line) && FirstLine(commands, q, client, pos, text) == FirstLine(commands, q, client, pos, line)
  {
    var k := Find(text, '\n');
    FindCut(text, '\n');
    FindFirst(text, '\n');
    var line := text[..k + 1];
    assert line[..|line| - 1] == text[..k];
    LineEnds(line);
    assert line[..|line|] == line;
  }

  lemma {:induction false} FeedAnswers(commands: Commands, q: Queue, client: int, text: string)
    ensures Feed(commands, q, client, -1, text)
         == WithRest(Answered(commands, q, client, Lines(text)), client, Rest(text))
    decreases |text|
  {
    if '\n' in text {
      var k := Find(text, '\n');
      var line, rest := text[..k + 1], text[k + 1..];
      FirstLineAlone(commands, q, client, -1, text);
      FeedAnswers(commands, FirstLine(commands, q, client, -1, text), client, rest);
      WholeLineAnswered(commands, q, client, line, Lines(rest));
    }
  }

  /** Replies of a read when no line of the client is waiting: behind the old queue stand, line by line in
      order, the messages each line's command appends and its own reply, exactly when that has a text and
      a recipient; then the unfinished rest. */
  lemma {:induction false} ReceiveAnswers(commands: Commands, q: Queue, client: int, text: string)
    requires forall m :: m in q.msgs ==> m.emitter != client || !Unfinished(m)
    requires text != ""
    ensures Receive(commands, q, client, text)
         == WithRest(Answered(commands, q, client, Lines(text)), client, Rest(text))
  {
    FeedAnswers(commands, q, client, text);
  }

  lemma {:induction false} FirstIncomplete(msgs: seq<Message>, client: int, pos: nat)
    requires pos < |msgs| && msgs[pos].emitter == client && Unfinished(msgs[pos])
    requires forall i :: 0 <= i < pos ==> msgs[i].emitter != client || !Unfinished(msgs[i])
    ensures FindIncomplete(msgs, client) == pos
  {
    if pos > 0 {
      FirstIncomplete(msgs[1..], client, pos - 1);
    }
  }

  /** Replies of a read when the client's first unfinished line waits at pos: the reply to the completed line
      takes its place, or the message is gone when the reply has no text or nobody to go to; what the
      command appends goes behind the queue; and the lines after it are answered as above. */
  lemma {:induction false} ReceiveCompletes(commands: Commands, q: Queue, client: int, pos: nat, text: string)
    requires pos < |q.msgs| && q.msgs[pos].emitter == client && Unfinished(q.msgs[pos])
    requires forall i :: 0 <= i < pos ==> q.msgs[i].emitter != client || !Unfinished(q.msgs[i])
    requires '\n' in text
    ensures var k := Find(text, '\n') + 1;
            var line := q.msgs[pos].(text := q.msgs[pos].text + text[..k]);
            var r := commands(q.executed, q.msgs[pos := line], line);
            var reply := if r.msg.text != "" && r.msg.target != {} then [r.msg] else [];
            Receive(commands, q, client, text)
            == WithRest(Answered(commands, Queue(q.msgs[..pos] + reply + q.msgs[pos + 1..] + r.appended,
                                                 q.executed + [Executed(client, line.text)]),
                                 client, Lines(text[k..])),
                        client, Rest(text[k..]))
  {
    FirstIncomplete(q.msgs, client, pos);
    FeedAnswers(commands, FirstLine(commands, q, client, pos, text), client, text[Find(text, '\n') + 1..]);
  }
}
