/** The texts of a queue, numbered and followed through merging, passes and rounds. The numbers tell equal
    texts apart; the messages themselves do what they do without them. */
module Tracing {
  import opened Draining
  import opened Merging
  import opened Messages
  import opened Ordering
  import opened Sending
  import opened Strings

  /** A text of the queue and its number. */
  datatype Piece = Piece(number: nat, text: string)

  /** A message together with the texts it is made of. */
  datatype Traced = Traced(msg: Message, pieces: seq<Piece>)

  function Plain(q: seq<Traced>): (msgs: seq<Message>)
    ensures |msgs| == |q|
  {
    seq(|q|, i requires 0 <= i < |q| => q[i].msg)
  }

  /** The queue with its texts numbered from n; an empty text is no piece. */
  function Trace(msgs: seq<Message>, n: nat): seq<Traced>
  {
    if msgs == [] then []
    else
      var m := msgs[0];
      [Traced(m, if m.text == "" then [] else [Piece(n, m.text)])] + Trace(msgs[1..], n + 1)
  }

  function Spell(pieces: seq<Piece>): string
  {
    if pieces == [] then "" else pieces[0].text + Spell(pieces[1..])
  }

  ghost predicate SpelledOne(x: Traced) {
    x.msg.text == Spell(x.pieces) && forall p :: p in x.pieces ==> p.text != ""
  }

  /** Every message says what its pieces say, and no piece is empty. */
  ghost predicate Spelled(q: seq<Traced>) {
    forall x :: x in q ==> SpelledOne(x)
  }

  /** No message for fd is empty. */
  ghost predicate Voiced(q: seq<Traced>, fd: int) {
    forall x :: x in q && fd in x.msg.target ==> x.pieces != []
  }

  /** The pieces queued for one recipient, in queue order. */
  function PiecesFor(q: seq<Traced>, fd: int): seq<Piece>
  {
    if q == [] then [] else (if fd in q[0].msg.target then q[0].pieces else []) + PiecesFor(q[1..], fd)
  }

  lemma PlainConcat(a: seq<Traced>, b: seq<Traced>)
    ensures Plain(a + b) == Plain(a) + Plain(b)
  {}

  lemma {:induction false} PiecesCons(x: Traced, rest: seq<Traced>, fd: int)
    ensures PiecesFor([x] + rest, fd) == (if fd in x.msg.target then x.pieces else []) + PiecesFor(rest, fd)
  {
    assert ([x] + rest)[1..] == rest;
  }

  lemma {:induction false} PiecesConcat(a: seq<Traced>, b: seq<Traced>, fd: int)
    ensures PiecesFor(a + b, fd) == PiecesFor(a, fd) + PiecesFor(b, fd)
  {
    if a == [] {
      assert a + b == b;
      EmptyPrefix(PiecesFor(b, fd));
    } else {
      assert (a + b)[1..] == a[1..] + b;
      PiecesConcat(a[1..], b, fd);
      Assoc(if fd in a[0].msg.target then a[0].pieces else [], PiecesFor(a[1..], fd), PiecesFor(b, fd));
    }
  }

  lemma {:induction false} PiecesOne(x: Traced, fd: int)
    ensures PiecesFor([x], fd) == if fd in x.msg.target then x.pieces else []
  {
    assert [x][1..] == [];
  }

  lemma {:induction false} SpellConcat(a: seq<Piece>, b: seq<Piece>)
    ensures Spell(a + b) == Spell(a) + Spell(b)
  {
    if a == [] {
      assert a + b == b;
    } else {
      assert (a + b)[1..] == a[1..] + b;
      SpellConcat(a[1..], b);
    }
  }

  lemma SpelledEmpty(x: Traced)
    requires SpelledOne(x)
    ensures x.pieces == [] <==> x.msg.text == ""
  {
    if x.pieces != [] {
      assert x.pieces[0] in x.pieces;
    }
  }

  // ---- merging ----

  function Glued(x: Traced, y: Traced): Traced {
    Traced(Append(x.msg, y.msg), x.pieces + y.pieces)
  }

  function TracedScan(cur: Traced, q: seq<Traced>, a: nat, next: nat): seq<Traced>
    requires a < next <= |q|
    decreases |q| - next
  {
    if next == |q| then [cur]
    else
      var b := SameFrom(Targets(Plain(q)), a, next);
      if b == |q| then [cur] + TracedScan(q[next], q, next, next + 1)
      else if b == next then TracedScan(Glued(cur, q[b]), q, a, b + 1)
      else [Glued(cur, q[b])] + q[next..b - 1] + TracedScan(q[b - 1], q, b - 1, b + 1)
  }

  function TracedMerge(q: seq<Traced>): seq<Traced> {
    if q == [] then [] else TracedScan(q[0], q, 0, 1)
  }

  lemma TracedStep(cur: Traced, q: seq<Traced>, a: nat, next: nat)
    requires a < next < |q|
    ensures var b := SameFrom(Targets(Plain(q)), a, next);
      TracedScan(cur, q, a, next)
      == if b == |q| then [cur] + TracedScan(q[next], q, next, next + 1)
         else if b == next then TracedScan(Glued(cur, q[b]), q, a, b + 1)
         else [Glued(cur, q[b])] + q[next..b - 1] + TracedScan(q[b - 1], q, b - 1, b + 1)
  {}

  lemma {:induction false} TracedDone(cur: Traced, q: seq<Traced>, a: nat)
    requires a < |q|
    ensures TracedScan(cur, q, a, |q|) == [cur]
  {}

  lemma {:induction false} PlainTarget(q: seq<Traced>, a: nat, next: nat)
    requires a < next <= |q|
    ensures var b := SameFrom(Targets(Plain(q)), a, next); b < |q| ==> q[b].msg.target == q[a].msg.target
  {
    SameFromMatches(Targets(Plain(q)), a, next);
  }

  lemma {:induction false} ScanTraced(cur: Traced, q: seq<Traced>, a: nat, next: nat)
    requires a < next <= |q|
    ensures Plain(TracedScan(cur, q, a, next)) == Scan(cur.msg, Plain(q), a, next)
    decreases |q| - next
  {
    hide TracedScan, Scan;
    if next == |q| {
      TracedDone(cur, q, a);
      ScanDone(cur.msg, Plain(q), a);
    } else {
      var b := SameFrom(Targets(Plain(q)), a, next);
      TracedStep(cur, q, a, next);
      ScanStep(cur.msg, Plain(q), a, next);
      if b == |q| {
        ScanTraced(q[next], q, next, next + 1);
        PlainConcat([cur], TracedScan(q[next], q, next, next + 1));
      } else if b == next {
        ScanTraced(Glued(cur, q[b]), q, a, b + 1);
      } else {
        var glued, rest := Glued(cur, q[b]), TracedScan(q[b - 1], q, b - 1, b + 1);
        ScanTraced(q[b - 1], q, b - 1, b + 1);
        PlainConcat([glued], q[next..b - 1]);
        PlainConcat([glued] + q[next..b - 1], rest);
        assert Plain(q[next..b - 1]) == Plain(q)[next..b - 1];
      }
    }
  }

  /** The pieces are carried along by the merging of the messages itself. */
  lemma MergeTraced(q: seq<Traced>)
    ensures Plain(TracedMerge(q)) == Merge(Plain(q), 0)
  {
    if q != [] {
      ScanTraced(q[0], q, 0, 1);
      MergeAsScan(Plain(q));
    }
  }

  lemma {:induction false} ScanKeeps(cur: Traced, q: seq<Traced>, a: nat, next: nat, fd: int)
    requires a < next <= |q| && cur.msg.target == q[a].msg.target && SpelledOne(cur) && Spelled(q)
    ensures Spelled(TracedScan(cur, q, a, next))
    ensures Voiced([cur], fd) && Voiced(q, fd) ==> Voiced(TracedScan(cur, q, a, next), fd)
    decreases |q| - next
  {
    hide TracedScan, SpelledOne;
    if next == |q| {
      TracedDone(cur, q, a);
    } else {
      var b := SameFrom(Targets(Plain(q)), a, next);
      TracedStep(cur, q, a, next);
      PlainTarget(q, a, next);
      assert q[next] in q && cur in [cur];
      if b == |q| {
        ScanKeeps(q[next], q, next, next + 1, fd);
      } else {
        assert q[b] in q && q[b - 1] in q;
        GluedSpelled(cur, q[b]);
        if b == next {
          ScanKeeps(Glued(cur, q[b]), q, a, b + 1, fd);
        } else {
          assert forall x :: x in q[next..b - 1] ==> x in q;
          ScanKeeps(q[b - 1], q, b - 1, b + 1, fd);
        }
      }
    }
  }

  lemma GluedSpelled(x: Traced, y: Traced)
    requires SpelledOne(x) && SpelledOne(y)
    ensures SpelledOne(Glued(x, y))
  {
    SpellConcat(x.pieces, y.pieces);
  }

  lemma MergeKeeps(q: seq<Traced>, fd: int)
    requires Spelled(q)
    ensures Spelled(TracedMerge(q))
    ensures Voiced(q, fd) ==> Voiced(TracedMerge(q), fd)
  {
    if q != [] {
      assert q[0] in q;
      ScanKeeps(q[0], q, 0, 1, fd);
    }
  }

  // ---- one pass ----

  function TracedKept(x: Traced, d: set<int>): seq<Traced>
  {
    if d != {} && x.msg.target - d == {} then [] else [x.(msg := x.msg.(target := x.msg.target - d))]
  }

  /** What a pass leaves queued. */
  function Left(q: seq<Traced>, writable: set<int>): seq<Traced>
  {
    if q == [] then []
    else
      var d := Reached(q[0].msg, writable);
      TracedKept(q[0], d) + Left(q[1..], writable - d)
  }

  /** The pieces a pass sends to fd, in sending order. */
  function Got(q: seq<Traced>, writable: set<int>, fd: int): seq<Piece>
  {
    if q == [] then []
    else
      var d := Reached(q[0].msg, writable);
      (if fd in d then q[0].pieces else []) + Got(q[1..], writable - d, fd)
  }

  lemma {:induction false} StreamOfFds(d: set<int>, text: string, fd: int)
    ensures Stream(LogFor(Fds(d), text), fd) == if fd in d then text else ""
  {
    FdsEnumerate(d);
    StreamOfLog(Fds(d), text, fd);
  }

  lemma {:induction false} StreamOfLog(fds: seq<int>, text: string, fd: int)
    requires forall i, j :: 0 <= i < j < |fds| ==> fds[i] < fds[j]
    ensures Stream(LogFor(fds, text), fd) == if fd in fds then text else ""
  {
    if fds != [] {
      assert LogFor(fds, text)[1..] == LogFor(fds[1..], text);
      StreamOfLog(fds[1..], text, fd);
      EmptySuffix(text);
    }
  }

  /** The pieces are carried along by the pass over the messages itself, and spell what it sends. */
  lemma {:induction false} PassTraced(q: seq<Traced>, writable: set<int>, fd: int)
    requires Spelled(q)
    ensures var p := PassOver(Plain(q), writable);
            Plain(Left(q, writable)) == p.msgs && Spell(Got(q, writable, fd)) == Stream(p.log, fd)
  {
    if q != [] {
      var x, d := q[0], Reached(q[0].msg, writable);
      assert x in q && Plain(q)[1..] == Plain(q[1..]) && Plain(q)[0] == x.msg;
      PassTraced(q[1..], writable - d, fd);
      PlainConcat(TracedKept(x, d), Left(q[1..], writable - d));
      assert Plain(TracedKept(x, d)) == Kept(x.msg, d);
      SpellConcat(if fd in d then x.pieces else [], Got(q[1..], writable - d, fd));
      StreamOfFds(d, x.msg.text, fd);
      PassLogSplit(Plain(q), writable);
      StreamConcat(LogFor(Fds(d), x.msg.text), PassOver(Plain(q[1..]), writable - d).log, fd);
    }
  }

  lemma {:induction false} LeftSpelled(q: seq<Traced>, writable: set<int>, fd: int)
    requires Spelled(q)
    ensures Spelled(Left(q, writable))
    ensures Voiced(q, fd) ==> Voiced(Left(q, writable), fd)
  {
    if q != [] {
      var d := Reached(q[0].msg, writable);
      assert q[0] in q;
      LeftSpelled(q[1..], writable - d, fd);
    }
  }

  // ---- rounds ----

  function TracedRound(q: seq<Traced>, writable: set<int>): seq<Traced> {
    Left(TracedMerge(q), writable)
  }

  function RoundGot(q: seq<Traced>, writable: set<int>, fd: int): seq<Piece> {
    Got(TracedMerge(q), writable, fd)
  }

  function TracedRounds(q: seq<Traced>, n: nat): seq<Traced>
    decreases n
  {
    if n == 0 then q else TracedRounds(TracedRound(q, WriteFds(Plain(q))), n - 1)
  }

  /** The pieces that n rounds send to fd, in sending order. */
  function RoundsGot(q: seq<Traced>, n: nat, fd: int): seq<Piece>
    decreases n
  {
    if n == 0 then []
    else
      var writable := WriteFds(Plain(q));
      RoundGot(q, writable, fd) + RoundsGot(TracedRound(q, writable), n - 1, fd)
  }

  lemma {:induction false} RoundTraced(q: seq<Traced>, writable: set<int>, fd: int)
    requires Spelled(q)
    ensures var p := Round(Plain(q), writable);
            Plain(TracedRound(q, writable)) == p.msgs && Spell(RoundGot(q, writable, fd)) == Stream(p.log, fd)
    ensures Spelled(TracedRound(q, writable))
    ensures Voiced(q, fd) ==> Voiced(TracedRound(q, writable), fd)
  {
    MergeTraced(q);
    MergeKeeps(q, fd);
    PassTraced(TracedMerge(q), writable, fd);
    LeftSpelled(TracedMerge(q), writable, fd);
  }

  lemma RoundsStep(q: seq<Traced>, n: nat, fd: int)
    requires n > 0
    ensures var writable := WriteFds(Plain(q));
            var next, first := TracedRound(q, writable), Round(Plain(q), writable);
            && TracedRounds(q, n) == TracedRounds(next, n - 1)
            && RoundsGot(q, n, fd) == RoundGot(q, writable, fd) + RoundsGot(next, n - 1, fd)
            && Rounds(Plain(q), n).msgs == Rounds(first.msgs, n - 1).msgs
            && Rounds(Plain(q), n).log == first.log + Rounds(first.msgs, n - 1).log
  {}

  lemma {:induction false} RoundsDone(q: seq<Traced>, fd: int)
    ensures TracedRounds(q, 0) == q && Rounds(Plain(q), 0).msgs == Plain(q)
    ensures Spell(RoundsGot(q, 0, fd)) == Stream(Rounds(Plain(q), 0).log, fd)
  {}

  /** The pieces are carried along by the rounds themselves, and spell what is sent to fd. */
  lemma {:induction false} RoundsTraced(q: seq<Traced>, n: nat, fd: int)
    requires Spelled(q)
    ensures var p := Rounds(Plain(q), n);
            Plain(TracedRounds(q, n)) == p.msgs && Spell(RoundsGot(q, n, fd)) == Stream(p.log, fd)
    decreases n
  {
    hide *;
    if n == 0 {
      RoundsDone(q, fd);
    } else {
      var writable := WriteFds(Plain(q));
      var next := TracedRound(q, writable);
      RoundsStep(q, n, fd);
      RoundTraced(q, writable, fd);
      RoundsTraced(next, n - 1, fd);
      SpellConcat(RoundGot(q, writable, fd), RoundsGot(next, n - 1, fd));
      StreamConcat(Round(Plain(q), writable).log, Rounds(Plain(next), n - 1).log, fd);
    }
  }

  // ---- the queue as given ----

  /** No message for fd is empty; the server drops replies that are. */
  ghost predicate Spoken(msgs: seq<Message>, fd: int) {
    forall m :: m in msgs && fd in m.target ==> m.text != ""
  }

  /** The text queued for fd, whoever else it is addressed to. */
  function TextTo(msgs: seq<Message>, fd: int): string
  {
    if msgs == [] then "" else (if fd in msgs[0].target then msgs[0].text else "") + TextTo(msgs[1..], fd)
  }

  lemma {:induction false} TracedPlain(msgs: seq<Message>, n: nat)
    ensures Plain(Trace(msgs, n)) == msgs && Spelled(Trace(msgs, n))
  {
    if msgs != [] {
      var m, rest := msgs[0], Trace(msgs[1..], n + 1);
      TracedPlain(msgs[1..], n + 1);
      var x := Traced(m, if m.text == "" then [] else [Piece(n, m.text)]);
      assert [Piece(n, m.text)][1..] == [];
      EmptySuffix(m.text);
      assert SpelledOne(x);
      assert Trace(msgs, n) == [x] + rest && Plain([x]) == [m];
      PlainConcat([x], rest);
    }
  }

  /** Numbers below n have been given away. */
  ghost predicate NumberedFrom(pieces: seq<Piece>, n: nat) {
    Distinct(pieces) && forall p :: p in pieces ==> p.number >= n
  }

  /** A numbered queue spells the text queued for fd, in distinct pieces. */
  lemma {:induction false} TracedPieces(msgs: seq<Message>, n: nat, fd: int)
    ensures NumberedFrom(PiecesFor(Trace(msgs, n), fd), n)
    ensures Spell(PiecesFor(Trace(msgs, n), fd)) == TextTo(msgs, fd)
    ensures Spoken(msgs, fd) ==> Voiced(Trace(msgs, n), fd)
  {
    if msgs != [] {
      var x, rest := Trace(msgs, n)[0], PiecesFor(Trace(msgs[1..], n + 1), fd);
      TracedPieces(msgs[1..], n + 1, fd);
      assert msgs[0] in msgs && forall m :: m in msgs[1..] ==> m in msgs;
      TracedPlain([msgs[0]], n);
      assert [msgs[0]][1..] == [] && x in Trace([msgs[0]], n);
      var mine := if fd in msgs[0].target then x.pieces else [];
      SpellConcat(mine, rest);
      OneMore(mine, rest, n);
    }
  }

  lemma OneMore(mine: seq<Piece>, rest: seq<Piece>, n: nat)
    requires |mine| <= 1 && (forall p :: p in mine ==> p.number == n) && NumberedFrom(rest, n + 1)
    ensures NumberedFrom(mine + rest, n)
  {
    forall i, j | 0 <= i < j < |mine + rest| ensures (mine + rest)[i] != (mine + rest)[j] {
      assert (mine + rest)[j] == rest[j - |mine|] && rest[j - |mine|] in rest;
      if i < |mine| {
        assert mine[i] in mine;
      }
    }
  }
}
