/** When a recipient gets its texts in the order they were queued, over whole rounds. */
module RoundOrder {
  import opened DeliveryOrder
  import opened Draining
  import opened Merging
  import opened Messages
  import opened Ordering
  import opened Sending
  import opened Strings
  import opened Tracing

  /** In n rounds no merging crosses and no pass overtakes. */
  ghost predicate Orderly(msgs: seq<Message>, n: nat, fd: int)
    decreases n
  {
    n > 0 ==>
      var writable := WriteFds(msgs);
      && !Crosses(msgs, fd)
      && !Overtakes(Merge(msgs, 0), writable, fd)
      && Orderly(Round(msgs, writable).msgs, n - 1, fd)
  }

  // ---- disorder that no later round undoes ----

  ghost predicate Adjacent<T>(s: seq<T>, u: T, w: T) {
    exists i :: 0 <= i < |s| - 1 && s[i] == u && s[i + 1] == w
  }

  ghost predicate Apart<T>(s: seq<T>, u: T, w: T) {
    exists i, j :: 0 <= i && i + 1 < j < |s| && s[i] == u && s[j] == w
  }

  lemma ApartIsNotAdjacent<T>(s: seq<T>, u: T, w: T)
    requires Distinct(s) && Apart(s, u, w)
    ensures !Adjacent(s, u, w)
  {
    var i, j :| 0 <= i && i + 1 < j < |s| && s[i] == u && s[j] == w;
    if k :| 0 <= k < |s| - 1 && s[k] == u && s[k + 1] == w {
      assert false;
    }
  }

  lemma AdjacentEither<T>(s: seq<T>, t: seq<T>, u: T, w: T)
    requires Adjacent(s, u, w) || Adjacent(t, u, w)
    ensures Adjacent(s + t, u, w)
  {
    if i :| 0 <= i < |s| - 1 && s[i] == u && s[i + 1] == w {
      assert (s + t)[i] == u && (s + t)[i + 1] == w;
    }
    if i :| 0 <= i < |t| - 1 && t[i] == u && t[i + 1] == w {
      assert (s + t)[|s| + i] == u && (s + t)[|s| + i + 1] == w;
    }
  }

  lemma ApartBehind<T>(p: seq<T>, s: seq<T>, u: T, w: T)
    requires Apart(s, u, w)
    ensures Apart(p + s, u, w)
  {
    var i, j :| 0 <= i && i + 1 < j < |s| && s[i] == u && s[j] == w;
    assert (p + s)[|p| + i] == u && (p + s)[|p| + j] == w;
  }

  ghost predicate BoundIn(x: Traced, fd: int, u: Piece, w: Piece) {
    fd in x.msg.target && Adjacent(x.pieces, u, w)
  }

  /** Some message for fd says w right after u. */
  ghost predicate Bound(q: seq<Traced>, fd: int, u: Piece, w: Piece) {
    exists x :: x in q && BoundIn(x, fd, u, w)
  }

  lemma BoundGlued(x: Traced, y: Traced, fd: int, u: Piece, w: Piece)
    requires x.msg.target == y.msg.target && (BoundIn(x, fd, u, w) || BoundIn(y, fd, u, w))
    ensures BoundIn(Glued(x, y), fd, u, w)
  {
    AdjacentEither(x.pieces, y.pieces, u, w);
  }

  lemma {:induction false} BoundPieces(q: seq<Traced>, fd: int, u: Piece, w: Piece)
    requires Bound(q, fd, u, w)
    ensures Adjacent(PiecesFor(q, fd), u, w)
  {
    var rest := PiecesFor(q[1..], fd);
    if !BoundIn(q[0], fd, u, w) {
      BoundPieces(q[1..], fd, u, w);
    }
    AdjacentEither(if fd in q[0].msg.target then q[0].pieces else [], rest, u, w);
  }

  lemma BoundConcat(p: seq<Traced>, q: seq<Traced>, fd: int, u: Piece, w: Piece)
    ensures Bound(p + q, fd, u, w) <==> Bound(p, fd, u, w) || Bound(q, fd, u, w)
  {
    if x :| x in p && BoundIn(x, fd, u, w) {
      assert x in p + q;
    }
    if x :| x in q && BoundIn(x, fd, u, w) {
      assert x in p + q;
    }
  }

  lemma BoundCons(x: Traced, q: seq<Traced>, fd: int, u: Piece, w: Piece)
    ensures Bound([x] + q, fd, u, w) <==> BoundIn(x, fd, u, w) || Bound(q, fd, u, w)
  {
    BoundConcat([x], q, fd, u, w);
    assert x in [x];
  }

  lemma BoundAround(q: seq<Traced>, next: nat, b: nat, fd: int, u: Piece, w: Piece)
    requires next < b < |q|
    ensures Bound(q[next..], fd, u, w)
        <==> Bound(q[next..b - 1], fd, u, w) || BoundIn(q[b], fd, u, w) || Bound([q[b - 1]] + q[b + 1..], fd, u, w)
  {
    assert q[next..] == q[next..b - 1] + ([q[b - 1]] + ([q[b]] + q[b + 1..]));
    BoundConcat(q[next..b - 1], [q[b - 1]] + ([q[b]] + q[b + 1..]), fd, u, w);
    BoundCons(q[b - 1], [q[b]] + q[b + 1..], fd, u, w);
    BoundCons(q[b], q[b + 1..], fd, u, w);
    BoundCons(q[b - 1], q[b + 1..], fd, u, w);
  }

  /** What one message says is said in one piece after merging. */
  lemma {:induction false} ScanBinds(cur: Traced, q: seq<Traced>, a: nat, next: nat, fd: int, u: Piece, w: Piece)
    requires a < next <= |q| && cur.msg.target == q[a].msg.target
    requires Bound([cur] + q[next..], fd, u, w)
    ensures Bound(TracedScan(cur, q, a, next), fd, u, w)
    decreases |q| - next
  {
    hide TracedScan, BoundIn, Bound;
    if next == |q| {
      TracedDone(cur, q, a);
      assert [cur] + q[next..] == [cur];
    } else {
      var b := SameFrom(Targets(Plain(q)), a, next);
      TracedStep(cur, q, a, next);
      PlainTarget(q, a, next);
      BoundCons(cur, q[next..], fd, u, w);
      if b == |q| {
        var rest := TracedScan(q[next], q, next, next + 1);
        assert q[next..] == [q[next]] + q[next + 1..];
        BoundCons(cur, rest, fd, u, w);
        if Bound(q[next..], fd, u, w) {
          ScanBinds(q[next], q, next, next + 1, fd, u, w);
        }
      } else {
        var glued := Glued(cur, q[b]);
        if BoundIn(cur, fd, u, w) || BoundIn(q[b], fd, u, w) {
          BoundGlued(cur, q[b], fd, u, w);
        }
        if b == next {
          assert q[next..] == [q[next]] + q[next + 1..];
          BoundCons(q[b], q[b + 1..], fd, u, w);
          BoundCons(glued, q[b + 1..], fd, u, w);
          ScanBinds(glued, q, a, b + 1, fd, u, w);
        } else {
          var mid, rest := q[next..b - 1], TracedScan(q[b - 1], q, b - 1, b + 1);
          BoundAround(q, next, b, fd, u, w);
          BoundConcat([glued] + mid, rest, fd, u, w);
          BoundCons(glued, mid, fd, u, w);
          if Bound([q[b - 1]] + q[b + 1..], fd, u, w) {
            ScanBinds(q[b - 1], q, b - 1, b + 1, fd, u, w);
          }
        }
      }
    }
  }

  lemma Torn(cur: Traced, q: seq<Traced>, a: nat, next: nat, b: nat, rest: seq<Traced>, fd: int)
    returns (u: Piece, w: Piece)
    requires a < next < b < |q| && Spelled(q)
    requires cur.msg.target == q[a].msg.target == q[b].msg.target && (fd in cur.msg.target ==> cur.pieces != [])
    requires MovesAcross(Plain(q), Gluing(a, next, b), fd)
    ensures Bound([Glued(cur, q[b])] + q[next..b - 1] + rest, fd, u, w)
    ensures Apart(PiecesFor([cur] + q[next..], fd), u, w)
  {
    var c, m, y := cur.pieces, PiecesFor(q[next..b], fd), PiecesFor(q[b + 1..], fd);
    assert fd in cur.msg.target;
    MovesPieces(q, a, next, b, fd);
    PiecesOne(q[b], fd);
    PiecesAround(q, next, b, fd);
    PiecesCons(cur, q[next..], fd);
    u, w := c[|c| - 1], q[b].pieces[0];
    var glued := Glued(cur, q[b]);
    assert glued.pieces[|c| - 1] == u && glued.pieces[|c|] == w;
    assert glued in [glued] + q[next..b - 1] + rest && BoundIn(glued, fd, u, w);
    var s := c + (m + (q[b].pieces + y));
    assert s[|c| - 1] == u && s[|c| + |m|] == w;
  }

  /** A gluing that crosses binds two pieces that had another one between them. */
  lemma {:induction false} ScanTears(cur: Traced, q: seq<Traced>, a: nat, next: nat, fd: int)
    returns (u: Piece, w: Piece)
    requires a < next <= |q| && Spelled(q) && cur.msg.target == q[a].msg.target
    requires Voiced(q, fd) && (fd in cur.msg.target ==> cur.pieces != [])
    requires Distinct(PiecesFor([cur] + q[next..], fd)) && CrossesFrom(Plain(q), a, next, fd)
    ensures Bound(TracedScan(cur, q, a, next), fd, u, w) && Apart(PiecesFor([cur] + q[next..], fd), u, w)
    decreases |q| - next
  {
    hide TracedScan, PiecesFor, CrossesFrom, MovesAcross, Bound, Apart;
    if next == |q| {
      NoCrossing(Plain(q), a, fd);
      assert false;
    } else {
      var b := SameFrom(Targets(Plain(q)), a, next);
      TracedStep(cur, q, a, next);
      CrossesStep(Plain(q), a, next, fd);
      PlainTarget(q, a, next);
      if b == |q| {
        var rest := TracedScan(q[next], q, next, next + 1);
        assert q[next..] == [q[next]] + q[next + 1..] && q[next] in q;
        PiecesCons(cur, q[next..], fd);
        var mine := if fd in cur.msg.target then cur.pieces else [];
        DistinctSuffix(mine, PiecesFor(q[next..], fd));
        u, w := ScanTears(q[next], q, next, next + 1, fd);
        ApartBehind(mine, PiecesFor(q[next..], fd), u, w);
        BoundCons(cur, rest, fd, u, w);
      } else if b == next {
        PiecesNext(cur, q, next, fd);
        u, w := ScanTears(Glued(cur, q[b]), q, a, b + 1, fd);
      } else {
        var rest, back := TracedScan(q[b - 1], q, b - 1, b + 1), [q[b - 1]] + q[b + 1..];
        if MovesAcross(Plain(q), Gluing(a, next, b), fd) {
          u, w := Torn(cur, q, a, next, b, rest, fd);
        } else {
          var front := [Glued(cur, q[b])] + q[next..b - 1];
          assert q[b - 1] in q;
          AcrossExact(cur, q, a, next, b, back, fd);
          u, w := ScanTears(q[b - 1], q, b - 1, b + 1, fd);
          PiecesConcat(front, back, fd);
          ApartBehind(PiecesFor(front, fd), PiecesFor(back, fd), u, w);
          BoundConcat(front, rest, fd, u, w);
        }
      }
    }
  }

  lemma MergeTears(q: seq<Traced>, fd: int) returns (u: Piece, w: Piece)
    requires Spelled(q) && Voiced(q, fd) && Distinct(PiecesFor(q, fd)) && Crosses(Plain(q), fd)
    ensures Bound(TracedMerge(q), fd, u, w) && !Adjacent(PiecesFor(q, fd), u, w)
  {
    assert [q[0]] + q[1..] == q && q[0] in q;
    u, w := ScanTears(q[0], q, 0, 1, fd);
    ApartIsNotAdjacent(PiecesFor(q, fd), u, w);
  }

  lemma BoundSent(x: Traced, d: set<int>, g: seq<Piece>, fd: int, u: Piece, w: Piece)
    requires BoundIn(x, fd, u, w)
    ensures if fd in d then Adjacent(x.pieces + g, u, w) else Bound(TracedKept(x, d), fd, u, w)
  {
    if fd in d {
      AdjacentEither(x.pieces, g, u, w);
    } else {
      assert fd in x.msg.target - d;
      assert TracedKept(x, d)[0] in TracedKept(x, d);
    }
  }

  lemma {:induction false} PassBinds(q: seq<Traced>, writable: set<int>, fd: int, u: Piece, w: Piece)
    requires Bound(q, fd, u, w)
    ensures Adjacent(Got(q, writable, fd), u, w) || Bound(Left(q, writable), fd, u, w)
  {
    var x, d := q[0], Reached(q[0].msg, writable);
    var g, l := Got(q[1..], writable - d, fd), Left(q[1..], writable - d);
    assert q == [x] + q[1..];
    hide BoundIn, Bound, Adjacent, Reached;
    BoundCons(x, q[1..], fd, u, w);
    BoundConcat(TracedKept(x, d), l, fd, u, w);
    var mine := if fd in d then x.pieces else [];
    if Bound(q[1..], fd, u, w) {
      PassBinds(q[1..], writable - d, fd, u, w);
      if Adjacent(g, u, w) {
        AdjacentEither(mine, g, u, w);
      }
    } else {
      BoundSent(x, d, g, fd, u, w);
    }
  }

  lemma {:induction false} RoundBinds(q: seq<Traced>, writable: set<int>, fd: int, u: Piece, w: Piece)
    requires Bound(TracedMerge(q), fd, u, w)
    ensures Adjacent(RoundGot(q, writable, fd) + PiecesFor(TracedRound(q, writable), fd), u, w)
    ensures Adjacent(RoundGot(q, writable, fd), u, w) || Bound(TracedRound(q, writable), fd, u, w)
  {
    var g, l := RoundGot(q, writable, fd), PiecesFor(TracedRound(q, writable), fd);
    PassBinds(TracedMerge(q), writable, fd, u, w);
    if !Adjacent(g, u, w) {
      BoundPieces(TracedRound(q, writable), fd, u, w);
    }
    AdjacentEither(g, l, u, w);
  }

  // ---- rounds ----

  /** One round keeps the order of the texts for fd exactly when its merging crosses none and its pass
      overtakes none. */
  lemma {:induction false} RoundOrderExact(q: seq<Traced>, writable: set<int>, fd: int)
    requires Spelled(q) && Voiced(q, fd) && Distinct(PiecesFor(q, fd))
    ensures RoundGot(q, writable, fd) + PiecesFor(TracedRound(q, writable), fd) == PiecesFor(q, fd)
        <==> !Crosses(Plain(q), fd) && !Overtakes(Merge(Plain(q), 0), writable, fd)
  {
    hide Crosses, Overtakes;
    MergeOrderExact(q, fd);
    MergeKeeps(q, fd);
    MergeTraced(q);
    if Crosses(Plain(q), fd) {
      var u, w := MergeTears(q, fd);
      RoundBinds(q, writable, fd, u, w);
    } else {
      PassOrderExact(TracedMerge(q), writable, fd);
    }
  }

  /** All that n rounds give fd, followed by what is then still queued for it. */
  function Arrival(q: seq<Traced>, n: nat, fd: int): seq<Piece> {
    RoundsGot(q, n, fd) + PiecesFor(TracedRounds(q, n), fd)
  }

  lemma ArrivalStep(q: seq<Traced>, n: nat, fd: int)
    requires n > 0
    ensures var writable := WriteFds(Plain(q));
      Arrival(q, n, fd) == RoundGot(q, writable, fd) + Arrival(TracedRound(q, writable), n - 1, fd)
  {
    var writable := WriteFds(Plain(q));
    var next := TracedRound(q, writable);
    Assoc(RoundGot(q, writable, fd), RoundsGot(next, n - 1, fd), PiecesFor(TracedRounds(next, n - 1), fd));
  }

  lemma ArrivalBinds(q: seq<Traced>, n: nat, fd: int, u: Piece, w: Piece)
    requires Bound(q, fd, u, w)
    ensures Adjacent(Arrival(q, n, fd), u, w)
    decreases n
  {
    if n == 0 {
      BoundPieces(q, fd, u, w);
      EmptyPrefix(PiecesFor(q, fd));
    } else {
      assert [q[0]] + q[1..] == q;
      ScanBinds(q[0], q, 0, 1, fd, u, w);
      ArrivalMerged(q, n, fd, u, w);
    }
  }

  lemma ArrivalMerged(q: seq<Traced>, n: nat, fd: int, u: Piece, w: Piece)
    requires n > 0 && Bound(TracedMerge(q), fd, u, w)
    ensures Adjacent(Arrival(q, n, fd), u, w)
    decreases n, 0
  {
    hide *;
    var writable := WriteFds(Plain(q));
    var next := TracedRound(q, writable);
    ArrivalStep(q, n, fd);
    RoundBinds(q, writable, fd, u, w);
    if !Adjacent(RoundGot(q, writable, fd), u, w) {
      ArrivalBinds(next, n - 1, fd, u, w);
    }
    AdjacentEither(RoundGot(q, writable, fd), Arrival(next, n - 1, fd), u, w);
  }

  lemma {:induction false} ArrivalExact(q: seq<Traced>, n: nat, fd: int)
    requires Spelled(q) && Voiced(q, fd) && Distinct(PiecesFor(q, fd))
    ensures Arrival(q, n, fd) == PiecesFor(q, fd) <==> Orderly(Plain(q), n, fd)
    decreases n
  {
    if n == 0 {
      EmptyPrefix(PiecesFor(q, fd));
    } else {
      var writable := WriteFds(Plain(q));
      var next, g := TracedRound(q, writable), RoundGot(q, writable, fd);
      hide Crosses, Overtakes, Arrival, TracedMerge, WriteFds;
      ArrivalStep(q, n, fd);
      RoundOrderExact(q, writable, fd);
      RoundTraced(q, writable, fd);
      if Crosses(Plain(q), fd) {
        var u, w := MergeTears(q, fd);
        ArrivalMerged(q, n, fd, u, w);
      } else if Overtakes(Merge(Plain(q), 0), writable, fd) {
        MergeOrderExact(q, fd);
        MergeTraced(q);
        MergeKeeps(q, fd);
        OvertakenForGood(TracedMerge(q), writable, fd, Arrival(next, n - 1, fd));
      } else {
        DistinctSuffix(g, PiecesFor(next, fd));
        ArrivalExact(next, n - 1, fd);
        CancelPrefix(g, Arrival(next, n - 1, fd), PiecesFor(next, fd));
      }
    }
  }

  lemma {:induction false} NothingQueued(q: seq<Traced>, fd: int)
    requires PendingCount(Plain(q)) == 0
    ensures PiecesFor(q, fd) == []
  {
    if q != [] {
      assert Plain(q)[1..] == Plain(q[1..]) && q[0].msg.target == {};
      NothingQueued(q[1..], fd);
    }
  }

  /** In-order delivery: with all targets writable, fd receives the texts queued for it in queue order if
      and only if in every round merging moves none across another and the pass overtakes none. */
  lemma {:induction false} DeliveryOrderExact(msgs: seq<Message>, n: nat, fd: int)
    requires Deliverable(msgs) && n >= PendingCount(msgs)
    ensures RoundsGot(Trace(msgs, 0), n, fd) == PiecesFor(Trace(msgs, 0), fd) <==> Orderly(msgs, n, fd)
    ensures Spell(RoundsGot(Trace(msgs, 0), n, fd)) == Stream(Rounds(msgs, n).log, fd)
  {
    var q := Trace(msgs, 0);
    TracedPlain(msgs, 0);
    TracedPieces(msgs, 0, fd);
    RoundsTraced(q, n, fd);
    ArrivalExact(q, n, fd);
    RoundsDrain(msgs, n);
    NothingQueued(TracedRounds(q, n), fd);
    EmptySuffix(RoundsGot(q, n, fd));
  }

  /** Then what fd receives is the text queued for it. */
  lemma {:induction false} StreamInOrder(msgs: seq<Message>, n: nat, fd: int)
    requires Deliverable(msgs) && n >= PendingCount(msgs) && Orderly(msgs, n, fd)
    ensures Stream(Rounds(msgs, n).log, fd) == TextTo(msgs, fd)
  {
    DeliveryOrderExact(msgs, n, fd);
    TracedPieces(msgs, 0, fd);
  }

  // ---- private messages ----

  lemma PrivateDoesNotCross(msgs: seq<Message>, fd: int)
    requires Private(msgs, fd)
    ensures !Crosses(msgs, fd)
  {
    if msgs != [] {
      forall g | g in Gluings(Targets(msgs), 0, 1) ensures !MovesAcross(msgs, g, fd) {
        GluingsMatch(Targets(msgs), 0, 1, g);
        if fd in msgs[g.into].target {
          assert msgs[g.into] in msgs;
          forall j | g.over <= j < g.from ensures !IsFor(msgs[j], fd) {
            assert msgs[j] in msgs && Targets(msgs)[j] != Targets(msgs)[g.into];
          }
        }
      }
    }
  }

  lemma PrivateIsNotOvertaken(msgs: seq<Message>, writable: set<int>, fd: int)
    requires Private(msgs, fd) && Deliverable(msgs)
    ensures !Overtakes(msgs, writable, fd)
  {
    forall i | 0 <= i < |msgs| ensures !Misses(msgs, writable, fd, i) {
      assert msgs[i] in msgs;
    }
  }

  lemma {:induction false} PrivateIsOrderly(msgs: seq<Message>, n: nat, fd: int)
    requires Private(msgs, fd) && Deliverable(msgs)
    ensures Orderly(msgs, n, fd)
    decreases n
  {
    if n > 0 {
      PrivateDoesNotCross(msgs, fd);
      MergeRespects(msgs, fd);
      PrivateIsNotOvertaken(Merge(msgs, 0), WriteFds(msgs), fd);
      DeliverableRound(msgs, WriteFds(msgs), fd);
      PrivateIsOrderly(Round(msgs, WriteFds(msgs)).msgs, n - 1, fd);
    }
  }

  lemma {:induction false} PrivateText(msgs: seq<Message>, fd: int)
    requires Private(msgs, fd)
    ensures TextTo(msgs, fd) == TextFor(msgs, {fd})
  {
    if msgs != [] {
      assert msgs[0] in msgs;
      PrivateText(msgs[1..], fd);
      assert msgs[0].target == {fd} ==> fd in msgs[0].target;
    }
  }

  /** A recipient whose messages are all private receives exactly their texts, in queue order, whatever
      the other recipients are owed. */
  lemma {:induction false} PrivateStreamInOrder(msgs: seq<Message>, n: nat, fd: int)
    requires Private(msgs, fd) && Deliverable(msgs) && n >= PendingCount(msgs)
    ensures Stream(Rounds(msgs, n).log, fd) == TextFor(msgs, {fd})
  {
    PrivateIsOrderly(msgs, n, fd);
    StreamInOrder(msgs, n, fd);
    PrivateText(msgs, fd);
  }

  // ---- how order is lost ----

  lemma PairSends(x: int, y: int, text: string, writable: set<int>)
    requires x < y && x in writable && HasCrlf(text)
    ensures Reached(Message(0, {x, y}, text), writable) == {x}
    ensures Kept(Message(0, {x, y}, text), {x}) == [Message(0, {y}, text)]
    ensures LogFor(Fds({x}), text) == [Sent(x, text)]
  {
    FdsUnique({x, y}, [x, y]);
    FdsUnique({x}, [x]);
    assert {x, y} - {x} == {y};
    assert Delivered({x, y}, writable) == {x};
  }

  lemma NothingToMerge(first: Message, second: Message)
    requires first.target != second.target
    ensures Merge([first, second], 0) == [first, second]
  {
    var msgs := [first, second];
    assert FirstSame(msgs, 0, 1) == 2 && FirstSame(msgs, 1, 2) == 2;
    assert Merge(msgs, 2) == msgs;
    assert Merge(msgs, 1) == msgs;
  }

  /** By a pass: the restart makes the first message miss its second recipient y, which then gets the
      message queued after it. */
  lemma LaterMessageOvertakes(x: int, y: int, z: int, a: string, b: string)
    requires x < y < z && HasCrlf(a) && HasCrlf(b)
    ensures Round([Message(0, {x, y}, a), Message(0, {y, z}, b)], {x, y, z})
         == Pass([Message(0, {y}, a), Message(0, {z}, b)], [Sent(x, a), Sent(y, b)])
  {
    var first, second := Message(0, {x, y}, a), Message(0, {y, z}, b);
    assert x in first.target && x !in second.target;
    NothingToMerge(first, second);
    PairSends(x, y, a, {x, y, z});
    assert {x, y, z} - {x} == {y, z};
    PairSends(y, z, b, {y, z});
    assert [second][1..] == [] && [first, second][1..] == [second];
    assert PassOver([second], {y, z}) == Pass([Message(0, {z}, b)], [Sent(y, b)]);
  }

  /** By merging alone: f is to get a, b and c in this order, and c is glued to a. */
  lemma MergingOvertakes(f: int, x: int, a: string, b: string, c: string)
    requires f != x
    ensures Merge([Message(0, {f}, a), Message(0, {f, x}, b), Message(0, {f}, c)], 0)
         == [Message(0, {f}, a + c), Message(0, {f, x}, b)]
  {
    var msgs := [Message(0, {f}, a), Message(0, {f, x}, b), Message(0, {f}, c)];
    assert x in {f, x} && x !in {f};
    var ts := Targets(msgs);
    MergeAsScan(msgs);
    assert SameFrom(ts, 0, 1) == SameFrom(ts, 0, 2) == 2;
    ScanStep(msgs[0], msgs, 0, 1);
    ScanDone(msgs[1], msgs, 1);
    assert msgs[1..1] == [];
  }

  /** Even among messages with one and the same target set: the jump over messages leaves two of them apart, */
  lemma JumpLeavesApart(a: string, b: string, c: string, d: string, e: string)
    ensures Merge([Message(0, {9}, a), Message(0, {3, 4}, b), Message(0, {8}, c), Message(0, {9}, d),
                   Message(0, {3, 4}, e)], 0)
         == [Message(0, {9}, a + d), Message(0, {3, 4}, b), Message(0, {8}, c), Message(0, {3, 4}, e)]
  {
    var msgs := [Message(0, {9}, a), Message(0, {3, 4}, b), Message(0, {8}, c), Message(0, {9}, d),
                 Message(0, {3, 4}, e)];
    assert 8 in {8} && 8 !in {9} && 3 in {3, 4} && 3 !in {9} && 3 !in {8};
    var ts := Targets(msgs);
    MergeAsScan(msgs);
    assert SameFrom(ts, 0, 1) == SameFrom(ts, 0, 2) == SameFrom(ts, 0, 3) == 3;
    ScanStep(msgs[0], msgs, 0, 1);
    assert SameFrom(ts, 2, 4) == SameFrom(ts, 2, 5) == 5;
    ScanStep(msgs[2], msgs, 2, 4);
    ScanDone(msgs[4], msgs, 4);
    assert msgs[1..2] == [msgs[1]];
  }

  /** and then the second recipient gets the later one first. */
  lemma ApartIsOvertaken(b: string, e: string)
    requires HasCrlf(b) && HasCrlf(e)
    ensures PassOver([Message(0, {3, 4}, b), Message(0, {3, 4}, e)], {3, 4}).log == [Sent(3, b), Sent(4, e)]
  {
    var first, second := Message(0, {3, 4}, b), Message(0, {3, 4}, e);
    PairSends(3, 4, b, {3, 4});
    assert {3, 4} - {3} == {4};
    FdsUnique({3, 4}, [3, 4]);
    assert Delivered({3, 4}, {4}) == {4};
    FdsUnique({4}, [4]);
    assert [second][1..] == [] && [first, second][1..] == [second];
    assert PassOver([second], {4}).log == [Sent(4, e)];
  }

  lemma EmptyMessageCrosses(b: string, c: string)
    ensures var msgs := [Message(0, {3, 4}, ""), Message(0, {4, 5}, b), Message(0, {3, 4}, c)];
            && Merge(msgs, 0) == [Message(0, {3, 4}, c), Message(0, {4, 5}, b)]
            && (b != "" && c != "" ==> Crosses(msgs, 4))
  {
    var msgs := [Message(0, {3, 4}, ""), Message(0, {4, 5}, b), Message(0, {3, 4}, c)];
    assert 3 in {3, 4} && 3 !in {4, 5};
    var ts := Targets(msgs);
    MergeAsScan(msgs);
    assert SameFrom(ts, 0, 1) == SameFrom(ts, 0, 2) == 2;
    ScanStep(msgs[0], msgs, 0, 1);
    ScanDone(msgs[1], msgs, 1);
    assert Gluing(0, 1, 2) in Gluings(ts, 0, 1);
    if b != "" && c != "" {
      assert IsFor(msgs[1], 4) && MovesAcross(msgs, Gluing(0, 1, 2), 4);
    }
    EmptyPrefix(c);
    assert msgs[1..1] == [];
  }

  /** An empty message for a recipient can hide a loss of order: 4 is to get b and c, merging puts c first,
      and the pass misses c, so that 4 gets b and then c. This is why the theorems about rounds speak of
      recipients none of whose messages is empty. */
  lemma EmptyMessageHides(b: string, c: string)
    requires HasCrlf(b) && HasCrlf(c)
    ensures var msgs := [Message(0, {3, 4}, ""), Message(0, {4, 5}, b), Message(0, {3, 4}, c)];
            && Crosses(msgs, 4)
            && Round(msgs, {3, 4, 5}) == Pass([Message(0, {4}, c), Message(0, {5}, b)], [Sent(3, c), Sent(4, b)])
  {
    hide Merge, PassOver, Crosses;
    EmptyMessageCrosses(b, c);
    var first, second := Message(0, {3, 4}, c), Message(0, {4, 5}, b);
    assert 3 in first.target && 3 !in second.target;
    NothingToMerge(first, second);
    LaterMessageOvertakes(3, 4, 5, c, b);
  }
}
