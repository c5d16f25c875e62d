/** When merging, and one pass, keep the order of the texts queued for one recipient. */
module DeliveryOrder {
  import opened Merging
  import opened Messages
  import opened Sending
  import opened Strings
  import opened Tracing

  // ---- the conditions, on the queue as given ----

  /** A message that has something to say to fd. */
  predicate IsFor(m: Message, fd: int) {
    fd in m.target && m.text != ""
  }

  /** The gluing moves a text for fd across another message for it. */
  ghost predicate MovesAcross(msgs: seq<Message>, g: Gluing, fd: int) {
    && g.into < |msgs| && g.from < |msgs|
    && fd in msgs[g.into].target && msgs[g.from].text != ""
    && exists j :: g.over <= j < g.from && IsFor(msgs[j], fd)
  }

  ghost predicate CrossesFrom(msgs: seq<Message>, a: nat, next: nat, fd: int)
    requires a < next <= |msgs|
  {
    exists g :: g in Gluings(Targets(msgs), a, next) && MovesAcross(msgs, g, fd)
  }

  ghost predicate Crosses(msgs: seq<Message>, fd: int) {
    msgs != [] && CrossesFrom(msgs, 0, 1, fd)
  }

  /** The pass sends message k to fd: it is complete, and fd is still writable and not passed over there. */
  ghost predicate Takes(msgs: seq<Message>, writable: set<int>, fd: int, k: nat)
    requires k < |msgs|
  {
    var target, still := msgs[k].target, StillWritable(msgs, writable, k);
    HasCrlf(msgs[k].text) && fd in target * still && !PassedOver(target, still, fd)
  }

  /** Message i is for fd, and the pass leaves it waiting: it passes fd over, or the message is incomplete. */
  ghost predicate Misses(msgs: seq<Message>, writable: set<int>, fd: int, i: nat)
    requires i < |msgs|
  {
    && IsFor(msgs[i], fd)
    && (HasCrlf(msgs[i].text) ==> PassedOver(msgs[i].target, StillWritable(msgs, writable, i), fd))
  }

  ghost predicate TakesSome(msgs: seq<Message>, writable: set<int>, fd: int) {
    exists k :: 0 <= k < |msgs| && Takes(msgs, writable, fd, k)
  }

  /** Some message for fd is missed before a later one is sent to it. */
  ghost predicate Overtakes(msgs: seq<Message>, writable: set<int>, fd: int) {
    exists i, k :: 0 <= i < k < |msgs| && Misses(msgs, writable, fd, i) && Takes(msgs, writable, fd, k)
  }

  // ---- sequences of distinct pieces ----

  lemma CancelPrefix<T>(p: seq<T>, a: seq<T>, b: seq<T>)
    ensures p + a == p + b <==> a == b
  {
    if p + a == p + b {
      assert a == (p + a)[|p|..] && b == (p + b)[|p|..];
    }
  }

  lemma DistinctSuffix<T>(p: seq<T>, s: seq<T>)
    requires Distinct(p + s)
    ensures Distinct(s)
  {
    forall i, j | 0 <= i < j < |s| ensures s[i] != s[j] {
      assert (p + s)[|p| + i] == s[i] && (p + s)[|p| + j] == s[j];
    }
  }

  /** Of two distinct stretches the later one does not come first. */
  lemma Reversed<T>(p: seq<T>, v: seq<T>, w: seq<T>, x: seq<T>, y: seq<T>)
    requires v != [] && w != [] && Distinct(p + (v + (w + y)))
    ensures p + (w + x) != p + (v + (w + y))
  {
    var s := p + (v + (w + y));
    assert s[|p|] == v[0] && s[|p| + |v|] == w[0];
    assert (p + (w + x))[|p|] == w[0];
  }

  // ---- merging ----

  lemma {:induction false} NoPieces(q: seq<Traced>, fd: int)
    requires Spelled(q)
    ensures PiecesFor(q, fd) == [] <==> forall x :: x in q ==> !IsFor(x.msg, fd)
  {
    if q != [] {
      assert q[0] in q && forall x :: x in q <==> x == q[0] || x in q[1..];
      NoPieces(q[1..], fd);
      SpelledEmpty(q[0]);
    }
  }

  lemma CrossesStep(msgs: seq<Message>, a: nat, next: nat, fd: int)
    requires a < next < |msgs|
    ensures var b := SameFrom(Targets(msgs), a, next);
            CrossesFrom(msgs, a, next, fd)
            <==> if b == |msgs| then CrossesFrom(msgs, next, next + 1, fd)
                 else if b == next then CrossesFrom(msgs, a, b + 1, fd)
                 else MovesAcross(msgs, Gluing(a, next, b), fd) || CrossesFrom(msgs, b - 1, b + 1, fd)
  {
    var ts := Targets(msgs);
    var b := SameFrom(ts, a, next);
    if b < |msgs| {
      var here := Gluing(a, next, b);
      var rest := Gluings(ts, if b == next then a else b - 1, b + 1);
      assert forall g :: g in [here] + rest <==> g == here || g in rest;
      assert here in Gluings(ts, a, next);
    }
  }

  lemma NoCrossing(msgs: seq<Message>, a: nat, fd: int)
    requires a < |msgs|
    ensures !CrossesFrom(msgs, a, |msgs|, fd)
  {}

  lemma {:induction false} PiecesAround(q: seq<Traced>, next: nat, b: nat, fd: int)
    requires next < b < |q|
    ensures PiecesFor(q[next..], fd)
         == (PiecesFor(q[next..b - 1], fd) + PiecesFor([q[b - 1]], fd))
            + (PiecesFor([q[b]], fd) + PiecesFor(q[b + 1..], fd))
    ensures PiecesFor([q[b - 1]] + q[b + 1..], fd) == PiecesFor([q[b - 1]], fd) + PiecesFor(q[b + 1..], fd)
    ensures PiecesFor(q[next..b], fd) == PiecesFor(q[next..b - 1], fd) + PiecesFor([q[b - 1]], fd)
  {
    assert q[next..b] == q[next..b - 1] + [q[b - 1]];
    assert q[next..] == q[next..b] + ([q[b]] + q[b + 1..]);
    PiecesConcat(q[next..b - 1], [q[b - 1]], fd);
    PiecesConcat(q[next..b], [q[b]] + q[b + 1..], fd);
    PiecesConcat([q[b]], q[b + 1..], fd);
    PiecesConcat([q[b - 1]], q[b + 1..], fd);
  }

  /** Whether the gluing of b moves anything across, in terms of pieces. */
  lemma {:induction false} MovesPieces(q: seq<Traced>, a: nat, next: nat, b: nat, fd: int)
    requires a < next < b < |q| && Spelled(q) && q[b].msg.target == q[a].msg.target
    ensures MovesAcross(Plain(q), Gluing(a, next, b), fd)
        <==> PiecesFor(q[next..b], fd) != [] && PiecesFor([q[b]], fd) != []
  {
    forall x | x in q[next..b] ensures x in q {}
    NoPieces(q[next..b], fd);
    assert q[b] in q;
    SpelledEmpty(q[b]);
    PiecesOne(q[b], fd);
    if j :| next <= j < b && IsFor(Plain(q)[j], fd) {
      assert q[j] in q[next..b];
    }
    if x :| x in q[next..b] && IsFor(x.msg, fd) {
      var j :| next <= j < b && q[j] == x;
      assert IsFor(Plain(q)[j], fd);
    }
  }

  /** Where w is moved in front of m1 and m2, order is kept exactly when nothing is moved across anything
      and the rest keeps it. */
  lemma GluedExact<T>(c: seq<T>, w: seq<T>, m1: seq<T>, m2: seq<T>, y: seq<T>, t: seq<T>)
    requires Distinct(c + ((m1 + m2) + (w + y)))
    ensures (c + w) + (m1 + t) == c + ((m1 + m2) + (w + y)) <==> (m1 + m2 == [] || w == []) && t == m2 + y
  {
    Assoc(c, w, m1 + t);
    if m1 + m2 != [] && w != [] {
      Reversed(c, m1 + m2, w, m1 + t, y);
    } else {
      CancelPrefix(c, w + (m1 + t), (m1 + m2) + (w + y));
      if w == [] {
        EmptyPrefix(m1 + t);
        EmptyPrefix(y);
        Assoc(m1, m2, y);
        CancelPrefix(m1, t, m2 + y);
      } else {
        assert m1 == [] && m2 == [];
        EmptyPrefix(t);
        EmptyPrefix(y);
        EmptyPrefix(w + y);
        CancelPrefix(w, t, y);
      }
    }
  }

  lemma DistinctLater<T>(c: seq<T>, m1: seq<T>, m2: seq<T>, w: seq<T>, y: seq<T>)
    requires Distinct(c + ((m1 + m2) + (w + y)))
    ensures Distinct(m2 + y)
  {
    DistinctSuffix(c, (m1 + m2) + (w + y));
    Assoc(m1, m2, w + y);
    DistinctSuffix(m1, m2 + (w + y));
    var s := m2 + (w + y);
    forall i, j | 0 <= i < j < |m2 + y| ensures (m2 + y)[i] != (m2 + y)[j] {
      var i' := if i < |m2| then i else i + |w|;
      var j' := if j < |m2| then j else j + |w|;
      assert s[i'] == (m2 + y)[i] && s[j'] == (m2 + y)[j];
    }
  }

  lemma {:induction false} AcrossExact(cur: Traced, q: seq<Traced>, a: nat, next: nat, b: nat, rest: seq<Traced>,
                                       fd: int)
    requires a < next < b < |q| && Spelled(q)
    requires cur.msg.target == q[a].msg.target == q[b].msg.target
    requires Distinct(PiecesFor([cur] + q[next..], fd))
    ensures PiecesFor([Glued(cur, q[b])] + q[next..b - 1] + rest, fd) == PiecesFor([cur] + q[next..], fd)
        <==> !MovesAcross(Plain(q), Gluing(a, next, b), fd)
             && PiecesFor(rest, fd) == PiecesFor([q[b - 1]] + q[b + 1..], fd)
    ensures Distinct(PiecesFor([q[b - 1]] + q[b + 1..], fd))
  {
    hide PiecesFor, MovesAcross;
    var c := if fd in cur.msg.target then cur.pieces else [];
    var w, m1, m2 := PiecesFor([q[b]], fd), PiecesFor(q[next..b - 1], fd), PiecesFor([q[b - 1]], fd);
    var y, t := PiecesFor(q[b + 1..], fd), PiecesFor(rest, fd);
    PiecesAround(q, next, b, fd);
    MovesPieces(q, a, next, b, fd);
    PiecesCons(cur, q[next..], fd);
    PiecesOne(q[b], fd);
    Assoc([Glued(cur, q[b])], q[next..b - 1], rest);
    PiecesCons(Glued(cur, q[b]), q[next..b - 1] + rest, fd);
    PiecesConcat(q[next..b - 1], rest, fd);
    EmptyPrefix(w);
    GluedExact(c, w, m1, m2, y, t);
    DistinctLater(c, m1, m2, w, y);
  }

  lemma {:induction false} PiecesNext(cur: Traced, q: seq<Traced>, next: nat, fd: int)
    requires next < |q| && cur.msg.target == q[next].msg.target
    ensures PiecesFor([Glued(cur, q[next])] + q[next + 1..], fd) == PiecesFor([cur] + q[next..], fd)
  {
    hide PiecesFor;
    var rest := PiecesFor(q[next + 1..], fd);
    assert q[next..] == [q[next]] + q[next + 1..];
    PiecesCons(cur, q[next..], fd);
    PiecesCons(q[next], q[next + 1..], fd);
    PiecesCons(Glued(cur, q[next]), q[next + 1..], fd);
    Assoc(cur.pieces, q[next].pieces, rest);
    EmptyPrefix(rest);
  }

  /** The scan keeps the order of the pieces for fd exactly when no gluing from here on moves one across
      another message for it. */
  lemma {:induction false} ScanOrderExact(cur: Traced, q: seq<Traced>, a: nat, next: nat, fd: int)
    requires a < next <= |q| && Spelled(q) && cur.msg.target == q[a].msg.target
    requires Distinct(PiecesFor([cur] + q[next..], fd))
    ensures PiecesFor(TracedScan(cur, q, a, next), fd) == PiecesFor([cur] + q[next..], fd)
        <==> !CrossesFrom(Plain(q), a, next, fd)
    decreases |q| - next
  {
    hide TracedScan, PiecesFor, CrossesFrom, MovesAcross;
    if next == |q| {
      assert [cur] + q[next..] == [cur];
      TracedDone(cur, q, a);
      NoCrossing(Plain(q), a, fd);
    } else {
      var b := SameFrom(Targets(Plain(q)), a, next);
      TracedStep(cur, q, a, next);
      CrossesStep(Plain(q), a, next, fd);
      PlainTarget(q, a, next);
      PiecesCons(cur, q[next..], fd);
      if b == |q| {
        var rest := TracedScan(q[next], q, next, next + 1);
        assert q[next..] == [q[next]] + q[next + 1..];
        PiecesCons(cur, rest, fd);
        var mine := if fd in cur.msg.target then cur.pieces else [];
        DistinctSuffix(mine, PiecesFor(q[next..], fd));
        ScanOrderExact(q[next], q, next, next + 1, fd);
        CancelPrefix(mine, PiecesFor(rest, fd), PiecesFor(q[next..], fd));
      } else if b == next {
        PiecesNext(cur, q, next, fd);
        ScanOrderExact(Glued(cur, q[b]), q, a, b + 1, fd);
      } else {
        AcrossExact(cur, q, a, next, b, TracedScan(q[b - 1], q, b - 1, b + 1), fd);
        ScanOrderExact(q[b - 1], q, b - 1, b + 1, fd);
      }
    }
  }

  /** Merging keeps the order of the texts for fd exactly when no gluing of messages for it moves a text
      across another message for it. */
  lemma {:induction false} MergeOrderExact(q: seq<Traced>, fd: int)
    requires Spelled(q) && Distinct(PiecesFor(q, fd))
    ensures PiecesFor(TracedMerge(q), fd) == PiecesFor(q, fd) <==> !Crosses(Plain(q), fd)
  {
    if q != [] {
      assert [q[0]] + q[1..] == q;
      ScanOrderExact(q[0], q, 0, 1, fd);
    }
  }

  // ---- one pass ----

  /** A message is sent to fd exactly when it takes it. */
  lemma {:induction false} TakesExactly(msgs: seq<Message>, writable: set<int>, fd: int, k: nat)
    requires k < |msgs|
    ensures Takes(msgs, writable, fd, k) <==> fd in Reached(msgs[k], StillWritable(msgs, writable, k))
  {
    var target, still := msgs[k].target, StillWritable(msgs, writable, k);
    DeliveredFacts(target, still);
    if fd in target * still {
      PassedOverExactly(target, still, fd);
    }
  }

  lemma TakesStep(msgs: seq<Message>, writable: set<int>, fd: int)
    requires msgs != []
    ensures var d := Reached(msgs[0], writable);
            TakesSome(msgs, writable, fd) <==> fd in d || TakesSome(msgs[1..], writable - d, fd)
  {
    var d := Reached(msgs[0], writable);
    TakesExactly(msgs, writable, fd, 0);
    if k :| 0 <= k < |msgs[1..]| && Takes(msgs[1..], writable - d, fd, k) {
      assert Takes(msgs, writable, fd, k + 1);
    }
    if k :| 0 < k < |msgs| && Takes(msgs, writable, fd, k) {
      assert Takes(msgs[1..], writable - d, fd, k - 1);
    }
  }

  lemma OvertakesStep(msgs: seq<Message>, writable: set<int>, fd: int)
    requires msgs != []
    ensures var d := Reached(msgs[0], writable);
            Overtakes(msgs, writable, fd)
            <==> (Misses(msgs, writable, fd, 0) && TakesSome(msgs[1..], writable - d, fd))
                 || Overtakes(msgs[1..], writable - d, fd)
  {
    var rest, still := msgs[1..], writable - Reached(msgs[0], writable);
    if i, k :| 0 <= i < k < |msgs| && Misses(msgs, writable, fd, i) && Takes(msgs, writable, fd, k) {
      assert Takes(rest, still, fd, k - 1);
      assert i > 0 ==> Misses(rest, still, fd, i - 1);
    }
    if k :| 0 <= k < |rest| && Takes(rest, still, fd, k) {
      assert Takes(msgs, writable, fd, k + 1);
    }
    if i, k :| 0 <= i < k < |rest| && Misses(rest, still, fd, i) && Takes(rest, still, fd, k) {
      assert Misses(msgs, writable, fd, i + 1) && Takes(msgs, writable, fd, k + 1);
    }
  }

  /** A descriptor that is not writable is sent nothing. */
  lemma {:induction false} TakesWritable(msgs: seq<Message>, writable: set<int>, fd: int)
    requires TakesSome(msgs, writable, fd)
    ensures fd in writable
  {
    if msgs != [] {
      var d := Reached(msgs[0], writable);
      TakesStep(msgs, writable, fd);
      DeliveredFacts(msgs[0].target, writable);
      if fd !in d {
        TakesWritable(msgs[1..], writable - d, fd);
      }
    }
  }

  lemma {:induction false} GotExactly(q: seq<Traced>, writable: set<int>, fd: int)
    requires Spelled(q)
    ensures Got(q, writable, fd) != [] <==> TakesSome(Plain(q), writable, fd)
    ensures forall p :: p in Got(q, writable, fd) ==> p in PiecesFor(q, fd)
  {
    if q != [] {
      var x, d := q[0], Reached(q[0].msg, writable);
      assert x in q && Plain(q)[1..] == Plain(q[1..]) && Plain(q)[0] == x.msg;
      TakesStep(Plain(q), writable, fd);
      DeliveredFacts(x.msg.target, writable);
      SpelledEmpty(x);
      GotExactly(q[1..], writable - d, fd);
    }
  }

  /** A message for fd that the pass does not send to it, while fd is writable, is one it misses. */
  lemma MissesExactly(msgs: seq<Message>, writable: set<int>, fd: int)
    requires msgs != [] && fd in writable && fd !in Reached(msgs[0], writable)
    ensures Misses(msgs, writable, fd, 0) <==> IsFor(msgs[0], fd)
  {
    TakesExactly(msgs, writable, fd, 0);
  }

  lemma {:induction false} KeptPieces(x: Traced, d: set<int>, rest: seq<Traced>, fd: int)
    requires d <= x.msg.target
    ensures PiecesFor(TracedKept(x, d) + rest, fd)
         == (if fd in x.msg.target - d then x.pieces else []) + PiecesFor(rest, fd)
  {
    if TracedKept(x, d) == [] {
      assert fd !in x.msg.target - d;
      EmptyPrefix(rest);
      EmptyPrefix(PiecesFor(rest, fd));
    } else {
      PiecesCons(TracedKept(x, d)[0], rest, fd);
    }
  }

  /** What is sent later comes before what waits here: in order only if one of the two is nothing. */
  lemma MissedExact<T>(mine: seq<T>, g: seq<T>, l: seq<T>, r: seq<T>)
    requires Distinct(mine + r) && forall p :: p in g ==> p in r
    ensures g + (mine + l) == mine + r <==> (mine == [] || g == []) && g + l == r
  {
    if mine == [] {
      EmptyPrefix(l);
      EmptyPrefix(r);
    } else if g == [] {
      EmptyPrefix(mine + l);
      EmptyPrefix(l);
      CancelPrefix(mine, l, r);
    } else {
      assert g[0] in g;
      var k :| 0 <= k < |r| && r[k] == g[0];
      assert (mine + r)[|mine| + k] == g[0] && (mine + r)[0] == mine[0];
      assert (g + (mine + l))[0] == g[0];
    }
  }

  lemma SentExact(mine: seq<Piece>, l: seq<Piece>, r: seq<Piece>)
    ensures (mine + []) + ([] + l) == mine + r <==> [] + l == r
  {
    EmptySuffix(mine);
    EmptyPrefix(l);
    CancelPrefix(mine, l, r);
  }

  lemma DeliveredWithin(m: Message, writable: set<int>)
    ensures Reached(m, writable) <= m.target * writable
  {
    DeliveredFacts(m.target, writable);
  }

  /** A pass keeps the order of the texts for fd exactly when it overtakes none. */
  lemma {:induction false} PassOrderExact(q: seq<Traced>, writable: set<int>, fd: int)
    requires Spelled(q) && Distinct(PiecesFor(q, fd))
    ensures Got(q, writable, fd) + PiecesFor(Left(q, writable), fd) == PiecesFor(q, fd)
        <==> !Overtakes(Plain(q), writable, fd)
  {
    if q != [] {
      var x, d := q[0], Reached(q[0].msg, writable);
      var mine := if fd in x.msg.target then x.pieces else [];
      var g, l := Got(q[1..], writable - d, fd), PiecesFor(Left(q[1..], writable - d), fd);
      var r := PiecesFor(q[1..], fd);
      hide Reached, Overtakes, Misses, TakesSome, PassedOver;
      assert x in q && Plain(q)[1..] == Plain(q[1..]) && Plain(q)[0] == x.msg;
      DistinctSuffix(mine, r);
      PassOrderExact(q[1..], writable - d, fd);
      OvertakesStep(Plain(q), writable, fd);
      GotExactly(q[1..], writable - d, fd);
      DeliveredWithin(x.msg, writable);
      KeptPieces(x, d, Left(q[1..], writable - d), fd);
      if TakesSome(Plain(q[1..]), writable - d, fd) {
        TakesWritable(Plain(q[1..]), writable - d, fd);
      }
      if fd in d {
        SentExact(mine, l, r);
      } else {
        EmptyPrefix(g);
        SpelledEmpty(x);
        MissedExact(mine, g, l, r);
        if fd in writable {
          MissesExactly(Plain(q), writable, fd);
        }
      }
    }
  }

  lemma OvertakesTakes(msgs: seq<Message>, writable: set<int>, fd: int)
    requires Overtakes(msgs, writable, fd)
    ensures TakesSome(msgs, writable, fd)
  {}

  /** Once a pass has overtaken, the first piece to arrive is not the one that should. */
  lemma {:induction false} OvertakenHead(q: seq<Traced>, writable: set<int>, fd: int)
    requires Spelled(q) && Distinct(PiecesFor(q, fd)) && Overtakes(Plain(q), writable, fd)
    ensures Got(q, writable, fd) != [] && PiecesFor(q, fd) != []
    ensures Got(q, writable, fd)[0] != PiecesFor(q, fd)[0]
  {
    var x, d := q[0], Reached(q[0].msg, writable);
    var mine := if fd in x.msg.target then x.pieces else [];
    var g, r := Got(q[1..], writable - d, fd), PiecesFor(q[1..], fd);
    hide Reached, Overtakes, TakesSome, PassedOver;
    assert x in q && Plain(q)[1..] == Plain(q[1..]) && Plain(q)[0] == x.msg;
    DistinctSuffix(mine, r);
    SpelledEmpty(x);
    OvertakesStep(Plain(q), writable, fd);
    GotExactly(q[1..], writable - d, fd);
    if Overtakes(Plain(q[1..]), writable - d, fd) {
      OvertakesTakes(Plain(q[1..]), writable - d, fd);
    }
    TakesWritable(Plain(q[1..]), writable - d, fd);
    EmptyPrefix(g);
    if mine == [] {
      EmptyPrefix(r);
      OvertakenHead(q[1..], writable - d, fd);
    } else {
      assert g[0] in g;
      var k :| 0 <= k < |r| && r[k] == g[0];
      assert (mine + r)[|mine| + k] == g[0] && (mine + r)[0] == mine[0];
    }
  }

  lemma {:induction false} OvertakenForGood(q: seq<Traced>, writable: set<int>, fd: int, more: seq<Piece>)
    requires Spelled(q) && Distinct(PiecesFor(q, fd)) && Overtakes(Plain(q), writable, fd)
    ensures Got(q, writable, fd) + more != PiecesFor(q, fd)
  {
    OvertakenHead(q, writable, fd);
    assert (Got(q, writable, fd) + more)[0] == Got(q, writable, fd)[0];
  }
}
