/** merge_msgs: messages with equal target sets are glued together in place. */
module Merging {
  import opened Messages
  import opened Strings

  /** First index from b on whose target set equals that of a; |msgs| when there is none. */
  function FirstSame(msgs: seq<Message>, a: nat, b: nat): (k: nat)
    requires a < b <= |msgs|
    ensures b <= k <= |msgs|
    decreases |msgs| - b
  {
    if b == |msgs| || msgs[b].target == msgs[a].target then b else FirstSame(msgs, a, b + 1)
  }

  lemma {:induction false} FirstSameIsFirst(msgs: seq<Message>, a: nat, b: nat)
    requires a < b <= |msgs|
    ensures var k := FirstSame(msgs, a, b);
            && (forall j :: b <= j < k ==> msgs[j].target != msgs[a].target)
            && (k < |msgs| ==> msgs[k].target == msgs[a].target)
    decreases |msgs| - b
  {
    if b < |msgs| && msgs[b].target != msgs[a].target {
      FirstSameIsFirst(msgs, a, b + 1);
    }
  }

  /** Message b appended to message a and erased. */
  function Glue(msgs: seq<Message>, a: nat, b: nat): seq<Message>
    requires a < b < |msgs|
  {
    msgs[..a] + [msgs[a].(text := msgs[a].text + msgs[b].text)] + msgs[a + 1..b] + msgs[b + 1..]
  }

  /** The queue after the outer loop has run from index a: after gluing b it goes on at b - 1. */
  function Merge(msgs: seq<Message>, a: nat): seq<Message>
    requires a <= |msgs|
    decreases |msgs| - a
  {
    if a == |msgs| then msgs
    else
      var b := FirstSame(msgs, a, a + 1);
      if b < |msgs| then Merge(Glue(msgs, a, b), b - 1) else Merge(msgs, a + 1)
  }

  lemma MergeStep(msgs: seq<Message>, a: nat)
    requires a < |msgs|
    ensures var b := FirstSame(msgs, a, a + 1);
      Merge(msgs, a) == if b < |msgs| then Merge(Glue(msgs, a, b), b - 1) else Merge(msgs, a + 1)
  {}

  lemma {:induction false} MergeDone(msgs: seq<Message>)
    ensures Merge(msgs, |msgs|) == msgs
  {}

  lemma {:induction false} MergeShort(msgs: seq<Message>)
    requires |msgs| <= 1
    ensures Merge(msgs, 0) == msgs
  {
    if |msgs| == 1 {
      assert FirstSame(msgs, 0, 1) == 1;
      assert Merge(msgs, 1) == msgs;
    }
  }

  // ---- which messages are glued, from the target sets alone ----

  function Targets(msgs: seq<Message>): (ts: seq<set<int>>)
    ensures |ts| == |msgs|
  {
    seq(|msgs|, i requires 0 <= i < |msgs| => msgs[i].target)
  }

  /** In the queue as given: message from is appended to message into, across those from over to from - 1. */
  datatype Gluing = Gluing(into: nat, over: nat, from: nat)

  function SameFrom(ts: seq<set<int>>, a: nat, b: nat): (k: nat)
    requires a < b <= |ts|
    ensures b <= k <= |ts|
    decreases |ts| - b
  {
    if b == |ts| || ts[b] == ts[a] then b else SameFrom(ts, a, b + 1)
  }

  /** All gluings of the loop once it stands at message a and those before next are dealt with. After
      gluing across others it goes on at the last message it has crossed. */
  function Gluings(ts: seq<set<int>>, a: nat, next: nat): (gs: seq<Gluing>)
    requires a < next <= |ts|
    decreases |ts| - next
  {
    if next == |ts| then []
    else
      var b := SameFrom(ts, a, next);
      if b == |ts| then Gluings(ts, next, next + 1)
      else [Gluing(a, next, b)] + Gluings(ts, if b == next then a else b - 1, b + 1)
  }

  function Append(m: Message, n: Message): Message {
    m.(text := m.text + n.text)
  }

  /** The merged queue from message a on, as the loop leaves it: cur is what message a has become. */
  function Scan(cur: Message, msgs: seq<Message>, a: nat, next: nat): seq<Message>
    requires a < next <= |msgs|
    decreases |msgs| - next
  {
    if next == |msgs| then [cur]
    else
      var b := SameFrom(Targets(msgs), a, next);
      if b == |msgs| then [cur] + Scan(msgs[next], msgs, next, next + 1)
      else if b == next then Scan(Append(cur, msgs[b]), msgs, a, b + 1)
      else [Append(cur, msgs[b])] + msgs[next..b - 1] + Scan(msgs[b - 1], msgs, b - 1, b + 1)
  }

  lemma ScanStep(cur: Message, msgs: seq<Message>, a: nat, next: nat)
    requires a < next < |msgs|
    ensures var b := SameFrom(Targets(msgs), a, next);
      Scan(cur, msgs, a, next)
      == if b == |msgs| then [cur] + Scan(msgs[next], msgs, next, next + 1)
         else if b == next then Scan(Append(cur, msgs[b]), msgs, a, b + 1)
         else [Append(cur, msgs[b])] + msgs[next..b - 1] + Scan(msgs[b - 1], msgs, b - 1, b + 1)
  {}

  lemma {:induction false} ScanDone(cur: Message, msgs: seq<Message>, a: nat)
    requires a < |msgs|
    ensures Scan(cur, msgs, a, |msgs|) == [cur]
  {}

  lemma {:induction false} FirstSameBehind(pre: seq<Message>, q: seq<Message>, a: nat, b: nat)
    requires a < b <= |q|
    ensures FirstSame(pre + q, |pre| + a, |pre| + b) == |pre| + FirstSame(q, a, b)
    decreases |q| - b
  {
    assert (pre + q)[|pre| + a] == q[a];
    if b < |q| {
      assert (pre + q)[|pre| + b] == q[b];
      if q[b].target != q[a].target {
        FirstSameBehind(pre, q, a, b + 1);
      }
    }
  }

  lemma GlueBehind(pre: seq<Message>, q: seq<Message>, a: nat, b: nat)
    requires a < b < |q|
    ensures Glue(pre + q, |pre| + a, |pre| + b) == pre + Glue(q, a, b)
  {}

  /** Messages the loop has passed are looked at no more. */
  lemma {:induction false} MergeBehind(pre: seq<Message>, q: seq<Message>, a: nat)
    requires a <= |q|
    ensures Merge(pre + q, |pre| + a) == pre + Merge(q, a)
    decreases |q| - a
  {
    hide Merge;
    if a == |q| {
      MergeDone(q);
      MergeDone(pre + q);
    } else {
      var b := FirstSame(q, a, a + 1);
      FirstSameBehind(pre, q, a, a + 1);
      MergeStep(q, a);
      MergeStep(pre + q, |pre| + a);
      if b < |q| {
        GlueBehind(pre, q, a, b);
        MergeBehind(pre, Glue(q, a, b), b - 1);
      } else {
        MergeBehind(pre, q, a + 1);
      }
    }
  }

  lemma {:induction false} SameAhead(cur: Message, msgs: seq<Message>, a: nat, next: nat, b: nat)
    requires a < next <= b <= |msgs| && cur.target == msgs[a].target
    ensures FirstSame([cur] + msgs[next..], 0, 1 + (b - next)) == 1 + (SameFrom(Targets(msgs), a, b) - next)
    decreases |msgs| - b
  {
    var q := [cur] + msgs[next..];
    if b < |msgs| {
      assert q[1 + (b - next)] == msgs[b];
      if msgs[b].target != msgs[a].target {
        SameAhead(cur, msgs, a, next, b + 1);
      }
    }
  }

  lemma GlueAhead(cur: Message, msgs: seq<Message>, next: nat, b: nat)
    requires next < b < |msgs|
    ensures Glue([cur] + msgs[next..], 0, 1 + (b - next))
         == ([Append(cur, msgs[b])] + msgs[next..b - 1]) + ([msgs[b - 1]] + msgs[b + 1..])
  {}

  lemma MergeNone(cur: Message, msgs: seq<Message>, a: nat, next: nat)
    requires a < next < |msgs| && cur.target == msgs[a].target && SameFrom(Targets(msgs), a, next) == |msgs|
    ensures Merge([cur] + msgs[next..], 0) == [cur] + Merge([msgs[next]] + msgs[next + 1..], 0)
  {
    hide Merge;
    SameAhead(cur, msgs, a, next, next);
    MergeStep([cur] + msgs[next..], 0);
    MergeBehind([cur], msgs[next..], 0);
    assert [msgs[next]] + msgs[next + 1..] == msgs[next..];
  }

  lemma MergeNext(cur: Message, msgs: seq<Message>, a: nat, next: nat)
    requires a < next < |msgs| && cur.target == msgs[a].target && SameFrom(Targets(msgs), a, next) == next
    ensures Merge([cur] + msgs[next..], 0) == Merge([Append(cur, msgs[next])] + msgs[next + 1..], 0)
  {
    hide Merge;
    SameAhead(cur, msgs, a, next, next);
    MergeStep([cur] + msgs[next..], 0);
    assert Glue([cur] + msgs[next..], 0, 1) == [Append(cur, msgs[next])] + msgs[next + 1..];
  }

  lemma {:induction false} MergeAcross(cur: Message, msgs: seq<Message>, a: nat, next: nat, b: nat)
    requires a < next < b < |msgs| && cur.target == msgs[a].target && SameFrom(Targets(msgs), a, next) == b
    ensures Merge([cur] + msgs[next..], 0)
         == [Append(cur, msgs[b])] + msgs[next..b - 1] + Merge([msgs[b - 1]] + msgs[b + 1..], 0)
  {
    hide Merge;
    var crossed := [Append(cur, msgs[b])] + msgs[next..b - 1];
    SameAhead(cur, msgs, a, next, next);
    MergeStep([cur] + msgs[next..], 0);
    GlueAhead(cur, msgs, next, b);
    MergeBehind(crossed, [msgs[b - 1]] + msgs[b + 1..], 0);
  }

  /** The loop with its index jumps is this scan. */
  lemma {:induction false} MergeIsScan(cur: Message, msgs: seq<Message>, a: nat, next: nat)
    requires a < next <= |msgs| && cur.target == msgs[a].target
    ensures Merge([cur] + msgs[next..], 0) == Scan(cur, msgs, a, next)
    decreases |msgs| - next
  {
    hide Merge, Scan;
    if next == |msgs| {
      assert [cur] + msgs[next..] == [cur];
      MergeShort([cur]);
      ScanDone(cur, msgs, a);
    } else {
      var b := SameFrom(Targets(msgs), a, next);
      ScanStep(cur, msgs, a, next);
      if b == |msgs| {
        MergeNone(cur, msgs, a, next);
        MergeIsScan(msgs[next], msgs, next, next + 1);
      } else if b == next {
        MergeNext(cur, msgs, a, next);
        MergeIsScan(Append(cur, msgs[b]), msgs, a, b + 1);
      } else {
        MergeAcross(cur, msgs, a, next, b);
        MergeIsScan(msgs[b - 1], msgs, b - 1, b + 1);
      }
    }
  }

  lemma {:induction false} MergeAsScan(msgs: seq<Message>)
    requires msgs != []
    ensures Merge(msgs, 0) == Scan(msgs[0], msgs, 0, 1)
  {
    MergeIsScan(msgs[0], msgs, 0, 1);
    assert [msgs[0]] + msgs[1..] == msgs;
  }

  lemma {:induction false} GluingsMatch(ts: seq<set<int>>, a: nat, next: nat, g: Gluing)
    requires a < next <= |ts| && g in Gluings(ts, a, next)
    ensures a <= g.into < g.over <= g.from < |ts| && ts[g.into] == ts[g.from]
    ensures forall j :: g.over <= j < g.from ==> ts[j] != ts[g.into]
    decreases |ts| - next
  {
    var b := SameFrom(ts, a, next);
    SameFromMatches(ts, a, next);
    if b == |ts| {
      GluingsMatch(ts, next, next + 1, g);
    } else if g != Gluing(a, next, b) {
      GluingsMatch(ts, if b == next then a else b - 1, b + 1, g);
    }
  }

  lemma {:induction false} SameFromMatches(ts: seq<set<int>>, a: nat, b: nat)
    requires a < b <= |ts|
    ensures SameFrom(ts, a, b) < |ts| ==> ts[SameFrom(ts, a, b)] == ts[a]
    ensures forall j :: b <= j < SameFrom(ts, a, b) ==> ts[j] != ts[a]
    decreases |ts| - b
  {
    if b < |ts| && ts[b] != ts[a] {
      SameFromMatches(ts, a, b + 1);
    }
  }

  /** The pair the inner loop stops at: equal target sets, and no equal one in between. */
  ghost predicate Matches(msgs: seq<Message>, a: nat, b: nat) {
    && a < b < |msgs|
    && msgs[a].target == msgs[b].target
    && forall j :: a < j < b ==> msgs[j].target != msgs[a].target
  }

  /** Induction over the merging loop: what every single gluing keeps, the whole loop keeps. */
  lemma {:induction false} MergeInduction(msgs: seq<Message>, a: nat, keeps: seq<Message> -> bool)
    requires a <= |msgs| && keeps(msgs)
    requires forall q, i, j :: Matches(q, i, j) && keeps(q) ==> keeps(Glue(q, i, j))
    ensures keeps(Merge(msgs, a))
    decreases |msgs| - a
  {
    if a < |msgs| {
      var b := FirstSame(msgs, a, a + 1);
      FirstSameIsFirst(msgs, a, a + 1);
      if b < |msgs| {
        assert Matches(msgs, a, b);
        MergeInduction(Glue(msgs, a, b), b - 1, keeps);
      } else {
        MergeInduction(msgs, a + 1, keeps);
      }
    }
  }

  lemma Parts(msgs: seq<Message>, a: nat, b: nat)
    requires a < b < |msgs|
    ensures msgs == msgs[..a] + [msgs[a]] + msgs[a + 1..b] + ([msgs[b]] + msgs[b + 1..])
  {}

  // ---- what gluing keeps ----

  lemma {:induction false} NoTextFor(msgs: seq<Message>, t: set<int>)
    requires forall m :: m in msgs ==> m.target != t
    ensures TextFor(msgs, t) == ""
  {
    if msgs != [] {
      assert msgs[0] in msgs;
      NoTextFor(msgs[1..], t);
    }
  }

  lemma Regroup(p: string, x: string, m: string, y: string, r: string)
    requires m == "" || y == ""
    ensures ((p + x) + m) + (y + r) == ((p + (x + y)) + m) + r
  {}

  lemma {:induction false} GlueKeepsText(msgs: seq<Message>, a: nat, b: nat, t: set<int>)
    requires Matches(msgs, a, b)
    ensures TextFor(Glue(msgs, a, b), t) == TextFor(msgs, t)
  {
    var pre, mid, post := msgs[..a], msgs[a + 1..b], msgs[b + 1..];
    var glued := msgs[a].(text := msgs[a].text + msgs[b].text);
    Parts(msgs, a, b);
    TextForConcat(pre, [msgs[a]], t);
    TextForConcat(pre + [msgs[a]], mid, t);
    TextForConcat(pre + [msgs[a]] + mid, [msgs[b]] + post, t);
    TextForConcat([msgs[b]], post, t);
    TextForConcat(pre, [glued], t);
    TextForConcat(pre + [glued], mid, t);
    TextForConcat(pre + [glued] + mid, post, t);
    if t == msgs[a].target {
      NoTextFor(mid, t);
    }
    TextForOne(msgs[a], t);
    TextForOne(msgs[b], t);
    TextForOne(glued, t);
    Regroup(TextFor(pre, t), TextFor([msgs[a]], t), TextFor(mid, t), TextFor([msgs[b]], t), TextFor(post, t));
  }

  lemma {:induction false} TextForOne(m: Message, t: set<int>)
    ensures TextFor([m], t) == if m.target == t then m.text else ""
  {
    assert [m][1..] == [];
  }

  lemma {:induction false} GlueKeepsBytes(msgs: seq<Message>, a: nat, b: nat, fd: int)
    requires a < b < |msgs| && msgs[a].target == msgs[b].target
    ensures BytesFor(Glue(msgs, a, b), fd) == BytesFor(msgs, fd)
  {
    var pre, mid, post := msgs[..a], msgs[a + 1..b], msgs[b + 1..];
    var glued := msgs[a].(text := msgs[a].text + msgs[b].text);
    Parts(msgs, a, b);
    BytesForConcat(pre, [msgs[a]], fd);
    BytesForConcat(pre + [msgs[a]], mid, fd);
    BytesForConcat(pre + [msgs[a]] + mid, [msgs[b]] + post, fd);
    BytesForConcat([msgs[b]], post, fd);
    BytesForConcat(pre, [glued], fd);
    BytesForConcat(pre + [glued], mid, fd);
    BytesForConcat(pre + [glued] + mid, post, fd);
  }

  /** For every target set, the text addressed to exactly that set keeps its content and order. */
  lemma {:induction false} MergeKeepsText(msgs: seq<Message>, t: set<int>)
    ensures TextFor(Merge(msgs, 0), t) == TextFor(msgs, t)
  {
    var keeps := q => TextFor(q, t) == TextFor(msgs, t);
    forall q, i, j | Matches(q, i, j) && keeps(q) ensures keeps(Glue(q, i, j)) {
      GlueKeepsText(q, i, j, t);
    }
    MergeInduction(msgs, 0, keeps);
  }

  /** Every recipient is still owed the same bytes. */
  lemma {:induction false} MergeKeepsBytes(msgs: seq<Message>, fd: int)
    ensures BytesFor(Merge(msgs, 0), fd) == BytesFor(msgs, fd)
  {
    var keeps := q => BytesFor(q, fd) == BytesFor(msgs, fd);
    forall q, i, j | Matches(q, i, j) && keeps(q) ensures keeps(Glue(q, i, j)) {
      GlueKeepsBytes(q, i, j, fd);
    }
    MergeInduction(msgs, 0, keeps);
  }

  lemma GlueMembers(msgs: seq<Message>, a: nat, b: nat, m: Message)
    requires a < b < |msgs|
    ensures m in Glue(msgs, a, b) ==> m in msgs || m == msgs[a].(text := msgs[a].text + msgs[b].text)
  {}

  lemma {:induction false} GluePending(msgs: seq<Message>, a: nat, b: nat)
    requires a < b < |msgs|
    ensures PendingCount(Glue(msgs, a, b)) <= PendingCount(msgs)
  {
    var pre, mid, post := msgs[..a], msgs[a + 1..b], msgs[b + 1..];
    var glued := msgs[a].(text := msgs[a].text + msgs[b].text);
    Parts(msgs, a, b);
    PendingCountConcat(pre, [msgs[a]]);
    PendingCountConcat(pre + [msgs[a]], mid);
    PendingCountConcat(pre + [msgs[a]] + mid, [msgs[b]] + post);
    PendingCountConcat([msgs[b]], post);
    PendingCountConcat(pre, [glued]);
    PendingCountConcat(pre + [glued], mid);
    PendingCountConcat(pre + [glued] + mid, post);
  }

  /** Merging can only lower the number of waiting (message, recipient) pairs. */
  lemma {:induction false} MergePending(msgs: seq<Message>)
    ensures PendingCount(Merge(msgs, 0)) <= PendingCount(msgs)
  {
    var keeps := q => PendingCount(q) <= PendingCount(msgs);
    forall q, i, j | Matches(q, i, j) && keeps(q) ensures keeps(Glue(q, i, j)) {
      GluePending(q, i, j);
    }
    MergeInduction(msgs, 0, keeps);
  }

  // ---- unfinished lines ----

  /** Unfinished input is addressed to nobody. */
  ghost predicate InputUnaddressed(msgs: seq<Message>) {
    forall m :: m in msgs && Unfinished(m) ==> m.target == {}
  }

  ghost predicate TakesInput(msgs: seq<Message>, g: Gluing) {
    g.into < |msgs| && g.from < |msgs| && (Unfinished(msgs[g.into]) || Unfinished(msgs[g.from]))
  }

  ghost predicate TouchesFrom(msgs: seq<Message>, a: nat, next: nat)
    requires a < next <= |msgs|
  {
    exists g :: g in Gluings(Targets(msgs), a, next) && TakesInput(msgs, g)
  }

  /** One of the two messages of some gluing is unfinished. */
  ghost predicate TouchesInput(msgs: seq<Message>) {
    msgs != [] && TouchesFrom(msgs, 0, 1)
  }

  lemma NoGluings(msgs: seq<Message>, a: nat)
    requires a < |msgs|
    ensures !TouchesFrom(msgs, a, |msgs|)
  {}

  lemma TouchesStep(msgs: seq<Message>, a: nat, next: nat)
    requires a < next < |msgs|
    ensures var b := SameFrom(Targets(msgs), a, next);
      if b == |msgs| then TouchesFrom(msgs, a, next) <==> TouchesFrom(msgs, next, next + 1)
      else if Unfinished(msgs[a]) || Unfinished(msgs[b]) then TouchesFrom(msgs, a, next)
      else TouchesFrom(msgs, a, next) <==> TouchesFrom(msgs, if b == next then a else b - 1, b + 1)
  {
    var ts := Targets(msgs);
    var b := SameFrom(ts, a, next);
    if b < |msgs| {
      var here := Gluing(a, next, b);
      var rest := Gluings(ts, if b == next then a else b - 1, b + 1);
      assert forall g :: g in [here] + rest <==> g == here || g in rest;
      assert here in Gluings(ts, a, next);
      assert TakesInput(msgs, here) <==> Unfinished(msgs[a]) || Unfinished(msgs[b]);
    }
  }

  lemma UnfinishedGlued(m: Message, n: Message)
    ensures Unfinished(Append(m, n)) <==> Unfinished(m) && Unfinished(n)
  {}

  lemma {:induction false} TailsCons(m: Message, rest: seq<Message>, client: int)
    ensures Tails([m] + rest, client)
         == (if m.emitter == client && Unfinished(m) then [m.text] else []) + Tails(rest, client)
  {
    assert ([m] + rest)[1..] == rest;
  }

  /** A stretch of the queue around message b. */
  lemma Around(msgs: seq<Message>, next: nat, b: nat)
    requires next <= b < |msgs|
    ensures msgs[next..] == msgs[next..b] + ([msgs[b]] + msgs[b + 1..])
    ensures next < b ==> msgs[next..b] == msgs[next..b - 1] + [msgs[b - 1]]
  {}

  lemma {:induction false} TailsFinished(m: Message, rest: seq<Message>, client: int)
    requires !Unfinished(m)
    ensures Tails([m] + rest, client) == Tails(rest, client)
  {
    TailsCons(m, rest, client);
    EmptyPrefix(Tails(rest, client));
  }

  /** A finished message b can be left out, whether or not another one is right before it. */
  lemma {:induction false} TailsAround(msgs: seq<Message>, next: nat, b: nat, client: int)
    requires next <= b < |msgs| && !Unfinished(msgs[b])
    ensures Tails(msgs[next..], client)
         == if next == b then Tails(msgs[b + 1..], client)
            else Tails(msgs[next..b - 1], client) + Tails([msgs[b - 1]] + msgs[b + 1..], client)
  {
    Around(msgs, next, b);
    TailsFinished(msgs[b], msgs[b + 1..], client);
    if next == b {
      assert msgs[next..] == [msgs[b]] + msgs[b + 1..];
    } else {
      var pre, last, post := msgs[next..b - 1], [msgs[b - 1]], msgs[b + 1..];
      TailsConcat(pre + last, [msgs[b]] + post, client);
      TailsConcat(pre, last, client);
      TailsConcat(last, post, client);
      Assoc(Tails(pre, client), Tails(last, client), Tails(post, client));
    }
  }

  lemma {:induction false} TailsCrossed(glued: Message, mid: seq<Message>, rest: seq<Message>, client: int)
    requires !Unfinished(glued)
    ensures Tails([glued] + mid + rest, client) == Tails(mid, client) + Tails(rest, client)
  {
    Assoc([glued], mid, rest);
    TailsFinished(glued, mid + rest, client);
    TailsConcat(mid, rest, client);
  }

  lemma {:induction false} ScanSparesInput(cur: Message, msgs: seq<Message>, a: nat, next: nat, client: int)
    requires a < next <= |msgs| && (Unfinished(cur) <==> Unfinished(msgs[a]))
    requires !TouchesFrom(msgs, a, next)
    ensures Tails(Scan(cur, msgs, a, next), client) == Tails([cur] + msgs[next..], client)
    decreases |msgs| - next
  {
    hide Scan, Tails, TouchesFrom;
    if next == |msgs| {
      assert [cur] + msgs[next..] == [cur];
      ScanDone(cur, msgs, a);
    } else {
      var b := SameFrom(Targets(msgs), a, next);
      TouchesStep(msgs, a, next);
      ScanStep(cur, msgs, a, next);
      if b == |msgs| {
        ScanSparesInput(msgs[next], msgs, next, next + 1, client);
        assert msgs[next..] == [msgs[next]] + msgs[next + 1..];
        TailsCons(cur, Scan(msgs[next], msgs, next, next + 1), client);
        TailsCons(cur, msgs[next..], client);
      } else {
        var glued := Append(cur, msgs[b]);
        UnfinishedGlued(cur, msgs[b]);
        TailsAround(msgs, next, b, client);
        TailsFinished(cur, msgs[next..], client);
        if b == next {
          ScanSparesInput(glued, msgs, a, b + 1, client);
          TailsFinished(glued, msgs[b + 1..], client);
        } else {
          ScanSparesInput(msgs[b - 1], msgs, b - 1, b + 1, client);
          TailsCrossed(glued, msgs[next..b - 1], Scan(msgs[b - 1], msgs, b - 1, b + 1), client);
        }
      }
    }
  }

  function UnfinishedCount(msgs: seq<Message>): nat
  {
    if msgs == [] then 0 else (if Unfinished(msgs[0]) then 1 else 0) + UnfinishedCount(msgs[1..])
  }

  lemma {:induction false} UnfinishedConcat(a: seq<Message>, b: seq<Message>)
    ensures UnfinishedCount(a + b) == UnfinishedCount(a) + UnfinishedCount(b)
  {
    if a == [] {
      assert a + b == b;
    } else {
      assert (a + b)[1..] == a[1..] + b;
      UnfinishedConcat(a[1..], b);
    }
  }

  lemma {:induction false} UnfinishedCons(m: Message, rest: seq<Message>)
    ensures UnfinishedCount([m] + rest) == (if Unfinished(m) then 1 else 0) + UnfinishedCount(rest)
  {
    assert ([m] + rest)[1..] == rest;
  }

  lemma UnfinishedAround(msgs: seq<Message>, next: nat, b: nat)
    requires next <= b < |msgs|
    ensures UnfinishedCount(msgs[next..])
         == (if Unfinished(msgs[b]) then 1 else 0)
            + if next == b then UnfinishedCount(msgs[b + 1..])
              else UnfinishedCount(msgs[next..b - 1]) + UnfinishedCount([msgs[b - 1]] + msgs[b + 1..])
  {
    Around(msgs, next, b);
    UnfinishedCons(msgs[b], msgs[b + 1..]);
    if next == b {
      assert msgs[next..] == [msgs[b]] + msgs[b + 1..];
    } else {
      var pre, last, post := msgs[next..b - 1], [msgs[b - 1]], msgs[b + 1..];
      UnfinishedConcat(pre + last, [msgs[b]] + post);
      UnfinishedConcat(pre, last);
      UnfinishedConcat(last, post);
    }
  }

  lemma {:induction false} UnfinishedCrossed(glued: Message, mid: seq<Message>, rest: seq<Message>)
    ensures UnfinishedCount([glued] + mid + rest)
         == (if Unfinished(glued) then 1 else 0) + UnfinishedCount(mid) + UnfinishedCount(rest)
  {
    Assoc([glued], mid, rest);
    UnfinishedCons(glued, mid + rest);
    UnfinishedConcat(mid, rest);
  }

  /** The scan adds no unfinished message, and once it has glued one there are fewer of them. */
  lemma {:induction false} ScanFewer(cur: Message, msgs: seq<Message>, a: nat, next: nat)
    requires a < next <= |msgs|
    ensures UnfinishedCount(Scan(cur, msgs, a, next)) <= UnfinishedCount([cur] + msgs[next..])
    ensures (Unfinished(cur) <==> Unfinished(msgs[a])) && TouchesFrom(msgs, a, next)
      ==> UnfinishedCount(Scan(cur, msgs, a, next)) < UnfinishedCount([cur] + msgs[next..])
    decreases |msgs| - next
  {
    hide Scan, UnfinishedCount, TouchesFrom;
    if next == |msgs| {
      assert [cur] + msgs[next..] == [cur];
      ScanDone(cur, msgs, a);
      NoGluings(msgs, a);
    } else {
      var b := SameFrom(Targets(msgs), a, next);
      TouchesStep(msgs, a, next);
      ScanStep(cur, msgs, a, next);
      UnfinishedCons(cur, msgs[next..]);
      if b == |msgs| {
        ScanFewer(msgs[next], msgs, next, next + 1);
        UnfinishedCons(cur, Scan(msgs[next], msgs, next, next + 1));
        assert msgs[next..] == [msgs[next]] + msgs[next + 1..];
      } else {
        var glued := Append(cur, msgs[b]);
        UnfinishedGlued(cur, msgs[b]);
        UnfinishedAround(msgs, next, b);
        if b == next {
          ScanFewer(glued, msgs, a, b + 1);
          UnfinishedCons(glued, msgs[b + 1..]);
        } else {
          ScanFewer(msgs[b - 1], msgs, b - 1, b + 1);
          UnfinishedCrossed(glued, msgs[next..b - 1], Scan(msgs[b - 1], msgs, b - 1, b + 1));
        }
      }
    }
  }

  function NotFrom(msgs: seq<Message>, client: int): seq<Message>
  {
    if msgs == [] then []
    else (if msgs[0].emitter == client then [] else [msgs[0]]) + NotFrom(msgs[1..], client)
  }

  lemma {:induction false} NotFromTails(msgs: seq<Message>, client: int, other: int)
    ensures Tails(NotFrom(msgs, client), other) == if other == client then [] else Tails(msgs, other)
  {
    if msgs != [] {
      NotFromTails(msgs[1..], client, other);
      var kept := NotFrom(msgs[1..], client);
      assert ([msgs[0]] + kept)[1..] == kept && [] + kept == kept;
    }
  }

  lemma {:induction false} NotFromCount(msgs: seq<Message>, client: int)
    ensures UnfinishedCount(msgs) == |Tails(msgs, client)| + UnfinishedCount(NotFrom(msgs, client))
  {
    if msgs != [] {
      NotFromCount(msgs[1..], client);
      var kept := NotFrom(msgs[1..], client);
      assert ([msgs[0]] + kept)[1..] == kept && [] + kept == kept;
    }
  }

  lemma {:induction false} SomeTail(msgs: seq<Message>) returns (client: int)
    requires UnfinishedCount(msgs) > 0
    ensures Tails(msgs, client) != []
  {
    client := msgs[0].emitter;
    if !Unfinished(msgs[0]) {
      client := SomeTail(msgs[1..]);
    }
  }

  /** The two queues hold the same unfinished lines for every client. */
  ghost predicate SameTails(p: seq<Message>, q: seq<Message>) {
    forall c :: Tails(p, c) == Tails(q, c)
  }

  /** The unfinished lines of every client tell how many there are in all. */
  lemma {:induction false} CountByTails(p: seq<Message>, q: seq<Message>)
    requires SameTails(p, q)
    ensures UnfinishedCount(p) == UnfinishedCount(q)
    decreases UnfinishedCount(p) + UnfinishedCount(q)
  {
    if UnfinishedCount(p) + UnfinishedCount(q) > 0 {
      var client: int;
      if UnfinishedCount(p) > 0 {
        client := SomeTail(p);
      } else {
        client := SomeTail(q);
      }
      forall c ensures Tails(NotFrom(p, client), c) == Tails(NotFrom(q, client), c) {
        NotFromTails(p, client, c);
        NotFromTails(q, client, c);
      }
      NotFromCount(p, client);
      NotFromCount(q, client);
      CountByTails(NotFrom(p, client), NotFrom(q, client));
    }
  }

  lemma {:induction false} MergeSparesInput(msgs: seq<Message>, client: int)
    requires !TouchesInput(msgs)
    ensures Tails(Merge(msgs, 0), client) == Tails(msgs, client)
  {
    if msgs != [] {
      MergeAsScan(msgs);
      ScanSparesInput(msgs[0], msgs, 0, 1, client);
      assert [msgs[0]] + msgs[1..] == msgs;
    }
  }

  /** Merging leaves every unfinished line of every client alone exactly when no gluing takes one. */
  lemma {:induction false} MergeKeepsTailsExact(msgs: seq<Message>)
    ensures SameTails(Merge(msgs, 0), msgs) <==> !TouchesInput(msgs)
  {
    if TouchesInput(msgs) {
      MergeAsScan(msgs);
      ScanFewer(msgs[0], msgs, 0, 1);
      assert [msgs[0]] + msgs[1..] == msgs;
      if SameTails(Merge(msgs, 0), msgs) {
        CountByTails(Merge(msgs, 0), msgs);
      }
    } else {
      forall c ensures Tails(Merge(msgs, 0), c) == Tails(msgs, c) {
        MergeSparesInput(msgs, c);
      }
    }
  }

  lemma GlueKeepsUnaddressed(msgs: seq<Message>, a: nat, b: nat)
    requires a < b < |msgs| && InputUnaddressed(msgs)
    ensures InputUnaddressed(Glue(msgs, a, b))
  {
    assert msgs[a] in msgs && msgs[b] in msgs;
    forall m | m in Glue(msgs, a, b) && Unfinished(m) ensures m.target == {} {
      GlueMembers(msgs, a, b, m);
      if m == msgs[a].(text := msgs[a].text + msgs[b].text) {
        assert forall c :: c in msgs[a].text ==> c in m.text;
      }
    }
  }

  lemma {:induction false} MergeKeepsUnaddressed(msgs: seq<Message>)
    requires InputUnaddressed(msgs)
    ensures InputUnaddressed(Merge(msgs, 0))
  {
    forall q, i, j | Matches(q, i, j) && InputUnaddressed(q) ensures InputUnaddressed(Glue(q, i, j)) {
      GlueKeepsUnaddressed(q, i, j);
    }
    MergeInduction(msgs, 0, InputUnaddressed);
  }

  lemma {:induction false} TwoUnaddressed(msgs: seq<Message>, i: nat, j: nat)
    requires i < j < |msgs| && msgs[i].target == msgs[j].target == {}
    ensures Unaddressed(msgs) >= 2
  {
    var pre, post := msgs[..j], msgs[j..];
    assert msgs == pre + post && msgs == msgs[..i] + msgs[i..];
    UnaddressedConcat(pre, post);
    assert pre == msgs[..i] + pre[i..] && pre[i..][0] == msgs[i] && post[0] == msgs[j];
    UnaddressedConcat(msgs[..i], pre[i..]);
  }

  /** One message addressed to nobody is never glued, so then no unfinished line is touched. */
  lemma {:induction false} OneUnaddressedIsSpared(msgs: seq<Message>)
    requires InputUnaddressed(msgs) && Unaddressed(msgs) <= 1
    ensures !TouchesInput(msgs)
  {
    if TouchesInput(msgs) {
      var g :| g in Gluings(Targets(msgs), 0, 1) && TakesInput(msgs, g);
      GluingsMatch(Targets(msgs), 0, 1, g);
      assert msgs[g.into] in msgs && msgs[g.from] in msgs;
      TwoUnaddressed(msgs, g.into, g.from);
    }
  }

  /** It does happen: the unfinished lines of two clients are glued together. */
  lemma MergeGluesUnfinishedLines()
    ensures var msgs := [Message(4, {}, "NI"), Message(5, {}, "US")];
            && InputUnaddressed(msgs) && Tails(msgs, 4) == ["NI"] && Tails(msgs, 5) == ["US"]
            && TouchesInput(msgs)
            && Tails(Merge(msgs, 0), 4) == ["NI" + "US"] && Tails(Merge(msgs, 0), 5) == []
  {
    var msgs := [Message(4, {}, "NI"), Message(5, {}, "US")];
    var glued := Glue(msgs, 0, 1);
    assert msgs[1..] == [Message(5, {}, "US")] && msgs[1..][1..] == [];
    assert FirstSame(msgs, 0, 1) == 1;
    assert glued == [Message(4, {}, "NI" + "US")] && glued[1..] == [];
    assert FirstSame(glued, 0, 1) == 1;
    assert Merge(glued, 1) == glued;
    assert Merge(glued, 0) == glued;
    assert Merge(msgs, 0) == glued;
    assert SameFrom(Targets(msgs), 0, 1) == 1;
    assert Gluing(0, 1, 1) in Gluings(Targets(msgs), 0, 1) && TakesInput(msgs, Gluing(0, 1, 1));
  }
}
