/** Why the iterator of the inner sending loop, sent back to begin() after every erase,
    reaches exactly the recipients of Sending.Delivered, in ascending order. */
module SendLoop {
  import opened Ordering
  import opened Sending

  /** The state of the loop over one target set once the descriptors in sent, up to last, have
      been served and the iterator stands at position i of the order of what is left. */
  ghost predicate Progress(target: set<int>, writable: set<int>, sent: set<int>, last: int, order: seq<int>, i: nat) {
    && Served(target, writable, sent, last, order)
    && Scanned(order, writable - sent, if sent == {} then 0 else 1, i)
  }

  ghost predicate Served(target: set<int>, writable: set<int>, sent: set<int>, last: int, order: seq<int>) {
    && sent <= target
    && order == Fds(target - sent)
    && (sent != {} ==>
      && |order| > 0
      && (forall x :: x in sent ==> x <= last)
      && UnwritableUpTo(order, writable - sent, last)
      && Covers(target, writable, sent, order[0]))
  }

  /** The positions from lo up to i have been looked at in vain. */
  ghost predicate Scanned(order: seq<int>, writable: set<int>, lo: nat, i: nat) {
    lo <= i <= |order| && forall j :: lo <= j < i ==> order[j] !in writable
  }

  /** What is served and what is still ahead make up the closed form. */
  ghost predicate Covers(target: set<int>, writable: set<int>, sent: set<int>, first: int) {
    Delivered(target, writable) == sent + Ahead(target - sent, writable - sent, first)
  }

  ghost predicate UnwritableUpTo(order: seq<int>, writable: set<int>, last: int) {
    forall j :: 1 <= j < |order| && order[j] <= last ==> order[j] !in writable
  }

  /** The recipients still to come after a restart: all writable ones but the first that is left. */
  ghost function Ahead(left: set<int>, writable: set<int>, first: int): set<int>
  {
    (left - {first}) * writable
  }

  lemma Start(target: set<int>, writable: set<int>)
    ensures Progress(target, writable, {}, 0, Fds(target), 0)
  {
    assert target - {} == target;
  }

  lemma Skip(order: seq<int>, writable: set<int>, lo: nat, i: nat)
    requires Scanned(order, writable, lo, i) && i < |order| && order[i] !in writable
    ensures Scanned(order, writable, lo, i + 1)
  {}

  // ---- the first recipient ----

  /** The smallest target is served: the next smallest is then skipped for good. */
  lemma FirstIsLeast(target: set<int>, writable: set<int>)
    requires target != {} && |Fds(target)| > 0 && Fds(target)[0] in writable
    ensures var fd := Fds(target)[0];
            var left := Fds(target - {fd});
            && fd in target
            && (|left| == 0 ==> Delivered(target, writable) == {fd})
            && (|left| > 0 ==> Delivered(target, writable) == {fd} + Ahead(target - {fd}, writable - {fd}, left[0]))
  {
    var fd := Fds(target)[0];
    FdsFirst(target);
    FdsDropFirst(target);
    if |target| > 1 {
      FdsDistinct(target, 0, 1);
    } else {
      assert target == {fd};
    }
  }

  /** A larger target is served first: the smallest is skipped, and was not writable anyway. */
  lemma FirstIsLater(target: set<int>, writable: set<int>, i: nat)
    requires 0 < i < |target| && Fds(target)[i] in writable && Fds(target)[0] !in writable
    ensures var fd := Fds(target)[i];
            var left := Fds(target - {fd});
            && fd in target && |left| > 0
            && Delivered(target, writable) == {fd} + Ahead(target - {fd}, writable - {fd}, left[0])
  {
    var fd := Fds(target)[i];
    FdsMember(target, i);
    FdsFirst(target);
    FdsDistinct(target, 0, i);
    FdsHead(target - {fd}, Fds(target)[0]);
  }

  lemma NoneBelow(target: set<int>, writable: set<int>, i: nat, order: seq<int>)
    requires i < |target| && order == Fds(target - {Fds(target)[i]})
    requires Scanned(Fds(target), writable, 0, i)
    ensures UnwritableUpTo(order, writable - {Fds(target)[i]}, Fds(target)[i])
  {
    var fd := Fds(target)[i];
    FdsEnumerate(target);
    FdsEnumerate(target - {fd});
    forall j | 1 <= j < |order| && order[j] <= fd ensures order[j] !in writable - {fd} {
      assert order[j] in order;
      assert order[j] in Fds(target);
    }
  }

  // ---- later recipients ----

  lemma FirstStays(left: set<int>, i: nat)
    requires 1 <= i < |left|
    ensures var fd := Fds(left)[i];
            fd in left && fd != Fds(left)[0] && |Fds(left - {fd})| > 0 && Fds(left - {fd})[0] == Fds(left)[0]
  {
    var fd := Fds(left)[i];
    FdsMember(left, i);
    FdsFirst(left);
    FdsDistinct(left, 0, i);
    FdsHead(left - {fd}, Fds(left)[0]);
  }

  lemma StillNoneBelow(left: set<int>, writable: set<int>, i: nat, order: seq<int>)
    requires 1 <= i < |left| && order == Fds(left - {Fds(left)[i]})
    requires Scanned(Fds(left), writable, 1, i)
    ensures UnwritableUpTo(order, writable - {Fds(left)[i]}, Fds(left)[i])
  {
    var fd := Fds(left)[i];
    FirstStays(left, i);
    FdsEnumerate(left);
    FdsEnumerate(left - {fd});
    forall j | 1 <= j < |order| && order[j] <= fd ensures order[j] !in writable - {fd} {
      assert order[j] in order && order[0] < order[j];
      assert order[j] in Fds(left);
    }
  }

  lemma AheadStep(left: set<int>, writable: set<int>, first: int, fd: int)
    requires fd in left && fd in writable && fd != first
    ensures Ahead(left, writable, first) == {fd} + Ahead(left - {fd}, writable - {fd}, first)
  {}

  // ---- one send ----

  ghost predicate AfterSend(target: set<int>, writable: set<int>, sent: set<int>, fd: int) {
    && fd in target
    && (forall x :: x in sent ==> x < fd)
    && var left := target - (sent + {fd});
       if left == {} then Delivered(target, writable) == sent + {fd}
       else Progress(target, writable, sent + {fd}, fd, Fds(left), 1)
  }

  lemma SendFirst(target: set<int>, writable: set<int>, i: nat)
    requires i < |target| && Fds(target)[i] in writable && Scanned(Fds(target), writable, 0, i)
    ensures AfterSend(target, writable, {}, Fds(target)[i])
  {
    var fd := Fds(target)[i];
    var order := Fds(target - {fd});
    assert {} + {fd} == {fd};
    if i == 0 {
      FirstIsLeast(target, writable);
    } else {
      FirstIsLater(target, writable, i);
    }
    NoneBelow(target, writable, i, order);
  }

  lemma SendLater(target: set<int>, writable: set<int>, sent: set<int>, last: int, order: seq<int>, i: nat)
    requires Progress(target, writable, sent, last, order, i) && i < |order| && sent != {}
    requires order[i] in writable - sent
    ensures AfterSend(target, writable, sent, order[i])
  {
    var left, w := target - sent, writable - sent;
    var fd := order[i];
    FirstStays(left, i);
    StillNoneBelow(left, w, i, Fds(left - {fd}));
    AheadStep(left, w, order[0], fd);
    assert target - (sent + {fd}) == left - {fd};
    assert writable - (sent + {fd}) == w - {fd};
    var ahead := Ahead(left - {fd}, w - {fd}, order[0]);
    assert sent + ({fd} + ahead) == (sent + {fd}) + ahead;
  }

  /** One send: the loop is over, or goes on from the second element of what is left. */
  lemma Send(target: set<int>, writable: set<int>, sent: set<int>, last: int, order: seq<int>, i: nat)
    requires Progress(target, writable, sent, last, order, i) && i < |order|
    requires order[i] in writable - sent
    ensures AfterSend(target, writable, sent, order[i])
  {
    if sent == {} {
      assert target - {} == target && writable - {} == writable;
      SendFirst(target, writable, i);
    } else {
      SendLater(target, writable, sent, last, order, i);
    }
  }

  /** When the iterator runs off the end, everybody it could reach has been served. */
  lemma Finish(target: set<int>, writable: set<int>, sent: set<int>, last: int, order: seq<int>)
    requires Progress(target, writable, sent, last, order, |order|)
    ensures Delivered(target, writable) == sent
    ensures target - sent == {} ==> target == {}
  {
    FdsEnumerate(target - sent);
    if sent == {} {
      assert target - {} == target;
      assert forall y :: y in target ==> y in order;
      DeliveredFacts(target, writable);
    } else {
      assert forall y :: y in target - sent ==> y in order;
      assert Ahead(target - sent, writable - sent, order[0]) == {};
    }
  }
}
