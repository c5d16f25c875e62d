/** Entries of Server::msgs, which holds both unfinished input and pending output. */
module Messages {

  datatype Message = Message(emitter: int, target: set<int>, text: string)

  /** No line feed has been received yet: the reassembly buffer of its emitter. */
  predicate Unfinished(m: Message) {
    '\n' !in m.text
  }

  predicate HasCrlf(text: string) {
    exists i :: 0 <= i < |text| - 1 && text[i] == '\r' && text[i + 1] == '\n'
  }

  /** In-order text of the messages addressed to exactly the set t. */
  function TextFor(msgs: seq<Message>, t: set<int>): string
  {
    if msgs == [] then ""
    else (if msgs[0].target == t then msgs[0].text else "") + TextFor(msgs[1..], t)
  }

  lemma {:induction false} TextForConcat(a: seq<Message>, b: seq<Message>, t: set<int>)
    ensures TextFor(a + b, t) == TextFor(a, t) + TextFor(b, t)
  {
    if a == [] {
      assert a + b == b;
    } else {
      assert (a + b)[1..] == a[1..] + b;
      TextForConcat(a[1..], b, t);
    }
  }

  /** All bytes still owed to one recipient, whatever else the messages address. */
  function BytesFor(msgs: seq<Message>, fd: int): multiset<char>
  {
    if msgs == [] then multiset{}
    else (if fd in msgs[0].target then multiset(msgs[0].text) else multiset{}) + BytesFor(msgs[1..], fd)
  }

  lemma {:induction false} BytesForConcat(a: seq<Message>, b: seq<Message>, fd: int)
    ensures BytesFor(a + b, fd) == BytesFor(a, fd) + BytesFor(b, fd)
  {
    if a == [] {
      assert a + b == b;
    } else {
      assert (a + b)[1..] == a[1..] + b;
      BytesForConcat(a[1..], b, fd);
    }
  }

  /** The unfinished lines queued for one client, in queue order. */
  function Tails(msgs: seq<Message>, client: int): seq<string>
  {
    if msgs == [] then []
    else (if msgs[0].emitter == client && Unfinished(msgs[0]) then [msgs[0].text] else []) + Tails(msgs[1..], client)
  }

  lemma {:induction false} TailsConcat(a: seq<Message>, b: seq<Message>, client: int)
    ensures Tails(a + b, client) == Tails(a, client) + Tails(b, client)
  {
    if a == [] {
      assert a + b == b;
    } else {
      assert (a + b)[1..] == a[1..] + b;
      TailsConcat(a[1..], b, client);
    }
  }

  lemma {:induction false} NoTails(msgs: seq<Message>, client: int)
    requires forall m :: m in msgs ==> !Unfinished(m)
    ensures Tails(msgs, client) == []
  {
    if msgs != [] {
      assert msgs[0] in msgs;
      NoTails(msgs[1..], client);
    }
  }

  /** Total number of (message, recipient) pairs waiting. */
  function PendingCount(msgs: seq<Message>): nat
  {
    if msgs == [] then 0 else |msgs[0].target| + PendingCount(msgs[1..])
  }

  lemma {:induction false} PendingCountConcat(a: seq<Message>, b: seq<Message>)
    ensures PendingCount(a + b) == PendingCount(a) + PendingCount(b)
  {
    if a == [] {
      assert a + b == b;
    } else {
      assert (a + b)[1..] == a[1..] + b;
      PendingCountConcat(a[1..], b);
    }
  }

  /** Number of messages addressed to nobody. */
  function Unaddressed(msgs: seq<Message>): nat
  {
    if msgs == [] then 0 else (if msgs[0].target == {} then 1 else 0) + Unaddressed(msgs[1..])
  }

  lemma {:induction false} UnaddressedConcat(a: seq<Message>, b: seq<Message>)
    ensures Unaddressed(a + b) == Unaddressed(a) + Unaddressed(b)
  {
    if a == [] {
      assert a + b == b;
    } else {
      assert (a + b)[1..] == a[1..] + b;
      UnaddressedConcat(a[1..], b);
    }
  }
}
