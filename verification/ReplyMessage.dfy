/** class Message as a reply: its text is rewritten in place until no hole is left. */
module ReplyMessage {
  import opened Strings
  import opened Templates
  import opened Rendering
  import opened Replies

  const SERVERNAME := "ircserv"

  class Message {
    const emitter: int
    const username: string
    const emitterNick: string
    const host: string
    var target: set<int>
    var text: string

    constructor (emitter: int, nick: string, user: string, host: string)
      ensures text == "" && target == {}
      ensures this.emitter == emitter && emitterNick == nick && this.host == host
      ensures username == if user == "" then "*" else user
    {
      this.emitter, emitterNick, this.host := emitter, nick, host;
      username := if user == "" then "*" else user;
      target, text := {}, "";
    }

    /** Whom the prefix names: the emitter, or the server when it is the server's own message. */
    function Who(socket: int): Sender
    {
      Sender(if emitter == socket then SERVERNAME else emitterNick, username, host)
    }

    /** std::string::replace of count characters from begin, a negative count reaching to the end. */
    method Replace(begin: nat, count: int, value: string)
      requires begin <= |text|
      modifies this`text
      ensures text == old(text[..begin]) + value
                      + if count < 0 || begin + count > |old(text)| then "" else old(text)[begin + count..]
    {
      if count < 0 || begin + count > |text| {
        text := text[..begin] + value + "";
      } else {
        text := text[..begin] + value + text[begin + count..];
      }
    }

    method ReplaceRplErrText(value: string)
      requires '<' in text
      modifies this`text
      ensures text == ReplaceHole(old(text), value)
    {
      var begin := Find(text, '<');
      var end := (if '>' in text then Find(text, '>') + 1 else 0) - begin;
      EmptySuffix(text[..begin] + value);
      Replace(begin, end, value);
    }

    /** replace_prefix: false when a replacement finds no hole. */
    method ReplacePrefix(reply: string, socket: int) returns (ok: bool)
      modifies this`text
      ensures Prefixed(old(text), PrefixOf(reply, Who(socket))) == if ok then Done(text, []) else Broken
    {
      var prefix := PrefixOf(reply, Who(socket));
      var i := 0;
      while i < |prefix|
        invariant 0 <= i <= |prefix|
        invariant Prefixed(old(text), prefix) == Prefixed(text, prefix[i..])
      {
        assert prefix[i..][1..] == prefix[i + 1..];
        if '<' !in text {
          return false;
        }
        ReplaceRplErrText(prefix[i]);
        i := i + 1;
      }
      ok := true;
    }

    /** The while loop of reply_format; false when it runs out of values. */
    method FillHoles(values: seq<string>) returns (ok: bool, left: seq<string>)
      modifies this`text
      ensures FillAll(old(text), values) == if ok then Done(text, left) else Broken
    {
      left := values;
      while '<' in text
        invariant FillAll(old(text), values) == FillAll(text, left)
        decreases |left|
      {
        if left == [] {
          return false, left;
        }
        ReplaceRplErrText(left[0]);
        left := left[1..];
      }
      ok := true;
    }

    /** reply_format over a list of replies. */
    method ReplyFormat(replies: seq<string>, values: seq<string>) returns (ok: bool, left: seq<string>)
      modifies this
      ensures target == {emitter}
      ensures Format("", replies, values, Who(-1)) == if ok then Done(text, left) else Broken
    {
      target := {emitter};
      text := "";
      left := values;
      var i := 0;
      while i < |replies|
        invariant 0 <= i <= |replies|
        invariant target == {emitter}
        invariant Format("", replies, values, Who(-1)) == Format(text, replies[i..], left, Who(-1))
      {
        assert replies[i..][1..] == replies[i + 1..];
        text := text + replies[i];
        FillPrefixIsPrefixed(text, PrefixOf(replies[i], Who(-1)), left);
        ok := ReplacePrefix(replies[i], -1);
        if !ok {
          return;
        }
        ok, left := FillHoles(left);
        if !ok {
          return;
        }
        i := i + 1;
      }
      ok := true;
    }

    /** reply_format of a single reply with a single value. */
    method ReplyFormatOne(reply: string, value: string, socket: int) returns (ok: bool)
      modifies this
      ensures target == {emitter}
      ensures FormatOne(reply, value, Who(socket)) == if ok then Done(text, []) else Broken
    {
      target := {emitter};
      text := reply;
      ok := ReplacePrefix(reply, socket);
      if ok && '<' in text {
        ReplaceRplErrText(value);
      }
    }

    /** The loop of reply_replace_curly_brackets: the text is inserted behind the opening brace. */
    method InsertAgain(head: string, replace: string, tail: string, replaceCount: int) returns (r: string)
      ensures r == head + Repeat(replace, replaceCount - 1) + tail
    {
      r := head + tail;
      EmptySuffix(head);
      var n := 0;
      while n < replaceCount - 1
        invariant 0 <= n && (n == 0 || n <= replaceCount - 1)
        invariant r == head + Repeat(replace, n) + tail
      {
        RepeatAgain(replace, n, head, tail);
        r := r[..|head|] + replace + r[|head|..];
        n := n + 1;
      }
      RepeatNone(replace, replaceCount - 1, n);
    }

    /** The two erasures at the end of reply_replace_curly_brackets. */
    method EraseBoth(text: string, start: nat) returns (r: string)
      requires start < |text| && '}' in text[..start] + text[start + 1..]
      ensures var without := text[..start] + text[start + 1..];
        r == without[..Find(without, '}')] + without[Find(without, '}') + 1..]
    {
      r := text[..start] + text[start + 1..];
      var close := Find(r, '}');
      r := r[..close] + r[close + 1..];
    }

    /** reply_replace_curly_brackets */
    method ReplyReplaceCurlyBrackets(reply: string, replaceCount: int) returns (r: string)
      requires Find(reply, '{') < Find(reply, '}') < |reply|
      ensures r == Expand(reply, replaceCount)
    {
      var start, close := Find(reply, '{'), Find(reply, '}');
      var replace := reply[start + 1..close];
      r := InsertAgain(reply[..start + 1], replace, reply[close..], replaceCount);
      EraseBraces(reply, start, close, replace, replaceCount - 1);
      r := EraseBoth(r, start);
    }
  }

  lemma {:induction false} RepeatNone(s: string, n: int, i: nat)
    requires i == if n < 0 then 0 else n
    ensures Repeat(s, i) == Repeat(s, n)
  {}

  /** The one-value form replaces at most one hole after the prefix. */
  function FormatOne(reply: string, value: string, who: Sender): Outcome
  {
    var p := Prefixed(reply, PrefixOf(reply, who));
    if p.Done? && '<' in p.text then Done(ReplaceHole(p.text, value), []) else p
  }

  lemma {:induction false} FormatSingle(reply: string, values: seq<string>, who: Sender)
    ensures Format("", [reply], values, who) == FillPrefix(reply, PrefixOf(reply, who), values)
  {
    EmptyPrefix(reply);
    assert [reply][1..] == [];
  }

  /** On a template with one value hole both forms of reply_format give the same text. */
  lemma {:induction false} OneValueAgrees(t: Template, value: string, who: Sender)
    requires WellFormed(t) && ValueHoles(t) == 1 && CleanSender(who) && '<' !in value
    ensures Format("", [Source(t)], [value], who) == FormatOne(Source(t), value, who)
  {
    var prefix := PrefixOf(Source(t), who);
    var pre := t.start + Weave(t.holes[..|prefix|], prefix);
    assert t.holes[|prefix|..] == [t.holes[|prefix|]];
    PrefixClean(t.start, t.holes, prefix, [value]);
    LastHoleAgrees(pre, t.holes[|prefix|], value);
    FormatSingle(Source(t), [value], who);
    FormatOneAt(Source(t), value, who, pre + Holes([t.holes[|prefix|]]));
  }

  lemma {:induction false} FormatOneAt(reply: string, value: string, who: Sender, text: string)
    requires Prefixed(reply, PrefixOf(reply, who)) == Done(text, []) && '<' in text
    ensures FormatOne(reply, value, who) == Done(ReplaceHole(text, value), [])
  {}

  lemma {:induction false} LastHoleAgrees(pre: string, last: Hole, value: string)
    requires Clean(pre) && CleanHole(last) && '<' !in value
    ensures '<' in pre + Holes([last])
    ensures FillAll(pre + Holes([last]), [value]) == Done(ReplaceHole(pre + Holes([last]), value), [])
  {
    ReplaceClean(pre, [last], value);
    assert [last][1..] == [];
    EmptySuffix(pre + value + last.after);
  }

  lemma RepeatAgain(s: string, n: nat, a: string, b: string)
    ensures (a + Repeat(s, n) + b)[..|a|] + s + (a + Repeat(s, n) + b)[|a|..] == a + Repeat(s, n + 1) + b
  {
    var r := Repeat(s, n);
    assert (a + r + b)[..|a|] == a && (a + r + b)[|a|..] == r + b;
    Assoc(a + s, r, b);
    Assoc(a, s, r);
  }

  /** Erasing the opening brace and then the first closing one leaves the repeated text. */
  lemma EraseBraces(reply: string, open: nat, close: nat, s: string, n: int)
    requires open == Find(reply, '{') < close == Find(reply, '}') < |reply| && s == reply[open + 1..close]
    ensures var r := reply[..open + 1] + Repeat(s, n) + reply[close..];
            && open < |r|
            && var without := r[..open] + r[open + 1..];
               && Find(without, '}') < |without|
               && without[..Find(without, '}')] + without[Find(without, '}') + 1..]
                  == reply[..open] + Repeat(s, n) + reply[close + 1..]
  {
    var a := reply[..open] + Repeat(s, n);
    var r := reply[..open + 1] + Repeat(s, n) + reply[close..];
    NoBraceBefore(reply, open, close);
    RepeatWithout(s, n, '}');
    assert reply[close..] == ['}'] + reply[close + 1..];
    assert r[..open] + r[open + 1..] == a + ['}'] + reply[close + 1..];
    FindAfter(a, '}', reply[close + 1..]);
  }

  lemma {:induction false} NoBraceBefore(reply: string, open: nat, close: nat)
    requires open < close == Find(reply, '}') <= |reply|
    ensures '}' !in reply[..open] && '}' !in reply[open + 1..close]
  {
    FindFirst(reply, '}');
    forall c | c in reply[..open] || c in reply[open + 1..close] ensures c in reply[..close] {
      var i :| 0 <= i < close && i != open && reply[i] == c;
      assert reply[..close][i] == c;
    }
  }

  lemma {:induction false} RepeatWithout(s: string, n: int, c: char)
    requires c !in s
    ensures c !in Repeat(s, n)
    decreases n
  {
    if n > 0 {
      RepeatWithout(s, n - 1, c);
    }
  }
}
