/** Replies that carry text chosen by clients, and the "{...}" repetition of the two replies whose
    number of holes depends on the request: PRIVMSG and the names list of JOIN. */
module Replies {
  import opened Strings
  import opened Templates
  import opened Rendering
  import opened RenderingLimits

  /** count holes of the same name, separated by sep and followed by end. */
  function Repeated(name: string, sep: string, end: string, count: nat): (holes: seq<Hole>)
    requires count >= 1
    ensures |holes| == count
  {
    if count == 1 then [Hole(name, end)] else [Hole(name, sep)] + Repeated(name, sep, end, count - 1)
  }

  /** "NNN <client> ..." */
  function Numeric(code: string, afterClient: string, rest: seq<Hole>): Template
  {
    Template(code + " ", [Hole("client", afterClient)] + rest)
  }

  /** ":<client>!<user>@<host> ..." */
  function Custom(afterHost: string, rest: seq<Hole>): Template
  {
    Template(":", [Hole("client", "!"), Hole("user", "@"), Hole("host", afterHost)] + rest)
  }

  function RplTopic(): Template { Numeric("332", " ", [Hole("channel", " :"), Hole("topic", "\r\n")]) }

  function RplTopicWhoTime(): Template
  {
    Numeric("333", " ", [Hole("channel", " "), Hole("nick", " "), Hole("setat", "\r\n")])
  }

  function RplEndOfNames(): Template { Numeric("366", " ", [Hole("channel", " :End of /NAMES list\r\n")]) }

  function RplJoin(): Template { Custom(" JOIN ", [Hole("channel", "\r\n")]) }

  function RplKick(): Template
  {
    Custom(" KICK ", [Hole("channel", " "), Hole("nick", " :"), Hole("comment", "\r\n")])
  }

  /** RPL_NAMREPLY with its "{ <nick>}" expanded for count entries. */
  function RplNamReply(count: nat): Template
    requires count >= 1
  {
    Numeric("353", " ", [Hole("symbol", " "), Hole("channel", " :")] + Repeated("nick", " ", "\r\n", count))
  }

  /** RPL_PRIVMSG with its "{,<target>}" expanded for count targets. */
  function RplPrivmsg(count: nat): Template
    requires count >= 1
  {
    Custom(" PRIVMSG ", Repeated("target", ",", " :", count) + [Hole("text", "\r\n")])
  }

  // ---- the templates are well formed ----

  lemma NumericText(code: string, afterClient: string, rest: seq<Hole>)
    requires |code| == 3
    ensures !IsCustom(Source(Numeric(code, afterClient, rest)))
  {
    var t := Numeric(code, afterClient, rest);
    HolesOpen(t.holes);
    var text := Source(t);
    assert text == code + " " + (['<'] + ("client" + ['>'] + (afterClient + Holes(t.holes[1..]))));
    assert text[9] == "client"[4];
  }

  lemma CustomText(afterHost: string, rest: seq<Hole>)
    requires afterHost != ""
    ensures IsCustom(Source(Custom(afterHost, rest)))
  {
    var t := Custom(afterHost, rest);
    var h2, h1 := t.holes[2..], t.holes[1..];
    HolesOpen(t.holes);
    HolesOpen(h1);
    assert h1[1..] == h2;
    var text := Source(t);
    var tail := "user" + ['>'] + ("@" + Holes(h2));
    assert Holes(h1) == ['<'] + tail;
    assert text == ":" + (['<'] + ("client" + ['>'] + ("!" + (['<'] + tail))));
    assert text[9] == '!';
    assert text[11..] == tail;
    assert text[16] == tail[5] == '@';
    HolesOpen(h2);
  }

  lemma {:induction false} RepeatedClean(name: string, sep: string, end: string, count: nat)
    requires count >= 1 && Clean(name) && Clean(sep) && Clean(end)
    ensures CleanHoles(Repeated(name, sep, end, count))
    ensures Repeated(name, sep, end, count)[count - 1].after == end
  {
    if count > 1 {
      RepeatedClean(name, sep, end, count - 1);
    }
  }

  lemma NumericWellFormed(code: string, afterClient: string, rest: seq<Hole>)
    requires |code| == 3 && Clean(code) && Clean(afterClient) && CleanHoles(rest)
    requires if rest == [] then afterClient != "" else rest[|rest| - 1].after != ""
    ensures WellFormed(Numeric(code, afterClient, rest))
    ensures ValueHoles(Numeric(code, afterClient, rest)) == |rest|
  {
    NumericText(code, afterClient, rest);
    var t := Numeric(code, afterClient, rest);
    forall h | h in t.holes ensures CleanHole(h) {
      assert h == Hole("client", afterClient) || h in rest;
    }
  }

  lemma CustomWellFormed(afterHost: string, rest: seq<Hole>)
    requires afterHost != "" && Clean(afterHost) && CleanHoles(rest)
    requires rest == [] || rest[|rest| - 1].after != ""
    ensures WellFormed(Custom(afterHost, rest))
    ensures ValueHoles(Custom(afterHost, rest)) == |rest|
  {
    CustomText(afterHost, rest);
    var t := Custom(afterHost, rest);
    forall h | h in t.holes ensures CleanHole(h) {
      assert h in [Hole("client", "!"), Hole("user", "@"), Hole("host", afterHost)] || h in rest;
    }
  }

  lemma NamReplyWellFormed(n: nat)
    requires n >= 1
    ensures WellFormed(RplNamReply(n)) && ValueHoles(RplNamReply(n)) == 2 + n
  {
    var lead, nicks := [Hole("symbol", " "), Hole("channel", " :")], Repeated("nick", " ", "\r\n", n);
    RepeatedClean("nick", " ", "\r\n", n);
    CleanConcat(lead, nicks);
    NumericWellFormed("353", " ", lead + nicks);
  }

  lemma PrivmsgWellFormed(n: nat)
    requires n >= 1
    ensures WellFormed(RplPrivmsg(n)) && ValueHoles(RplPrivmsg(n)) == n + 1
  {
    var targets, last := Repeated("target", ",", " :", n), [Hole("text", "\r\n")];
    RepeatedClean("target", ",", " :", n);
    CleanConcat(targets, last);
    CustomWellFormed(" PRIVMSG ", targets + last);
  }

  lemma CleanConcat(a: seq<Hole>, b: seq<Hole>)
    requires CleanHoles(a) && CleanHoles(b)
    ensures CleanHoles(a + b)
  {}

  lemma CleanHole1(h: Hole)
    requires CleanHole(h)
    ensures CleanHoles([h])
  {}

  lemma JoinWellFormed()
    ensures WellFormed(RplJoin()) && ValueHoles(RplJoin()) == 1
  {
    CustomWellFormed(" JOIN ", [Hole("channel", "\r\n")]);
  }

  lemma KickWellFormed()
    ensures WellFormed(RplKick()) && ValueHoles(RplKick()) == 3
  {
    var rest := [Hole("channel", " "), Hole("nick", " :"), Hole("comment", "\r\n")];
    assert CleanHole(rest[0]) && CleanHole(rest[1]) && CleanHole(rest[2]);
    CustomWellFormed(" KICK ", rest);
  }

  lemma TopicWellFormed()
    ensures WellFormed(RplTopic()) && ValueHoles(RplTopic()) == 2
  {
    NumericWellFormed("332", " ", [Hole("channel", " :"), Hole("topic", "\r\n")]);
  }

  lemma TopicWhoTimeWellFormed()
    ensures WellFormed(RplTopicWhoTime()) && ValueHoles(RplTopicWhoTime()) == 3
  {
    NumericWellFormed("333", " ", [Hole("channel", " "), Hole("nick", " "), Hole("setat", "\r\n")]);
  }

  lemma EndOfNamesWellFormed()
    ensures WellFormed(RplEndOfNames()) && ValueHoles(RplEndOfNames()) == 1
  {
    var h := Hole("channel", " :End of /NAMES list\r\n");
    assert CleanHole(h);
    CleanHole1(h);
    NumericWellFormed("366", " ", [h]);
  }

  // ---- reply_replace_curly_brackets ----

  function Repeat(s: string, n: int): string
    decreases n
  {
    if n <= 0 then "" else s + Repeat(s, n - 1)
  }

  /** The text between the first '{' and the first '}' stands count - 1 times in their place. */
  function Expand(reply: string, count: int): string
    requires Find(reply, '{') < Find(reply, '}') < |reply|
  {
    var open, close := Find(reply, '{'), Find(reply, '}');
    reply[..open] + Repeat(reply[open + 1..close], count - 1) + reply[close + 1..]
  }

  lemma {:induction false} ExpandAt(a: string, inner: string, b: string, count: int)
    requires '{' !in a && '}' !in a && '}' !in inner
    ensures var reply := a + ['{'] + inner + ['}'] + b;
            && Find(reply, '{') < Find(reply, '}') < |reply|
            && Expand(reply, count) == a + Repeat(inner, count - 1) + b
  {
    var reply := a + ['{'] + inner + ['}'] + b;
    assert reply == a + ['{'] + (inner + ['}'] + b);
    FindAfter(a, '{', inner + ['}'] + b);
    FindAfter(a + ['{'] + inner, '}', b);
    assert reply[|a| + 1..|a| + 1 + |inner|] == inner;
  }

  /** The holes of the expanded text are the repeated holes. */
  lemma {:induction false} RepeatedSource(name: string, sep: string, end: string, tail: seq<Hole>, n: nat)
    requires n >= 1
    ensures Holes(Repeated(name, sep, end, n) + tail)
         == (['<'] + name + ['>']) + (Repeat(sep + (['<'] + name + ['>']), n - 1) + (end + Holes(tail)))
  {
    var hole := ['<'] + name + ['>'];
    var holes := Repeated(name, sep, end, n) + tail;
    if n == 1 {
      assert holes[1..] == tail;
      EmptyPrefix(end + Holes(tail));
    } else {
      assert holes[1..] == Repeated(name, sep, end, n - 1) + tail;
      RepeatedSource(name, sep, end, tail, n - 1);
      var more := Repeat(sep + hole, n - 2);
      Assoc(sep, hole, more + (end + Holes(tail)));
      Assoc(sep + hole, more, end + Holes(tail));
    }
  }

  /** Weaving the repeated holes joins the values with the separator. */
  lemma {:induction false} RepeatedWeave(name: string, sep: string, end: string, tail: seq<Hole>,
                                         values: seq<string>, rest: seq<string>)
    requires |values| >= 1 && |tail| <= |rest|
    ensures Weave(Repeated(name, sep, end, |values|) + tail, values + rest)
         == Join(values, sep) + (end + Weave(tail, rest))
    decreases |values|
  {
    var holes := Repeated(name, sep, end, |values|) + tail;
    assert (values + rest)[1..] == values[1..] + rest;
    if |values| == 1 {
      assert holes[1..] == tail && values[1..] + rest == rest;
      Assoc(values[0], end, Weave(tail, rest));
    } else {
      assert holes[1..] == Repeated(name, sep, end, |values| - 1) + tail;
      RepeatedWeave(name, sep, end, tail, values[1..], rest);
      Assoc(values[0] + sep, Join(values[1..], sep), end + Weave(tail, rest));
    }
  }

  // ---- PRIVMSG ----

  const PRIVMSG_HEAD := ":<client>!<user>@<host> PRIVMSG <target>"
  const PRIVMSG_TAIL := " :<text>\r\n"

  /** RPL_PRIVMSG as it stands in define.hpp. */
  const RPL_PRIVMSG := PRIVMSG_HEAD + ['{'] + ",<target>" + ['}'] + PRIVMSG_TAIL

  /** What a client should see. */
  function PrivmsgText(who: Sender, targets: seq<string>, text: string): string
  {
    ":" + ((who.nick + "!") + ((who.user + "@") + ((who.host + " PRIVMSG ")
      + (Join(targets, ",") + (" :" + (text + "\r\n"))))))
  }

  lemma {:induction false} PrivmsgRender(who: Sender, targets: seq<string>, text: string)
    requires targets != []
    ensures WellFormed(RplPrivmsg(|targets|)) && TotalHoles([RplPrivmsg(|targets|)]) == |targets| + 1
    ensures Render([RplPrivmsg(|targets|)], targets + [text], who) == PrivmsgText(who, targets, text)
  {
    var t := RplPrivmsg(|targets|);
    var rest := Repeated("target", ",", " :", |targets|) + [Hole("text", "\r\n")];
    PrivmsgWellFormed(|targets|);
    assert [t][1..] == [];
    CustomText(" PRIVMSG ", rest);
    CustomWeave(" PRIVMSG ", rest, who, targets + [text]);
    RepeatedWeave("target", ",", " :", [Hole("text", "\r\n")], targets, [text]);
    assert [text][1..] == [] && [Hole("text", "\r\n")][1..] == [];
    EmptySuffix(text + "\r\n");
  }

  /** The three prefix holes of a custom reply. */
  lemma {:induction false} CustomWeave(afterHost: string, rest: seq<Hole>, who: Sender, values: seq<string>)
    requires |rest| <= |values|
    ensures |Custom(afterHost, rest).holes| <= |[who.nick, who.user, who.host] + values|
    ensures Weave(Custom(afterHost, rest).holes, [who.nick, who.user, who.host] + values)
         == (who.nick + "!") + ((who.user + "@") + ((who.host + afterHost) + Weave(rest, values)))
  {
    var holes := Custom(afterHost, rest).holes;
    var all := [who.nick, who.user, who.host] + values;
    assert holes[1..][1..][1..] == rest && all[1..][1..][1..] == values;
    assert Weave(holes, all) == (who.nick + "!") + Weave(holes[1..], all[1..]);
    assert Weave(holes[1..], all[1..]) == (who.user + "@") + Weave(holes[1..][1..], all[1..][1..]);
  }

  lemma OneSource(t: Template)
    ensures Sources([t]) == [Source(t)]
  {
    assert [t][1..] == [];
  }

  /** A reply to others whose last value is chosen freely. */
  lemma CustomHarmless(afterHost: string, rest: seq<Hole>, values: seq<string>, last: string, who: Sender)
    requires var t := Custom(afterHost, rest); WellFormed(t) && IsCustom(Source(t))
    requires |rest| == |values| + 1
    ensures TotalHoles([Custom(afterHost, rest)]) == |values + [last]|
    ensures Harmless([Custom(afterHost, rest)], values + [last], who)
        <==> CleanSender(who) && AllClean(values) && '<' !in last
  {
    var t, all, prefix := Custom(afterHost, rest), values + [last], [who.nick, who.user, who.host];
    assert [t][1..] == [];
    InsertedSplit([t], all, who);
    assert Share(t, all, who) == (prefix + values) + [last];
    LastMayCloseConcat(prefix + values, [last]);
    assert forall v :: v in prefix + values <==> v in prefix || v in values;
  }

  /** A PRIVMSG reaches its targets as it was meant exactly when its text holds no '<', and the sender and
      the targets hold no bracket at all. */
  lemma {:induction false} PrivmsgExact(who: Sender, targets: seq<string>, text: string)
    requires targets != []
    ensures Find(RPL_PRIVMSG, '{') < Find(RPL_PRIVMSG, '}') < |RPL_PRIVMSG|
    ensures Format("", [Expand(RPL_PRIVMSG, |targets|)], targets + [text], who)
            == Done(PrivmsgText(who, targets, text), [])
        <==> CleanSender(who) && AllClean(targets) && '<' !in text
  {
    var rest := Repeated("target", ",", " :", |targets|) + [Hole("text", "\r\n")];
    var t := RplPrivmsg(|targets|);
    PrivmsgSource(|targets|);
    PrivmsgWellFormed(|targets|);
    PrivmsgRender(who, targets, text);
    OneSource(t);
    CustomText(" PRIVMSG ", rest);
    CustomHarmless(" PRIVMSG ", rest, targets, text, who);
    RenderingExact([t], targets + [text], who);
  }

  // ---- KICK ----

  /** RPL_KICK as it stands in define.hpp. */
  const RPL_KICK := ":<client>!<user>@<host>" + (" KICK " + ("<channel> " + ("<nick> :" + "<comment>\r\n")))

  function KickText(who: Sender, chan: string, nick: string, comment: string): string
  {
    ":" + ((who.nick + "!") + ((who.user + "@") + ((who.host + " KICK ")
      + (chan + " " + (nick + " :" + (comment + "\r\n"))))))
  }

  const KICK_HOLES := [Hole("channel", " "), Hole("nick", " :"), Hole("comment", "\r\n")]

  lemma KickHoles()
    ensures Holes(KICK_HOLES) == "<channel> " + ("<nick> :" + "<comment>\r\n")
  {
    var last := [Hole("comment", "\r\n")];
    assert KICK_HOLES[1..][1..] == last && last[1..] == [];
    assert Holes(last) == "<comment>\r\n";
    assert Holes(KICK_HOLES[1..]) == "<nick> :" + Holes(last);
    assert Holes(KICK_HOLES) == "<channel> " + Holes(KICK_HOLES[1..]);
  }

  lemma KickSource()
    ensures Source(RplKick()) == RPL_KICK
  {
    CustomSource(" KICK ", KICK_HOLES);
    KickHoles();
  }

  lemma KickWeave(chan: string, nick: string, comment: string)
    ensures Weave(KICK_HOLES, [chan, nick, comment]) == chan + " " + (nick + " :" + (comment + "\r\n"))
  {
    var values := [chan, nick, comment];
    assert KICK_HOLES[1..][1..][1..] == [] && values[1..][1..] == [comment] && values[1..] == [nick, comment];
    assert Weave(KICK_HOLES[1..][1..], [comment]) == comment + "\r\n" + "";
    EmptySuffix(comment + "\r\n");
    assert Weave(KICK_HOLES[1..], [nick, comment]) == nick + " :" + (comment + "\r\n");
  }

  lemma {:induction false} KickRender(who: Sender, chan: string, nick: string, comment: string)
    ensures WellFormed(RplKick()) && TotalHoles([RplKick()]) == 3
    ensures Render([RplKick()], [chan, nick, comment], who) == KickText(who, chan, nick, comment)
  {
    var t, values := RplKick(), [chan, nick, comment];
    KickWellFormed();
    assert [t][1..] == [];
    CustomText(" KICK ", KICK_HOLES);
    CustomWeave(" KICK ", KICK_HOLES, who, values);
    KickWeave(chan, nick, comment);
    EmptySuffix(KickText(who, chan, nick, comment));
  }

  /** A KICK is told as it was meant exactly when its comment holds no '<', and neither the sender nor the
      channel nor the nickname holds a bracket. */
  lemma {:induction false} KickExact(who: Sender, chan: string, nick: string, comment: string)
    ensures Format("", [RPL_KICK], [chan, nick, comment], who) == Done(KickText(who, chan, nick, comment), [])
        <==> CleanSender(who) && Clean(chan) && Clean(nick) && '<' !in comment
  {
    KickSource();
    KickRender(who, chan, nick, comment);
    OneSource(RplKick());
    CustomText(" KICK ", KICK_HOLES);
    CustomHarmless(" KICK ", KICK_HOLES, [chan, nick], comment, who);
    assert [chan, nick] + [comment] == [chan, nick, comment];
    RenderingExact([RplKick()], [chan, nick, comment], who);
  }

  lemma CustomLiteral(s: string)
    ensures ":" + (['<'] + "client" + ['>'] + ("!" + (['<'] + "user" + ['>'] + ("@" + (['<'] + "host" + ['>'] + s)))))
         == ":<client>!<user>@<host>" + s
  {
    HoleTexts();
    Assoc("@", "<host>", s);
    Assoc("<user>", "@" + "<host>", s);
    Assoc("!", "<user>" + ("@" + "<host>"), s);
    Assoc("<client>", "!" + ("<user>" + ("@" + "<host>")), s);
    Assoc(":", "<client>" + ("!" + ("<user>" + ("@" + "<host>"))), s);
    CustomHead();
  }

  lemma HoleTexts()
    ensures ['<'] + "client" + ['>'] == "<client>"
    ensures ['<'] + "user" + ['>'] == "<user>"
    ensures ['<'] + "host" + ['>'] == "<host>"
  {}

  lemma CustomHead()
    ensures ":" + ("<client>" + ("!" + ("<user>" + ("@" + "<host>")))) == ":<client>!<user>@<host>"
  {
    assert "@" + "<host>" == "@<host>";
    assert "<user>" + "@<host>" == "<user>@<host>";
    assert "!" + "<user>@<host>" == "!<user>@<host>";
    assert "<client>" + "!<user>@<host>" == "<client>!<user>@<host>";
  }

  lemma {:induction false} CustomSource(afterHost: string, rest: seq<Hole>)
    ensures Source(Custom(afterHost, rest)) == ":<client>!<user>@<host>" + (afterHost + Holes(rest))
  {
    var holes := Custom(afterHost, rest).holes;
    assert holes[1..][1..][1..] == rest;
    assert Holes(holes[1..][1..]) == ['<'] + "host" + ['>'] + (afterHost + Holes(rest));
    assert Holes(holes[1..]) == ['<'] + "user" + ['>'] + ("@" + Holes(holes[1..][1..]));
    CustomLiteral(afterHost + Holes(rest));
  }

  lemma PrivmsgHead(s: string)
    ensures ":<client>!<user>@<host>" + (" PRIVMSG " + ((['<'] + "target" + ['>']) + s)) == PRIVMSG_HEAD + s
  {
    assert ['<'] + "target" + ['>'] == "<target>";
    Assoc(" PRIVMSG ", "<target>", s);
    Assoc(":<client>!<user>@<host>", " PRIVMSG " + "<target>", s);
    assert ":<client>!<user>@<host>" + (" PRIVMSG " + "<target>") == PRIVMSG_HEAD;
  }

  lemma PrivmsgSource(n: nat)
    requires n >= 1
    ensures Find(RPL_PRIVMSG, '{') < Find(RPL_PRIVMSG, '}') < |RPL_PRIVMSG|
    ensures Expand(RPL_PRIVMSG, n) == Source(RplPrivmsg(n))
  {
    PrivmsgExpands(n);
    var last := [Hole("text", "\r\n")];
    RepeatedSource("target", ",", " :", last, n);
    CustomSource(" PRIVMSG ", Repeated("target", ",", " :", n) + last);
    PrivmsgTail();
    var more := Repeat("," + (['<'] + "target" + ['>']), n - 1);
    PrivmsgHead(more + PRIVMSG_TAIL);
    Assoc(PRIVMSG_HEAD, more, PRIVMSG_TAIL);
  }

  lemma PrivmsgTail()
    ensures " :" + Holes([Hole("text", "\r\n")]) == PRIVMSG_TAIL
  {
    assert [Hole("text", "\r\n")][1..] == [];
  }

  lemma {:induction false} PrivmsgExpands(n: nat)
    ensures Find(RPL_PRIVMSG, '{') < Find(RPL_PRIVMSG, '}') < |RPL_PRIVMSG|
    ensures Expand(RPL_PRIVMSG, n)
         == PRIVMSG_HEAD + Repeat("," + (['<'] + "target" + ['>']), n - 1) + PRIVMSG_TAIL
  {
    NoBraces();
    ExpandAt(PRIVMSG_HEAD, ",<target>", PRIVMSG_TAIL, n);
    CommaTarget();
  }

  lemma CommaTarget()
    ensures "," + (['<'] + "target" + ['>']) == ",<target>"
  {}

  lemma NoBraces()
    ensures '{' !in PRIVMSG_HEAD && '}' !in PRIVMSG_HEAD && '}' !in ",<target>"
  {}
}
