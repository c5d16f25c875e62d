/** Whether a rendered reply is a line: what the queue theorems assume of the messages commands leave. */
module ReplyLines {
  import opened Strings
  import opened Templates
  import opened Rendering
  import opened RenderingLimits
  import opened Messages
  import NamesReply
  import Wordings = Replies

  ghost predicate EndsInCrlf(s: string) {
    |s| >= 2 && s[|s| - 2] == '\r' && s[|s| - 1] == '\n'
  }

  /** A template with one line feed, behind its last hole. */
  ghost predicate OneLine(t: Template) {
    && WellFormed(t)
    && t.start != "" && '\n' !in t.start
    && (forall i :: 0 <= i < |t.holes| - 1 ==> '\n' !in t.holes[i].after)
    && EndsInCrlf(t.holes[|t.holes| - 1].after)
  }

  ghost predicate AllOneLine(ts: seq<Template>) {
    forall t :: t in ts ==> OneLine(t)
  }

  // ---- rendered as meant ----

  lemma CrlfBehind(a: string, b: string)
    requires EndsInCrlf(b)
    ensures EndsInCrlf(a + b)
  {}

  lemma {:induction false} WeaveEnds(holes: seq<Hole>, values: seq<string>)
    requires 0 < |holes| <= |values| && EndsInCrlf(holes[|holes| - 1].after)
    ensures EndsInCrlf(Weave(holes, values))
  {
    if |holes| == 1 {
      EmptySuffix(values[0] + holes[0].after);
    } else {
      WeaveEnds(holes[1..], values[1..]);
    }
  }

  lemma {:induction false} RenderEnds(ts: seq<Template>, values: seq<string>, who: Sender)
    requires ts != [] && AllOneLine(ts) && |values| >= TotalHoles(ts)
    ensures EndsInCrlf(Render(ts, values, who))
    decreases |ts|
  {
    TotalHolesNonNegative(ts);
    var t := ts[0];
    assert t in ts;
    var woven := Weave(t.holes, PrefixOf(Source(t), who) + values);
    if ts[1..] == [] {
      WeaveEnds(t.holes, PrefixOf(Source(t), who) + values);
      EmptySuffix(t.start + woven);
    } else {
      RenderEnds(ts[1..], values[ValueHoles(t)..], who);
      CrlfBehind(t.start + woven, Render(ts[1..], values[ValueHoles(t)..], who));
    }
  }

  lemma CrlfIsFinished(m: Message)
    requires EndsInCrlf(m.text)
    ensures HasCrlf(m.text) && !Unfinished(m)
  {
    var i := |m.text| - 2;
    assert m.text[i] == '\r' && m.text[i + 1] == '\n';
  }

  /** With harmless texts the message is finished and complete: it ends in "\r\n". */
  lemma {:induction false} HarmlessEnds(ts: seq<Template>, values: seq<string>, who: Sender, m: Message)
    requires ts != [] && AllOneLine(ts) && |values| == TotalHoles(ts) && Harmless(ts, values, who)
    requires Format("", Sources(ts), values, who) == Done(m.text, [])
    ensures EndsInCrlf(m.text) && HasCrlf(m.text) && !Unfinished(m)
  {
    RenderingExact(ts, values, who);
    RenderEnds(ts, values, who);
    CrlfIsFinished(m);
  }

  // ---- garbled ----

  /** What stays true of a text when pieces without a line feed are put behind it. */
  ghost predicate Grows(keeps: string -> bool) {
    forall s, x :: keeps(s) && '\n' !in x ==> keeps(s + x)
  }

  ghost predicate Kept(keeps: string -> bool, o: Outcome) {
    o.Done? ==> keeps(o.text)
  }

  /** Once a '>' stands before a hole, nothing but values is put behind the text. */
  lemma {:induction false} DirtyKeeps(keeps: string -> bool, pre: string, holes: seq<Hole>, values: seq<string>)
    requires Grows(keeps) && keeps(pre) && AllFree(values, '\n')
    requires '<' !in pre && '>' in pre && AllFree(values, '<') && holes != []
    ensures Kept(keeps, FillAll(pre + Holes(holes), values))
    decreases |values|
  {
    HolesOpen(holes);
    assert '<' in pre + Holes(holes);
    if values != [] {
      assert values[0] in values && forall v :: v in values[1..] ==> v in values;
      ReplaceDirty(pre, holes, values[0]);
      if ReplaceHole(pre + Holes(holes), values[0]) != pre + values[0] {
        DirtyKeeps(keeps, pre + values[0], holes, values[1..]);
      } else if values[1..] == [] {
        assert FillAll(pre + values[0], []) == Done(pre + values[0], []);
      }
    }
  }

  /** In a template, from the text before its holes: a '>' in a value before the last hole. */
  lemma {:induction false} LateKeeps(keeps: string -> bool, pre: string, holes: seq<Hole>, values: seq<string>, i: nat)
    requires Grows(keeps) && keeps(pre) && AllFree(values, '\n')
    requires Clean(pre) && CleanHoles(holes) && AllFree(values, '<')
    requires i + 1 < |holes| && i < |values| && '>' in values[i]
    requires forall j :: 0 <= j < |holes| - 1 ==> '\n' !in holes[j].after
    ensures Kept(keeps, FillAll(pre + Holes(holes), values))
    decreases |holes|
  {
    assert values[0] in values && forall v :: v in values[1..] ==> v in values;
    FillStep(pre, holes, values);
    var next, rest := pre + values[0] + holes[0].after, holes[1..];
    assert keeps(pre + values[0]) && keeps(next);
    if '>' in values[0] {
      DirtyKeeps(keeps, next, rest, values[1..]);
    } else {
      assert forall j :: 0 <= j < |rest| - 1 ==> rest[j] == holes[j + 1];
      LateKeeps(keeps, next, rest, values[1..], i - 1);
    }
  }

  lemma {:induction false} TemplateKeeps(keeps: string -> bool, t: Template, values: seq<string>, who: Sender)
    requires Grows(keeps) && keeps(t.start)
    requires OneLine(t) && |values| == ValueHoles(t)
    requires var share := Share(t, values, who); AllFree(share, '\n') && AllFree(share, '<') && !LastMayClose(share)
    ensures Kept(keeps, FillPrefix(Source(t), PrefixOf(Source(t), who), values))
  {
    var prefix, share := PrefixOf(Source(t), who), Share(t, values, who);
    assert share == prefix + values;
    var i :| 0 <= i < |share| - 1 && '>' in share[i];
    LateKeeps(keeps, t.start, t.holes, share, i);
    FillPrefixIsFill(Source(t), prefix, values);
  }

  lemma {:induction false} FormatOnly(reply: string, values: seq<string>, who: Sender)
    ensures Format("", [reply], values, who) == FillPrefix(reply, PrefixOf(reply, who), values)
  {
    EmptyPrefix(reply);
    assert [reply][1..] == [];
  }

  /** A reply of one line with a '>' in a text before the last hole has lost its line feed: if it is
      rendered at all it is taken for an unfinished line of its emitter. */
  lemma {:induction false} GarbledIsUnfinished(t: Template, values: seq<string>, who: Sender, m: Message)
    requires OneLine(t) && |values| == TotalHoles([t]) && !Harmless([t], values, who)
    requires AllFree(Inserted([t], values, who), '\n') && AllFree(Inserted([t], values, who), '<')
    requires var o := Format("", [Source(t)], values, who); o.Done? && o.text == m.text
    ensures Unfinished(m) && !HasCrlf(m.text)
  {
    var keeps := s => '\n' !in s;
    assert [t][1..] == [] && TotalHoles([t]) == ValueHoles(t);
    InsertedSplit([t], values, who);
    EmptySuffix(Share(t, values, who));
    assert Grows(keeps);
    TemplateKeeps(keeps, t, values, who);
    FormatOnly(Source(t), values, who);
  }

  // ---- the replies with free text ----

  lemma CustomOneLine(afterHost: string, rest: seq<Hole>)
    requires WellFormed(Wordings.Custom(afterHost, rest)) && rest != [] && '\n' !in afterHost
    requires forall i :: 0 <= i < |rest| - 1 ==> '\n' !in rest[i].after
    requires EndsInCrlf(rest[|rest| - 1].after)
    ensures OneLine(Wordings.Custom(afterHost, rest))
  {
    var t := Wordings.Custom(afterHost, rest);
    forall i | 0 <= i < |t.holes| - 1 ensures '\n' !in t.holes[i].after {
      if i >= 3 {
        assert t.holes[i] == rest[i - 3];
      }
    }
  }

  lemma NumericOneLine(code: string, afterClient: string, rest: seq<Hole>)
    requires WellFormed(Wordings.Numeric(code, afterClient, rest)) && rest != []
    requires '\n' !in code && '\n' !in afterClient
    requires forall i :: 0 <= i < |rest| - 1 ==> '\n' !in rest[i].after
    requires EndsInCrlf(rest[|rest| - 1].after)
    ensures OneLine(Wordings.Numeric(code, afterClient, rest))
  {
    var t := Wordings.Numeric(code, afterClient, rest);
    forall i | 0 <= i < |t.holes| - 1 ensures '\n' !in t.holes[i].after {
      assert t.holes[i] == if i == 0 then Hole("client", afterClient) else rest[i - 1];
    }
  }

  lemma TopicOneLine()
    ensures OneLine(Wordings.RplTopic()) && OneLine(Wordings.RplTopicWhoTime())
  {
    Wordings.TopicWellFormed();
    Wordings.TopicWhoTimeWellFormed();
    NumericOneLine("332", " ", [Hole("channel", " :"), Hole("topic", "\r\n")]);
    NumericOneLine("333", " ", [Hole("channel", " "), Hole("nick", " "), Hole("setat", "\r\n")]);
  }

  lemma NamReplyOneLine(n: nat)
    requires n >= 1
    ensures OneLine(Wordings.RplNamReply(n))
  {
    var nicks := Wordings.Repeated("nick", " ", "\r\n", n);
    var rest := [Hole("symbol", " "), Hole("channel", " :")] + nicks;
    Wordings.NamReplyWellFormed(n);
    RepeatedAfters("nick", " ", "\r\n", n);
    forall i | 0 <= i < |rest| - 1 ensures '\n' !in rest[i].after {
      assert i >= 2 ==> rest[i] == nicks[i - 2];
    }
    NumericOneLine("353", " ", rest);
  }

  lemma {:induction false} RepeatedAfters(name: string, sep: string, end: string, n: nat)
    requires n >= 1
    ensures var holes := Wordings.Repeated(name, sep, end, n);
            holes[n - 1].after == end && forall i :: 0 <= i < n - 1 ==> holes[i].after == sep
  {
    if n > 1 {
      RepeatedAfters(name, sep, end, n - 1);
    }
  }

  lemma EndOfNamesOneLine()
    ensures OneLine(Wordings.RplEndOfNames())
  {
    Wordings.EndOfNamesWellFormed();
    NumericOneLine("366", " ", [Hole("channel", " :End of /NAMES list\r\n")]);
  }

  lemma JoinOneLine()
    ensures OneLine(Wordings.RplJoin())
  {
    Wordings.JoinWellFormed();
    CustomOneLine(" JOIN ", [Hole("channel", "\r\n")]);
  }

  /** All parts of the reply to JOIN are lines. */
  lemma JoinReplyOneLine(entries: nat, topic: bool)
    requires entries >= 1
    ensures AllOneLine(NamesReply.JoinReply(entries, topic))
  {
    JoinOneLine();
    TopicOneLine();
    NamReplyOneLine(entries);
    EndOfNamesOneLine();
  }

  lemma KickOneLine()
    ensures OneLine(Wordings.RplKick())
  {
    Wordings.KickWellFormed();
    CustomOneLine(" KICK ", Wordings.KICK_HOLES);
  }

  lemma PrivmsgOneLine(n: nat)
    requires n >= 1
    ensures OneLine(Wordings.RplPrivmsg(n))
  {
    var rest := Wordings.Repeated("target", ",", " :", n) + [Hole("text", "\r\n")];
    Wordings.PrivmsgWellFormed(n);
    RepeatedAfters("target", ",", " :", n);
    forall i | 0 <= i < |rest| - 1 ensures '\n' !in rest[i].after {
      assert rest[i] == Wordings.Repeated("target", ",", " :", n)[i];
    }
    CustomOneLine(" PRIVMSG ", rest);
  }

  /** Behind a '>' that is not right before the hole, the rest of the text is cut off. */
  lemma CutBehind(pre: string, rest: string, value: string)
    requires '<' !in pre && '>' in pre && pre[|pre| - 1] != '>'
    ensures '<' in pre + ['<'] + rest && ReplaceHole(pre + ['<'] + rest, value) == pre + value
  {
    var text := pre + ['<'] + rest;
    FindAfter(pre, '<', rest);
    FindEarly(pre, '>', ['<'] + rest);
    Assoc(pre, ['<'], rest);
    assert text[..|pre|] == pre && Find(text, '>') != |pre| - 1;
  }

  function Mask(who: Sender): string {
    ":" + who.nick + "!" + who.user + "@" + who.host
  }

  lemma HostCut(second: string, afterHost: string, rest: seq<Hole>, host: string)
    requires '<' !in second && '>' in second && second[|second| - 1] == '@'
    ensures var holes := [Hole("host", afterHost)] + rest;
            '<' in second + Holes(holes) && ReplaceHole(second + Holes(holes), host) == second + host
  {
    var holes := [Hole("host", afterHost)] + rest;
    HolesOpen(holes);
    var tail := "host" + ['>'] + (afterHost + Holes(holes[1..]));
    Assoc(second, ['<'], tail);
    CutBehind(second, tail, host);
  }

  /** A user name with a '>' in it garbles every reply to others: all that is left is the sender's mask. */
  lemma {:induction false} UserNameGarbles(afterHost: string, rest: seq<Hole>, values: seq<string>, who: Sender)
    requires var t := Wordings.Custom(afterHost, rest); WellFormed(t) && IsCustom(Source(t))
    requires Clean(who.nick) && Clean(who.host) && '>' in who.user && '<' !in who.user
    ensures Format("", [Source(Wordings.Custom(afterHost, rest))], values, who) == Done(Mask(who), values)
  {
    var text := Source(Wordings.Custom(afterHost, rest));
    FormatOnly(text, values, who);
    assert PrefixOf(text, who) == [who.nick, who.user, who.host];
    hide Holes, ReplaceHole, FillPrefix, Format, Source;
    MaskFree(who);
    MaskReplaces(afterHost, rest, who);
    var h2 := [Hole("host", afterHost)] + rest;
    var h1 := [Hole("user", "@")] + h2;
    MaskPrefix(text, ":" + who.nick + "!" + Holes(h1), ":" + who.nick + "!" + who.user + "@" + Holes(h2), values, who);
  }

  lemma MaskFree(who: Sender)
    requires Clean(who.nick) && Clean(who.host) && '<' !in who.user
    ensures '<' !in Mask(who)
  {}

  lemma MaskReplaces(afterHost: string, rest: seq<Hole>, who: Sender)
    requires Clean(who.nick) && Clean(who.host) && '>' in who.user && '<' !in who.user
    ensures var h2 := [Hole("host", afterHost)] + rest;
            var h1 := [Hole("user", "@")] + h2;
            var first, second := ":" + who.nick + "!", ":" + who.nick + "!" + who.user + "@";
            var text := Source(Wordings.Custom(afterHost, rest));
            && '<' in text && ReplaceHole(text, who.nick) == first + Holes(h1)
            && '<' in first + Holes(h1) && ReplaceHole(first + Holes(h1), who.user) == second + Holes(h2)
            && '<' in second + Holes(h2) && ReplaceHole(second + Holes(h2), who.host) == Mask(who)
  {
    var h2 := [Hole("host", afterHost)] + rest;
    var h1 := [Hole("user", "@")] + h2;
    var h0 := [Hole("client", "!")] + h1;
    assert h0 == Wordings.Custom(afterHost, rest).holes && h0[1..] == h1 && h1[1..] == h2;
    hide Holes, ReplaceHole;
    ReplaceClean(":", h0, who.nick);
    ReplaceClean(":" + who.nick + "!", h1, who.user);
    HostCut(":" + who.nick + "!" + who.user + "@", afterHost, rest, who.host);
  }

  lemma {:induction false} MaskPrefix(text: string, text1: string, text2: string, values: seq<string>, who: Sender)
    requires '<' in text && '<' in text1 && '<' in text2 && '<' !in Mask(who)
    requires ReplaceHole(text, who.nick) == text1 && ReplaceHole(text1, who.user) == text2
    requires ReplaceHole(text2, who.host) == Mask(who)
    ensures FillPrefix(text, [who.nick, who.user, who.host], values) == Done(Mask(who), values)
  {
    var prefix := [who.nick, who.user, who.host];
    assert prefix[1..] == [who.user, who.host] && prefix[1..][1..] == [who.host] && [who.host][1..] == [];
    assert FillPrefix(Mask(who), [], values) == Done(Mask(who), values);
    assert FillPrefix(text2, [who.host], values) == Done(Mask(who), values);
    assert FillPrefix(text1, [who.user, who.host], values) == Done(Mask(who), values);
  }

  /** That is an unfinished line, so the next line the client sends is appended to it. */
  lemma MaskIsUnfinished(who: Sender, m: Message)
    requires m.text == Mask(who) && AllFree([who.nick, who.user, who.host], '\n')
    ensures Unfinished(m)
  {
    assert who.nick in [who.nick, who.user, who.host] && who.user in [who.nick, who.user, who.host];
    assert who.host in [who.nick, who.user, who.host];
  }

  // ---- the messages of three commands ----

  /** A PRIVMSG that reads as meant is a complete line, */
  lemma PrivmsgIsLine(who: Sender, targets: seq<string>, text: string, m: Message)
    requires targets != [] && m.text == Wordings.PrivmsgText(who, targets, text)
    ensures EndsInCrlf(m.text) && HasCrlf(m.text) && !Unfinished(m)
  {
    Wordings.PrivmsgRender(who, targets, text);
    PrivmsgOneLine(|targets|);
    RenderEnds([Wordings.RplPrivmsg(|targets|)], targets + [text], who);
    CrlfIsFinished(m);
  }

  /** so is a KICK, */
  lemma KickIsLine(who: Sender, chan: string, nick: string, comment: string, m: Message)
    requires m.text == Wordings.KickText(who, chan, nick, comment)
    ensures EndsInCrlf(m.text) && HasCrlf(m.text) && !Unfinished(m)
  {
    Wordings.KickRender(who, chan, nick, comment);
    KickOneLine();
    RenderEnds([Wordings.RplKick()], [chan, nick, comment], who);
    CrlfIsFinished(m);
  }

  /** and so is the reply to a JOIN when every entry of the channel is a member. */
  lemma {:induction false} JoinReplyIsLine(who: Sender, chan: string, topic: seq<string>, nicks: seq<string>,
                                           m: Message)
    requires CleanSender(who) && Clean(chan) && AllClean(topic) && AllClean(nicks)
    requires (topic == [] || |topic| == 5) && nicks != []
    requires Format("", Sources(NamesReply.JoinReply(|nicks|, topic != [])),
                    NamesReply.JoinValues(chan, topic, nicks), who) == Done(m.text, [])
    ensures EndsInCrlf(m.text) && HasCrlf(m.text) && !Unfinished(m)
  {
    NamesReply.JoinReplyExact(who, chan, topic, nicks, |nicks|);
    JoinReplyOneLine(|nicks|, topic != []);
    RenderEnds(NamesReply.JoinReply(|nicks|, topic != []), NamesReply.JoinValues(chan, topic, nicks), who);
    CrlfIsFinished(m);
  }
}
