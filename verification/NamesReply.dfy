/** The reply to a successful JOIN: its names list is expanded for every entry of the channel but
    filled for the members only. */
module NamesReply {
  import opened Strings
  import opened Templates
  import opened Rendering
  import opened RenderingLimits
  import opened Replies

  const NAMREPLY_HEAD := "353 <client> <symbol> <channel> :<nick>"

  /** RPL_NAMREPLY as it stands in define.hpp. */
  const RPL_NAMREPLY := NAMREPLY_HEAD + ['{'] + " <nick>" + ['}'] + "\r\n"

  lemma {:induction false} NumericSource(code: string, afterClient: string, rest: seq<Hole>)
    ensures Source(Numeric(code, afterClient, rest)) == (code + " ") + ("<client>" + (afterClient + Holes(rest)))
  {
    assert Numeric(code, afterClient, rest).holes[1..] == rest;
    HoleTexts();
  }

  lemma MoreHoleTexts()
    ensures ['<'] + "symbol" + ['>'] == "<symbol>"
    ensures ['<'] + "channel" + ['>'] == "<channel>"
    ensures ['<'] + "nick" + ['>'] == "<nick>"
  {}

  lemma NamTail()
    ensures " " + ("<symbol>" + (" " + ("<channel>" + (" :" + "<nick>")))) == " <symbol> <channel> :<nick>"
  {
    NamTailEnd();
    assert "<symbol>" + " <channel> :<nick>" == "<symbol> <channel> :<nick>";
  }

  lemma NamTailEnd()
    ensures " " + ("<channel>" + (" :" + "<nick>")) == " <channel> :<nick>"
  {
    assert " :" + "<nick>" == " :<nick>";
    assert "<channel>" + " :<nick>" == "<channel> :<nick>";
  }

  lemma NamHead()
    ensures ("353" + " ") + ("<client>" + (" " + ("<symbol>" + (" " + ("<channel>" + (" :" + "<nick>"))))))
         == NAMREPLY_HEAD
  {
    NamTail();
    assert ("353" + " ") + ("<client>" + " <symbol> <channel> :<nick>") == NAMREPLY_HEAD;
  }

  lemma NamLead(s: string)
    ensures ("353" + " ") + ("<client>" + (" " + ("<symbol>" + (" " + ("<channel>" + (" :" + ("<nick>" + s)))))))
         == NAMREPLY_HEAD + s
  {
    Assoc(" :", "<nick>", s);
    Assoc("<channel>", " :" + "<nick>", s);
    Assoc(" ", "<channel>" + (" :" + "<nick>"), s);
    Assoc("<symbol>", " " + ("<channel>" + (" :" + "<nick>")), s);
    Assoc(" ", "<symbol>" + (" " + ("<channel>" + (" :" + "<nick>"))), s);
    Assoc("<client>", " " + ("<symbol>" + (" " + ("<channel>" + (" :" + "<nick>")))), s);
    Assoc("353" + " ", "<client>" + (" " + ("<symbol>" + (" " + ("<channel>" + (" :" + "<nick>"))))), s);
    NamHead();
  }

  lemma NoNamBraces()
    ensures '{' !in NAMREPLY_HEAD && '}' !in NAMREPLY_HEAD && '}' !in " <nick>"
  {}

  /** Expanding the braces gives the template with one nick hole per entry. */
  lemma NamReplySource(n: nat)
    requires n >= 1
    ensures Find(RPL_NAMREPLY, '{') < Find(RPL_NAMREPLY, '}') < |RPL_NAMREPLY|
    ensures Expand(RPL_NAMREPLY, n) == Source(RplNamReply(n))
  {
    NoNamBraces();
    ExpandAt(NAMREPLY_HEAD, " <nick>", "\r\n", n);
    MoreHoleTexts();
    assert " " + "<nick>" == " <nick>";
    var more := Repeat(" <nick>", n - 1);
    var nicks := Repeated("nick", " ", "\r\n", n);
    RepeatedSource("nick", " ", "\r\n", [], n);
    assert nicks + [] == nicks;
    EmptySuffix("\r\n");
    assert Holes(nicks) == "<nick>" + (more + "\r\n");
    var lead := [Hole("symbol", " "), Hole("channel", " :")];
    NamHoles(nicks);
    NumericSource("353", " ", lead + nicks);
    NamLead(more + "\r\n");
    Assoc(NAMREPLY_HEAD, more, "\r\n");
  }

  lemma {:induction false} NamHoles(nicks: seq<Hole>)
    ensures Holes([Hole("symbol", " "), Hole("channel", " :")] + nicks)
         == "<symbol>" + (" " + ("<channel>" + (" :" + Holes(nicks))))
  {
    var holes := [Hole("symbol", " "), Hole("channel", " :")] + nicks;
    assert holes[1..][1..] == nicks;
    MoreHoleTexts();
  }

  /** With one nick per hole the line lists the nicks separated by single spaces. */
  lemma {:induction false} NamReplyText(who: Sender, chan: string, nicks: seq<string>)
    requires nicks != []
    ensures WellFormed(RplNamReply(|nicks|)) && TotalHoles([RplNamReply(|nicks|)]) == |nicks| + 2
    ensures Render([RplNamReply(|nicks|)], ["=", chan] + nicks, who)
         == ("353" + " ") + ((who.nick + " ") + (("=" + " ") + ((chan + " :") + (Join(nicks, " ") + "\r\n"))))
  {
    var holes := Repeated("nick", " ", "\r\n", |nicks|);
    var t, values := RplNamReply(|nicks|), ["=", chan] + nicks;
    NamReplyWellFormed(|nicks|);
    assert [t][1..] == [];
    NumericText("353", " ", [Hole("symbol", " "), Hole("channel", " :")] + holes);
    RepeatedWeave("nick", " ", "\r\n", [], nicks, []);
    assert holes + [] == holes && nicks + [] == nicks;
    EmptySuffix("\r\n");
    var all := [who.nick] + values;
    assert t.holes[1..][1..][1..] == holes && all[1..][1..][1..] == nicks;
    assert Weave(t.holes[1..], all[1..]) == ("=" + " ") + Weave(t.holes[1..][1..], all[1..][1..]);
    EmptySuffix(t.start + Weave(t.holes, all));
  }

  // ---- the whole reply ----

  function JoinReply(entries: nat, hasTopic: bool): seq<Template>
    requires entries >= 1
  {
    [RplJoin()] + (if hasTopic then [RplTopic(), RplTopicWhoTime()] else []) + [RplNamReply(entries), RplEndOfNames()]
  }

  function JoinValues(chan: string, topic: seq<string>, nicks: seq<string>): seq<string>
  {
    [chan] + topic + ["=", chan] + nicks + [chan]
  }

  lemma {:induction false} TotalHolesConcat(a: seq<Template>, b: seq<Template>)
    ensures TotalHoles(a + b) == TotalHoles(a) + TotalHoles(b)
  {
    if a == [] {
      assert a + b == b;
    } else {
      assert (a + b)[1..] == a[1..] + b;
      TotalHolesConcat(a[1..], b);
    }
  }

  lemma TotalHolesOne(t: Template)
    ensures TotalHoles([t]) == ValueHoles(t)
  {
    assert [t][1..] == [];
  }

  lemma JoinReplyHoles(entries: nat, hasTopic: bool)
    requires entries >= 1
    ensures forall t :: t in JoinReply(entries, hasTopic) ==> WellFormed(t)
    ensures TotalHoles(JoinReply(entries, hasTopic)) == (if hasTopic then 5 else 0) + entries + 4
  {
    var topic := if hasTopic then [RplTopic(), RplTopicWhoTime()] else [];
    JoinWellFormed();
    TopicWellFormed();
    TopicWhoTimeWellFormed();
    NamReplyWellFormed(entries);
    EndOfNamesWellFormed();
    TotalHolesOne(RplJoin());
    TotalHolesOne(RplTopic());
    TotalHolesOne(RplTopicWhoTime());
    TotalHolesOne(RplNamReply(entries));
    TotalHolesOne(RplEndOfNames());
    TotalHolesConcat([RplTopic()], [RplTopicWhoTime()]);
    TotalHolesConcat([RplNamReply(entries)], [RplEndOfNames()]);
    TotalHolesConcat([RplJoin()], topic);
    TotalHolesConcat([RplJoin()] + topic, [RplNamReply(entries), RplEndOfNames()]);
    assert [RplTopic()] + [RplTopicWhoTime()] == [RplTopic(), RplTopicWhoTime()];
    assert [RplNamReply(entries)] + [RplEndOfNames()] == [RplNamReply(entries), RplEndOfNames()];
  }

  /** The reply to JOIN is rendered as meant when every entry of the channel is a member, and reads
      past its values as soon as there is an entry that is only invited. */
  lemma {:induction false} JoinReplyExact(who: Sender, chan: string, topic: seq<string>, nicks: seq<string>,
                                          entries: nat)
    requires CleanSender(who) && Clean(chan) && AllClean(topic) && AllClean(nicks)
    requires topic == [] || |topic| == 5
    requires 1 <= entries && |nicks| <= entries
    ensures var o := Format("", Sources(JoinReply(entries, topic != [])), JoinValues(chan, topic, nicks), who);
            && (|nicks| < entries ==> o == Broken)
            && (|nicks| == entries ==> o.Done? && o.left == [])
    ensures |nicks| == entries ==>
            && |JoinValues(chan, topic, nicks)| == TotalHoles(JoinReply(entries, topic != []))
            && (forall t :: t in JoinReply(entries, topic != []) ==> WellFormed(t))
            && Format("", Sources(JoinReply(entries, topic != [])), JoinValues(chan, topic, nicks), who)
               == Done(Render(JoinReply(entries, topic != []), JoinValues(chan, topic, nicks), who), [])
  {
    var ts, values := JoinReply(entries, topic != []), JoinValues(chan, topic, nicks);
    JoinReplyHoles(entries, topic != []);
    JoinValuesClean(chan, topic, nicks);
    if |nicks| < entries {
      FormatShort("", ts, values, who);
    } else {
      HarmlessWhenClean(ts, values);
      HarmlessFromClean(ts, values, who);
      RenderingExact(ts, values, who);
    }
  }

  lemma JoinValuesClean(chan: string, topic: seq<string>, nicks: seq<string>)
    requires Clean(chan) && AllClean(topic) && AllClean(nicks)
    ensures AllClean(JoinValues(chan, topic, nicks))
  {
    forall v | v in JoinValues(chan, topic, nicks) ensures Clean(v) {
      assert v in topic || v in nicks || v == chan || v == "=";
    }
  }

  lemma HarmlessWhenClean(ts: seq<Template>, values: seq<string>)
    requires AllClean(values)
    ensures HarmlessValues(ts, values)
  {
    assert forall i :: 0 <= i < |values| ==> values[i] in values;
  }
}
