/** The other half: with any other values the loop does not compute the rendering that is meant. */
module RenderingLimits {
  import opened Strings
  import opened Templates
  import opened Rendering

  function Total(values: seq<string>): nat
  {
    if values == [] then 0 else |values[0]| + Total(values[1..])
  }

  /** The literal text after the holes. */
  function AfterLength(holes: seq<Hole>): nat
  {
    if holes == [] then 0 else |holes[0].after| + AfterLength(holes[1..])
  }

  /** All the text a rendering can draw on besides the values. */
  function Budget(ts: seq<Template>, who: Sender): nat
  {
    if ts == [] then 0
    else |ts[0].start| + AfterLength(ts[0].holes) + Total(PrefixOf(Source(ts[0]), who)) + Budget(ts[1..], who)
  }

  /** The outcome is broken or uses up at most the given amount of text. */
  ghost predicate Within(o: Outcome, limit: int) {
    o.Done? ==> |o.text| + Total(o.left) <= limit
  }

  /** A '>' already in the text is never taken out, and no '<' is left or handed on. */
  ghost predicate StaysDirty(o: Outcome) {
    o.Done? ==> '<' !in o.text && '>' in o.text && NoneOpen(o.left)
  }

  lemma {:induction false} LastAfter(holes: seq<Hole>)
    requires holes != [] && holes[|holes| - 1].after != ""
    ensures AfterLength(holes) > 0
  {
    if |holes| > 1 {
      LastAfter(holes[1..]);
    }
  }

  lemma NoneOpenTail(values: seq<string>)
    requires NoneOpen(values) && values != []
    ensures '<' !in values[0] && NoneOpen(values[1..])
  {
    assert values[0] in values;
  }

  /** Once a '>' stands before a hole, some literal text is lost. */
  lemma {:induction false} FillDirty(pre: string, holes: seq<Hole>, values: seq<string>)
    requires '<' !in pre && '>' in pre && NoneOpen(values)
    requires holes != [] && AfterLength(holes) > 0
    ensures Within(FillAll(pre + Holes(holes), values), |pre| + AfterLength(holes) + Total(values) - 1)
    ensures StaysDirty(FillAll(pre + Holes(holes), values))
    decreases |values|
  {
    assert '<' in pre + Holes(holes) by { HolesOpen(holes); }
    if values != [] {
      NoneOpenTail(values);
      ReplaceDirty(pre, holes, values[0]);
      if ReplaceHole(pre + Holes(holes), values[0]) != pre + values[0] {
        FillDirty(pre + values[0], holes, values[1..]);
      }
    }
  }

  lemma {:induction false} PrefixDirty(pre: string, holes: seq<Hole>, prefix: seq<string>, values: seq<string>)
    requires '<' !in pre && '>' in pre && NoneOpen(prefix + values)
    requires holes != [] && AfterLength(holes) > 0
    ensures Within(FillPrefix(pre + Holes(holes), prefix, values),
                   |pre| + AfterLength(holes) + Total(prefix) + Total(values) - 1)
    ensures StaysDirty(FillPrefix(pre + Holes(holes), prefix, values))
  {
    FillDirty(pre, holes, prefix + values);
    FillPrefixIsFill(pre + Holes(holes), prefix, values);
    TotalConcat(prefix, values);
  }

  /** The sender's texts hold no '<' where the templates use them. */
  ghost predicate SenderOpensNone(ts: seq<Template>, who: Sender) {
    forall t :: t in ts ==> NoneOpen(PrefixOf(Source(t), who))
  }

  lemma {:induction false} FormatDirty(text: string, ts: seq<Template>, values: seq<string>, who: Sender)
    requires '<' !in text && '>' in text && NoneOpen(values) && SenderOpensNone(ts, who)
    requires forall t :: t in ts ==> WellFormed(t)
    ensures Within(Format(text, Sources(ts), values, who),
                   |text| + Budget(ts, who) + Total(values) - if ts == [] then 0 else 1)
    decreases |ts|
  {
    if ts != [] {
      var t := ts[0];
      assert t in ts;
      var prefix := PrefixOf(Source(t), who);
      Assoc(text, t.start, Holes(t.holes));
      LastAfter(t.holes);
      PrefixDirty(text + t.start, t.holes, prefix, values);
      var o := FillPrefix(text + Source(t), prefix, values);
      if o.Done? {
        FormatDirty(o.text, ts[1..], o.left, who);
      }
    }
  }

  // ---- a '>' in a value that is not the last ----

  lemma {:induction false} FillStep(pre: string, holes: seq<Hole>, values: seq<string>)
    requires Clean(pre) && CleanHoles(holes) && holes != [] && values != []
    ensures FillAll(pre + Holes(holes), values)
         == FillAll(pre + values[0] + holes[0].after + Holes(holes[1..]), values[1..])
    ensures Clean(holes[0].after) && CleanHoles(holes[1..])
  {
    assert CleanHole(holes[0]);
    ReplaceClean(pre, holes, values[0]);
  }

  /** Literal text is lost as soon as any value but the last of its template holds a '>'. */
  lemma {:induction false} FillLate(pre: string, holes: seq<Hole>, values: seq<string>, i: nat)
    requires Clean(pre) && CleanHoles(holes) && NoneOpen(values)
    requires i + 1 < |holes| && i < |values| && '>' in values[i]
    requires holes[|holes| - 1].after != ""
    ensures Within(FillAll(pre + Holes(holes), values), |pre| + AfterLength(holes) + Total(values) - 1)
    ensures StaysDirty(FillAll(pre + Holes(holes), values))
    decreases |holes|
  {
    NoneOpenTail(values);
    FillStep(pre, holes, values);
    var next, rest := pre + values[0] + holes[0].after, holes[1..];
    assert rest[|rest| - 1] == holes[|holes| - 1];
    if '>' in values[0] {
      LastAfter(rest);
      FillDirty(next, rest, values[1..]);
    } else {
      FillLate(next, rest, values[1..], i - 1);
    }
  }

  lemma {:induction false} WeaveLength(holes: seq<Hole>, values: seq<string>)
    requires |holes| <= |values|
    ensures |Weave(holes, values)| + Total(values[|holes|..]) == AfterLength(holes) + Total(values)
  {
    if holes == [] {
      assert values[0..] == values;
    } else {
      assert values[1..][|holes| - 1..] == values[|holes|..];
      WeaveLength(holes[1..], values[1..]);
    }
  }

  lemma {:induction false} TotalConcat(a: seq<string>, b: seq<string>)
    ensures Total(a + b) == Total(a) + Total(b)
  {
    if a == [] {
      assert a + b == b;
    } else {
      assert (a + b)[1..] == a[1..] + b;
      TotalConcat(a[1..], b);
    }
  }

  lemma {:induction false} TemplateLength(t: Template, values: seq<string>, who: Sender)
    requires WellFormed(t) && ValueHoles(t) <= |values|
    ensures 0 <= ValueHoles(t) && |PrefixOf(Source(t), who) + values| >= |t.holes|
    ensures |t.start + Weave(t.holes, PrefixOf(Source(t), who) + values)| + Total(values[ValueHoles(t)..])
         == |t.start| + AfterLength(t.holes) + Total(PrefixOf(Source(t), who)) + Total(values)
  {
    var prefix := PrefixOf(Source(t), who);
    WeaveLength(t.holes, prefix + values);
    TotalConcat(prefix, values);
    assert (prefix + values)[|t.holes|..] == values[ValueHoles(t)..];
  }

  lemma {:induction false} RenderLength(ts: seq<Template>, values: seq<string>, who: Sender)
    requires (forall t :: t in ts ==> WellFormed(t)) && |values| >= TotalHoles(ts)
    ensures 0 <= TotalHoles(ts)
    ensures |Render(ts, values, who)| + Total(values[TotalHoles(ts)..]) == Budget(ts, who) + Total(values)
    decreases |ts|
  {
    TotalHolesNonNegative(ts);
    if ts == [] {
      assert values[0..] == values;
    } else {
      assert ts[0] in ts;
      var n := ValueHoles(ts[0]);
      TemplateLength(ts[0], values, who);
      RenderLength(ts[1..], values[n..], who);
      assert values[n..][TotalHoles(ts[1..])..] == values[TotalHoles(ts)..];
    }
  }

  ghost predicate Loses(o: Outcome, limit: int) {
    Within(o, limit - 1) && StaysDirty(o)
  }

  /** The first template with a '>' in a text before its last hole. */
  lemma {:induction false} TemplateLate(text: string, t: Template, values: seq<string>, who: Sender, i: nat)
    requires Clean(text) && WellFormed(t) && NoneOpen(PrefixOf(Source(t), who) + values)
    requires i + 1 < |t.holes| && ValueHoles(t) <= |values| && '>' in Share(t, values, who)[i]
    ensures Loses(FillPrefix(text + Source(t), PrefixOf(Source(t), who), values),
                  |text| + |t.start| + AfterLength(t.holes) + Total(PrefixOf(Source(t), who)) + Total(values))
  {
    var prefix := PrefixOf(Source(t), who);
    var items := prefix + values;
    assert Share(t, values, who) == items[..|t.holes|];
    Assoc(text, t.start, Holes(t.holes));
    FillLate(text + t.start, t.holes, items, i);
    FillPrefixIsFill(text + Source(t), prefix, values);
    TotalConcat(prefix, values);
  }

  ghost predicate LosesText(text: string, ts: seq<Template>, values: seq<string>, who: Sender) {
    Within(Format(text, Sources(ts), values, who), |text| + Budget(ts, who) + Total(values) - 1)
  }

  function AfterFirst(text: string, t: Template, values: seq<string>, who: Sender): string
    requires WellFormed(t) && 0 <= ValueHoles(t) <= |values|
  {
    text + (t.start + Weave(t.holes, PrefixOf(Source(t), who) + values))
  }

  lemma FormatLateHere(text: string, ts: seq<Template>, values: seq<string>, who: Sender, j: nat)
    requires Clean(text) && NoneOpen(values) && SenderOpensNone(ts, who)
    requires ts != [] && (forall t :: t in ts ==> WellFormed(t)) && ValueHoles(ts[0]) <= |values|
    requires j + 1 < |ts[0].holes| && '>' in Share(ts[0], values, who)[j]
    ensures LosesText(text, ts, values, who)
  {
    assert ts[0] in ts;
    TemplateLate(text, ts[0], values, who, j);
    var o := FillPrefix(text + Source(ts[0]), PrefixOf(Source(ts[0]), who), values);
    if o.Done? {
      FormatDirty(o.text, ts[1..], o.left, who);
    }
  }

  /** After a template that was rendered as meant, the budget of the others is what counts. */
  lemma {:induction false} FormatGoesOn(text: string, ts: seq<Template>, values: seq<string>, who: Sender)
    requires Clean(text) && NoneOpen(values)
    requires ts != [] && WellFormed(ts[0]) && ValueHoles(ts[0]) <= |values|
    requires LastMayClose(Share(ts[0], values, who))
    ensures 0 <= ValueHoles(ts[0])
    ensures var next, rest := AfterFirst(text, ts[0], values, who), values[ValueHoles(ts[0])..];
            && Format(text, Sources(ts), values, who) == Format(next, Sources(ts[1..]), rest, who)
            && |next| + Budget(ts[1..], who) + Total(rest) == |text| + Budget(ts, who) + Total(values)
            && '<' !in next && NoneOpen(rest)
  {
    assert forall j :: 0 <= j < |values| ==> values[j] in values;
    TemplateClean(text, ts[0], values, who);
    TemplateLength(ts[0], values, who);
  }

  lemma FormatLateLast(text: string, ts: seq<Template>, values: seq<string>, who: Sender)
    requires Clean(text) && NoneOpen(values) && SenderOpensNone(ts, who)
    requires |ts| > 1 && (forall t :: t in ts ==> WellFormed(t)) && ValueHoles(ts[0]) <= |values|
    requires LastMayClose(Share(ts[0], values, who)) && '>' in Share(ts[0], values, who)[|ts[0].holes| - 1]
    ensures LosesText(text, ts, values, who)
  {
    assert ts[0] in ts;
    FormatGoesOn(text, ts, values, who);
    ShareShows(ts[0], values, who, |ts[0].holes| - 1, '>');
    FormatDirty(AfterFirst(text, ts[0], values, who), ts[1..], values[ValueHoles(ts[0])..], who);
  }

  lemma {:induction false} ShareShows(t: Template, values: seq<string>, who: Sender, i: nat, c: char)
    requires WellFormed(t) && ValueHoles(t) <= |values|
    requires i < |t.holes| && c in Share(t, values, who)[i]
    ensures |PrefixOf(Source(t), who) + values| >= |t.holes|
    ensures c in Weave(t.holes, PrefixOf(Source(t), who) + values)
  {
    var items := PrefixOf(Source(t), who) + values;
    assert Share(t, values, who)[i] == items[i];
    WeaveShows(t.holes, items, i, c);
  }

  lemma FormatLateNext(text: string, ts: seq<Template>, values: seq<string>, who: Sender)
    requires Clean(text) && NoneOpen(values)
    requires ts != [] && WellFormed(ts[0]) && ValueHoles(ts[0]) <= |values|
    requires AllClean(Share(ts[0], values, who))
    ensures 0 <= ValueHoles(ts[0])
    ensures Clean(AfterFirst(text, ts[0], values, who)) && NoneOpen(values[ValueHoles(ts[0])..])
    ensures LosesText(AfterFirst(text, ts[0], values, who), ts[1..], values[ValueHoles(ts[0])..], who)
        ==> LosesText(text, ts, values, who)
  {
    CleanCloses(Share(ts[0], values, who));
    FormatGoesOn(text, ts, values, who);
    CleanWeave(text, ts[0], values, who);
  }

  /** A '>' in a text with a hole after it, in this template or a later one, loses text. */
  lemma {:induction false} FormatLate(text: string, ts: seq<Template>, values: seq<string>, who: Sender)
    requires Clean(text) && NoneOpen(values) && SenderOpensNone(ts, who)
    requires ts != [] && (forall t :: t in ts ==> WellFormed(t))
    requires |values| >= TotalHoles(ts) && !Harmless(ts, values, who)
    ensures LosesText(text, ts, values, who)
    decreases |ts|
  {
    InsertedSplit(ts, values, who);
    assert ts[0] in ts;
    var share := Share(ts[0], values, who);
    ShareOpensNone(ts[0], values, who);
    if j :| 0 <= j < |share| - 1 && '>' in share[j] {
      FormatLateHere(text, ts, values, who, j);
    } else if '>' in share[|share| - 1] {
      FormatLateLast(text, ts, values, who);
    } else {
      forall v | v in share ensures Clean(v) {
        var j :| 0 <= j < |share| && share[j] == v;
      }
      FormatLateNext(text, ts, values, who);
      CleanCloses(share);
      FormatLate(AfterFirst(text, ts[0], values, who), ts[1..], values[ValueHoles(ts[0])..], who);
    }
  }

  lemma ShareOpensNone(t: Template, values: seq<string>, who: Sender)
    requires WellFormed(t) && ValueHoles(t) <= |values| && NoneOpen(values) && NoneOpen(PrefixOf(Source(t), who))
    ensures NoneOpen(Share(t, values, who))
  {
    assert forall v :: v in values[..ValueHoles(t)] ==> v in values;
  }

  lemma {:induction false} WeaveShows(holes: seq<Hole>, values: seq<string>, i: nat, c: char)
    requires i < |holes| <= |values| && c in values[i]
    ensures c in Weave(holes, values)
  {
    if i > 0 {
      WeaveShows(holes[1..], values[1..], i - 1, c);
    }
  }

  // ---- a '<' in a value ----

  lemma {:induction false} FillLeavesNone(text: string, values: seq<string>)
    ensures FillAll(text, values).Done? ==> '<' !in FillAll(text, values).text
    decreases |values|
  {
    if '<' in text && values != [] {
      FillLeavesNone(ReplaceHole(text, values[0]), values[1..]);
    }
  }

  lemma {:induction false} PrefixLeavesNone(text: string, prefix: seq<string>, values: seq<string>)
    ensures FillPrefix(text, prefix, values).Done? ==> '<' !in FillPrefix(text, prefix, values).text
    decreases |prefix|
  {
    if prefix == [] {
      FillLeavesNone(text, values);
    } else if '<' in text {
      PrefixLeavesNone(ReplaceHole(text, prefix[0]), prefix[1..], values);
    }
  }

  lemma {:induction false} FormatLeavesNone(text: string, replies: seq<string>, values: seq<string>, who: Sender)
    requires replies != []
    ensures Format(text, replies, values, who).Done? ==> '<' !in Format(text, replies, values, who).text
    decreases |replies|
  {
    var o := FillPrefix(text + replies[0], PrefixOf(replies[0], who), values);
    PrefixLeavesNone(text + replies[0], PrefixOf(replies[0], who), values);
    if o.Done? && replies[1..] != [] {
      FormatLeavesNone(o.text, replies[1..], o.left, who);
    }
  }

  lemma {:induction false} RenderShows(ts: seq<Template>, values: seq<string>, who: Sender, i: nat, c: char)
    requires (forall t :: t in ts ==> WellFormed(t)) && |values| >= TotalHoles(ts)
    requires i < |Inserted(ts, values, who)| && c in Inserted(ts, values, who)[i]
    ensures c in Render(ts, values, who)
    decreases |ts|
  {
    TotalHolesNonNegative(ts);
    var n, share := ValueHoles(ts[0]), Share(ts[0], values, who);
    assert ts[0] in ts;
    if i < |share| {
      ShareShows(ts[0], values, who, i, c);
    } else {
      RenderShows(ts[1..], values[n..], who, i - |share|, c);
    }
  }

  ghost predicate AllFree(items: seq<string>, c: char) {
    forall v :: v in items ==> c !in v
  }

  /** What all texts put into holes are free of, the values and the sender's texts in use are free of. */
  lemma {:induction false} InsertedAll(ts: seq<Template>, values: seq<string>, who: Sender, c: char)
    requires (forall t :: t in ts ==> WellFormed(t)) && |values| == TotalHoles(ts)
    requires AllFree(Inserted(ts, values, who), c)
    ensures AllFree(values, c) && forall t :: t in ts ==> AllFree(PrefixOf(Source(t), who), c)
    decreases |ts|
  {
    if ts == [] {
      assert values == [];
    } else {
      TotalHolesNonNegative(ts);
      var n, share := ValueHoles(ts[0]), Share(ts[0], values, who);
      var rest := Inserted(ts[1..], values[n..], who);
      assert forall v :: v in share || v in rest ==> v in share + rest;
      assert forall v :: v in PrefixOf(Source(ts[0]), who) || v in values[..n] ==> v in share;
      InsertedAll(ts[1..], values[n..], who, c);
      assert values == values[..n] + values[n..];
    }
  }

  /** Exactly when the loop renders as meant: with as many values as holes, it does so if and only if of
      all texts put into holes, the sender's included, none holds a '<' and none but the last a '>'. */
  lemma {:induction false} RenderingExact(ts: seq<Template>, values: seq<string>, who: Sender)
    requires ts != [] && (forall t :: t in ts ==> WellFormed(t))
    requires |values| == TotalHoles(ts)
    ensures Format("", Sources(ts), values, who) == Done(Render(ts, values, who), [])
        <==> Harmless(ts, values, who)
  {
    var items := Inserted(ts, values, who);
    if Harmless(ts, values, who) {
      FormatClean("", ts, values, who);
      EmptyPrefix(Render(ts, values, who));
      assert values[TotalHoles(ts)..] == [];
    } else if v :| v in items && '<' in v {
      var i :| 0 <= i < |items| && items[i] == v;
      RenderShows(ts, values, who, i, '<');
      FormatLeavesNone("", Sources(ts), values, who);
    } else {
      InsertedAll(ts, values, who, '<');
      FormatLate("", ts, values, who);
      RenderLength(ts, values, who);
      assert values[TotalHoles(ts)..] == [];
    }
  }

  // ---- too few values ----

  lemma {:induction false} FillShort(pre: string, holes: seq<Hole>, values: seq<string>)
    requires Clean(pre) && CleanHoles(holes) && AllClean(values) && |values| < |holes|
    ensures FillAll(pre + Holes(holes), values) == Broken
    decreases |values|
  {
    assert CleanHole(holes[0]);
    if values == [] {
      ReplaceClean(pre, holes, "");
    } else {
      assert Clean(values[0]);
      ReplaceClean(pre, holes, values[0]);
      FillShort(pre + values[0] + holes[0].after, holes[1..], values[1..]);
    }
  }

  /** With clean values but fewer of them than holes, the loop reads past the values. */
  lemma {:induction false} FormatShort(text: string, ts: seq<Template>, values: seq<string>, who: Sender)
    requires Clean(text) && CleanSender(who) && AllClean(values) && (forall t :: t in ts ==> WellFormed(t))
    requires |values| < TotalHoles(ts)
    ensures Format(text, Sources(ts), values, who) == Broken
    decreases |ts|
  {
    var t, n := ts[0], ValueHoles(ts[0]);
    assert t in ts;
    assert forall j :: 0 <= j < |values| ==> values[j] in values;
    TotalHolesNonNegative(ts);
    if |values| < n {
      var prefix := PrefixOf(Source(t), who);
      Assoc(text, t.start, Holes(t.holes));
      FillShort(text + t.start, t.holes, prefix + values);
      FillPrefixIsFill(text + Source(t), prefix, values);
    } else {
      assert forall v :: v in values[..n] ==> v in values;
      ShareOfClean(t, values, who);
      CleanCloses(Share(t, values, who));
      TemplateClean(text, t, values, who);
      CleanWeave(text, t, values, who);
      FormatShort(text + (t.start + Weave(t.holes, PrefixOf(Source(t), who) + values)), ts[1..], values[n..], who);
    }
  }
}
