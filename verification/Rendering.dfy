/** When the find-and-replace loop computes the one-pass rendering, and when it does not. */
module Rendering {
  import opened Strings
  import opened Templates

  ghost predicate AllClean(values: seq<string>) {
    forall v :: v in values ==> Clean(v)
  }

  ghost predicate NoneOpen(values: seq<string>) {
    forall v :: v in values ==> '<' !in v
  }

  ghost predicate CleanHoles(holes: seq<Hole>) {
    forall h :: h in holes ==> CleanHole(h)
  }

  ghost predicate CleanSender(who: Sender) {
    Clean(who.nick) && Clean(who.user) && Clean(who.host)
  }

  // ---- clean values: the loop is the one-pass form ----

  lemma {:induction false} WeaveStep(pre: string, holes: seq<Hole>, values: seq<string>)
    requires 0 < |holes| <= |values|
    ensures pre + Weave(holes, values)
         == (pre + values[0] + holes[0].after) + Weave(holes[1..], values[1..])
  {
    Assoc(pre, values[0] + holes[0].after, Weave(holes[1..], values[1..]));
    Assoc(pre, values[0], holes[0].after);
  }

  lemma {:induction false} FillClean(pre: string, holes: seq<Hole>, values: seq<string>)
    requires Clean(pre) && CleanHoles(holes) && |holes| <= |values|
    requires forall i :: 0 <= i < |holes| ==> '<' !in values[i]
    requires forall i :: 0 <= i < |holes| - 1 ==> Clean(values[i])
    ensures FillAll(pre + Holes(holes), values) == Done(pre + Weave(holes, values), values[|holes|..])
    ensures '<' !in pre + Weave(holes, values)
    decreases |holes|
  {
    if holes == [] {
      assert pre + "" == pre;
    } else {
      var next := pre + values[0] + holes[0].after;
      assert CleanHole(holes[0]);
      ReplaceClean(pre, holes, values[0]);
      WeaveStep(pre, holes, values);
      if |holes| == 1 {
        assert holes[1..] == [] && next + "" == next;
      } else {
        assert Clean(values[0]);
        assert values[1..][|holes| - 1..] == values[|holes|..];
        FillClean(next, holes[1..], values[1..]);
      }
    }
  }

  lemma {:induction false} PrefixedClean(pre: string, holes: seq<Hole>, prefix: seq<string>)
    requires Clean(pre) && CleanHoles(holes) && AllClean(prefix) && |prefix| <= |holes|
    ensures Prefixed(pre + Holes(holes), prefix)
         == Done(pre + Weave(holes[..|prefix|], prefix) + Holes(holes[|prefix|..]), [])
    ensures Clean(pre + Weave(holes[..|prefix|], prefix))
    decreases |prefix|
  {
    if prefix == [] {
      assert pre + "" == pre && holes[0..] == holes;
    } else {
      var next := pre + prefix[0] + holes[0].after;
      assert CleanHole(holes[0]) && Clean(prefix[0]);
      ReplaceClean(pre, holes, prefix[0]);
      PrefixedClean(next, holes[1..], prefix[1..]);
      var taken := holes[..|prefix|];
      assert taken[1..] == holes[1..][..|prefix| - 1];
      WeaveStep(pre, taken, prefix);
      assert holes[1..][|prefix| - 1..] == holes[|prefix|..];
    }
  }

  lemma {:induction false} PrefixClean(pre: string, holes: seq<Hole>, prefix: seq<string>, values: seq<string>)
    requires Clean(pre) && CleanHoles(holes) && AllClean(prefix) && |prefix| <= |holes|
    ensures Prefixed(pre + Holes(holes), prefix)
         == Done(pre + Weave(holes[..|prefix|], prefix) + Holes(holes[|prefix|..]), [])
    ensures FillPrefix(pre + Holes(holes), prefix, values)
         == FillAll(pre + Weave(holes[..|prefix|], prefix) + Holes(holes[|prefix|..]), values)
    ensures Clean(pre + Weave(holes[..|prefix|], prefix))
  {
    PrefixedClean(pre, holes, prefix);
    FillPrefixIsPrefixed(pre + Holes(holes), prefix, values);
  }

  lemma {:induction false} FillUses(text: string, values: seq<string>)
    ensures FillAll(text, values).Done? ==> |FillAll(text, values).left| <= |values|
    decreases |values|
  {
    if '<' in text && values != [] {
      FillUses(ReplaceHole(text, values[0]), values[1..]);
    }
  }

  /** The prefix goes in like the values, except that all of it must. */
  lemma {:induction false} FillPrefixIsFill(text: string, prefix: seq<string>, values: seq<string>)
    ensures var o := FillAll(text, prefix + values);
            FillPrefix(text, prefix, values) == if o.Done? && |o.left| <= |values| then o else Broken
    decreases |prefix|
  {
    if prefix == [] {
      EmptyPrefix(values);
      FillUses(text, values);
    } else {
      assert (prefix + values)[1..] == prefix[1..] + values;
      if '<' in text {
        FillPrefixIsFill(ReplaceHole(text, prefix[0]), prefix[1..], values);
      }
    }
  }

  // ---- harmless texts ----

  /** What is put into the holes of a template, the sender's texts first. */
  function Share(t: Template, values: seq<string>, who: Sender): (items: seq<string>)
    requires WellFormed(t) && ValueHoles(t) <= |values|
    ensures |items| == |t.holes|
  {
    PrefixOf(Source(t), who) + values[..ValueHoles(t)]
  }

  /** Everything that is put into holes, in order. */
  function Inserted(ts: seq<Template>, values: seq<string>, who: Sender): (items: seq<string>)
    requires (forall t :: t in ts ==> WellFormed(t)) && |values| >= TotalHoles(ts)
    ensures |items| >= |ts|
    decreases |ts|
  {
    if ts == [] then []
    else
      TotalHolesNonNegative(ts);
      Share(ts[0], values, who) + Inserted(ts[1..], values[ValueHoles(ts[0])..], who)
  }

  /** No text holds a '<', and none but the last a '>'. */
  ghost predicate LastMayClose(items: seq<string>) {
    NoneOpen(items) && forall i :: 0 <= i < |items| - 1 ==> '>' !in items[i]
  }

  ghost predicate Harmless(ts: seq<Template>, values: seq<string>, who: Sender)
    requires (forall t :: t in ts ==> WellFormed(t)) && |values| >= TotalHoles(ts)
  {
    LastMayClose(Inserted(ts, values, who))
  }

  lemma LastMayCloseConcat(a: seq<string>, b: seq<string>)
    ensures LastMayClose(a + b) <==> if b == [] then LastMayClose(a) else AllClean(a) && LastMayClose(b)
  {
    if b == [] {
      EmptySuffix(a);
    } else {
      if LastMayClose(a + b) {
        forall v | v in a ensures Clean(v) {
          var i :| 0 <= i < |a| && a[i] == v;
          assert (a + b)[i] == v && v in a + b;
        }
        forall v | v in b ensures '<' !in v {
          assert v in a + b;
        }
        forall i | 0 <= i < |b| - 1 ensures '>' !in b[i] {
          assert (a + b)[|a| + i] == b[i];
        }
      }
      if AllClean(a) && LastMayClose(b) {
        forall i | 0 <= i < |a + b| - 1 ensures '>' !in (a + b)[i] {
          assert (a + b)[i] == if i < |a| then a[i] else b[i - |a|];
          assert i < |a| ==> a[i] in a;
        }
      }
    }
  }

  lemma {:induction false} InsertedSplit(ts: seq<Template>, values: seq<string>, who: Sender)
    requires ts != [] && (forall t :: t in ts ==> WellFormed(t)) && |values| >= TotalHoles(ts)
    ensures 0 <= ValueHoles(ts[0]) <= TotalHoles(ts)
    ensures var share := Share(ts[0], values, who);
            Harmless(ts, values, who)
            <==> if ts[1..] == [] then LastMayClose(share)
                 else AllClean(share) && Harmless(ts[1..], values[ValueHoles(ts[0])..], who)
  {
    TotalHolesNonNegative(ts);
    var rest := Inserted(ts[1..], values[ValueHoles(ts[0])..], who);
    LastMayCloseConcat(Share(ts[0], values, who), rest);
  }

  /** One template, from clean text: rendered as meant when only the last of its texts may hold a '>'. */
  lemma {:induction false} TemplateClean(text: string, t: Template, values: seq<string>, who: Sender)
    requires Clean(text) && WellFormed(t) && ValueHoles(t) <= |values|
    requires LastMayClose(Share(t, values, who))
    ensures 0 <= ValueHoles(t)
    ensures |PrefixOf(Source(t), who) + values| >= |t.holes|
    ensures FillPrefix(text + Source(t), PrefixOf(Source(t), who), values)
         == Done(text + (t.start + Weave(t.holes, PrefixOf(Source(t), who) + values)), values[ValueHoles(t)..])
    ensures '<' !in text + (t.start + Weave(t.holes, PrefixOf(Source(t), who) + values))
  {
    var prefix := PrefixOf(Source(t), who);
    var items, share := prefix + values, Share(t, values, who);
    assert share == items[..|t.holes|];
    assert forall i :: 0 <= i < |share| ==> share[i] in share && items[i] == share[i];
    Assoc(text, t.start, Holes(t.holes));
    FillClean(text + t.start, t.holes, items);
    Assoc(text, t.start, Weave(t.holes, items));
    FillPrefixIsFill(text + Source(t), prefix, values);
    assert items[|t.holes|..] == values[ValueHoles(t)..];
  }

  // ---- clean senders ----

  /** No value holds a '<', and a '>' only stands in the value of the very last hole. */
  ghost predicate HarmlessValues(ts: seq<Template>, values: seq<string>) {
    && NoneOpen(values)
    && forall i :: 0 <= i < |values| && '>' in values[i]
         ==> ts != [] && i == TotalHoles(ts) - 1 && ValueHoles(ts[|ts| - 1]) > 0
  }

  lemma ShareOfClean(t: Template, values: seq<string>, who: Sender)
    requires WellFormed(t) && ValueHoles(t) <= |values| && CleanSender(who)
    ensures 0 <= ValueHoles(t)
    ensures AllClean(Share(t, values, who)) <==> AllClean(values[..ValueHoles(t)])
    ensures LastMayClose(Share(t, values, who)) <==> LastMayClose(values[..ValueHoles(t)])
  {
    var prefix, mine := PrefixOf(Source(t), who), values[..ValueHoles(t)];
    LastMayCloseConcat(prefix, mine);
    assert forall v :: v in prefix + mine <==> v in prefix || v in mine;
    assert AllClean(prefix);
  }

  lemma {:induction false} HarmlessValuesSplit(ts: seq<Template>, values: seq<string>)
    requires ts != [] && (forall t :: t in ts ==> WellFormed(t)) && |values| == TotalHoles(ts)
    ensures 0 <= ValueHoles(ts[0]) <= |values|
    ensures TotalHoles(ts[1..]) == |values[ValueHoles(ts[0])..]|
    ensures var n := ValueHoles(ts[0]);
            HarmlessValues(ts, values)
            <==> if ts[1..] == [] then LastMayClose(values)
                 else AllClean(values[..n]) && HarmlessValues(ts[1..], values[n..])
  {
    TotalHolesNonNegative(ts);
    var n := ValueHoles(ts[0]);
    var mine, rest := values[..n], values[n..];
    assert forall i :: 0 <= i < |values| ==> values[i] in values;
    if ts[1..] == [] {
      assert n == |values|;
    } else {
      assert ts[1..][|ts| - 2] == ts[|ts| - 1];
      LastHoles(ts[1..]);
      assert values == mine + rest;
      assert forall v :: v in values <==> v in mine || v in rest;
      assert forall i :: 0 <= i < |rest| ==> rest[i] == values[n + i];
      assert forall i :: 0 <= i < n ==> mine[i] == values[i] && mine[i] in mine;
    }
  }

  /** For a sender without brackets only the values count. */
  lemma {:induction false} HarmlessFromClean(ts: seq<Template>, values: seq<string>, who: Sender)
    requires ts != [] && (forall t :: t in ts ==> WellFormed(t)) && |values| == TotalHoles(ts)
    requires CleanSender(who)
    ensures Harmless(ts, values, who) <==> HarmlessValues(ts, values)
    decreases |ts|
  {
    InsertedSplit(ts, values, who);
    HarmlessValuesSplit(ts, values);
    ShareOfClean(ts[0], values, who);
    if ts[1..] == [] {
      assert values[..ValueHoles(ts[0])] == values;
    } else {
      HarmlessFromClean(ts[1..], values[ValueHoles(ts[0])..], who);
    }
  }

  lemma {:induction false} LastHoles(ts: seq<Template>)
    requires ts != [] && forall t :: t in ts ==> WellFormed(t)
    ensures 0 <= ValueHoles(ts[|ts| - 1]) <= TotalHoles(ts)
  {
    TotalHolesNonNegative(ts);
    if |ts| > 1 {
      LastHoles(ts[1..]);
    } else {
      assert ts[1..] == [];
    }
  }

  /** With harmless texts the loop renders as meant and uses exactly its share of the values. */
  lemma {:induction false} FormatClean(text: string, ts: seq<Template>, values: seq<string>, who: Sender)
    requires Clean(text) && forall t :: t in ts ==> WellFormed(t)
    requires |values| >= TotalHoles(ts) && Harmless(ts, values, who)
    ensures 0 <= TotalHoles(ts)
    ensures Format(text, Sources(ts), values, who)
         == Done(text + Render(ts, values, who), values[TotalHoles(ts)..])
    decreases |ts|
  {
    TotalHolesNonNegative(ts);
    if ts == [] {
      EmptySuffix(text);
    } else {
      var t, n := ts[0], ValueHoles(ts[0]);
      assert t in ts;
      InsertedSplit(ts, values, who);
      if ts[1..] != [] {
        CleanCloses(Share(t, values, who));
      }
      TemplateClean(text, t, values, who);
      var here := t.start + Weave(t.holes, PrefixOf(Source(t), who) + values);
      if ts[1..] == [] {
        EmptySuffix(text + here);
        EmptySuffix(here);
      } else {
        CleanWeave(text, t, values, who);
        FormatClean(text + here, ts[1..], values[n..], who);
        assert values[n..][TotalHoles(ts[1..])..] == values[TotalHoles(ts)..];
        Assoc(text, here, Render(ts[1..], values[n..], who));
      }
    }
  }

  lemma CleanCloses(items: seq<string>)
    requires AllClean(items)
    ensures LastMayClose(items)
  {
    assert forall i :: 0 <= i < |items| ==> items[i] in items;
  }

  lemma {:induction false} CleanWeave(text: string, t: Template, values: seq<string>, who: Sender)
    requires Clean(text) && WellFormed(t) && ValueHoles(t) <= |values|
    requires AllClean(Share(t, values, who))
    ensures 0 <= ValueHoles(t) && |PrefixOf(Source(t), who) + values| >= |t.holes|
    ensures Clean(text + (t.start + Weave(t.holes, PrefixOf(Source(t), who) + values)))
  {
    var items, share := PrefixOf(Source(t), who) + values, Share(t, values, who);
    assert forall i :: 0 <= i < |share| ==> share[i] in share && items[i] == share[i];
    WeaveIsClean(t.holes, items);
  }

  lemma {:induction false} WeaveIsClean(holes: seq<Hole>, values: seq<string>)
    requires CleanHoles(holes) && |holes| <= |values|
    requires forall i :: 0 <= i < |holes| ==> Clean(values[i])
    ensures Clean(Weave(holes, values))
  {
    if holes != [] {
      assert CleanHole(holes[0]);
      WeaveIsClean(holes[1..], values[1..]);
    }
  }
}
