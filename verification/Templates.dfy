/** Message::replace_rpl_err_text, replace_prefix and reply_format: find-and-replace over
    "<hole>" templates, with the one-pass rendering it is meant to compute. */
module Templates {
  import opened Strings

  // ---- the code ----

  /** The outcome of formatting: the text and the values not used, or an access outside the
      text or the values, which C++ leaves undefined. */
  datatype Outcome = Done(text: string, left: seq<string>) | Broken

  /** replace_rpl_err_text: from the first '<' up to the first '>' of the text. A '>' that comes
      first makes the count negative, which std::string::replace reads as "to the end". */
  function ReplaceHole(text: string, value: string): string
    requires '<' in text
  {
    var begin := Find(text, '<');
    var after := if '>' in text then Find(text, '>') + 1 else 0;
    if after < begin then text[..begin] + value else text[..begin] + value + text[after..]
  }

  /** The loop of reply_format: replace until no '<' is left. */
  function FillAll(text: string, values: seq<string>): Outcome
    decreases |values|
  {
    if '<' !in text then Done(text, values)
    else if values == [] then Broken
    else FillAll(ReplaceHole(text, values[0]), values[1..])
  }

  /** The fixed replacements of replace_prefix; what follows is rendered from values. */
  function FillPrefix(text: string, prefix: seq<string>, values: seq<string>): Outcome
    decreases |prefix|
  {
    if prefix == [] then FillAll(text, values)
    else if '<' !in text then Broken
    else FillPrefix(ReplaceHole(text, prefix[0]), prefix[1..], values)
  }

  /** The replacements of replace_prefix on their own. */
  function Prefixed(text: string, prefix: seq<string>): Outcome
    decreases |prefix|
  {
    if prefix == [] then Done(text, [])
    else if '<' !in text then Broken
    else Prefixed(ReplaceHole(text, prefix[0]), prefix[1..])
  }

  lemma {:induction false} FillPrefixIsPrefixed(text: string, prefix: seq<string>, values: seq<string>)
    ensures var p := Prefixed(text, prefix);
            FillPrefix(text, prefix, values) == if p.Done? then FillAll(p.text, values) else Broken
    decreases |prefix|
  {
    if prefix != [] && '<' in text {
      FillPrefixIsPrefixed(ReplaceHole(text, prefix[0]), prefix[1..], values);
    }
  }

  datatype Sender = Sender(nick: string, user: string, host: string)

  /** replace_prefix recognises ":<client>!<user>@..." by two characters. */
  predicate IsCustom(reply: string) {
    |reply| > 16 && reply[9] == '!' && reply[16] == '@'
  }

  function PrefixOf(reply: string, who: Sender): seq<string>
  {
    if IsCustom(reply) then [who.nick, who.user, who.host] else [who.nick]
  }

  /** Nickname, user name and host go into a reply exactly when a '!' stands at place 9 and an '@' at place 16 of
      it, the nickname alone into every other. */
  lemma PrefixDecided(reply: string, who: Sender)
    ensures PrefixOf(reply, who)
         == if |reply| >= 17 && reply[9..10] == "!" && reply[16..17] == "@" then [who.nick, who.user, who.host]
            else [who.nick]
  {}

  /** reply_format over a list of replies. */
  function Format(text: string, replies: seq<string>, values: seq<string>, who: Sender): Outcome
    decreases |replies|
  {
    if replies == [] then Done(text, values)
    else
      match FillPrefix(text + replies[0], PrefixOf(replies[0], who), values)
      case Broken => Broken
      case Done(more, left) => Format(more, replies[1..], left, who)
  }

  // ---- templates as what they are meant to be ----

  /** A hole and the literal text up to the next hole. */
  datatype Hole = Hole(name: string, after: string)
  datatype Template = Template(start: string, holes: seq<Hole>)

  function Holes(holes: seq<Hole>): string
  {
    if holes == [] then "" else ['<'] + holes[0].name + ['>'] + (holes[0].after + Holes(holes[1..]))
  }

  /** The text of a template as it stands in define.hpp. */
  function Source(t: Template): string
  {
    t.start + Holes(t.holes)
  }

  function Sources(ts: seq<Template>): (r: seq<string>)
    ensures |r| == |ts|
  {
    if ts == [] then [] else [Source(ts[0])] + Sources(ts[1..])
  }

  predicate Clean(s: string) {
    '<' !in s && '>' !in s
  }

  predicate CleanHole(h: Hole) {
    Clean(h.name) && Clean(h.after)
  }

  /** Literals and hole names hold no angle bracket, the prefix holes are there, and the template
      ends in literal text. All templates of define.hpp are like that. */
  ghost predicate WellFormed(t: Template) {
    && Clean(t.start)
    && (forall h :: h in t.holes ==> CleanHole(h))
    && 1 <= |t.holes| && t.holes[|t.holes| - 1].after != ""
    && (IsCustom(Source(t)) ==> |t.holes| >= 3)
  }

  /** The holes filled from the values, after those of the prefix. */
  function ValueHoles(t: Template): int
  {
    |t.holes| - if IsCustom(Source(t)) then 3 else 1
  }

  function TotalHoles(ts: seq<Template>): int
  {
    if ts == [] then 0 else ValueHoles(ts[0]) + TotalHoles(ts[1..])
  }

  /** One pass: every hole replaced by its own value. */
  function Weave(holes: seq<Hole>, values: seq<string>): string
    requires |holes| <= |values|
  {
    if holes == [] then "" else values[0] + holes[0].after + Weave(holes[1..], values[1..])
  }

  lemma {:induction false} TotalHolesNonNegative(ts: seq<Template>)
    requires forall t :: t in ts ==> WellFormed(t)
    ensures TotalHoles(ts) >= 0
    ensures ts != [] ==> 0 <= ValueHoles(ts[0]) <= TotalHoles(ts)
  {
    if ts != [] {
      assert ts[0] in ts;
      TotalHolesNonNegative(ts[1..]);
    }
  }

  /** The rendering that is meant: each template woven with its prefix and its share of the values. */
  function Render(ts: seq<Template>, values: seq<string>, who: Sender): string
    requires forall t :: t in ts ==> WellFormed(t)
    requires |values| >= TotalHoles(ts)
    decreases |ts|
  {
    if ts == [] then ""
    else
      TotalHolesNonNegative(ts);
      ts[0].start + Weave(ts[0].holes, PrefixOf(Source(ts[0]), who) + values)
        + Render(ts[1..], values[ValueHoles(ts[0])..], who)
  }

  // ---- one replacement ----

  lemma ReplaceText(pre: string, name: string, rest: string, value: string)
    requires Clean(pre) && Clean(name)
    ensures '<' in pre + ['<'] + name + ['>'] + rest
    ensures ReplaceHole(pre + ['<'] + name + ['>'] + rest, value) == pre + value + rest
  {
    var text := pre + ['<'] + name + ['>'] + rest;
    assert text == pre + ['<'] + (name + ['>'] + rest);
    FindAfter(pre, '<', name + ['>'] + rest);
    FindAfter(pre + ['<'] + name, '>', rest);
    assert text[|pre|] == '<' && text[|pre| + 1 + |name|] == '>';
  }

  /** With no bracket before the hole, replacing does what is meant. */
  lemma {:induction false} ReplaceClean(pre: string, holes: seq<Hole>, value: string)
    requires Clean(pre) && holes != [] && CleanHole(holes[0])
    ensures '<' in pre + Holes(holes)
    ensures ReplaceHole(pre + Holes(holes), value) == (pre + value + holes[0].after) + Holes(holes[1..])
  {
    var name, rest := holes[0].name, holes[0].after + Holes(holes[1..]);
    ReplaceText(pre, name, rest, value);
    HolesText(pre, name, rest);
    Assoc(pre + value, holes[0].after, Holes(holes[1..]));
  }

  lemma HolesText(pre: string, name: string, rest: string)
    ensures pre + (['<'] + name + ['>'] + rest) == pre + ['<'] + name + ['>'] + rest
  {}

  /** With a '>' before the hole, the rest of the text is cut off, or the hole stays. */
  lemma ReplaceBehind(pre: string, rest: string, value: string)
    requires '<' !in pre && '>' in pre
    ensures '<' in pre + ['<'] + rest
    ensures ReplaceHole(pre + ['<'] + rest, value) in {pre + value, (pre + value) + (['<'] + rest)}
  {
    var text := pre + ['<'] + rest;
    FindAfter(pre, '<', rest);
    FindEarly(pre, '>', ['<'] + rest);
    Assoc(pre, ['<'], rest);
    assert text[..|pre|] == pre && text[|pre|..] == ['<'] + rest;
  }

  lemma {:induction false} FindEarly(a: string, c: char, b: string)
    requires c in a
    ensures Find(a + b, c) == Find(a, c) < |a|
  {
    var p := Find(a, c);
    FindCut(a, c);
    Assoc(a[..p] + [c], a[p + 1..], b);
    FindAfter(a[..p], c, a[p + 1..] + b);
  }

  lemma {:induction false} ReplaceDirty(pre: string, holes: seq<Hole>, value: string)
    requires '<' !in pre && '>' in pre && holes != []
    ensures '<' in pre + Holes(holes)
    ensures ReplaceHole(pre + Holes(holes), value) in {pre + value, (pre + value) + Holes(holes)}
  {
    var rest := holes[0].name + ['>'] + (holes[0].after + Holes(holes[1..]));
    HolesOpen(holes);
    Assoc(pre, ['<'], rest);
    ReplaceBehind(pre, rest, value);
  }

  lemma {:induction false} HolesOpen(holes: seq<Hole>)
    requires holes != []
    ensures Holes(holes) == ['<'] + (holes[0].name + ['>'] + (holes[0].after + Holes(holes[1..])))
  {}
}
