/** MODE on a channel, as functions: the request parser, the applier and the printer. */
module ModeSpec {
  import opened Strings
  import opened Channels
  import opened Decimal

  datatype Status = Unchanged | Add | Remove

  /** The channel flags in the order of the map that holds their status. */
  const FLAGS := "iklot"

  type StatusMap = map<char, Status>

  const RESET: StatusMap :=
    map['i' := Unchanged, 'k' := Unchanged, 'l' := Unchanged, 'o' := Unchanged, 't' := Unchanged]

  function Get(m: StatusMap, flag: char): Status
  {
    if flag in m then m[flag] else Unchanged
  }

  /** A request: the status asked for per flag, the parameter slots' flags in use, the tokens given. */
  datatype Request = Request(status: StatusMap, bound: seq<char>, tokens: seq<string>)

  // ---- parsing ----

  /** _get_mode_params: at most three tokens, cut at single spaces; an empty rest is no token. */
  function Tokens(s: string, i: nat): seq<string>
    requires i < 3
    decreases 3 - i
  {
    var p := Find(s, ' ');
    if p == |s| then if s == "" then [] else [s]
    else [s[..p]] + if i == 2 then [] else Tokens(s[p + 1..], i + 1)
  }

  /** The third token is followed by a space: too many parameters. */
  function TooMany(s: string, i: nat): bool
    requires i < 3
    decreases 3 - i
  {
    var p := Find(s, ' ');
    p < |s| && (i == 2 || TooMany(s[p + 1..], i + 1))
  }

  /** The flags of a request: up to the first blank. */
  function ModeString(request: string): string
  {
    request[..FindIn(request, BLANKS)]
  }

  function Parameters(request: string): string
  {
    var p := FindIn(request, BLANKS);
    if p == |request| then "" else request[p + 1..]
  }

  predicate IsSign(c: char) { c == '+' || c == '-' }

  predicate IsFlag(c: char) { c in FLAGS }

  predicate TakesParam(sign: char, flag: char) {
    (sign == '+' && flag in "olk") || (sign == '-' && flag in "ok")
  }

  /** _map_mode_params: a flag takes the next free slot once. */
  function Bind(bound: seq<char>, flag: char): seq<char>
  {
    if flag in bound then bound else bound + [flag]
  }

  function StatusOf(sign: char): Status
  {
    if sign == '+' then Add else Remove
  }

  /** One flag of the modestring under the current sign. */
  function FillOne(r: Request, sign: char, flag: char): Request
  {
    r.(status := if IsFlag(flag) then r.status[flag := StatusOf(sign)] else r.status,
       bound := if TakesParam(sign, flag) then Bind(r.bound, flag) else r.bound)
  }

  /** _fill_mod_maps: the modestring from a given sign on. */
  function Fill(modes: string, sign: char, r: Request): Request
  {
    if modes == "" then r
    else if IsSign(modes[0]) then Fill(modes[1..], modes[0], r)
    else Fill(modes[1..], sign, FillOne(r, sign, modes[0]))
  }

  /** The number of unknown flags, each answered with an error. */
  function Unknown(modes: string): nat
  {
    if modes == "" then 0
    else (if IsSign(modes[0]) || IsFlag(modes[0]) then 0 else 1) + Unknown(modes[1..])
  }

  function Parse(request: string): Request
  {
    Fill(ModeString(request), '+', Request(RESET, [], Tokens(Parameters(request), 0)))
  }

  function IndexOf(bound: seq<char>, flag: char): (i: nat)
    ensures i <= |bound|
    ensures flag in bound ==> i < |bound| && bound[i] == flag
    ensures flag !in bound ==> i == |bound|
  {
    if bound == [] || bound[0] == flag then 0 else 1 + IndexOf(bound[1..], flag)
  }

  /** _get_param: the token in the slot of the flag. */
  function Param(r: Request, flag: char): string
  {
    var i := IndexOf(r.bound, flag);
    if i < |r.bound| && i < |r.tokens| then r.tokens[i] else ""
  }

  // ---- applying ----

  /** A mode of the channel after its part of the request, and what is left of the status asked for. */
  datatype Effect<T> = Effect(value: T, status: Status)

  /** _channel_i and _channel_t */
  function ApplySwitch(on: bool, s: Status): Effect<bool>
  {
    if s == Add && !on then Effect(true, Add)
    else if s == Remove && on then Effect(false, Remove)
    else Effect(on, Unchanged)
  }

  /** _channel_k */
  function ApplyKey(key: string, s: Status, param: string): Effect<string>
  {
    if param == "" then Effect(key, Unchanged)
    else if s == Add && key != param then Effect(param, Add)
    else if s == Remove && key != "" && key == param then Effect("", Remove)
    else Effect(key, Unchanged)
  }

  /** _channel_o */
  function ApplyOperator(clients: map<int, Bits>, s: Status, param: string, fd: int): Effect<map<int, Bits>>
  {
    if param == "" || fd !in clients then Effect(clients, Unchanged)
    else if s == Add && !clients[fd].chanop then Effect(clients[fd := clients[fd].(chanop := true)], Add)
    else if s == Remove && clients[fd].chanop then Effect(clients[fd := clients[fd].(chanop := false)], Remove)
    else Effect(clients, Unchanged)
  }

  /** _channel_l */
  function ApplyLimit(limit: int, s: Status, param: string): Effect<int>
  {
    if s == Add then
      var n := ReadInt(param);
      if n.None? || n.value < 0 || limit == n.value then Effect(limit, Unchanged) else Effect(n.value, Add)
    else if s == Remove && limit != NO_LIMIT then Effect(NO_LIMIT, Remove)
    else Effect(limit, Unchanged)
  }

  datatype Effects = Effects(
    i: Effect<bool>, k: Effect<string>, l: Effect<int>, o: Effect<map<int, Bits>>, t: Effect<bool>)

  function EffectsOf(ch: Chan, r: Request, whom: string -> int): Effects
  {
    Effects(
      ApplySwitch(ch.inviteOnly, Get(r.status, 'i')),
      ApplyKey(ch.key, Get(r.status, 'k'), Param(r, 'k')),
      ApplyLimit(ch.limit, Get(r.status, 'l'), Param(r, 'l')),
      ApplyOperator(ch.clients, Get(r.status, 'o'), Param(r, 'o'), whom(Param(r, 'o'))),
      ApplySwitch(ch.topicRestricted, Get(r.status, 't')))
  }

  function StatusesOf(e: Effects): StatusMap
  {
    map['i' := e.i.status, 'k' := e.k.status, 'l' := e.l.status, 'o' := e.o.status, 't' := e.t.status]
  }

  function WithModes(ch: Chan, e: Effects): Chan
  {
    ch.(inviteOnly := e.i.value, key := e.k.value, limit := e.l.value, clients := e.o.value,
        topicRestricted := e.t.value)
  }

  datatype Applied = Applied(chan: Chan, status: StatusMap)

  /** _apply_mode_changes by an operator; whom tells the client a nickname belongs to. */
  function Apply(ch: Chan, r: Request, whom: string -> int): Applied
  {
    var e := EffectsOf(ch, r, whom);
    Applied(WithModes(ch, e), StatusesOf(e))
  }

  // ---- printing ----

  /** The flags of a given status, in map order. */
  function Picked(m: StatusMap, s: Status, flags: string): string
  {
    if flags == "" then "" else (if Get(m, flags[0]) == s then [flags[0]] else "") + Picked(m, s, flags[1..])
  }

  /** The flags among these that take a parameter under the sign. */
  function Taking(sign: char, flags: string): string
  {
    if flags == "" then "" else (if TakesParam(sign, flags[0]) then [flags[0]] else "") + Taking(sign, flags[1..])
  }

  function Signed(sign: char, flags: string): string
  {
    if flags == "" then "" else [sign] + flags
  }

  /** The parameters of the flags, each after a space. */
  function Suffix(flags: string, r: Request): string
  {
    if flags == "" then "" else " " + Param(r, flags[0]) + Suffix(flags[1..], r)
  }

  /** _format_replymodes: added flags, removed flags, then the parameters in the same order. */
  function Print(m: StatusMap, r: Request): string
  {
    var plus, minus := Picked(m, Add, FLAGS), Picked(m, Remove, FLAGS);
    Signed('+', plus) + Signed('-', minus) + (Suffix(Taking('+', plus), r) + Suffix(Taking('-', minus), r))
  }

  // ---- the report ----

  /** _current_mode: the modes that are set, with the key for operators and '*' for others. */
  function Current(ch: Chan, operator: bool): Request
  {
    Request(
      map['i' := if ch.inviteOnly then Add else Unchanged,
          'k' := if ch.key != "" then Add else Unchanged,
          'l' := if ch.limit != NO_LIMIT then Add else Unchanged,
          'o' := Unchanged,
          't' := if ch.topicRestricted then Add else Unchanged],
      ['k', 'l'],
      [if operator then ch.key else "*", if ch.limit >= 0 then PrintInt(ch.limit) else ""])
  }

  function Report(ch: Chan, operator: bool): string
  {
    var r := Current(ch, operator);
    var text := Print(r.status, r);
    if text == "" then "+" else text
  }
}
