/** MODE on a channel as the server runs it: a map of statuses, three parameter slots and the
    answer string, each changed in place. */
module ModeEngine {
  import opened Strings
  import opened Ordering
  import opened Channels
  import opened Decimal
  import W = World
  import opened ModeSpec
  import opened ModeReplay
  import opened ModeTheorems
  import opened Commands
  import opened Servers

  datatype Slot = Slot(flag: char, param: string)

  /** The flag of a slot that is not in use. */
  const FREE := '\0'

  /** Everybody with an entry, collected in map order. */
  method EverybodyIn(clients: map<int, Bits>, emitter: int) returns (target: set<int>)
    ensures target == {emitter} + clients.Keys
  {
    var order := Fds(clients.Keys);
    FdsEnumerate(clients.Keys);
    target := {emitter};
    var i := 0;
    while i < |order|
      invariant 0 <= i <= |order|
      invariant forall fd :: fd in target <==> fd == emitter || fd in order[..i]
    {
      if order[i] != emitter {
        target := target + {order[i]};
      }
      assert order[..i + 1] == order[..i] + [order[i]];
      i := i + 1;
    }
    assert order[..i] == order;
  }

  class Mode {
    const serv: Server
    var allChanmodes: StatusMap
    const modeParams: array<Slot>
    var replymodes: string

    constructor (serv: Server)
      ensures this.serv == serv && fresh(modeParams) && Holds(Request(RESET, [], []))
    {
      this.serv := serv;
      allChanmodes := RESET;
      modeParams := new Slot[3](_ => Slot(FREE, ""));
      replymodes := "";
    }

    /** The object holds a request: its statuses, its bound flags and its tokens. */
    ghost predicate Holds(r: Request)
      reads this, modeParams
    {
      && modeParams.Length == 3
      && allChanmodes == r.status
      && |r.bound| <= 3 && |r.tokens| <= 3 && FREE !in r.bound
      && forall i :: 0 <= i < 3 ==> modeParams[i] == SlotOf(r, i)
    }

    /** The parameter in the first slot with the flag, or none. */
    ghost function SlotParam(flag: char): string
      requires modeParams.Length == 3
      reads modeParams
    {
      if modeParams[0].flag == flag then modeParams[0].param
      else if modeParams[1].flag == flag then modeParams[1].param
      else if modeParams[2].flag == flag then modeParams[2].param
      else ""
    }

    /** _reset_modes */
    method ResetModes()
      requires modeParams.Length == 3
      modifies this`allChanmodes, modeParams
      ensures Holds(Request(RESET, [], []))
    {
      allChanmodes := RESET;
      modeParams[0], modeParams[1], modeParams[2] := Slot(FREE, ""), Slot(FREE, ""), Slot(FREE, "");
    }

    method SetParam(i: nat, param: string, ghost tokens: seq<string>)
      requires i == |tokens| < 3 && Holds(Request(RESET, [], tokens))
      modifies modeParams
      ensures Holds(Request(RESET, [], tokens + [param]))
    {
      modeParams[i] := modeParams[i].(param := param);
    }

    /** The loop of _get_mode_params: at most three tokens go to the slots. */
    method TakeTokens(text: string) returns (tooMany: bool)
      requires Holds(Request(RESET, [], []))
      modifies modeParams
      ensures Holds(Request(RESET, [], Tokens(text, 0))) && tooMany == TooMany(text, 0)
    {
      var left := text;
      ghost var tokens := [];
      var i := 0;
      while ' ' in left
        invariant 0 <= i < 3 && |tokens| == i
        invariant Holds(Request(RESET, [], tokens))
        invariant tokens + Tokens(left, i) == Tokens(text, 0)
        invariant TooMany(left, i) == TooMany(text, 0)
        decreases |left|
      {
        var p := Find(left, ' ');
        SetParam(i, left[..p], tokens);
        NextToken(tokens, left, i);
        tokens := tokens + [left[..p]];
        left := left[p + 1..];
        i := i + 1;
        if i == 3 {
          assert tokens + [] == tokens;
          return true;
        }
      }
      assert Find(left, ' ') == |left|;
      if left != "" {
        SetParam(i, left, tokens);
      }
      assert tokens + [] == tokens;
      return false;
    }

    /** _get_mode_params: the flags are returned; a fourth token is complained about. */
    method GetModeParams(emitter: int, param: string) returns (modes: string)
      requires serv.Valid() && Holds(Request(RESET, [], []))
      modifies modeParams, serv`msgs
      ensures modes == ModeString(param)
      ensures Holds(Request(RESET, [], Tokens(Parameters(param), 0)))
      ensures serv.Valid() && serv.View() == W.Push(old(serv.View()), TokenWarnings(emitter, param))
    {
      modes := ModeString(param);
      var tooMany := TakeTokens(Parameters(param));
      if tooMany {
        serv.PushBack(To(emitter, ErrTooManyParam, ["MODE"]));
      }
    }

    /** _map_mode_params: the flag takes the first free slot, unless it has one. */
    method MapModeParams(mode: char, ghost r: Request)
      requires Holds(r) && mode != FREE && (mode in r.bound || |r.bound| < 3)
      modifies modeParams
      ensures Holds(r.(bound := Bind(r.bound, mode)))
    {
      var i := 0;
      while i < 3
        invariant 0 <= i <= 3 && i <= |r.bound| && mode !in r.bound[..i]
        invariant Holds(r)
      {
        if modeParams[i].flag == FREE {
          assert i == |r.bound| && r.bound[..i] == r.bound;
          modeParams[i] := modeParams[i].(flag := mode);
          return;
        } else if modeParams[i].flag == mode {
          assert i < |r.bound| && mode in r.bound;
          return;
        }
        assert i < |r.bound| && r.bound[..i + 1] == r.bound[..i] + [r.bound[i]];
        i := i + 1;
      }
    }

    /** _get_param: the parameter of the first slot with the flag. */
    method GetParam(mode: char) returns (param: string)
      requires modeParams.Length == 3
      ensures param == SlotParam(mode)
    {
      var i := 0;
      while i < 3
        invariant 0 <= i <= 3
        invariant forall j :: 0 <= j < i ==> modeParams[j].flag != mode
      {
        if modeParams[i].flag == mode {
          return modeParams[i].param;
        }
        i := i + 1;
      }
      return "";
    }

    /** One flag of the modestring. */
    method FillOneMode(emitter: int, sign: char, flag: char, ghost r: Request)
      requires serv.Valid() && Holds(r) && BoundOk(r.bound)
      modifies this`allChanmodes, modeParams, serv`msgs
      ensures Holds(FillOne(r, sign, flag)) && serv.Valid()
      ensures serv.View() == W.Push(old(serv.View()), FlagWarnings(emitter, flag))
    {
      if IsFlag(flag) {
        allChanmodes := allChanmodes[flag := StatusOf(sign)];
        NothingPushed(serv.View());
      } else {
        serv.PushBack(To(emitter, ErrUModeUnknownFlag, []));
      }
      if TakesParam(sign, flag) {
        BoundRoom(r.bound, flag);
        MapModeParams(flag, r.(status := allChanmodes));
      }
    }

    /** _fill_mod_maps; a modestring starts with a sign. */
    method FillModMaps(emitter: int, modes: string, ghost tokens: seq<string>)
      requires serv.Valid() && Holds(Request(RESET, [], tokens))
      modifies this`allChanmodes, modeParams, serv`msgs
      ensures Holds(Fill(modes, '+', Request(RESET, [], tokens))) && serv.Valid()
      ensures serv.View()
           == W.Push(old(serv.View()), Commands.Repeated(To(emitter, ErrUModeUnknownFlag, []), Unknown(modes)))
    {
      ghost var start := Request(RESET, [], tokens);
      ghost var r, unknown := start, 0;
      var sign := '+';
      var i := 0;
      NothingPushed(serv.View());
      while i < |modes|
        invariant 0 <= i <= |modes| && Holds(r) && BoundOk(r.bound)
        invariant Fill(modes[i..], sign, r) == Fill(modes, '+', start)
        invariant unknown + Unknown(modes[i..]) == Unknown(modes)
        invariant serv.Valid() && serv.View() == Complained(old(serv.View()), emitter, unknown)
      {
        assert modes[i..][0] == modes[i] && modes[i..][1..] == modes[i + 1..];
        if IsSign(modes[i]) {
          sign := modes[i];
        } else {
          FillOneMode(emitter, sign, modes[i], r);
          FillOneBound(r, sign, modes[i]);
          OneMoreComplaint(old(serv.View()), emitter, unknown, modes[i]);
          r := FillOne(r, sign, modes[i]);
          unknown := unknown + if IsFlag(modes[i]) then 0 else 1;
        }
        i := i + 1;
      }
    }

    // ---- _apply_mode_changes ----

    /** _channel_i */
    method ChannelI(channel: Channel)
      modifies this`allChanmodes, channel`isInviteOnly
      ensures Effect(channel.isInviteOnly, Get(allChanmodes, 'i'))
           == ApplySwitch(old(channel.isInviteOnly), Get(old(allChanmodes), 'i'))
      ensures allChanmodes == old(allChanmodes)['i' := Get(allChanmodes, 'i')]
    {
      var asked := Get(allChanmodes, 'i');
      allChanmodes := allChanmodes['i' := asked];
      if asked == Add {
        if channel.isInviteOnly {
          allChanmodes := allChanmodes['i' := Unchanged];
        } else {
          channel.isInviteOnly := true;
        }
      } else if asked == Remove {
        if !channel.isInviteOnly {
          allChanmodes := allChanmodes['i' := Unchanged];
        } else {
          channel.isInviteOnly := false;
        }
      }
    }

    /** _channel_t */
    method ChannelT(channel: Channel)
      modifies this`allChanmodes, channel`isTopicRestricted
      ensures Effect(channel.isTopicRestricted, Get(allChanmodes, 't'))
           == ApplySwitch(old(channel.isTopicRestricted), Get(old(allChanmodes), 't'))
      ensures allChanmodes == old(allChanmodes)['t' := Get(allChanmodes, 't')]
    {
      var asked := Get(allChanmodes, 't');
      allChanmodes := allChanmodes['t' := asked];
      if asked == Add {
        if channel.isTopicRestricted {
          allChanmodes := allChanmodes['t' := Unchanged];
        } else {
          channel.isTopicRestricted := true;
        }
      } else if asked == Remove {
        if !channel.isTopicRestricted {
          allChanmodes := allChanmodes['t' := Unchanged];
        } else {
          channel.isTopicRestricted := false;
        }
      }
    }

    /** _channel_k */
    method ChannelK(emitter: int, channel: Channel)
      requires modeParams.Length == 3
      modifies this`allChanmodes, channel`key, serv`msgs
      ensures Effect(channel.key, Get(allChanmodes, 'k'))
           == ApplyKey(old(channel.key), Get(old(allChanmodes), 'k'), old(SlotParam('k')))
      ensures allChanmodes == old(allChanmodes)['k' := Get(allChanmodes, 'k')]
      ensures serv.msgs == old(serv.msgs) + KeyWarnings(emitter, Get(old(allChanmodes), 'k'), old(SlotParam('k')))
    {
      var asked := Get(allChanmodes, 'k');
      allChanmodes := allChanmodes['k' := asked];
      if asked == Unchanged {
        return;
      }
      var param := GetParam('k');
      if param == "" {
        allChanmodes := allChanmodes['k' := Unchanged];
        serv.msgs := serv.msgs + [To(emitter, ErrNeedMoreParams, ["MODE"])];
      } else if asked == Add {
        if channel.key == param {
          allChanmodes := allChanmodes['k' := Unchanged];
        } else {
          channel.key := param;
        }
      } else if channel.key == "" || channel.key != param {
        allChanmodes := allChanmodes['k' := Unchanged];
      } else {
        channel.key := "";
      }
    }

    /** _channel_o, with the client the parameter names. */
    method ChannelO(emitter: int, channel: Channel, param: string, client: int)
      modifies this`allChanmodes, channel`clients, serv`msgs
      ensures Effect(channel.clients, Get(allChanmodes, 'o'))
           == ApplyOperator(old(channel.clients), Get(old(allChanmodes), 'o'), param, client)
      ensures allChanmodes == old(allChanmodes)['o' := Get(allChanmodes, 'o')]
      ensures serv.msgs == old(serv.msgs)
                + OperatorWarnings(client, emitter, old(channel.State()), Get(old(allChanmodes), 'o'), param)
    {
      var asked := Get(allChanmodes, 'o');
      allChanmodes := allChanmodes['o' := asked];
      if asked == Unchanged {
        return;
      }
      if param == "" {
        allChanmodes := allChanmodes['o' := Unchanged];
        serv.msgs := serv.msgs + [To(emitter, ErrNeedMoreParams, ["MODE"])];
      } else if client !in channel.clients {
        allChanmodes := allChanmodes['o' := Unchanged];
        serv.msgs := serv.msgs + [To(emitter, ErrUserNotInChannel, [param, channel.name])];
      } else if asked == Add {
        if channel.clients[client].chanop {
          allChanmodes := allChanmodes['o' := Unchanged];
        } else {
          channel.clients := channel.clients[client := channel.clients[client].(chanop := true)];
          serv.msgs := serv.msgs + [To(client, RplYoureChanop, [channel.name])];
        }
      } else if !channel.clients[client].chanop {
        allChanmodes := allChanmodes['o' := Unchanged];
      } else {
        channel.clients := channel.clients[client := channel.clients[client].(chanop := false)];
      }
    }

    /** _channel_l */
    method ChannelL(emitter: int, channel: Channel)
      requires modeParams.Length == 3
      modifies this`allChanmodes, channel`memberLimit, serv`msgs
      ensures Effect(channel.memberLimit, Get(allChanmodes, 'l'))
           == ApplyLimit(old(channel.memberLimit), Get(old(allChanmodes), 'l'), old(SlotParam('l')))
      ensures allChanmodes == old(allChanmodes)['l' := Get(allChanmodes, 'l')]
      ensures serv.msgs == old(serv.msgs) + LimitWarnings(emitter, Get(old(allChanmodes), 'l'), old(SlotParam('l')))
    {
      var asked := Get(allChanmodes, 'l');
      allChanmodes := allChanmodes['l' := asked];
      if asked == Add {
        var param := GetParam('l');
          var n := ReadInt(param);
        if n.None? || n.value < 0 {
          allChanmodes := allChanmodes['l' := Unchanged];
          serv.msgs := serv.msgs + [To(emitter, ErrNeedMoreParams, ["MODE"])];
        } else if channel.memberLimit == n.value {
          allChanmodes := allChanmodes['l' := Unchanged];
        } else {
          channel.memberLimit := n.value;
        }
      } else if asked == Remove {
        if channel.memberLimit == NO_LIMIT {
          allChanmodes := allChanmodes['l' := Unchanged];
        } else {
          channel.memberLimit := NO_LIMIT;
        }
      }
    }

    /** The flags without parameter. */
    method ApplySwitches(channel: Channel)
      modifies this`allChanmodes, channel`isInviteOnly, channel`isTopicRestricted
      ensures Switched(old(channel.State()), old(allChanmodes), channel.State(), allChanmodes)
    {
      ChannelI(channel);
      ChannelT(channel);
    }

    /** The flags with a parameter, in the order they are dealt with. */
    method ApplyParams(emitter: int, channel: Channel, param: string, client: int)
      requires modeParams.Length == 3 && param == SlotParam('o')
      modifies this`allChanmodes, channel`key, channel`clients, channel`memberLimit, serv`msgs
      ensures Bound(old(channel.State()), old(allChanmodes), SlotParam('k'), param, client, SlotParam('l'),
                    channel.State(), allChanmodes)
      ensures serv.msgs == old(serv.msgs) + ParamWarnings(old(channel.State()), old(allChanmodes), emitter,
                                              SlotParam('k'), param, client, SlotParam('l'))
    {
      ChannelK(emitter, channel);
      ChannelO(emitter, channel, param, client);
      ChannelL(emitter, channel);
    }

    /** The changes of _apply_mode_changes by an operator, in its order. */
    method ApplyChanges(emitter: int, channel: Channel)
      requires modeParams.Length == 3
      modifies this`allChanmodes, channel, serv`msgs
      ensures var client := W.ClientByNick(old(serv.Clients()), SlotParam('o'));
        && Changed(old(channel.State()), old(allChanmodes), SlotParam('k'), SlotParam('o'), client, SlotParam('l'),
                   channel.State(), allChanmodes)
        && serv.msgs == old(serv.msgs) + ParamWarnings(old(channel.State()), old(allChanmodes), emitter,
                                           SlotParam('k'), SlotParam('o'), client, SlotParam('l'))
    {
      var param := GetParam('o');
      var client := serv.GetClientByNickname(param);
      ghost var ch, m := channel.State(), allChanmodes;
      ApplySwitches(channel);
      SwitchesWarnNobody(ch, m, channel.State(), allChanmodes, emitter, SlotParam('k'), param, client, SlotParam('l'));
      ApplyParams(emitter, channel, param, client);
    }

    // ---- _format_replymodes ----

    /** What is printed of the slots is what the request says. */
    ghost predicate Supplies(r: Request)
      requires modeParams.Length == 3
      reads this, modeParams
    {
      forall f :: f in Takers(allChanmodes) ==> SlotParam(f) == Param(r, f)
    }

    /** The loop over the map: each flag with its sign before it. */
    method WriteMarks() returns (marks: string)
      ensures marks == MarksOf(allChanmodes, FLAGS)
    {
      marks := "";
      var i := 0;
      while i < |FLAGS|
        invariant 0 <= i <= |FLAGS|
        invariant marks + MarksOf(allChanmodes, FLAGS[i..]) == MarksOf(allChanmodes, FLAGS)
      {
        MarksStep(allChanmodes, marks, FLAGS, i);
        if Get(allChanmodes, FLAGS[i]) == Add {
          marks := marks + "+" + [FLAGS[i]];
        } else if Get(allChanmodes, FLAGS[i]) == Remove {
          marks := marks + "-" + [FLAGS[i]];
        }
        i := i + 1;
      }
      EmptySuffix(marks);
    }

    /** A flag whose sign the scan has come to: its letter, and its parameter if it takes one. */
    method TakeMark(sign: char, flag: char, tmp: string, suffix: string, ghost r: Request)
        returns (more: string, longer: string)
      requires modeParams.Length == 3 && (TakesParam(sign, flag) ==> SlotParam(flag) == Param(r, flag))
      ensures more == (if sign in tmp then tmp else tmp + [sign]) + [flag]
      ensures longer == suffix + Suffix(Taking(sign, [flag]), r)
    {
      more, longer := tmp, suffix;
      if sign !in tmp {
        more := more + [sign];
      }
      more := more + [flag];
      SuffixOne(sign, flag, r);
      EmptySuffix(suffix);
      if TakesParam(sign, flag) {
        var param := GetParam(flag);
        longer := suffix + (" " + param);
      }
    }

    /** One of the two scans: the flags behind a sign, the sign written once, and the parameters. */
    method ScanMarks(marks: string, sign: char, tmp0: string, suffix0: string, ghost r: Request)
        returns (tmp: string, suffix: string)
      requires modeParams.Length == 3 && IsSign(sign) && sign !in tmp0
      requires marks == "" || !IsSign(marks[|marks| - 1])
      requires forall f :: f in Behind(marks, sign) ==>
        !IsSign(f) && (TakesParam(sign, f) ==> SlotParam(f) == Param(r, f))
      ensures tmp == tmp0 + Signed(sign, Behind(marks, sign))
      ensures suffix == suffix0 + Suffix(Taking(sign, Behind(marks, sign)), r)
    {
      tmp, suffix := tmp0, suffix0;
      ghost var picked := "";
      var j := 0;
      EmptySuffix(tmp0);
      EmptySuffix(suffix0);
      EmptyPrefix(Behind(marks, sign));
      while j < |marks|
        invariant 0 <= j <= |marks|
        invariant picked + Behind(marks[j..], sign) == Behind(marks, sign)
        invariant Scanned(sign, picked, tmp0, suffix0, r, tmp, suffix)
      {
        BehindStep(marks, sign, picked, j);
        if marks[j] == sign {
          ghost var was := picked;
          picked := picked + [marks[j + 1]];
          assert marks[j + 1] in picked;
          PickedBehind(picked, marks, sign, j);
          ScannedMore(sign, was, marks[j + 1], tmp0, suffix0, r, tmp, suffix);
          tmp, suffix := TakeMark(sign, marks[j + 1], tmp, suffix, r);
        }
        j := j + 1;
      }
      EmptySuffix(picked);
    }

    /** _format_replymodes */
    method FormatReplymodes(ghost r: Request)
      requires modeParams.Length == 3 && Supplies(r)
      modifies this`replymodes
      ensures replymodes == Print(allChanmodes, r)
    {
      var marks := WriteMarks();
      ghost var plus, minus := Picked(allChanmodes, Add, FLAGS), Picked(allChanmodes, Remove, FLAGS);
      MarksShow(allChanmodes, FLAGS);
      PrintedFlags(allChanmodes);
      var tmp, suffix := ScanMarks(marks, '+', "", "", r);
      NoMinusYet(plus);
      tmp, suffix := ScanMarks(marks, '-', tmp, suffix, r);
      EmptyPrefix(Signed('+', plus));
      EmptyPrefix(Suffix(Taking('+', plus), r));
      replymodes := tmp + suffix;
    }

    // ---- _current_mode ----

    method LoadSwitches(channel: Channel)
      requires allChanmodes == RESET
      modifies this`allChanmodes
      ensures allChanmodes == RESET['i' := if channel.isInviteOnly then Add else Unchanged]
                                   ['t' := if channel.isTopicRestricted then Add else Unchanged]
    {
      if channel.isInviteOnly {
        allChanmodes := allChanmodes['i' := Add];
      }
      if channel.isTopicRestricted {
        allChanmodes := allChanmodes['t' := Add];
      }
    }

    method LoadParams(operator: bool, channel: Channel)
      requires modeParams.Length == 3 && forall i :: 0 <= i < 3 ==> modeParams[i] == Slot(FREE, "")
      requires Get(allChanmodes, 'k') == Unchanged && Get(allChanmodes, 'l') == Unchanged
      modifies this`allChanmodes, modeParams
      ensures channel.key != "" ==> SlotParam('k') == if operator then channel.key else "*"
      ensures channel.memberLimit != -1 ==>
        SlotParam('l') == if channel.memberLimit >= 0 then PrintInt(channel.memberLimit) else ""
      ensures allChanmodes == old(allChanmodes)['k' := if channel.key != "" then Add else Unchanged]
                                               ['l' := if channel.memberLimit != -1 then Add else Unchanged]
    {
      allChanmodes := allChanmodes['k' := Unchanged]['l' := Unchanged];
      if channel.key != "" {
        allChanmodes := allChanmodes['k' := Add];
        modeParams[0] := Slot('k', if operator then channel.key else "*");
      }
      if channel.memberLimit != -1 {
        allChanmodes := allChanmodes['l' := Add];
        modeParams[1] := Slot('l', if channel.memberLimit >= 0 then PrintInt(channel.memberLimit) else "");
      }
    }

    /** The modes that are set go to the map and to the first two slots. */
    method LoadCurrent(emitter: int, channel: Channel)
      requires Holds(Request(RESET, [], []))
      modifies this`allChanmodes, modeParams
      ensures modeParams.Length == 3
      ensures allChanmodes == Current(channel.State(), Entry(channel.State(), emitter).chanop).status
      ensures Supplies(Current(channel.State(), Entry(channel.State(), emitter).chanop))
    {
      var operator := emitter in channel.clients && channel.clients[emitter].chanop;
      LoadSwitches(channel);
      LoadParams(operator, channel);
      CurrentStatus(channel.State(), operator);
      CurrentTakers(channel.State(), operator);
    }

    /** _current_mode */
    method CurrentMode(emitter: int, channel: Channel) returns (reply: seq<Notice>)
      requires Holds(Request(RESET, [], []))
      modifies this, modeParams
      ensures reply == [To(emitter, RplChannelModeIs,
                           [channel.name, Report(channel.State(), Entry(channel.State(), emitter).chanop)])]
    {
      ghost var r := Current(channel.State(), Entry(channel.State(), emitter).chanop);
      LoadCurrent(emitter, channel);
      FormatReplymodes(r);
      if replymodes == "" {
        replymodes := "+";
      }
      reply := [To(emitter, RplChannelModeIs, [channel.name, replymodes])];
    }

    // ---- execute ----

    /** _send_reply after a change: everybody with an entry is told. */
    method SendReply(emitter: int, channel: Channel) returns (reply: seq<Notice>)
      ensures reply == [Notice(emitter, {emitter} + channel.clients.Keys, [RplChangeMode], [channel.name, replymodes])]
    {
      var target := EverybodyIn(channel.clients, emitter);
      reply := [Notice(emitter, target, [RplChangeMode], [channel.name, replymodes])];
    }

    /** The slots answer every flag as the request does. */
    ghost predicate Says(r: Request)
      requires modeParams.Length == 3
      reads modeParams
    {
      forall f :: f in "klo" ==> SlotParam(f) == Param(r, f)
    }

    lemma HoldingSays(r: Request)
      requires Holds(r)
      ensures Says(r)
    {
      assert forall i :: 0 <= i < 3 ==> modeParams[i] == SlotOf(r, i);
      forall f | f in "klo" ensures SlotParam(f) == Param(r, f) {
        FirstIndex(r.bound, f);
      }
    }

    lemma SayingSupplies(r: Request)
      requires modeParams.Length == 3 && Says(r)
      ensures Supplies(r)
    {
      forall f | f in Takers(allChanmodes) ensures SlotParam(f) == Param(r, f) {
        TakersMembers(allChanmodes, f);
      }
    }

    /** _apply_mode_changes for an operator, as the server sees it. */
    method ApplyByOperator(emitter: int, channel: Channel, ghost r: Request)
      requires serv.Valid() && channel.name in serv.channelList && serv.channelList[channel.name] == channel
      requires modeParams.Length == 3 && Says(r) && allChanmodes == r.status && r.status.Keys == RESET.Keys
      modifies this`allChanmodes, channel, serv`msgs
      ensures serv.Valid() && Supplies(r)
      ensures allChanmodes == Apply(old(channel.State()), r, Whom(old(serv.Clients()))).status
      ensures serv.View() == AppliedTo(old(serv.View()), emitter, old(channel.name), old(channel.State()), r)
      ensures channel.State() == Apply(old(channel.State()), r, Whom(old(serv.Clients()))).chan
    {
      ghost var ch, clients, name := channel.State(), serv.Clients(), channel.name;
      ApplyChanges(emitter, channel);
      ChangedIsApply(ch, r, Whom(clients), channel.State(), allChanmodes);
      serv.AfterChange(name);
      SayingSupplies(r);
    }

    /** The end of execute: the announcement, if there is anything to announce. */
    method Announce(emitter: int, channel: Channel, ghost r: Request) returns (reply: seq<Notice>)
      requires modeParams.Length == 3 && Supplies(r)
      modifies this`replymodes
      ensures reply == Announcement(emitter, channel.State(), Print(allChanmodes, r))
      ensures serv.View() == old(serv.View()) && (old(serv.Valid()) ==> serv.Valid())
    {
      FormatReplymodes(r);
      reply := [];
      if replymodes != "" {
        reply := SendReply(emitter, channel);
      }
    }

    /** The request goes to the map and the slots. */
    method TakeRequest(emitter: int, rest: string)
      requires serv.Valid() && Holds(Request(RESET, [], []))
      modifies this`allChanmodes, modeParams, serv`msgs
      ensures modeParams.Length == 3 && Says(Parse(rest)) && allChanmodes == Parse(rest).status
      ensures Parse(rest).status.Keys == RESET.Keys
      ensures serv.Valid() && serv.View() == Parsed(old(serv.View()), emitter, rest)
    {
      var modes := GetModeParams(emitter, rest);
      FillModMaps(emitter, modes, Tokens(Parameters(rest), 0));
      HoldingSays(Parse(rest));
      FillKeys(modes, '+', Request(RESET, [], Tokens(Parameters(rest), 0)));
    }

    /** A client that is no operator: the request is forgotten. */
    method RefuseChanges(emitter: int, channel: Channel) returns (reply: seq<Notice>)
      requires modeParams.Length == 3
      modifies this, modeParams
      ensures reply == [To(emitter, ErrChanOPrivsNeeded, [channel.name])]
    {
      ResetModes();
      HoldingSays(Request(RESET, [], []));
      SayingSupplies(Request(RESET, [], []));
      FormatReplymodes(Request(RESET, [], []));
      NothingPrinted(Request(RESET, [], []));
      reply := [To(emitter, ErrChanOPrivsNeeded, [channel.name])];
      if replymodes != "" {
        reply := SendReply(emitter, channel);
      }
    }

    method OperatorChanges(emitter: int, rest: string, channel: Channel) returns (reply: seq<Notice>)
      requires serv.Valid() && channel.name in serv.channelList && serv.channelList[channel.name] == channel
      requires modeParams.Length == 3 && Says(Parse(rest))
      requires allChanmodes == Parse(rest).status && allChanmodes.Keys == RESET.Keys
      modifies this, channel, serv`msgs
      ensures serv.Valid()
      ensures serv.View() == AppliedTo(old(serv.View()), emitter, old(channel.name), old(channel.State()), Parse(rest))
      ensures reply
           == AnnouncementOf(emitter, Apply(old(channel.State()), Parse(rest), Whom(old(serv.Clients()))), Parse(rest))
    {
      ApplyByOperator(emitter, channel, Parse(rest));
      reply := Announce(emitter, channel, Parse(rest));
    }

    /** _apply_mode_changes and what follows it. */
    method ApplyModeChanges(emitter: int, rest: string, channel: Channel) returns (reply: seq<Notice>)
      requires serv.Valid() && channel.name in serv.channelList && serv.channelList[channel.name] == channel
      requires modeParams.Length == 3 && Says(Parse(rest))
      requires allChanmodes == Parse(rest).status && allChanmodes.Keys == RESET.Keys
      modifies this, modeParams, channel, serv`msgs
      ensures serv.Valid()
      ensures Result(serv.View(), reply)
           == Applying(old(serv.View()), emitter, old(channel.name), old(channel.State()), rest)
    {
      if emitter !in channel.clients || !channel.clients[emitter].chanop {
        reply := RefuseChanges(emitter, channel);
      } else {
        reply := OperatorChanges(emitter, rest, channel);
      }
    }

    /** execute on an existing channel, when the request starts with a sign. */
    method ChangeModes(emitter: int, rest: string, channel: Channel) returns (reply: seq<Notice>)
      requires serv.Valid() && channel.name in serv.channelList && serv.channelList[channel.name] == channel
      requires Holds(Request(RESET, [], []))
      modifies this, modeParams, channel, serv`msgs
      ensures serv.Valid()
      ensures Result(serv.View(), reply) == ModeChange(old(serv.View()), emitter, old(channel.name), rest)
    {
      ModeChangeBySteps(serv.View(), emitter, channel.name, rest);
      assert serv.View().channels[channel.name] == channel.State();
      TakeRequest(emitter, rest);
      reply := ApplyModeChanges(emitter, rest, channel);
    }

    /** execute on a name that is no channel; the client's own user modes are not modelled. */
    method NoChannel(emitter: int, param: string) returns (reply: seq<Notice>)
      requires ModeString(param) !in serv.channelList
      ensures Result(serv.View(), reply) == ModeCommand(serv.View(), emitter, param)
    {
      var name := ModeString(param);
      var client := serv.GetClientByNickname(name);
      if client == -1 {
        return [To(emitter, ErrNoSuchNick, [name])];
      }
      if client != emitter {
        return [To(emitter, ErrUsersDontMatch, [])];
      }
      return [];
    }

    /** The start of execute: nothing is left of the last request. */
    method StartOver()
      requires modeParams.Length == 3
      modifies this, modeParams
      ensures Holds(Request(RESET, [], []))
      ensures serv.View() == old(serv.View()) && (old(serv.Valid()) ==> serv.Valid())
    {
      replymodes := "";
      ResetModes();
    }

    /** execute on an existing channel. */
    method OnChannel(emitter: int, param: string, channel: Channel) returns (reply: seq<Notice>)
      requires serv.Valid() && channel.name in serv.channelList && serv.channelList[channel.name] == channel
      requires Holds(Request(RESET, [], [])) && channel.name == ModeString(param)
      modifies this, modeParams, channel, serv`msgs
      ensures serv.Valid()
      ensures Result(serv.View(), reply) == ModeCommand(old(serv.View()), emitter, param)
    {
      assert serv.View().channels[channel.name] == channel.State();
      var rest := Parameters(param);
      if ModeString(param) == param {
        reply := CurrentMode(emitter, channel);
      } else if rest == "b" {
        reply := [To(emitter, RplEndOfBanList, [channel.name])];
      } else if rest == "" || !IsSign(rest[0]) {
        reply := [To(emitter, ErrModeBadFormat, [])];
      } else {
        reply := ChangeModes(emitter, rest, channel);
      }
    }

    method Execute(emitter: int, param: string) returns (reply: seq<Notice>)
      requires serv.Valid() && modeParams.Length == 3
      modifies this, modeParams, serv`msgs, serv.channelList.Values
      ensures serv.Valid()
      ensures Result(serv.View(), reply) == ModeCommand(old(serv.View()), emitter, param)
    {
      StartOver();
      reply := ExecuteAfresh(emitter, param);
    }

    method ExecuteAfresh(emitter: int, param: string) returns (reply: seq<Notice>)
      requires serv.Valid() && Holds(Request(RESET, [], []))
      modifies this, modeParams, serv`msgs, serv.channelList.Values
      ensures serv.Valid()
      ensures Result(serv.View(), reply) == ModeCommand(old(serv.View()), emitter, param)
    {
      var channel := serv.GetChannelByName(ModeString(param));
      if channel == null {
        reply := NoChannel(emitter, param);
      } else {
        reply := OnChannel(emitter, param, channel);
      }
    }
  }

  /** The state once a request has been parsed: complaints have been queued. */
  ghost function Parsed(w: W.World, fd: int, rest: string): W.World
  {
    Complained(W.Push(w, TokenWarnings(fd, rest)), fd, Unknown(ModeString(rest)))
  }

  /** What applying a parsed request to a channel comes to. */
  ghost function Applying(w: W.World, fd: int, name: string, ch: Chan, rest: string): Result
  {
    if !Entry(ch, fd).chanop then Result(w, [To(fd, ErrChanOPrivsNeeded, [ch.name])])
    else OperatorResult(w, fd, name, ch, Parse(rest))
  }

  ghost function OperatorResult(w: W.World, fd: int, name: string, ch: Chan, r: Request): Result
  {
    var a := Apply(ch, r, Whom(w.clients));
    Result(AppliedTo(w, fd, name, ch, r), AnnouncementOf(fd, a, r))
  }

  lemma ModeChangeBySteps(w: W.World, fd: int, name: string, rest: string)
    requires name in w.channels && w.channels[name].name == name
    ensures ModeChange(w, fd, name, rest) == Applying(Parsed(w, fd, rest), fd, name, w.channels[name], rest)
  {
    var ch := w.channels[name];
    var tokens := TokenWarnings(fd, rest);
    var unknown := Commands.Repeated(To(fd, ErrUModeUnknownFlag, []), Unknown(ModeString(rest)));
    var more := if Entry(ch, fd).chanop then ApplyWarnings(w, fd, ch, Parse(rest)) else [];
    assert ModeWarnings(w, fd, ch, rest) == tokens + unknown + more;
    Assoc(w.queued, tokens, unknown);
    Assoc(w.queued, tokens + unknown, more);
    if !Entry(ch, fd).chanop {
      assert w.channels[name := ch] == w.channels;
      assert tokens + unknown + [] == tokens + unknown;
    }
  }

  /** The state after an operator's changes to a channel. */
  ghost function AppliedTo(w: W.World, fd: int, name: string, ch: Chan, r: Request): W.World
  {
    W.Push(W.WithChannel(w, Apply(ch, r, Whom(w.clients)).chan, name), ApplyWarnings(w, fd, ch, r))
  }

  function AnnouncementOf(fd: int, a: Applied, r: Request): seq<Notice>
  {
    Announcement(fd, a.chan, Print(a.status, r))
  }

  function Announcement(fd: int, ch: Chan, announced: string): seq<Notice>
  {
    if announced == "" then []
    else [Notice(fd, {fd} + ch.clients.Keys, [RplChangeMode], [ch.name, announced])]
  }

  lemma ChangedIsApply(ch: Chan, r: Request, whom: string -> int, after: Chan, left: StatusMap)
    requires r.status.Keys == RESET.Keys
    requires Changed(ch, r.status, Param(r, 'k'), Param(r, 'o'), whom(Param(r, 'o')), Param(r, 'l'), after, left)
    ensures Applied(after, left) == Apply(ch, r, whom)
  {
    var e := EffectsOf(ch, r, whom);
    var mid: Chan, rest: StatusMap :| Switched(ch, r.status, mid, rest)
      && Bound(mid, rest, Param(r, 'k'), Param(r, 'o'), whom(Param(r, 'o')), Param(r, 'l'), after, left);
    AllStatuses(r.status, e.i.status, e.t.status, e.k.status, e.o.status, e.l.status);
    assert left
        == r.status['i' := e.i.status]['t' := e.t.status]['k' := e.k.status]['o' := e.o.status]['l' := e.l.status];
    assert after == WithModes(ch, e);
  }

  lemma AllStatuses(m: StatusMap, i: Status, t: Status, k: Status, o: Status, l: Status)
    requires m.Keys == RESET.Keys
    ensures m['i' := i]['t' := t]['k' := k]['o' := o]['l' := l] == map['i' := i, 'k' := k, 'l' := l, 'o' := o, 't' := t]
  {
    var all := map['i' := i, 'k' := k, 'l' := l, 'o' := o, 't' := t];
    var set5 := m['i' := i]['t' := t]['k' := k]['o' := o]['l' := l];
    assert set5.Keys == all.Keys;
    assert set5['i'] == i && set5['k'] == k && set5['l'] == l && set5['o'] == o && set5['t'] == t;
  }

  lemma {:induction false} FillKeys(modes: string, sign: char, r: Request)
    requires r.status.Keys == RESET.Keys
    ensures Fill(modes, sign, r).status.Keys == RESET.Keys
  {
    if modes != "" {
      if IsSign(modes[0]) {
        FillKeys(modes[1..], modes[0], r);
      } else {
        FillKeys(modes[1..], sign, FillOne(r, sign, modes[0]));
      }
    }
  }

  lemma {:induction false} FirstIndex(bound: seq<char>, f: char)
    requires |bound| <= 3
    ensures IndexOf(bound, f) ==
      if |bound| > 0 && bound[0] == f then 0
      else if |bound| > 1 && bound[1] == f then 1
      else if |bound| > 2 && bound[2] == f then 2
      else |bound|
  {
    if |bound| > 0 {
      assert bound[1..] == bound[1..][..];
      if |bound| > 1 {
        assert bound[1..][0] == bound[1] && bound[1..][1..] == bound[2..];
        if |bound| > 2 {
          assert bound[2..][0] == bound[2] && bound[2..][1..] == [];
        }
      }
    }
  }

  lemma CurrentStatus(ch: Chan, operator: bool)
    ensures Current(ch, operator).status
         == RESET['i' := if ch.inviteOnly then Add else Unchanged]
                 ['t' := if ch.topicRestricted then Add else Unchanged]
                 ['k' := if ch.key != "" then Add else Unchanged]
                 ['l' := if ch.limit != NO_LIMIT then Add else Unchanged]
  {}

  lemma CurrentTakers(ch: Chan, operator: bool)
    ensures var r := Current(ch, operator);
      && (forall f :: f in Takers(r.status) <==> (f == 'k' && ch.key != "") || (f == 'l' && ch.limit != NO_LIMIT))
      && Param(r, 'k') == (if operator then ch.key else "*")
      && Param(r, 'l') == if ch.limit >= 0 then PrintInt(ch.limit) else ""
  {
    var r := Current(ch, operator);
    forall f ensures f in Takers(r.status) <==> (f == 'k' && ch.key != "") || (f == 'l' && ch.limit != NO_LIMIT) {
      CurrentTaker(ch, operator, f);
    }
    FirstIndex(r.bound, 'k');
    FirstIndex(r.bound, 'l');
  }

  // ---- the printer's marks ----

  /** The flags that are not unchanged, each behind its sign. */
  function MarksOf(m: StatusMap, flags: string): string
  {
    if flags == "" then ""
    else
      (match Get(m, flags[0]) case Add => "+" + [flags[0]] case Remove => "-" + [flags[0]] case Unchanged => "")
      + MarksOf(m, flags[1..])
  }

  lemma {:induction false} MarksStep(m: StatusMap, marks: string, flags: string, i: nat)
    requires i < |flags|
    ensures var rest := MarksOf(m, flags[i + 1..]);
      marks + MarksOf(m, flags[i..]) == match Get(m, flags[i])
        case Add => marks + "+" + [flags[i]] + rest
        case Remove => marks + "-" + [flags[i]] + rest
        case Unchanged => marks + rest
  {
    assert flags[i..][0] == flags[i] && flags[i..][1..] == flags[i + 1..];
  }

  /** The characters that stand behind a sign. */
  function Behind(marks: string, sign: char): string
  {
    if |marks| < 2 then "" else (if marks[0] == sign then [marks[1]] else "") + Behind(marks[1..], sign)
  }

  lemma {:induction false} BehindStep(marks: string, sign: char, picked: string, j: nat)
    requires j < |marks| && IsSign(sign) && !IsSign(marks[|marks| - 1])
    ensures marks[j] == sign ==> j + 1 < |marks|
    ensures picked + Behind(marks[j..], sign)
         == (if marks[j] == sign then picked + [marks[j + 1]] else picked) + Behind(marks[j + 1..], sign)
  {
    assert marks[j..][1..] == marks[j + 1..];
  }

  /** What has been picked stands behind a sign. */
  lemma {:induction false} PickedBehind(picked: string, marks: string, sign: char, j: nat)
    requires j < |marks| && picked + Behind(marks[j + 1..], sign) == Behind(marks, sign)
    ensures forall f :: f in picked ==> f in Behind(marks, sign)
  {
    assert picked == Behind(marks, sign)[..|picked|];
  }

  /** Where a scan stands: the flags picked are written, with their parameters. */
  ghost predicate Scanned(sign: char, picked: string, tmp0: string, suffix0: string, r: Request,
                          tmp: string, suffix: string)
  {
    && tmp == tmp0 + Signed(sign, picked)
    && suffix == suffix0 + Suffix(Taking(sign, picked), r)
    && (sign in tmp <==> picked != "")
  }

  lemma {:induction false} ScannedMore(sign: char, picked: string, flag: char, tmp0: string, suffix0: string,
                                       r: Request, tmp: string, suffix: string)
    requires Scanned(sign, picked, tmp0, suffix0, r, tmp, suffix) && sign !in tmp0
    ensures Scanned(sign, picked + [flag], tmp0, suffix0, r,
                    (if sign in tmp then tmp else tmp + [sign]) + [flag], suffix + Suffix(Taking(sign, [flag]), r))
  {
    SignedMore(sign, picked, flag, tmp0);
    TakingConcat(sign, picked, [flag]);
    SuffixConcat(Taking(sign, picked), Taking(sign, [flag]), r);
    Assoc(suffix0, Suffix(Taking(sign, picked), r), Suffix(Taking(sign, [flag]), r));
  }

  lemma SignedMore(sign: char, picked: string, flag: char, tmp0: string)
    ensures var tmp := tmp0 + Signed(sign, picked);
      && (if picked != "" then tmp else tmp + [sign]) + [flag] == tmp0 + Signed(sign, picked + [flag])
      && sign in tmp0 + Signed(sign, picked + [flag])
  {
    if picked == "" {
      assert picked + [flag] == [flag];
    } else {
      Assoc([sign], picked, [flag]);
    }
    assert Signed(sign, picked + [flag])[0] == sign;
  }

  lemma {:induction false} SuffixOne(sign: char, flag: char, r: Request)
    ensures Suffix(Taking(sign, [flag]), r) == if TakesParam(sign, flag) then " " + Param(r, flag) else ""
  {
    assert [flag][1..] == "";
  }

  /** Read back, the marks give the flags by status. */
  lemma {:induction false} MarksShow(m: StatusMap, flags: string)
    requires forall f :: f in flags ==> !IsSign(f)
    ensures Behind(MarksOf(m, flags), '+') == Picked(m, Add, flags)
    ensures Behind(MarksOf(m, flags), '-') == Picked(m, Remove, flags)
    ensures var marks := MarksOf(m, flags); marks == "" || !IsSign(marks[|marks| - 1])
  {
    MarksShowOne(m, flags, '+');
    MarksShowOne(m, flags, '-');
    MarksEnd(m, flags);
  }

  lemma {:induction false} MarksEnd(m: StatusMap, flags: string)
    requires forall f :: f in flags ==> !IsSign(f)
    ensures var marks := MarksOf(m, flags); marks == "" || !IsSign(marks[|marks| - 1])
  {
    if flags != "" {
      assert flags[0] in flags;
      MarksEnd(m, flags[1..]);
    }
  }

  lemma {:induction false} MarksShowOne(m: StatusMap, flags: string, sign: char)
    requires IsSign(sign) && forall f :: f in flags ==> !IsSign(f)
    ensures Behind(MarksOf(m, flags), sign) == Picked(m, StatusOf(sign), flags)
  {
    if flags != "" {
      assert flags[0] in flags;
      var rest := MarksOf(m, flags[1..]);
      MarksShowOne(m, flags[1..], sign);
      match Get(m, flags[0])
      case Add => BehindTwo('+', flags[0], rest, sign);
      case Remove => BehindTwo('-', flags[0], rest, sign);
      case Unchanged => EmptyPrefix(rest);
    }
  }

  lemma {:induction false} BehindTwo(mark: char, flag: char, rest: string, sign: char)
    requires IsSign(mark) && IsSign(sign) && !IsSign(flag)
    ensures Behind([mark] + [flag] + rest, sign) == (if sign == mark then [flag] else "") + Behind(rest, sign)
  {
    assert ([mark] + [flag] + rest)[1..] == [flag] + rest && ([flag] + rest)[1..] == rest;
  }

  lemma {:induction false} PrintedFlags(m: StatusMap)
    ensures forall f :: f in Picked(m, Add, FLAGS) ==> !IsSign(f) && (TakesParam('+', f) ==> f in Takers(m))
    ensures forall f :: f in Picked(m, Remove, FLAGS) ==> !IsSign(f) && (TakesParam('-', f) ==> f in Takers(m))
    ensures forall f :: f in FLAGS ==> !IsSign(f)
  {
    forall f
      ensures f in Picked(m, Add, FLAGS) ==> !IsSign(f) && (TakesParam('+', f) ==> f in Takers(m))
      ensures f in Picked(m, Remove, FLAGS) ==> !IsSign(f) && (TakesParam('-', f) ==> f in Takers(m))
    {
      PickedMembers(m, Add, FLAGS, f);
      PickedMembers(m, Remove, FLAGS, f);
      TakersMembers(m, f);
    }
  }

  lemma NoMinusYet(plus: string)
    requires forall f :: f in plus ==> !IsSign(f)
    ensures '-' !in "" + Signed('+', plus)
  {}

  /** The channel and the statuses after 'i' and 't'. */
  ghost predicate Switched(ch: Chan, m: StatusMap, after: Chan, left: StatusMap) {
    var i, t := ApplySwitch(ch.inviteOnly, Get(m, 'i')), ApplySwitch(ch.topicRestricted, Get(m, 't'));
    && after == ch.(inviteOnly := i.value, topicRestricted := t.value)
    && left == m['i' := i.status]['t' := t.status]
  }

  /** The channel and the statuses after 'k', 'o' and 'l'. */
  ghost predicate Bound(ch: Chan, m: StatusMap, key: string, nick: string, client: int, limit: string,
                        after: Chan, left: StatusMap)
  {
    var k := ApplyKey(ch.key, Get(m, 'k'), key);
    var o := ApplyOperator(ch.clients, Get(m, 'o'), nick, client);
    var l := ApplyLimit(ch.limit, Get(m, 'l'), limit);
    && after == ch.(key := k.value, clients := o.value, limit := l.value)
    && left == m['k' := k.status]['o' := o.status]['l' := l.status]
  }

  /** The channel and the statuses after all five. */
  ghost predicate Changed(ch: Chan, m: StatusMap, key: string, nick: string, client: int, limit: string,
                          after: Chan, left: StatusMap)
  {
    exists mid: Chan, rest: StatusMap ::
      Switched(ch, m, mid, rest) && Bound(mid, rest, key, nick, client, limit, after, left)
  }

  function ParamWarnings(ch: Chan, m: StatusMap, fd: int, key: string, nick: string, client: int, limit: string)
    : seq<Notice>
  {
    KeyWarnings(fd, Get(m, 'k'), key)
    + OperatorWarnings(client, fd, ch, Get(m, 'o'), nick)
    + LimitWarnings(fd, Get(m, 'l'), limit)
  }

  lemma SwitchesWarnNobody(ch: Chan, m: StatusMap, after: Chan, left: StatusMap,
                           fd: int, key: string, nick: string, client: int, limit: string)
    requires Switched(ch, m, after, left)
    ensures ParamWarnings(after, left, fd, key, nick, client, limit)
         == ParamWarnings(ch, m, fd, key, nick, client, limit)
  {}

  /** The slots' flags are among those that take a parameter, each once. */
  ghost predicate BoundOk(bound: seq<char>) {
    Distinct(bound) && forall c :: c in bound ==> c in "klo"
  }

  lemma BoundRoom(bound: seq<char>, flag: char)
    requires BoundOk(bound) && flag in "klo"
    ensures BoundOk(Bind(bound, flag)) && flag != FREE && (flag in bound || |bound| < 3)
  {
    if flag !in bound {
      assert Distinct(bound + [flag]);
      ThreeSlots(bound + [flag]);
    }
  }

  lemma FillOneBound(r: Request, sign: char, flag: char)
    requires BoundOk(r.bound)
    ensures BoundOk(FillOne(r, sign, flag).bound)
  {
    if TakesParam(sign, flag) {
      BoundRoom(r.bound, flag);
    }
  }

  function FlagWarnings(fd: int, flag: char): seq<Notice>
  {
    if IsFlag(flag) then [] else [To(fd, ErrUModeUnknownFlag, [])]
  }

  lemma NothingPushed(w: W.World)
    ensures W.Push(w, []) == w
  {}

  /** The state once some unknown flags have been complained about. */
  ghost function Complained(w: W.World, fd: int, unknown: nat): W.World
  {
    W.Push(w, Commands.Repeated(To(fd, ErrUModeUnknownFlag, []), unknown))
  }

  lemma {:induction false} RepeatedMore(n: Notice, count: nat)
    ensures Commands.Repeated(n, count) + [n] == Commands.Repeated(n, count + 1)
  {
    if count == 0 {
      assert [n] + Commands.Repeated(n, 0) == [n];
    } else {
      RepeatedMore(n, count - 1);
    }
  }

  lemma OneMoreComplaint(w: W.World, fd: int, unknown: nat, flag: char)
    ensures W.Push(Complained(w, fd, unknown), FlagWarnings(fd, flag))
         == Complained(w, fd, unknown + if IsFlag(flag) then 0 else 1)
  {
    var n := To(fd, ErrUModeUnknownFlag, []);
    RepeatedMore(n, unknown);
    Assoc(w.queued, Commands.Repeated(n, unknown), [n]);
    NothingPushed(Complained(w, fd, unknown));
  }

  function SlotOf(r: Request, i: nat): Slot
  {
    Slot(if i < |r.bound| then r.bound[i] else FREE, if i < |r.tokens| then r.tokens[i] else "")
  }

  lemma NextToken(tokens: seq<string>, left: string, i: nat)
    requires i < 3 && ' ' in left
    ensures var p := Find(left, ' ');
      && tokens + Tokens(left, i) == tokens + [left[..p]] + (if i == 2 then [] else Tokens(left[p + 1..], i + 1))
      && TooMany(left, i) == (i == 2 || TooMany(left[p + 1..], i + 1))
  {
    var p := Find(left, ' ');
    FirstToken(left, i);
    MoreTokens(left, i);
    Assoc(tokens, [left[..p]], if i == 2 then [] else Tokens(left[p + 1..], i + 1));
  }

  lemma FirstToken(left: string, i: nat)
    requires i < 3 && ' ' in left
    ensures var p := Find(left, ' ');
      Tokens(left, i) == [left[..p]] + if i == 2 then [] else Tokens(left[p + 1..], i + 1)
  {}

  lemma MoreTokens(left: string, i: nat)
    requires i < 3 && ' ' in left
    ensures TooMany(left, i) == (i == 2 || TooMany(left[Find(left, ' ') + 1..], i + 1))
  {}
}
