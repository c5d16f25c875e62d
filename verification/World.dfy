/** The server's state as the commands see it, and its lookups. */
module World {
  import opened Strings
  import opened Ordering
  import opened Channels

  datatype Client = Client(
    nick: string, user: string, realname: string, host: string,
    authenticated: bool, registered: bool)

  /** queued holds every notice the commands have pushed, in order; sending is modelled apart. */
  datatype World = World(
    socket: int, password: string,
    clients: map<int, Client>,
    channels: map<string, Chan>,
    queued: seq<Notice>)

  function Push(w: World, notices: seq<Notice>): World
  {
    w.(queued := w.queued + notices)
  }

  function WithChannel(w: World, ch: Chan, name: string): World
  {
    w.(channels := w.channels[name := ch])
  }

  /** get_client_by_nickname: the lowest descriptor with that nickname, or -1. */
  function ClientByNick(clients: map<int, Client>, nick: string): int
  {
    var found := set fd | fd in clients && clients[fd].nick == nick;
    if found == {} then -1 else Least(found, FdLess)
  }

  function NickOf(w: World, fd: int): string
  {
    if fd in w.clients then w.clients[fd].nick else ""
  }

  /** The characters of NICK_GOOD_CHARACTERS. */
  predicate GoodCharacter(c: char) {
    'a' <= c <= 'z' || 'A' <= c <= 'Z' || '0' <= c <= '9' || c in "-[]\\`_{}|"
  }

  const NICK_GOOD_CHARACTERS :=
    "abcdefghijklmnopqrstuvwxyz" + ("ABCDEFGHIJKLMNOPQRSTUVWXYZ" + ("0123456789" + "-[]\\`_{}|"))

  lemma Consecutive(s: string, first: char, c: char)
    requires first as int + |s| < 0xD800
    requires forall i :: 0 <= i < |s| ==> s[i] as int == first as int + i
    ensures c in s <==> first <= c && c as int < first as int + |s|
  {
    if first <= c && c as int < first as int + |s| {
      assert s[c as int - first as int] == c;
    }
  }

  /** The ranges are the characters listed. */
  lemma GoodCharacterExact(c: char)
    ensures GoodCharacter(c) <==> c in NICK_GOOD_CHARACTERS
  {
    Consecutive("abcdefghijklmnopqrstuvwxyz", 'a', c);
    Consecutive("ABCDEFGHIJKLMNOPQRSTUVWXYZ", 'A', c);
    Consecutive("0123456789", '0', c);
  }

  /** is_channel_name_allowed, for a name that is not empty. */
  predicate ChannelNameAllowed(name: string) {
    && name != ""
    && (name[0] == '#' || name[0] == '&')
    && forall i :: 1 <= i < |name| ==> GoodCharacter(name[i])
  }

  /** The limits of a legal channel name. */
  lemma ChannelNameLimits()
    ensures ChannelNameAllowed("#") && ChannelNameAllowed("&")
    ensures ChannelNameAllowed("#a-9") && ChannelNameAllowed("&[x]")
    ensures !ChannelNameAllowed("") && !ChannelNameAllowed("a") && !ChannelNameAllowed("+a")
    ensures !ChannelNameAllowed("##") && !ChannelNameAllowed("#a b") && !ChannelNameAllowed("#a,b")
  {
    assert "##"[1] == '#' && "#a b"[2] == ' ' && "#a,b"[2] == ',';
  }

  /** Allowed names hold neither a comma nor a space. */
  lemma AllowedNamesAreTokens(name: string)
    requires ChannelNameAllowed(name)
    ensures ',' !in name && ' ' !in name
  {
    assert !GoodCharacter(',') && !GoodCharacter(' ');
  }
}
