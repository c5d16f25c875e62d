/** The objects the commands work on: clients, channels and the server that owns them. */
module Servers {
  import opened Ordering
  import opened Channels
  import W = World
  import opened Registration

  class Client {
    var nickname: string
    var username: string
    var realname: string
    var host: string
    var isAuthenticated: bool
    var isRegistered: bool

    function State(): W.Client
      reads this
    {
      W.Client(nickname, username, realname, host, isAuthenticated, isRegistered)
    }

    constructor ()
      ensures State() == W.Client("", "", "", "", false, false)
    {
      nickname, username, realname, host := "", "", "", "";
      isAuthenticated, isRegistered := false, false;
    }
  }

  class Channel {
    var name: string
    var topic: string
    var topicAuthor: string
    var topicDate: string
    var key: string
    var isInviteOnly: bool
    var isTopicRestricted: bool
    var memberLimit: int
    var clients: map<int, Bits>

    function State(): Chan
      reads this
    {
      Chan(name, topic, topicAuthor, topicDate, key, isInviteOnly, isTopicRestricted, memberLimit, clients)
    }

    constructor (creator: int, newName: string)
      ensures State() == NewChan(creator, newName)
    {
      name, topic, topicAuthor, topicDate, key := newName, "", "", "", "";
      isInviteOnly, isTopicRestricted, memberLimit := false, true, -1;
      clients := map[creator := Bits(false, true, true)];
    }

    /** Some entry, member or not, is operator. */
    method AreThereOtherChanops() returns (found: bool)
      ensures found <==> Operators(State()) != {}
    {
      var order := Fds(clients.Keys);
      FdsEnumerate(clients.Keys);
      var i := 0;
      while i < |order|
        invariant 0 <= i <= |order|
        invariant forall j :: 0 <= j < i ==> order[j] !in Operators(State())
      {
        FdsMember(clients.Keys, i);
        if clients[order[i]].chanop {
          assert order[i] in Operators(State());
          return true;
        }
        i := i + 1;
      }
      forall fd ensures fd !in Operators(State()) {
        assert fd in order <==> fd in clients;
      }
      return false;
    }

    /** The first member in map order becomes operator and is told. */
    method AssignNextChanop(serv: Server)
      modifies this`clients, serv`msgs
      ensures Members(old(State())) == {} ==> State() == old(State()) && serv.msgs == old(serv.msgs)
      ensures Members(old(State())) != {} ==>
        && State() == Promote(old(State()), FirstMember(old(State())))
        && serv.msgs == old(serv.msgs) + [To(FirstMember(old(State())), RplYoureChanop, [name])]
    {
      var order := Fds(clients.Keys);
      FdsEnumerate(clients.Keys);
      var i := 0;
      while i < |order|
        invariant 0 <= i <= |order|
        invariant clients == old(clients) && serv.msgs == old(serv.msgs)
        invariant forall j :: 0 <= j < i ==> order[j] !in Members(State())
      {
        FdsMember(clients.Keys, i);
        var fd := order[i];
        if clients[fd].member {
          FirstInOrder(State(), order, i);
          clients := clients[fd := clients[fd].(chanop := true)];
          serv.msgs := serv.msgs + [To(fd, RplYoureChanop, [name])];
          return;
        }
        i := i + 1;
      }
      forall fd ensures fd !in Members(State()) {
        assert fd in order <==> fd in clients;
      }
    }

    /** A member operator that leaves no operator behind is succeeded by the first member left. */
    method DelClient(client: int, serv: Server)
      modifies this`clients, serv`msgs
      ensures State() == Channels.DelClient(old(State()), client).chan
      ensures serv.msgs == old(serv.msgs) + PromotionNotices(Channels.DelClient(old(State()), client))
    {
      ghost var before := State();
      if client !in clients {
        assert clients - {client} == clients;
        return;
      }
      if clients[client].member {
        clients := clients[client := clients[client].(member := false)];
        if clients[client].chanop {
          clients := clients[client := clients[client].(chanop := false)];
          ClearedCounts(before, State(), client);
          var others := AreThereOtherChanops();
          if !others {
            AssignNextChanop(serv);
          }
        }
      }
      clients := clients - {client};
    }
  }

  /** The first member met in ascending order is the lowest. */
  lemma FirstInOrder(ch: Chan, order: seq<int>, i: nat)
    requires order == Fds(ch.clients.Keys) && i < |order| && order[i] in Members(ch)
    requires forall j :: 0 <= j < i ==> order[j] !in Members(ch)
    ensures Members(ch) != {} && FirstMember(ch) == order[i]
  {
    FdsEnumerate(ch.clients.Keys);
    forall m | m in Members(ch) ensures order[i] <= m {
      assert m in order;
    }
    FdsHead(Members(ch), order[i]);
  }

  /** While its entry is cleared but not yet erased, the leaving client counts as neither member nor
      operator. */
  lemma ClearedCounts(ch: Chan, cleared: Chan, client: int)
    requires client in ch.clients && client in cleared.clients
    requires cleared == ch.(clients := ch.clients[client := cleared.clients[client]])
    requires !cleared.clients[client].member && !cleared.clients[client].chanop
    ensures Members(cleared) == Members(Without(ch, client))
    ensures Operators(cleared) == Operators(Without(ch, client))
    ensures Without(cleared, client) == Without(ch, client)
  {
    assert Without(cleared, client).clients == Without(ch, client).clients;
  }

  class Server {
    const socket: int
    const password: string
    var clientList: map<int, Client>
    var channelList: map<string, Channel>
    var msgs: seq<Notice>

    /** Every client and every channel is an object of its own, and every channel stands under its
        own legal name. */
    ghost predicate Valid()
      reads this, channelList.Values
    {
      && (forall a, b :: a in clientList && b in clientList && a != b ==> clientList[a] != clientList[b])
      && (forall a, b :: a in channelList && b in channelList && a != b ==> channelList[a] != channelList[b])
      && (forall n :: n in channelList ==> channelList[n].name == n && W.ChannelNameAllowed(n))
    }

    ghost function Clients(): map<int, W.Client>
      reads this, clientList.Values
    {
      map fd | fd in clientList :: clientList[fd].State()
    }

    ghost function Chans(): map<string, Chan>
      reads this, channelList.Values
    {
      map n | n in channelList :: channelList[n].State()
    }

    ghost function View(): W.World
      reads this, clientList.Values, channelList.Values
    {
      W.World(socket, password, Clients(), Chans(), msgs)
    }

    constructor (socket: int, password: string)
      ensures Valid() && View() == W.World(socket, password, map[], map[], [])
    {
      this.socket, this.password := socket, password;
      clientList, channelList, msgs := map[], map[], [];
    }

    /** msgs.push_back(message) */
    method PushBack(message: Notice)
      modifies this`msgs
      ensures old(Valid()) ==> Valid()
      ensures View() == W.Push(old(View()), [message])
    {
      msgs := msgs + [message];
    }

    /** The message goes to the queue if the command has left a reply in it. */
    method PushReply(reply: seq<Notice>)
      modifies this`msgs
      ensures old(Valid()) ==> Valid()
      ensures View() == W.Push(old(View()), reply)
    {
      msgs := msgs + reply;
    }

    /** add_client, once accept has given the descriptor: an existing entry stays. */
    method AddClient(fd: int)
      requires Valid()
      modifies this`clientList
      ensures Valid()
      ensures View() == if fd < 0 || fd in old(View()).clients then old(View())
                        else Update(old(View()), fd, W.Client("", "", "", "", false, false))
    {
      if fd < 0 || fd in clientList {
        return;
      }
      var client := new Client();
      clientList := clientList[fd := client];
      assert Clients() == old(Clients())[fd := client.State()];
    }

    /** del_client */
    method DelClient(fd: int)
      requires Valid()
      modifies this`clientList
      ensures Valid() && View() == old(View()).(clients := old(View()).clients - {fd})
    {
      clientList := clientList - {fd};
      assert Clients() == old(Clients()) - {fd};
    }

    method GetClientByNickname(nickname: string) returns (fd: int)
      ensures fd == W.ClientByNick(Clients(), nickname)
    {
      var order := Fds(clientList.Keys);
      FdsEnumerate(clientList.Keys);
      var i := 0;
      while i < |order|
        invariant 0 <= i <= |order|
        invariant forall j :: 0 <= j < i ==> order[j] in clientList && clientList[order[j]].nickname != nickname
      {
        FdsMember(clientList.Keys, i);
        if clientList[order[i]].nickname == nickname {
          assert Clients().Keys == clientList.Keys;
          FirstNamed(Clients(), nickname, order, i);
          return order[i];
        }
        i := i + 1;
      }
      assert Clients().Keys == clientList.Keys;
      NobodyNamed(Clients(), nickname, order);
      return -1;
    }

    method GetChannelByName(name: string) returns (channel: Channel?)
      ensures channel == null <==> name !in channelList
      ensures channel != null ==> channel == channelList[name]
    {
      if name !in channelList {
        return null;
      }
      return channelList[name];
    }

    /** register_client_if_able */
    method RegisterClientIfAble(client: int)
      requires Valid() && client in clientList
      modifies this`msgs, clientList[client]
      ensures Valid() && View() == RegisterIfAble(old(View()), client)
    {
      var check := clientList[client];
      if check.isRegistered || check.nickname == "" || (check.realname == "" && check.username == "") {
        return;
      }
      check.isRegistered := true;
      msgs := msgs + [To(client, RplWelcomeBurst, [check.nickname, check.host])];
      AfterClientChange(client);
    }

    /** What the server's state is after a change of one client and the queue. */
    twostate lemma AfterClientChange(fd: int)
      requires Valid() && clientList == old(clientList) && channelList == old(channelList) && fd in clientList
      requires unchanged(clientList.Values - {clientList[fd]}) && unchanged(channelList.Values)
      ensures View() == Update(old(View()), fd, clientList[fd].State()).(queued := msgs)
    {
      OneClientChanged(fd);
      forall n | n in channelList ensures Chans()[n] == old(Chans()[n]) {
        assert channelList[n] in channelList.Values;
      }
      assert Chans() == old(Chans());
    }

    /** What the server's state is after a change of one client object. */
    twostate lemma OneClientChanged(fd: int)
      requires Valid() && clientList == old(clientList) && fd in clientList
      requires unchanged(clientList.Values - {clientList[fd]})
      ensures Clients() == old(Clients())[fd := clientList[fd].State()]
    {
      forall n | n in clientList && n != fd ensures Clients()[n] == old(Clients()[n]) {
        assert clientList[n] in clientList.Values - {clientList[fd]};
      }
    }

    /** channel->del_client(client, serv), as the server sees it. */
    method RemoveFrom(name: string, channel: Channel, client: int)
      requires Valid() && name in channelList && channelList[name] == channel
      modifies channel`clients, this`msgs
      ensures Valid() && View() == Removed(old(View()), name, client)
      ensures channel.State() == Channels.DelClient(old(channel.State()), client).chan
    {
      channel.DelClient(client, this);
      AfterChange(name);
    }

    /** channel->_clients[client] = entry, as the server sees it. */
    method SetEntry(name: string, channel: Channel, client: int, entry: Bits)
      requires Valid() && name in channelList && channelList[name] == channel
      modifies channel`clients
      ensures Valid() && channel.State() == WithEntry(old(channel.State()), client, entry)
      ensures View() == W.WithChannel(old(View()), channel.State(), name)
    {
      channel.clients := channel.clients[client := entry];
      AfterChange(name);
    }

    /** _channel_list.insert */
    method Insert(name: string, channel: Channel)
      requires Valid() && name !in channelList && channel !in channelList.Values
      requires channel.name == name && W.ChannelNameAllowed(name)
      modifies this`channelList
      ensures Valid() && name in channelList && channelList[name] == channel
      ensures channelList.Values <= old(channelList.Values) + {channel}
      ensures View() == W.WithChannel(old(View()), channel.State(), name)
    {
      forall n | n in channelList ensures channelList[n] != channel {
        assert channelList[n] in channelList.Values;
      }
      channelList := channelList[name := channel];
      assert Chans() == old(Chans())[name := channel.State()];
    }

    /** What the server's state is after a change of one channel and the queue. */
    twostate lemma AfterChange(name: string)
      requires Valid() && channelList == old(channelList) && clientList == old(clientList) && name in channelList
      requires unchanged(channelList.Values - {channelList[name]}) && unchanged(clientList.Values)
      ensures View() == W.WithChannel(old(View()), channelList[name].State(), name).(queued := msgs)
    {
      OneChannelChanged(name);
      forall fd | fd in clientList ensures Clients()[fd] == old(Clients()[fd]) {
        assert clientList[fd] in clientList.Values;
      }
      assert Clients() == old(Clients());
    }

    /** What the server's state is after a change of one channel object. */
    twostate lemma OneChannelChanged(name: string)
      requires Valid() && channelList == old(channelList) && name in channelList
      requires unchanged(channelList.Values - {channelList[name]})
      ensures Chans() == old(Chans())[name := channelList[name].State()]
    {
      forall n | n in channelList && n != name ensures Chans()[n] == old(Chans()[n]) {
        assert channelList[n] in channelList.Values - {channelList[name]};
      }
    }
  }

  function WithEntry(ch: Chan, client: int, entry: Bits): Chan
  {
    ch.(clients := ch.clients[client := entry])
  }

  /** A state whose channel has lost a client; a new operator has been told. */
  ghost function Removed(w: W.World, name: string, client: int): W.World
    requires name in w.channels
  {
    var r := Channels.DelClient(w.channels[name], client);
    W.Push(W.WithChannel(w, r.chan, name), PromotionNotices(r))
  }

  lemma FirstNamed(clients: map<int, W.Client>, nickname: string, order: seq<int>, i: nat)
    requires order == Fds(clients.Keys) && i < |order| && order[i] in clients && clients[order[i]].nick == nickname
    requires forall j :: 0 <= j < i ==> order[j] in clients && clients[order[j]].nick != nickname
    ensures W.ClientByNick(clients, nickname) == order[i]
  {
    FdsEnumerate(clients.Keys);
    var found := set fd | fd in clients && clients[fd].nick == nickname;
    assert order[i] in found;
    forall fd | fd in found ensures order[i] <= fd {
      assert fd in order;
    }
    assert Least(found, FdLess) in found;
  }

  lemma NobodyNamed(clients: map<int, W.Client>, nickname: string, order: seq<int>)
    requires order == Fds(clients.Keys)
    requires forall j :: 0 <= j < |order| ==> order[j] in clients && clients[order[j]].nick != nickname
    ensures W.ClientByNick(clients, nickname) == -1
  {
    FdsEnumerate(clients.Keys);
    forall fd | fd in clients ensures clients[fd].nick != nickname {
      assert fd in order;
    }
  }
}
