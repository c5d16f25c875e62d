/** QUIT as the server runs it. */
module Quitting {
  import opened Ordering
  import opened Channels
  import W = World
  import opened Commands
  import opened Servers
  import opened Parting
  import opened Runs

  class Quit {
    const serv: Server
    var manualQuit: bool

    constructor (serv: Server)
      ensures this.serv == serv && manualQuit
    {
      this.serv := serv;
      manualQuit := true;
    }

    /** One turn of the outer loop: the members left are added to those to be told. */
    method LeaveChannel(client: int, name: string, told: set<int>) returns (target: set<int>)
      requires serv.Valid() && name in serv.channelList && name in serv.View().channels
      modifies serv`msgs, serv.channelList[name]
      ensures serv.Valid()
      ensures Leaving(serv.View(), target) == LeaveOne(Leaving(old(serv.View()), told), client, name)
    {
      var channel := serv.channelList[name];
      assert serv.View().channels[name] == channel.State();
      target := told;
      if client in channel.clients && channel.clients[client].member {
        serv.RemoveFrom(name, channel, client);
        target := CollectMembers(channel.clients, told);
        assert target == told + Members(channel.State());
      }
    }

    /** The loops of leave_all_channels. */
    method LeaveEachChannel(client: int, order: seq<string>) returns (target: set<int>)
      requires serv.Valid() && forall n :: n in order ==> n in serv.channelList && n in serv.View().channels
      modifies serv`msgs, serv.channelList.Values
      ensures serv.Valid()
      ensures Leaving(serv.View(), target) == LeaveEach(Leaving(old(serv.View()), {}), client, order)
    {
      target := {};
      var i := 0;
      while i < |order|
        invariant 0 <= i <= |order|
        invariant serv.Valid() && forall n :: n in order ==> n in serv.View().channels
        invariant LeaveEach(Leaving(serv.View(), target), client, order[i..])
               == LeaveEach(Leaving(old(serv.View()), {}), client, order)
      {
        assert order[i] in order;
        assert order[i..][0] == order[i] && order[i..][1..] == order[i + 1..];
        target := LeaveChannel(client, order[i], target);
        i := i + 1;
      }
    }

    /** leave_all_channels */
    method LeaveAllChannels(client: int, comment: string)
      requires serv.Valid()
      modifies serv`msgs, serv.channelList.Values
      ensures serv.Valid() && serv.View() == LeaveAll(old(serv.View()), client, comment)
    {
      assert serv.View().channels.Keys == serv.channelList.Keys;
      var order := Names(serv.channelList.Keys);
      NamesEnumerate(serv.channelList.Keys);
      var target := LeaveEachChannel(client, order);
      if |target| > 0 {
        serv.PushBack(Notice(client, target, [RplQuit], [comment]));
      }
    }

    /** The first part of execute: only a registered client leaves its channels. */
    method LeaveIfRegistered(client: int, comment: string)
      requires serv.Valid() && client in serv.clientList
      modifies serv`msgs, serv.channelList.Values
      ensures serv.Valid() && serv.View() == Left(old(serv.View()), client, comment)
    {
      assert serv.View().clients[client] == serv.clientList[client].State();
      if serv.clientList[client].isRegistered {
        LeaveAllChannels(client, comment);
      }
    }

    /** execute: QUIT by the client. */
    method Execute(emitter: int, param: string) returns (reply: seq<Notice>)
      requires serv.Valid() && emitter in serv.clientList && manualQuit
      modifies serv`msgs, serv.channelList.Values
      ensures serv.Valid()
      ensures Result(serv.View(), reply) == QuitCommand(old(serv.View()), emitter, param)
    {
      LeaveIfRegistered(emitter, "Quit: " + param);
      reply := [Notice(serv.socket, {emitter}, [RplError], [QUIT_MANUAL])];
    }

    /** What receive_messages does before it executes QUIT for a client. */
    method SetManual(manual: bool)
      modifies this
      ensures manualQuit == manual
      ensures serv.View() == old(serv.View()) && (old(serv.Valid()) ==> serv.Valid())
    {
      manualQuit := manual;
    }

    /** execute once manual_quit has been unset: the connection is gone. */
    method ExecuteForServer(emitter: int)
      requires serv.Valid() && emitter in serv.clientList && !manualQuit
      modifies this, serv`msgs, serv`clientList, serv.channelList.Values
      ensures serv.Valid() && manualQuit
      ensures serv.View() == QuitByServer(old(serv.View()), emitter)
    {
      LeaveIfRegistered(emitter, "Quit: ");
      serv.DelClient(emitter);
      SetManual(true);
    }
  }

  ghost function Left(w: W.World, fd: int, comment: string): W.World
  {
    if fd in w.clients && w.clients[fd].registered then LeaveAll(w, fd, comment) else w
  }
}
