/** check_for_cmds: the registration gate and the command table, refining one step of a run. */
module Dispatching {
  import opened Channels
  import W = World
  import opened Commands
  import opened Registration
  import opened Servers
  import opened Registering
  import opened Joining
  import opened Parting
  import opened Kicking
  import opened Inviting
  import opened Quitting
  import opened ModeEngine
  import opened Messaging
  import opened Targets
  import opened Runs

  class Dispatcher {
    const serv: Server
    const pass: Pass
    const nick: Nick
    const user: User
    const join: Join
    const part: Part
    const kick: Kick
    const invite: Inviting.Invite
    const quit: Quit
    const mode: Mode
    const privmsg: Privmsg

    /** Every command works on the same server and is ready for the next message. */
    ghost predicate Ready()
      reads quit
    {
      && pass.serv == serv && nick.serv == serv && user.serv == serv
      && join.serv == serv && part.serv == serv && join.part == part && kick.serv == serv
      && invite.serv == serv && quit.serv == serv && mode.serv == serv
      && privmsg.serv == serv
      && mode.modeParams.Length == 3 && quit.manualQuit
    }

    constructor (serv: Server)
      ensures this.serv == serv && Ready()
    {
      this.serv := serv;
      pass := new Pass(serv);
      nick := new Nick(serv);
      user := new User(serv);
      var p := new Part(serv);
      part := p;
      join := new Join(serv, p);
      kick := new Kick(serv);
      invite := new Inviting.Invite(serv);
      quit := new Quit(serv);
      mode := new Mode(serv);
      privmsg := new Privmsg(serv);
    }

    /** The commands of a client that need not be registered. */
    method ExecuteOpen(emitter: int, verb: Verb, param: string) returns (reply: seq<Notice>)
      requires Ready() && serv.Valid() && emitter in serv.clientList && OpenToAll(verb)
      modifies user, serv`msgs, serv.clientList[emitter]
      ensures serv.Valid()
      ensures emitter in old(serv.View()).clients
      ensures Result(serv.View(), reply) == Runs.Execute(old(serv.View()), emitter, verb, param)
    {
      match verb
      case PASS => reply := pass.Execute(emitter, param);
      case NICK => reply := nick.Execute(emitter, param);
      case USER => reply := user.Execute(emitter, param);
    }

    /** JOIN and PART leave nothing in the message. */
    method ExecuteEntry(emitter: int, verb: Verb, param: string)
      requires Ready() && serv.Valid() && verb in {JOIN, PART}
      modifies join, part, serv`msgs, serv`channelList, serv.channelList.Values
      ensures serv.Valid()
      ensures serv.View() == if verb == JOIN then JoinCommand(old(serv.View()), emitter, param)
                             else PartCommand(old(serv.View()), emitter, param)
    {
      match verb
      case JOIN => join.Execute(emitter, param);
      case PART => part.Execute(emitter, param);
    }

    /** The commands that leave an error or an answer in the message. */
    method ExecuteAnswered(emitter: int, verb: Verb, param: string) returns (reply: seq<Notice>)
      requires Ready() && serv.Valid() && emitter in serv.clientList && verb in {KICK, INVITE, QUIT, MODE, PRIVMSG}
      modifies kick, invite, mode, mode.modeParams, serv`msgs, serv.channelList.Values
      ensures serv.Valid()
      ensures Result(serv.View(), reply) == Answered(old(serv.View()), emitter, verb, param)
    {
      match verb
      case KICK => reply := kick.Execute(emitter, param);
      case INVITE => reply := invite.Execute(emitter, param);
      case QUIT => reply := quit.Execute(emitter, param);
      case MODE => reply := mode.Execute(emitter, param);
      case PRIVMSG => reply := privmsg.Execute(emitter, param);
    }

    /** serv.commands[msg.cmd]->execute(msg) */
    method Execute(emitter: int, verb: Verb, param: string) returns (reply: seq<Notice>)
      requires Ready() && serv.Valid() && emitter in serv.clientList
      modifies user, join, part, kick, invite, mode, mode.modeParams
      modifies serv`msgs, serv`channelList, serv.channelList.Values, serv.clientList[emitter]
      ensures serv.Valid() && emitter in old(serv.View()).clients
      ensures Result(serv.View(), reply) == Runs.Execute(old(serv.View()), emitter, verb, param)
    {
      if OpenToAll(verb) {
        reply := ExecuteOpen(emitter, verb, param);
      } else if verb in {JOIN, PART} {
        ExecuteEntry(emitter, verb, param);
        reply := [];
      } else {
        reply := ExecuteAnswered(emitter, verb, param);
      }
    }

    /** check_for_cmds: a client that is not registered gets no further than PASS, NICK and USER. */
    method CheckForCmds(emitter: int, verb: Verb, param: string) returns (reply: seq<Notice>)
      requires Ready() && serv.Valid() && emitter in serv.clientList
      modifies user, join, part, kick, invite, mode, mode.modeParams
      modifies serv`msgs, serv`channelList, serv.channelList.Values, serv.clientList[emitter]
      ensures serv.Valid() && emitter in old(serv.View()).clients
      ensures Result(serv.View(), reply) == Gated(old(serv.View()), emitter, verb, param)
    {
      assert serv.View().clients[emitter] == serv.clientList[emitter].State();
      if !serv.clientList[emitter].isRegistered && !OpenToAll(verb) {
        return [To(emitter, ErrNotRegistered, [])];
      }
      reply := Execute(emitter, verb, param);
    }

    /** A command, and the queueing of what it leaves in the message: one step of a run. */
    method Take(emitter: int, verb: Verb, param: string)
      requires Ready() && serv.Valid() && emitter in serv.clientList
      modifies user, join, part, kick, invite, mode, mode.modeParams
      modifies serv`msgs, serv`channelList, serv.channelList.Values, serv.clientList[emitter]
      ensures Ready() && serv.Valid()
      ensures serv.View() == Step(old(serv.View()), Command(emitter, verb, param))
    {
      assert emitter in serv.View().clients;
      StepIsGated(serv.View(), emitter, verb, param);
      var reply := CheckForCmds(emitter, verb, param);
      serv.PushReply(reply);
    }

    /** A new connection: one step of a run. */
    method Connect(fd: int)
      requires Ready() && serv.Valid()
      modifies serv`clientList
      ensures Ready() && serv.Valid()
      ensures serv.View() == Step(old(serv.View()), Event.Connect(fd))
    {
      serv.AddClient(fd);
    }

    /** The ERROR line that answers QUIT has been sent, and the client is deleted: one step of a run. */
    method Disconnect(fd: int)
      requires Ready() && serv.Valid()
      modifies serv`clientList
      ensures Ready() && serv.Valid()
      ensures serv.View() == Step(old(serv.View()), Event.Disconnect(fd))
    {
      serv.DelClient(fd);
    }

    /** A connection that is gone: QUIT by the server for the client, one step of a run. */
    method HangUp(emitter: int)
      requires Ready() && serv.Valid() && emitter in serv.clientList
      modifies quit, serv`msgs, serv`clientList, serv.channelList.Values
      ensures Ready() && serv.Valid()
      ensures serv.View() == Step(old(serv.View()), Event.HangUp(emitter))
    {
      quit.SetManual(false);
      quit.ExecuteForServer(emitter);
    }
  }

  ghost function Gated(w: W.World, fd: int, verb: Verb, param: string): Result
    requires fd in w.clients
  {
    if !w.clients[fd].registered && !OpenToAll(verb) then Result(w, [To(fd, ErrNotRegistered, [])])
    else Runs.Execute(w, fd, verb, param)
  }

  lemma StepIsGated(w: W.World, fd: int, verb: Verb, param: string)
    requires fd in w.clients
    ensures Step(w, Command(fd, verb, param))
         == W.Push(Gated(w, fd, verb, param).world, Gated(w, fd, verb, param).reply)
  {}

  ghost function Answered(w: W.World, fd: int, verb: Verb, param: string): Result
    requires verb in {KICK, INVITE, QUIT, MODE, PRIVMSG}
  {
    match verb
    case KICK => KickCommand(w, fd, param)
    case INVITE => InviteCommand(w, fd, param)
    case QUIT => QuitCommand(w, fd, param)
    case MODE => ModeCommand(w, fd, param)
    case PRIVMSG => PrivmsgCommand(w, fd, param)
  }
}
