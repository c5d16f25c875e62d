# A Dafny model of the IRC server

An IRC server in C++: one process, one vector of messages, one map of channels with a bitfield per client, and
a command interpreter over both. This project models its logic in Dafny 4.11 and proves what the code keeps.
`dafny verify dfyconfig.toml` checks everything.

The proofs come in four parts.

**The message queue** (`Strings`, `Ordering`, `Messages`, `Merging`, `Sending`, `SendLoop`, `Draining`,
`Tracing`, `DeliveryOrder`, `RoundOrder`, `Receiving`, `Framing`, `MessageQueue`). One vector is both the
buffer for incomplete input lines and the queue of outgoing messages. The class `MessageQueue` runs the loops
of the receive and send paths with their index jumps; the other modules prove framing, conservation,
termination and delivery of what these loops compute, and exactly when a recipient gets its texts in the order
they were queued. The effect of a command on the queue is a parameter, any function of what has been executed,
of the queue and of its message.

**Replies** (`Templates`, `Rendering`, `RenderingLimits`, `Replies`, `NamesReply`, `ReplyMessage`,
`JoinRendering`, `PrivmsgRendering`, `KickRendering`, `ReplyLines`). Templates with `<holes>` are filled by
finding and replacing in place. The one-pass rendering that is meant is defined apart, and the two agree
exactly under a stated condition on the values.

**MODE** (`Decimal`, `ModeSpec`, `ModeReplay`, `ModeTheorems`, `ModeEngine`). Parser, applier and printer are
functions; the class `Mode` runs the original's loops over its status map and three parameter slots.

**Channels, clients and runs** (`Channels`, `Lists`, `World`, `Commands`, `Targets`, `Membership`,
`Admission`, `CommandEffects`, `Outcomes`, `ModeOutcomes`, `Registration`, `Runs`, `RunTheorems`,
`RunAdmission`, `Welcome`, and the classes in `Servers`, `Joining`, `Parting`, `Kicking`, `Inviting`,
`Quitting`, `Registering`, `Messaging`, `Dispatching`). Commands are functions on the server's state; every
command turns out to be a list of five kinds of channel step, `Outcomes` and `ModeOutcomes` say case by case
what a command changes and whom it tells, and the run theorems speak of all sequences of connections, commands
with their raw parameters, and disconnections. The classes hold the objects the server holds, and each method
is proved to do to them what the functions say; `Connect`, `Disconnect`, `Take` and `HangUp` of the class
`Dispatcher` tie them to the four events of a run.

## Conventions

- Iterators are indices; an index of -1 before its increment is allowed, as after `erase(...) - 1`.
- A bitfield is a record of three booleans; a missing entry of a channel reads as 0.
- `std::map` and `std::set` are walked in ascending key order (`Ordering`); names compare like `std::string`.
- A notice records what `reply_format` is given: emitter, targets, templates, values. `queued` holds every
  notice ever pushed; sending is modelled by the first part.
- A command handler works on its message, whose reply, if it leaves one, is pushed afterwards.
- PART takes the remaining members before the channel is erased.
- A read past the end of the values is the outcome `Broken`. `std::string::replace` with a negative count
  cuts off the rest of the text.
- `RplWelcomeBurst` stands for the five replies of a registration; dates and the supported-modes text are
  not among its values.
- No lemma uses automatic induction; each induction is spelled out. The attribute that switches it off stands on
  recursive lemmas and where the verifier would otherwise add it.
- Order of delivery is stated with numbered texts (`Tracing`), so that equal texts are told apart; the numbers are
  carried along by the same merging and the same passes, which do not look at them.

## What the code does that its comments do not say

- Merging also glues messages addressed to nobody, so the unfinished lines of two clients can become one
  (`MergeGluesUnfinishedLines`); the exact condition is in `MergeKeepsTailsExact`, and the framing theorem
  carries it as a hypothesis on the states in which messages are sent. It is met while at most one message is
  addressed to nobody (`RunFramesOneUnaddressed`).
- Restarting at `begin()` after each erase makes a pass miss the second smallest target whenever the
  smallest is writable (`PassedOverExactly`). Nothing is lost.
- A recipient can get its texts in another order than they were queued, for two reasons: a pass sends it a later
  message after missing an earlier one (`LaterMessageOvertakes`), and merging moves a text forward across a message
  with another target set (`MergingOvertakes`); the jump of the loop lets this happen even among messages with one
  target set (`JumpLeavesApart`, `ApartIsOvertaken`). These are the only reasons (`DeliveryOrderExact`).
- A text put into a reply that holds `<`, or `>` before the last hole, garbles the reply (`RenderingExact`). The
  user name is among these texts and may hold both; one with `>` cuts every reply to others down to the sender's mask
  without a line feed (`UserNameGarbles`), which the receiving side then takes for an unfinished line of that client
  (`MaskIsUnfinished`).
- After a JOIN of a channel with an entry that is only invited, the names list has more holes than values
  (`JoinRendered`).
- JOIN and PART read an empty parameter as two empty names (`ChannelListExact`).
- `+o` is accepted for a client that is only invited, and `-o` may take the last operator
  (`StepKeepsOps`, `ModeLosesOperators`); the run theorems state the first as a hypothesis.
- KICK and QUIT keep channels they have emptied; PART deletes them (`OnlyRemovalEmpties`,
  `OnlyKickAndQuitEmpty`). QUIT leaves invitations standing.
- An invitation takes up room: with one place left, the invited client finds the channel full (`InvitedMayJoin`).
- PRIVMSG to a channel reaches everybody with an entry, invited clients included (`TargetsExact`).

## Model

| member | source | states |
|---|---|---|
| `Merging.MergeKeepsText` | srcs/messages/send_messages.cpp:30-48 | for every target set, the in-order concatenation of the texts addressed to exactly that set is unchanged by merging |
| `Merging.MergeKeepsBytes` | srcs/messages/send_messages.cpp:30-48 | every recipient is owed the same bytes before and after merging |
| `Merging.MergePending` | srcs/messages/send_messages.cpp:30-48 | merging never raises the number of waiting (message, recipient) pairs |
| `Merging.MergeAsScan` | srcs/messages/send_messages.cpp:30-48 | the loop with its jumps is a scan from left to right whose gluings depend on the target sets alone |
| `Merging.MergeKeepsTailsExact` | srcs/messages/send_messages.cpp:38-46 | merging leaves every unfinished line of every client as it was if and only if none of the gluings, as the target sets of the queue determine them, takes an unfinished message |
| `Merging.OneUnaddressedIsSpared` | srcs/messages/send_messages.cpp:38-46 | with at most one message addressed to nobody, merging glues no unfinished line |
| `Merging.MergeGluesUnfinishedLines` | srcs/messages/send_messages.cpp:40-43 | counterexample: the unfinished lines of two clients, both addressed to nobody, become one line of the first client |
| `MessageQueue.MessageQueue.MergeMsgs` | srcs/messages/send_messages.cpp:30-48 | the loop with its jump back (index b - 1 after erasing b) terminates and leaves the queue that Merge specifies |
| `MessageQueue.MessageQueue.FindSame` | srcs/messages/send_messages.cpp:37-40 | the inner loop stops at the first later message with the same target set |
| `MessageQueue.SendOne` | srcs/messages/send_messages.cpp:80-99 | the inner loop with its restart at begin() serves the targets that the closed form Delivered names, each once and in ascending order, and empties the message exactly when all are served |
| `MessageQueue.MessageQueue.SendMessages` | srcs/messages/send_messages.cpp:76-100 | the outer loop with its erasures leaves the queue and the log of one pass over the merged queue |
| `Sending.PassedOverExactly` | srcs/messages/send_messages.cpp:80-98 | a writable target is passed over in a pass exactly when it is the second smallest and the smallest is writable too |
| `Sending.PassConserves` | srcs/messages/send_messages.cpp:77-100 | the (recipient, text) pairs sent and those still queued together are those queued before the pass, as multisets |
| `Sending.OneSendEach` | srcs/messages/send_messages.cpp:83-89 | in one pass each descriptor is sent to at most once, and only if it is writable |
| `Sending.PassKeepsIncomplete` | srcs/messages/send_messages.cpp:83-84 | messages without "\r\n" go through a pass untouched and in order |
| `Sending.LeavesWhenServed` | srcs/messages/send_messages.cpp:91-95 | for each message: the pass erases it exactly when it was addressed to somebody and all its targets were reached; otherwise it stays, between what is left of its neighbours, for the targets not reached |
| `Sending.UnaddressedStay` | srcs/messages/send_messages.cpp:91-95 | a pass keeps the messages addressed to nobody and leaves no others that are |
| `Sending.PassCounts` | srcs/messages/send_messages.cpp:91 | each send lowers the number of waiting pairs by one |
| `Sending.PassSends` | srcs/messages/send_messages.cpp:83-88 | a pass that finds a complete message with a writable target sends something |
| `Draining.RoundsDrain` | srcs/messages/send_messages.cpp:71-101 | with every target writable and no new input, as many rounds as there are waiting pairs empty every target set |
| `Draining.EverythingIsDelivered` | srcs/messages/send_messages.cpp:71-101 | after those rounds each recipient has received exactly the bytes queued for it, each once |
| `Tracing.TracedPieces` | srcs/messages/send_messages.cpp:71-101 | numbering the texts of any queue gives each recipient distinct pieces that spell the text queued for it |
| `Tracing.RoundsTraced` | srcs/messages/send_messages.cpp:71-101 | the numbers are carried along by the rounds as specified: the queue is the same, and the pieces a recipient gets spell what is sent to it |
| `DeliveryOrder.MergeOrderExact` | srcs/messages/send_messages.cpp:30-48 | for every queue and recipient, merging keeps the order of the texts queued for it if and only if no gluing moves one across another message for it |
| `DeliveryOrder.PassOrderExact` | srcs/messages/send_messages.cpp:77-100 | for every queue, set of writable descriptors and recipient, a pass keeps that order if and only if it misses no message for it (incomplete, or passed over among the descriptors still writable there) before a later one it sends to it |
| `RoundOrder.RoundOrderExact` | srcs/messages/send_messages.cpp:71-101 | one round keeps the order if and only if its merging and its pass do |
| `RoundOrder.ArrivalExact` | srcs/messages/send_messages.cpp:71-101 | over any number of rounds the order is kept if and only if every single merging and pass keeps it: disorder is never undone |
| `RoundOrder.DeliveryOrderExact` | srcs/messages/send_messages.cpp:71-101 | after enough rounds a recipient has received the texts queued for it in queue order if and only if in no round merging moved one across another or the pass overtook one |
| `RoundOrder.StreamInOrder` | srcs/messages/send_messages.cpp:71-101 | then the bytes sent to it are the text queued for it |
| `RoundOrder.PrivateStreamInOrder` | srcs/messages/send_messages.cpp:71-101 | in particular a recipient whose messages are all for it alone receives their texts in queue order |
| `RoundOrder.MergingOvertakes` | srcs/messages/send_messages.cpp:38-46 | counterexample: merging alone puts the third text for a recipient before the second |
| `RoundOrder.JumpLeavesApart` | srcs/messages/send_messages.cpp:38-46 | counterexample: the jump leaves two messages with one target set apart |
| `RoundOrder.ApartIsOvertaken` | srcs/messages/send_messages.cpp:80-98 | and a pass then sends the second of them first to their second recipient |
| `RoundOrder.EmptyMessageHides` | srcs/messages/send_messages.cpp:38-98 | an empty message can hide that order was lost, so the theorems about rounds exclude recipients of empty ones |
| `RoundOrder.LaterMessageOvertakes` | srcs/messages/send_messages.cpp:80-98 | counterexample: after one pass the second of two messages has reached a common recipient and the first has not |
| `Receiving.LinesAndRest` | srcs/messages/receive_messages.cpp:6-34 | lines and unfinished rest together are the stream, nothing lost or added |
| `Receiving.LinesAreLines` | srcs/messages/receive_messages.cpp:6-34 | each piece ends in its only line feed, and the rest holds none |
| `Receiving.ReceiveFrames` | srcs/messages/receive_messages.cpp:56-73 | one read executes the lines of the queued tail followed by the new text, and queues the new tail, for its client only |
| `Receiving.ReceiveAnswers` | srcs/messages/receive_messages.cpp:6-34 | with no line of the client waiting, a read puts behind the old queue, line by line in order, the messages each command appends and then its own reply, exactly when that has a text and a recipient, and last the unfinished rest |
| `Receiving.ReceiveCompletes` | srcs/messages/receive_messages.cpp:8-19 | with an unfinished line waiting at a position, the reply to the completed line takes that position, or the message is gone when the reply has no text or no recipient; the lines after it are answered as before |
| `Framing.RunFrames` | srcs/messages/receive_messages.cpp:4-73 | over any interleaving of reads and send rounds that spare unfinished input, each client's executed lines are the lines of all its chunks joined, and at most one unfinished line per client is queued |
| `Framing.RunFramesOneUnaddressed` | srcs/messages/receive_messages.cpp:4-73 | this holds in particular while, whenever messages are sent, at most one is addressed to nobody |
| `Framing.ChunkingIndependent` | srcs/messages/receive_messages.cpp:4-73 | two runs in which a client sent the same bytes, cut and interleaved in any way, execute the same lines for it and hold the same tail |
| `Framing.ReadsNeedNothing` | srcs/messages/receive_messages.cpp:4-73 | runs of reads alone meet the hypothesis about sending |
| `MessageQueue.MessageQueue.FindIncompleteMsg` | srcs/messages/receive_messages.cpp:45-54 | the search returns the first unfinished message of the client, or -1 |
| `MessageQueue.MessageQueue.FoundNewLine` | srcs/messages/receive_messages.cpp:4-35 | the loop over the text executes its lines and edits the queue as Feed specifies |
| `MessageQueue.MessageQueue.FoundText` | srcs/messages/receive_messages.cpp:56-73 | a chunk is appended, queued or executed as Receive specifies |
| `Rendering.FormatClean` | srcs/messages/Message.cpp:120-138 | with harmless texts, the sender's included, and at least as many values as holes, the append-find-replace loop gives every template with its k-th hole filled by the k-th value and leaves the values beyond |
| `RenderingLimits.RenderingExact` | srcs/messages/Message.cpp:63-138 | with as many values as holes it does so if and only if, of all texts put into holes - nickname, user name and host of the sender included -, none holds a "<" and none but the last a ">" |
| `Rendering.HarmlessFromClean` | srcs/messages/Message.cpp:63-138 | for a sender without brackets this says: no value holds a "<", and a ">" stands only in the value of the very last hole |
| `RenderingLimits.FormatShort` | srcs/messages/Message.cpp:132-136 | with fewer values than holes it reads past the end of the values |
| `Replies.RepeatedWeave` | srcs/messages/Message.cpp:150-163 | the holes of an expanded "{sep<x>}" are filled with the values joined by sep |
| `Replies.RepeatedSource` | srcs/messages/Message.cpp:150-163 | the text of n such holes is the first hole followed by n - 1 copies of the braced text |
| `Replies.PrivmsgExact` | srcs/define.hpp:64 | a PRIVMSG reads as meant exactly when its text holds no "<" and neither sender nor targets hold a bracket |
| `Templates.PrefixDecided` | srcs/messages/Message.cpp:73-87 | a reply is filled with nickname, user name and host exactly when it has the "!" and the "@" of the long form at their places, with the nickname alone otherwise |
| `Replies.KickExact` | srcs/define.hpp:68 | a KICK reads as meant exactly when its comment holds no "<" and neither sender, channel nor nickname hold a bracket |
| `KickRendering.KickRendered` | srcs/commands/channel/Kick.cpp:97-110 | the message about a kicked member goes to all who were members and to the client that kicks, and reads as meant exactly when the comment holds no "<" and the sender no bracket |
| `ReplyLines.HarmlessEnds` | srcs/define.hpp:23-75 | a reply of templates that end in "\r\n", rendered from harmless texts, ends in "\r\n" itself: a complete message |
| `ReplyLines.GarbledIsUnfinished` | srcs/messages/Message.cpp:63-138 | a one-line reply with a ">" in a text before its last hole loses its line feed and is taken for an unfinished line of its emitter |
| `ReplyLines.UserNameGarbles` | srcs/messages/Message.cpp:73-87 | a user name with a ">" leaves of every reply to others only the mask ":nick!user@host" |
| `ReplyLines.MaskIsUnfinished` | srcs/messages/receive_messages.cpp:45-54 | which is an unfinished line of its emitter |
| `ReplyLines.PrivmsgIsLine` | srcs/define.hpp:64 | a PRIVMSG that reads as meant is a complete line |
| `ReplyLines.KickIsLine` | srcs/define.hpp:68 | a KICK that reads as meant is a complete line |
| `ReplyLines.JoinReplyIsLine` | srcs/commands/channel/Join.cpp:166-185 | the reply to a JOIN of a channel with members only is made of complete lines |
| `NamesReply.NamReplySource` | srcs/define.hpp:35 | expanding the names list for n entries gives the template with n nickname holes |
| `NamesReply.NamReplyText` | srcs/define.hpp:35 | filled with as many nicknames it lists them separated by single spaces |
| `NamesReply.JoinReplyExact` | srcs/commands/channel/Join.cpp:166-185 | the reply to JOIN is rendered in full with as many names as entries, and reads past its values with fewer |
| `JoinRendering.JoinRendered` | srcs/commands/channel/Join.cpp:145-186 | the reply queued for a joining client is rendered in full if and only if every entry of the channel is a member |
| `JoinRendering.NamesLine` | srcs/commands/channel/Join.cpp:171-182 | its names line lists the nicknames of exactly the members in map order, an "@" before the operators' and no others' |
| `PrivmsgRendering.PrivmsgRendered` | srcs/commands/message/Privmsg.cpp:97-114 | the message has one value per accepted target and the text, as many as its expanded template has holes, and reads as meant exactly when the text holds no "<" and the sender no bracket |
| `ReplyMessage.Message.ReplaceRplErrText` | srcs/messages/Message.cpp:63-71 | the text is changed in place as ReplaceHole specifies, the negative count included |
| `ReplyMessage.Message.ReplacePrefix` | srcs/messages/Message.cpp:73-87 | one or three holes are filled from the sender, decided by two characters of the template |
| `ReplyMessage.Message.ReplyFormat` | srcs/messages/Message.cpp:120-138 | the loops over replies and holes leave the text that Format specifies, and address the emitter |
| `ReplyMessage.Message.ReplyFormatOne` | srcs/messages/Message.cpp:98-109 | the single-value variant replaces once what is left of the template |
| `ReplyMessage.OneValueAgrees` | srcs/messages/Message.cpp:98-138 | on a well-formed template with one value hole both variants give the same text |
| `ReplyMessage.Message.ReplyReplaceCurlyBrackets` | srcs/messages/Message.cpp:150-163 | the insertions and the two erasures give the text between the braces count - 1 times |
| `ModeTheorems.BindingInOrder` | srcs/commands/management/Mode.cpp:106-166 | slots in use carry distinct flags in order of first appearance, three always suffice, and the j-th of them reads the j-th token |
| `ModeTheorems.LastSignCounts` | srcs/commands/management/Mode.cpp:205-231 | the status asked for a flag is that of the sign before its last occurrence |
| `ModeTheorems.UnknownCounts` | srcs/commands/management/Mode.cpp:219-226 | one complaint is due per character that is neither a sign nor one of the five flags |
| `ModeTheorems.TokensAreWords` | srcs/commands/management/Mode.cpp:120-138 | the tokens are the first three words of the text cut at spaces |
| `ModeTheorems.TooManyExact` | srcs/commands/management/Mode.cpp:120-138 | a fourth piece is one too many |
| `ModeTheorems.ApplyExact` | srcs/commands/management/Mode.cpp:349-387 | "i" and "t": added they are on, removed off, and otherwise as before |
| `ModeTheorems.ApplyKeyExact` | srcs/commands/management/Mode.cpp:389-415 | "+k" with a parameter sets that key whatever key was set, "-k" with the current key clears it, anything else keeps it |
| `ModeTheorems.ApplyLimitExact` | srcs/commands/management/Mode.cpp:463-494 | "+l" with a readable number from 0 on sets it, "-l" unsets the limit, anything else keeps it |
| `ModeTheorems.ApplyOperatorExact` | srcs/commands/management/Mode.cpp:417-461 | "+o" and "-o" set the operator bit of the entry named, if there is one, and change nothing else of any entry |
| `ModeTheorems.AnnouncesChanges` | srcs/commands/management/Mode.cpp:349-494 | what is left of the statuses names exactly the modes whose value changed, and how |
| `ModeTheorems.AnnouncesOperator` | srcs/commands/management/Mode.cpp:417-461 | an announced "o" names the one client whose CHANOP bit flipped; unannounced, no entry changed |
| `ModeTheorems.Replay` | srcs/commands/management/Mode.cpp:106-296 | the announcement of any request, parsed and applied to the channel as it was, gives the same channel, the same statuses and the same announcement |
| `ModeTheorems.Idempotent` | srcs/commands/management/Mode.cpp:233-253 | applying a request a second time changes nothing and announces nothing |
| `ModeTheorems.ApplyKeepsModesOk` | srcs/commands/management/Mode.cpp:389-494 | a stored key holds no space, and a limit is unset or in the range of int |
| `ModeTheorems.ReportRoundTrip` | srcs/commands/management/Mode.cpp:67-104 | the report to an operator, parsed and applied to a channel with every mode off, recovers invite-only, topic restriction, key and limit |
| `ModeTheorems.ReportHidesKey` | srcs/commands/management/Mode.cpp:80-83 | the report to others does not depend on the key |
| `ModeOutcomes.ReportSpelled` | srcs/commands/management/Mode.cpp:67-104 | the report reads: "+", the flags of the modes that are set, the key (for an operator, "*" for others) and the limit; "+" alone when none is set |
| `ModeReplay.ParseOfPrint` | srcs/commands/management/Mode.cpp:255-296 | a printed request is parsed into its statuses and parameters, with no flag unknown and no parameter too many |
| `ModeReplay.PrintOfParse` | srcs/commands/management/Mode.cpp:255-296 | printing what was parsed from a printed request gives it again |
| `ModeOutcomes.ModeQueries` | srcs/commands/management/Mode.cpp:168-203 | the name alone is answered with the modes, "b" with the end of the ban list, a request without a sign with an error |
| `ModeOutcomes.ModeElsewhere` | srcs/commands/management/Mode.cpp:168-203 | a name that is no channel's is refused, except the client's own nickname, with which nothing changes either |
| `ModeOutcomes.ModeByOperator` | srcs/commands/management/Mode.cpp:168-203 | an operator's request is applied, and announced to everybody with an entry when it has changed something |
| `ModeOutcomes.ModeByOthers` | srcs/commands/management/Mode.cpp:233-253 | anybody else's changes nothing and is refused |
| `ModeOutcomes.ModeSwitch` | srcs/commands/management/Mode.cpp:349-387 | "+i", "-i", "+t" and "-t" leave the switch as asked and everything else as it was, and are announced exactly when the switch was not so before |
| `ModeOutcomes.ModeTells` | srcs/commands/management/Mode.cpp:417-461 | what is queued besides goes to the client that asks, and a client is told that it is operator exactly when the request has made it one |
| `ModeOutcomes.FourthToken` | srcs/commands/management/Mode.cpp:126-134 | a fourth token is complained about |
| `ModeOutcomes.MissingParameter` | srcs/commands/management/Mode.cpp:389-475 | of an operator's request, "k" and "o" without a parameter and "+l" without a limit are complained about, and nothing else is in these words |
| `ModeOutcomes.StrangerNamed` | srcs/commands/management/Mode.cpp:417-461 | and so is a nickname behind "o" that is nobody's with an entry |
| `ModeOutcomes.UnknownFlags` | srcs/commands/management/Mode.cpp:205-231 | each character of the modestring that is neither a sign nor a flag is complained about once |
| `ModeOutcomes.AnnouncementSpelled` | srcs/commands/management/Mode.cpp:255-296 | an announcement reads: the added flags behind one "+", the removed ones behind one "-", in map order, then their parameters |
| `Decimal.ReadOfPrint` | srcs/commands/management/Mode.cpp:87-90 | every limit from 0 to 2^31 - 1 is read back from its printed form |
| `Decimal.ReadNumber` | srcs/commands/management/Mode.cpp:471-475 | a number is read behind spaces and a sign, up to the first character that is no digit, within the range of int only |
| `Decimal.ReadNothing` | srcs/commands/management/Mode.cpp:471-475 | without a digit behind spaces and a sign nothing is read |
| `ModeEngine.Mode.TakeTokens` | srcs/commands/management/Mode.cpp:120-138 | the loop puts the first three tokens into the slots and notices a fourth |
| `ModeEngine.Mode.MapModeParams` | srcs/commands/management/Mode.cpp:142-156 | a flag takes the first free slot unless it has one |
| `ModeEngine.Mode.GetParam` | srcs/commands/management/Mode.cpp:158-166 | the parameter of the first slot with the flag, or none |
| `ModeEngine.Mode.FillModMaps` | srcs/commands/management/Mode.cpp:205-231 | the loop over the modestring leaves the statuses and slots of the parsed request, and one warning per unknown flag |
| `ModeEngine.Mode.ChannelK` | srcs/commands/management/Mode.cpp:389-415 | key and status after the request's "k", and the warning for a missing parameter |
| `ModeEngine.Mode.ChannelO` | srcs/commands/management/Mode.cpp:417-461 | entries and status after the request's "o", with the warning or the message to the new operator |
| `ModeEngine.Mode.ChannelL` | srcs/commands/management/Mode.cpp:463-494 | limit and status after the request's "l", and the warning for an unreadable or negative number |
| `ModeEngine.Mode.ScanMarks` | srcs/commands/management/Mode.cpp:272-293 | each scan writes its sign once, then its flags, and collects their parameters |
| `ModeEngine.Mode.FormatReplymodes` | srcs/commands/management/Mode.cpp:255-296 | the three loops write what Print specifies |
| `ModeEngine.Mode.CurrentMode` | srcs/commands/management/Mode.cpp:67-104 | the reply carries the report, with the key for operators only |
| `ModeEngine.Mode.Execute` | srcs/commands/management/Mode.cpp:168-203 | MODE on the objects is the step that ModeCommand specifies, its warnings, announcement and refusals included |
| `Channels.DelClientEntries` | srcs/channel/Channel.cpp:54-72 | a removal clears one entry; at most one other changes, and only by a member becoming operator |
| `Channels.DelClientSucceeds` | srcs/channel/Channel.cpp:54-100 | somebody is promoted exactly when a member operator leaves, no operator is left and a member is; it is the member with the lowest descriptor |
| `Servers.Channel.AreThereOtherChanops` | srcs/channel/Channel.cpp:74-83 | the loop finds out whether any entry is operator |
| `Servers.Channel.AssignNextChanop` | srcs/channel/Channel.cpp:85-100 | the first member in map order becomes operator and is told |
| `Servers.Channel.DelClient` | srcs/channel/Channel.cpp:54-72 | the in-place removal has the effect of the specified one and queues its message |
| `Membership.StepKeepsOk` | srcs/channel/Channel.cpp:54-100 | every step leaves each channel under its own legal name, with exactly one of INVITED and MEMBER per entry, a key without spaces and a limit in range |
| `Membership.StepKeepsOps` | srcs/commands/management/Mode.cpp:430-453 | CHANOP implies MEMBER is kept by a step if and only if it is not an operator's request for "+o" of an entry that is only invited |
| `Membership.OnlyModeLosesOperators` | srcs/channel/Channel.cpp:63-69 | no step but MODE takes a channel that had an operator to members without one |
| `Membership.ModeLosesOperators` | srcs/commands/management/Mode.cpp:454-460 | MODE does so exactly when the request asks for "-o" of the only operator |
| `Membership.OnlyRemovalEmpties` | srcs/commands/channel/Kick.cpp:96-111 | the only step that leaves a channel without members is the removal, by KICK or QUIT, of its last member |
| `RunTheorems.CommandSuccession` | srcs/commands/channel/Kick.cpp:78-113 | no whole command but MODE does so: not a batch KICK or PART, JOIN 0, nor QUIT by the client or for it |
| `RunTheorems.OnlyKickAndQuitEmpty` | srcs/commands/channel/Part.cpp:78-101 | no whole command but KICK and QUIT does so: what JOIN, PART and JOIN 0 leave has members or is gone |
| `RunTheorems.RunOperators` | srcs/commands/management/Mode.cpp:430-453 | in every run in which no operator asks for "+o" of an entry that is only invited, CHANOP implies MEMBER in every channel |
| `RunTheorems.RunSuccession` | srcs/channel/Channel.cpp:54-100 | in such a run the event that leaves members without an operator is a MODE on that channel that asks for "-o" of the only operator there was |
| `RunAdmission.RunInvitation` | srcs/commands/channel/Invite.cpp:23-33 | in every run an invitation goes back to an INVITE by a registered client in the channel, and has stood unbroken since |
| `RunAdmission.RunAdmission` | srcs/commands/channel/Join.cpp:112-143 | in every run a client becomes a member of an existing channel by its own JOIN only, within any limit, with the paired key equal to any key set, and on an unused INVITE if the channel is invite-only |
| `RunAdmission.InvitationsAreConsumed` | srcs/commands/channel/Join.cpp:130-131 | the INVITE an admission rests on is later than any time the client was a member before |
| `Admission.AdmissionsComeFromEnter` | srcs/commands/channel/Join.cpp:112-143 | a step that makes a client member of an existing channel is its own JOIN, not refused, and changes its entry only |
| `Admission.InvitationsComeFromInvite` | srcs/commands/channel/Invite.cpp:26 | a step that makes a client invited is an INVITE by somebody with an entry in the channel |
| `CommandEffects.BatchJoin` | srcs/commands/channel/Join.cpp:6-27 | JOIN of a comma list is joining channel i with key i in order, no key past the end of the keys, with the same channels and the same queue |
| `Outcomes.JoinExact` | srcs/commands/channel/Join.cpp:112-143 | a client that is no member enters an existing channel if and only if there is room, the key is right and it is invited where it must be; only its entry changes then, otherwise no channel does and it is told the first reason |
| `Outcomes.JoinOtherwise` | srcs/commands/channel/Join.cpp:68-110 | an unused legal name becomes a channel with the client as member and operator, an illegal one is refused, and joining again changes nothing |
| `Outcomes.JoinTells` | srcs/commands/channel/Join.cpp:145-188 | the new member is told first, then exactly the other members, if anybody else has an entry |
| `Outcomes.JoinReadsKey` | srcs/commands/channel/Join.cpp:15-26 | JOIN of a name and a key joins the channel with that key |
| `Outcomes.JoinReadsNoKey` | srcs/commands/channel/Join.cpp:15-26 | JOIN of a name alone joins it without a key |
| `Outcomes.PartExact` | srcs/commands/channel/Part.cpp:78-101 | a member that parts loses its entry and nobody else does; the last one takes the channel along; a new operator is told, then the client and the members left |
| `Outcomes.PartOtherwise` | srcs/commands/channel/Part.cpp:48-62 | nobody else parts |
| `Outcomes.PartReads` | srcs/commands/channel/Part.cpp:6-19 | PART of a name and a reason parts it with that reason |
| `Outcomes.PartReadsNoReason` | srcs/commands/channel/Part.cpp:6-19 | PART of a name alone parts it with the default reason |
| `Outcomes.KickedExact` | srcs/commands/channel/Kick.cpp:96-111 | a member kicked loses its entry and nobody else does; a new operator is told, then the client that kicks and all who were members |
| `Outcomes.KickOtherwise` | srcs/commands/channel/Kick.cpp:87-95 | kicking anybody else changes nothing and is answered |
| `Outcomes.KickReads` | srcs/commands/channel/Kick.cpp:6-29 | an operator's KICK of one nickname with a comment kicks it with that comment |
| `Outcomes.KickRefused` | srcs/commands/channel/Kick.cpp:51-63 | everybody else's KICK changes nothing and is answered with the first error |
| `Outcomes.InviteExact` | srcs/commands/channel/Invite.cpp:8-34 | INVITE by somebody with an entry, of a client without one, gives it an entry that is an invitation and nothing else, tells it and answers; in every other case nothing changes |
| `Outcomes.InviteReadsBack` | srcs/commands/channel/Invite.cpp:51-58 | nickname and channel name, with any number of spaces between, are read back |
| `Outcomes.InviteOtherwise` | srcs/commands/channel/Invite.cpp:36-63 | any other parameter is refused |
| `Outcomes.InvitedMayJoin` | srcs/commands/channel/Invite.cpp:23-33 | an invited client then enters, invite-only channel or not, if and only if the key is right and there is room for one entry more than its invitation has taken |
| `CommandEffects.JoinZeroNames` | srcs/commands/channel/Join.cpp:29-45 | the comma list JOIN 0 builds is split by PART into exactly the same names |
| `CommandEffects.JoinZeroLeavesAll` | srcs/commands/channel/Join.cpp:29-45 | after JOIN 0 the client is member nowhere, each channel it left keeps a member or is gone, and other entries change only by a promotion |
| `CommandEffects.QuitExact` | srcs/commands/management/Quit.cpp:30-54 | QUIT leaves exactly the channels the client is a member of, and its notice goes to exactly the members left in them, or to nobody when there are none |
| `CommandEffects.QuitLeavesAll` | srcs/commands/management/Quit.cpp:30-54 | so after QUIT the client is a member nowhere, and every other channel is as it was |
| `CommandEffects.QuitAnswers` | srcs/commands/management/Quit.cpp:6-28 | QUIT is answered with an ERROR line, and the comment given goes to those left behind |
| `Outcomes.QuitTells` | srcs/commands/management/Quit.cpp:30-54 | QUIT queues the message to each new operator in map order and then, if anybody is left behind, one notice with the comment |
| `Lists.ChannelListExact` | srcs/commands/channel/Join.cpp:47-66 | the channel list is the split at commas and joined gives the parameter back if and only if the parameter is not empty |
| `Lists.KickTargetsJoin` | srcs/commands/channel/Kick.cpp:31-48 | the kick targets joined by ", " give the text back |
| `Lists.KickTargetsOfJoin` | srcs/commands/channel/Kick.cpp:31-48 | nicknames without commas, joined by ", ", are read back as they were |
| `Commands.KickPartsCover` | srcs/commands/channel/Kick.cpp:65-76 | the comment is what follows the first colon, the targets what precedes it less one space; without a colon the default comment is used |
| `Commands.KickPartsRoundTrip` | srcs/commands/channel/Kick.cpp:65-76 | targets without a colon, " :" and a comment are read back as they were written |
| `Commands.KickReadsBack` | srcs/commands/channel/Kick.cpp:24-49 | a KICK of several nicknames with a comment is read back, nicknames and comment |
| `Joining.Join.SplitJoinCmd` | srcs/commands/channel/Join.cpp:47-66 | the loop cuts the text at commas and leaves what CutList says |
| `Joining.Join.CollectNames` | srcs/commands/channel/Join.cpp:171-182 | the loop over the entries collects the members' names, operators marked, and the other members as targets |
| `Joining.Join.JoinCheckExistingChan` | srcs/commands/channel/Join.cpp:112-143 | limit, key and invitation are checked in this order; a client let in replaces its entry by MEMBER |
| `Joining.Join.JoinChannel` | srcs/commands/channel/Join.cpp:68-92 | the loop consumes the keys and joins each channel as JoinList specifies |
| `Joining.Join.OwnChannels` | srcs/commands/channel/Join.cpp:32-42 | the loop over the map lists the channels the client has an entry in, joined by commas |
| `Joining.Join.Execute` | srcs/commands/channel/Join.cpp:6-27 | JOIN on the objects is the step that JoinCommand specifies |
| `Parting.Part.SplitChannels` | srcs/commands/channel/Part.cpp:21-39 | the loop fills channels and consumes the text as CutList specifies |
| `Parting.Part.SuccessBehaviour` | srcs/commands/channel/Part.cpp:78-101 | the client leaves, a channel without members is erased, and the client and the members left are told |
| `Parting.Part.LoopCheck` | srcs/commands/channel/Part.cpp:41-64 | the loop treats the channels one by one as PartList specifies |
| `Parting.Part.Execute` | srcs/commands/channel/Part.cpp:6-19 | PART on the objects is the step that PartCommand specifies |
| `Kicking.Kick.ReturnKickTarget` | srcs/commands/channel/Kick.cpp:31-49 | the loop cuts the text at ", " as KickTargets specifies |
| `Kicking.Kick.KickTargetsIfMember` | srcs/commands/channel/Kick.cpp:78-113 | the loop kicks or refuses the targets one by one as KickList specifies |
| `Kicking.Kick.Execute` | srcs/commands/channel/Kick.cpp:6-29 | KICK on the objects is the step that KickCommand specifies |
| `Inviting.Invite.DoParamExistAndSetIfSo` | srcs/commands/channel/Invite.cpp:51-77 | the error reply, or the channel and the client the parameter names |
| `Inviting.Invite.Execute` | srcs/commands/channel/Invite.cpp:8-34 | INVITE on the objects is the step that InviteCommand specifies |
| `Quitting.Quit.LeaveAllChannels` | srcs/commands/management/Quit.cpp:30-54 | the nested loops leave the channels in map order, gather those to be told and tell them if there are any |
| `Quitting.Quit.ExecuteForServer` | srcs/commands/management/Quit.cpp:14-24 | with manual_quit unset, the client leaves its channels and is deleted, and manual_quit is set again |
| `Dispatching.Dispatcher.Take` | srcs/commands/parsing.cpp:62-79 | a command on the objects, through the registration gate and with its reply queued, is one step of the runs the theorems speak of |
| `Dispatching.Dispatcher.HangUp` | srcs/messages/receive_messages.cpp:94-102 | a failed read of a client is likewise one step of a run |
| `Dispatching.Dispatcher.Connect` | srcs/server/Server.cpp:134-168 | so is a new connection |
| `Dispatching.Dispatcher.Disconnect` | srcs/server/Server.cpp:170-179 | so is the deletion of a client whose ERROR line has been sent |
| `RunTheorems.RunInvariant` | srcs/server/Server.cpp:292-312 | in every run a client is registered exactly when it has given a nickname and a real name, having passed PASS first; nicknames set are legal and differ by more than case; channels are well formed |
| `RunTheorems.RunIdentity` | srcs/server/Server.cpp:250-267 | in every run looking up a client's nickname gives the client, and no channel has that name |
| `RunTheorems.RunPassword` | srcs/commands/server_connection/Pass.cpp:6-15 | in every run an authenticated client has given the server's password by PASS, and has been connected ever since |
| `RunTheorems.RunRegistered` | srcs/server/Server.cpp:292-312 | and so has every registered client |
| `RunTheorems.GateExact` | srcs/commands/parsing.cpp:62-79 | a client that is not registered changes no channel and no other client, and any command but PASS, NICK and USER is only answered |
| `RunTheorems.WrongPasswordIsAnswered` | srcs/commands/server_connection/Pass.cpp:6-15 | a PASS with another text is answered in the name of the server, and changes nothing else |
| `RunTheorems.PrivmsgIsQueued` | srcs/messages/receive_messages.cpp:14-25 | what a PRIVMSG leaves is queued behind everything else, for those it reaches |
| `Registration.LookupInverse` | srcs/server/Server.cpp:250-259 | nickname lookup is the inverse of the nickname map on the nicknames that are set |
| `Registration.LookupFinds` | srcs/server/Server.cpp:250-259 | lookup fails exactly when no client has the nickname |
| `Registration.NamesAreApart` | srcs/commands/channel/Join.cpp:94-101 | a legal channel name is no client's nickname |
| `Registration.NickExact` | srcs/commands/server_connection/Nick.cpp:17-35 | a nickname is accepted if and only if it is legal and taken in no case, and lookup then finds the client; refused, nothing changes |
| `Registration.NickStores` | srcs/commands/server_connection/Nick.cpp:17-35 | NICK changes the client's nickname, and its registration if the real name is known, exactly when the nickname is legal and nobody's in any case; otherwise nothing changes and the first error is the answer |
| `Registration.NicknameLimits` | srcs/commands/server_connection/Nick.cpp:6-15 | the limits of a legal nickname: nine characters, the first no digit and no "-", none outside the alphabet |
| `Registration.LowerAt` | srcs/commands/server_connection/Nick.cpp:58-70 | case folding lowers the letters A to Z and keeps every other character |
| `World.ChannelNameLimits` | srcs/commands/channel/Join.cpp:94-101 | the limits of a legal channel name: the sign is enough, and it stands at the front only |
| `World.GoodCharacterExact` | srcs/define.hpp:6 | the ranges of legal characters are exactly the characters listed |
| `Registration.PassExact` | srcs/commands/server_connection/Pass.cpp:6-15 | PASS authenticates a client that is neither authenticated nor registered if and only if it gives the server's password; otherwise nothing changes |
| `Registration.UserStores` | srcs/commands/server_connection/User.cpp:45-61 | USER stores user name, host and real name in the fields of the client, once, and registers it if it has a nickname |
| `Registration.UserParamsRoundTrip` | srcs/commands/server_connection/User.cpp:6-43 | a well-formed USER is read back field by field |
| `Registration.UserParamsCover` | srcs/commands/server_connection/User.cpp:6-43 | and only a well-formed USER is read: every parameter read is user name, a word, host and a real name behind a colon, with blanks between |
| `Welcome.CommandWelcomes` | srcs/server/Server.cpp:292-312 | a command queues a welcome for a client exactly when the client becomes registered by it |
| `Welcome.RunWelcomes` | srcs/server/Server.cpp:298-311 | in every run one welcome has been queued per client ever registered, never more than one per connection |
| `Servers.Server.GetClientByNickname` | srcs/server/Server.cpp:250-259 | the loop returns the lowest descriptor with the nickname, or -1 |
| `Servers.Server.RegisterClientIfAble` | srcs/server/Server.cpp:292-312 | the client object is registered and welcomed when, and only when, it can be |
| `Registering.Pass.Execute` | srcs/commands/server_connection/Pass.cpp:6-15 | PASS on the objects is the step that PassCommand specifies |
| `Registering.StrToLower` | srcs/commands/server_connection/Nick.cpp:58-70 | the loop lowers the letters and keeps the rest |
| `Registering.Nick.IsNickUnique` | srcs/commands/server_connection/Nick.cpp:72-84 | the loop compares case-folded nicknames of all clients |
| `Registering.Nick.Execute` | srcs/commands/server_connection/Nick.cpp:17-35 | NICK on the objects is the step that NickCommand specifies |
| `Registering.User.GetCorrectUserParams` | srcs/commands/server_connection/User.cpp:6-43 | the moving cursor fills user name, host and real name, or fails, as ReadUserParams specifies |
| `Registering.User.Execute` | srcs/commands/server_connection/User.cpp:45-61 | USER on the objects is the step that UserCommand specifies |
| `Targets.TargetsExact` | srcs/commands/message/Privmsg.cpp:25-69 | the accepted names are exactly the channels the client is a member of and the nicknames somebody has, each once; those reached are exactly everybody else with an entry in these channels and the clients with these nicknames |
| `Targets.PrivmsgExact` | srcs/commands/message/Privmsg.cpp:85-117 | every refused target is answered and nothing else is; the message goes to those reached, if any, with the accepted targets and the text |
| `Targets.PrivmsgWithoutText` | srcs/commands/message/Privmsg.cpp:71-83 | without a colon there is no text to send |
| `Targets.TargetNamesOfJoin` | srcs/commands/message/Privmsg.cpp:6-23 | targets separated by commas, with blanks behind the last, are read as they were written |
| `Messaging.GetTargets` | srcs/commands/message/Privmsg.cpp:6-23 | the loop collects the names between commas, blanks dropped behind the last only |
| `Messaging.Privmsg.AddCorrectTargets` | srcs/commands/message/Privmsg.cpp:25-69 | the loop gathers targets and queues refusals as Gather specifies |
| `Messaging.Privmsg.Execute` | srcs/commands/message/Privmsg.cpp:85-117 | PRIVMSG on the objects is the step that PrivmsgCommand specifies |

## Left out

- Sockets, `select`, `accept`, `read`, `send`, `close`, signals, the read buffer: reads deliver a text, writable descriptors are a set, sends are a log.
- The logger, `main`, the Makefile, date and time strings.
- PING, WHO, OPER, TOPIC and the user modes `i` and `O`: MODE on the client's own nickname changes nothing here and leaves no reply.
- `check_msgs_to_delete` and `Quit::del_client_from_msgs`: their loops skip elements after an erase, so what they are meant to keep is not what they keep; no queue theorem covers them.
- `handle_leaving_clients`: the deletion it triggers is the event `Disconnect` of a run, not tied to the sending of a particular message.
- `parsing_cmds`: runs start from a command and its parameter; how a line is cut into the two is not modelled. Commands the server does not know do nothing.
- `Nick::add_nick_to_messages`: it rewrites the emitter's nickname in queued messages and changes neither targets nor text.
- The wording of the replies beyond those in `Replies` and `NamesReply`.
- C++ memory concerns: dangling references and reads at `end()` are replaced by the conventions above. `Kick::register_comment` on an empty text is read as finding no trailing space.
- Limits below -1 cannot be stored by MODE; the model prints none for them.
- Registering.Nick.Execute: does not model `add_nick_to_messages`, see above.
- Quitting.Quit.ExecuteForServer: does not model `del_client_from_msgs`, see above.
- ModeEngine.Mode.Execute: does not model user modes, see above.
- RoundOrder.ArrivalExact: excludes recipients of empty messages, see RoundOrder.EmptyMessageHides; the server queues no empty replies.
- Framing.RunFrames: has as hypothesis that the rounds of sending touch no unfinished line, because merging otherwise glues them.
- RunTheorems.RunSuccession: has as hypothesis that no operator asked for "+o" of an entry that was only invited, because the code accepts that.
- RunTheorems.RunOperators: has the same hypothesis.
- JoinRendering.JoinRendered: assumes user name, host and topic free of angle brackets; which texts do harm in general is RenderingLimits.RenderingExact.
