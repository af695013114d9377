# Ricochet Refresh: verified models

Dafny models of the stateful parts of Ricochet Refresh and proofs about them. `dafny verify dfyconfig.toml` checks
everything. Where the source changes state step by step, the model is a class or a method with loops, proved against
a function of the old state; what the source promises is then proved about those functions, over all inputs and all
runs.

* **Settings** (`Json`, `SettingsTree`, `SettingsPath`, `SettingsDiff`, `SettingsCoherence`, `SettingsReplay`,
  `SettingsStore`): a JSON tree edited by dotted path. A write walks down keeping the parents, rebuilds them upwards,
  diffs the old and the new value and announces every changed leaf; objects anywhere in the tree keep a cached subtree
  that they refresh only when an announced path lies at or below their own. The proofs cover the laws between reading
  and writing, what exactly is announced, when refreshing on announcements alone keeps all caches right, and when the
  announcements suffice to rebuild the new tree.
* **Event pipeline** (`Pipeline`): producers push callbacks to a locked queue; a worker swaps the queue out and runs the
  batch; each callback pushes one task to a second double-buffered queue that the UI timer drains. A state machine over
  the atomic steps of all threads: one FIFO, nothing lost, doubled or overtaken in any interleaving, and a shutdown that
  ends.
* **IRC gateway** (`IrcState`, `IrcInvariant`, `IrcRuns`, `IrcHistory`, `IrcPatterns`, `IrcGateway`, `IrcFailures`):
  clients, virtual users, channels, the contact map, login flags and commands as one state machine with one inductive
  invariant, laws that say of every table entry which event put it there, and a class whose methods change the fields in
  place as the source does.
* **Conversations** (`ConversationTypes`, `ConversationLog`, `ConversationHistory`, `ConversationModel` for the graphical
  build; `Forwarding`, `IrcConversation`, `ForwardingFailures` for the IRC build): the message list, the event log with
  reverse indices, the unread counters, what each of them says of the operations before, and the handler that clears the
  list while it is being notified of it.
* **Contact list** (`Contacts`): the sorted list, the row changes it announces, and whether a view that replays them
  stays equal to it.
* **Onion ids and key blobs** (`BaseN`, `Ed25519`): version 3 onion service ids (section 6 of Tor's rend-spec-v3) over
  base 32, private key blobs over base 64 (sections 6 and 4 of RFC 4648), for any hash function.

Some properties do not hold of the code as it is. Each is stated with the condition under which it does hold, in both
directions, and with an input or a run from the start that breaks it:

* A value turned into an empty object is announced to nobody, and caches go stale (`SettingsCoherence.CoherenceExact`,
  `SettingsCoherence.EmptyObjectGoesUnnoticed`).
* A UI task that throws trips its object's assertion when the batch is cleared (`Pipeline.AssertionsExact`,
  `Pipeline.ThrowingTaskHappens`).
* Deleting a contact without an IRC user follows a null pointer (`IrcRuns.CmdDeleteExact`,
  `IrcFailures.DeletingFails`).
* A client outside the control channel can share its nick with a new contact user (`IrcRuns.ContactStatusExact`,
  `IrcFailures.ShadowingHappens`).
* A line handled after its connection was closed can make nobody a member (`IrcRuns.LateLineExact`,
  `IrcFailures.LateLoginHappens`, `IrcFailures.LateJoinHappens`).
* A message of a contact without an IRC user follows a null pointer, for example when the contact came online under the
  nick of the logged-in client (`Forwarding.ReceiveExact`, `ForwardingFailures.MessageFails`).
* In the IRC build the contacts manager is left with a stale unread count (`Forwarding.ManagerHearsStaleCount`).
* Clearing a conversation leaves events that point nowhere or at another message (`ConversationLog.ClearExact`,
  `ConversationLog.ClearBreaksTheLog`).
* An acknowledgement of a message that was cleared fails an assertion (`ConversationLog.AcknowledgementExact`,
  `ConversationLog.LateAcknowledgement`).
* A file transfer whose id is that of a text message logs the text twice (`ConversationLog.ListedExact`,
  `ConversationLog.StrayHappens`).
* Contacts with equal sort keys can leave a view showing another order than the list (`Contacts.MirrorExact`,
  `Contacts.TieHappens`).

Assumptions about code outside the repository are those of its documentation: `toObject()` of a value that is not an
object is empty, a missing key reads as undefined, inserting an undefined value removes the key, `std::sort` yields some
sorted permutation, `std::lower_bound` the partition point, `beginMoveRows` counts its destination before the move.
Pointers are ids into record tables in the IRC model. Foreign calls (sending, file dialogs, contact id validation) are
event parameters that carry their outcome.

## Model

| member | source | states |
|---|---|---|
| Strings.JoinSplit | src/irc/utils/Settings.cpp:244-256 | splitting at a separator yields separator-free parts that join back to the text |
| Strings.SplitJoin | src/irc/utils/Settings.cpp:454-457 | joining separator-free parts and splitting gives the parts back |
| SettingsPath.SplitPath | src/irc/utils/Settings.cpp:242-260 | the loop computes Parse: one leading empty component is dropped, any other is an error |
| SettingsPath.ParsePrint | src/irc/utils/Settings.cpp:242-260 | printing a path and parsing it gives it back if and only if its components are non-empty and dot-free |
| SettingsPath.PrintParse | src/irc/utils/Settings.cpp:242-260 | a parsed path prints as the input, less one leading dot |
| SettingsPath.FullStopSeparates | src/irc/utils/Settings.cpp:242-260 | two words with a full stop between them are a path of two components, with or without a full stop in front |
| SettingsPath.ParseChild | src/irc/utils/Settings.cpp:398-404 | base path, dot and key parse to the base followed by the key's own path; an empty key, a key with a leading dot and a malformed key are errors, also under the root |
| SettingsTree.ReadAfterWrite | src/irc/utils/Settings.cpp:262-352 | at and below a written non-empty path one reads inside the written value |
| SettingsTree.ReadAfterRootWrite | src/irc/utils/Settings.cpp:333-342 | writing the empty path keeps only the object content of the value |
| SettingsTree.WriteLeavesOthers | src/irc/utils/Settings.cpp:311-352 | a path neither above nor below the written one reads as before |
| SettingsTree.WriteAbove | src/irc/utils/Settings.cpp:333-342 | after a change, every path above the written one reads as an object, and as a different one |
| SettingsTree.WriteUnchanged | src/irc/utils/Settings.cpp:326-329 | the tree is left unchanged exactly when the value is already there |
| SettingsTree.SecondWriteSupersedes | src/irc/utils/Settings.cpp:311-352 | a second write makes the first one irrelevant exactly when it is defined, or the first removed a key, or no parent had to be created |
| SettingsDiff.FindModifiedChild | src/irc/utils/Settings.cpp:286-305 | the branch for one differing child appends exactly its changes |
| SettingsDiff.FindModifiedRecursive | src/irc/utils/Settings.cpp:278-309 | appends, once each and in whatever key order, exactly the paths where both sides read as non-objects and differ, each with the new value |
| SettingsDiff.LeafDiff | src/irc/utils/Settings.cpp:306-308 | two different non-objects differ at the top and nowhere below |
| SettingsDiff.AddChild | src/irc/utils/Settings.cpp:282-305 | the exact diff of one more child extends the diff of the children visited so far |
| SettingsDiff.AllKeysCovered | src/irc/utils/Settings.cpp:282-305 | both loops together cover every change below two objects |
| SettingsCoherence.CoherenceExact | src/irc/utils/Settings.cpp:311-352 | refreshing only at or above announced paths keeps every possible cache right if and only if every change of the value shows in some leaf |
| SettingsCoherence.UpToDate | src/irc/utils/Settings.cpp:427-440 | under that condition each cache is refreshed or its subtree did not change |
| SettingsCoherence.CoherentWithoutEmptyObjects | src/irc/utils/Settings.cpp:311-352 | the condition holds when neither value is or holds an empty object |
| SettingsCoherence.EmptyObjectGoesUnnoticed | src/irc/utils/Settings.cpp:278-309 | replacing 5 by an empty object changes the tree and is announced to nobody |
| SettingsCoherence.LeavesShowChangeAt | src/irc/utils/Settings.cpp:278-309 | below two values whose leaves show every change, a differing object has a changed leaf in it |
| SettingsCoherence.HiddenChange | src/irc/utils/Settings.cpp:278-309 | otherwise some place changes as an object with no changed leaf at or below it |
| SettingsReplay.ExactDiffIncomparable | src/irc/utils/Settings.cpp:278-309 | no announced path is a proper prefix of another |
| SettingsReplay.ReplayExact | src/irc/utils/Settings.cpp:345-349 | writing the announced pairs to the old tree in any order gives the new tree's leaf map if and only if no leaf is lost: no leafless object becomes or replaces a leaf, and no plain value sits above the path |
| SettingsReplay.ReplayWithoutEmptyObjects | src/irc/utils/Settings.cpp:345-349 | so it does for a value without empty objects that keeps objects objects or drops them |
| SettingsReplay.ReplayableExact | src/irc/utils/Settings.cpp:278-309 | the recursive condition on the two values says that no path below them loses its leaf |
| SettingsReplay.HasLeafExact | src/irc/utils/Settings.cpp:278-309 | a value has a leaf somewhere exactly when the recursive search finds one |
| SettingsStore.SettingsFile.Read | src/irc/utils/Settings.cpp:262-273 | the loop reads the value at the path |
| SettingsStore.SettingsFile.Rebuild | src/irc/utils/Settings.cpp:313-342 | walking down with a stack of parents and back up computes the written tree and the old value |
| SettingsStore.SettingsFile.Write | src/irc/utils/Settings.cpp:311-352 | reports a change exactly when the old value differs, announces the exact diff, changes exactly the caches that an announced path reaches, and keeps all caches coherent when the write satisfies the condition |
| SettingsStore.SettingsFile.EmitAll | src/irc/utils/Settings.cpp:348-349 | every announcement reaches every object in order |
| SettingsStore.SettingsObject.Modified | src/irc/utils/Settings.cpp:427-440 | an object at or above an announced path re-reads its subtree and emits the relative path; others do nothing |
| SettingsStore.HeardIsOwnDiff | src/irc/utils/Settings.cpp:427-440 | what one object emits for a write is the exact difference of its own subtree |
| SettingsStore.WholeTreeDiff | src/irc/utils/Settings.cpp:345-349 | the announcements are the exact difference of the whole old and new trees |
| SettingsStore.NotifiedAllMeans | src/irc/utils/Settings.cpp:427-440 | however many announcements reach an object, its cache ends as the subtree of the new tree |
| SettingsStore.SettingsObject.constructor | src/irc/utils/Settings.cpp:390-396 | a new object caches the subtree at its path, or is invalid with an empty cache |
| SettingsStore.SettingsObject.Under | src/irc/utils/Settings.cpp:398-404 | a child object's path is its base's followed by the key's |
| SettingsStore.SettingsObject.SetPath | src/irc/utils/Settings.cpp:459-484 | a bad path invalidates and clears, the same path changes nothing, another one is cached afresh; coherence is kept |
| SettingsStore.SettingsObject.SetData | src/irc/utils/Settings.cpp:491-498 | the subtree becomes the input, and coherence survives under the condition |
| SettingsStore.SettingsObject.Read | src/irc/utils/Settings.cpp:500-513 | a read through a coherent cache equals a plain read of the file, else the default |
| SettingsStore.SettingsObject.Write | src/irc/utils/Settings.cpp:515-526 | writes below the object's path; under the condition the caches are coherent and show the value |
| SettingsStore.SettingsObject.Unset | src/irc/utils/Settings.cpp:528-531 | the tree becomes the one with null written at the key, nothing else changes, and coherence survives under the condition |
| SettingsStore.SettingsObject.Undefine | src/irc/utils/Settings.cpp:533-540 | removes the subtree and empties the cache |
| Pipeline.StepKeepsInv | src/libtego/source/signals.cpp:54-112 | every atomic step of every thread keeps: tasks run, then those under way, are the tasks of the events pushed |
| Pipeline.OrderAndExactlyOnce | src/irc/libtego_callbacks.cpp:95-130 | in every interleaving the tasks run are, one each and in order of emission, those of the first events pushed |
| Pipeline.VisibleEffect | src/libtego/source/signals.cpp:64-112 | seen as one queue, a push adds at the back, a UI task leaves from the front, and no other step shows |
| Pipeline.RefinesFifo | src/irc/libtego_callbacks.cpp:95-130 | so the two double buffers refine one FIFO queue |
| Pipeline.DeliveredInOrder | src/irc/libtego_callbacks.cpp:95-130 | over any run, what was delivered and queued before stays a prefix of what is delivered and queued after |
| Pipeline.FlagAndRegistrations | src/irc/libtego_callbacks.cpp:573-674 | over any run a kind is registered exactly when some step registered it, however many others were, and the flag is set exactly when some step set it |
| Pipeline.EmittedExact | src/libtego/source/signals.hpp:62-78 | in every interleaving what was pushed or is about to be is, once each, what was emitted after its kind was registered and before termination began |
| Pipeline.PushTaskIs | src/irc/libtego_callbacks.cpp:19-40 | moving a new task object to the end of the queue, and its neighbours if the vector grows, loses nothing, and the assertions of the moves and of the objects moved from hold |
| Pipeline.LiveStep | src/irc/libtego_callbacks.cpp:43-83 | every step keeps: objects not run yet are whole, objects that ran are null, objects that threw are whole |
| Pipeline.AssertionsExact | src/irc/libtego_callbacks.cpp:74-122 | in a run the task objects' assertions hold at every push and at every clearing of a batch if and only if no batch is cleared in which a task has thrown |
| Pipeline.ThrowingTaskHappens | src/irc/libtego_callbacks.cpp:105-118 | a run in which they fail |
| Pipeline.ShutdownProgress | src/libtego/source/signals.cpp:64-102 | once the flag is set each worker step decreases a measure that no other step raises |
| Pipeline.OneLastSwap | src/libtego/source/signals.cpp:64-72 | after the flag at most one more swap happens, and only past the loop test |
| Pipeline.WorkerExits | src/libtego/source/signals.cpp:64-102 | in every fair endless run with the flag set the worker exits, however fast producers push |
| Pipeline.Shutdown | src/libtego/source/signals.cpp:64-112 | by then the callbacks run are a prefix of those pushed and only the pending ones are left |
| Pipeline.WholeTurnIsRun | src/libtego/source/signals.cpp:64-90 | what WorkerTurn does is one of the interleavings |
| Pipeline.WholeDrainIsRun | src/irc/libtego_callbacks.cpp:95-122 | what ConsumeTasks does is one of the interleavings |
| Pipeline.EventPipeline.EmitEvent | src/libtego/source/signals.hpp:67-78 | an event without a registered callback, or after termination, goes nowhere; the order invariant is kept |
| Pipeline.EventPipeline.PushBack | src/libtego/source/signals.cpp:104-112 | the push is the machine's step and keeps the order invariant |
| Pipeline.EventPipeline.InvokeCallback | src/libtego/source/signals.cpp:74-84 | a callback pushes its one task, or none when it throws, and keeps the order invariant |
| Pipeline.EventPipeline.WorkerTurn | src/libtego/source/signals.cpp:64-90 | the loop body runs the whole pending batch once and in order, and keeps the order invariant |
| Pipeline.EventPipeline.ConsumeTasks | src/irc/libtego_callbacks.cpp:95-122 | one firing runs every queued task once and in order, whichever throw, and keeps the order invariant |
| IrcInvariant.StartInv | src/irc/RicochetIrcServer.cpp:119-148 | the invariant holds at the start |
| IrcInvariant.ConnectKeepsInv | src/irc/IrcServer.cpp:88-125 | so it does after a new connection |
| IrcInvariant.QuitKeepsInv | src/irc/IrcServer.cpp:271-279 | and after QUIT, which leaves the channels but not the server |
| IrcInvariant.DisconnectKeepsInv | src/irc/IrcServer.cpp:281-292 | and after a disconnect |
| IrcInvariant.RenameKeepsInv | src/irc/IrcServer.cpp:314-327 | a rename that is refused for a taken nick keeps nicks unique |
| IrcInvariant.JoinKeepsInv | src/irc/IrcConnection.cpp:370-395 | joining keeps members users |
| IrcInvariant.PartKeepsInv | src/irc/IrcServer.cpp:263-269 | parting keeps virtual users in the control channel |
| IrcInvariant.SetFlagsExact | src/irc/IrcChannel.cpp:52-56 | setting flags in any channel, which inserts a user that is no member, keeps the invariant exactly when the user is virtual or a logged-in client |
| IrcInvariant.LogInEffect | src/irc/RicochetIrcServer.cpp:243-266 | however many clients there were, exactly the one that logged in is left, as operator of the control channel |
| IrcInvariant.CompletedLogin | src/irc/IrcConnection.cpp:166-177 | the last missing flag completes the login and keeps the invariant |
| IrcInvariant.HandlePassKeepsInv | src/irc/IrcConnection.cpp:231-254 | PASS keeps the invariant |
| IrcInvariant.HandleNickKeepsInv | src/irc/IrcConnection.cpp:256-275 | NICK does, though a refused nick still sets its flag |
| IrcInvariant.HandleUserKeepsInv | src/irc/IrcConnection.cpp:277-301 | USER does, with its two disconnecting errors |
| IrcRuns.CmdDeleteExact | src/irc/RicochetIrcServer.cpp:475-499 | deleting follows a null pointer exactly when the named contact has no IRC user; otherwise the invariant is kept |
| IrcRuns.CmdRenameKeepsInv | src/irc/RicochetIrcServer.cpp:502-540 | renaming a contact renames its IRC user too and keeps nicks unique |
| IrcRuns.HandlePrivmsgKeepsInv | src/irc/RicochetIrcServer.cpp:322-370 | the control channel's commands keep the invariant |
| IrcRuns.HandleLineKeepsInv | src/irc/IrcConnection.cpp:180-216 | every line keeps the invariant |
| IrcRuns.ContactStatusExact | src/irc/RicochetIrcServer.cpp:624-666 | a contact's status change keeps the invariant exactly when no client outside the control channel holds its name |
| IrcRuns.FirstContactExact | src/irc/shims/ContactsManager.cpp:76-84 | the lookup by nickname finds a contact exactly when there is one |
| IrcRuns.LateLineExact | src/irc/IrcConnection.cpp:180-216 | a line of a connection that was closed breaks the invariant exactly when it completes the login or joins a channel |
| IrcRuns.NewVirtualUserExact | src/irc/RicochetIrcServer.cpp:633-643 | the user made for a contact is new, has its name, is mapped and in the control channel, and fits the invariant exactly when no client shadows it |
| IrcRuns.MappedStep | src/irc/RicochetIrcServer.cpp:475-666 | a contact gets an IRC user exactly by a status change under a name free in the control channel, and loses it exactly by its deletion |
| IrcRuns.StepExact | src/irc/IrcConnection.cpp:180-216 | an event that follows no null pointer keeps the invariant if and only if no closed connection logs in or joins by it and no contact comes up shadowed |
| IrcRuns.RunExact | src/irc/IrcConnection.cpp:180-216 | a run stays within the invariant throughout if and only if all its events are of that kind |
| IrcRuns.Reachable | src/irc/RicochetIrcServer.cpp:475-666 | in every reachable state non-empty nicks are unique, the contact map is injective, at most one client is logged in, and the rest of the invariant holds |
| IrcRuns.LoginTakesOver | src/irc/RicochetIrcServer.cpp:243-278 | whichever line completes a login, the clients are then that connection alone, it is welcomed once and is operator |
| IrcRuns.PasswordGate | src/irc/IrcConnection.cpp:200-215 | on a server with a password, a connection that never sent it has no nick, is in no channel and is never welcomed |
| IrcHistory.ContactsStep | src/irc/RicochetIrcServer.cpp:441-499 | the contacts after an event are those before and the one an add command or the contacts manager adds, less the one a delete command names |
| IrcHistory.ContactsHistory | src/irc/shims/ContactsManager.cpp:47-52 | in every reachable state the contacts are those added and not deleted since |
| IrcHistory.NameStep | src/irc/RicochetIrcServer.cpp:502-551 | a contact's name is the one it was added under until a rename to a free name, and gone when it is deleted |
| IrcHistory.NamesHistory | src/irc/RicochetIrcServer.cpp:441-551 | in every reachable state a contact's name is the last one given, unless it was deleted since |
| IrcHistory.UserStep | src/irc/RicochetIrcServer.cpp:475-666 | a contact keeps the IRC user made for it, a new one, until it is deleted |
| IrcHistory.NickStep | src/irc/IrcServer.cpp:314-327 | a user's nick changes only by its own NICK to a free one, by a rename of its contact, or by being created under its contact's name |
| IrcHistory.NicksHistory | src/irc/IrcServer.cpp:314-327 | in every reachable state a user's nick is the last one given |
| IrcHistory.ClientStep | src/irc/IrcServer.cpp:127-154 | the clients after an event are those before and the one that connects, less the one whose socket, password or user data closes it, and less all others when one logs in |
| IrcHistory.ConnStep | src/irc/IrcConnection.cpp:166-300 | PASS, NICK and USER each set their own flag and data, all three flags together bring the welcome, and no other line or connection changes a record |
| IrcHistory.MemberStep | src/irc/IrcChannel.cpp:42-56 | who is in a channel after an event and with which flags: +o by a login, none by JOIN, +v or -v by a contact's status; out by PART, QUIT, a close, another's login or a deletion |
| IrcHistory.MembersHistory | src/irc/RicochetIrcServer.cpp:119-151 | in every reachable state a user's flags in a channel are the last shown unless it left since; at the start @ricochet alone is in the control channel |
| IrcPatterns.NickPattern | src/irc/IrcConnection.cpp:41-45 | the nick check accepts exactly what the anchored regular expression matches |
| IrcPatterns.RealnamePattern | src/irc/IrcConnection.cpp:47-48 | the check of a real name accepts exactly what the expression without an end anchor matches |
| IrcPatterns.ChannelPattern | src/irc/IrcConnection.cpp:50-51 | the channel check accepts exactly what the anchored expression with the negated set matches |
| IrcPatterns.TrimExact | src/irc/RicochetIrcServer.cpp:326-330 | trimming takes off blanks at both ends, and all of them |
| IrcFailures.LateLoginHappens | src/irc/IrcConnection.cpp:92-108 | a run from the start in which a closed connection logs in |
| IrcFailures.LateJoinHappens | src/irc/IrcConnection.cpp:290-317 | a run from the start in which a bad real name closes a connection that then joins a channel |
| IrcFailures.DeletingFails | src/irc/RicochetIrcServer.cpp:475-499 | a run from the start in which a logged-in client deletes a contact that never came online |
| IrcFailures.ShadowingHappens | src/irc/RicochetIrcServer.cpp:624-643 | a run from the start into a contact that shares its nick with a client |
| IrcFailures.ContactWithoutUser | src/irc/RicochetIrcServer.cpp:629-632 | a run from the start into a contact that is online and has no IRC user |
| IrcGateway.Gateway.FindUser | src/irc/IrcServer.cpp:294-312 | finds a client or virtual user of the nick exactly when there is one, clients first |
| IrcGateway.Gateway.GetMember | src/irc/IrcChannel.cpp:96-111 | finds a member of the nick exactly when there is one |
| IrcGateway.Gateway.Disconnect | src/irc/IrcServer.cpp:281-292 | the nested disconnect through the socket ends, leaves no trace of the connection, and keeps the invariant |
| IrcGateway.Gateway.Rename | src/irc/IrcServer.cpp:314-327 | renames unless somebody has the nick |
| IrcGateway.Gateway.KillOtherConnections | src/irc/RicochetIrcServer.cpp:254-265 | the loop of nested disconnects closes every other client |
| IrcGateway.Gateway.CmdDelete | src/irc/RicochetIrcServer.cpp:475-499 | the in-place deletion is the state machine's, null pointer included |
| IrcGateway.Gateway.OnContactStatusChanged | src/irc/RicochetIrcServer.cpp:624-666 | the slot is the state machine's event, and keeps the invariant exactly when the contact is not shadowed |
| IrcGateway.Gateway.NewConnection | src/irc/IrcServer.cpp:88-125 | a new connection keeps the invariant |
| IrcGateway.Gateway.HandleLine | src/irc/IrcConnection.cpp:180-216 | dispatch and handlers together are the state machine's step, fail where it follows a null pointer, and keep the invariant exactly when the line is expected |
| ConversationTypes.IndexOf | src/libtego_ui/shims/ConversationModel.cpp:746-777 | the three lookups return the newest match, or -1 when there is none |
| ConversationLog.EventsAreStable | src/libtego_ui/shims/ConversationModel.cpp:698-725 | over any run without clear() each logged event stays and denotes the same message: same kind, text, id and direction |
| ConversationLog.RunStaysSound | src/libtego_ui/shims/ConversationModel.cpp:650-725 | over any run every event since the last clear() has its index in range and a message of its kind |
| ConversationLog.ListedExact | src/libtego_ui/shims/ConversationModel.cpp:664-725 | from an empty list, the text events list the text messages once each, oldest first, exactly when no transfer operation hit a text message of the same id |
| ConversationLog.PositionsStep | src/libtego_ui/shims/ConversationModel.cpp:180-216 | only sending and receiving a text adds a text message, as the newest; every other operation keeps the positions of the others |
| ConversationLog.IndicesStep | src/libtego_ui/shims/ConversationModel.cpp:698-725 | the log grows by the index of the text message that came in, or of the one a transfer operation hit, and by no other text event |
| ConversationLog.TextPositionsExact | src/libtego_ui/shims/ConversationModel.cpp:698-725 | the list of positions is increasing and holds exactly the text messages |
| ConversationLog.ClearExact | src/libtego_ui/shims/ConversationModel.cpp:650-662 | after clear() the whole log can be followed exactly when it held status events only |
| ConversationLog.ClearBreaksTheLog | src/libtego_ui/shims/ConversationModel.cpp:650-662 | two runs in which an event then points past the list, or at another message |
| ConversationLog.AcknowledgementExact | src/libtego_ui/shims/ConversationModel.cpp:566-596 | after any run the assertions that an acknowledged or answered message is there hold exactly when its id was sent since the last clear(); for a text also while nothing was stored since |
| ConversationLog.LateAcknowledgement | src/libtego_ui/shims/ConversationModel.cpp:681-696 | a run in which the assertion fails |
| ConversationHistory.OnlyTheHitChanges | src/libtego_ui/shims/ConversationModel.cpp:427-696 | an operation on an existing message changes that one's status, transfer status or byte count as it says, and no other message |
| ConversationHistory.NewMessage | src/libtego_ui/shims/ConversationModel.cpp:180-216 | a new message goes in front of the unchanged others, queued if sent, received if not |
| ConversationHistory.TransferLogged | src/libtego_ui/shims/ConversationModel.cpp:698-725 | the event logged for a transfer tells its status and bytes after the operation |
| ConversationHistory.StatusHistory | src/libtego_ui/shims/ConversationModel.cpp:681-696 | after any run the newest message sent under an id is queued while nothing acknowledged it since it was sent, and else delivered or failed as the last acknowledgement accepted it or not |
| ConversationHistory.TextsHistory | src/libtego_ui/shims/ConversationModel.cpp:650-679 | after any run the texts in the list are those sent and received since the last clear(), in order |
| ConversationHistory.UnreadHistory | src/libtego_ui/shims/ConversationModel.cpp:159-178 | after any run the counter is the number of messages and offers received since it was last reset or the list cleared |
| ConversationHistory.StatusesHistory | src/libtego_ui/shims/ConversationModel.cpp:727-738 | after any run the log tells every change of the contact's status, in order |
| ConversationHistory.ExportTellsStatuses | src/libtego_ui/shims/ConversationModel.cpp:344-374 | an export after any run tells every change of the contact's status but the outdated ones, in order |
| ConversationHistory.ExportTellsTransfers | src/libtego_ui/shims/ConversationModel.cpp:301-342 | an export tells every request, answer and end of a transfer, and of a failure how far it got |
| ConversationLog.StrayHappens | src/libtego_ui/shims/ConversationModel.cpp:473-488 | a run in which cancelling a transfer logs a text message again |
| ConversationLog.ApplyKeepsCount | src/libtego_ui/shims/ConversationModel.cpp:159-178 | the counter lies between 0 and the received messages, and the contacts manager heard it last |
| ConversationLog.UnreadConserved | src/libtego_ui/shims/ConversationModel.cpp:14-25 | in every reachable state the global count is the sum of all conversations' counters |
| ConversationLog.FollowPositions | src/libtego_ui/shims/ConversationModel.cpp:276-299 | following the positions yields the texts, oldest first |
| ConversationLog.TextsOfLines | src/libtego_ui/shims/ConversationModel.cpp:276-390 | the text lines of an export are the texts its events denote, in order |
| ConversationModel.Conversation.SendMessage | src/libtego_ui/shims/ConversationModel.cpp:180-216 | an empty text does nothing, another is prepended as queued and logged, and the log stays sound |
| ConversationModel.Conversation.MessageReceived | src/libtego_ui/shims/ConversationModel.cpp:664-679 | prepends, counts and logs, and keeps the counter within the received messages |
| ConversationModel.Conversation.MessageAcknowledged | src/libtego_ui/shims/ConversationModel.cpp:681-696 | fails exactly where the assertion does; otherwise updates the newest outgoing message of the id |
| ConversationModel.Conversation.FileTransferRequestResponded | src/libtego_ui/shims/ConversationModel.cpp:576-596 | fails exactly where the assertion does; otherwise records and logs the answer |
| ConversationModel.Conversation.CancelFileTransfer | src/libtego_ui/shims/ConversationModel.cpp:473-507 | cancels and logs once, and the log stays sound |
| ConversationModel.Conversation.FileTransferRequestCompleted | src/libtego_ui/shims/ConversationModel.cpp:611-648 | records and logs the result, and the log stays sound |
| ConversationModel.Conversation.Clear | src/libtego_ui/shims/ConversationModel.cpp:650-662 | empties the list and the counter, not the events, of which only later ones stay sound |
| ConversationModel.Conversation.ExportConversation | src/libtego_ui/shims/ConversationModel.cpp:276-425 | fails exactly when an event points past the list; otherwise writes every event's line in order, and all texts, oldest first, when the log lists them |
| Forwarding.ForwardedExactlyOnce | src/irc/RicochetIrcServer.cpp:671-705 | over any run of messages and IRC events, each client's inbox grows by exactly the lines of the messages received while it was connected, in order of arrival |
| Forwarding.ArrivedAll | src/irc/RicochetIrcServer.cpp:671-705 | while nobody comes or goes, the messages a client gets are all the texts of the run, in order, under its own nick |
| Forwarding.ParcelRejoins | src/irc/RicochetIrcServer.cpp:690-703 | those lines hold no line break and join to the message's text; sender and addressee are right |
| Forwarding.TextGoesOut | src/irc/RicochetIrcServer.cpp:671-705 | a received text reaches every connected client as lines that join to that very text, from the contact's nickname |
| Forwarding.OfferGoesOut | src/irc/RicochetIrcServer.cpp:684-703 | an offered file reaches it as the one line that says so |
| Forwarding.SenderIsContact | src/irc/RicochetIrcServer.cpp:696-701 | the sender shown is the contact's nickname |
| Forwarding.IrcStatusHistory | src/irc/shims/ConversationModel.cpp:563-584 | after any run in the IRC build too the newest message sent to a contact is queued, delivered or failed as its last acknowledgement says |
| Forwarding.RunStaysQuiet | src/irc/shims/ConversationModel.cpp:532-561 | between events nothing is unread, no received message is stored, and the global count has not moved |
| Forwarding.PostLinesInbox | src/irc/RicochetIrcServer.cpp:693-702 | sending lines appends them to every client's inbox and to no other |
| Forwarding.ReceiveExact | src/irc/RicochetIrcServer.cpp:696-701 | after any run from the start a message is fatal exactly when somebody is connected and its contact has not come up under a free name since it was last deleted |
| ForwardingFailures.MessageFails | src/irc/RicochetIrcServer.cpp:671-705 | a run from the start into a fatal message |
| Forwarding.ManagerHearsStaleCount | src/irc/shims/ConversationModel.cpp:164-178 | over any run the manager hears 0 and then 1 for every message of a contact, so what it heard last is right exactly when none came in |
| IrcConversation.Conversation.SendLines | src/irc/RicochetIrcServer.cpp:693-702 | the two loops reach every client with every line, in whatever order clients are visited, or fail at the first client when the contact has no user |
| IrcConversation.Conversation.SetUnreadCount | src/irc/shims/ConversationModel.cpp:164-178 | the nested calls end, and leave the list drained and the newest message forwarded, or fail exactly when it cannot be |
| IrcConversation.Conversation.OnUnreadCountChanged | src/irc/RicochetIrcServer.cpp:671-705 | the loop over the list it clears runs at most once |
| IrcConversation.Conversation.Clear | src/irc/shims/ConversationModel.cpp:532-544 | clearing resets the counter through a nested notification that cannot fail |
| IrcConversation.Conversation.MessageReceived | src/irc/shims/ConversationModel.cpp:546-561 | fails exactly when the contact has no user while somebody is connected; otherwise the message is forwarded once, gone before it could be logged, and nothing is left unread |
| IrcConversation.Conversation.FileTransferRequestReceived | src/irc/shims/ConversationModel.cpp:426-446 | an offered file is forwarded as a fixed text, under the same condition |
| IrcConversation.Conversation.SendMessage | src/irc/shims/ConversationModel.cpp:180-216 | an outgoing message is stored and logged as in the graphical build |
| IrcConversation.Conversation.MessageAcknowledged | src/irc/shims/ConversationModel.cpp:563-584 | acknowledgements of messages that are gone are ignored |
| Contacts.ContactSortExact | src/libtego_ui/ui/ContactsModel.cpp:39-44 | contactSort is a strict weak order exactly when the collation is one |
| Contacts.InOrderMeans | src/libtego_ui/ui/ContactsModel.cpp:39-44 | a list is in order exactly when it holds nobody twice, statuses ascend, and within a status no nickname is collated before an earlier one |
| Contacts.ShortcutStaysSorted | src/libtego_ui/ui/ContactsModel.cpp:111-121 | keeping the old list when the user's row is unchanged leaves it sorted, ties or not |
| Contacts.InsertSorted | src/libtego_ui/ui/ContactsModel.cpp:137-142 | inserting at the lower bound keeps the list sorted |
| Contacts.LowerBound | src/libtego_ui/ui/ContactsModel.cpp:137-138 | the binary search finds the partition point |
| Contacts.MoveMirrors | src/libtego_ui/ui/ContactsModel.cpp:115-120 | the announced single-row move turns the old list into the sorted one when no two other contacts tie |
| Contacts.MirrorExact | src/libtego_ui/ui/ContactsModel.cpp:115-120 | it does so for every outcome of the sort if and only if no two other contacts tie |
| Contacts.TieHappens | src/libtego_ui/ui/ContactsModel.cpp:115-120 | a tie and an outcome of the sort that leave the view in another order than the list |
| Contacts.RunStaysInOrder | src/libtego_ui/ui/ContactsModel.cpp:95-156 | over any run of additions, removals and key changes the list stays sorted, and holds, once each, the contacts it had and those added, less those gone |
| Contacts.RunStaysMirrored | src/libtego_ui/ui/ContactsModel.cpp:95-156 | a view that only replays the announced changes stays equal to the list as long as no others tie when one moves |
| Contacts.RekeyedIsUpdate | src/libtego_ui/ui/ContactsModel.cpp:95-122 | a run's key change leaves what updateUser leaves: a sorted permutation, the old list if the row is unchanged, the moved list if no others tie |
| Contacts.ContactsModel.constructor | src/libtego_ui/ui/ContactsModel.cpp:68-76 | the list starts as a sorted permutation of the known contacts |
| Contacts.ContactsModel.ContactAdded | src/libtego_ui/ui/ContactsModel.cpp:131-143 | adds one contact, keeps order, and announces the right row |
| Contacts.ContactsModel.UpdateUser | src/libtego_ui/ui/ContactsModel.cpp:95-122 | yields a sorted permutation, the old list if the row is unchanged, and announces the move |
| Contacts.ContactsModel.ContactRemoved | src/libtego_ui/ui/ContactsModel.cpp:145-156 | removes one contact, keeps every order, and announces the right row |
| BaseN.FromToBits | src/libtego/source/ed25519.cpp:98-103 | a number's bits determine it |
| BaseN.GatherSpread | src/libtego/source/ed25519.cpp:98-103 | words spread to bits and gathered again, some bits left over, are the words |
| BaseN.SpreadGather | src/libtego/source/ed25519.cpp:98-103 | bits gathered to words and spread again lose only the last incomplete word |
| BaseN.DecodeEncode | src/libtego/source/ed25519.cpp:352-354 | decoding an encoding gives the bytes, in both alphabets |
| BaseN.EncodeDecodeExact | src/libtego/source/ed25519.cpp:98-103 | encoding a decoded text gives it back exactly when it has no superfluous digit and only zero bits are dropped |
| BaseN.EncodingIsNumeral | src/libtego/source/ed25519.cpp:352-354 | an encoding read as a base 32 or 64 numeral is the bytes read as a base 256 numeral, times a power of two for the padding |
| BaseN.DigitsExact | src/libtego/source/ed25519.cpp:98-103 | the v-th digit is the v-th character of the alphabet |
| Ed25519.IdOfIsValid | src/libtego/source/ed25519.cpp:322-361 | for every key and hash the id is valid, in the alphabet, and decodes to the key |
| Ed25519.ValidIsIdOf | src/libtego/source/ed25519.cpp:88-128 | every valid id is the id of the 32-byte key it decodes to |
| Ed25519.ValidExact | src/libtego/source/ed25519.cpp:88-128 | the valid ids are exactly the ids of keys |
| Ed25519.ChecksumExact | src/libtego/source/ed25519.cpp:40-69 | the checksum is the first two bytes of the digest of the text .onion checksum, the key and the byte 3 |
| Ed25519.ValidMeansVersion3 | src/libtego/source/ed25519.cpp:88-128 | an id is valid exactly when its 56 digits decode to 35 bytes: a key, the checksum of that key, and the version byte 3 |
| Ed25519.LastDigit | src/libtego/source/ed25519.cpp:322-361 | the id of every key holds the version byte 3 and ends in d |
| Ed25519.ValidEndsInD | src/libtego/source/ed25519.cpp:88-128 | so does every valid id |
| Ed25519.Decode64Encode64 | src/libtego/source/ed25519.cpp:160-163 | padded base 64 decodes to what was encoded, for any bytes |
| Ed25519.KeyBlobRoundTrip | src/libtego/source/ed25519.cpp:136-207 | the blob of every 64-byte key passes every check and gives the key back |
| Ed25519.BlobLength | src/libtego/source/ed25519.cpp:173-207 | header and 88 digits make 99 characters, none of them the terminator |
| Ed25519.BlobText | src/libtego/source/ed25519.cpp:173-207 | the blob is ED25519-V3:, the digits of the key, and two equals signs |
| Ed25519.AcceptedBlobExact | src/libtego/source/ed25519.cpp:136-171 | an accepted blob has the claimed length, and is its key's blob exactly when it is canonical |
| Ed25519.TruncatedChecksum | src/libtego/source/ed25519.cpp:40-69 | the buffer hashed is prefix, key and version; two bytes are kept |
| Ed25519.ViewIsValid | src/libtego/source/ed25519.cpp:88-128 | the checks on buffers are the validity predicate |
| Ed25519.ServiceIdFromString | src/libtego/source/ed25519.cpp:72-86 | accepts exactly texts whose first 56 characters are a valid id, and keeps those |
| Ed25519.ServiceIdToString | src/libtego/source/ed25519.cpp:264-284 | copies 57 characters, or nothing into a buffer that is too small |
| Ed25519.PublicKeyFromServiceId | src/libtego/source/ed25519.cpp:286-320 | yields the first 32 decoded bytes |
| Ed25519.ServiceIdFromPublicKey | src/libtego/source/ed25519.cpp:322-361 | yields the zero-terminated id of the key |
| Ed25519.KeyBlobFromPrivateKey | src/libtego/source/ed25519.cpp:173-207 | fails only for a small buffer; otherwise writes the blob and zeros and nothing past the size |
| Ed25519.PrivateKeyFromKeyBlob | src/libtego/source/ed25519.cpp:136-171 | accepts exactly the texts that pass the checks and yields their key |

## Left out

- Settings files: reading, writing, permissions, the sync timer and reloading (a reload refreshes root objects only).
- Settings signals that carry no data (path changed, data changed), objects without a file, and slots that write again while they are being notified.
- SettingsCoherence.CoherenceExact: is about the one value written; several writes between two looks at a cache follow by repeating it.
- Pipeline: the context lock held during a callback, the sleeps, deletion of callback arguments, and a worker that is never scheduled.
- Pipeline.EventPipeline.WorkerTurn: is one undisturbed turn; interleavings with other threads are those of the state machine.
- Sockets, buffering, character encodings, the message regular expression, reply texts and broadcasts: a line arrives as a command with parameters.
- A socket's close signal that arrives later than the disconnect that caused it.
- Starting and stopping Tor when clients log in and leave.
- Direct messages to contacts, contact requests over IRC, help and id output; a PRIVMSG with an empty target, which the source indexes out of range.
- Contact statuses other than online and offline change nothing in the gateway; the order of hash tables is arbitrary.
- IrcGateway.Gateway.OnContactStatusChanged: which of several equally named members the lookup finds is the ghost result.
- ConversationModel.Conversation.SetUnreadCount: the graphical build's own listeners on the unread signal are not modelled, so no re-entrancy there.
- File names, sizes and hashes of transfers, times and attempt counts; file dialogs, whose nested event loop could shift the rows of a list that an operation still refers to.
- In the IRC build, file transfer callbacks after the offer, which act as in the graphical build; an entry for a null user that a lookup in the contact map leaves behind.
- ConversationModel.Conversation.ExportConversation: lines without times and names, which are not part of this model.
- Contacts: locale collation is any function whose negative results form a strict weak order; data changes move nothing.
- Ed25519: base 32 in lower case and base 64 without white space; Tor's decoders accept more. SHA3-256 is any function to 32 bytes that does not fail.
- Null checks and error objects of the C interface, signatures, the derivation of public keys.
- Tor configuration, process control, bridges, QML, translations, dialogs, logging.
- The graphical build's copies of the settings store and of the task queue, which are the same code.
