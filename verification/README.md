# Verified model of the chat engine and of the CLI11 string codec

This project models two parts of the repository in Dafny and proves properties of them:

* the chat engine: the buffer, the whole-transfer helpers, the descriptor owner, the client and the
  server, over any number of poll rounds and any behaviour of `read`, `write`, `accept` and `poll`;
* the string and number codec of `include/CLI11.hpp` that writes option values to a configuration file
  and reads them back, with the escapes, UTF-8 and the checked multiplication below it.

`dafny verify dfyconfig.toml` checks everything.

## How the model is built

**System calls.** `kernel.dfy` holds a descriptor table over byte channels. Every opened channel gets a
fresh identity, because descriptor numbers are used again after a close. Each channel carries a script of
outcomes for `read` and `write` (how many bytes at most, interrupted, failed); every theorem is for all
scripts. The class `OS` is the kernel as an object that calls change. What `poll`, `accept`, `socket`,
`bind`, `connect` and `signalfd` return is a parameter, so every theorem about a run is for all sequences of
returns.

**Objects and values.** `protocol::Buffer`, `ScopedFileDescriptor`, `ChatClient`, `ClientInfo` and
`ChatServer` are classes with the fields the program has, changed in place. Each also has a value
(`Buf`, `Client`, `Slot`, `Server`), and every method is proved to take that value through a step function
(`Drained`, `StdinStep`, `Sweep`, `Round`, ...). The theorems about runs are lemmas about those functions.

**The server's bookkeeping.** `Server.h` is a ghost history that the program does not have: the log of
broadcasts, the log positions at which each connection joined and left, which connections have had their
descriptor moved to another slot or have sent a chunk that did not end a line, and which broadcasts had a
write that failed. For the client, `ClientHistory.Past` lists the sockets that `run` has sent the name on, which
the actions of an execution determine (`ClientHistory.Made`), and what each drain of the write buffer put on which.

**Exceptions** are the outcome `Threw` or the result `Thrown`; the state after them is part of every theorem
that says so.

**Files**, from the bottom up: `wrappers`, `kernel`, `lines`, `net_io`, `net_utils`, `descriptors`,
`protocol_buffer`; the client in `client_model`, `client_streams`, `client_sessions`, `client_turns`,
`client_descriptors`, `client_history` and the class in `chat_client`; the server in `server_model`,
`server_induction`, `server_descriptors`, `server_sweep`, `server_order`, `server_names`, `server_replies`,
`moved_connection` (one whole run as an example), then `server_steps` and `server_polling` (the same steps in the
pieces the loop takes them) and the class in `chat_server`; the codec in `text`, `utf8`, `escapes`,
`escape_grammar`, `binary_escape`, `brackets`, `bracket_groups`, `quoted_string`, `quoted_forms`, `option_results`,
`array_values`, `ini_values`, `written_forms`, `list_round_trip`, `checked_arithmetic`.

**Two descriptions.** What a step or a scan does is written down a second time, without the functions that the
classes and methods are proved against, and the two are proved to agree: turns of the client's loop on channels and
screen in `client_turns`, answers of the server in `server_replies`, the escape grammar with its tables in
`escape_grammar`, texts printed from trees of brackets in `bracket_groups` and of arrays in `array_values`, and
the characters of a quoted and of a written value in `quoted_forms` and `written_forms`.

## Where the code differs from what one would expect

The model follows the code in each case, and the lemma named with it says what the code does instead. Where
a property fails for some inputs, the lemma states the exact condition under which it holds.

* The server reads at the start of a slot's buffer, not behind what the buffer holds
  (src/chat_server.cpp:145-147). `ServerNames.ReadAtStartAppends` shows that this appends every chunk that fits if
  and only if the buffer is empty, or full, when no chunk fits; `ServerNames.SecondReadOverwrites` is an example.
* With a slot's buffer full, the server asks for 0 bytes, gets 0, and removes a connection that is alive
  (src/chat_server.cpp:145-170). `ServerNames.RemovedWhen` says exactly when a slot is removed.
* A removal moves the last slot's descriptor only, so its name, buffer and state stay behind
  (src/chat_server.cpp:131, 163). `ServerNames.RemovalKeepsSlots` gives the exact condition under which
  nothing is mixed up; `MovedConnection.NameStaysWithSlot` is a run, from the constructed server on, in which what
  Bob says is sent to Carol as said by Alice, who has left.
* The `n < 0` branch, which would drop only a connection that was reset (src/chat_server.cpp:149-160), cannot be
  reached, because `read_fd` throws on -1 (src/net_unix.cpp:16-21). `ServerNames.ServeThrows` says exactly when
  serving a client throws: on any read that fails or is interrupted, and on a failed write of the broadcast.
  By `ServerNames.FailedReadEndsLoop`, one such read ends the event loop for everybody.
* One prefix `[name]: ` is put in front of a batch of lines, not in front of each line
  (src/chat_server.cpp:231-235). `ServerNames.OnePrefixForBatch` shows that the text sent has a prefix for each of
  its lines if and only if it is one line.
* A write that fails leaves a complete line in the client's write buffer, and `stop` does not empty it
  (src/chat_client.cpp:92-140), so the next connection does not start as the first one did.
  `ClientHistory.IdleAgain` gives the exact condition, and by `ClientHistory.SessionLeavesNoLine` only an exception
  breaks it; what every connection then carries is in `ClientHistory.HistoryOfUse` and `ClientHistory.ShareOfTyped`.
* The client does not notice that the server has closed the connection: a read of 0 bytes from the socket ends
  nothing (src/chat_client.cpp:109-119). `ClientTurns.ServerTurn` says what every such read does.
* An array whose text has every character twice between `[[` and `]]`, such as `[[aa]]`, is stored as one value
  (include/CLI11.hpp:6939-6957). `ArrayValues.ArrayIsFlattened` gives the exact condition under which an array is
  taken apart; `ArrayValues.MarkedArrayIsOneValue` is an example.
* A line longer than 1024 bytes fills the client's buffer: on standard input the next read returns 0 and is
  taken for the end of file (`ClientSessions.RoomIffShortLines`, `ClientSessions.StdinZero`); on the socket
  no later session shows or buffers anything (`ClientSessions.FullReadBufferIsStuck`).
* A client `run` that fails after its signal descriptor is there, because the name cannot be sent, leaves that
  descriptor open, and no other failure leaves anything open (`ClientDescriptors.FailedRunLeaves`). The client
  holds it, so a later `run` or `stop` closes it (`ClientDescriptors.StoppedClientLeaksNothing`).
* `remove_escaped_characters` throws on a surrogate but drops a code above U+10FFFF without an error
  (`Escapes.WideEscapesRoundTrip`, `Escapes.CodeAboveRangeIsDropped`).
* `binary_escape_string` without `force` returns text that needs no escape as it stands, even when that text
  already has the escaped form and will be read as something else (`BinaryEscape.UnforcedRoundTrip`,
  `BinaryEscape.UnforcedLosesForm`).
* A written list is read back as written if and only if the option's own delimiter breaks up none of its
  values (`ListRoundTrip.WriteThenRead`, `ListRoundTrip.DelimiterBreaksValue`).
* `increase_size` accepts a negative count and can make the size negative
  (`ProtocolBuffer.Buffer.IncreaseSize`); no caller in the repository passes one.

## Model

| member | source | states |
|---|---|---|
| OperatingSystem.Write | src/net_io.cpp:20-20 | a `write` accepts a beginning of the data and puts exactly that on the channel, or reports an interrupt or an error and puts nothing on it |
| OperatingSystem.Read | src/net_io.cpp:48-48 | a `read` takes bytes off the front of what is incoming; it returns 0 only when nothing was asked for or the stream has ended |
| NetIo.Writen | src/net_io.cpp:12-32 | returns the full length if and only if everything was accepted, through any short writes and interrupts, and -1 otherwise; the loop ends by bytes left and interrupts left |
| NetIo.WriteFull | src/net_io.cpp:34-37 | returns exactly when the whole transfer succeeded |
| NetIo.Readn | src/net_io.cpp:39-63 | the bytes read stand at the start of the memory, the rest of it is untouched, and the count is -1 exactly on an error |
| NetIo.ReadFull | src/net_io.cpp:65-71 | returns the count of bytes stored, and throws exactly on an error |
| NetIo.SendAllAppends | src/net_io.cpp:12-37 | a transfer appends a beginning of the data, and the whole of it if and only if it succeeds, for every script of short writes and interrupts |
| NetIo.ReceiveAllTakes | src/net_io.cpp:39-71 | what is read is the front of the stream; a success takes exactly n bytes or all there are before the end of file |
| NetIo.TransferIdentity | src/net_io.cpp:12-71 | what one side writes in full and the other reads in full over unreliable channels is the same text |
| NetIo.WriteAllAppends | src/net_io.cpp:12-37 | a write changes one channel only, by a beginning of the data, all of it exactly on success |
| NetUtils.ScopedFileDescriptor.Move | include/net_utils.hpp:24-25 | ownership moves and nothing is closed |
| NetUtils.ScopedFileDescriptor.MoveAssign | include/net_utils.hpp:27-34 | the old descriptor is closed once and the other one taken over; assigning to itself does nothing |
| NetUtils.ScopedFileDescriptor.Reset | include/net_utils.hpp:47-52 | the descriptor held is closed if there was one |
| NetUtils.ScopedFileDescriptor.Release | include/net_utils.hpp:54-56 | the descriptor is given up without a close |
| NetUtils.ScopedFileDescriptor.Destroy | include/net_utils.hpp:58-60 | the destructor closes what is held |
| Lines.CompleteAppend | src/protocol_buffer.cpp:97-104 | of a stream read in pieces, only the unfinished line and the new bytes matter to what is complete next |
| Lines.CompleteFirst | src/protocol_buffer.cpp:78-104 | taking the first line out leaves the other complete lines and the same unfinished one |
| Lines.SplitConcat | src/protocol_buffer.cpp:122-128 | the complete lines one by one, put together, are the text up to the last delimiter |
| ProtocolBuffer.Compacted | src/protocol_buffer.cpp:148-159 | compaction drops exactly the first len bytes of the contents |
| ProtocolBuffer.Buffer.Copy | src/protocol_buffer.cpp:11-14 | a copy has the same contents |
| ProtocolBuffer.Buffer.Move | src/protocol_buffer.cpp:26-31 | a move takes the contents and leaves the other buffer empty |
| ProtocolBuffer.Buffer.CopyAssign | src/protocol_buffer.cpp:16-23 | copy assignment takes the contents and leaves the other buffer alone, itself included |
| ProtocolBuffer.Buffer.MoveAssign | src/protocol_buffer.cpp:33-42 | move assignment takes the contents and empties the other buffer; onto itself it changes nothing |
| ProtocolBuffer.Buffer.Clear | src/protocol_buffer.cpp:44-46 | the contents are empty afterwards |
| ProtocolBuffer.Buffer.IncreaseSize | src/protocol_buffer.cpp:56-61 | throws exactly when the count exceeds the free space, and keeps 0 <= size <= 1024 exactly when the size does not become negative |
| ProtocolBuffer.Buffer.Append | src/protocol_buffer.cpp:67-76 | appends the first len bytes, or throws and changes nothing when len is negative or does not fit |
| ProtocolBuffer.Buffer.MoveDown | src/protocol_buffer.cpp:157-157 | the overlapping move to lower addresses leaves exactly the bytes behind the first len in front |
| ProtocolBuffer.Buffer.Compact | src/protocol_buffer.cpp:148-159 | all three cases of dropping bytes: negative, within the size, beyond it |
| ProtocolBuffer.Buffer.FindDelim | src/protocol_buffer.cpp:161-166 | the index of the first delimiter, or -1 |
| ProtocolBuffer.Buffer.ConsumeOnce | src/protocol_buffer.cpp:78-91 | returns and drops the first line, or returns nothing and changes nothing when no line is complete |
| ProtocolBuffer.Buffer.ConsumeFull | src/protocol_buffer.cpp:97-104 | returns the contents up to the last delimiter and keeps exactly the rest |
| ProtocolBuffer.Buffer.ConsumeOnceTo | src/protocol_buffer.cpp:110-116 | a line leaves the buffer only if it was written in full |
| ProtocolBuffer.Buffer.ConsumeFullTo | src/protocol_buffer.cpp:122-128 | lines are written and dropped one at a time up to the first failure |
| ProtocolBuffer.DrainedContents | src/protocol_buffer.cpp:97-104 | taking lines out one at a time leaves the text after the last delimiter |
| ProtocolBuffer.DrainIsSendLines | src/protocol_buffer.cpp:122-128 | draining to a descriptor is one `write_full` per delimiter, in order; if the k-th fails, the lines before it with the buffer that is left are the original contents |
| ProtocolBuffer.DrainAppends | src/protocol_buffer.cpp:122-128 | on the wire stand the whole lines taken out and, after a failure, a beginning of the next line that does not reach its end; those lines with the buffer that is left are the original contents; on success exactly what the string-returning `consume_full` returns |
| ClientModel.Appended | src/chat_client.cpp:93-102 | reading behind the used part and increasing the size appends the bytes |
| ChatClients.ChatClient.SetName | src/chat_client.cpp:32-40 | a name of 1 to 32 bytes is taken, any other throws and changes nothing |
| ChatClients.ChatClient.Stop | src/chat_client.cpp:135-140 | both descriptors are closed once and the client is unconnected |
| ChatClients.ChatClient.Run | src/chat_client.cpp:42-69 | every way `run` can end, with the temporary owner closing the socket on each failure |
| ChatClients.ChatClient.HandleStdin | src/chat_client.cpp:91-106 | end of file stops the client; other bytes are buffered and complete lines sent |
| ChatClients.ChatClient.HandleServer | src/chat_client.cpp:108-119 | bytes are buffered and complete lines printed; `increase_size` never throws here |
| ChatClients.ChatClient.HandleSignal | src/chat_client.cpp:121-130 | a whole signal record stops the client, anything else throws |
| ChatClients.ChatClient.HandlePoll | src/chat_client.cpp:84-130 | one turn of the loop takes the three events in order and stops at the first that ends it |
| ChatClients.ChatClient.EventLoop | src/chat_client.cpp:71-133 | for every sequence of polls the object ends in the state of the session on values |
| ClientStreams.SessionStreams | src/chat_client.cpp:71-133 | for every session, chunking and failure: the screen shows the server's stream up to its last newline and the read buffer holds the rest; the wire holds the greeting and all complete lines typed and the write buffer the rest; after a failed write the wire holds the greeting, the whole lines that left the buffer and a beginning of the next line short of its end, and those lines with the buffer are everything typed |
| ClientStreams.StdinKeeps | src/chat_client.cpp:92-106 | one chunk from standard input continues the uplink stream exactly; when a write fails in it, what left the buffer is whole lines, the fragment on the wire stays within the next one, and nothing typed is lost or reordered |
| ClientStreams.ServerKeeps | src/chat_client.cpp:109-119 | one chunk from the server continues what is shown exactly |
| ClientSessions.RunStartsInSync | src/chat_client.cpp:42-69 | after a successful `run` the wire holds the name and a newline, and nothing typed or heard is accounted for twice |
| ClientSessions.RunFailureCloses | src/chat_client.cpp:48-69 | after a failed `run` the client is unconnected and its new socket is closed |
| ClientSessions.RunThenSession | src/chat_client.cpp:42-133 | uplink conservation and chunk-invariant framing from `run` on, over any session |
| ClientSessions.FirstLineIsName | src/chat_client.cpp:61-63 | the name is at the front of the uplink, and is its first line if and only if it has no newline |
| ClientSessions.RoomIffShortLines | src/chat_client.cpp:92-115 | after any session a buffer has room if and only if every line given to it so far fits 1024 bytes with its newline |
| ClientSessions.StdinZero | src/chat_client.cpp:93-100 | a count of 0 from standard input means end of file or a line too long; end of file only, when all lines fit |
| ClientSessions.FullReadBufferIsStuck | src/chat_client.cpp:71-133 | once a server line is too long, no session ever shows or buffers anything from the server again |
| ClientSessions.StartsRoomy | src/chat_client.cpp:42-69 | every session starts with lines short enough, so the bound is on what comes later |
| ClientTurns.ServerTurn | src/chat_client.cpp:108-119 | with the socket readable, the next bytes that fit are read, the complete lines of the text held and these bytes are printed, and the rest is held; a failed read throws and changes nothing else |
| ClientTurns.StdinTurn | src/chat_client.cpp:91-106 | with standard input readable and a socket that takes all, the next bytes that fit are read, the complete lines of the text held and these bytes are sent, and the rest is held; a count of 0 stops the client, a failed read throws |
| ClientTurns.SignalTurn | src/chat_client.cpp:121-130 | a whole signal record leaves the client unconnected with both descriptors closed; anything else throws and closes nothing |
| ClientTurns.TurnByTurn | src/chat_client.cpp:84-130 | a turn with several events is one turn for each, standard input, server, signal, up to the first that does not go on; an interrupted poll changes nothing and a failed one throws |
| ClientTurns.EverythingIsShown | src/chat_client.cpp:71-133 | with lines short enough, as many polls with the socket readable as bytes are incoming show every complete line of them |
| ClientTurns.EverythingIsSent | src/chat_client.cpp:71-133 | with lines short enough and a socket that takes all, one poll more than there are bytes to the end of standard input sends every complete line of them and stops the client |
| ClientDescriptors.FailedRunLeaves | src/chat_client.cpp:42-69 | a `run` that fails leaves the descriptor table as it was if and only if it fails before both descriptors are there; otherwise the client holds the new signal descriptor |
| ClientDescriptors.StopConserves | src/chat_client.cpp:135-140 | after `stop` the table is that of the descriptors the client never had, each with its own channel |
| ClientDescriptors.ExecutionConserves | src/chat_client.cpp:42-140 | over any interleaving of `run`, sessions and `stop`, exceptions included, every open descriptor is foreign or held by exactly one of the two members, and every channel is open under one number or was closed once |
| ClientDescriptors.StoppedClientLeaksNothing | src/chat_client.cpp:135-140 | a constructed client used in any way and then stopped leaves the table as it was, and every channel opened since is closed, once |
| ClientHistory.RecordStdin | src/chat_client.cpp:91-106 | one event on standard input keeps the account of every byte typed and sent, by at most one more piece, of whole lines and a fragment short of the next line's end, on the connection in use |
| ClientHistory.UseContinues | src/chat_client.cpp:42-140 | from any state on, and over any further use, the sockets added are those of the successful and failed runs in it, and the lines that are sent are added on the latest socket or on later ones |
| ClientHistory.EarlierStays | src/chat_client.cpp:42-140 | once a later socket is there, nothing more is ever sent on a connection |
| ClientHistory.HistoryOfUse | src/chat_client.cpp:42-140 | over any use of a constructed client, with any number of connections and exceptions: everything typed is, in order, the lines that left the write buffer and what is in it; every connection made carries the name given to its `run` and then its own share of those lines, with the fragments of failed writes; a socket whose `run` could not send the name carries a part of it, and nothing is sent on any other channel; the screen shows the complete lines of everything heard on all connections made, one after the other |
| ClientHistory.ShareOfTyped | src/chat_client.cpp:92-106 | what leaves the buffer for one connection is one stretch of what was typed, and exactly what stands behind the name there if no write on it has failed |
| ClientHistory.IdleAgain | src/chat_client.cpp:135-140 | after `stop` the client is as idle as a new one if and only if no complete line is left in its write buffer |
| ClientHistory.SessionLeavesNoLine | src/chat_client.cpp:71-133 | a session that ends without an exception leaves no complete line in the write buffer |
| ChatServers.ChatServer.constructor | include/chat_server.hpp:32-41 | a constructed server is not running, owns no descriptor and has no clients |
| ChatServers.ChatServer.Run | src/chat_server.cpp:32-62 | every way `run` can end; a failure closes the new socket, a success replaces both descriptors |
| ChatServers.ChatServer.Stop | src/chat_server.cpp:64-71 | all client descriptors, the signal descriptor and the listener are closed in this order, and the server is not running |
| ChatServers.ChatServer.AcceptConnection | src/chat_server.cpp:100-109 | a waiting connection gets a new unnamed slot, or is closed at once when there are 62 |
| ChatServers.ChatServer.RemoveClient | src/chat_server.cpp:130-135 | closes the departing descriptor, moves the last slot's into its place and drops the last slot, the last slot itself included |
| ChatServers.ChatServer.GetClientName | src/chat_server.cpp:245-255 | the first complete line without its newline becomes the slot's name; without one nothing changes |
| ChatServers.ChatServer.WriteToOthers | src/chat_server.cpp:237-242 | writes to every slot but the sender's in order, up to the first failure |
| ChatServers.ChatServer.RespondToClient | src/chat_server.cpp:230-243 | all complete lines are taken out and sent to the others behind one prefix; nothing happens without one |
| ChatServers.ChatServer.ReadChunk | src/chat_server.cpp:145-147 | a chunk overwrites the start of the buffer's memory and its length is added to the size |
| ChatServers.ChatServer.ServeClient | src/chat_server.cpp:126-184 | one ready client: hang-up, error, end of stream or a chunk, with the slot list and everything else after it |
| ChatServers.ChatServer.ServePolled | src/chat_server.cpp:126-184 | a removal swaps the client's entry out of the descriptor list at the same position |
| ChatServers.ChatServer.SweepClients | src/chat_server.cpp:126-185 | the sweep with swap-removal, the parallel list and the early exit gives the result, and serves the clients, of the sweep over all slots |
| ChatServers.ChatServer.BuildPollFds | src/chat_server.cpp:85-91 | the list holds the listener, the signal descriptor and every client's descriptor in slot order |
| ChatServers.ChatServer.HandleSignal | src/chat_server.cpp:115-124 | a whole signal record stops the server, anything else throws |
| ChatServers.ChatServer.HandlePoll | src/chat_server.cpp:85-185 | one turn of the loop, counter and early `continue` included, is one round of the server on values |
| ChatServers.ChatServer.EventLoop | src/chat_server.cpp:73-187 | for every sequence of polls the object ends in the state of the event loop on values |
| ServerModel.RemoveAt | src/chat_server.cpp:130-135 | after a removal the remaining descriptors are those of before, the last one in the departed one's place |
| ServerInduction.ExecuteKeeps | src/chat_server.cpp:32-187 | what serving, accepting, signals, `run` and `stop` each keep, any interleaving of runs, event loops and stops keeps |
| ServerDescriptors.RemovalConserves | src/chat_server.cpp:130-141 | a removal closes exactly the departing connection and takes exactly it out of the slots, whichever slot it is in |
| ServerDescriptors.AcceptConserves | src/chat_server.cpp:101-109 | an accepted connection is a new one and is then in the new slot, or, at 62 slots, is closed and nothing else changes hands |
| ServerDescriptors.StopConserves | src/chat_server.cpp:64-71 | after `stop` the table is that of the foreign descriptors, each with its own channel, and every connection that was in a slot is closed |
| ServerDescriptors.EveryChannelPlaced | src/chat_server.cpp:32-187 | a channel that was closed is closed once and nobody holds it; one that was not closed is in exactly one place |
| ServerDescriptors.ExecutionConserves | src/chat_server.cpp:32-187 | over every execution, exceptions included, each connection ever let in is in exactly one slot or was closed exactly once, each other channel has exactly one owner or was closed exactly once, and foreign numbers denote what they denoted |
| ServerDescriptors.StoppedServerLeaksNothing | src/chat_server.cpp:64-71 | a constructed server used in any way and then stopped leaves the table as it was, number by number and channel by channel, and every channel opened since is closed, once |
| ServerSweep.SweepServesReady | src/chat_server.cpp:126-185 | unless an exception ends it, a sweep serves each client that was ready at the poll exactly once and no other |
| ServerSweep.ReadyFdsCount | src/chat_server.cpp:126-185 | with distinct descriptors, once means that no descriptor is served twice |
| ServerSweep.ReadyFdsAfterRemoval | src/chat_server.cpp:131-135 | swap-removal takes exactly the departing client out of those still to be served |
| ServerSweep.SweepIdle | src/chat_server.cpp:137-138 | with nothing left to serve, going on does nothing |
| ServerPolling.RemovalKeepsParallel | src/chat_server.cpp:131-135 | `pollfds[i + 2].fd == clients[i].fd` and `pollfds.size() == clients.size() + 2` survive a removal, and events stay with their descriptors |
| ServerPolling.AcceptCovers | src/chat_server.cpp:101-112 | accepting keeps the list beside the slots and the counter at or above the clients still to be served |
| ServerPolling.PollCovers | src/chat_server.cpp:93-93 | what `poll` returns covers the signal descriptor and all ready clients |
| ServerPolling.SweepServes | src/chat_server.cpp:126-181 | each served client lowers the counter and what it has to cover by one, so the counter never drops below the ready clients left |
| ServerPolling.SweepEnds | src/chat_server.cpp:137-138 | when the counter is used up, the sweep so far is the whole sweep |
| ServerPolling.RestIdle | src/chat_server.cpp:111-112 | skipping the rest of a round when the counter is used up loses no signal and no client |
| ServerSteps.HandleChunkReplies | src/chat_server.cpp:169-177 | putting the chunk into the buffer and then taking the slot's turn, as the loop does, is the handling of a chunk |
| ServerOrder.BroadcastDelivers | src/chat_server.cpp:237-242 | a broadcast gives the text to every connection in `clients` but the sender, once, and to nobody else; after a failure each may have a beginning of it |
| ServerOrder.TotalOrderBroadcast | src/chat_server.cpp:73-243 | over every execution, each connection has received, in the order of one log, the other connections' broadcasts made while it was in `clients`: each in full, or a beginning of it where a write for that broadcast failed; as long as no write has failed, exactly those broadcasts; all other channels received nothing |
| ServerOrder.ConnectionsAgree | src/chat_server.cpp:230-243 | the messages that went to both of two connections stand in the same order in what the one received and in what the other received; what each received in their common period is one piece of its bytes |
| ServerOrder.FailedBroadcast | src/chat_server.cpp:237-242 | a write failure leaves every connection with a beginning of its part of the log |
| ServerNames.ChunkKeepsClean | src/chat_server.cpp:143-177 | a chunk of whole lines read into an empty buffer names the slot once and broadcasts the rest, and leaves the buffer empty |
| ServerNames.NamesAndPayloads | src/chat_server.cpp:143-177 | for every connection never moved whose chunks end lines, over every execution: while it is in a slot the name is the first line and the buffer is empty; then and after it has left, all its broadcasts bear that name and put together are the rest of its stream, however it was chunked |
| ServerNames.RemovalKeepsSlots | src/chat_server.cpp:131-132 | names and buffers stay with their connections after a removal if and only if the last slot departs or the two slots agree in name, buffer and state |
| ServerNames.RemovedWhen | src/chat_server.cpp:126-170 | a ready slot is removed if and only if it hangs up, or a read that does not fail finds its stream ended or its buffer full |
| MovedConnection.NameStaysWithSlot | src/chat_server.cpp:131-132 | a whole run from construction on after which Carol's connection has been sent exactly one message, that of Bob's connection, under the name of Alice, whose connection is gone |
| ServerNames.ServeThrows | src/chat_server.cpp:126-184 | serving a ready client throws if and only if it does not hang up and its read fails or is interrupted, or it has something to say that the connection of another client does not take in full; after a failed read no slot has changed |
| ServerNames.FailedReadEndsLoop | src/chat_server.cpp:126-184 | one failed read, of whichever client the sweep of a round has come to, ends the sweep and the event loop: the clients behind it are not served and no later poll is made |
| ServerNames.OnePrefixForBatch | src/chat_server.cpp:230-235 | what is sent for a batch of whole lines has a prefix on each line if and only if it is one line |
| ServerNames.ReadAtStartAppends | src/chat_server.cpp:145-147 | reading at the start appends every chunk if and only if the buffer is empty, or full |
| ServerNames.SecondReadOverwrites | src/chat_server.cpp:145-147 | an input on which a line read in two chunks is damaged |
| ServerReplies.ChunkReply | src/chat_server.cpp:143-177 | for every slot and chunk, whole lines or not: a named slot says the complete lines of its text and keeps the rest; one without a name takes the first line for it and then does the same, and keeps everything while there is no line |
| ServerReplies.ServeReplies | src/chat_server.cpp:126-243 | when a client's read gives bytes, the lines said, behind one prefix, are sent to every other client and on no other channel, logged, and no longer held; with no complete line nothing is sent |
| ServerReplies.NothingIsHeldBack | src/chat_server.cpp:143-243 | over every execution no slot holds a complete line between two steps |
| ServerReplies.SignalStopsServer | src/chat_server.cpp:101-124 | a poll with the signal descriptor readable and a whole record to read ends the loop with the server stopped, no client and the foreign descriptors only; without a whole record an exception ends it and nothing is closed |
| ServerReplies.BrokenLoopIsStopped | src/chat_server.cpp:73-187 | an event loop that ends without an exception before its polls do has stopped the server and closed everything |
| ServerReplies.PollSaysNothing | src/chat_server.cpp:93-99 | an interrupted poll changes nothing and the loop goes on; a failed one ends it with an exception |
| Text.TrimCuts | include/CLI11.hpp:768-784 | trimming takes away whitespace at the two ends and nothing else, and leaves none there |
| Utf8.AppendCodepoint | include/CLI11.hpp:955-977 | appends the bytes of a code and throws exactly on a surrogate |
| Utf8.BitFields | include/CLI11.hpp:955-977 | the shifts, masks and ors of the source are the arithmetic of the model on 32-bit words |
| Utf8.DecodeEncode | include/CLI11.hpp:955-977 | a decoder for the byte table of RFC 3629, section 3, recovers every sequence of Unicode scalar values |
| Utf8.EncodeDecode | include/CLI11.hpp:955-977 | every byte string that decoder accepts is what the code emits for it: each sequence has one spelling |
| Escapes.AddEscapedCharacters | include/CLI11.hpp:924-937 | the loop puts a backslash and the matching letter for each escapable character |
| Escapes.ReadHex | include/CLI11.hpp:996-1008 | the accumulator is the base-16 value of the digits and stays below 2^32; a character that is no digit is reported |
| Escapes.RemoveEscapedCharacters | include/CLI11.hpp:979-1037 | the scan decodes or throws as the escape grammar says, piece by piece |
| Escapes.RemoveAfterAdd | include/CLI11.hpp:924-1037 | every string survives escaping and unescaping |
| Escapes.WideEscapesToUtf8 | include/CLI11.hpp:1009-1025 | a run of eight-digit escapes becomes the UTF-8 bytes of its codes, and throws if and only if one is a surrogate |
| Escapes.WideEscapesRoundTrip | include/CLI11.hpp:1009-1025 | a decoder recovers the codes from the result if and only if all are Unicode scalar values |
| Escapes.CodeAboveRangeIsDropped | include/CLI11.hpp:970-976 | an input on which a code disappears without an error |
| EscapeGrammar.UnescapedText | include/CLI11.hpp:979-1037 | a text of plain characters, letter escapes, `\0` and escapes of four and eight digits gives their bytes, and throws if and only if a code is a surrogate |
| EscapeGrammar.ThrowsUnlessProper | include/CLI11.hpp:979-1037 | the scan does not throw if and only if the text is made of such units without a surrogate |
| EscapeGrammar.MixedRoundTrip | include/CLI11.hpp:979-1037 | a UTF-8 decoder recovers the codes of any such mixture if and only if all are Unicode scalar values |
| BinaryEscape.EscapeUnprintable | include/CLI11.hpp:1161-1186 | the first loop escapes unprintable bytes and an `x` behind a backslash |
| BinaryEscape.ReplaceQuotes | include/CLI11.hpp:1189-1195 | the second loop leaves no single quote and ends by the count of those remaining |
| BinaryEscape.BinaryEscapeString | include/CLI11.hpp:1161-1201 | the two loops and the decision to wrap the result |
| BinaryEscape.EscapeIfNeeded | include/CLI11.hpp:1163-1187 | the first pass makes text longer if it holds an unprintable character or an `x` behind a backslash, and leaves it alone otherwise |
| BinaryEscape.ExtractBinaryString | include/CLI11.hpp:1211-1248 | the scan decodes the text between the markers and never reads beyond it |
| BinaryEscape.ForcedRoundTrip | include/CLI11.hpp:1161-1248 | forced escaping is undone by extraction for every byte string and every notion of printable |
| BinaryEscape.UnforcedRoundTrip | include/CLI11.hpp:1161-1248 | unforced, the same holds if and only if text already in escaped form holds an unprintable character or an `x` behind a backslash |
| BinaryEscape.UnforcedLosesForm | include/CLI11.hpp:1197-1201 | an input on which the unforced form is read as something else |
| Brackets.CloseStringQuote | include/CLI11.hpp:1039-1051 | stops at the first closing character that is not behind a backslash, or past the end |
| Brackets.MatchAllPush | include/CLI11.hpp:1085-1100 | opening a bracket pushes its closer: the longer stack closes where the recursive matcher comes back |
| Brackets.CloseNested | include/CLI11.hpp:1069-1106 | the explicit closure stack finds the index that a recursive-descent matcher finds |
| Brackets.CloseSequence | include/CLI11.hpp:1058-1107 | for every text and start, the index of the matching closer, between start + 1 and size + 1 |
| Brackets.AfterItem | include/CLI11.hpp:1119-1144 | each round of the splitting leaves a strictly shorter text |
| Brackets.SplitUp | include/CLI11.hpp:1109-1147 | the loop yields the items between separators outside quotes and brackets, and ends |
| BracketGroups.SectionEnds | include/CLI11.hpp:1039-1107 | for every text printed from a tree of the four kinds of brackets, quoted sections and other characters, and whatever follows it, a section ends at its own last character |
| BracketGroups.SplitFields | include/CLI11.hpp:1109-1147 | sections and bare texts with separators between them are split up into exactly these, for any separator and for whitespace |
| BracketGroups.UnclosedTakesAll | include/CLI11.hpp:1085-1128 | a bracket that is never closed takes the rest of the text as one item |
| QuotedString.HandleSecondaryArray | include/CLI11.hpp:1262-1272 | the loop doubles every character behind the mark exactly when the text would read as an array |
| QuotedString.ProcessQuotedString | include/CLI11.hpp:1274-1301 | all three forms of quoting, the exception, and text left as it is |
| QuotedString.QuotedEndsAtLastQuote | include/CLI11.hpp:1039-1051 | in a quoted string followed by anything, the scan stops exactly at its own closing quote |
| QuotedString.UnquoteQuoted | include/CLI11.hpp:1274-1293 | unquoting a quoted string never throws and yields the string |
| QuotedString.QuotedStringRoundTrip | include/CLI11.hpp:924-1293 | the section a quoted string opens is all of it, and it unquotes to the text |
| QuotedForms.LiteralUnquoted | include/CLI11.hpp:1274-1301 | between literal quotes nothing is an escape: the text is what stands between them |
| QuotedForms.StringUnquoted | include/CLI11.hpp:1274-1301 | between string quotes every mixture of escapes gives its bytes, and a surrogate among the codes throws |
| QuotedForms.OtherUnchanged | include/CLI11.hpp:1274-1301 | text that does not begin and end with the same quote is left as it is |
| QuotedForms.BinaryUnquoted | include/CLI11.hpp:1203-1248 | both binary forms are read as the bytes between their markers, digits in either case |
| OptionResults.AddResult | include/CLI11.hpp:6934-6993 | appends the values one argument stands for and returns their count, arrays added item by item |
| OptionResults.CollectPairs | include/CLI11.hpp:6941-6958 | the pair check finds the text in front of the doubling, or that a pair differs |
| OptionResults.MarkIsUndone | include/CLI11.hpp:6934-6993 | a value its delimiter does not break up is stored once and without its mark, whatever the option's limits |
| ArrayValues.ArrayIsFlattened | include/CLI11.hpp:6934-6975 | an option that takes several values stores the values of nested arrays in order if and only if no array among them reads as a marked value |
| ArrayValues.ListIsStored | include/CLI11.hpp:6958-6975 | plain values in brackets, commas between them, are stored one by one |
| ArrayValues.MarkedArrayIsOneValue | include/CLI11.hpp:6939-6957 | an input on which an array in an array is stored as one value |
| ArrayValues.DelimitedIsStored | include/CLI11.hpp:6976-6991 | two or more fields with the option's delimiter between them are stored in order, empty ones left out |
| ArrayValues.OtherIsStored | include/CLI11.hpp:6976-6991 | any value that is no array and has no delimiter in it is stored as it is |
| IniValues.ConvertArgForIni | include/CLI11.hpp:11122-11192 | the text written for one value, with every decision in the order of the source |
| IniValues.IniJoin | include/CLI11.hpp:11194-11220 | the loop writes brackets, separators and values for one or more arguments |
| WrittenForms.WrittenAsItIs | include/CLI11.hpp:11122-11192 | a value is written as it stands if and only if it is a keyword, a number in decimal spelling, or digits behind `0x`, `0o` or `0b` |
| WrittenForms.ItemIs | include/CLI11.hpp:11122-11192 | the text of a list item, character by character, in every case |
| WrittenForms.ListIs | include/CLI11.hpp:11194-11220 | a list of two or more values is written in brackets with a comma and a blank between the items |
| ListRoundTrip.ItemForms | include/CLI11.hpp:11122-11192 | in a list every value is written bare, quoted, as a literal character or in the binary form |
| ListRoundTrip.SplitJoined | include/CLI11.hpp:1109-1147 | splitting the joined text gives back the written items |
| ListRoundTrip.WriteThenRead | include/CLI11.hpp:11194-11220 | a list of two or more byte strings is read back exactly if and only if the option's delimiter breaks up none of its values; with no delimiter always |
| ListRoundTrip.DelimiterBreaksValue | include/CLI11.hpp:6980-6993 | an input on which a delimiter turns one written value into two |
| CheckedArithmetic.OverflowCheckExact | include/CLI11.hpp:4136-4148 | the overflow test fires if and only if the product is not representable, for every signed and unsigned width |
| CheckedArithmetic.CheckedMultiply | include/CLI11.hpp:4150-4164 | true with the product if and only if it is representable, otherwise the factor is unchanged; no division by zero and no absolute value of the minimum |
| CheckedArithmetic.GetItemsExpectedMax | include/CLI11.hpp:6016-6019 | the exact product of the two limits, or the sentinel when it is not representable |

## Left out

- Sockets, addresses, `poll`, `signalfd`, `sigprocmask`, `setsockopt`, `bind`, `connect`, `inet_pton`, `inet_ntop` (src/net_socket.cpp, src/net_unix.cpp): foreign calls; their returns are parameters. The retries of `accept` after ECONNABORTED or EPROTO are folded into its one outcome; any other error, an interrupt included, throws.
- `poll` is taken to report the events POLLIN, POLLERR, POLLHUP and POLLNVAL only, and to return the number of entries with any event; both loops are modelled for any finite sequence of returns.
- `close` is taken to succeed: the result of `close` is ignored by `reset`, and `close_fd` on a connection turned away does not throw.
- `SIGPIPE`: a write to a closed connection is a failed write and not the end of the process.
- Allocation failure in `std::string` and `std::vector`.
- Address conversion (`to_sockaddr`, `endpoint`, the constructors with an address) and the getters.
- Console input and output and the command-line program (src/tcpchat.cpp); printed text is the client's `output`.
- The rest of CLI11: parsing of arguments and callbacks, validators, help text, environment and file access, `lexical_cast`, and the line handling of configuration files, of which `ListRoundTrip.ReadList` models only the branch for a bracketed item.
- `isprint` and the recognition of numbers are arbitrary predicates; `isspace` is that of the classic locale.
- `IniValues.ConvertArgForIni` models the multi-line literal, but no round trip is stated for it: lists never use it.
- `ListRoundTrip.WriteThenRead` is for the separator, brackets and quotes that a configuration object starts with, not for changed ones.
- Bit operations are written as arithmetic; `Utf8.BitFields` shows that they agree on 32-bit words.
- `clients[i].fd = std::move(clients.back().fd)` and `pop_back` are one method, `ChatServers.ChatServer.RemoveClient`: the popped record object is dropped and its descriptor closed at once.
- `std::vector` growth: records are objects in a `seq`, so moving records to a larger array is not modelled; the vector reserves enough room and never grows.
- `ServerNames.NamesAndPayloads` says nothing about a connection that was moved to another slot or that has sent a chunk which did not end a line, because for those the code does not keep the property.
