/**
  What the server answers, told from bytes and channels: what is said for every chunk, whole lines or not, what
  stays in a slot, and how a signal ends the event loop.
 */
module ServerReplies {
  import opened OperatingSystem
  import opened ProtocolBuffer
  import opened ServerInduction
  import opened ServerModel
  import opened Wrappers
  import Lines
  import NetIo
  import ServerDescriptors
  import ServerNames
  import ServerOrder

  // ----- one chunk -----

  /** What a chunk comes to: the slot's name and state, the lines that are said, and the text that is kept. */
  datatype Reply = Reply(name: string, connected: bool, said: string, kept: string)

  /** The slot's text when the bytes have been read to the start of its memory. */
  function TextAfter(slot: Slot, bytes: string): string
    requires ValidBuf(slot.buffer) && |bytes| <= BUFFER_SIZE - slot.buffer.size
  {
    (bytes + slot.buffer.mem[|bytes|..])[..slot.buffer.size + |bytes|]
  }

  /**
    A slot with a name says the complete lines and keeps the rest. One without first takes a line for its name;
    it keeps everything while there is none.
   */
  function ReplyTo(slot: Slot, bytes: string): Reply
    requires ValidBuf(slot.buffer) && |bytes| <= BUFFER_SIZE - slot.buffer.size
  {
    var text := TextAfter(slot, bytes);
    var n := Lines.FirstLength(text, NEWLINE);
    if slot.connected then
      Reply(slot.name, true, Lines.Complete(text, NEWLINE), Lines.Rest(text, NEWLINE))
    else if n == 0 then
      Reply(slot.name, false, "", text)
    else
      Reply(text[..n - 1], true, Lines.Complete(text[n..], NEWLINE), Lines.Rest(text[n..], NEWLINE))
  }

  lemma {:induction false} TextIsRead(slot: Slot, bytes: string)
    requires ValidBuf(slot.buffer) && |bytes| <= BUFFER_SIZE - slot.buffer.size
    ensures Contents(ReadAtStart(slot.buffer, bytes)) == TextAfter(slot, bytes)
  {
    assert Overlay(slot.buffer.mem, 0, bytes) == bytes + slot.buffer.mem[|bytes|..];
  }

  lemma {:induction false} ChunkReply(slot: Slot, bytes: string)
    requires ValidBuf(slot.buffer) && |bytes| <= BUFFER_SIZE - slot.buffer.size
    ensures var c := TakeChunk(slot, bytes);
            Reply(c.slot.name, c.slot.connected, c.payload, Contents(c.slot.buffer)) == ReplyTo(slot, bytes) &&
            c.slot.fd == slot.fd
  {
    var b := ReadAtStart(slot.buffer, bytes);
    TextIsRead(slot, bytes);
    DrainedContents(b, NEWLINE);
    DrainedContents(Compacted(b, FirstLine(b, NEWLINE)), NEWLINE);
  }

  /** The text that goes out for the lines said: nothing, or the lines behind one prefix. */
  function Sent(reply: Reply): string {
    if reply.said == "" then "" else "[" + reply.name + "]: " + reply.said
  }

  /** What has been said is on every other client's connection, and on no other channel. */
  ghost predicate SaidToOthers(s: Server, s': Server, i: nat, text: string)
    requires i < |s.clients|
  {
    |s'.k.channels| == |s.k.channels| &&
    (forall l | 0 <= l < |s.clients| && l != i ::
       IdOf(s, l) < |s.k.channels| &&
       s'.k.channels[IdOf(s, l)].sent == s.k.channels[IdOf(s, l)].sent + text) &&
    forall id: nat | id < |s.k.channels| && (forall l | 0 <= l < |s.clients| && l != i :: IdOf(s, l) != id) ::
      s'.k.channels[id].sent == s.k.channels[id].sent
  }

  /** The slot after the reply; the other slots are as they were. */
  predicate SlotReplied(s: Server, s': Server, i: nat, reply: Reply)
    requires i < |s.clients| && ValidServer(s')
  {
    |s'.clients| == |s.clients| && s'.clients == s.clients[i := s'.clients[i]] &&
    s'.clients[i].fd == s.clients[i].fd && s'.clients[i].name == reply.name &&
    s'.clients[i].connected == reply.connected && Contents(s'.clients[i].buffer) == reply.kept
  }

  /** The log has one message more, if anything was said. */
  predicate Logged(s: Server, s': Server, id: nat, reply: Reply) {
    s'.h.log == s.h.log + if reply.said == "" then [] else [Message(id, reply.name, reply.said)]
  }

  lemma {:induction false} NothingSaid(s: Server, i: nat)
    requires i < |s.clients| && forall l | 0 <= l < |s.clients| :: IdOf(s, l) < |s.k.channels|
    ensures SaidToOthers(s, s, i, "")
  {
    forall l | 0 <= l < |s.clients| && l != i
      ensures s.k.channels[IdOf(s, l)].sent == s.k.channels[IdOf(s, l)].sent + ""
    {
    }
  }

  lemma {:induction false} DeliveredIsSaid(s: Server, s': Server, i: nat, text: string)
    requires i < |s.clients| && forall l | 0 <= l < |s.clients| :: IdOf(s, l) < |s.k.channels|
    requires ServerOrder.Delivers(s.k, s'.k, ServerOrder.Audience(s, i, 0), text, true)
    ensures SaidToOthers(s, s', i, text)
  {
    forall l | 0 <= l < |s.clients| && l != i
      ensures s'.k.channels[IdOf(s, l)].sent == s.k.channels[IdOf(s, l)].sent + text
    {
      assert IdOf(s, l) in ServerOrder.Audience(s, i, 0);
    }
  }

  /** Every other client's connection takes all of the text. */
  predicate OthersTake(s: Server, i: nat, text: string) {
    forall l | 0 <= l < |s.clients| && l != i ::
      IdOf(s, l) < |s.k.channels| && NetIo.SendAll(s.k.channels[IdOf(s, l)], text).ok
  }

  ghost predicate NothingRead(s: Server, s': Server) {
    |s'.k.channels| == |s.k.channels| &&
    forall id: nat | id < |s.k.channels| :: s'.k.channels[id].delivered == s.k.channels[id].delivered
  }

  /** Handling a chunk, once it has been read. */
  lemma {:induction false} ChunkIsSaid(s: Server, foreign: map<int, nat>, i: nat, bytes: string)
    requires ServerDescriptors.Conserved(s, foreign) && i < |s.clients|
    requires |bytes| <= BUFFER_SIZE - s.clients[i].buffer.size
    requires OthersTake(s, i, Sent(ReplyTo(s.clients[i], bytes)))
    ensures var r, reply := HandleChunk(s, i, bytes), ReplyTo(s.clients[i], bytes);
            r.outcome == Continue && SlotReplied(s, r.server, i, reply) &&
            SaidToOthers(s, r.server, i, Sent(reply)) && Logged(s, r.server, IdOf(s, i), reply) &&
            NothingRead(s, r.server)
  {
    var c, reply := TakeChunk(s.clients[i], bytes), ReplyTo(s.clients[i], bytes);
    ServerDescriptors.DistinctIds(s, foreign);
    ChunkReply(s.clients[i], bytes);
    if reply.said == "" {
      NothingSaid(s, i);
    } else {
      ServerOrder.PublishSends(Noted(s, i, bytes), i, c);
      assert Sent(reply) == Text(Message(IdOf(s, i), c.slot.name, c.payload));
      ServerOrder.BroadcastDelivers(s, s.k, i, Sent(reply), 0);
      ServerNames.BroadcastFailsWhen(s, foreign, s.k, i, Sent(reply));
      DeliveredIsSaid(s, HandleChunk(s, i, bytes).server, i, Sent(reply));
    }
  }

  /** The bytes that a `read` of the connection of slot i gives. */
  function NextBytes(s: Server, i: nat): Got
    requires i < |s.clients| && ValidServer(s) && IdOf(s, i) < |s.k.channels|
  {
    Read(s.k.channels[IdOf(s, i)], BUFFER_SIZE - s.clients[i].buffer.size)
  }

  /**
    A client that is ready and does not hang up, and whose read gives some bytes: exactly these leave its
    connection, and the reply to them is said to all others, kept in the slot and logged.
   */
  lemma {:induction false} ServeReplies(s: Server, foreign: map<int, nat>, e: Revents, i: nat)
    requires ServerDescriptors.Conserved(s, foreign) && i < |s.clients| && IdOf(s, i) < |s.k.channels|
    requires !Hangup(e) && NextBytes(s, i).bytes != ""
    requires OthersTake(s, i, Sent(ReplyTo(s.clients[i], NextBytes(s, i).bytes)))
    ensures var r, bytes := Serve(s, e, i), NextBytes(s, i).bytes;
            var reply := ReplyTo(s.clients[i], bytes);
            r.outcome == Continue && !r.removed && SlotReplied(s, r.server, i, reply) &&
            SaidToOthers(s, r.server, i, Sent(reply)) && Logged(s, r.server, IdOf(s, i), reply) &&
            r.server.k.channels[IdOf(s, i)].delivered == s.k.channels[IdOf(s, i)].delivered + bytes
  {
    var bytes := NextBytes(s, i).bytes;
    var s' := s.(k := Input(s.k, s.clients[i]).kernel);
    SlotIsRead(s, foreign, i);
    OthersTakeAfterRead(s, s', i, Sent(ReplyTo(s.clients[i], bytes)));
    ChunkIsSaid(s', foreign, i, bytes);
    SaidAfterRead(s, s', Serve(s, e, i).server, i, Sent(ReplyTo(s.clients[i], bytes)));
  }

  /** Only the connection of slot i has changed, and nothing has been sent on it. */
  ghost predicate OnlyRead(s: Server, s': Server, i: nat)
    requires i < |s.clients|
  {
    s' == s.(k := s'.k) && s'.k.table == s.k.table && |s'.k.channels| == |s.k.channels| &&
    (forall l | 0 <= l < |s.clients| :: IdOf(s, l) < |s.k.channels| && (l != i ==> IdOf(s, l) != IdOf(s, i))) &&
    forall id: nat | id < |s.k.channels| ::
      s'.k.channels[id].sent == s.k.channels[id].sent && (id != IdOf(s, i) ==> s'.k.channels[id] == s.k.channels[id])
  }

  lemma {:induction false} SlotIsRead(s: Server, foreign: map<int, nat>, i: nat)
    requires ServerDescriptors.Conserved(s, foreign) && i < |s.clients| && IdOf(s, i) < |s.k.channels|
    requires NextBytes(s, i).bytes != ""
    ensures var g := Input(s.k, s.clients[i]);
            g.bytes == NextBytes(s, i).bytes && g.result == Count(|g.bytes|) &&
            g.kernel.channels[IdOf(s, i)].delivered == s.k.channels[IdOf(s, i)].delivered + g.bytes &&
            OnlyRead(s, s.(k := g.kernel), i) && ServerDescriptors.Conserved(s.(k := g.kernel), foreign)
  {
    ServerDescriptors.DistinctIds(s, foreign);
    ServerDescriptors.SameDescriptors(s, s.(k := Input(s.k, s.clients[i]).kernel), foreign);
  }

  lemma {:induction false} SaidAfterRead(s: Server, s': Server, s'': Server, i: nat, text: string)
    requires i < |s.clients| && OnlyRead(s, s', i) && SaidToOthers(s', s'', i, text)
    ensures SaidToOthers(s, s'', i, text)
  {
    assert forall l | 0 <= l < |s.clients| :: IdOf(s', l) == IdOf(s, l);
  }

  lemma {:induction false} OthersTakeAfterRead(s: Server, s': Server, i: nat, text: string)
    requires i < |s.clients| && OnlyRead(s, s', i) && OthersTake(s, i, text)
    ensures OthersTake(s', i, text)
  {
    assert forall l | 0 <= l < |s.clients| :: IdOf(s', l) == IdOf(s, l);
  }

  // ----- over every execution -----

  /** No slot holds a complete line: what can be said has been said. */
  ghost predicate NoLineHeld(s: Server) {
    ValidServer(s) && forall j | 0 <= j < |s.clients| :: NEWLINE !in Contents(s.clients[j].buffer)
  }

  lemma {:induction false} ReplyHoldsNoLine(slot: Slot, bytes: string)
    requires ValidBuf(slot.buffer) && |bytes| <= BUFFER_SIZE - slot.buffer.size
    ensures NEWLINE !in ReplyTo(slot, bytes).kept
  {
    var text := TextAfter(slot, bytes);
    var n := Lines.FirstLength(text, NEWLINE);
    assert NEWLINE !in Lines.Rest(text, NEWLINE) && NEWLINE !in Lines.Rest(text[n..], NEWLINE);
  }

  lemma {:induction false} ServeHoldsNoLine(s: Server, e: Revents, i: nat)
    requires NoLineHeld(s) && i < |s.clients|
    ensures NoLineHeld(Serve(s, e, i).server)
  {
    var g := Input(s.k, s.clients[i]);
    var s' := s.(k := g.kernel);
    if Hangup(e) {
      RemovalHoldsNoLine(s, i);
    } else if g.result.Count? && g.result.n > 0 {
      ChunkHoldsNoLine(s', i, g.bytes);
    } else if g.result.Count? {
      RemovalHoldsNoLine(s', i);
    }
  }

  lemma {:induction false} RemovalHoldsNoLine(s: Server, i: nat)
    requires NoLineHeld(s) && i < |s.clients|
    ensures NoLineHeld(RemoveAt(s, i))
  {
  }

  lemma {:induction false} ChunkHoldsNoLine(s: Server, i: nat, bytes: string)
    requires NoLineHeld(s) && i < |s.clients| && |bytes| <= BUFFER_SIZE - s.clients[i].buffer.size
    ensures NoLineHeld(HandleChunk(s, i, bytes).server)
  {
    var s' := HandleChunk(s, i, bytes).server;
    ChunkReply(s.clients[i], bytes);
    ReplyHoldsNoLine(s.clients[i], bytes);
    assert s'.clients == s.clients[i := TakeChunk(s.clients[i], bytes).slot];
  }

  lemma {:induction false} NoLineIsInductive()
    ensures Inductive(s => NoLineHeld(s))
  {
    var inv: Server -> bool := s => NoLineHeld(s);
    forall s: Server, e: Revents, i: nat | ValidServer(s) && i < |s.clients| && inv(s)
      ensures inv(Serve(s, e, i).server)
    {
      ServeHoldsNoLine(s, e, i);
    }
    forall s: Server, a: AcceptOutcome | ValidServer(s) && inv(s) ensures inv(AcceptClient(s, a).server) {
      AcceptHoldsNoLine(s, a);
    }
    forall s: Server | ValidServer(s) && inv(s) ensures inv(SignalStep(s).server) && inv(Stop(s)) {
      SignalHoldsNoLine(s);
    }
    forall s: Server, startup: Startup | ValidServer(s) && inv(s) ensures inv(RunServer(s, startup).server) {
      RunHoldsNoLine(s, startup);
    }
  }

  lemma {:induction false} AcceptHoldsNoLine(s: Server, a: AcceptOutcome)
    requires NoLineHeld(s)
    ensures NoLineHeld(AcceptClient(s, a).server)
  {
    var s' := AcceptClient(s, a).server;
    if |s'.clients| > |s.clients| {
      assert Contents(s'.clients[|s.clients|].buffer) == "";
    }
  }

  lemma {:induction false} SignalHoldsNoLine(s: Server)
    requires NoLineHeld(s)
    ensures NoLineHeld(SignalStep(s).server) && NoLineHeld(Stop(s))
  {
  }

  lemma {:induction false} RunHoldsNoLine(s: Server, startup: Startup)
    requires NoLineHeld(s)
    ensures NoLineHeld(RunServer(s, startup).server)
  {
    assert RunServer(s, startup).server.clients == s.clients;
  }

  /** Over any use of a constructed server, no slot ever holds a complete line between two steps. */
  lemma {:induction false} NothingIsHeldBack(s: Server, actions: seq<Action>)
    requires Constructed(s) && ValidServer(s)
    ensures NoLineHeld(Execute(s, actions))
  {
    NoLineIsInductive();
    ExecuteKeeps(t => NoLineHeld(t), s, actions);
  }

  // ----- the signal -----

  /** Nothing is left of the server's descriptors. */
  ghost predicate Ended(s: Server, foreign: map<int, nat>) {
    !s.running && s.clients == [] && s.listenFd == -1 && s.signalFd == -1 && s.k.table == foreign
  }

  lemma {:induction false} RecordIsRead(c: Channel)
    ensures Read(c, 128).result == Count(128) <==> WholeRecord(c)
  {
  }

  lemma {:induction false} SignalEnds(s: Server, foreign: map<int, nat>)
    requires ServerDescriptors.Conserved(s, foreign) && s.signalFd in s.k.table && IsOpen(s.k, s.signalFd)
    ensures if WholeRecord(ChannelOf(s.k, s.signalFd))
            then SignalStep(s).outcome == Broke && Ended(SignalStep(s).server, foreign)
            else SignalStep(s).outcome == Threw && SignalStep(s).server == s.(k := SignalStep(s).server.k) &&
                 SignalStep(s).server.k.table == s.k.table
  {
    RecordIsRead(ChannelOf(s.k, s.signalFd));
    var s' := s.(k := SysRead(s.k, s.signalFd, SIGINFO_SIZE).kernel);
    ServerDescriptors.SameDescriptors(s, s', foreign);
    ServerDescriptors.StopConserves(s', foreign);
  }

  /** A connection that is taken leaves the signal descriptor where it was. */
  lemma {:induction false} AcceptKeepsSignal(s: Server, foreign: map<int, nat>, a: AcceptOutcome)
    requires ServerDescriptors.Conserved(s, foreign) && IsOpen(s.k, s.signalFd)
    ensures var r := AcceptClient(s, a);
            r.server.signalFd == s.signalFd && IsOpen(r.server.k, s.signalFd) &&
            ChannelOf(r.server.k, s.signalFd) == ChannelOf(s.k, s.signalFd)
  {
  }

  /**
    A poll that finds the signal descriptor readable, after a connection has been taken if there is one: with a
    whole record to read the server stops, and everything it held is closed; otherwise an exception leaves the
    loop and no descriptor is closed.
   */
  lemma {:induction false} SignalStopsServer(s: Server, foreign: map<int, nat>, poll: Poll)
    requires ServerDescriptors.Conserved(s, foreign) && IsOpen(s.k, s.signalFd)
    requires poll.Polled? && poll.signal.pollin
    requires poll.listen.pollin ==> AcceptClient(s, poll.accept).outcome == Continue
    ensures if WholeRecord(ChannelOf(s.k, s.signalFd))
            then Round(s, poll).outcome == Broke && Ended(Round(s, poll).server, foreign)
            else Round(s, poll).outcome == Threw && Round(s, poll).server.running == s.running &&
                 s.k.table.Keys <= Round(s, poll).server.k.table.Keys
  {
    if poll.listen.pollin {
      ServerDescriptors.AcceptConserves(s, foreign, poll.accept);
      AcceptKeepsSignal(s, foreign, poll.accept);
      SignalEnds(AcceptClient(s, poll.accept).server, foreign);
    } else {
      SignalEnds(s, foreign);
    }
  }

  /** An interrupted poll changes nothing, and one that fails ends the loop and changes nothing else. */
  lemma {:induction false} PollSaysNothing(s: Server)
    requires ValidServer(s)
    ensures Round(s, PollInterrupted) == Step(Continue, s) && Round(s, PollFailed) == Step(Threw, s)
  {
  }

  lemma {:induction false} SweepNeverBreaks(s: Server, events: seq<Revents>, i: nat)
    requires i <= |s.clients| == |events| && ValidServer(s)
    ensures Sweep(s, events, i).outcome != Broke
    decreases |s.clients| - i
  {
    if i < |s.clients| {
      var r := Serve(s, events[i], i);
      if !IsReady(events[i]) {
        SweepNeverBreaks(s, events, i + 1);
      } else if r.outcome == Continue {
        if r.removed {
          SweepNeverBreaks(r.server, SwapRemoved(events, i), i);
        } else {
          SweepNeverBreaks(r.server, events, i + 1);
        }
      }
    }
  }

  lemma {:induction false} RoundBreaksStopped(s: Server, foreign: map<int, nat>, poll: Poll)
    requires ServerDescriptors.Conserved(s, foreign) && Round(s, poll).outcome == Broke
    ensures Ended(Round(s, poll).server, foreign)
  {
    var a := if poll.listen.pollin then AcceptClient(s, poll.accept) else Step(Continue, s);
    if poll.listen.pollin {
      ServerDescriptors.AcceptConserves(s, foreign, poll.accept);
    }
    if poll.signal.pollin {
      SignalBreaksStopped(a.server, foreign);
    } else {
      SweepNeverBreaks(a.server, EventsFor(|a.server.clients|, EventsFor(|s.clients|, poll.clients)), 0);
    }
  }

  lemma {:induction false} SignalBreaksStopped(s: Server, foreign: map<int, nat>)
    requires ServerDescriptors.Conserved(s, foreign) && SignalStep(s).outcome == Broke
    ensures Ended(SignalStep(s).server, foreign)
  {
    if IsOpen(s.k, s.signalFd) {
      SignalEnds(s, foreign);
    }
  }

  /** The event loop is broken off only by a stop: the server is not running and holds nothing. */
  lemma {:induction false} BrokenLoopIsStopped(s: Server, foreign: map<int, nat>, polls: seq<Poll>)
    requires ServerDescriptors.Conserved(s, foreign) && EventLoop(s, polls).outcome == Broke
    ensures Ended(EventLoop(s, polls).server, foreign)
    decreases |polls|
  {
    var r := Round(s, polls[0]);
    if r.outcome == Continue {
      ServerDescriptors.ConservedIsInductive(foreign);
      RoundKeeps(t => ServerDescriptors.Conserved(t, foreign), s, polls[0]);
      BrokenLoopIsStopped(r.server, foreign, polls[1..]);
    } else {
      RoundBreaksStopped(s, foreign, polls[0]);
    }
  }
}
