/**
  Naming and payloads at the server. A slot's name and buffer follow its connection, and what is broadcast
  is the connection's stream, exactly while no descriptor has moved into the slot and every chunk read so
  far ended in a newline; two lemmas say what goes wrong otherwise.
 */
module ServerNames {
  import opened OperatingSystem
  import opened ProtocolBuffer
  import opened ServerInduction
  import opened ServerModel
  import opened Wrappers
  import Lines
  import Descriptors
  import NetIo
  import ServerDescriptors
  import ServerOrder

  /** Everything a connection has had broadcast, without the prefixes. */
  function Payloads(log: seq<Message>, id: nat): string {
    if log == [] then ""
    else Payloads(log[..|log| - 1], id) + if log[|log| - 1].sender == id then log[|log| - 1].payload else ""
  }

  lemma {:induction false} PayloadsSnoc(log: seq<Message>, m: Message, id: nat)
    ensures Payloads(log + [m], id) == if m.sender == id then Payloads(log, id) + m.payload else Payloads(log, id)
  {
    assert (log + [m])[..|log|] == log;
    if m.sender != id {
      Lines.AppendNothing(Payloads(log, id), "");
    }
  }

  /** Every broadcast of a connection bears one name. */
  ghost predicate BearsOneName(log: seq<Message>, id: nat, name: string) {
    forall i | 0 <= i < |log| :: log[i].sender == id ==> log[i].name == name
  }

  /**
    The broadcasts of a connection that has delivered the bytes `d`: none before any byte; after that they all
    bear the first line as their name, and put together they are all the rest.
   */
  ghost predicate StreamKept(d: string, log: seq<Message>, id: nat) {
    (d == "" ==> forall i | 0 <= i < |log| :: log[i].sender != id) &&
    (d != "" ==>
       EndsLine(d) && Lines.FirstLength(d, NEWLINE) > 0 &&
       Payloads(log, id) == d[Lines.FirstLength(d, NEWLINE)..] &&
       BearsOneName(log, id, d[..Lines.FirstLength(d, NEWLINE) - 1]))
  }

  /**
    The slot of such a connection: unnamed before any byte, named by the first line after that, and its buffer
    empty.
   */
  ghost predicate CleanSlot(slot: Slot, d: string, log: seq<Message>, id: nat)
    requires ValidBuf(slot.buffer)
  {
    StreamKept(d, log, id) && Contents(slot.buffer) == "" &&
    (d == "" ==> !slot.connected && slot.name == "NoName") &&
    (d != "" ==> slot.connected && slot.name == d[..Lines.FirstLength(d, NEWLINE) - 1])
  }

  // ----- one chunk -----

  lemma {:induction false} PayloadsOfNobody(log: seq<Message>, id: nat)
    requires forall i | 0 <= i < |log| :: log[i].sender != id
    ensures Payloads(log, id) == ""
  {
    if log != [] {
      PayloadsOfNobody(log[..|log| - 1], id);
    }
  }

  lemma {:induction false} AllLines(s: string)
    requires s == "" || EndsLine(s)
    ensures Lines.Complete(s, NEWLINE) == s && Lines.Rest(s, NEWLINE) == ""
  {
    Lines.CutIs(s, NEWLINE, |s|);
  }

  lemma {:induction false} FirstLengthIs(s: string, n: nat)
    requires 0 < n <= |s| && s[n - 1] == NEWLINE && NEWLINE !in s[..n - 1]
    ensures Lines.FirstLength(s, NEWLINE) == n
  {
    var m := Lines.FirstLength(s, NEWLINE);
    assert forall i | 0 <= i < n - 1 :: s[i] == s[..n - 1][i];
    assert m > 0 ==> forall i | 0 <= i < m - 1 :: s[i] == s[..m - 1][i];
  }

  lemma {:induction false} DrainAllLines(b: Buf)
    requires ValidBuf(b) && (Contents(b) == "" || EndsLine(Contents(b)))
    ensures Lines.Complete(Contents(b), NEWLINE) == Contents(b)
    ensures Contents(Drained(b, NEWLINE)) == ""
  {
    AllLines(Contents(b));
    DrainedContents(b, NEWLINE);
  }

  /** Read into an empty buffer, a chunk of whole lines is broadcast entirely, and the buffer is empty again. */
  lemma {:induction false} NamedSlotTakes(slot: Slot, bytes: string)
    requires ValidBuf(slot.buffer) && Contents(slot.buffer) == "" && |bytes| <= FreeSpace(slot.buffer) &&
             EndsLine(bytes)
    requires slot.connected
    ensures Contents(TakeChunk(slot, bytes).slot.buffer) == "" && TakeChunk(slot, bytes).slot.connected
    ensures TakeChunk(slot, bytes).slot.name == slot.name && TakeChunk(slot, bytes).payload == bytes
  {
    var b := ReadAtStart(slot.buffer, bytes);
    assert Contents(b) == bytes;
    DrainAllLines(b);
  }

  /** A buffer of whole lines gives up its first line as the name. */
  lemma {:induction false} NamesFirstLine(slot: Slot, bytes: string)
    requires ValidBuf(slot.buffer) && Contents(slot.buffer) == bytes && EndsLine(bytes)
    ensures Lines.FirstLength(bytes, NEWLINE) > 0 && Named(slot).connected && ValidBuf(Named(slot).buffer)
    ensures Named(slot).name == bytes[..Lines.FirstLength(bytes, NEWLINE) - 1]
    ensures Contents(Named(slot).buffer) == bytes[Lines.FirstLength(bytes, NEWLINE)..]
    ensures bytes[Lines.FirstLength(bytes, NEWLINE)..] == "" || EndsLine(bytes[Lines.FirstLength(bytes, NEWLINE)..])
  {
    assert bytes[|bytes| - 1] == NEWLINE;
  }

  /** The first chunk names the slot with its first line, and the rest of it is broadcast. */
  lemma {:induction false} UnnamedSlotTakes(slot: Slot, bytes: string)
    requires ValidBuf(slot.buffer) && Contents(slot.buffer) == "" && |bytes| <= FreeSpace(slot.buffer) &&
             EndsLine(bytes)
    requires !slot.connected
    ensures Contents(TakeChunk(slot, bytes).slot.buffer) == "" && TakeChunk(slot, bytes).slot.connected
    ensures Lines.FirstLength(bytes, NEWLINE) > 0
    ensures TakeChunk(slot, bytes).slot.name == bytes[..Lines.FirstLength(bytes, NEWLINE) - 1]
    ensures TakeChunk(slot, bytes).payload == bytes[Lines.FirstLength(bytes, NEWLINE)..]
  {
    var read := slot.(buffer := ReadAtStart(slot.buffer, bytes));
    assert Contents(read.buffer) == bytes;
    NamesFirstLine(read, bytes);
    DrainAllLines(Named(read).buffer);
  }

  /** The message a handled chunk adds to the log, if there is one. */
  function Logged(log: seq<Message>, id: nat, c: Chunked): seq<Message> {
    if c.payload == "" then log else log + [Message(id, c.slot.name, c.payload)]
  }

  lemma {:induction false} LoggedPayloads(log: seq<Message>, id: nat, c: Chunked)
    ensures Payloads(Logged(log, id, c), id) == Payloads(log, id) + c.payload
  {
    if c.payload == "" {
      Lines.AppendNothing(Payloads(log, id), c.payload);
    } else {
      PayloadsSnoc(log, Message(id, c.slot.name, c.payload), id);
    }
  }

  /** The first lines of a stream: what follows the name, if anything does, is the first message. */
  lemma {:induction false} StreamKeptFirst(log: seq<Message>, id: nat, bytes: string, c: Chunked)
    requires EndsLine(bytes) && (forall i | 0 <= i < |log| :: log[i].sender != id)
    requires Lines.FirstLength(bytes, NEWLINE) > 0
    requires c.slot.name == bytes[..Lines.FirstLength(bytes, NEWLINE) - 1]
    requires c.payload == bytes[Lines.FirstLength(bytes, NEWLINE)..]
    ensures StreamKept(bytes, Logged(log, id, c), id)
  {
    var log' := Logged(log, id, c);
    LoggedPayloads(log, id, c);
    PayloadsOfNobody(log, id);
    assert "" + c.payload == c.payload;
    assert Payloads(log', id) == c.payload;
    NamedWhereLogged(log, id, c, c.slot.name);
  }

  /** A message under the name keeps the name; where nobody has spoken, any name is kept. */
  lemma {:induction false} NamedWhereLogged(log: seq<Message>, id: nat, c: Chunked, name: string)
    requires c.slot.name == name && BearsOneName(log, id, name)
    ensures BearsOneName(Logged(log, id, c), id, name)
  {
  }

  lemma {:induction false} FirstChunkKeepsClean(slot: Slot, log: seq<Message>, id: nat, bytes: string)
    requires ValidBuf(slot.buffer) && CleanSlot(slot, "", log, id)
    requires |bytes| <= FreeSpace(slot.buffer) && EndsLine(bytes)
    ensures CleanSlot(TakeChunk(slot, bytes).slot, bytes, Logged(log, id, TakeChunk(slot, bytes)), id)
  {
    UnnamedSlotTakes(slot, bytes);
    StreamKeptFirst(log, id, bytes, TakeChunk(slot, bytes));
  }

  lemma {:induction false} StreamGrows(d: string, bytes: string)
    requires EndsLine(d) && EndsLine(bytes) && Lines.FirstLength(d, NEWLINE) > 0
    ensures EndsLine(d + bytes)
    ensures Lines.FirstLength(d + bytes, NEWLINE) == Lines.FirstLength(d, NEWLINE)
    ensures (d + bytes)[..Lines.FirstLength(d, NEWLINE) - 1] == d[..Lines.FirstLength(d, NEWLINE) - 1]
    ensures (d + bytes)[Lines.FirstLength(d, NEWLINE)..] == d[Lines.FirstLength(d, NEWLINE)..] + bytes
  {
    var n := Lines.FirstLength(d, NEWLINE);
    assert (d + bytes)[..n - 1] == d[..n - 1];
    FirstLengthIs(d + bytes, n);
  }

  /** One more chunk of whole lines, broadcast in full under the same name. */
  lemma {:induction false} StreamKeptLater(d: string, log: seq<Message>, id: nat, c: Chunked)
    requires d != "" && StreamKept(d, log, id) && EndsLine(c.payload)
    requires c.slot.name == d[..Lines.FirstLength(d, NEWLINE) - 1]
    ensures StreamKept(d + c.payload, Logged(log, id, c), id)
  {
    var n, all, log' := Lines.FirstLength(d, NEWLINE), d + c.payload, Logged(log, id, c);
    StreamGrows(d, c.payload);
    LoggedPayloads(log, id, c);
    NamedWhereLogged(log, id, c, d[..n - 1]);
    assert EndsLine(all) && Lines.FirstLength(all, NEWLINE) == n > 0;
    assert Payloads(log', id) == all[n..];
    assert BearsOneName(log', id, all[..n - 1]);
  }

  lemma {:induction false} LaterChunkKeepsClean(slot: Slot, d: string, log: seq<Message>, id: nat, bytes: string)
    requires ValidBuf(slot.buffer) && d != "" && CleanSlot(slot, d, log, id)
    requires |bytes| <= FreeSpace(slot.buffer) && EndsLine(bytes)
    ensures CleanSlot(TakeChunk(slot, bytes).slot, d + bytes, Logged(log, id, TakeChunk(slot, bytes)), id)
  {
    NamedSlotTakes(slot, bytes);
    StreamGrows(d, bytes);
    StreamKeptLater(d, log, id, TakeChunk(slot, bytes));
  }

  /** The stream grows by a chunk, the log by at most one message, and the slot stays clean. */
  lemma {:induction false} ChunkKeepsClean(slot: Slot, d: string, log: seq<Message>, id: nat, bytes: string)
    requires ValidBuf(slot.buffer) && CleanSlot(slot, d, log, id)
    requires |bytes| <= FreeSpace(slot.buffer) && EndsLine(bytes)
    ensures CleanSlot(TakeChunk(slot, bytes).slot, d + bytes, Logged(log, id, TakeChunk(slot, bytes)), id)
  {
    if d == "" {
      assert d + bytes == bytes;
      FirstChunkKeepsClean(slot, log, id, bytes);
    } else {
      LaterChunkKeepsClean(slot, d, log, id, bytes);
    }
  }

  // ----- the invariant -----

  /** The clause of the invariant for one slot. */
  ghost predicate SlotKept(s: Server, j: nat)
    requires j < |s.clients| && ValidServer(s)
  {
    IdOf(s, j) < |s.k.channels| &&
    (IdOf(s, j) !in s.h.tainted ==>
       CleanSlot(s.clients[j], s.k.channels[IdOf(s, j)].delivered, s.h.log, IdOf(s, j)))
  }

  /** The clause of the invariant for a connection that was let in, whether or not it has left. */
  ghost predicate ConnectionKept(s: Server, id: nat) {
    id < |s.k.channels| && (id !in s.h.tainted ==> StreamKept(s.k.channels[id].delivered, s.h.log, id))
  }

  ghost predicate NamesKept(s: Server, foreign: map<int, nat>) {
    ServerDescriptors.Conserved(s, foreign) &&
    KnownSenders(s.h.log, |s.k.channels|) &&
    (forall j | 0 <= j < |s.clients| :: SlotKept(s, j)) &&
    forall id | id in s.h.joined :: ConnectionKept(s, id)
  }

  lemma {:induction false} LogFrame(log: seq<Message>, id: nat, m: Message, name: string)
    requires m.sender != id
    ensures Payloads(log + [m], id) == Payloads(log, id)
    ensures BearsOneName(log, id, name) ==> BearsOneName(log + [m], id, name)
    ensures (forall i | 0 <= i < |log| :: log[i].sender != id) ==>
            forall i | 0 <= i < |log + [m]| :: (log + [m])[i].sender != id
  {
    PayloadsSnoc(log, m, id);
  }

  /** A connection that has delivered nothing more and sent no message keeps its record. */
  lemma {:induction false} StreamFrame(d: string, log: seq<Message>, id: nat, m: Message)
    requires StreamKept(d, log, id) && m.sender != id
    ensures StreamKept(d, log + [m], id)
  {
    LogFrame(log, id, m, if d == "" then "" else d[..Lines.FirstLength(d, NEWLINE) - 1]);
  }

  /** What handling a chunk leaves of the kernel and the log, as far as names are concerned. */
  lemma {:induction false} ChunkEffect(s: Server, foreign: map<int, nat>, i: nat, bytes: string)
    requires ServerDescriptors.Conserved(s, foreign) && i < |s.clients| && |bytes| <= FreeSpace(s.clients[i].buffer)
    ensures var s' := HandleChunk(s, i, bytes).server;
      s'.clients == s.clients[i := TakeChunk(s.clients[i], bytes).slot] &&
      s'.h.log == Logged(s.h.log, IdOf(s, i), TakeChunk(s.clients[i], bytes)) &&
      s'.h.tainted == s.h.tainted + (if EndsLine(bytes) then {} else {IdOf(s, i)}) &&
      s'.k.table == s.k.table && |s'.k.channels| == |s.k.channels| &&
      forall id: nat | id < |s.k.channels| :: s'.k.channels[id].delivered == s.k.channels[id].delivered
  {
    ServerDescriptors.DistinctIds(s, foreign);
    var c := TakeChunk(s.clients[i], bytes);
    if c.payload != "" {
      ServerOrder.PublishSends(Noted(s, i, bytes), i, c);
      ServerOrder.BroadcastDelivers(s, s.k, i, Text(Message(IdOf(s, i), c.slot.name, c.payload)), 0);
    }
  }

  /** The server after a chunk of slot i has been read, and before that. */
  ghost predicate JustRead(before: Server, s: Server, i: nat, bytes: string)
    requires i < |s.clients|
  {
    s == before.(k := s.k) && |s.k.channels| == |before.k.channels| && s.k.table == before.k.table &&
    forall id: nat | id < |s.k.channels| ::
      s.k.channels[id].delivered == if id == IdOf(s, i) then before.k.channels[id].delivered + bytes
        else before.k.channels[id].delivered
  }

  lemma {:induction false} ChunkSlot(before: Server, s: Server, foreign: map<int, nat>, i: nat, bytes: string, j: nat)
    requires ServerDescriptors.Conserved(s, foreign) && ValidServer(before) && i < |s.clients| && j < |s.clients|
    requires JustRead(before, s, i, bytes) && SlotKept(before, j)
    requires |bytes| <= FreeSpace(s.clients[i].buffer)
    ensures SlotKept(HandleChunk(s, i, bytes).server, j)
  {
    ChunkEffect(s, foreign, i, bytes);
    ServerDescriptors.DistinctIds(s, foreign);
    var s', id := HandleChunk(s, i, bytes).server, IdOf(s, j);
    assert IdOf(s', j) == id == IdOf(before, j);
    if id !in s'.h.tainted {
      var d := before.k.channels[id].delivered;
      var c := TakeChunk(s.clients[i], bytes);
      if j == i {
        ChunkKeepsClean(s.clients[i], d, s.h.log, id, bytes);
      } else if c.payload != "" {
        StreamFrame(d, s.h.log, id, Message(IdOf(s, i), c.slot.name, c.payload));
      }
    }
  }

  ghost predicate KnownSenders(log: seq<Message>, count: nat) {
    forall i | 0 <= i < |log| :: log[i].sender < count
  }

  lemma {:induction false} LoggedSenders(log: seq<Message>, id: nat, c: Chunked, count: nat)
    requires KnownSenders(log, count) && id < count
    ensures KnownSenders(Logged(log, id, c), count)
  {
  }

  /** The connection of slot i has its record from the slot; no other connection is touched. */
  lemma {:induction false} ChunkConnection(before: Server, s: Server, foreign: map<int, nat>, i: nat, bytes: string,
                                           id: nat)
    requires ServerDescriptors.Conserved(s, foreign) && ValidServer(before) && i < |s.clients|
    requires JustRead(before, s, i, bytes) && SlotKept(before, i) && ConnectionKept(before, id)
    requires |bytes| <= FreeSpace(s.clients[i].buffer)
    ensures ConnectionKept(HandleChunk(s, i, bytes).server, id)
  {
    ChunkEffect(s, foreign, i, bytes);
    ServerDescriptors.DistinctIds(s, foreign);
    var s', c := HandleChunk(s, i, bytes).server, TakeChunk(s.clients[i], bytes);
    if id == IdOf(s, i) {
      ChunkSlot(before, s, foreign, i, bytes, i);
      assert IdOf(s', i) == id;
    } else if id !in s'.h.tainted && c.payload != "" {
      StreamFrame(before.k.channels[id].delivered, s.h.log, id, Message(IdOf(s, i), c.slot.name, c.payload));
    }
  }

  lemma {:induction false} ChunkNames(before: Server, s: Server, foreign: map<int, nat>, i: nat, bytes: string)
    requires NamesKept(before, foreign) && ServerDescriptors.Conserved(s, foreign) && i < |s.clients|
    requires JustRead(before, s, i, bytes) && |bytes| <= FreeSpace(s.clients[i].buffer)
    ensures NamesKept(HandleChunk(s, i, bytes).server, foreign)
  {
    ServerDescriptors.ChunkConserves(s, foreign, i, bytes);
    assert SlotKept(before, i) && IdOf(before, i) == IdOf(s, i);
    LoggedSenders(s.h.log, IdOf(s, i), TakeChunk(s.clients[i], bytes), |s.k.channels|);
    var s' := HandleChunk(s, i, bytes).server;
    forall j | 0 <= j < |s.clients| ensures SlotKept(s', j) {
      assert SlotKept(before, j);
      ChunkSlot(before, s, foreign, i, bytes, j);
    }
    forall id | id in s'.h.joined ensures ConnectionKept(s', id) {
      assert ConnectionKept(before, id);
      ChunkConnection(before, s, foreign, i, bytes, id);
    }
    ChunkEffect(s, foreign, i, bytes);
  }

  // ----- the other steps -----

  lemma {:induction false} RemovalSlot(s: Server, foreign: map<int, nat>, i: nat, j: nat)
    requires ServerDescriptors.Conserved(s, foreign) && i < |s.clients| && j < |s.clients| - 1
    requires SlotKept(s, j) && SlotKept(s, |s.clients| - 1)
    ensures SlotKept(RemoveAt(s, i), j)
  {
    ServerDescriptors.RemovalIdAt(s, foreign, i, j);
    if j == i {
      assert IdOf(RemoveAt(s, i), j) in RemoveAt(s, i).h.tainted;
    } else {
      assert RemoveAt(s, i).clients[j] == s.clients[j];
    }
  }

  lemma {:induction false} RemovalNames(s: Server, foreign: map<int, nat>, i: nat)
    requires NamesKept(s, foreign) && i < |s.clients|
    ensures NamesKept(RemoveAt(s, i), foreign)
  {
    ServerDescriptors.RemovalConserves(s, foreign, i);
    var s' := RemoveAt(s, i);
    forall j | 0 <= j < |s'.clients| ensures SlotKept(s', j) {
      assert SlotKept(s, j) && SlotKept(s, |s.clients| - 1);
      RemovalSlot(s, foreign, i, j);
    }
    forall id | id in s'.h.joined ensures ConnectionKept(s', id) {
      assert ConnectionKept(s, id);
    }
  }

  /** Reading from slot i adds the bytes read to its connection's stream and to no other. */
  lemma {:induction false} ReadSlot(s: Server, foreign: map<int, nat>, i: nat, max: nat)
    requires ServerDescriptors.Conserved(s, foreign) && i < |s.clients|
    ensures JustRead(s, s.(k := SysRead(s.k, s.clients[i].fd, max).kernel), i, SysRead(s.k, s.clients[i].fd, max).bytes)
    ensures ServerDescriptors.Conserved(s.(k := SysRead(s.k, s.clients[i].fd, max).kernel), foreign)
  {
    ServerDescriptors.DistinctIds(s, foreign);
    var s' := s.(k := SysRead(s.k, s.clients[i].fd, max).kernel);
    ServerDescriptors.SameDescriptors(s, s', foreign);
  }

  lemma {:induction false} ReadNothingNames(before: Server, s: Server, foreign: map<int, nat>, i: nat)
    requires NamesKept(before, foreign) && ServerDescriptors.Conserved(s, foreign) && i < |s.clients|
    requires JustRead(before, s, i, "")
    ensures NamesKept(s, foreign)
  {
    forall j | 0 <= j < |s.clients| ensures SlotKept(s, j) {
      assert SlotKept(before, j) && IdOf(s, j) == IdOf(before, j);
      Lines.AppendNothing(before.k.channels[IdOf(s, j)].delivered, "");
    }
    forall id | id in s.h.joined ensures ConnectionKept(s, id) {
      assert ConnectionKept(before, id);
      Lines.AppendNothing(before.k.channels[id].delivered, "");
    }
  }

  lemma {:induction false} ServeNames(s: Server, foreign: map<int, nat>, e: Revents, i: nat)
    requires NamesKept(s, foreign) && i < |s.clients|
    ensures NamesKept(Serve(s, e, i).server, foreign)
  {
    if Hangup(e) {
      RemovalNames(s, foreign, i);
    } else {
      var free := FreeSpace(s.clients[i].buffer);
      var g := SysRead(s.k, s.clients[i].fd, free);
      var s' := s.(k := g.kernel);
      ReadSlot(s, foreign, i, free);
      if g.result.Count? && g.result.n > 0 {
        ChunkNames(s, s', foreign, i, g.bytes);
      } else {
        ReadNothingNames(s, s', foreign, i);
        if g.result.Count? {
          RemovalNames(s', foreign, i);
        }
      }
    }
  }

  /** A step that leaves slots, their identities and their streams alone, and may add channels, keeps the names. */
  lemma {:induction false} NamesFrame(s: Server, s': Server, foreign: map<int, nat>)
    requires NamesKept(s, foreign) && ServerDescriptors.Conserved(s', foreign)
    requires s'.clients == s.clients && s'.h == s.h && |s.k.channels| <= |s'.k.channels|
    requires forall i | 0 <= i < |s.clients| :: IdOf(s', i) == IdOf(s, i)
    requires forall id | id in s.h.joined && id < |s.k.channels| ::
             s'.k.channels[id].delivered == s.k.channels[id].delivered
    ensures NamesKept(s', foreign)
  {
    forall j | 0 <= j < |s'.clients| ensures SlotKept(s', j) {
      assert SlotKept(s, j);
      assert IdOf(s, j) in Ids(s);
    }
    forall id | id in s'.h.joined ensures ConnectionKept(s', id) {
      assert ConnectionKept(s, id);
    }
  }

  /** A new connection starts in a clean slot. */
  lemma {:induction false} NewSlotKept(s: Server, slot: Slot, log: seq<Message>, id: nat)
    requires ValidBuf(slot.buffer) && slot.buffer.size == 0 && slot.name == "NoName" && !slot.connected
    requires KnownSenders(log, id)
    ensures CleanSlot(slot, "", log, id)
  {
  }

  lemma {:induction false} AcceptNames(s: Server, foreign: map<int, nat>, a: AcceptOutcome)
    requires NamesKept(s, foreign)
    ensures NamesKept(AcceptClient(s, a).server, foreign)
  {
    ServerDescriptors.AcceptConserves(s, foreign, a);
    ServerDescriptors.DistinctIds(s, foreign);
    var s' := AcceptClient(s, a).server;
    if AcceptClient(s, a).outcome == Continue {
      if |s.clients| >= MAX_CLIENTS {
        NamesFrame(s, s', foreign);
      } else {
        forall j | 0 <= j < |s'.clients| ensures SlotKept(s', j) {
          if j < |s.clients| {
            assert SlotKept(s, j);
            assert s'.clients[j] == s.clients[j] && IdOf(s', j) == IdOf(s, j);
          } else {
            NewSlotKept(s', s'.clients[j], s'.h.log, |s.k.channels|);
          }
        }
        forall id | id in s'.h.joined ensures ConnectionKept(s', id) {
          assert id in s.h.joined ==> ConnectionKept(s, id);
        }
      }
    }
  }

  lemma {:induction false} StopNames(s: Server, foreign: map<int, nat>)
    requires NamesKept(s, foreign)
    ensures NamesKept(Stop(s), foreign)
  {
    ServerDescriptors.StopConserves(s, foreign);
    ServerDescriptors.CloseAllChannels(s.k, s.clients);
    forall id | id in s.h.joined ensures ConnectionKept(Stop(s), id) {
      assert ConnectionKept(s, id);
    }
  }

  /** The signal descriptor's channel was never let in as a connection. */
  lemma {:induction false} SignalIsNoConnection(s: Server, foreign: map<int, nat>)
    requires ServerDescriptors.Conserved(s, foreign)
    ensures s.signalFd in s.k.table ==> s.signalFd >= 0 && s.k.table[s.signalFd] !in s.h.joined
  {
    if s.signalFd in s.k.table {
      assert Descriptors.IsOpenChannel(s.k, s.k.table[s.signalFd]);
      ServerDescriptors.PlaceOfNumber(s, foreign, s.signalFd);
    }
  }

  lemma {:induction false} SignalNames(s: Server, foreign: map<int, nat>)
    requires NamesKept(s, foreign)
    ensures NamesKept(SignalStep(s).server, foreign)
  {
    ServerDescriptors.DistinctIds(s, foreign);
    var s' := s.(k := SysRead(s.k, s.signalFd, SIGINFO_SIZE).kernel);
    ServerDescriptors.SameDescriptors(s, s', foreign);
    SignalIsNoConnection(s, foreign);
    NamesFrame(s, s', foreign);
    StopNames(s', foreign);
  }

  lemma {:induction false} RunNames(s: Server, foreign: map<int, nat>, startup: Startup)
    requires NamesKept(s, foreign)
    ensures NamesKept(RunServer(s, startup).server, foreign)
  {
    ServerDescriptors.RunConserves(s, foreign, startup);
    ServerDescriptors.RunTable(s, foreign, startup);
    NamesFrame(s, RunServer(s, startup).server, foreign);
  }

  lemma {:induction false} NamesAreInductive(foreign: map<int, nat>)
    ensures Inductive(s => NamesKept(s, foreign))
  {
    var inv: Server -> bool := s => NamesKept(s, foreign);
    forall s: Server, e: Revents, i: nat | ValidServer(s) && i < |s.clients| && inv(s)
      ensures inv(Serve(s, e, i).server)
    {
      ServeNames(s, foreign, e, i);
    }
    forall s: Server, a: AcceptOutcome | ValidServer(s) && inv(s) ensures inv(AcceptClient(s, a).server) {
      AcceptNames(s, foreign, a);
    }
    forall s: Server | ValidServer(s) && inv(s) ensures inv(SignalStep(s).server) && inv(Stop(s)) {
      SignalNames(s, foreign);
      StopNames(s, foreign);
    }
    forall s: Server, startup: Startup | ValidServer(s) && inv(s) ensures inv(RunServer(s, startup).server) {
      RunNames(s, foreign, startup);
    }
  }

  /**
    Over any use of a constructed server: a connection that has never been moved to another slot and has only
    delivered chunks of whole lines, however many lines are in each, has its first line as its name, set once;
    its buffer is empty; and its broadcasts, put together, are the rest of its stream. The last of these holds
    for connections that have left as well, up to what they had delivered.
   */
  lemma {:induction false} NamesAndPayloads(s: Server, actions: seq<Action>)
    requires Constructed(s) && Descriptors.KernelConserved(s.k)
    ensures forall i | 0 <= i < |Execute(s, actions).clients| :: SlotKept(Execute(s, actions), i)
    ensures forall id | id in Execute(s, actions).h.joined :: ConnectionKept(Execute(s, actions), id)
  {
    ServerDescriptors.ConstructedConserves(s);
    NamesAreInductive(s.k.table);
    ExecuteKeeps(t => NamesKept(t, s.k.table), s, actions);
  }

  // ----- when names and payloads go wrong -----

  /**
    A removal keeps every remaining connection's name, buffer and state with its descriptor if and only if the
    last slot departs, or the departing slot holds the same name, the same memory and the same state as the last.
   */
  lemma {:induction false} RemovalKeepsSlots(s: Server, foreign: map<int, nat>, i: nat)
    requires ServerDescriptors.Conserved(s, foreign) && i < |s.clients|
    ensures (forall j | 0 <= j < |RemoveAt(s, i).clients| :: RemoveAt(s, i).clients[j] in s.clients)
       <==> i == |s.clients| - 1 ||
            (s.clients[i].name == s.clients[|s.clients| - 1].name &&
              s.clients[i].buffer == s.clients[|s.clients| - 1].buffer &&
             s.clients[i].connected == s.clients[|s.clients| - 1].connected)
  {
    var s', last := RemoveAt(s, i), |s.clients| - 1;
    if i < last {
      var moved := s.clients[i].(fd := s.clients[last].fd);
      assert s'.clients[i] == moved;
      if moved in s.clients {
        var j :| 0 <= j < |s.clients| && s.clients[j] == moved;
        assert s.clients[j].fd == s.clients[last].fd;
      }
      assert s.clients[last] in s.clients;
    }
  }

  /**
    When a ready slot is removed: on a hang-up, at the end of its stream, and also, though its client is alive,
    when its buffer is full, because then the server asks for 0 bytes and takes the 0 it gets for an end.
   */
  lemma {:induction false} RemovedWhen(s: Server, foreign: map<int, nat>, e: Revents, i: nat)
    requires ServerDescriptors.Conserved(s, foreign) && i < |s.clients|
    ensures IdOf(s, i) < |s.k.channels|
    ensures Serve(s, e, i).removed <==>
              Hangup(e) ||
              (Input(s.k, s.clients[i]).result.Count? &&
               (s.k.channels[IdOf(s, i)].incoming == "" || s.clients[i].buffer.size == BUFFER_SIZE))
  {
    ServerDescriptors.DistinctIds(s, foreign);
  }

  /** The next `read` on the channel is interrupted or fails. */
  predicate ReadFails(c: Channel) {
    c.readScript != [] && !c.readScript[0].Deliver?
  }

  /** A client but slot i's does not take all of the text: a write on its connection fails. */
  predicate SomeWriteFails(s: Server, i: nat, text: string) {
    exists l | 0 <= l < |s.clients| ::
      l != i && IdOf(s, l) < |s.k.channels| && !NetIo.SendAll(s.k.channels[IdOf(s, l)], text).ok
  }

  /** What is read for slot i is a chunk with something to say, and one of the writes for it fails. */
  predicate SayingFails(s: Server, i: nat)
    requires ValidServer(s) && i < |s.clients|
  {
    var g := Input(s.k, s.clients[i]);
    var c := TakeChunk(s.clients[i], g.bytes);
    g.bytes != "" && c.payload != "" &&
    SomeWriteFails(s, i, Text(Message(IdOf(s, i), c.slot.name, c.payload)))
  }

  /** Every slot is open, on a connection of its own. */
  predicate Separate(k: Kernel, clients: seq<Slot>) {
    (forall l | 0 <= l < |clients| :: IsOpen(k, clients[l].fd)) &&
    forall l, m | 0 <= l < m < |clients| ::
      IsOpen(k, clients[l].fd) && IsOpen(k, clients[m].fd) && k.table[clients[l].fd] != k.table[clients[m].fd]
  }

  /** From slot j on, every connection but the sender's takes all of the text. */
  predicate AllTake(k: Kernel, clients: seq<Slot>, sender: nat, text: string, j: nat)
    requires Separate(k, clients)
  {
    forall l | j <= l < |clients| && l != sender :: NetIo.SendAll(ChannelOf(k, clients[l].fd), text).ok
  }

  lemma {:induction false} AllTakeFirst(k: Kernel, clients: seq<Slot>, sender: nat, text: string, j: nat)
    requires Separate(k, clients) && j < |clients|
    ensures AllTake(k, clients, sender, text, j) <==>
            (j == sender || NetIo.SendAll(ChannelOf(k, clients[j].fd), text).ok) &&
            AllTake(k, clients, sender, text, j + 1)
  {
  }

  lemma {:induction false} OthersUntouched(k: Kernel, clients: seq<Slot>, sender: nat, text: string, j: nat)
    requires Separate(k, clients) && j < |clients| && j != sender && text != ""
    ensures var w := NetIo.WriteAll(k, clients[j].fd, text);
            (w.0 <==> NetIo.SendAll(ChannelOf(k, clients[j].fd), text).ok) && Separate(w.1, clients) &&
            (AllTake(w.1, clients, sender, text, j + 1) <==> AllTake(k, clients, sender, text, j + 1))
  {
    var k' := NetIo.WriteAll(k, clients[j].fd, text).1;
    assert forall l | j < l < |clients| :: ChannelOf(k', clients[l].fd) == ChannelOf(k, clients[l].fd);
  }

  /** A broadcast comes to its end if and only if every connection takes all of the text. */
  lemma {:induction false} BroadcastSucceeds(k: Kernel, clients: seq<Slot>, sender: nat, text: string, j: nat)
    requires Separate(k, clients) && j <= |clients| && text != ""
    ensures Broadcast(k, clients, sender, text, j).0 <==> AllTake(k, clients, sender, text, j)
    decreases |clients| - j
  {
    if j < |clients| {
      AllTakeFirst(k, clients, sender, text, j);
      if j == sender {
        BroadcastSucceeds(k, clients, sender, text, j + 1);
      } else {
        OthersUntouched(k, clients, sender, text, j);
        BroadcastSucceeds(NetIo.WriteAll(k, clients[j].fd, text).1, clients, sender, text, j + 1);
      }
    }
  }

  /** The same, on the connections as they were before the read for slot i, which is nobody else's. */
  lemma {:induction false} BroadcastFailsWhen(s: Server, foreign: map<int, nat>, k: Kernel, i: nat, text: string)
    requires ServerDescriptors.Conserved(s, foreign) && i < |s.clients| && text != ""
    requires k.table == s.k.table && |k.channels| == |s.k.channels|
    requires forall id: nat | id < |k.channels| && id != IdOf(s, i) :: k.channels[id] == s.k.channels[id]
    ensures !Broadcast(k, s.clients, i, text, 0).0 <==> SomeWriteFails(s, i, text)
  {
    ServerDescriptors.DistinctIds(s, foreign);
    BroadcastSucceeds(k, s.clients, i, text, 0);
    forall l | 0 <= l < |s.clients| && l != i
      ensures ChannelOf(k, s.clients[l].fd) == s.k.channels[IdOf(s, l)]
    {
      assert IdOf(s, l) != IdOf(s, i);
    }
  }

  lemma {:induction false} ChunkThrowsWhen(s: Server, i: nat, bytes: string)
    requires ValidServer(s) && i < |s.clients| && |bytes| <= FreeSpace(s.clients[i].buffer)
    ensures HandleChunk(s, i, bytes).outcome == Threw <==>
              TakeChunk(s.clients[i], bytes).payload != "" &&
              !Broadcast(s.k, s.clients, i, Text(ServerOrder.ChunkMessage(s, i, bytes)), 0).0
  {
    if TakeChunk(s.clients[i], bytes).payload != "" {
      ServerOrder.PublishSends(Noted(s, i, bytes), i, TakeChunk(s.clients[i], bytes));
    }
  }

  /**
    When serving a ready slot throws: there is no hang-up, and the read is interrupted or fails, for whatever
    reason, or what is read is to be broadcast and the connection of another client does not take all of it. A
    failed read leaves slots, names and all other state alone.
   */
  lemma {:induction false} ServeThrows(s: Server, foreign: map<int, nat>, e: Revents, i: nat)
    requires ServerDescriptors.Conserved(s, foreign) && i < |s.clients|
    ensures IdOf(s, i) < |s.k.channels|
    ensures Serve(s, e, i).outcome == Threw <==>
              !Hangup(e) && (ReadFails(s.k.channels[IdOf(s, i)]) || SayingFails(s, i))
    ensures !Hangup(e) && ReadFails(s.k.channels[IdOf(s, i)]) ==>
              Serve(s, e, i) == Served(Threw, s.(k := Input(s.k, s.clients[i]).kernel), false)
  {
    ServerDescriptors.DistinctIds(s, foreign);
    var g := Input(s.k, s.clients[i]);
    var s' := s.(k := g.kernel);
    assert g.result.Count? <==> !ReadFails(s.k.channels[IdOf(s, i)]);
    if g.result.Count? && g.result.n > 0 {
      ChunkThrowsWhen(s', i, g.bytes);
      BroadcastFailsWhen(s, foreign, g.kernel, i, Text(ServerOrder.ChunkMessage(s', i, g.bytes)));
    }
  }

  /** A sweep about to look at slot i. */
  datatype Position = Position(server: Server, events: seq<Revents>, i: nat)

  /** The sweep from slot i on comes to p: slots that are not ready passed, ready ones served, removed or kept. */
  predicate Reaches(s: Server, events: seq<Revents>, i: nat, p: Position)
    requires i <= |s.clients| == |events| && ValidServer(s)
    decreases |s.clients| - i
  {
    p == Position(s, events, i) ||
    (i < |s.clients| &&
     if !IsReady(events[i]) then Reaches(s, events, i + 1, p)
     else
       var r := Serve(s, events[i], i);
       r.outcome == Continue &&
       if r.removed then Reaches(r.server, SwapRemoved(events, i), i, p) else Reaches(r.server, events, i + 1, p))
  }

  /** What a sweep comes to is what it goes on from. */
  lemma {:induction false} SweepFrom(s: Server, foreign: map<int, nat>, events: seq<Revents>, i: nat, p: Position)
    requires ServerDescriptors.Conserved(s, foreign) && i <= |s.clients| == |events| && Reaches(s, events, i, p)
    ensures ServerDescriptors.Conserved(p.server, foreign) && p.i <= |p.server.clients| == |p.events|
    ensures Sweep(s, events, i).outcome == Sweep(p.server, p.events, p.i).outcome
    ensures Sweep(s, events, i).server == Sweep(p.server, p.events, p.i).server
    decreases |s.clients| - i
  {
    if p != Position(s, events, i) {
      if !IsReady(events[i]) {
        SweepFrom(s, foreign, events, i + 1, p);
      } else {
        var r := Serve(s, events[i], i);
        ServerDescriptors.ServeConserves(s, foreign, events[i], i);
        if r.removed {
          SweepFrom(r.server, foreign, SwapRemoved(events, i), i, p);
        } else {
          SweepFrom(r.server, foreign, events, i + 1, p);
        }
      }
    }
  }

  /** The sweep of a round comes to p, after a new connection has been taken if there is one. */
  predicate RoundReaches(s: Server, poll: Poll, p: Position)
    requires ValidServer(s)
  {
    poll.Polled? && !poll.signal.pollin &&
    var a := if poll.listen.pollin then AcceptClient(s, poll.accept) else Step(Continue, s);
    a.outcome == Continue &&
    Reaches(a.server, EventsFor(|a.server.clients|, EventsFor(|s.clients|, poll.clients)), 0, p)
  }

  lemma {:induction false} RoundFrom(s: Server, foreign: map<int, nat>, poll: Poll, p: Position)
    requires ServerDescriptors.Conserved(s, foreign) && RoundReaches(s, poll, p)
    ensures ServerDescriptors.Conserved(p.server, foreign) && p.i <= |p.server.clients| == |p.events|
    ensures Round(s, poll) == Step(Sweep(p.server, p.events, p.i).outcome, Sweep(p.server, p.events, p.i).server)
  {
    if poll.listen.pollin {
      ServerDescriptors.AcceptConserves(s, foreign, poll.accept);
    }
    var a := if poll.listen.pollin then AcceptClient(s, poll.accept) else Step(Continue, s);
    SweepFrom(a.server, foreign, EventsFor(|a.server.clients|, EventsFor(|s.clients|, poll.clients)), 0, p);
  }

  /**
    One failed read ends the whole sweep and the event loop with it, whichever slot the sweep has come to: the
    clients behind it are not served, and no later poll is made.
   */
  lemma {:induction false} FailedReadEndsLoop(s: Server, foreign: map<int, nat>, poll: Poll, later: seq<Poll>,
                                              p: Position)
    requires ServerDescriptors.Conserved(s, foreign) && RoundReaches(s, poll, p)
    requires p.i < |p.server.clients| && p.i < |p.events| && IsReady(p.events[p.i]) && !Hangup(p.events[p.i])
    requires IdOf(p.server, p.i) < |p.server.k.channels| && ReadFails(p.server.k.channels[IdOf(p.server, p.i)])
    ensures ValidServer(p.server)
    ensures EventLoop(s, [poll] + later)
         == Step(Threw, p.server.(k := Input(p.server.k, p.server.clients[p.i]).kernel))
  {
    RoundFrom(s, foreign, poll, p);
    ServeThrows(p.server, foreign, p.events[p.i], p.i);
    assert ([poll] + later)[0] == poll;
  }

  /** The lines, each behind a prefix of its own. */
  function PrefixEach(name: string, lines: seq<string>): string {
    if lines == [] then "" else "[" + name + "]: " + lines[0] + PrefixEach(name, lines[1..])
  }

  lemma {:induction false} PrefixEachLength(name: string, lines: seq<string>)
    ensures |PrefixEach(name, lines)| == |lines| * (|name| + 4) + |Lines.Concat(lines)|
  {
    if lines != [] {
      PrefixEachLength(name, lines[1..]);
      assert |lines| * (|name| + 4) == (|name| + 4) + |lines[1..]| * (|name| + 4);
    }
  }

  /** What is sent carries a prefix for each of its lines if and only if it is one line. */
  lemma {:induction false} OnePrefixForBatch(m: Message)
    requires m.payload != "" && Lines.Complete(m.payload, NEWLINE) == m.payload
    ensures Text(m) == PrefixEach(m.name, Lines.Split(m.payload, NEWLINE)) <==> |Lines.Split(m.payload, NEWLINE)| == 1
  {
    var lines := Lines.Split(m.payload, NEWLINE);
    Lines.SplitConcat(m.payload, NEWLINE);
    PrefixEachLength(m.name, lines);
    assert lines != [] by {
      assert Lines.Concat(lines) == m.payload;
    }
    if |lines| == 1 {
      assert lines[1..] == [] && Lines.Concat(lines) == lines[0] + "";
      assert PrefixEach(m.name, lines) == "[" + m.name + "]: " + lines[0] + "";
    } else {
      MoreIsLonger(|lines|, |m.name| + 4);
    }
  }

  lemma MoreIsLonger(n: nat, width: nat)
    requires n >= 2 && width > 0
    ensures n * width > width
  {
    assert n * width == width + (n - 1) * width;
  }

  /**
    Reading at the start of the memory appends every possible chunk if and only if the buffer is empty; a full
    buffer takes no chunk at all.
   */
  lemma {:induction false} ReadAtStartAppends(b: Buf)
    requires ValidBuf(b)
    ensures (forall bytes: string | 0 < |bytes| <= FreeSpace(b) ::
               Contents(ReadAtStart(b, bytes)) == Contents(b) + bytes)
       <==> b.size == 0 || b.size == BUFFER_SIZE
  {
    if b.size == 0 {
      forall bytes: string | 0 < |bytes| <= FreeSpace(b)
        ensures Contents(ReadAtStart(b, bytes)) == Contents(b) + bytes
      {
        assert Contents(b) == "";
        assert Contents(ReadAtStart(b, bytes)) == bytes;
      }
    } else if b.size < BUFFER_SIZE {
      var bytes := if b.mem[0] == 'a' then "b" else "a";
      assert Contents(ReadAtStart(b, bytes))[0] == bytes[0];
      assert (Contents(b) + bytes)[0] == b.mem[0];
    }
  }

  /** A line that arrives as "hi" and then "!\n" does not come out as "hi!\n": the second read overwrites the first. */
  lemma SecondReadOverwrites(memory: string)
    requires |memory| == BUFFER_SIZE
    ensures var first := ReadAtStart(Buf(memory, 0), "hi"); var second := ReadAtStart(first, "!\n");
            Contents(first) == "hi" && Contents(second) == "!\n" + memory[2..4] && Contents(second) != "hi!\n"
  {
    var first := ReadAtStart(Buf(memory, 0), "hi");
    assert Contents(first) == "hi";
    assert Contents(ReadAtStart(first, "!\n")) == "!\n" + memory[2..4];
    assert Contents(ReadAtStart(first, "!\n"))[0] == '!';
  }
}
