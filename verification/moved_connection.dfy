/**
  A run of the server in which a connection goes on under the name of another one: Alice, Carol and Bob
  connect and give their names, Alice hangs up, and what Bob says next reaches Carol as said by Alice.
 */
module MovedConnection {
  import opened Descriptors
  import opened OperatingSystem
  import opened ProtocolBuffer
  import opened ServerModel
  import opened Wrappers
  import NetIo
  import ServerNames
  import ServerSweep

  const SILENT := Channel("", [], "", "", [])
  const ALICE := Channel("", [], "", "Alice\n", [])
  const CAROL := Channel("", [], "", "Carol\n", [])

  /** Bob's name arrives in one chunk, and what he says in the next. */
  const BOB := Channel("", [], "", "Bob\nhi\n", [Deliver(4)])

  const READABLE := Revents(true, false, false, false)
  const GONE := Revents(false, false, true, false)

  /** A server just constructed, with nothing open. */
  const START := Server(false, -1, -1, [], Kernel(map[], [], []), NO_HISTORY)

  function Connects(fd: int, channel: Channel, memory: string): Poll {
    Polled(READABLE, NO_EVENTS, [], Accepted(fd, channel, memory))
  }

  function Clients(events: seq<Revents>): Poll {
    Polled(NO_EVENTS, NO_EVENTS, events, AcceptFails)
  }

  function Polls(memory: string): seq<Poll> {
    [Connects(5, ALICE, memory), Connects(6, CAROL, memory), Connects(7, BOB, memory),
     Clients([READABLE, READABLE, READABLE]), Clients([GONE, NO_EVENTS, NO_EVENTS]), Clients([READABLE, NO_EVENTS])]
  }

  // ----- rounds -----

  lemma {:induction false} ConnectRound(s: Server, fd: int, channel: Channel, memory: string)
    requires ValidServer(s) && CanOpen(s.k, fd) && |memory| == BUFFER_SIZE && |s.clients| < MAX_CLIENTS
    ensures Round(s, Connects(fd, channel, memory)) == Step(Continue, Admitted(s, fd, channel, memory))
  {
    var s' := Admitted(s, fd, channel, memory);
    ServerSweep.SweepIdle(s', EventsFor(|s'.clients|, EventsFor(|s.clients|, [])), 0);
  }

  lemma {:induction false} ClientsRound(s: Server, events: seq<Revents>)
    requires ValidServer(s) && |events| == |s.clients|
    ensures Round(s, Clients(events)) == Step(Sweep(s, events, 0).outcome, Sweep(s, events, 0).server)
  {
    assert EventsFor(|s.clients|, EventsFor(|s.clients|, events)) == events;
  }

  lemma {:induction false} LoopStep(s: Server, poll: Poll, rest: seq<Poll>)
    requires ValidServer(s) && Round(s, poll).outcome == Continue
    ensures EventLoop(s, [poll] + rest) == EventLoop(Round(s, poll).server, rest)
  {
    assert ([poll] + rest)[1..] == rest;
  }

  lemma {:induction false} ExecuteTwo(s: Server, a: Action, b: Action)
    requires ValidServer(s)
    ensures Execute(s, [a, b]) == Act(Act(s, a), b)
  {
    assert [a, b][1..] == [b];
    assert Execute(Act(s, a), [b]) == Execute(Act(Act(s, a), b), [b][1..]);
  }

  lemma {:induction false} SweepKeeping(s: Server, events: seq<Revents>, i: nat)
    requires ValidServer(s) && i < |s.clients| == |events| && IsReady(events[i])
    requires Serve(s, events[i], i).outcome == Continue && !Serve(s, events[i], i).removed
    ensures Sweep(s, events, i).outcome == Sweep(Serve(s, events[i], i).server, events, i + 1).outcome
    ensures Sweep(s, events, i).server == Sweep(Serve(s, events[i], i).server, events, i + 1).server
  {
  }

  // ----- one chunk -----

  /** What `read` gives for slot i is `bytes`. */
  ghost predicate Gives(s: Server, i: nat, bytes: string)
    requires i < |s.clients| && ValidServer(s)
  {
    Input(s.k, s.clients[i]).result == Count(|bytes|) && Input(s.k, s.clients[i]).bytes == bytes
  }

  lemma {:induction false} ServeReads(s: Server, i: nat, bytes: string)
    requires ValidServer(s) && i < |s.clients| && Gives(s, i, bytes) && bytes != ""
    ensures var r := HandleChunk(s.(k := Input(s.k, s.clients[i]).kernel), i, bytes);
            Serve(s, READABLE, i) == Served(r.outcome, r.server, false)
  {
  }

  lemma {:induction false} NothingToNote(s: Server, i: nat, bytes: string)
    requires ValidServer(s) && i < |s.clients| && EndsLine(bytes)
    ensures Noted(s, i, bytes) == s
  {
    assert s.h.tainted + {} == s.h.tainted;
  }

  /** A slot with a name and nothing in its buffer. */
  predicate IsNamed(slot: Slot, fd: int, name: string) {
    ValidBuf(slot.buffer) && slot.fd == fd && slot.name == name && slot.connected && Contents(slot.buffer) == ""
  }

  /** The only line an unnamed slot has got names it, and there is nothing to say yet. */
  lemma {:induction false} TakesName(slot: Slot, name: string)
    requires ValidBuf(slot.buffer) && |name| < FreeSpace(slot.buffer) && NEWLINE !in name
    requires !slot.connected && Contents(slot.buffer) == ""
    ensures IsNamed(TakeChunk(slot, name + "\n").slot, slot.fd, name) && TakeChunk(slot, name + "\n").payload == ""
  {
    var bytes := name + "\n";
    ServerNames.FirstLengthIs(bytes, |bytes|);
    ServerNames.UnnamedSlotTakes(slot, bytes);
    assert bytes[..|bytes| - 1] == name && bytes[|bytes|..] == "";
  }

  lemma {:induction false} NamesSlot(s: Server, i: nat, name: string)
    requires ValidServer(s) && i < |s.clients| && Gives(s, i, name + "\n") && NEWLINE !in name
    requires !s.clients[i].connected && Contents(s.clients[i].buffer) == ""
    ensures IsNamed(TakeChunk(s.clients[i], name + "\n").slot, s.clients[i].fd, name)
    ensures Serve(s, READABLE, i)
         == Served(Continue, s.(clients := s.clients[i := TakeChunk(s.clients[i], name + "\n").slot],
                                k := Input(s.k, s.clients[i]).kernel), false)
  {
    var s' := s.(k := Input(s.k, s.clients[i]).kernel);
    ServeReads(s, i, name + "\n");
    TakesName(s.clients[i], name);
    NothingToNote(s', i, name + "\n");
  }

  /** A channel on which every write succeeds in full. */
  lemma {:induction false} WritesInFull(k: Kernel, fd: int, text: string)
    requires IsOpen(k, fd) && ChannelOf(k, fd).writeScript == []
    ensures NetIo.WriteAll(k, fd, text).0 && NetIo.WriteAll(k, fd, text).1.table == k.table
    ensures |NetIo.WriteAll(k, fd, text).1.channels| == |k.channels|
    ensures NetIo.Sends(ChannelOf(k, fd), ChannelOf(NetIo.WriteAll(k, fd, text).1, fd), text)
    ensures forall id: nat | id < |k.channels| && id != k.table[fd] ::
            NetIo.WriteAll(k, fd, text).1.channels[id] == k.channels[id]
  {
    var done := NetIo.WriteAllAppends(k, fd, text);
    if text != "" {
      assert NetIo.SendAll(ChannelOf(k, fd), text).ok by {
        assert text[|text|..] == "";
      }
    }
  }

  /** With two slots, what slot 0 says goes to slot 1. */
  lemma {:induction false} AnnouncedToOne(s: Server, payload: string)
    requires ValidServer(s) && |s.clients| == 2 && IsOpen(s.k, s.clients[1].fd)
    requires ChannelOf(s.k, s.clients[1].fd).writeScript == []
    ensures var m := Message(IdOf(s, 0), s.clients[0].name, payload);
            Announced(s, 0, payload)
            == Step(Continue, s.(k := NetIo.WriteAll(s.k, s.clients[1].fd, Text(m)).1, h := WithMessage(s.h, m, true)))
  {
    var text := Text(Message(IdOf(s, 0), s.clients[0].name, payload));
    var w := NetIo.WriteAll(s.k, s.clients[1].fd, text);
    WritesInFull(s.k, s.clients[1].fd, text);
    assert Broadcast(w.1, s.clients, 0, text, 2) == (true, w.1);
    assert Broadcast(s.k, s.clients, 0, text, 1) == (true, w.1);
  }

  // ----- the run -----

  function Running(): (s: Server)
    ensures ValidServer(s)
  {
    Server(true, 3, 4, [], Kernel(map[3 := 0, 4 := 1], [SILENT, SILENT], []), NO_HISTORY)
  }

  lemma Starting()
    ensures RunServer(START, Starts(3, SILENT, 4, SILENT)) == Step(Continue, Running())
  {
    assert map[][3 := 0][4 := 1] == map[3 := 0, 4 := 1];
  }

  function Unnamed(fd: int, memory: string): Slot {
    Slot(fd, "NoName", Buf(memory, 0), false)
  }

  function AllIn(memory: string): (s: Server)
    requires |memory| == BUFFER_SIZE
    ensures ValidServer(s)
  {
    Admitted(Admitted(Admitted(Running(), 5, ALICE, memory), 6, CAROL, memory), 7, BOB, memory)
  }

  lemma AllConnect(memory: string, rest: seq<Poll>)
    requires |memory| == BUFFER_SIZE
    ensures EventLoop(Running(), [Connects(5, ALICE, memory)]
            + ([Connects(6, CAROL, memory)] + ([Connects(7, BOB, memory)] + rest)))
         == EventLoop(AllIn(memory), rest)
  {
    var s0, p0, p1, p2 := Running(), Connects(5, ALICE, memory), Connects(6, CAROL, memory), Connects(7, BOB, memory);
    ConnectRound(s0, 5, ALICE, memory);
    LoopStep(s0, p0, [p1] + ([p2] + rest));
    var s1 := Admitted(s0, 5, ALICE, memory);
    ConnectRound(s1, 6, CAROL, memory);
    LoopStep(s1, p1, [p2] + rest);
    var s2 := Admitted(s1, 6, CAROL, memory);
    ConnectRound(s2, 7, BOB, memory);
    LoopStep(s2, p2, rest);
  }

  /** The descriptors and channels while all three are there. */
  ghost predicate AllOpen(s: Server) {
    ValidServer(s) && |s.clients| == 3 && s.h.log == [] &&
    s.k.table == map[3 := 0, 4 := 1, 5 := 2, 6 := 3, 7 := 4] && |s.k.channels| == 5
  }

  /** So far Alice has given her name; then Carol has; then Bob has, and has one more line to read. */
  ghost predicate NamesGiven(s: Server, memory: string, count: nat) {
    AllOpen(s) && |memory| == BUFFER_SIZE &&
    (if count >= 1 then IsNamed(s.clients[0], 5, "Alice")
     else s.clients[0] == Unnamed(5, memory) && s.k.channels[2] == ALICE) &&
    (if count >= 2 then IsNamed(s.clients[1], 6, "Carol") && s.k.channels[3] == Channel("", [], "Carol\n", "", [])
     else s.clients[1] == Unnamed(6, memory) && s.k.channels[3] == CAROL) &&
    (if count >= 3 then IsNamed(s.clients[2], 7, "Bob") && s.k.channels[4] == Channel("", [], "Bob\n", "hi\n", [])
     else s.clients[2] == Unnamed(7, memory) && s.k.channels[4] == BOB)
  }

  lemma AllInState(memory: string)
    requires |memory| == BUFFER_SIZE
    ensures NamesGiven(AllIn(memory), memory, 0)
  {
  }

  lemma AliceNamed(s: Server, memory: string)
    requires NamesGiven(s, memory, 0)
    ensures Serve(s, READABLE, 0).outcome == Continue && !Serve(s, READABLE, 0).removed
    ensures NamesGiven(Serve(s, READABLE, 0).server, memory, 1)
  {
    assert "Alice\n"[..6] == "Alice" + "\n";
    NamesSlot(s, 0, "Alice");
  }

  lemma CarolNamed(s: Server, memory: string)
    requires NamesGiven(s, memory, 1)
    ensures Serve(s, READABLE, 1).outcome == Continue && !Serve(s, READABLE, 1).removed
    ensures NamesGiven(Serve(s, READABLE, 1).server, memory, 2)
  {
    assert "Carol\n"[..6] == "Carol" + "\n" && "Carol\n"[6..] == "" && "" + "Carol\n" == "Carol\n";
    NamesSlot(s, 1, "Carol");
  }

  lemma BobNamed(s: Server, memory: string)
    requires NamesGiven(s, memory, 2)
    ensures Serve(s, READABLE, 2).outcome == Continue && !Serve(s, READABLE, 2).removed
    ensures NamesGiven(Serve(s, READABLE, 2).server, memory, 3)
  {
    assert "Bob\nhi\n"[..4] == "Bob" + "\n" && "Bob\nhi\n"[4..] == "hi\n" && "" + "Bob\n" == "Bob\n";
    NamesSlot(s, 2, "Bob");
  }

  /** All names are read in one sweep. */
  lemma NamesRead(memory: string)
    requires |memory| == BUFFER_SIZE
    ensures Round(AllIn(memory), Clients([READABLE, READABLE, READABLE])).outcome == Continue
    ensures NamesGiven(Round(AllIn(memory), Clients([READABLE, READABLE, READABLE])).server, memory, 3)
  {
    var s, events := AllIn(memory), [READABLE, READABLE, READABLE];
    AllInState(memory);
    AliceNamed(s, memory);
    var s1 := Serve(s, READABLE, 0).server;
    CarolNamed(s1, memory);
    var s2 := Serve(s1, READABLE, 1).server;
    BobNamed(s2, memory);
    ClientsRound(s, events);
    SweepKeeping(s, events, 0);
    SweepKeeping(s1, events, 1);
    SweepKeeping(s2, events, 2);
  }

  /** Alice has left, and her slot has Bob's descriptor. */
  ghost predicate AliceLeft(s: Server) {
    ValidServer(s) && |s.clients| == 2 && IsNamed(s.clients[0], 7, "Alice") && IsNamed(s.clients[1], 6, "Carol") &&
    s.k.table == map[3 := 0, 4 := 1, 6 := 3, 7 := 4] && |s.k.channels| == 5 && s.h.log == [] &&
    s.k.channels[3] == Channel("", [], "Carol\n", "", []) && s.k.channels[4] == Channel("", [], "Bob\n", "hi\n", [])
  }

  /** The hang-up moves Bob's descriptor into Alice's slot. */
  lemma AliceHangsUp(s: Server, memory: string)
    requires NamesGiven(s, memory, 3)
    ensures Round(s, Clients([GONE, NO_EVENTS, NO_EVENTS])).outcome == Continue
    ensures AliceLeft(Round(s, Clients([GONE, NO_EVENTS, NO_EVENTS])).server)
  {
    var events := [GONE, NO_EVENTS, NO_EVENTS];
    ClientsRound(s, events);
    var s1 := RemoveAt(s, 0);
    assert s1.k.table == map[3 := 0, 4 := 1, 6 := 3, 7 := 4];
    ServerSweep.SweepIdle(s1, SwapRemoved(events, 0), 0);
  }

  /** Bob's connection, whose first line is "Bob", has spoken, and Carol's has been sent it as said by Alice. */
  ghost predicate Ending(s: Server) {
    s.h.log == [Message(4, "Alice", "hi\n")] && |s.k.channels| == 5 &&
    s.k.channels[4].delivered == "Bob\nhi\n" &&
    s.k.channels[3].delivered == "Carol\n" && s.k.channels[3].sent == "[Alice]: hi\n"
  }

  /** What the read leaves: the chunk is out, the slots and the log are untouched. */
  ghost predicate BobRead(s: Server) {
    ValidServer(s) && |s.clients| == 2 && IsNamed(s.clients[0], 7, "Alice") && IsNamed(s.clients[1], 6, "Carol") &&
    s.k.table == map[3 := 0, 4 := 1, 6 := 3, 7 := 4] && |s.k.channels| == 5 && s.h.log == [] &&
    s.k.channels[3] == Channel("", [], "Carol\n", "", []) && s.k.channels[4].delivered == "Bob\nhi\n"
  }

  lemma BobIsRead(s: Server)
    requires AliceLeft(s)
    ensures Gives(s, 0, "hi\n")
    ensures BobRead(s.(k := Input(s.k, s.clients[0]).kernel))
  {
    var bytes := "hi\n";
    assert bytes[..3] == bytes && "Bob\n" + bytes == "Bob\nhi\n";
  }

  lemma {:induction false} PublishSpeaks(s: Server, i: nat, c: Chunked)
    requires ValidServer(s) && i < |s.clients| && ValidBuf(c.slot.buffer) && c.slot.fd == s.clients[i].fd &&
             c.payload != ""
    ensures ValidServer(s.(clients := s.clients[i := c.slot]))
    ensures Publish(s, i, c) == Announced(s.(clients := s.clients[i := c.slot]), i, c.payload)
  {
  }

  /** A named slot with nothing held over says all of a chunk of whole lines. */
  lemma {:induction false} SaysAll(s: Server, i: nat, fd: int, name: string, bytes: string)
    requires ValidServer(s) && i < |s.clients| && IsNamed(s.clients[i], fd, name)
    requires EndsLine(bytes) && |bytes| <= FreeSpace(s.clients[i].buffer)
    ensures var s' := s.(clients := s.clients[i := TakeChunk(s.clients[i], bytes).slot]);
            s'.clients[i].name == name && s'.clients[i].fd == fd && ValidServer(s') &&
            HandleChunk(s, i, bytes) == Announced(s', i, bytes)
  {
    ServerNames.NamedSlotTakes(s.clients[i], bytes);
    NothingToNote(s, i, bytes);
    PublishSpeaks(s, i, TakeChunk(s.clients[i], bytes));
  }

  /** Announcing it to Carol. */
  lemma AnnouncedToCarol(s: Server)
    requires ValidServer(s) && |s.clients| == 2 && s.clients[0].fd == 7 && s.clients[0].name == "Alice" &&
             s.clients[1].fd == 6
    requires s.k.table == map[3 := 0, 4 := 1, 6 := 3, 7 := 4] && |s.k.channels| == 5 && s.h.log == []
    requires s.k.channels[3] == Channel("", [], "Carol\n", "", []) && s.k.channels[4].delivered == "Bob\nhi\n"
    ensures Announced(s, 0, "hi\n").outcome == Continue && Ending(Announced(s, 0, "hi\n").server)
  {
    var text := Text(Message(4, "Alice", "hi\n"));
    assert text == "[Alice]: hi\n" && "" + text == text;
    AnnouncedToOne(s, "hi\n");
    WritesInFull(s.k, 6, text);
  }

  /** Handling that chunk. */
  lemma BobIsAnnounced(s: Server)
    requires BobRead(s)
    ensures HandleChunk(s, 0, "hi\n").outcome == Continue && Ending(HandleChunk(s, 0, "hi\n").server)
  {
    SaysAll(s, 0, 7, "Alice", "hi\n");
    AnnouncedToCarol(s.(clients := s.clients[0 := TakeChunk(s.clients[0], "hi\n").slot]));
  }

  /** Serving Bob's slot. */
  lemma BobIsServed(s: Server)
    requires AliceLeft(s)
    ensures Serve(s, READABLE, 0).outcome == Continue && !Serve(s, READABLE, 0).removed
    ensures Ending(Serve(s, READABLE, 0).server)
  {
    BobIsRead(s);
    ServeReads(s, 0, "hi\n");
    BobIsAnnounced(s.(k := Input(s.k, s.clients[0]).kernel));
  }

  /** Nothing else is ready in that round. */
  lemma {:induction false} RestOfRound(s: Server, events: seq<Revents>)
    requires ValidServer(s) && s.clients != [] && events == [READABLE, NO_EVENTS] && |events| == |s.clients|
    requires Serve(s, READABLE, 0).outcome == Continue && !Serve(s, READABLE, 0).removed
    ensures Round(s, Clients(events)) == Step(Continue, Serve(s, READABLE, 0).server)
  {
    ClientsRound(s, events);
    SweepKeeping(s, events, 0);
    ServerSweep.SweepIdle(Serve(s, READABLE, 0).server, events, 1);
  }

  lemma BobSpeaks(s: Server)
    requires AliceLeft(s)
    ensures Round(s, Clients([READABLE, NO_EVENTS])).outcome == Continue
    ensures Ending(Round(s, Clients([READABLE, NO_EVENTS])).server)
  {
    BobIsServed(s);
    RestOfRound(s, [READABLE, NO_EVENTS]);
  }

  lemma WholeLoop(memory: string)
    requires |memory| == BUFFER_SIZE
    ensures Ending(EventLoop(Running(), Polls(memory)).server)
  {
    var p3, p4, p5 := Clients([READABLE, READABLE, READABLE]), Clients([GONE, NO_EVENTS, NO_EVENTS]),
      Clients([READABLE, NO_EVENTS]);
    var rest := [p3] + ([p4] + ([p5] + []));
    assert Polls(memory) == [Connects(5, ALICE, memory)] + ([Connects(6, CAROL, memory)]
           + ([Connects(7, BOB, memory)] + rest));
    AllConnect(memory, rest);
    NamesRead(memory);
    LoopStep(AllIn(memory), p3, [p4] + ([p5] + []));
    LeavesAndSpeaks(Round(AllIn(memory), p3).server, memory);
  }

  lemma LeavesAndSpeaks(s: Server, memory: string)
    requires NamesGiven(s, memory, 3)
    ensures Ending(EventLoop(s, [Clients([GONE, NO_EVENTS, NO_EVENTS])]
            + ([Clients([READABLE, NO_EVENTS])] + [])).server)
  {
    AliceHangsUp(s, memory);
    LoopStep(s, Clients([GONE, NO_EVENTS, NO_EVENTS]), [Clients([READABLE, NO_EVENTS])] + []);
    var s4 := Round(s, Clients([GONE, NO_EVENTS, NO_EVENTS])).server;
    BobSpeaks(s4);
    LoopStep(s4, Clients([READABLE, NO_EVENTS]), []);
  }

  /**
    From construction on: Carol is sent "[Alice]: hi", which Bob's connection sent; its stream begins with the
    line "Bob".
   */
  lemma NameStaysWithSlot(memory: string)
    requires |memory| == BUFFER_SIZE
    ensures Constructed(START) && KernelConserved(START.k)
    ensures Ending(Execute(START, [Run(Starts(3, SILENT, 4, SILENT)), Loop(Polls(memory))]))
  {
    Starting();
    WholeLoop(memory);
    ExecuteTwo(START, Run(Starts(3, SILENT, 4, SILENT)), Loop(Polls(memory)));
  }
}
