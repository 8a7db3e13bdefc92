/**
  The chat server as a state machine: one round of its event loop on values, with a simple sweep
  that visits every slot. The class `ChatServers.ChatServer` is proved to take exactly these steps with its
  parallel descriptor list and its early exit.
 */
module ServerModel {
  import opened OperatingSystem
  import opened ProtocolBuffer
  import opened Wrappers
  import Lines
  import NetIo
  import NetUtils

  const MAX_CLIENTS := 62

  /** `ClientInfo`: the slot's name, buffer and state stay with the slot; only the descriptor moves. */
  datatype Slot = Slot(fd: int, name: string, buffer: Buf, connected: bool)

  /** One broadcast: who sent it, the slot's name at that moment, and the complete lines. */
  datatype Message = Message(sender: nat, name: string, payload: string)

  /** One prefix goes before the whole batch of lines. */
  function Text(m: Message): string {
    "[" + m.name + "]: " + m.payload
  }

  /**
    Bookkeeping that the program does not have. Connections are channel identities. `joined` and `left`
    are positions in the log of broadcasts. A connection is `tainted` once its descriptor has moved to
    another slot, or a chunk read from it did not end in a newline. `failed`: the log positions of the
    broadcasts in which a write failed.
   */
  datatype History = History(log: seq<Message>, joined: map<nat, nat>, left: map<nat, nat>, tainted: set<nat>,
                             failed: set<nat>)

  datatype Server = Server(running: bool, listenFd: int, signalFd: int, clients: seq<Slot>, k: Kernel, h: History)

  predicate ValidServer(s: Server) {
    ValidKernel(s.k) && forall i | 0 <= i < |s.clients| :: ValidBuf(s.clients[i].buffer)
  }

  datatype Revents = Revents(pollin: bool, pollerr: bool, pollhup: bool, pollnval: bool)

  const NO_EVENTS := Revents(false, false, false, false)

  predicate Hangup(e: Revents) {
    e.pollerr || e.pollhup || e.pollnval
  }

  predicate IsReady(e: Revents) {
    e != NO_EVENTS
  }

  datatype AcceptOutcome = AcceptFails | Accepted(fd: int, channel: Channel, memory: string)

  /** One return of `poll`, and what accepting the waiting connection, if there is one, would give. */
  datatype Poll =
    | PollInterrupted
    | PollFailed
    | Polled(listen: Revents, signal: Revents, clients: seq<Revents>, accept: AcceptOutcome)

  datatype Step = Step(outcome: Outcome, server: Server)

  // ----- removing and adding connections -----

  function IdOf(s: Server, i: nat): nat
    requires i < |s.clients|
  {
    var fd := s.clients[i].fd;
    if fd in s.k.table then s.k.table[fd] else 0
  }

  function SwapRemoved<T>(xs: seq<T>, i: nat): (ys: seq<T>)
    requires i < |xs|
    ensures |ys| == |xs| - 1
    ensures forall j | 0 <= j < |ys| :: ys[j] == xs[if j == i then |xs| - 1 else j]
  {
    xs[i := xs[|xs| - 1]][..|xs| - 1]
  }

  /** The descriptors the slots hold, in slot order. */
  function Fds(clients: seq<Slot>): (fds: seq<int>)
    ensures |fds| == |clients|
    ensures forall i | 0 <= i < |clients| :: fds[i] == clients[i].fd
  {
    seq(|clients|, i requires 0 <= i < |clients| => clients[i].fd)
  }

  /** The slots after the last one's descriptor has moved to slot i and the last slot is gone. */
  function SlotsWithout(slots: seq<Slot>, i: nat): (slots': seq<Slot>)
    requires i < |slots|
    ensures |slots'| == |slots| - 1
  {
    slots[i := slots[i].(fd := slots[|slots| - 1].fd)][..|slots| - 1]
  }

  /** The record of a removal: the connection leaves, and the one in the last slot is moved. */
  function Departed(s: Server, i: nat): History
    requires i < |s.clients|
  {
    var last := |s.clients| - 1;
    s.h.(left := s.h.left[IdOf(s, i) := |s.h.log|], tainted := s.h.tainted + if i < last then {IdOf(s, last)} else {})
  }

  /** The departing descriptor is closed and the last slot's takes its place; name and buffer stay. */
  function RemoveAt(s: Server, i: nat): (s': Server)
    requires i < |s.clients| && ValidServer(s)
    ensures ValidServer(s')
    ensures Fds(s'.clients) == SwapRemoved(Fds(s.clients), i)
  {
    s.(clients := SlotsWithout(s.clients, i), k := NetUtils.CloseIfValid(s.k, s.clients[i].fd), h := Departed(s, i))
  }

  /** A new connection is kept in a new slot, or closed again when all places are taken. */
  function Admitted(s: Server, fd: int, channel: Channel, memory: string): (s': Server)
    requires ValidServer(s) && CanOpen(s.k, fd) && |memory| == BUFFER_SIZE
    ensures ValidServer(s')
  {
    var k := OpenFd(s.k, fd, channel);
    if |s.clients| >= MAX_CLIENTS then s.(k := CloseFd(k, fd))
    else s.(clients := s.clients + [Slot(fd, "NoName", Buf(memory, 0), false)], k := k,
            h := s.h.(joined := s.h.joined[|s.k.channels| := |s.h.log|]))
  }

  function AcceptClient(s: Server, a: AcceptOutcome): (r: Step)
    requires ValidServer(s)
    ensures ValidServer(r.server)
  {
    if !a.Accepted? || !CanOpen(s.k, a.fd) || |a.memory| != BUFFER_SIZE then Step(Threw, s)
    else Step(Continue, Admitted(s, a.fd, a.channel, a.memory))
  }

  function CloseAll(k: Kernel, clients: seq<Slot>): (k': Kernel)
    ensures ValidKernel(k) ==> ValidKernel(k')
    decreases |clients|
  {
    if clients == [] then k else CloseAll(NetUtils.CloseIfValid(k, clients[0].fd), clients[1..])
  }

  /** The identities behind a list of slots. */
  function Ids(s: Server): set<nat> {
    set i | 0 <= i < |s.clients| :: IdOf(s, i)
  }

  function Stop(s: Server): (s': Server)
    requires ValidServer(s)
    ensures ValidServer(s')
  {
    var k := NetUtils.CloseIfValid(NetUtils.CloseIfValid(CloseAll(s.k, s.clients), s.signalFd), s.listenFd);
    Server(false, -1, -1, [], k, s.h.(left := s.h.left + map id | id in Ids(s) :: |s.h.log|))
  }

  // ----- one client's chunk -----

  /** The server reads at the start of the buffer, not behind what it holds, and then adds the count to the size. */
  function ReadAtStart(b: Buf, bytes: string): (b': Buf)
    requires ValidBuf(b) && |bytes| <= FreeSpace(b)
    ensures ValidBuf(b')
  {
    Buf(Overlay(b.mem, 0, bytes), b.size + |bytes|)
  }

  /** `get_client_name`: the first complete line, without its newline, names the slot. */
  function Named(slot: Slot): (slot': Slot)
    requires ValidBuf(slot.buffer)
    ensures ValidBuf(slot'.buffer)
  {
    var n := FirstLine(slot.buffer, NEWLINE);
    if n == 0 then slot
    else slot.(name := Contents(slot.buffer)[..n - 1], buffer := Compacted(slot.buffer, n), connected := true)
  }

  /** What handling a chunk does to the slot, and the lines it has to broadcast ("" for none). */
  datatype Chunked = Chunked(slot: Slot, payload: string)

  /** The complete lines are taken out of the buffer. */
  function TakeLines(slot: Slot): (c: Chunked)
    requires ValidBuf(slot.buffer)
    ensures ValidBuf(c.slot.buffer) && c.slot.fd == slot.fd
  {
    Chunked(slot.(buffer := Drained(slot.buffer, NEWLINE)), Lines.Complete(Contents(slot.buffer), NEWLINE))
  }

  /** A slot without a name first takes a line as its name; a slot with one gives up its complete lines. */
  function TakeTurn(slot: Slot): (c: Chunked)
    requires ValidBuf(slot.buffer)
    ensures ValidBuf(c.slot.buffer) && c.slot.fd == slot.fd
  {
    var named := if slot.connected then slot else Named(slot);
    if named.connected then TakeLines(named) else Chunked(named, "")
  }

  function TakeChunk(slot: Slot, bytes: string): (c: Chunked)
    requires ValidBuf(slot.buffer) && |bytes| <= FreeSpace(slot.buffer)
    ensures ValidBuf(c.slot.buffer) && c.slot.fd == slot.fd
  {
    TakeTurn(slot.(buffer := ReadAtStart(slot.buffer, bytes)))
  }

  /** Writes the text to every slot but the sender's, in slot order, up to the first failure. */
  function Broadcast(k: Kernel, clients: seq<Slot>, sender: nat, text: string, j: nat): (r: (bool, Kernel))
    requires j <= |clients|
    ensures r.1.table == k.table && r.1.closed == k.closed && |r.1.channels| == |k.channels|
    decreases |clients| - j
  {
    if j == |clients| then (true, k)
    else if j == sender then Broadcast(k, clients, sender, text, j + 1)
    else
      var w := NetIo.WriteAll(k, clients[j].fd, text);
      if w.0 then Broadcast(w.1, clients, sender, text, j + 1) else (false, w.1)
  }

  predicate EndsLine(s: string) {
    s != "" && s[|s| - 1] == NEWLINE
  }

  /** One more message in the log. */
  function WithMessage(h: History, m: Message, ok: bool): History {
    h.(log := h.log + [m], failed := h.failed + if ok then {} else {|h.log|})
  }

  /** The lines go to every other slot, under the name of slot i. */
  function Announced(s: Server, i: nat, payload: string): (r: Step)
    requires i < |s.clients| && ValidServer(s)
    ensures ValidServer(r.server) && r.server.clients == s.clients
  {
    var m := Message(IdOf(s, i), s.clients[i].name, payload);
    var b := Broadcast(s.k, s.clients, i, Text(m), 0);
    Step(if b.0 then Continue else Threw, s.(k := b.1, h := WithMessage(s.h, m, b.0)))
  }

  /** The slot changes, and its complete lines, if any, are broadcast. */
  function Publish(s: Server, i: nat, c: Chunked): (r: Step)
    requires i < |s.clients| && ValidServer(s)
    requires ValidBuf(c.slot.buffer) && c.slot.fd == s.clients[i].fd
    ensures ValidServer(r.server) && Fds(r.server.clients) == Fds(s.clients)
  {
    var s' := s.(clients := s.clients[i := c.slot]);
    assert Fds(s'.clients) == Fds(s.clients);
    if c.payload == "" then Step(Continue, s') else Announced(s', i, c.payload)
  }

  /** The record that a chunk which does not end a line makes. */
  function Noted(s: Server, i: nat, bytes: string): (s': Server)
    requires i < |s.clients| && ValidServer(s)
    ensures ValidServer(s') && s'.clients == s.clients
  {
    s.(h := s.h.(tainted := s.h.tainted + if EndsLine(bytes) then {} else {IdOf(s, i)}))
  }

  /** The chunk is taken, and its complete lines, if any, are broadcast with the slot's name. */
  function HandleChunk(s: Server, i: nat, bytes: string): (r: Step)
    requires i < |s.clients| && ValidServer(s) && |bytes| <= FreeSpace(s.clients[i].buffer)
    ensures ValidServer(r.server) && Fds(r.server.clients) == Fds(s.clients)
  {
    Publish(Noted(s, i, bytes), i, TakeChunk(s.clients[i], bytes))
  }

  // ----- the sweep -----

  datatype Served = Served(outcome: Outcome, server: Server, removed: bool)

  /** What `read` gives a slot. */
  function Input(k: Kernel, slot: Slot): (g: SysGot)
    requires ValidBuf(slot.buffer)
    ensures |g.bytes| <= FreeSpace(slot.buffer)
    ensures ValidKernel(k) ==> ValidKernel(g.kernel)
  {
    SysRead(k, slot.fd, FreeSpace(slot.buffer))
  }

  /** Serves one ready slot. A hang-up, or a count of 0 from `read`, removes the connection. */
  function Serve(s: Server, e: Revents, i: nat): (r: Served)
    requires i < |s.clients| && ValidServer(s)
    ensures ValidServer(r.server)
    ensures Fds(r.server.clients) == if r.removed then SwapRemoved(Fds(s.clients), i) else Fds(s.clients)
    ensures r.removed ==> r.outcome == Continue
  {
    if Hangup(e) then
      Served(Continue, RemoveAt(s, i), true)
    else
      var g := Input(s.k, s.clients[i]);
      var s' := s.(k := g.kernel);
      if !g.result.Count? then Served(Threw, s', false)
      else if g.result.n == 0 then Served(Continue, RemoveAt(s', i), true)
      else
        var r := HandleChunk(s', i, g.bytes);
        Served(r.outcome, r.server, false)
  }

  /** `handled` lists the descriptors that were served, in order. */
  datatype Swept = Swept(outcome: Outcome, server: Server, handled: seq<int>)

  function Serving(fd: int, r: Swept): Swept {
    r.(handled := [fd] + r.handled)
  }

  /** Visits every slot from i on; a removal brings the last slot's descriptor and its events to slot i. */
  function Sweep(s: Server, events: seq<Revents>, i: nat): (r: Swept)
    requires i <= |s.clients| == |events| && ValidServer(s)
    ensures ValidServer(r.server)
    decreases |s.clients| - i
  {
    if i == |s.clients| then
      Swept(Continue, s, [])
    else if !IsReady(events[i]) then
      Sweep(s, events, i + 1)
    else
      var r := Serve(s, events[i], i);
      if r.outcome != Continue then Swept(r.outcome, r.server, [s.clients[i].fd])
      else if r.removed then Serving(s.clients[i].fd, Sweep(r.server, SwapRemoved(events, i), i))
      else Serving(s.clients[i].fd, Sweep(r.server, events, i + 1))
  }

  // ----- the event loop -----

  /** The events of the slots there are; a slot the poll says nothing about has none. */
  function EventsFor(count: nat, events: seq<Revents>): (es: seq<Revents>)
    ensures |es| == count
  {
    seq(count, i requires 0 <= i < count => if i < |events| then events[i] else NO_EVENTS)
  }

  function SignalStep(s: Server): (r: Step)
    requires ValidServer(s)
    ensures ValidServer(r.server)
  {
    var g := SysRead(s.k, s.signalFd, SIGINFO_SIZE);
    var s' := s.(k := g.kernel);
    if g.result == Count(SIGINFO_SIZE) then Step(Broke, Stop(s')) else Step(Threw, s')
  }

  function Round(s: Server, poll: Poll): (r: Step)
    requires ValidServer(s)
    ensures ValidServer(r.server)
  {
    match poll
    case PollInterrupted => Step(Continue, s)
    case PollFailed => Step(Threw, s)
    case Polled(listen, signal, events, accept) =>
      var polled := EventsFor(|s.clients|, events);
      var a := if listen.pollin then AcceptClient(s, accept) else Step(Continue, s);
      if a.outcome != Continue then a
      else if signal.pollin then SignalStep(a.server)
      else
        var r := Sweep(a.server, EventsFor(|a.server.clients|, polled), 0);
        Step(r.outcome, r.server)
  }

  /** The event loop over any finite sequence of polls. */
  function EventLoop(s: Server, polls: seq<Poll>): (r: Step)
    requires ValidServer(s)
    ensures ValidServer(r.server)
    decreases |polls|
  {
    if polls == [] then
      Step(Continue, s)
    else
      var r := Round(s, polls[0]);
      if r.outcome == Continue then EventLoop(r.server, polls[1..]) else r
  }

  // ----- starting -----

  /** How the system calls of `run` turn out. */
  datatype Startup =
    | SocketFails
    | SetupFails(fd: int, channel: Channel)
    | Starts(fd: int, channel: Channel, signalFd: int, signalChannel: Channel)

  function RunServer(s: Server, startup: Startup): (r: Step)
    requires ValidServer(s)
    ensures ValidServer(r.server)
  {
    if s.running || startup.SocketFails? || !CanOpen(s.k, startup.fd) then
      Step(Threw, s)
    else
      var k1 := OpenFd(s.k, startup.fd, startup.channel);
      if !startup.Starts? || !CanOpen(k1, startup.signalFd) then
        Step(Threw, s.(k := CloseFd(k1, startup.fd)))
      else
        var k2 := NetUtils.CloseIfValid(OpenFd(k1, startup.signalFd, startup.signalChannel), s.signalFd);
        Step(Continue, s.(running := true, listenFd := startup.fd, signalFd := startup.signalFd,
                          k := NetUtils.CloseIfValid(k2, s.listenFd)))
  }

  // ----- any use of the server object -----

  datatype Action = Run(startup: Startup) | Loop(polls: seq<Poll>) | StopServer

  function Act(s: Server, a: Action): (s': Server)
    requires ValidServer(s)
    ensures ValidServer(s')
  {
    match a
    case Run(startup) => RunServer(s, startup).server
    case Loop(polls) => if s.running then EventLoop(s, polls).server else s
    case StopServer => Stop(s)
  }

  function Execute(s: Server, actions: seq<Action>): (s': Server)
    requires ValidServer(s)
    ensures ValidServer(s')
    decreases |actions|
  {
    if actions == [] then s else Execute(Act(s, actions[0]), actions[1..])
  }

  const NO_HISTORY := History([], map[], map[], {}, {})

  /** A server object just constructed. */
  predicate Constructed(s: Server) {
    !s.running && s.listenFd == -1 && s.signalFd == -1 && s.clients == [] && s.h == NO_HISTORY
  }
}
