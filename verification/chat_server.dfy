/** `chat::ChatServer`: the server object, proved to take the steps of `ServerModel`. */
module ChatServers {
  import opened NetUtils
  import opened OperatingSystem
  import opened ProtocolBuffer
  import opened ServerModel
  import opened ServerPolling
  import opened ServerSteps
  import opened ServerSweep
  import opened Wrappers
  import Lines
  import NetIo

  lemma NamedIs(slot: Slot, line: string, slot': Slot)
    requires ValidBuf(slot.buffer) && line == Contents(slot.buffer)[..FirstLine(slot.buffer, NEWLINE)]
    requires slot'.buffer == Compacted(slot.buffer, FirstLine(slot.buffer, NEWLINE)) && slot'.fd == slot.fd
    requires line == "" ==> slot'.name == slot.name && slot'.connected == slot.connected
    requires line != "" ==> slot'.name == line[..|line| - 1] && slot'.connected
    ensures slot' == Named(slot)
  {
    CompactedNothing(slot.buffer);
    if line != "" {
      assert line[..|line| - 1] == Contents(slot.buffer)[..|line| - 1];
    }
  }

  class ClientInfo {
    const fd: ScopedFileDescriptor
    var name: string
    const buffer: Buffer
    var connected: bool

    ghost function Objects(): set<object> {
      {this, fd, buffer, buffer.mem}
    }

    ghost predicate Valid()
      reads Objects()
    {
      buffer.Valid()
    }

    ghost function Value(): (slot: Slot)
      requires Valid()
      reads Objects()
      ensures ValidBuf(slot.buffer)
    {
      Slot(fd.fd_, name, buffer.Value(), connected)
    }

    /** `memory` is what the new record's buffer happens to hold. */
    constructor (fd: int, name: string, memory: string)
      requires |memory| == BUFFER_SIZE
      ensures fresh(Objects()) && Valid() && Value() == Slot(fd, name, Buf(memory, 0), false)
    {
      this.fd := new ScopedFileDescriptor(fd);
      this.name := name;
      buffer := new Buffer.Holding(memory);
      connected := false;
    }

    /** The first complete line, without its newline, becomes the name. */
    method TakeName()
      requires Valid()
      modifies this, buffer, buffer.mem
      ensures Valid() && Value() == Named(old(Value()))
    {
      ghost var slot := Value();
      var str := buffer.ConsumeOnce(NEWLINE);
      if str != "" {
        name := str[..|str| - 1];
        connected := true;
      }
      NamedIs(slot, str, Value());
    }

    /** Reads to the start of the buffer as many bytes as it has room for behind what it holds. */
    method ReadChunk(os: OS) returns (result: SysResult)
      requires Valid()
      modifies os, buffer, buffer.mem
      ensures Valid() && result == Input(old(os.k), old(Value())).result &&
              os.k == Input(old(os.k), old(Value())).kernel
      ensures Value() == old(Value()).(buffer := ReadAtStart(old(Value()).buffer, Input(old(os.k), old(Value())).bytes))
    {
      result := os.Read(fd.fd_, buffer.mem, 0, BUFFER_SIZE - buffer.size_);
      if result.Count? && result.n > 0 {
        var grown := buffer.IncreaseSize(result.n);
        assert grown.Returned?;
      }
    }

    method TakeLines() returns (payload: string)
      requires Valid()
      modifies buffer, buffer.mem
      ensures Valid() && payload == Lines.Complete(Contents(old(Value()).buffer), NEWLINE)
      ensures Value() == old(Value()).(buffer := Drained(old(Value()).buffer, NEWLINE))
    {
      payload := buffer.ConsumeFull(NEWLINE);
    }
  }

  /** `owner` says which slot an object belongs to, so that no two slots share anything. */
  ghost predicate Owns(client: ClientInfo, owner: map<object, nat>, i: nat) {
    client in owner && owner[client] == i && client.fd in owner && owner[client.fd] == i &&
    client.buffer in owner && owner[client.buffer] == i && client.buffer.mem in owner && owner[client.buffer.mem] == i
  }

  /** Gives a new record's objects to slot i. */
  ghost function Owning(owner: map<object, nat>, client: ClientInfo, i: nat): (owner': map<object, nat>)
    ensures Owns(client, owner', i) && owner'.Keys == owner.Keys + client.Objects()
    ensures forall o | o in owner && o !in client.Objects() :: owner'[o] == owner[o]
  {
    owner + map o | o in client.Objects() :: i
  }

  ghost predicate AllValid(clients: seq<ClientInfo>, owner: map<object, nat>)
    reads owner.Keys
  {
    forall i | 0 <= i < |clients| :: Owns(clients[i], owner, i) && clients[i].Valid()
  }

  ghost function Slots(clients: seq<ClientInfo>, owner: map<object, nat>): (slots: seq<Slot>)
    requires AllValid(clients, owner)
    reads owner.Keys
    ensures |slots| == |clients|
    ensures forall i | 0 <= i < |clients| :: slots[i] == clients[i].Value()
  {
    if clients == [] then []
    else Slots(clients[..|clients| - 1], owner) + [clients[|clients| - 1].Value()]
  }

  lemma SlotsAre(clients: seq<ClientInfo>, owner: map<object, nat>, slots: seq<Slot>)
    requires AllValid(clients, owner) && |slots| == |clients|
    requires forall i | 0 <= i < |clients| :: clients[i].Value() == slots[i]
    ensures Slots(clients, owner) == slots
  {
  }

  /** What stands before the last slot once slot i has been given the last descriptor. */
  lemma WithoutSlot(slots: seq<Slot>, slots': seq<Slot>, i: nat)
    requires i < |slots| == |slots'|
    requires forall j | 0 <= j < |slots| - 1 && j != i :: slots'[j] == slots[j]
    requires i < |slots| - 1 ==> slots'[i] == slots[i].(fd := slots[|slots| - 1].fd)
    ensures slots'[..|slots| - 1] == SlotsWithout(slots, i)
  {
  }

  lemma RemovalIs(s: Server, s': Server, i: nat)
    requires ValidServer(s) && i < |s.clients|
    requires s'.running == s.running && s'.listenFd == s.listenFd && s'.signalFd == s.signalFd
    requires s'.clients == SlotsWithout(s.clients, i) && s'.k == CloseIfValid(s.k, s.clients[i].fd) &&
             s'.h == Departed(s, i)
    ensures s' == RemoveAt(s, i)
  {
  }

  lemma AdmissionIs(s: Server, s': Server, fd: int, channel: Channel, memory: string)
    requires ValidServer(s) && CanOpen(s.k, fd) && |memory| == BUFFER_SIZE && |s.clients| < MAX_CLIENTS
    requires s'.running == s.running && s'.listenFd == s.listenFd && s'.signalFd == s.signalFd
    requires s'.clients == s.clients + [Slot(fd, "NoName", Buf(memory, 0), false)] &&
             s'.k == OpenFd(s.k, fd, channel) && s'.h == Admitted(s, fd, channel, memory).h
    ensures s' == Admitted(s, fd, channel, memory)
  {
  }

  class ChatServer {
    const os: OS
    var running: bool
    const listenFd: ScopedFileDescriptor
    const signalFd: ScopedFileDescriptor
    var clients: seq<ClientInfo>
    ghost var h: History
    ghost var owner: map<object, nat>

    ghost predicate Valid()
      reads this`clients, this`owner, os, owner.Keys
    {
      ValidKernel(os.k) && listenFd != signalFd &&
      this !in owner && os !in owner && listenFd !in owner && signalFd !in owner &&
      AllValid(clients, owner)
    }

    ghost function State(): (s: Server)
      requires Valid()
      reads this, os, listenFd, signalFd, owner.Keys
      ensures ValidServer(s)
    {
      Server(running, listenFd.fd_, signalFd.fd_, Slots(clients, owner), os.k, h)
    }

    constructor (os: OS)
      requires ValidKernel(os.k)
      ensures Valid() && fresh(listenFd) && fresh(signalFd)
      ensures this.os == os && Constructed(State())
    {
      this.os := os;
      running := false;
      listenFd := new ScopedFileDescriptor(-1);
      signalFd := new ScopedFileDescriptor(-1);
      clients := [];
      h := NO_HISTORY;
      owner := map[];
    }

    /** `clients[i].fd = std::move(clients.back().fd)`, and what destroying the last record does to its descriptor. */
    method MoveLastDescriptor(i: nat)
      requires Valid() && i < |clients|
      modifies os, clients[i].fd, clients[|clients| - 1].fd
      ensures ValidKernel(os.k) && os.k == CloseIfValid(old(os.k), old(clients[i].fd.fd_))
      ensures i < |clients| - 1 ==> clients[i].fd.fd_ == old(clients[|clients| - 1].fd.fd_)
    {
      var last := clients[|clients| - 1];
      clients[i].fd.MoveAssign(os, last.fd);
      last.fd.Destroy(os);
    }

    method FillSlot(i: nat)
      requires Valid() && i < |clients|
      modifies os, owner.Keys
      ensures Valid() && State() == old(State()).(clients := State().clients, k := os.k)
      ensures os.k == CloseIfValid(old(os.k), old(clients[i].fd.fd_))
      ensures forall j | 0 <= j < |clients| - 1 && j != i :: State().clients[j] == old(State()).clients[j]
      ensures i < |clients| - 1 ==>
                State().clients[i] == old(State()).clients[i].(fd := old(State()).clients[|clients| - 1].fd)
    {
      MoveLastDescriptor(i);
    }

    /** The same, in terms of the state. */
    method ArrangeSlots(i: nat)
      requires Valid() && i < |clients|
      modifies os, owner.Keys
      ensures Valid() && State() == old(State()).(clients := State().clients, k := os.k)
      ensures os.k == CloseIfValid(old(os.k), old(clients[i].fd.fd_))
      ensures State().clients[..|clients| - 1] == SlotsWithout(old(State()).clients, i)
    {
      ghost var s := State();
      FillSlot(i);
      WithoutSlot(s.clients, State().clients, i);
    }

    /** `clients.pop_back()`. */
    method PopBack(ghost after: History)
      requires Valid() && clients != []
      modifies this`clients, this`h
      ensures Valid() && clients == old(clients)[..|old(clients)| - 1]
      ensures State() == old(State()).(clients := old(State()).clients[..|clients|], h := after)
    {
      clients, h := clients[..|clients| - 1], after;
    }

    /** The whole removal. */
    method RemoveClient(i: nat)
      requires Valid() && i < |clients|
      modifies this`clients, this`h, os, owner.Keys
      ensures Valid() && clients == old(clients)[..|old(clients)| - 1]
      ensures State() == RemoveAt(old(State()), i)
    {
      ghost var s := State();
      ArrangeSlots(i);
      PopBack(Departed(s, i));
      RemovalIs(s, State(), i);
    }

    // ----- adding a connection -----

    method PushClient(fd: int, memory: string, ghost after: History)
      requires Valid() && |memory| == BUFFER_SIZE
      modifies this`clients, this`h, this`owner
      ensures Valid() && fresh(owner.Keys - old(owner.Keys))
      ensures State() == old(State()).(h := after, clients := old(State()).clients
                                     + [Slot(fd, "NoName", Buf(memory, 0), false)])
    {
      var client := new ClientInfo(fd, "NoName", memory);
      Register(client);
      PushBack(client, after);
    }

    /** `clients.push_back(...)`. */
    method PushBack(client: ClientInfo, ghost after: History)
      requires Valid() && client.Valid() && Owns(client, owner, |clients|)
      modifies this`clients, this`h
      ensures Valid()
      ensures State() == old(State()).(h := after, clients := old(State()).clients + [client.Value()])
    {
      ghost var slots := Slots(clients, owner) + [client.Value()];
      clients, h := clients + [client], after;
      SlotsAre(clients, owner, slots);
    }

    /** A record that shares nothing with what the server has is to own the slot that comes next. */
    ghost method Register(client: ClientInfo)
      requires Valid() && client.Valid()
      requires client.Objects() !! owner.Keys + {this, os, listenFd, signalFd}
      modifies this`owner
      ensures Valid() && State() == old(State()) && Owns(client, owner, |clients|)
      ensures owner.Keys == old(owner.Keys) + client.Objects()
    {
      ghost var slots := Slots(clients, owner);
      owner := Owning(owner, client, |clients|);
      SlotsAre(clients, owner, slots);
    }

    /** Takes the waiting connection, and closes it at once when all places are taken. */
    method AcceptConnection(accept: AcceptOutcome) returns (outcome: Outcome)
      requires Valid()
      modifies this`clients, this`h, this`owner, os
      ensures Valid() && fresh(owner.Keys - old(owner.Keys))
      ensures Step(outcome, State()) == AcceptClient(old(State()), accept)
    {
      if !accept.Accepted? || !CanOpen(os.k, accept.fd) || |accept.memory| != BUFFER_SIZE {
        return Threw;
      }
      Admit(accept.fd, accept.channel, accept.memory);
      outcome := Continue;
    }

    method Admit(fd: int, channel: Channel, memory: string)
      requires Valid() && CanOpen(os.k, fd) && |memory| == BUFFER_SIZE
      modifies this`clients, this`h, this`owner, os
      ensures Valid() && fresh(owner.Keys - old(owner.Keys))
      ensures State() == Admitted(old(State()), fd, channel, memory)
    {
      if |clients| >= MAX_CLIENTS {
        TurnAway(fd, channel, memory);
      } else {
        LetIn(fd, channel, memory);
      }
    }

    method TurnAway(fd: int, channel: Channel, ghost memory: string)
      requires Valid() && CanOpen(os.k, fd) && |memory| == BUFFER_SIZE && |clients| >= MAX_CLIENTS
      modifies os
      ensures Valid() && State() == Admitted(old(State()), fd, channel, memory)
    {
      os.Open(fd, channel);
      os.Close(fd);
    }

    method LetIn(fd: int, channel: Channel, memory: string)
      requires Valid() && CanOpen(os.k, fd) && |memory| == BUFFER_SIZE && |clients| < MAX_CLIENTS
      modifies this`clients, this`h, this`owner, os
      ensures Valid() && fresh(owner.Keys - old(owner.Keys))
      ensures State() == Admitted(old(State()), fd, channel, memory)
    {
      ghost var s := State();
      os.Open(fd, channel);
      PushClient(fd, memory, Admitted(s, fd, channel, memory).h);
      AdmissionIs(s, State(), fd, channel, memory);
    }

    // ----- stopping -----

    /** `clients.clear()`: every record's destructor closes its descriptor. */
    method ClearClients()
      requires Valid()
      modifies this`clients, os, owner.Keys
      ensures Valid() && clients == [] && os.k == CloseAll(old(os.k), old(Slots(clients, owner)))
    {
      ghost var slots := Slots(clients, owner);
      var i := 0;
      assert slots[0..] == slots;
      while i < |clients|
        invariant 0 <= i <= |clients| == |slots| && ValidKernel(os.k)
        invariant forall j | i <= j < |clients| :: clients[j].fd.fd_ == slots[j].fd
        invariant CloseAll(os.k, slots[i..]) == CloseAll(old(os.k), slots)
        modifies os, owner.Keys
      {
        assert slots[i..][1..] == slots[i + 1..];
        clients[i].fd.Destroy(os);
        i := i + 1;
      }
      clients := [];
    }

    method Stop()
      requires Valid()
      modifies this`running, this`clients, this`h, listenFd, signalFd, os, owner.Keys
      ensures Valid() && State() == ServerModel.Stop(old(State()))
    {
      ghost var after := ServerModel.Stop(State()).h;
      ClearClients();
      signalFd.Reset(os, -1);
      listenFd.Reset(os, -1);
      running, h := false, after;
    }

    // ----- starting -----

    /** A server that is not running and has no clients, with these descriptors. */
    ghost function Bare(): (s: Server)
      reads os, listenFd, signalFd
      ensures ValidKernel(os.k) ==> ValidServer(s)
    {
      Server(false, listenFd.fd_, signalFd.fd_, [], os.k, NO_HISTORY)
    }

    /** `startup` scripts the socket, bind, listen and signalfd calls. Whatever fails, the new socket is closed. */
    method SetUp(startup: Startup) returns (r: Result<()>)
      requires ValidKernel(os.k) && listenFd != signalFd
      modifies listenFd, signalFd, os
      ensures RunServer(old(Bare()), startup).outcome == if r.Returned? then Continue else Threw
      ensures RunServer(old(Bare()), startup).server == Bare().(running := r.Returned?)
    {
      if startup.SocketFails? || !CanOpen(os.k, startup.fd) {
        return Thrown;
      }
      os.Open(startup.fd, startup.channel);
      var tempSocket := new ScopedFileDescriptor(startup.fd);
      if !startup.Starts? || !CanOpen(os.k, startup.signalFd) {
        tempSocket.Destroy(os);
        return Thrown;
      }
      os.Open(startup.signalFd, startup.signalChannel);
      var tempSignal := new ScopedFileDescriptor(startup.signalFd);
      signalFd.MoveAssign(os, tempSignal);
      tempSignal.Destroy(os);
      listenFd.MoveAssign(os, tempSocket);
      tempSocket.Destroy(os);
      r := Returned(());
    }

    method Run(startup: Startup) returns (r: Result<()>)
      requires Valid()
      modifies this`running, listenFd, signalFd, os
      ensures Valid()
      ensures Step(if r.Returned? then Continue else Threw, State()) == RunServer(old(State()), startup)
    {
      if running {
        return Thrown;
      }
      RunServerSetsUp(State(), startup);
      r := SetUp(startup);
      if r.Returned? {
        running := true;
      }
    }

    // ----- one client's chunk -----

    method ReadChunk(i: nat) returns (result: SysResult)
      requires Valid() && i < |clients|
      modifies os, clients[i].buffer, clients[i].buffer.mem
      ensures Valid() && result == ChunkRead(old(State()), i).result
      ensures State() == old(State()).(k := ChunkRead(old(State()), i).kernel,
                clients := old(State()).clients[i := old(State()).clients[i].(buffer :=
                  ReadAtStart(old(State()).clients[i].buffer, ChunkRead(old(State()), i).bytes))])
    {
      ghost var slots := Slots(clients, owner);
      result := clients[i].ReadChunk(os);
      SlotsAre(clients, owner, slots[i := clients[i].Value()]);
    }

    method GetClientName(i: nat)
      requires Valid() && i < |clients|
      modifies clients[i], clients[i].buffer, clients[i].buffer.mem
      ensures Valid() && Slots(clients, owner) == old(Slots(clients, owner))[i := Named(old(clients[i].Value()))]
    {
      ghost var slots := Slots(clients, owner);
      clients[i].TakeName();
      SlotsAre(clients, owner, slots[i := clients[i].Value()]);
    }

    /** Writes to every other client in order; the first failure leaves the loop as an exception. */
    method WriteToOthers(i: nat, messages: string, ghost slots: seq<Slot>) returns (r: Result<()>)
      requires |slots| == |clients| && forall j | 0 <= j < |clients| :: clients[j].fd.fd_ == slots[j].fd
      modifies os
      ensures (r.Returned?, os.k) == Broadcast(old(os.k), slots, i, messages, 0)
    {
      r := Returned(());
      var j := 0;
      while j < |clients|
        invariant 0 <= j <= |clients| && r.Returned?
        invariant Broadcast(os.k, slots, i, messages, j) == Broadcast(old(os.k), slots, i, messages, 0)
      {
        if j != i {
          r := NetIo.WriteFull(os, clients[j].fd.fd_, messages);
          if r.Thrown? {
            return;
          }
        }
        j := j + 1;
      }
    }

    method DrainClient(i: nat) returns (payload: string)
      requires Valid() && i < |clients|
      modifies clients[i].buffer, clients[i].buffer.mem
      ensures Valid() && payload == Lines.Complete(Contents(old(clients[i].Value()).buffer), NEWLINE)
      ensures Slots(clients, owner)
           == old(Slots(clients, owner))[i := old(clients[i].Value()).(buffer :=
                Drained(old(clients[i].Value()).buffer, NEWLINE))]
    {
      ghost var slots := Slots(clients, owner);
      payload := clients[i].TakeLines();
      assert forall j | 0 <= j < |clients| && j != i :: clients[j].Value() == slots[j];
      SlotsAre(clients, owner, slots[i := clients[i].Value()]);
    }

    method Announce(i: nat, payload: string) returns (outcome: Outcome)
      requires Valid() && i < |clients|
      modifies this`h, os
      ensures Valid() && Step(outcome, State()) == Announced(old(State()), i, payload)
    {
      ghost var after := Announced(State(), i, payload).server.h;
      var messages := "[" + clients[i].name + "]: " + payload;
      var sent := WriteToOthers(i, messages, Slots(clients, owner));
      h := after;
      outcome := if sent.Returned? then Continue else Threw;
    }

    method RespondToClient(i: nat) returns (outcome: Outcome)
      requires Valid() && i < |clients|
      modifies this`h, os, clients[i].buffer, clients[i].buffer.mem
      ensures Valid()
      ensures Step(outcome, State()) == Publish(old(State()), i, ServerModel.TakeLines(old(State()).clients[i]))
    {
      var messages := DrainClient(i);
      if messages == "" {
        return Continue;
      }
      outcome := Announce(i, messages);
    }

    method Reply(i: nat) returns (outcome: Outcome)
      requires Valid() && i < |clients|
      modifies this`h, os, clients[i], clients[i].buffer, clients[i].buffer.mem
      ensures Valid() && Step(outcome, State()) == Publish(old(State()), i, TakeTurn(old(State()).clients[i]))
    {
      ghost var s, c := State(), TakeTurn(State().clients[i]);
      ghost var named := if clients[i].connected then s.clients[i] else Named(s.clients[i]);
      assert s.clients[i := s.clients[i]] == s.clients;
      PublishLast(s, i, named, c);
      if !clients[i].connected {
        GetClientName(i);
      }
      outcome := Continue;
      if clients[i].connected {
        outcome := RespondToClient(i);
      }
    }

    /** Reads a chunk and keeps the record of whether it ended in a newline. */
    method ReceiveChunk(i: nat) returns (result: SysResult)
      requires Valid() && i < |clients|
      modifies this`h, os, clients[i].buffer, clients[i].buffer.mem
      ensures Valid() && result == ChunkRead(old(State()), i).result
      ensures State() == AfterReceiving(old(State()), i)
    {
      ghost var s := State();
      AfterReceivingIs(s, i);
      result := ReadChunk(i);
      Note(AfterReceiving(s, i).h);
    }

    ghost method Note(after: History)
      requires Valid()
      modifies this`h
      ensures Valid() && State() == old(State()).(h := after)
    {
      h := after;
    }

    method Conclude(i: nat, n: SysResult) returns (outcome: Outcome, removed: bool)
      requires Valid() && i < |clients|
      modifies this`clients, this`h, os, owner.Keys
      ensures Valid() && Served(outcome, State(), removed) == Concluded(old(State()), i, n)
      ensures clients == if removed then old(clients)[..|old(clients)| - 1] else old(clients)
    {
      outcome, removed := Continue, false;
      if !n.Count? {
        outcome := Threw;
      } else if n.n == 0 {
        RemoveClient(i);
        removed := true;
      } else {
        outcome := Reply(i);
      }
    }

    /** One ready client. */
    method ServeClient(i: nat, revents: Revents) returns (outcome: Outcome, removed: bool)
      requires Valid() && i < |clients|
      modifies this`clients, this`h, os, owner.Keys
      ensures Valid() && Served(outcome, State(), removed) == Serve(old(State()), revents, i)
      ensures clients == if removed then old(clients)[..|old(clients)| - 1] else old(clients)
    {
      if Hangup(revents) {
        RemoveClient(i);
        return Continue, true;
      }
      ServeReadable(State(), revents, i);
      var n := ReceiveChunk(i);
      outcome, removed := Conclude(i, n);
    }

    // ----- the sweep -----

    /** Serves one ready client; a removal swaps its entry out of the descriptor list as well. */
    method ServePolled(i: nat, polled: seq<PollFd>) returns (outcome: Outcome, removed: bool, pollfds: seq<PollFd>)
      requires Valid() && i < |clients| && |polled| == |clients| + 2
      modifies this`clients, this`h, os, owner.Keys
      ensures Valid() && Served(outcome, State(), removed) == Serve(old(State()), polled[i + 2].revents, i)
      ensures clients == if removed then old(clients)[..|old(clients)| - 1] else old(clients)
      ensures pollfds == if removed then SwapRemoved(polled, i + 2) else polled
    {
      outcome, removed := ServeClient(i, polled[i + 2].revents);
      pollfds := if removed then polled[i + 2 := polled[|polled| - 1]][..|polled| - 1] else polled;
    }

    /** The same, with what it means for the sweep. */
    method ServeNext(i: nat, polled: seq<PollFd>, ghost nready: int, ghost handled: seq<int>, ghost whole: Swept)
      returns (outcome: Outcome, next: nat, pollfds: seq<PollFd>, ghost served: seq<int>)
      requires Valid() && i < |clients| && |polled| == |clients| + 2 && IsReady(polled[i + 2].revents)
      requires Sweeping(State(), polled, i, nready, handled, whole)
      modifies this`clients, this`h, os, owner.Keys
      ensures Valid() && |clients| - next == |old(clients)| - i - 1
      ensures outcome != Continue ==> Swept(outcome, State(), served) == whole
      ensures outcome == Continue ==> Sweeping(State(), pollfds, next, nready - 1, served, whole)
    {
      SweepServes(State(), polled, i, nready, handled, whole);
      served := handled + [clients[i].fd.fd_];
      var removed;
      outcome, removed, pollfds := ServePolled(i, polled);
      next := if removed then i else i + 1;
    }

    /**
      Serves the ready clients. Leaving as soon as `nready` descriptors are dealt with skips nobody: the
      result is that of the sweep over all slots.
     */
    method SweepClients(polled: seq<PollFd>, ready: int) returns (outcome: Outcome, ghost handled: seq<int>)
      requires Valid() && Parallel(polled, State().clients)
      requires ready >= |ReadyFds(Fds(State().clients), EventsOf(polled), 0)|
      modifies this`clients, this`h, os, owner.Keys
      ensures Valid() && Swept(outcome, State(), handled) == Sweep(old(State()), EventsOf(polled), 0)
    {
      SweepBegins(State(), polled, ready);
      outcome, handled := SweepSlots(polled, ready, Sweep(State(), EventsOf(polled), 0));
    }

    /** The loop itself. */
    method SweepSlots(polled: seq<PollFd>, ready: int, ghost whole: Swept)
      returns (outcome: Outcome, ghost handled: seq<int>)
      requires Valid() && Sweeping(State(), polled, 0, ready, [], whole)
      modifies this`clients, this`h, os, owner.Keys
      ensures Valid() && Swept(outcome, State(), handled) == whole
    {
      var pollfds, nready := polled, ready;
      outcome, handled := Continue, [];
      ghost var s := State();
      var i: nat := 0;
      while i < |clients|
        invariant Valid() && outcome == Continue && i <= |clients|
        invariant s == State() && Sweeping(s, pollfds, i, nready, handled, whole)
        decreases |clients| - i
      {
        if IsReady(pollfds[i + 2].revents) {
          outcome, i, pollfds, handled := ServeNext(i, pollfds, nready, handled, whole);
          s := State();
          if outcome != Continue {
            return;
          }
          nready := nready - 1;
          if nready <= 0 {
            break;
          }
        } else {
          SweepPasses(s, pollfds, i, nready, handled, whole);
          i := i + 1;
        }
      }
      SweepEnds(s, pollfds, i, nready, handled, whole);
    }

    // ----- the event loop -----

    /** The list for `poll`: the listener, the signal descriptor, then every client in order. */
    method BuildPollFds() returns (pollfds: seq<PollFd>)
      requires Valid()
      ensures Parallel(pollfds, State().clients)
      ensures pollfds[0].fd == listenFd.fd_ && pollfds[1].fd == signalFd.fd_
    {
      pollfds := [PollFd(listenFd.fd_, NO_EVENTS), PollFd(signalFd.fd_, NO_EVENTS)];
      for i := 0 to |clients|
        invariant |pollfds| == i + 2 && forall j | 0 <= j < i :: pollfds[j + 2].fd == clients[j].fd.fd_
        invariant pollfds[0].fd == listenFd.fd_ && pollfds[1].fd == signalFd.fd_
      {
        pollfds := pollfds + [PollFd(clients[i].fd.fd_, NO_EVENTS)];
      }
    }

    method ReadSignal() returns (n: SysResult)
      requires Valid()
      modifies os
      ensures Valid() && State() == old(State()).(k := os.k)
      ensures n == SysRead(old(os.k), signalFd.fd_, SIGINFO_SIZE).result &&
              os.k == SysRead(old(os.k), signalFd.fd_, SIGINFO_SIZE).kernel
    {
      var siginfo := new char[SIGINFO_SIZE];
      n := os.Read(signalFd.fd_, siginfo, 0, SIGINFO_SIZE);
    }

    method HandleSignal() returns (outcome: Outcome)
      requires Valid()
      modifies this`running, this`clients, this`h, listenFd, signalFd, os, owner.Keys
      ensures Valid() && Step(outcome, State()) == SignalStep(old(State()))
      ensures outcome != Continue
    {
      var n := ReadSignal();
      if n != Count(SIGINFO_SIZE) {
        return Threw;
      }
      Stop();
      outcome := Broke;
    }

    method HandleRest(pollfds: seq<PollFd>, nready: int) returns (outcome: Outcome)
      requires Valid() && Covered(State(), pollfds, nready)
      modifies this`running, this`clients, this`h, listenFd, signalFd, os, owner.Keys
      ensures Valid() && Step(outcome, State()) == RoundRest(old(State()), pollfds)
      ensures outcome == Continue ==> running == old(running)
    {
      if pollfds[1].revents.pollin {
        outcome := HandleSignal();
      } else {
        ghost var handled;
        outcome, handled := SweepClients(pollfds, nready);
      }
    }

    /** With the counter used up, the rest of the turn is skipped. */
    method HandleOthers(pollfds: seq<PollFd>, nready: int) returns (outcome: Outcome)
      requires Valid() && Covered(State(), pollfds, nready)
      modifies this`running, this`clients, this`h, listenFd, signalFd, os, owner.Keys
      ensures Valid() && Step(outcome, State()) == RoundRest(old(State()), pollfds)
      ensures outcome == Continue ==> running == old(running)
    {
      if nready <= 0 {
        RestIdle(State(), pollfds, nready);
        return Continue;
      }
      outcome := HandleRest(pollfds, nready);
    }

    /** Accepts, and extends the list with an entry for a connection that was kept. */
    method AcceptPolled(poll: Poll, polled: seq<PollFd>, ghost nready: int)
      returns (outcome: Outcome, pollfds: seq<PollFd>)
      requires Valid() && Describes(State(), poll, polled, nready) && poll.listen.pollin
      modifies this`clients, this`h, this`owner, os
      ensures Valid() && fresh(owner.Keys - old(owner.Keys))
      ensures outcome != Continue ==> Step(outcome, State()) == Round(old(State()), poll)
      ensures outcome == Continue ==>
                Covered(State(), pollfds, nready) && Round(old(State()), poll) == RoundRest(State(), pollfds)
    {
      RoundAccepts(State(), poll, polled, nready);
      var kept := |clients| < MAX_CLIENTS;
      outcome := AcceptConnection(poll.accept);
      if outcome != Continue {
        return outcome, polled;
      }
      pollfds := Extended(polled, kept, poll.accept.fd);
    }

    /** A new connection, and whatever else is ready. */
    method HandleConnection(poll: Poll, polled: seq<PollFd>, nready: int) returns (outcome: Outcome)
      requires Valid() && Describes(State(), poll, polled, nready) && poll.listen.pollin
      modifies this`running, this`clients, this`h, this`owner, listenFd, signalFd, os, owner.Keys
      ensures Valid() && fresh(owner.Keys - old(owner.Keys))
      ensures Step(outcome, State()) == Round(old(State()), poll)
      ensures outcome == Continue ==> running == old(running)
    {
      var pollfds;
      outcome, pollfds := AcceptPolled(poll, polled, nready);
      if outcome == Continue {
        outcome := HandleOthers(pollfds, nready);
      }
    }

    /** One turn of the loop. */
    method HandlePoll(poll: Poll) returns (outcome: Outcome)
      requires Valid()
      modifies this`running, this`clients, this`h, this`owner, listenFd, signalFd, os, owner.Keys
      ensures Valid() && fresh(owner.Keys - old(owner.Keys))
      ensures Step(outcome, State()) == Round(old(State()), poll)
      ensures outcome == Continue ==> running == old(running)
    {
      var pollfds := BuildPollFds();
      if poll.PollInterrupted? {
        return Continue;
      }
      if poll.PollFailed? {
        return Threw;
      }
      pollfds := WithEvents(pollfds, poll.listen, poll.signal, EventsFor(|clients|, poll.clients));
      var nready := ReadyCount(pollfds, 0);
      PollCovers(State(), pollfds);
      if poll.listen.pollin {
        nready := nready - 1;
        outcome := HandleConnection(poll, pollfds, nready);
      } else {
        RoundPolled(State(), poll, pollfds, nready);
        outcome := HandleRest(pollfds, nready);
      }
    }

    /** Runs until the server stops, an exception leaves the loop, or the script of polls ends. */
    method EventLoop(polls: seq<Poll>) returns (outcome: Outcome)
      requires Valid()
      modifies this`running, this`clients, this`h, this`owner, listenFd, signalFd, os, owner.Keys
      ensures Valid()
      ensures !old(running) ==> outcome == Threw && State() == old(State())
      ensures old(running) ==> Step(outcome, State()) == ServerModel.EventLoop(old(State()), polls)
    {
      if !running {
        return Threw;
      }
      outcome := Continue;
      var i := 0;
      ghost var whole := ServerModel.EventLoop(State(), polls);
      assert polls[0..] == polls;
      while running && i < |polls|
        invariant Valid() && fresh(owner.Keys - old(owner.Keys))
        invariant 0 <= i <= |polls| && outcome == Continue && running
        invariant ServerModel.EventLoop(State(), polls[i..]) == whole
        decreases |polls| - i
      {
        assert polls[i..][0] == polls[i] && polls[i..][1..] == polls[i + 1..];
        outcome := HandlePoll(polls[i]);
        if outcome != Continue {
          return;
        }
        i := i + 1;
      }
    }
  }
}
