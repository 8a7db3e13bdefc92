/**
  Descriptor conservation: over any use of the server, every descriptor has one owner until it is closed once,
  and every connection that was accepted is in exactly one slot or was closed exactly once.
 */
module ServerDescriptors {
  import opened Descriptors
  import opened OperatingSystem
  import opened ProtocolBuffer
  import opened ServerInduction
  import opened ServerModel
  import opened Wrappers
  import NetUtils

  // ----- who holds a descriptor -----

  function FdSet(clients: seq<Slot>): set<int> {
    set i | 0 <= i < |clients| :: clients[i].fd
  }

  predicate DistinctFds(clients: seq<Slot>) {
    forall i, j | 0 <= i < j < |clients| :: clients[i].fd != clients[j].fd
  }

  /**
    The open descriptors are the foreign ones, which the server never had and which still denote the channels
    they denoted, and those that exactly one slot or member of the server holds; and there are never more than
    62 slots.
   */
  ghost predicate Owns(s: Server, foreign: map<int, nat>) {
    ValidServer(s) && KernelConserved(s.k) && |s.clients| <= MAX_CLIENTS && DistinctFds(s.clients) &&
    s.k.table.Keys == foreign.Keys + FdSet(s.clients) + Holding(s.listenFd) + Holding(s.signalFd) &&
    foreign.Keys !! FdSet(s.clients) !! Holding(s.listenFd) !! Holding(s.signalFd) &&
    forall fd | fd in foreign :: fd in s.k.table && s.k.table[fd] == foreign[fd]
  }

  /** Every connection that was let in is in a slot or was closed, and no other connection is in a slot. */
  ghost predicate Accounted(s: Server) {
    (forall id | id in s.h.joined :: id < |s.k.channels| && (id in s.k.closed || id in Ids(s))) &&
    Ids(s) <= s.h.joined.Keys
  }

  ghost predicate Conserved(s: Server, foreign: map<int, nat>) {
    Owns(s, foreign) && Accounted(s)
  }

  // ----- identities -----

  lemma {:induction false} DistinctIds(s: Server, foreign: map<int, nat>)
    requires Owns(s, foreign)
    ensures forall i | 0 <= i < |s.clients| ::
              s.clients[i].fd in s.k.table && IdOf(s, i) == s.k.table[s.clients[i].fd] < |s.k.channels|
    ensures forall i, j | 0 <= i < j < |s.clients| :: IdOf(s, i) != IdOf(s, j)
  {
    forall i | 0 <= i < |s.clients| ensures s.clients[i].fd in s.k.table {
      assert s.clients[i].fd in FdSet(s.clients);
    }
  }

  /** The identities of the slots follow from their descriptors. */
  lemma {:induction false} SameIds(s: Server, s': Server)
    requires Fds(s'.clients) == Fds(s.clients)
    requires forall i | 0 <= i < |s.clients| :: s.clients[i].fd in s.k.table && s.clients[i].fd in s'.k.table &&
                                                s'.k.table[s.clients[i].fd] == s.k.table[s.clients[i].fd]
    ensures Ids(s') == Ids(s)
  {
    forall i | 0 <= i < |s.clients| ensures s'.clients[i].fd == s.clients[i].fd && IdOf(s', i) == IdOf(s, i) {
      assert s'.clients[i].fd == Fds(s'.clients)[i] && s.clients[i].fd == Fds(s.clients)[i];
    }
    forall id | id in Ids(s) ensures id in Ids(s') {
      var i :| 0 <= i < |s.clients| && IdOf(s, i) == id;
      assert IdOf(s', i) == id;
    }
    forall id | id in Ids(s') ensures id in Ids(s) {
      var i :| 0 <= i < |s'.clients| && IdOf(s', i) == id;
      assert IdOf(s, i) == id;
    }
  }

  lemma {:induction false} RemovalIdAt(s: Server, foreign: map<int, nat>, i: nat, j: nat)
    requires Owns(s, foreign) && i < |s.clients| && j < |s.clients| - 1
    ensures IdOf(RemoveAt(s, i), j) == IdOf(s, if j == i then |s.clients| - 1 else j)
  {
    var s', last := RemoveAt(s, i), |s.clients| - 1;
    assert s'.clients[j].fd == Fds(s'.clients)[j] == s.clients[if j == i then last else j].fd;
    assert s'.clients[j].fd != s.clients[i].fd;
  }

  /** The identities that remain: nobody else leaves, and the departed one is in no slot any more. */
  lemma {:induction false} OthersRemain(s: Server, foreign: map<int, nat>, i: nat, j: nat)
    requires Owns(s, foreign) && i < |s.clients| && j < |s.clients| && j != i
    ensures IdOf(s, j) in Ids(RemoveAt(s, i))
  {
    var k := if j == |s.clients| - 1 then i else j;
    RemovalIdAt(s, foreign, i, k);
    assert k < |RemoveAt(s, i).clients|;
  }

  lemma {:induction false} OnlyOthersRemain(s: Server, foreign: map<int, nat>, i: nat, j: nat)
    requires Owns(s, foreign) && i < |s.clients| && j < |s.clients| - 1
    ensures IdOf(RemoveAt(s, i), j) in Ids(s) && IdOf(RemoveAt(s, i), j) != IdOf(s, i)
  {
    RemovalIdAt(s, foreign, i, j);
    DistinctIds(s, foreign);
  }

  lemma {:induction false} RemovalIds(s: Server, foreign: map<int, nat>, i: nat)
    requires Owns(s, foreign) && i < |s.clients|
    ensures Ids(RemoveAt(s, i)) == Ids(s) - {IdOf(s, i)}
  {
    var s' := RemoveAt(s, i);
    assert |s'.clients| == |s.clients| - 1;
    forall id | id in Ids(s) - {IdOf(s, i)} ensures id in Ids(s') {
      var j :| 0 <= j < |s.clients| && IdOf(s, j) == id;
      OthersRemain(s, foreign, i, j);
    }
    forall id | id in Ids(s') ensures id in Ids(s) - {IdOf(s, i)} {
      var j :| 0 <= j < |s'.clients| && IdOf(s', j) == id;
      OnlyOthersRemain(s, foreign, i, j);
    }
  }

  lemma {:induction false} AcceptedIds(s: Server, s': Server, fd: int)
    requires |s'.clients| == |s.clients| + 1 && s'.clients[..|s.clients|] == s.clients &&
             s'.clients[|s.clients|].fd == fd
    requires forall i | 0 <= i < |s.clients| :: s.clients[i].fd in s.k.table
    requires fd !in s.k.table && s'.k.table == s.k.table[fd := |s.k.channels|]
    ensures Ids(s') == Ids(s) + {|s.k.channels|}
  {
    forall i | 0 <= i < |s.clients| ensures IdOf(s', i) == IdOf(s, i) {
      assert s'.clients[..|s.clients|][i] == s'.clients[i];
    }
    assert IdOf(s', |s.clients|) == |s.k.channels|;
    forall id | id in Ids(s) ensures id in Ids(s') {
      var i :| 0 <= i < |s.clients| && IdOf(s, i) == id;
      assert IdOf(s', i) == id;
    }
    forall id | id in Ids(s') ensures id in Ids(s) + {|s.k.channels|} {
      var i :| 0 <= i < |s'.clients| && IdOf(s', i) == id;
      assert i < |s.clients| ==> IdOf(s, i) == id;
    }
  }

  lemma CloseAllChannels(k: Kernel, clients: seq<Slot>)
    ensures CloseAll(k, clients).channels == k.channels
    decreases |clients|
  {
    if clients != [] {
      CloseAllChannels(NetUtils.CloseIfValid(k, clients[0].fd), clients[1..]);
    }
  }

  /** Starting gives out new numbers and closes stale ones; the clients' numbers keep their meaning. */
  lemma {:induction false} RunTable(s: Server, foreign: map<int, nat>, startup: Startup)
    requires Owns(s, foreign)
    ensures forall i | 0 <= i < |s.clients| ::
              s.clients[i].fd in s.k.table && s.clients[i].fd in RunServer(s, startup).server.k.table &&
              RunServer(s, startup).server.k.table[s.clients[i].fd] == s.k.table[s.clients[i].fd]
  {
    forall i | 0 <= i < |s.clients| ensures s.clients[i].fd in FdSet(s.clients) {
    }
  }

  /** A step that moves no connection and opens only new channels keeps the account. */
  lemma {:induction false} AccountFrame(s: Server, s': Server)
    requires Accounted(s) && Ids(s') == Ids(s) && s'.h.joined == s.h.joined
    requires s.k.closed <= s'.k.closed && |s.k.channels| <= |s'.k.channels|
    ensures Accounted(s')
  {
  }

  // ----- one step -----

  lemma {:induction false} SwapRemovedFds(clients: seq<Slot>, i: nat, clients': seq<Slot>)
    requires i < |clients| && DistinctFds(clients)
    requires clients' == clients[i := clients[i].(fd := clients[|clients| - 1].fd)][..|clients| - 1]
    ensures DistinctFds(clients') && FdSet(clients') == FdSet(clients) - {clients[i].fd}
  {
    var last := |clients| - 1;
    forall fd | fd in FdSet(clients) - {clients[i].fd} ensures fd in FdSet(clients') {
      var j :| 0 <= j < |clients| && clients[j].fd == fd;
      assert clients'[if j == last then i else j].fd == fd;
    }
    forall fd | fd in FdSet(clients') ensures fd in FdSet(clients) - {clients[i].fd} {
      var j :| 0 <= j < last && clients'[j].fd == fd;
      assert fd == clients[if j == i then last else j].fd;
    }
  }

  /** One slot's descriptor less, on both sides. */
  lemma {:induction false} OneLessOwns(s: Server, s': Server, foreign: map<int, nat>, fd: int)
    requires Owns(s, foreign) && fd in FdSet(s.clients) && ValidServer(s') && KernelConserved(s'.k)
    requires |s'.clients| <= |s.clients| && DistinctFds(s'.clients) && FdSet(s'.clients) == FdSet(s.clients) - {fd}
    requires s'.k.table == s.k.table - {fd} && s'.listenFd == s.listenFd && s'.signalFd == s.signalFd
    ensures Owns(s', foreign)
  {
  }

  lemma {:induction false} RemovalOwns(s: Server, foreign: map<int, nat>, i: nat)
    requires Owns(s, foreign) && i < |s.clients|
    ensures Owns(RemoveAt(s, i), foreign)
    ensures RemoveAt(s, i).k.closed == s.k.closed + [IdOf(s, i)]
    ensures FdSet(RemoveAt(s, i).clients) == FdSet(s.clients) - {s.clients[i].fd}
  {
    var fd, s' := s.clients[i].fd, RemoveAt(s, i);
    assert fd in FdSet(s.clients) && fd in s.k.table;
    CloseConserves(s.k, fd);
    SwapRemovedFds(s.clients, i, s'.clients);
    OneLessOwns(s, s', foreign, fd);
  }

  /** A removal closes exactly the departing connection, whether or not it is in the last slot. */
  lemma {:induction false} RemovalConserves(s: Server, foreign: map<int, nat>, i: nat)
    requires Conserved(s, foreign) && i < |s.clients|
    ensures Conserved(RemoveAt(s, i), foreign)
    ensures RemoveAt(s, i).k.closed == s.k.closed + [IdOf(s, i)]
    ensures Ids(RemoveAt(s, i)) == Ids(s) - {IdOf(s, i)}
  {
    RemovalOwns(s, foreign, i);
    RemovalIds(s, foreign, i);
  }

  lemma {:induction false} AppendedFds(clients: seq<Slot>, slot: Slot)
    requires DistinctFds(clients) && slot.fd !in FdSet(clients)
    ensures DistinctFds(clients + [slot]) && FdSet(clients + [slot]) == FdSet(clients) + {slot.fd}
  {
    var all := clients + [slot];
    assert all[|clients|].fd == slot.fd;
    forall fd | fd in FdSet(clients) ensures fd in FdSet(all) {
      var j :| 0 <= j < |clients| && clients[j].fd == fd;
      assert all[j].fd == fd;
    }
    forall i, j | 0 <= i < j < |all| ensures all[i].fd != all[j].fd {
      assert clients[i].fd in FdSet(clients);
    }
  }

  lemma {:induction false} AcceptOwns(s: Server, foreign: map<int, nat>, a: AcceptOutcome)
    requires Owns(s, foreign)
    ensures Owns(AcceptClient(s, a).server, foreign)
  {
    if AcceptClient(s, a).outcome == Continue {
      OpenConserves(s.k, a.fd, a.channel);
      var k := OpenFd(s.k, a.fd, a.channel);
      if |s.clients| >= MAX_CLIENTS {
        CloseConserves(k, a.fd);
      } else {
        var clients := AcceptClient(s, a).server.clients;
        assert a.fd !in FdSet(s.clients);
        AppendedFds(s.clients, clients[|s.clients|]);
      }
    }
  }

  /** At the cap, the connection is opened and closed, and nothing else happens. */
  lemma {:induction false} TurnedAway(s: Server, foreign: map<int, nat>, fd: int, channel: Channel, memory: string)
    requires Owns(s, foreign) && CanOpen(s.k, fd) && |memory| == BUFFER_SIZE && |s.clients| >= MAX_CLIENTS
    ensures var s' := Admitted(s, fd, channel, memory);
            s'.k.closed == s.k.closed + [|s.k.channels|] && s'.k.table == s.k.table && s'.h == s.h && Ids(s') == Ids(s)
  {
    var s' := Admitted(s, fd, channel, memory);
    assert s'.k.table == s.k.table;
    DistinctIds(s, foreign);
    SameIds(s, s');
  }

  /** Below it, the connection is the one in the new slot. */
  lemma {:induction false} LetIn(s: Server, foreign: map<int, nat>, fd: int, channel: Channel, memory: string)
    requires Owns(s, foreign) && CanOpen(s.k, fd) && |memory| == BUFFER_SIZE && |s.clients| < MAX_CLIENTS
    ensures var s' := Admitted(s, fd, channel, memory);
            |s'.clients| == |s.clients| + 1 && IdOf(s', |s.clients|) == |s.k.channels| && |s.k.channels| !in Ids(s) &&
            Ids(s') == Ids(s) + {|s.k.channels|}
  {
    DistinctIds(s, foreign);
    AcceptedIds(s, Admitted(s, fd, channel, memory), fd);
  }

  /** An accepted connection gets an identity of its own, which is then in the new slot, or closed at the cap. */
  lemma {:induction false} AcceptConserves(s: Server, foreign: map<int, nat>, a: AcceptOutcome)
    requires Conserved(s, foreign)
    ensures Conserved(AcceptClient(s, a).server, foreign)
    ensures AcceptClient(s, a).outcome == Continue && |s.clients| < MAX_CLIENTS ==>
              |AcceptClient(s, a).server.clients| == |s.clients| + 1 &&
              IdOf(AcceptClient(s, a).server, |s.clients|) == |s.k.channels| && |s.k.channels| !in Ids(s) &&
              Ids(AcceptClient(s, a).server) == Ids(s) + {|s.k.channels|}
    ensures AcceptClient(s, a).outcome == Continue && |s.clients| >= MAX_CLIENTS ==>
              AcceptClient(s, a).server.k.closed == s.k.closed + [|s.k.channels|] &&
              AcceptClient(s, a).server.k.table == s.k.table && Ids(AcceptClient(s, a).server) == Ids(s)
  {
    AcceptOwns(s, foreign, a);
    if AcceptClient(s, a).outcome == Continue {
      if |s.clients| >= MAX_CLIENTS {
        TurnedAway(s, foreign, a.fd, a.channel, a.memory);
      } else {
        LetIn(s, foreign, a.fd, a.channel, a.memory);
      }
    }
  }

  /** What a step that only moves bytes and relabels slots may change. */
  lemma {:induction false} SameDescriptors(s: Server, s': Server, foreign: map<int, nat>)
    requires Conserved(s, foreign) && ValidServer(s')
    requires s'.k.table == s.k.table && s'.k.closed == s.k.closed && |s'.k.channels| == |s.k.channels|
    requires Fds(s'.clients) == Fds(s.clients)
    requires s'.listenFd == s.listenFd && s'.signalFd == s.signalFd && s'.h.joined == s.h.joined
    ensures Conserved(s', foreign) && FdSet(s'.clients) == FdSet(s.clients) && Ids(s') == Ids(s)
  {
    SameTableConserves(s.k, s'.k);
    assert |s'.clients| == |Fds(s'.clients)| == |s.clients|;
    forall i | 0 <= i < |s.clients| ensures s'.clients[i].fd == s.clients[i].fd {
      assert s'.clients[i].fd == Fds(s'.clients)[i];
    }
    assert FdSet(s'.clients) == FdSet(s.clients);
    DistinctIds(s, foreign);
    SameIds(s, s');
  }

  lemma {:induction false} ChunkConserves(s: Server, foreign: map<int, nat>, i: nat, bytes: string)
    requires Conserved(s, foreign) && i < |s.clients| && |bytes| <= FreeSpace(s.clients[i].buffer)
    ensures Conserved(HandleChunk(s, i, bytes).server, foreign) && Ids(HandleChunk(s, i, bytes).server) == Ids(s)
  {
    SameDescriptors(s, HandleChunk(s, i, bytes).server, foreign);
  }

  lemma {:induction false} ServeConserves(s: Server, foreign: map<int, nat>, e: Revents, i: nat)
    requires Conserved(s, foreign) && i < |s.clients|
    ensures Conserved(Serve(s, e, i).server, foreign)
  {
    if Hangup(e) {
      RemovalConserves(s, foreign, i);
    } else {
      var g := Input(s.k, s.clients[i]);
      var s' := s.(k := g.kernel);
      SameDescriptors(s, s', foreign);
      if g.result.Count? {
        if g.result.n == 0 {
          RemovalConserves(s', foreign, i);
        } else {
          ChunkConserves(s', foreign, i, g.bytes);
        }
      }
    }
  }

  lemma {:induction false} CloseAllConserves(k: Kernel, clients: seq<Slot>)
    requires KernelConserved(k) && DistinctFds(clients) && FdSet(clients) <= k.table.Keys
    ensures KernelConserved(CloseAll(k, clients)) && Continues(k, CloseAll(k, clients))
    ensures CloseAll(k, clients).table == k.table - FdSet(clients)
    decreases |clients|
  {
    if clients == [] {
      assert FdSet(clients) == {};
    } else {
      var fd := clients[0].fd;
      assert fd in FdSet(clients);
      CloseConserves(k, fd);
      RestFds(clients);
      CloseAllConserves(CloseFd(k, fd), clients[1..]);
    }
  }

  lemma {:induction false} RestFds(clients: seq<Slot>)
    requires clients != [] && DistinctFds(clients)
    ensures DistinctFds(clients[1..]) && FdSet(clients[1..]) == FdSet(clients) - {clients[0].fd}
  {
    var rest := clients[1..];
    forall fd | fd in FdSet(clients) - {clients[0].fd} ensures fd in FdSet(rest) {
      var j :| 0 <= j < |clients| && clients[j].fd == fd;
      assert rest[j - 1].fd == fd;
    }
    forall fd | fd in FdSet(rest) ensures fd in FdSet(clients) - {clients[0].fd} {
      var j :| 0 <= j < |rest| && rest[j].fd == fd;
      assert clients[j + 1].fd == fd;
    }
  }

  /** After `stop` none of the server's descriptors is open, and the connections it held are closed. */
  lemma {:induction false} StopConserves(s: Server, foreign: map<int, nat>)
    requires Conserved(s, foreign)
    ensures Conserved(Stop(s), foreign)
    ensures Stop(s).k.table == foreign
    ensures forall id | id in Ids(s) :: id in Stop(s).k.closed
  {
    StopOwns(s, foreign);
    var k' := Stop(s).k;
    DistinctIds(s, foreign);
    forall id | id in Ids(s) ensures id in k'.closed {
      var i :| 0 <= i < |s.clients| && IdOf(s, i) == id;
      assert s.clients[i].fd in FdSet(s.clients);
      assert forall fd | fd in k'.table :: k'.table[fd] != id;
      GoneIsClosed(k', id);
    }
    assert Ids(Stop(s)) == {};
  }

  lemma {:induction false} StopOwns(s: Server, foreign: map<int, nat>)
    requires Owns(s, foreign)
    ensures Owns(Stop(s), foreign) && Continues(s.k, Stop(s).k) && Stop(s).k.channels == s.k.channels
    ensures Stop(s).k.table == foreign
  {
    CloseAllConserves(s.k, s.clients);
    CloseAllChannels(s.k, s.clients);
    var k1 := CloseAll(s.k, s.clients);
    ReleaseConserves(k1, s.signalFd);
    ReleaseConserves(NetUtils.CloseIfValid(k1, s.signalFd), s.listenFd);
    assert FdSet([]) == {};
    var k' := Stop(s).k;
    assert k'.table.Keys == foreign.Keys;
    TableIs(k'.table, s.k.table, foreign);
  }

  lemma TableIs(table: map<int, nat>, before: map<int, nat>, foreign: map<int, nat>)
    requires table.Keys == foreign.Keys
    requires forall fd | fd in foreign :: fd in before && table[fd] == before[fd] == foreign[fd]
    ensures table == foreign
  {
    assert forall fd | fd in table :: fd in foreign && table[fd] == foreign[fd];
  }

  lemma {:induction false} SignalConserves(s: Server, foreign: map<int, nat>)
    requires Conserved(s, foreign)
    ensures Conserved(SignalStep(s).server, foreign)
  {
    var s' := s.(k := SysRead(s.k, s.signalFd, SIGINFO_SIZE).kernel);
    SameDescriptors(s, s', foreign);
    StopConserves(s', foreign);
  }

  lemma {:induction false} StartedOwns(s: Server, foreign: map<int, nat>, fd: int, signalFd: int, k: Kernel)
    requires Owns(s, foreign) && CanOpen(s.k, fd) && CanOpen(s.k, signalFd) && fd != signalFd && KernelConserved(k)
    requires k.table == s.k.table[fd := |s.k.channels|][signalFd := |s.k.channels| + 1]
                        - Holding(s.signalFd) - Holding(s.listenFd)
    ensures Owns(s.(running := true, listenFd := fd, signalFd := signalFd, k := k), foreign)
  {
  }

  lemma {:induction false} RunOwns(s: Server, foreign: map<int, nat>, startup: Startup)
    requires Owns(s, foreign)
    ensures Owns(RunServer(s, startup).server, foreign) && Continues(s.k, RunServer(s, startup).server.k)
  {
    if !s.running && !startup.SocketFails? && CanOpen(s.k, startup.fd) {
      var k1 := OpenFd(s.k, startup.fd, startup.channel);
      if !startup.Starts? || !CanOpen(k1, startup.signalFd) {
        OpenConserves(s.k, startup.fd, startup.channel);
        CloseConserves(k1, startup.fd);
      } else {
        ReplacingConserves(s.k, startup.fd, startup.channel, startup.signalFd, startup.signalChannel, s.signalFd,
          s.listenFd);
        StartedOwns(s, foreign, startup.fd, startup.signalFd, RunServer(s, startup).server.k);
      }
    }
  }

  lemma {:induction false} RunConserves(s: Server, foreign: map<int, nat>, startup: Startup)
    requires Conserved(s, foreign)
    ensures Conserved(RunServer(s, startup).server, foreign)
    ensures Ids(RunServer(s, startup).server) == Ids(s)
  {
    RunOwns(s, foreign, startup);
    DistinctIds(s, foreign);
    RunTable(s, foreign, startup);
    SameIds(s, RunServer(s, startup).server);
    AccountFrame(s, RunServer(s, startup).server);
  }

  lemma {:induction false} ConservedIsInductive(foreign: map<int, nat>)
    ensures Inductive(s => Conserved(s, foreign))
  {
    var inv: Server -> bool := s => Conserved(s, foreign);
    forall s: Server, e: Revents, i: nat | ValidServer(s) && i < |s.clients| && inv(s)
      ensures inv(Serve(s, e, i).server)
    {
      ServeConserves(s, foreign, e, i);
    }
    forall s: Server, a: AcceptOutcome | ValidServer(s) && inv(s) ensures inv(AcceptClient(s, a).server) {
      AcceptConserves(s, foreign, a);
    }
    forall s: Server | ValidServer(s) && inv(s) ensures inv(SignalStep(s).server) && inv(Stop(s)) {
      SignalConserves(s, foreign);
      StopConserves(s, foreign);
    }
    forall s: Server, startup: Startup | ValidServer(s) && inv(s) ensures inv(RunServer(s, startup).server) {
      RunConserves(s, foreign, startup);
    }
  }

  // ----- every run -----

  /** One slot, and no other, holds the connection. */
  ghost predicate InOneSlot(s: Server, id: nat) {
    exists i :: 0 <= i < |s.clients| && IdOf(s, i) == id &&
                forall j | 0 <= j < |s.clients| && j != i :: IdOf(s, j) != id
  }

  /** The identity that a member's descriptor denotes, if it holds one. */
  function HeldId(k: Kernel, fd: int): set<nat> {
    if fd >= 0 && fd in k.table then {k.table[fd]} else {}
  }

  function ForeignIds(foreign: map<int, nat>): set<nat> {
    set fd | fd in foreign :: foreign[fd]
  }

  /** An open channel has exactly one place: outside the server, in one slot, or in one of the two members. */
  ghost predicate PlacedOnce(s: Server, foreign: map<int, nat>, id: nat) {
    id in ForeignIds(foreign) + Ids(s) + HeldId(s.k, s.listenFd) + HeldId(s.k, s.signalFd) &&
    (id in ForeignIds(foreign) ==> id !in Ids(s) + HeldId(s.k, s.listenFd) + HeldId(s.k, s.signalFd)) &&
    (id in Ids(s) ==> InOneSlot(s, id) && id !in HeldId(s.k, s.listenFd) + HeldId(s.k, s.signalFd)) &&
    (id in HeldId(s.k, s.listenFd) ==> id !in HeldId(s.k, s.signalFd))
  }

  /** The place of an open channel is that of the one number it is open under. */
  lemma {:induction false} PlaceOfNumber(s: Server, foreign: map<int, nat>, fd: int)
    requires Conserved(s, foreign) && fd in s.k.table
    ensures s.k.table[fd] in ForeignIds(foreign) <==> fd in foreign
    ensures s.k.table[fd] in Ids(s) <==> fd in FdSet(s.clients)
    ensures s.k.table[fd] in HeldId(s.k, s.listenFd) <==> fd in Holding(s.listenFd)
    ensures s.k.table[fd] in HeldId(s.k, s.signalFd) <==> fd in Holding(s.signalFd)
  {
    var id := s.k.table[fd];
    DistinctIds(s, foreign);
    if id in ForeignIds(foreign) {
      var f :| f in foreign && foreign[f] == id;
      assert f == fd;
    }
    if id in Ids(s) {
      var i :| 0 <= i < |s.clients| && IdOf(s, i) == id;
      assert s.clients[i].fd == fd;
    }
    if fd in FdSet(s.clients) {
      var i :| 0 <= i < |s.clients| && s.clients[i].fd == fd;
      assert IdOf(s, i) == id;
    }
  }

  lemma {:induction false} ClosedHasNoPlace(s: Server, foreign: map<int, nat>, id: nat)
    requires Conserved(s, foreign) && id in s.k.closed
    ensures id !in ForeignIds(foreign) + Ids(s) + HeldId(s.k, s.listenFd) + HeldId(s.k, s.signalFd)
  {
    DistinctIds(s, foreign);
    assert !IsOpenChannel(s.k, id);
  }

  lemma {:induction false} OneSlotOnly(s: Server, foreign: map<int, nat>, id: nat)
    requires Conserved(s, foreign) && id in Ids(s)
    ensures InOneSlot(s, id)
  {
    DistinctIds(s, foreign);
    var i :| 0 <= i < |s.clients| && IdOf(s, i) == id;
    assert forall j | 0 <= j < |s.clients| && j != i :: IdOf(s, j) != id;
  }

  /** Every channel ever opened is closed once and has no place any more, or is not closed and has exactly one place. */
  lemma {:induction false} EveryChannelPlaced(s: Server, foreign: map<int, nat>, id: nat)
    requires Conserved(s, foreign) && id < |s.k.channels|
    ensures if id in s.k.closed then
              ClosedOnce(s.k, id) && id !in ForeignIds(foreign) + Ids(s) + HeldId(s.k, s.listenFd)
                + HeldId(s.k, s.signalFd)
            else PlacedOnce(s, foreign, id)
  {
    ClosedMeansOnce(s.k, id);
    if id in s.k.closed {
      ClosedHasNoPlace(s, foreign, id);
    } else {
      var fd :| fd in s.k.table && s.k.table[fd] == id;
      PlaceOfNumber(s, foreign, fd);
      if id in Ids(s) {
        OneSlotOnly(s, foreign, id);
      }
    }
  }

  /** What is said of an accepted connection: it is in exactly one slot, or it was closed exactly once. */
  ghost predicate OwnedOrClosed(s: Server, id: nat) {
    (InOneSlot(s, id) && id !in s.k.closed) || (ClosedOnce(s.k, id) && id !in Ids(s))
  }

  /**
    Over any interleaving of `run`, event loops and `stop`, exceptions included: every connection that was let
    in is in exactly one slot or was closed exactly once, every other channel ever opened has one owner or was
    closed exactly once, and what the server never had still denotes the same channels.
   */
  lemma {:induction false} ExecutionConserves(s: Server, foreign: map<int, nat>, actions: seq<Action>)
    requires Conserved(s, foreign)
    ensures Conserved(Execute(s, actions), foreign)
    ensures forall id | id in Execute(s, actions).h.joined :: OwnedOrClosed(Execute(s, actions), id)
    ensures forall id: nat | id < |Execute(s, actions).k.channels| ::
              ClosedOnce(Execute(s, actions).k, id) || PlacedOnce(Execute(s, actions), foreign, id)
  {
    ConservedIsInductive(foreign);
    ExecuteKeeps(s => Conserved(s, foreign), s, actions);
    var t := Execute(s, actions);
    forall id: nat | id < |t.k.channels| ensures ClosedOnce(t.k, id) || PlacedOnce(t, foreign, id) {
      EveryChannelPlaced(t, foreign, id);
    }
    forall id | id in t.h.joined ensures OwnedOrClosed(t, id) {
      EveryChannelPlaced(t, foreign, id);
    }
  }

  lemma {:induction false} ConstructedConserves(s: Server)
    requires Constructed(s) && KernelConserved(s.k)
    ensures Conserved(s, s.k.table)
  {
    assert FdSet(s.clients) == {} && Ids(s) == {};
  }

  /**
    A constructed server that is used in any way and then stopped leaves the descriptor table as it was, number
    by number and channel by channel, and every channel opened since is closed, once.
   */
  lemma {:induction false} StoppedServerLeaksNothing(s: Server, actions: seq<Action>)
    requires Constructed(s) && KernelConserved(s.k)
    ensures Stop(Execute(s, actions)).k.table == s.k.table
    ensures forall id: nat | |s.k.channels| <= id < |Stop(Execute(s, actions)).k.channels| ::
              ClosedOnce(Stop(Execute(s, actions)).k, id)
  {
    ConstructedConserves(s);
    ExecutionConserves(s, s.k.table, actions);
    StopConserves(Execute(s, actions), s.k.table);
    var k := Stop(Execute(s, actions)).k;
    forall id: nat | |s.k.channels| <= id < |k.channels| ensures ClosedOnce(k, id) {
      GoneIsClosed(k, id);
      ClosedMeansOnce(k, id);
    }
  }
}
