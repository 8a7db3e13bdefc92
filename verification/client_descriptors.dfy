/**
  Descriptor conservation at the client: over any use of it, every descriptor has one owner until it is closed
  once.
 */
module ClientDescriptors {
  import opened ClientModel
  import opened ClientSessions
  import opened Descriptors
  import opened OperatingSystem
  import opened ProtocolBuffer
  import opened Wrappers
  import NetIo
  import NetUtils

  /**
    The open descriptors are the foreign ones, which denote what they denoted, and those the client's two members
    hold.
   */
  ghost predicate Conserved(c: Client, foreign: map<int, nat>) {
    ValidClient(c) && KernelConserved(c.k) &&
    c.k.table.Keys == foreign.Keys + Holding(c.clientFd) + Holding(c.signalFd) &&
    foreign.Keys !! Holding(c.clientFd) !! Holding(c.signalFd) &&
    forall fd | fd in foreign :: fd in c.k.table && c.k.table[fd] == foreign[fd]
  }

  // ----- one step -----

  lemma {:induction false} DrainKeepsTable(k: Kernel, fd: int, b: Buf, delim: char)
    requires ValidBuf(b)
    ensures DrainTo(k, fd, b, delim).kernel.table == k.table && DrainTo(k, fd, b, delim).kernel.closed == k.closed
    ensures |DrainTo(k, fd, b, delim).kernel.channels| == |k.channels|
    decreases b.size
  {
    var n := FirstLine(b, delim);
    if n > 0 {
      var w := NetIo.WriteAll(k, fd, b.mem[..n]);
      if w.0 {
        DrainKeepsTable(w.1, fd, Compacted(b, n), delim);
      }
    }
  }

  /** What a step that only moves bytes may change. */
  lemma {:induction false} SameDescriptors(c: Client, c': Client, foreign: map<int, nat>)
    requires Conserved(c, foreign) && ValidClient(c')
    requires c'.k.table == c.k.table && c'.k.closed == c.k.closed && |c'.k.channels| == |c.k.channels|
    requires c'.clientFd == c.clientFd && c'.signalFd == c.signalFd
    ensures Conserved(c', foreign)
  {
    SameTableConserves(c.k, c'.k);
  }

  /** After `stop` the client holds nothing, and the table is the foreign one. */
  lemma {:induction false} StopConserves(c: Client, foreign: map<int, nat>)
    requires Conserved(c, foreign)
    ensures Conserved(Stop(c), foreign) && Stop(c).k.table == foreign && Continues(c.k, Stop(c).k)
  {
    ReleaseConserves(c.k, c.signalFd);
    ReleaseConserves(NetUtils.CloseIfValid(c.k, c.signalFd), c.clientFd);
    var k' := Stop(c).k;
    assert k'.table.Keys == foreign.Keys;
    assert forall fd | fd in foreign :: k'.table[fd] == c.k.table[fd] == foreign[fd];
    assert k'.table == foreign;
  }

  lemma {:induction false} StdinConserves(c: Client, foreign: map<int, nat>)
    requires Conserved(c, foreign)
    ensures Conserved(StdinStep(c).client, foreign)
  {
    var g := SysRead(c.k, STDIN_FILENO, FreeSpace(c.writeBuffer));
    var c' := c.(k := g.kernel);
    SameDescriptors(c, c', foreign);
    if g.result.Count? {
      if g.result.n == 0 {
        StopConserves(c', foreign);
      } else {
        DrainKeepsTable(c'.k, c.clientFd, Appended(c.writeBuffer, g.bytes), NEWLINE);
        SameDescriptors(c, StdinStep(c).client, foreign);
      }
    }
  }

  lemma {:induction false} ServerConserves(c: Client, foreign: map<int, nat>)
    requires Conserved(c, foreign)
    ensures Conserved(ServerStep(c).client, foreign)
  {
    SameDescriptors(c, ServerStep(c).client, foreign);
  }

  lemma {:induction false} SignalConserves(c: Client, foreign: map<int, nat>)
    requires Conserved(c, foreign)
    ensures Conserved(SignalStep(c).client, foreign)
  {
    var c' := c.(k := SysRead(c.k, c.signalFd, SIGINFO_SIZE).kernel);
    SameDescriptors(c, c', foreign);
    StopConserves(c', foreign);
  }

  lemma {:induction false} RoundConserves(c: Client, foreign: map<int, nat>, poll: Poll)
    requires Conserved(c, foreign)
    ensures Conserved(Round(c, poll).client, foreign)
  {
    if poll.Ready? {
      var s1 := if poll.stdin then StdinStep(c) else Step(Continue, c);
      if poll.stdin {
        StdinConserves(c, foreign);
      }
      var s2 := if poll.server && s1.outcome == Continue then ServerStep(s1.client) else s1;
      if poll.server && s1.outcome == Continue {
        ServerConserves(s1.client, foreign);
      }
      if poll.signal && s2.outcome == Continue {
        SignalConserves(s2.client, foreign);
      }
    }
  }

  lemma {:induction false} SessionConserves(c: Client, foreign: map<int, nat>, polls: seq<Poll>)
    requires Conserved(c, foreign)
    ensures Conserved(Session(c, polls).client, foreign)
    decreases |polls|
  {
    if polls != [] {
      RoundConserves(c, foreign, polls[0]);
      var s := Round(c, polls[0]);
      if s.outcome == Continue {
        SessionConserves(s.client, foreign, polls[1..]);
      }
    }
  }

  // ----- run -----

  /** The numbers in use once both descriptors are open and the old signal descriptor is closed. */
  function StartTable(c: Client, startup: Startup): map<int, nat>
    requires CanStart(c, startup)
  {
    c.k.table[startup.fd := |c.k.channels|][startup.signalFd := |c.k.channels| + 1] - Holding(c.signalFd)
  }

  /**
    The kernel once both descriptors are open, the old signal descriptor is closed, and the name has been written
    or not.
   */
  lemma {:induction false} StartingConserves(c: Client, foreign: map<int, nat>, startup: Startup, name: string)
    requires Conserved(c, foreign) && CanStart(c, startup)
    ensures var k := NetIo.WriteAll(StartKernel(c, startup), startup.fd, name + "\n").1;
            KernelConserved(k) && Continues(c.k, k) &&
            k.table == StartTable(c, startup)
  {
    var k1 := OpenFd(c.k, startup.fd, startup.channel);
    OpenConserves(c.k, startup.fd, startup.channel);
    OpenConserves(k1, startup.signalFd, startup.signalChannel);
    ReleaseConserves(OpenFd(k1, startup.signalFd, startup.signalChannel), c.signalFd);
    SameTableConserves(StartKernel(c, startup), NetIo.WriteAll(StartKernel(c, startup), startup.fd, name + "\n").1);
  }

  /** The two ways on from there: the name could not be sent, or it was. */
  lemma {:induction false} NotSentConserves(c: Client, foreign: map<int, nat>, startup: Startup, k: Kernel)
    requires Conserved(c, foreign) && CanStart(c, startup) && KernelConserved(k)
    requires k.table == StartTable(c, startup)
    ensures Conserved(c.(signalFd := startup.signalFd, k := CloseFd(k, startup.fd)), foreign)
  {
    CloseConserves(k, startup.fd);
  }

  lemma {:induction false} SentConserves(c: Client, foreign: map<int, nat>, startup: Startup, k: Kernel)
    requires Conserved(c, foreign) && CanStart(c, startup) && KernelConserved(k)
    requires k.table == StartTable(c, startup)
    ensures Conserved(c.(connected := true, clientFd := startup.fd, signalFd := startup.signalFd,
                         k := NetUtils.CloseIfValid(k, c.clientFd)), foreign)
  {
    ReleaseConserves(k, c.clientFd);
  }

  lemma {:induction false} EarlyFailureConserves(c: Client, foreign: map<int, nat>, fd: int, channel: Channel)
    requires Conserved(c, foreign) && CanOpen(c.k, fd)
    ensures Conserved(c.(k := CloseFd(OpenFd(c.k, fd, channel), fd)), foreign)
  {
    OpenConserves(c.k, fd, channel);
    CloseConserves(OpenFd(c.k, fd, channel), fd);
  }

  lemma {:induction false} RunConserves(c: Client, foreign: map<int, nat>, name: string, startup: Startup)
    requires Conserved(c, foreign)
    ensures Conserved(RunClient(c, name, startup).client, foreign)
  {
    if !c.connected && !startup.SocketFails? && CanOpen(c.k, startup.fd) {
      if !CanStart(c, startup) {
        EarlyFailureConserves(c, foreign, startup.fd, startup.channel);
      } else {
        StartingConserves(c, foreign, startup, name);
        var w := NetIo.WriteAll(StartKernel(c, startup), startup.fd, name + "\n");
        if w.0 {
          SentConserves(c, foreign, startup, w.1);
        } else {
          NotSentConserves(c, foreign, startup, w.1);
        }
      }
    }
  }

  /**
    A `run` that fails leaves the table as it was if and only if it fails before both descriptors are there. If
    the name cannot be sent, the new signal descriptor stays open; the client holds it, so `stop` closes it.
   */
  lemma {:induction false} FailedRunLeaves(c: Client, foreign: map<int, nat>, name: string, startup: Startup)
    requires Conserved(c, foreign) && RunClient(c, name, startup).outcome != Continue
    ensures RunClient(c, name, startup).client.k.table == c.k.table <==> c.connected || !CanStart(c, startup)
    ensures !c.connected && CanStart(c, startup) ==>
              RunClient(c, name, startup).client.signalFd == startup.signalFd &&
              startup.signalFd in RunClient(c, name, startup).client.k.table && startup.signalFd !in c.k.table
  {
    if !c.connected && CanStart(c, startup) {
      StartingConserves(c, foreign, startup, name);
    } else if !c.connected && !startup.SocketFails? && CanOpen(c.k, startup.fd) {
      assert CloseFd(OpenFd(c.k, startup.fd, startup.channel), startup.fd).table == c.k.table;
    }
  }

  // ----- any use of the client -----

  lemma {:induction false} ActionConserves(c: Client, foreign: map<int, nat>, a: Action)
    requires Conserved(c, foreign)
    ensures Conserved(Act(c, a), foreign)
  {
    match a {
      case Run(name, startup) => RunConserves(c, foreign, name, startup);
      case Loop(polls) => SessionConserves(c, foreign, polls);
      case StopClient => StopConserves(c, foreign);
    }
  }

  /** Over any interleaving of `run`, sessions and `stop`, exceptions included. */
  lemma {:induction false} ExecutionConserves(c: Client, foreign: map<int, nat>, actions: seq<Action>)
    requires Conserved(c, foreign)
    ensures Conserved(Execute(c, actions), foreign)
    decreases |actions|
  {
    if actions != [] {
      ActionConserves(c, foreign, actions[0]);
      ExecutionConserves(Act(c, actions[0]), foreign, actions[1..]);
    }
  }

  /**
    A constructed client that is used in any way and then stopped leaves the descriptor table as it was, number
    by number and channel by channel, and every channel opened since is closed, once.
   */
  lemma {:induction false} StoppedClientLeaksNothing(c: Client, actions: seq<Action>)
    requires Constructed(c) && KernelConserved(c.k)
    ensures Stop(Execute(c, actions)).k.table == c.k.table
    ensures forall id: nat | |c.k.channels| <= id < |Stop(Execute(c, actions)).k.channels| ::
              ClosedOnce(Stop(Execute(c, actions)).k, id)
  {
    ExecutionConserves(c, c.k.table, actions);
    StopConserves(Execute(c, actions), c.k.table);
    var k := Stop(Execute(c, actions)).k;
    forall id: nat | |c.k.channels| <= id < |k.channels| ensures ClosedOnce(k, id) {
      GoneIsClosed(k, id);
      ClosedMeansOnce(k, id);
    }
  }
}
