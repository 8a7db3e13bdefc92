/** Starting a client session, the name on the wire, and when the client's buffers can fill up. */
module ClientSessions {
  import opened ClientModel
  import opened ClientStreams
  import opened OperatingSystem
  import opened ProtocolBuffer
  import opened Wrappers
  import Lines
  import NetIo
  import NetUtils

  // ----- a session begins in sync -----

  /** The state of a client between sessions, holding at most unfinished lines. */
  predicate Idle(c: Client) {
    ValidClient(c) && ValidKernel(c.k) && !c.connected && c.clientFd == -1 &&
    c.signalFd != STDIN_FILENO && (c.signalFd >= 0 ==> c.signalFd in c.k.table) &&
    STDIN_FILENO in c.k.table &&
    NEWLINE !in Contents(c.writeBuffer) && NEWLINE !in Contents(c.readBuffer)
  }

  /** The channels of a session that starts in state c. */
  function WiringAt(c: Client, name: string): Wiring
    requires Idle(c)
  {
    var n := |c.k.channels|;
    Wiring(c.k.table[STDIN_FILENO], n, n + 1, name + "\n", Contents(c.writeBuffer), Contents(c.readBuffer),
           |c.k.channels[c.k.table[STDIN_FILENO]].delivered|, c.output)
  }

  predicate CanStart(c: Client, startup: Startup) {
    startup.Starts? && CanOpen(c.k, startup.fd) && CanOpen(OpenFd(c.k, startup.fd, startup.channel), startup.signalFd)
  }

  /** The kernel once both descriptors are open and a stale signal descriptor is closed. */
  function StartKernel(c: Client, startup: Startup): Kernel
    requires CanStart(c, startup)
  {
    NetUtils.CloseIfValid(OpenFd(OpenFd(c.k, startup.fd, startup.channel), startup.signalFd, startup.signalChannel),
      c.signalFd)
  }

  lemma {:induction false} StartKernelOpen(c: Client, startup: Startup)
    requires Idle(c) && CanStart(c, startup)
    ensures StartKernel(c, startup).channels == c.k.channels + [Unused(startup.channel), Unused(startup.signalChannel)]
    ensures IsOpen(StartKernel(c, startup), startup.fd)
    ensures StartKernel(c, startup).table[startup.fd] == |c.k.channels|
    ensures startup.signalFd in StartKernel(c, startup).table
    ensures StartKernel(c, startup).table[startup.signalFd] == |c.k.channels| + 1
    ensures STDIN_FILENO in StartKernel(c, startup).table
    ensures StartKernel(c, startup).table[STDIN_FILENO] == c.k.table[STDIN_FILENO]
  {
  }

  lemma {:induction false} SuccessfulRun(c: Client, name: string, startup: Startup)
    requires Idle(c) && RunClient(c, name, startup).outcome == Continue
    ensures CanStart(c, startup) && NetIo.WriteAll(StartKernel(c, startup), startup.fd, name + "\n").0
    ensures RunClient(c, name, startup).client
         == c.(connected := true, clientFd := startup.fd, signalFd := startup.signalFd,
               k := NetIo.WriteAll(StartKernel(c, startup), startup.fd, name + "\n").1)
  {
  }

  /** The state right after `run`, given what the kernel looks like. */
  lemma {:induction false} FreshSessionInSync(c: Client, name: string, c': Client, channel: Channel, other: Channel)
    requires Idle(c) && ValidClient(c')
    requires c'.k.channels == c.k.channels + [channel, other]
    requires channel.sent == name + "\n" && channel.delivered == ""
    requires c'.writeBuffer == c.writeBuffer && c'.readBuffer == c.readBuffer && c'.output == c.output
    ensures InSync(WiringAt(c, name), c')
    ensures Typed(WiringAt(c, name), c'.k) == Contents(c.writeBuffer)
    ensures Heard(WiringAt(c, name), c'.k) == Contents(c.readBuffer)
  {
    var w := WiringAt(c, name);
    var d := c'.k.channels[w.stdin].delivered;
    assert d[|d|..] == "" && Contents(c.writeBuffer) + "" == Contents(c.writeBuffer);
    assert Contents(c.readBuffer) + "" == Contents(c.readBuffer);
    assert Typed(w, c'.k) == Contents(c.writeBuffer) && Heard(w, c'.k) == Contents(c.readBuffer);
    Lines.NothingComplete(w.greeting, Contents(c.writeBuffer), NEWLINE);
    Lines.NothingComplete(w.shown, Contents(c.readBuffer), NEWLINE);
  }

  /** A successful `run` starts a session in sync, with the name as the greeting. */
  lemma {:induction false} RunStartsInSync(c: Client, name: string, startup: Startup)
    requires Idle(c)
    requires RunClient(c, name, startup).outcome == Continue
    ensures Attached(WiringAt(c, name), RunClient(c, name, startup).client)
    ensures InSync(WiringAt(c, name), RunClient(c, name, startup).client)
    ensures Typed(WiringAt(c, name), RunClient(c, name, startup).client.k) == Contents(c.writeBuffer)
    ensures Heard(WiringAt(c, name), RunClient(c, name, startup).client.k) == Contents(c.readBuffer)
  {
    SuccessfulRun(c, name, startup);
    StartKernelOpen(c, startup);
    var k2 := StartKernel(c, startup);
    var done := NetIo.WriteAllAppends(k2, startup.fd, name + "\n");
    var c', n := RunClient(c, name, startup).client, |c.k.channels|;
    var channel := c'.k.channels[n];
    assert channel.sent == "" + (name + "\n");
    assert c'.k.channels == c.k.channels + [channel, Unused(startup.signalChannel)];
    FreshSessionInSync(c, name, c', channel, Unused(startup.signalChannel));
  }

  /** A failed `run` leaves the client unconnected and the channel of its new socket closed. */
  lemma {:induction false} RunFailureCloses(c: Client, name: string, startup: Startup)
    requires Idle(c) && RunClient(c, name, startup).outcome != Continue
    ensures !RunClient(c, name, startup).client.connected && RunClient(c, name, startup).client.clientFd == -1
    ensures forall fd | fd in RunClient(c, name, startup).client.k.table ::
              RunClient(c, name, startup).client.k.table[fd] != |c.k.channels|
  {
    if CanStart(c, startup) {
      StartKernelOpen(c, startup);
    }
  }

  /** A whole life of one connection: `run`, then any session. */
  lemma {:induction false} RunThenSession(c: Client, name: string, startup: Startup, polls: seq<Poll>)
    requires Idle(c)
    requires RunClient(c, name, startup).outcome == Continue
    ensures SessionKeeps(WiringAt(c, name), Session(RunClient(c, name, startup).client, polls))
  {
    RunStartsInSync(c, name, startup);
    SessionStreams(WiringAt(c, name), RunClient(c, name, startup).client, polls);
  }

  /** A name without a newline is the first line of everything the server receives. */
  lemma {:induction false} FirstLineIsName(w: Wiring, c: Client, name: string, full: string, partial: string)
    requires HasChannels(w, c.k) && ValidClient(c) && UplinkConserved(w, c, full, partial)
    requires w.greeting == name + "\n"
    ensures name <= c.k.channels[w.sock].sent
    ensures NEWLINE !in name <==> Lines.FirstLength(c.k.channels[w.sock].sent, NEWLINE) == |name| + 1
  {
    var sent := c.k.channels[w.sock].sent;
    assert sent == name + "\n" + (full + partial);
    assert sent[|name|] == NEWLINE;
    var n := Lines.FirstLength(sent, NEWLINE);
    if NEWLINE in name {
      var i :| 0 <= i < |name| && name[i] == NEWLINE;
      assert sent[i] == NEWLINE;
      assert n - 1 <= i;
    } else {
      assert forall i | 0 <= i < |name| :: sent[i] == name[i];
      assert n - 1 >= |name|;
    }
  }

  // ----- when a buffer has room -----

  /** At no point of the text is the unfinished line as long as the buffer: every line with its newline fits. */
  ghost predicate ShortLines(s: string) {
    forall j | 0 <= j <= |s| :: |Lines.Rest(s[..j], NEWLINE)| < BUFFER_SIZE
  }

  /** The same, except perhaps at the very end. */
  ghost predicate ShortBeforeEnd(s: string) {
    forall j | 0 <= j < |s| :: |Lines.Rest(s[..j], NEWLINE)| < BUFFER_SIZE
  }

  lemma {:induction false} ShortLinesPrefix(s: string, t: string)
    requires ShortLines(s + t)
    ensures ShortLines(s)
  {
    forall j | 0 <= j <= |s| ensures |Lines.Rest(s[..j], NEWLINE)| < BUFFER_SIZE {
      assert (s + t)[..j] == s[..j];
    }
  }

  /** A chunk that fits beside the unfinished line keeps every earlier point short. */
  lemma {:induction false} ChunkKeepsShort(s: string, chunk: string)
    requires ShortBeforeEnd(s) && |Lines.Rest(s, NEWLINE)| + |chunk| <= BUFFER_SIZE
    ensures ShortBeforeEnd(s + chunk)
  {
    forall j | 0 <= j < |s + chunk| ensures |Lines.Rest((s + chunk)[..j], NEWLINE)| < BUFFER_SIZE {
      if j < |s| {
        assert (s + chunk)[..j] == s[..j];
      } else {
        var m := j - |s|;
        assert (s + chunk)[..j] == s + chunk[..m];
        Lines.CompleteAppend(s, chunk[..m], NEWLINE);
      }
    }
  }

  lemma {:induction false} ShortIff(s: string)
    requires ShortBeforeEnd(s)
    ensures ShortLines(s) <==> |Lines.Rest(s, NEWLINE)| < BUFFER_SIZE
  {
    assert s[..|s|] == s;
  }

  ghost predicate Roomy(w: Wiring, c: Client)
    requires HasChannels(w, c.k)
  {
    ShortBeforeEnd(Typed(w, c.k)) && ShortBeforeEnd(Heard(w, c.k))
  }

  lemma {:induction false} StdinStepRoomy(w: Wiring, c: Client)
    requires Attached(w, c) && InSync(w, c) && Roomy(w, c)
    ensures HasChannels(w, StdinStep(c).client.k) && Roomy(w, StdinStep(c).client)
  {
    var free := FreeSpace(c.writeBuffer);
    var g := SysRead(c.k, STDIN_FILENO, free);
    ReadGrows(w, c.k, STDIN_FILENO, free);
    ChunkKeepsShort(Typed(w, c.k), g.bytes);
    if g.result.Count? && g.result.n > 0 {
      var b := Appended(c.writeBuffer, g.bytes);
      var d := DrainTo(g.kernel, c.clientFd, b, NEWLINE);
      var full, partial := DrainAppends(g.kernel, c.clientFd, b, NEWLINE);
      UplinkDrained(w, c, g.kernel, g.bytes, b, d, full, partial);
      assert d.kernel.channels[w.stdin] == g.kernel.channels[w.stdin];
      assert Heard(w, d.kernel) == Heard(w, g.kernel);
    }
  }

  lemma {:induction false} ServerStepRoomy(w: Wiring, c: Client)
    requires Attached(w, c) && InSync(w, c) && Roomy(w, c)
    ensures HasChannels(w, ServerStep(c).client.k) && Roomy(w, ServerStep(c).client)
  {
    var free := FreeSpace(c.readBuffer);
    ReadGrows(w, c.k, c.clientFd, free);
    ChunkKeepsShort(Heard(w, c.k), SysRead(c.k, c.clientFd, free).bytes);
  }

  lemma {:induction false} SignalStepRoomy(w: Wiring, c: Client)
    requires Attached(w, c) && InSync(w, c) && Roomy(w, c)
    ensures HasChannels(w, SignalStep(c).client.k) && Roomy(w, SignalStep(c).client)
  {
    ReadGrows(w, c.k, c.signalFd, SIGINFO_SIZE);
  }

  /** What a step of a round leaves behind, and needs when it goes on. */
  ghost predicate RoomyAfter(w: Wiring, s: Step) {
    HasChannels(w, s.client.k) && Roomy(w, s.client) &&
    (s.outcome == Continue ==> Attached(w, s.client) && InSync(w, s.client))
  }

  lemma {:induction false} StdinStepRoomyAfter(w: Wiring, c: Client)
    requires Attached(w, c) && InSync(w, c) && Roomy(w, c)
    ensures RoomyAfter(w, StdinStep(c))
  {
    StdinStepRoomy(w, c);
    StdinEventKeeps(w, c, true);
  }

  lemma {:induction false} ServerStepRoomyAfter(w: Wiring, c: Client)
    requires Attached(w, c) && InSync(w, c) && Roomy(w, c)
    ensures RoomyAfter(w, ServerStep(c))
  {
    ServerStepRoomy(w, c);
    InSyncIsConserved(w, c);
    ServerEventKeeps(w, Step(Continue, c), true);
  }

  lemma {:induction false} RoundRoomy(w: Wiring, c: Client, poll: Poll)
    requires Attached(w, c) && InSync(w, c) && Roomy(w, c)
    ensures HasChannels(w, Round(c, poll).client.k) && Roomy(w, Round(c, poll).client)
  {
    if poll.Ready? {
      var s1 := if poll.stdin then StdinStep(c) else Step(Continue, c);
      if poll.stdin {
        StdinStepRoomyAfter(w, c);
      }
      assert RoomyAfter(w, s1);
      var s2 := if poll.server && s1.outcome == Continue then ServerStep(s1.client) else s1;
      if poll.server && s1.outcome == Continue {
        ServerStepRoomyAfter(w, s1.client);
      }
      assert RoomyAfter(w, s2);
      if poll.signal && s2.outcome == Continue {
        SignalStepRoomy(w, s2.client);
      }
    }
  }

  lemma {:induction false} SessionRoomy(w: Wiring, c: Client, polls: seq<Poll>)
    requires Attached(w, c) && InSync(w, c) && Roomy(w, c)
    ensures HasChannels(w, Session(c, polls).client.k) && Roomy(w, Session(c, polls).client)
    decreases |polls|
  {
    if polls != [] {
      RoundRoomy(w, c, polls[0]);
      RoundKeeps(w, c, polls[0]);
      var s := Round(c, polls[0]);
      if s.outcome == Continue {
        SessionRoomy(w, s.client, polls[1..]);
      }
    }
  }

  /** Between sessions the buffers hold at most one unfinished line each, so a new session starts roomy. */
  lemma {:induction false} StartsRoomy(c: Client, name: string, startup: Startup)
    requires Idle(c) && RunClient(c, name, startup).outcome == Continue
    ensures HasChannels(WiringAt(c, name), RunClient(c, name, startup).client.k)
    ensures Roomy(WiringAt(c, name), RunClient(c, name, startup).client)
  {
    RunStartsInSync(c, name, startup);
    var w, c' := WiringAt(c, name), RunClient(c, name, startup).client;
    UnfinishedIsShort(Contents(c.writeBuffer));
    UnfinishedIsShort(Contents(c.readBuffer));
  }

  lemma {:induction false} UnfinishedIsShort(s: string)
    requires NEWLINE !in s && |s| <= BUFFER_SIZE
    ensures ShortBeforeEnd(s)
  {
    forall j | 0 <= j < |s| ensures |Lines.Rest(s[..j], NEWLINE)| < BUFFER_SIZE {
      Lines.CompleteNone(s[..j], NEWLINE);
    }
  }

  /**
    No stall below the line bound, and only there: after any session that has not thrown, a buffer has
    room for another byte if and only if every line it was given so far fits it.
   */
  lemma {:induction false} RoomIffShortLines(w: Wiring, c: Client, polls: seq<Poll>)
    requires Attached(w, c) && InSync(w, c) && Roomy(w, c)
    requires Session(c, polls).outcome != Threw
    ensures HasChannels(w, Session(c, polls).client.k)
    ensures FreeSpace(Session(c, polls).client.writeBuffer) >= 1 <==> ShortLines(Typed(w, Session(c, polls).client.k))
    ensures FreeSpace(Session(c, polls).client.readBuffer) >= 1 <==> ShortLines(Heard(w, Session(c, polls).client.k))
  {
    SessionStreams(w, c, polls);
    SessionRoomy(w, c, polls);
    var s := Session(c, polls).client;
    ShortIff(Typed(w, s.k));
    ShortIff(Heard(w, s.k));
  }

  /**
    A count of 0 from standard input, which stops the client, means the end of file or a line that does
    not fit the buffer; when every line of the whole input fits, it means the end of file only.
   */
  lemma {:induction false} StdinZero(w: Wiring, c: Client)
    requires Attached(w, c) && InSync(w, c) && Roomy(w, c)
    ensures var g := SysRead(c.k, STDIN_FILENO, FreeSpace(c.writeBuffer)); g.result.Count? ==>
      (g.result.n == 0 <==> c.k.channels[w.stdin].incoming == "" || !ShortLines(Typed(w, c.k)))
    ensures var g := SysRead(c.k, STDIN_FILENO, FreeSpace(c.writeBuffer));
      g.result.Count? && ShortLines(Typed(w, c.k) + c.k.channels[w.stdin].incoming) ==>
      (g.result.n == 0 <==> c.k.channels[w.stdin].incoming == "")
  {
    ShortIff(Typed(w, c.k));
    if ShortLines(Typed(w, c.k) + c.k.channels[w.stdin].incoming) {
      ShortLinesPrefix(Typed(w, c.k), c.k.channels[w.stdin].incoming);
    }
  }

  lemma {:induction false} DrainingNothing(b: Buf, output: string)
    requires ValidBuf(b) && NEWLINE !in Contents(b)
    ensures Drained(b, NEWLINE) == b && output + Lines.Complete(Contents(b), NEWLINE) == output
  {
    Lines.NothingComplete(output, Contents(b), NEWLINE);
  }

  /** The read buffer is full and holds no newline. */
  predicate ReadBufferFull(c: Client) {
    ValidClient(c) && FreeSpace(c.readBuffer) == 0 && NEWLINE !in Contents(c.readBuffer)
  }

  /** Nothing more has been shown, and the read buffer is as it was. */
  predicate NothingShown(c: Client, c': Client) {
    c'.output == c.output && c'.readBuffer == c.readBuffer
  }

  lemma {:induction false} FullBufferStep(c: Client)
    requires ReadBufferFull(c)
    ensures NothingShown(c, ServerStep(c).client)
  {
    var g := SysRead(c.k, c.clientFd, 0);
    assert g.bytes == "";
    AppendingNothing(c.readBuffer, g.bytes);
    DrainingNothing(c.readBuffer, c.output);
  }

  /** The other two events never touch the screen or the read buffer. */
  lemma {:induction false} OtherStepsShowNothing(c: Client)
    requires ValidClient(c)
    ensures NothingShown(c, StdinStep(c).client) && NothingShown(c, SignalStep(c).client)
  {
  }

  lemma {:induction false} RoundShowsNothing(c: Client, poll: Poll)
    requires ReadBufferFull(c)
    ensures NothingShown(c, Round(c, poll).client)
  {
    if poll.Ready? {
      var s1 := if poll.stdin then StdinStep(c) else Step(Continue, c);
      OtherStepsShowNothing(c);
      assert NothingShown(c, s1.client);
      var s2 := if poll.server && s1.outcome == Continue then ServerStep(s1.client) else s1;
      FullBufferStep(s1.client);
      assert NothingShown(c, s2.client);
      OtherStepsShowNothing(s2.client);
    }
  }

  lemma {:induction false} SessionShowsNothing(c: Client, polls: seq<Poll>)
    requires ReadBufferFull(c)
    ensures NothingShown(c, Session(c, polls).client)
    decreases |polls|
  {
    if polls != [] {
      RoundShowsNothing(c, polls[0]);
      var s := Round(c, polls[0]);
      if s.outcome == Continue {
        SessionShowsNothing(s.client, polls[1..]);
      }
    }
  }

  /** Once a server line is longer than the read buffer, no session ever shows or buffers anything again. */
  lemma {:induction false} FullReadBufferIsStuck(w: Wiring, c: Client, polls: seq<Poll>)
    requires Attached(w, c) && InSync(w, c) && Roomy(w, c) && !ShortLines(Heard(w, c.k))
    ensures NothingShown(c, Session(c, polls).client)
  {
    ShortIff(Heard(w, c.k));
    SessionShowsNothing(c, polls);
  }
}
