/**
  What the chat client does to its two byte streams over any session: standard input to the server,
  and the server to the screen.
 */
module ClientStreams {
  import opened ClientModel
  import opened OperatingSystem
  import opened ProtocolBuffer
  import opened Wrappers
  import Lines

  /**
    Which channels a session uses, by identity, and what was already there when it started: bytes
    left in the two buffers, input consumed by others, text on the screen.
   */
  datatype Wiring = Wiring(stdin: nat, sock: nat, signal: nat, greeting: string,
                           heldTyped: string, heldHeard: string, stdinStart: nat, shown: string)

  predicate HasChannels(w: Wiring, k: Kernel) {
    w.stdin < |k.channels| && w.sock < |k.channels| && w.signal < |k.channels| &&
    w.stdin != w.sock && w.stdin != w.signal && w.sock != w.signal &&
    w.stdinStart <= |k.channels[w.stdin].delivered|
  }

  /** The descriptors the client holds lead to these channels. */
  predicate Attached(w: Wiring, c: Client) {
    HasChannels(w, c.k) && c.connected &&
    STDIN_FILENO in c.k.table && c.k.table[STDIN_FILENO] == w.stdin &&
    c.clientFd in c.k.table && c.k.table[c.clientFd] == w.sock &&
    c.signalFd in c.k.table && c.k.table[c.signalFd] == w.signal
  }

  /** Everything typed in the session, with what the write buffer held before it. */
  function Typed(w: Wiring, k: Kernel): string
    requires HasChannels(w, k)
  {
    w.heldTyped + k.channels[w.stdin].delivered[w.stdinStart..]
  }

  /** Everything received from the server, with what the read buffer held before. */
  function Heard(w: Wiring, k: Kernel): string
    requires HasChannels(w, k)
  {
    w.heldHeard + k.channels[w.sock].delivered
  }

  /** The wire holds the greeting and every complete line typed; the buffer holds exactly the unfinished line. */
  predicate UplinkInSync(w: Wiring, c: Client)
    requires HasChannels(w, c.k) && ValidClient(c)
  {
    c.k.channels[w.sock].sent == w.greeting + Lines.Complete(Typed(w, c.k), NEWLINE) &&
    Contents(c.writeBuffer) == Lines.Rest(Typed(w, c.k), NEWLINE)
  }

  /** The screen shows every complete line heard; the buffer holds exactly the unfinished line. */
  predicate DownlinkInSync(w: Wiring, c: Client)
    requires HasChannels(w, c.k) && ValidClient(c)
  {
    c.output == w.shown + Lines.Complete(Heard(w, c.k), NEWLINE) &&
    Contents(c.readBuffer) == Lines.Rest(Heard(w, c.k), NEWLINE)
  }

  /**
    Also after a failed write: the wire holds the whole lines that left the buffer and at most a proper
    beginning of the next one, and those lines with the buffer are everything typed. Nothing is lost or
    reordered.
   */
  predicate UplinkConserved(w: Wiring, c: Client, full: string, partial: string)
    requires HasChannels(w, c.k) && ValidClient(c)
  {
    c.k.channels[w.sock].sent == w.greeting + full + partial &&
    full + Contents(c.writeBuffer) == Typed(w, c.k) &&
    Lines.WholeLines(full, NEWLINE) && Lines.Fragment(partial, Contents(c.writeBuffer), NEWLINE)
  }

  predicate InSync(w: Wiring, c: Client) {
    HasChannels(w, c.k) && ValidClient(c) && UplinkInSync(w, c) && DownlinkInSync(w, c)
  }

  // ----- single steps -----

  /** One more chunk from one channel changes nothing else. */
  lemma {:induction false} ReadGrows(w: Wiring, k: Kernel, fd: int, max: nat)
    requires HasChannels(w, k) && IsOpen(k, fd)
    requires k.table[fd] == w.stdin || k.table[fd] == w.sock || k.table[fd] == w.signal
    ensures HasChannels(w, SysRead(k, fd, max).kernel)
    ensures SysRead(k, fd, max).kernel.channels[w.sock].sent == k.channels[w.sock].sent
    ensures Typed(w, SysRead(k, fd, max).kernel)
         == Typed(w, k) + if k.table[fd] == w.stdin then SysRead(k, fd, max).bytes else ""
    ensures Heard(w, SysRead(k, fd, max).kernel)
         == Heard(w, k) + if k.table[fd] == w.sock then SysRead(k, fd, max).bytes else ""
  {
    var g := Read(ChannelOf(k, fd), max);
    var d := k.channels[w.stdin].delivered;
    assert (d + g.bytes)[w.stdinStart..] == d[w.stdinStart..] + g.bytes;
  }

  lemma {:induction false} Regroup(greeting: string, lines: string, rest: string, bytes: string, left: string,
                                   full: string, partial: string)
    requires full + left == rest + bytes
    ensures greeting + lines + (full + partial) == greeting + (lines + full) + partial
    ensures (lines + full) + left == lines + rest + bytes
  {
    assert greeting + lines + (full + partial) == greeting + (lines + full) + partial;
    assert (lines + full) + left == lines + (full + left);
    assert lines + (rest + bytes) == lines + rest + bytes;
  }

  /** The texts alone: draining the held-over line and a new chunk continues the stream. */
  lemma {:induction false} DrainContinues(greeting: string, typed: string, bytes: string, left: string, full: string,
                                          partial: string)
    requires full + left == Lines.Rest(typed, NEWLINE) + bytes
    ensures greeting + Lines.Complete(typed, NEWLINE) + (full + partial)
         == greeting + (Lines.Complete(typed, NEWLINE) + full) + partial
    ensures (Lines.Complete(typed, NEWLINE) + full) + left == typed + bytes
  {
    Lines.CompleteAndRest(typed, NEWLINE);
    Regroup(greeting, Lines.Complete(typed, NEWLINE), Lines.Rest(typed, NEWLINE), bytes, left, full, partial);
  }

  lemma {:induction false} StreamContinues(before: string, stream: string, bytes: string)
    ensures before + Lines.Complete(stream, NEWLINE) + Lines.Complete(Lines.Rest(stream, NEWLINE) + bytes, NEWLINE)
         == before + Lines.Complete(stream + bytes, NEWLINE)
    ensures Lines.Rest(Lines.Rest(stream, NEWLINE) + bytes, NEWLINE) == Lines.Rest(stream + bytes, NEWLINE)
  {
    Lines.CompleteAppend(stream, bytes, NEWLINE);
    var a, b := Lines.Complete(stream, NEWLINE), Lines.Complete(Lines.Rest(stream, NEWLINE) + bytes, NEWLINE);
    assert before + a + b == before + (a + b);
  }

  lemma {:induction false} UplinkDrained(w: Wiring, c: Client, k: Kernel, bytes: string, b: Buf, d: DrainResult,
                                         full: string, partial: string)
    requires Attached(w, c) && InSync(w, c) && HasChannels(w, k) && k.table == c.k.table
    requires k.channels[w.sock].sent == c.k.channels[w.sock].sent
    requires Typed(w, k) == Typed(w, c.k) + bytes && Heard(w, k) == Heard(w, c.k)
    requires ValidBuf(b) && Contents(b) == Contents(c.writeBuffer) + bytes
    requires ValidBuf(d.buf) && DrainEffect(k, c.clientFd, b, d, NEWLINE, full, partial)
    ensures var c' := c.(k := d.kernel, writeBuffer := d.buf);
      HasChannels(w, c'.k) && Attached(w, c') && DownlinkInSync(w, c') && (d.ok ==> UplinkInSync(w, c')) &&
      UplinkConserved(w, c', Lines.Complete(Typed(w, c.k), NEWLINE) + full, partial)
  {
    assert d.kernel.channels[w.sock] == ChannelOf(d.kernel, c.clientFd);
    assert d.kernel.channels[w.stdin] == k.channels[w.stdin];
    DrainContinues(w.greeting, Typed(w, c.k), bytes, Contents(d.buf), full, partial);
    StreamContinues(w.greeting, Typed(w, c.k), bytes);
  }

  lemma {:induction false} StdinKeeps(w: Wiring, c: Client) returns (full: string, partial: string)
    requires Attached(w, c) && InSync(w, c)
    ensures HasChannels(w, StdinStep(c).client.k) && DownlinkInSync(w, StdinStep(c).client)
    ensures StdinStep(c).outcome == Continue ==> Attached(w, StdinStep(c).client)
    ensures StdinStep(c).outcome != Threw ==> InSync(w, StdinStep(c).client)
    ensures UplinkConserved(w, StdinStep(c).client, full, partial)
  {
    full, partial := Lines.Complete(Typed(w, c.k), NEWLINE), "";
    var free := FreeSpace(c.writeBuffer);
    var g := SysRead(c.k, STDIN_FILENO, free);
    ReadGrows(w, c.k, STDIN_FILENO, free);
    if g.result.Count? && g.result.n > 0 {
      var b := Appended(c.writeBuffer, g.bytes);
      full, partial := DrainAppends(g.kernel, c.clientFd, b, NEWLINE);
      UplinkDrained(w, c, g.kernel, g.bytes, b, DrainTo(g.kernel, c.clientFd, b, NEWLINE), full, partial);
      full := Lines.Complete(Typed(w, c.k), NEWLINE) + full;
    } else {
      InSyncIsConserved(w, c);
      assert Typed(w, g.kernel) == Typed(w, c.k);
    }
  }

  lemma {:induction false} InSyncIsConserved(w: Wiring, c: Client)
    requires InSync(w, c)
    ensures UplinkConserved(w, c, Lines.Complete(Typed(w, c.k), NEWLINE), "")
  {
    Lines.CompleteAndRest(Typed(w, c.k), NEWLINE);
  }

  lemma {:induction false} ServerKeeps(w: Wiring, c: Client)
    requires Attached(w, c) && InSync(w, c)
    ensures InSync(w, ServerStep(c).client) && Attached(w, ServerStep(c).client)
  {
    var free := FreeSpace(c.readBuffer);
    var g := SysRead(c.k, c.clientFd, free);
    ReadGrows(w, c.k, c.clientFd, free);
    var heard, b := Heard(w, c.k), Appended(c.readBuffer, g.bytes);
    if g.result.Count? {
      StreamContinues(w.shown, heard, g.bytes);
      DrainedContents(b, NEWLINE);
    }
  }

  lemma {:induction false} SignalKeeps(w: Wiring, c: Client)
    requires Attached(w, c) && InSync(w, c)
    ensures InSync(w, SignalStep(c).client)
  {
    ReadGrows(w, c.k, c.signalFd, SIGINFO_SIZE);
  }

  // ----- whole sessions -----

  /** What every state of a session satisfies, the one after an exception included. */
  ghost predicate SessionKeeps(w: Wiring, s: Step) {
    HasChannels(w, s.client.k) && ValidClient(s.client) && DownlinkInSync(w, s.client) &&
    (s.outcome == Continue ==> Attached(w, s.client)) &&
    (s.outcome != Threw ==> InSync(w, s.client)) &&
    exists full, partial :: UplinkConserved(w, s.client, full, partial)
  }

  // The three events of a turn, each taken if it is there and nothing has ended the turn before.

  lemma {:induction false} StdinEventKeeps(w: Wiring, c: Client, event: bool)
    requires Attached(w, c) && InSync(w, c)
    ensures SessionKeeps(w, if event then StdinStep(c) else Step(Continue, c))
  {
    InSyncIsConserved(w, c);
    if event {
      var full, partial := StdinKeeps(w, c);
    }
  }

  lemma {:induction false} ServerEventKeeps(w: Wiring, s: Step, event: bool)
    requires SessionKeeps(w, s)
    ensures SessionKeeps(w, if event && s.outcome == Continue then ServerStep(s.client) else s)
  {
    if event && s.outcome == Continue {
      ServerKeeps(w, s.client);
      InSyncIsConserved(w, ServerStep(s.client).client);
    }
  }

  lemma {:induction false} SignalEventKeeps(w: Wiring, s: Step, event: bool)
    requires SessionKeeps(w, s)
    ensures SessionKeeps(w, if event && s.outcome == Continue then SignalStep(s.client) else s)
  {
    if event && s.outcome == Continue {
      SignalKeeps(w, s.client);
      InSyncIsConserved(w, SignalStep(s.client).client);
    }
  }

  lemma {:induction false} RoundKeeps(w: Wiring, c: Client, poll: Poll)
    requires Attached(w, c) && InSync(w, c)
    ensures SessionKeeps(w, Round(c, poll))
  {
    InSyncIsConserved(w, c);
    if poll.Ready? {
      StdinEventKeeps(w, c, poll.stdin);
      var s1 := if poll.stdin then StdinStep(c) else Step(Continue, c);
      ServerEventKeeps(w, s1, poll.server);
      var s2 := if poll.server && s1.outcome == Continue then ServerStep(s1.client) else s1;
      SignalEventKeeps(w, s2, poll.signal);
    }
  }

  /**
    Chunk-invariant framing and uplink conservation, for every session: however the bytes arrive and
    whatever the system calls do, the screen shows the server's complete lines and the buffer holds the
    rest; the wire holds the greeting and the complete lines typed and the buffer holds the rest, and if
    a write failed, nothing typed is lost, repeated or reordered.
   */
  lemma {:induction false} SessionStreams(w: Wiring, c: Client, polls: seq<Poll>)
    requires Attached(w, c) && InSync(w, c)
    ensures SessionKeeps(w, Session(c, polls))
    decreases |polls|
  {
    if polls == [] {
      InSyncIsConserved(w, c);
    } else {
      RoundKeeps(w, c, polls[0]);
      var s := Round(c, polls[0]);
      if s.outcome == Continue {
        SessionStreams(w, s.client, polls[1..]);
      }
    }
  }
}
