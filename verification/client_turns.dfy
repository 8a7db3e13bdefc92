/**
  What a turn of the client's loop does to bytes, descriptors and screen, told from its channels alone, and what
  enough turns come to: everything that was there to be read is shown or sent.
 */
module ClientTurns {
  import opened ClientModel
  import opened ClientSessions
  import opened OperatingSystem
  import opened ProtocolBuffer
  import opened Wrappers
  import Lines
  import NetIo

  const SERVER_READY := Ready(false, true, false)
  const STDIN_READY := Ready(true, false, false)
  const SIGNAL_READY := Ready(false, false, true)

  /** Only one channel is another one. */
  ghost predicate OnlyChannel(k: Kernel, k': Kernel, id: nat, c: Channel) {
    id < |k.channels| && k' == k.(channels := k.channels[id := c])
  }

  // ----- the server has sent something -----

  /** What `read` on the socket gives: bytes off the front of what is incoming, as many as fit. */
  function FromServer(c: Client): Got
    requires ValidClient(c) && IsOpen(c.k, c.clientFd)
  {
    Read(ChannelOf(c.k, c.clientFd), BUFFER_SIZE - c.readBuffer.size)
  }

  /**
    The bytes read are put behind the text held, its complete lines are printed, and the rest is held. A read that
    fails ends the loop and changes nothing else.
   */
  ghost predicate ServerEffect(c: Client, r: Step)
    requires ValidClient(c) && IsOpen(c.k, c.clientFd) && ValidClient(r.client)
  {
    var g := FromServer(c);
    OnlyChannel(c.k, r.client.k, c.k.table[c.clientFd], g.channel) &&
    if g.result.Count? then
      r.outcome == Continue &&
      r.client == c.(k := r.client.k, output := r.client.output, readBuffer := r.client.readBuffer) &&
      r.client.output == c.output + Lines.Complete(Contents(c.readBuffer) + g.bytes, NEWLINE) &&
      Contents(r.client.readBuffer) == Lines.Rest(Contents(c.readBuffer) + g.bytes, NEWLINE)
    else
      r.outcome == Threw && r.client == c.(k := r.client.k)
  }

  lemma {:induction false} ServerStepEffect(c: Client)
    requires ValidClient(c) && IsOpen(c.k, c.clientFd)
    ensures ServerEffect(c, ServerStep(c))
  {
    var g := FromServer(c);
    assert ServerStep(c).client.k == WithChannel(c.k, c.clientFd, g.channel);
    if g.result.Count? {
      DrainedContents(Appended(c.readBuffer, g.bytes), NEWLINE);
    }
  }

  lemma {:induction false} ServerTurn(c: Client)
    requires ValidClient(c) && IsOpen(c.k, c.clientFd)
    ensures ServerEffect(c, Round(c, SERVER_READY))
  {
    ServerStepEffect(c);
    assert Round(c, SERVER_READY) == ServerStep(c);
  }

  // ----- something has been typed -----

  /** No write of the script fails or takes nothing. */
  predicate Takes(script: seq<WriteOutcome>) {
    forall i | 0 <= i < |script| :: !script[i].WriteFailed? && (script[i].Accept? ==> script[i].most > 0)
  }

  lemma {:induction false} AllIsSent(c: Channel, data: string)
    requires Takes(c.writeScript)
    ensures NetIo.SendAll(c, data).ok && Takes(NetIo.SendAll(c, data).channel.writeScript)
    decreases |data|, |c.writeScript|
  {
    if data != "" {
      var w := Write(c, data);
      if w.result.Interrupted? {
        AllIsSent(w.channel, data);
      } else {
        AllIsSent(w.channel, data[w.result.n..]);
      }
    }
  }

  lemma {:induction false} AllIsDrained(k: Kernel, fd: int, b: Buf)
    requires ValidBuf(b) && IsOpen(k, fd) && Takes(ChannelOf(k, fd).writeScript)
    ensures var d := DrainTo(k, fd, b, NEWLINE);
            d.ok && IsOpen(d.kernel, fd) && Takes(ChannelOf(d.kernel, fd).writeScript)
    decreases b.size
  {
    var n := FirstLine(b, NEWLINE);
    if n > 0 {
      AllIsSent(ChannelOf(k, fd), b.mem[..n]);
      AllIsDrained(NetIo.WriteAll(k, fd, b.mem[..n]).1, fd, Compacted(b, n));
    }
  }

  /** What `read` on standard input gives. */
  function FromStdin(c: Client): Got
    requires ValidClient(c) && IsOpen(c.k, STDIN_FILENO)
  {
    Read(ChannelOf(c.k, STDIN_FILENO), BUFFER_SIZE - c.writeBuffer.size)
  }

  /** The client has stopped: it is unconnected and both descriptors are closed. */
  predicate Stopped(c: Client, c': Client) {
    !c'.connected && c'.clientFd == -1 && c'.signalFd == -1 &&
    c'.k.table == c.k.table - (if c.clientFd >= 0 then {c.clientFd} else {})
                            - (if c.signalFd >= 0 then {c.signalFd} else {}) &&
    c'.writeBuffer == c.writeBuffer && c'.readBuffer == c.readBuffer && c'.output == c.output
  }

  /** The channels after a turn on standard input that sends `text`. */
  ghost predicate TypedAndSent(k: Kernel, k': Kernel, stdin: nat, sock: nat, typed: Channel, text: string) {
    stdin < |k.channels| && sock < |k.channels| && k'.table == k.table && |k'.channels| == |k.channels| &&
    k'.channels[stdin] == typed &&
    k'.channels[sock] == k.channels[sock].(sent := k.channels[sock].sent + text,
                                           writeScript := k'.channels[sock].writeScript) &&
    forall id: nat | id < |k.channels| && id != stdin && id != sock :: k'.channels[id] == k.channels[id]
  }

  /** A text is sent on one channel. */
  ghost predicate OnlySent(k: Kernel, k': Kernel, sock: nat, text: string) {
    sock < |k.channels| && k'.table == k.table && |k'.channels| == |k.channels| &&
    k'.channels[sock] == k.channels[sock].(sent := k.channels[sock].sent + text,
                                           writeScript := k'.channels[sock].writeScript) &&
    k'.closed == k.closed && forall id: nat | id < |k.channels| && id != sock :: k'.channels[id] == k.channels[id]
  }

  lemma {:induction false} DrainKeepsIncoming(c: Channel, c': Channel, text: string)
    requires NetIo.Sends(c, c', text)
    ensures c' == c.(sent := c.sent + text, writeScript := c'.writeScript)
  {
  }

  /** Where all is taken, draining sends exactly the complete lines. */
  lemma {:induction false} LinesAreSent(k: Kernel, fd: int, b: Buf)
    requires ValidBuf(b) && IsOpen(k, fd) && Takes(ChannelOf(k, fd).writeScript)
    ensures var d := DrainTo(k, fd, b, NEWLINE);
            d.ok && Contents(d.buf) == Lines.Rest(Contents(b), NEWLINE) &&
            OnlySent(k, d.kernel, k.table[fd], Lines.Complete(Contents(b), NEWLINE)) &&
            Takes(d.kernel.channels[k.table[fd]].writeScript)
  {
    AllIsDrained(k, fd, b);
    var full, partial := DrainAppends(k, fd, b, NEWLINE);
    assert full + "" == full;
    DrainKeepsIncoming(ChannelOf(k, fd), ChannelOf(DrainTo(k, fd, b, NEWLINE).kernel, fd), full);
  }

  lemma {:induction false} ReadThenSent(k: Kernel, k': Kernel, k'': Kernel, stdin: nat, sock: nat, typed: Channel,
                                        text: string)
    requires stdin < |k.channels| && stdin != sock && k' == k.(channels := k.channels[stdin := typed])
    requires OnlySent(k', k'', sock, text)
    ensures TypedAndSent(k, k'', stdin, sock, typed, text)
  {
  }

  /**
    The bytes read are put behind the text held, its complete lines are sent, and the rest is held. A count of 0
    stops the client, and a read that fails ends the loop.
   */
  ghost predicate StdinEffect(c: Client, r: Step)
    requires ValidClient(c) && IsOpen(c.k, STDIN_FILENO) && IsOpen(c.k, c.clientFd) && ValidClient(r.client)
  {
    var g := FromStdin(c);
    if !g.result.Count? then
      r.outcome == Threw && r.client == c.(k := r.client.k) &&
      OnlyChannel(c.k, r.client.k, c.k.table[STDIN_FILENO], g.channel)
    else if g.bytes == "" then
      r.outcome == Broke && Stopped(c, r.client)
    else
      StdinSends(c, r, g, Contents(c.writeBuffer) + g.bytes)
  }

  ghost predicate StdinSends(c: Client, r: Step, g: Got, text: string)
    requires IsOpen(c.k, STDIN_FILENO) && IsOpen(c.k, c.clientFd) && ValidClient(r.client)
  {
    r.outcome == Continue && r.client == c.(k := r.client.k, writeBuffer := r.client.writeBuffer) &&
    Contents(r.client.writeBuffer) == Lines.Rest(text, NEWLINE) &&
    TypedAndSent(c.k, r.client.k, c.k.table[STDIN_FILENO], c.k.table[c.clientFd], g.channel,
                 Lines.Complete(text, NEWLINE)) &&
    Takes(r.client.k.channels[c.k.table[c.clientFd]].writeScript)
  }

  lemma {:induction false} StdinStepSends(c: Client)
    requires ValidClient(c) && IsOpen(c.k, STDIN_FILENO) && IsOpen(c.k, c.clientFd)
    requires c.k.table[STDIN_FILENO] != c.k.table[c.clientFd] && Takes(ChannelOf(c.k, c.clientFd).writeScript)
    requires FromStdin(c).bytes != ""
    ensures StdinSends(c, StdinStep(c), FromStdin(c), Contents(c.writeBuffer) + FromStdin(c).bytes)
  {
    var g := FromStdin(c);
    var k := WithChannel(c.k, STDIN_FILENO, g.channel);
    var b := Appended(c.writeBuffer, g.bytes);
    LinesAreSent(k, c.clientFd, b);
    ReadThenSent(c.k, k, DrainTo(k, c.clientFd, b, NEWLINE).kernel, c.k.table[STDIN_FILENO], c.k.table[c.clientFd],
                 g.channel, Lines.Complete(Contents(b), NEWLINE));
  }

  lemma {:induction false} StdinStepEnds(c: Client)
    requires ValidClient(c) && IsOpen(c.k, STDIN_FILENO) && FromStdin(c).result.Count? && FromStdin(c).bytes == ""
    ensures StdinStep(c).outcome == Broke && Stopped(c, StdinStep(c).client)
  {
  }

  lemma {:induction false} StdinTurn(c: Client)
    requires ValidClient(c) && IsOpen(c.k, STDIN_FILENO) && IsOpen(c.k, c.clientFd)
    requires c.k.table[STDIN_FILENO] != c.k.table[c.clientFd] && Takes(ChannelOf(c.k, c.clientFd).writeScript)
    ensures StdinEffect(c, Round(c, STDIN_READY))
  {
    assert Round(c, STDIN_READY) == StdinStep(c);
    var g := FromStdin(c);
    if g.bytes != "" {
      StdinStepSends(c);
    } else if g.result.Count? {
      StdinStepEnds(c);
    }
  }

  // ----- a signal, and polls that say nothing -----

  /** A whole record stops the client, and anything else is an exception that leaves everything as it is. */
  lemma {:induction false} SignalTurn(c: Client)
    requires ValidClient(c) && IsOpen(c.k, c.signalFd)
    ensures var r := Round(c, SIGNAL_READY);
            if WholeRecord(ChannelOf(c.k, c.signalFd)) then r.outcome == Broke && Stopped(c, r.client)
            else r.outcome == Threw && r.client == c.(k := r.client.k) && r.client.k.table == c.k.table
  {
    var g := Read(ChannelOf(c.k, c.signalFd), SIGINFO_SIZE);
    assert g.result == Count(128) <==> WholeRecord(ChannelOf(c.k, c.signalFd));
    assert Round(c, SIGNAL_READY) == SignalStep(c);
  }

  /** A turn with several events is one turn for each, in this order, up to the first that does not go on. */
  lemma {:induction false} TurnByTurn(c: Client, stdin: bool, server: bool, signal: bool)
    requires ValidClient(c)
    ensures var r1 := if stdin then Round(c, STDIN_READY) else Step(Continue, c);
            var r2 := if server && r1.outcome == Continue then Round(r1.client, SERVER_READY) else r1;
            var r3 := if signal && r2.outcome == Continue then Round(r2.client, SIGNAL_READY) else r2;
            Round(c, Ready(stdin, server, signal)) == r3
    ensures Round(c, PollInterrupted) == Step(Continue, c) && Round(c, PollFailed) == Step(Threw, c)
  {
    assert Round(c, STDIN_READY) == StdinStep(c);
    var s1 := if stdin then StdinStep(c) else Step(Continue, c);
    assert Round(s1.client, SERVER_READY) == ServerStep(s1.client);
    var s2 := if server && s1.outcome == Continue then ServerStep(s1.client) else s1;
    assert Round(s2.client, SIGNAL_READY) == SignalStep(s2.client);
  }

  // ----- enough turns -----

  /** How many of the polls are this one. */
  function CountOf(polls: seq<Poll>, poll: Poll): nat {
    if polls == [] then 0 else (if polls[0] == poll then 1 else 0) + CountOf(polls[1..], poll)
  }

  /** Every poll is this one, or was interrupted. */
  predicate Only(polls: seq<Poll>, poll: Poll) {
    forall i | 0 <= i < |polls| :: polls[i] == poll || polls[i] == PollInterrupted
  }

  lemma {:induction false} HeldIsShort(held: string, bytes: string, rest: string)
    requires ShortLines(held + (bytes + rest))
    ensures ShortLines(Lines.Rest(held + bytes, NEWLINE) + rest)
  {
    var s, t := held + bytes, Lines.Rest(held + bytes, NEWLINE);
    assert s + rest == held + (bytes + rest);
    forall j | 0 <= j <= |t + rest| ensures |Lines.Rest((t + rest)[..j], NEWLINE)| < BUFFER_SIZE {
      if j <= |t| {
        ShortLinesPrefix(s, rest);
        PartOfRestIsShort(s, j);
        assert (t + rest)[..j] == t[..j];
      } else {
        var m := j - |t|;
        assert (t + rest)[..j] == t + rest[..m];
        Lines.CompleteAppend(s, rest[..m], NEWLINE);
        assert (s + rest)[..|s| + m] == s + rest[..m];
      }
    }
  }

  lemma {:induction false} PartOfRestIsShort(s: string, j: nat)
    requires ShortLines(s) && j <= |Lines.Rest(s, NEWLINE)|
    ensures |Lines.Rest(Lines.Rest(s, NEWLINE)[..j], NEWLINE)| < BUFFER_SIZE
  {
    assert s[..|s|] == s;
  }

  /** What is held is shorter than the buffer, so there is room. */
  lemma {:induction false} ThereIsRoom(b: Buf, rest: string)
    requires ValidBuf(b) && NEWLINE !in Contents(b) && ShortLines(Contents(b) + rest)
    ensures b.size < BUFFER_SIZE
  {
    var held := Contents(b);
    assert (held + rest)[..|held|] == held;
    Lines.CompleteNone(held, NEWLINE);
  }

  lemma {:induction false} LinesContinue(output: string, held: string, bytes: string, rest: string)
    ensures output + Lines.Complete(held + bytes, NEWLINE)
            + Lines.Complete(Lines.Rest(held + bytes, NEWLINE) + rest, NEWLINE)
         == output + Lines.Complete(held + (bytes + rest), NEWLINE)
    ensures Lines.Rest(Lines.Rest(held + bytes, NEWLINE) + rest, NEWLINE)
         == Lines.Rest(held + (bytes + rest), NEWLINE)
  {
    assert held + bytes + rest == held + (bytes + rest);
    Lines.CompleteAppend(held + bytes, rest, NEWLINE);
  }

  /** Everything that was incoming on the socket has been read, and its complete lines are on the screen. */
  ghost predicate AllShown(c: Client, c': Client)
    requires ValidClient(c) && ValidClient(c') && IsOpen(c.k, c.clientFd)
  {
    var heard := Contents(c.readBuffer) + ChannelOf(c.k, c.clientFd).incoming;
    c'.output == c.output + Lines.Complete(heard, NEWLINE) &&
    Contents(c'.readBuffer) == Lines.Rest(heard, NEWLINE) &&
    c'.clientFd == c.clientFd && IsOpen(c'.k, c'.clientFd) && ChannelOf(c'.k, c'.clientFd).incoming == "" &&
    c'.connected == c.connected
  }

  lemma {:induction false} NothingToShow(c: Client)
    requires ValidClient(c) && IsOpen(c.k, c.clientFd) && NEWLINE !in Contents(c.readBuffer)
    requires ChannelOf(c.k, c.clientFd).incoming == ""
    ensures AllShown(c, c)
  {
    Lines.AppendNothing(Contents(c.readBuffer), "");
    Lines.NothingComplete(c.output, Contents(c.readBuffer), NEWLINE);
  }

  /**
    With nothing but the server to listen to and every line short enough, as many readable polls as there are
    bytes incoming are enough: every complete line is shown.
   */
  lemma {:induction false} EverythingIsShown(c: Client, polls: seq<Poll>)
    requires ValidClient(c) && IsOpen(c.k, c.clientFd) && NEWLINE !in Contents(c.readBuffer)
    requires ChannelOf(c.k, c.clientFd).readScript == []
    requires ShortLines(Contents(c.readBuffer) + ChannelOf(c.k, c.clientFd).incoming)
    requires Only(polls, SERVER_READY) && CountOf(polls, SERVER_READY) >= |ChannelOf(c.k, c.clientFd).incoming|
    ensures Session(c, polls).outcome == Continue && AllShown(c, Session(c, polls).client)
    decreases |polls|
  {
    if polls == [] {
      NothingToShow(c);
    } else if polls[0] == PollInterrupted {
      EverythingIsShown(c, polls[1..]);
    } else {
      var r, ch := Round(c, SERVER_READY), ChannelOf(c.k, c.clientFd);
      var g := FromServer(c);
      ServerTurn(c);
      ThereIsRoom(c.readBuffer, ch.incoming);
      HeldIsShort(Contents(c.readBuffer), g.bytes, g.channel.incoming);
      EverythingIsShown(r.client, polls[1..]);
      LinesContinue(c.output, Contents(c.readBuffer), g.bytes, g.channel.incoming);
    }
  }

  /** Everything that was incoming on standard input has been sent, line by line, and the client has stopped. */
  ghost predicate AllSent(c: Client, c': Client, stdin: nat, sock: nat)
    requires ValidClient(c) && stdin < |c.k.channels| && sock < |c.k.channels|
  {
    var typed := Contents(c.writeBuffer) + c.k.channels[stdin].incoming;
    sock < |c'.k.channels| &&
    c'.k.channels[sock].sent == c.k.channels[sock].sent + Lines.Complete(typed, NEWLINE) &&
    !c'.connected && c'.clientFd == -1 && c'.signalFd == -1 &&
    c'.k.table == c.k.table - (if c.clientFd >= 0 then {c.clientFd} else {})
                            - (if c.signalFd >= 0 then {c.signalFd} else {})
  }

  lemma {:induction false} NothingToSend(c: Client, c': Client, stdin: nat, sock: nat)
    requires ValidClient(c) && stdin < |c.k.channels| && sock < |c.k.channels| && Stopped(c, c')
    requires NEWLINE !in Contents(c.writeBuffer) && c.k.channels[stdin].incoming == ""
    requires sock < |c'.k.channels| && c'.k.channels[sock].sent == c.k.channels[sock].sent
    ensures AllSent(c, c', stdin, sock)
  {
    Lines.AppendNothing(Contents(c.writeBuffer), "");
    Lines.NothingComplete(c.k.channels[sock].sent, Contents(c.writeBuffer), NEWLINE);
  }

  /** A client attached to a standard input that ends, and to a socket that takes all; no line is too long. */
  ghost predicate Typing(c: Client, stdin: nat, sock: nat) {
    ValidClient(c) && IsOpen(c.k, STDIN_FILENO) && IsOpen(c.k, c.clientFd) && stdin != sock &&
    c.k.table[STDIN_FILENO] == stdin && c.k.table[c.clientFd] == sock && Takes(c.k.channels[sock].writeScript) &&
    c.k.channels[stdin].readScript == [] && NEWLINE !in Contents(c.writeBuffer) &&
    ShortLines(Contents(c.writeBuffer) + c.k.channels[stdin].incoming)
  }

  lemma {:induction false} TypingGoesOn(c: Client, stdin: nat, sock: nat)
    requires Typing(c, stdin, sock) && c.k.channels[stdin].incoming != ""
    ensures var r, g := Round(c, STDIN_READY), FromStdin(c);
            g.bytes != "" && StdinSends(c, r, g, Contents(c.writeBuffer) + g.bytes) && Typing(r.client, stdin, sock) &&
            c.k.channels[stdin].incoming == g.bytes + r.client.k.channels[stdin].incoming
  {
    var g := FromStdin(c);
    StdinTurn(c);
    ThereIsRoom(c.writeBuffer, c.k.channels[stdin].incoming);
    HeldIsShort(Contents(c.writeBuffer), g.bytes, g.channel.incoming);
  }

  lemma {:induction false} TypingEnds(c: Client, stdin: nat, sock: nat)
    requires Typing(c, stdin, sock) && c.k.channels[stdin].incoming == ""
    ensures Round(c, STDIN_READY).outcome == Broke && AllSent(c, Round(c, STDIN_READY).client, stdin, sock)
  {
    StdinTurn(c);
    NothingToSend(c, Round(c, STDIN_READY).client, stdin, sock);
  }

  lemma {:induction false} SentThenAll(c: Client, r: Step, g: Got, c': Client, stdin: nat, sock: nat)
    requires Typing(c, stdin, sock) && ValidClient(r.client) && StdinSends(c, r, g, Contents(c.writeBuffer) + g.bytes)
    requires c.k.channels[stdin].incoming == g.bytes + r.client.k.channels[stdin].incoming
    requires AllSent(r.client, c', stdin, sock)
    ensures AllSent(c, c', stdin, sock)
  {
    LinesContinue(c.k.channels[sock].sent, Contents(c.writeBuffer), g.bytes, r.client.k.channels[stdin].incoming);
  }

  /**
    With nothing but standard input to listen to, one readable poll more than there are bytes to the end of file is
    enough: every complete line is sent, and the client stops.
   */
  lemma {:induction false} EverythingIsSent(c: Client, stdin: nat, sock: nat, polls: seq<Poll>)
    requires Typing(c, stdin, sock) && Only(polls, STDIN_READY)
    requires CountOf(polls, STDIN_READY) > |c.k.channels[stdin].incoming|
    ensures Session(c, polls).outcome == Broke && AllSent(c, Session(c, polls).client, stdin, sock)
    decreases |polls|
  {
    if polls[0] == PollInterrupted {
      EverythingIsSent(c, stdin, sock, polls[1..]);
    } else if c.k.channels[stdin].incoming == "" {
      TypingEnds(c, stdin, sock);
    } else {
      var r, g := Round(c, STDIN_READY), FromStdin(c);
      TypingGoesOn(c, stdin, sock);
      EverythingIsSent(r.client, stdin, sock, polls[1..]);
      SentThenAll(c, r, g, Session(r.client, polls[1..]).client, stdin, sock);
    }
  }
}
