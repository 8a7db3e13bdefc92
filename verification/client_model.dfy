/**
  The chat client as a state machine: what one round of its event loop does, and what every
  session keeps. The class `ChatClients.ChatClient` is proved to take exactly these steps.
 */
module ClientModel {
  import opened OperatingSystem
  import opened ProtocolBuffer
  import opened Wrappers
  import Lines
  import NetIo
  import NetUtils

  const STDIN_FILENO := 0

  datatype Client = Client(connected: bool, clientFd: int, signalFd: int,
                           writeBuffer: Buf, readBuffer: Buf, output: string, k: Kernel)

  datatype Step = Step(outcome: Outcome, client: Client)

  /** One return of `poll`: an error, or which of the three descriptors are readable. */
  datatype Poll = PollInterrupted | PollFailed | Ready(stdin: bool, server: bool, signal: bool)

  predicate ValidClient(c: Client) {
    ValidBuf(c.writeBuffer) && ValidBuf(c.readBuffer)
  }

  /** `read` at the end of the used part, then `increase_size`. */
  function Appended(b: Buf, bytes: string): (b': Buf)
    requires ValidBuf(b) && |bytes| <= FreeSpace(b)
    ensures ValidBuf(b') && Contents(b') == Contents(b) + bytes
  {
    Buf(Overlay(b.mem, b.size, bytes), b.size + |bytes|)
  }

  lemma {:induction false} AppendingNothing(b: Buf, bytes: string)
    requires ValidBuf(b) && bytes == ""
    ensures Appended(b, bytes) == b
  {
    assert Overlay(b.mem, b.size, bytes) == b.mem;
  }

  function Stop(c: Client): Client {
    var k := NetUtils.CloseIfValid(NetUtils.CloseIfValid(c.k, c.signalFd), c.clientFd);
    c.(connected := false, clientFd := -1, signalFd := -1, k := k)
  }

  /** Standard input is ready: a count of 0 stops the client, other bytes are buffered and complete lines sent on. */
  function StdinStep(c: Client): (s: Step)
    requires ValidClient(c)
    ensures ValidClient(s.client)
  {
    var g := SysRead(c.k, STDIN_FILENO, FreeSpace(c.writeBuffer));
    var c' := c.(k := g.kernel);
    if !g.result.Count? then Step(Threw, c')
    else if g.result.n == 0 then Step(Broke, Stop(c'))
    else
      var d := DrainTo(c'.k, c.clientFd, Appended(c.writeBuffer, g.bytes), NEWLINE);
      Step(if d.ok then Continue else Threw, c'.(k := d.kernel, writeBuffer := d.buf))
  }

  /** The socket is ready: bytes are buffered and complete lines printed. A count of 0 changes nothing. */
  function ServerStep(c: Client): (s: Step)
    requires ValidClient(c)
    ensures ValidClient(s.client)
  {
    var g := SysRead(c.k, c.clientFd, FreeSpace(c.readBuffer));
    var c' := c.(k := g.kernel);
    if !g.result.Count? then Step(Threw, c')
    else
      var b := Appended(c.readBuffer, g.bytes);
      Step(Continue, c'.(readBuffer := Drained(b, NEWLINE), output := c.output + Lines.Complete(Contents(b), NEWLINE)))
  }

  function SignalStep(c: Client): (s: Step)
    requires ValidClient(c)
    ensures ValidClient(s.client)
  {
    var g := SysRead(c.k, c.signalFd, SIGINFO_SIZE);
    var c' := c.(k := g.kernel);
    if g.result == Count(SIGINFO_SIZE) then Step(Broke, Stop(c')) else Step(Threw, c')
  }

  function Round(c: Client, poll: Poll): (s: Step)
    requires ValidClient(c)
    ensures ValidClient(s.client)
  {
    match poll
    case PollInterrupted => Step(Continue, c)
    case PollFailed => Step(Threw, c)
    case Ready(stdin, server, signal) =>
      var s1 := if stdin then StdinStep(c) else Step(Continue, c);
      var s2 := if server && s1.outcome == Continue then ServerStep(s1.client) else s1;
      if signal && s2.outcome == Continue then SignalStep(s2.client) else s2
  }

  /** The event loop over any finite sequence of polls. */
  function Session(c: Client, polls: seq<Poll>): (s: Step)
    requires ValidClient(c)
    ensures ValidClient(s.client)
    decreases |polls|
  {
    if polls == [] then
      Step(Continue, c)
    else
      var s := Round(c, polls[0]);
      if s.outcome == Continue then Session(s.client, polls[1..]) else s
  }

  // ----- connecting -----

  const MAX_NAME_LEN := 32

  /** How the system calls of `run` turn out, with the descriptors and channels they produce. */
  datatype Startup =
    | SocketFails
    | ConnectFails(fd: int, channel: Channel)
    | SignalFails(fd: int, channel: Channel)
    | Starts(fd: int, channel: Channel, signalFd: int, signalChannel: Channel)

  function FailedStart(c: Client, fd: int, k: Kernel): Step {
    Step(Threw, c.(k := CloseFd(k, fd)))
  }

  /**
    `run`: the socket is owned by a temporary until everything has succeeded, so every failure closes
    it. The signal descriptor is assigned before the name is sent, and stays open if that fails.
   */
  function RunClient(c: Client, name: string, startup: Startup): (s: Step)
    requires ValidClient(c)
    ensures ValidClient(s.client)
  {
    if c.connected || startup.SocketFails? || !CanOpen(c.k, startup.fd) then
      Step(Threw, c)
    else
      var k1 := OpenFd(c.k, startup.fd, startup.channel);
      if !startup.Starts? || !CanOpen(k1, startup.signalFd) then
        FailedStart(c, startup.fd, k1)
      else
        var k2 := NetUtils.CloseIfValid(OpenFd(k1, startup.signalFd, startup.signalChannel), c.signalFd);
        var c' := c.(signalFd := startup.signalFd);
        var w := NetIo.WriteAll(k2, startup.fd, name + "\n");
        if !w.0 then FailedStart(c', startup.fd, w.1)
        else Step(Continue, c'.(connected := true, clientFd := startup.fd, k := NetUtils.CloseIfValid(w.1, c.clientFd)))
  }

  // ----- any use of the client object -----

  datatype Action = Run(name: string, startup: Startup) | Loop(polls: seq<Poll>) | StopClient

  function Act(c: Client, a: Action): (c': Client)
    requires ValidClient(c)
    ensures ValidClient(c')
  {
    match a
    case Run(name, startup) => RunClient(c, name, startup).client
    case Loop(polls) => if c.connected then Session(c, polls).client else c
    case StopClient => Stop(c)
  }

  function Execute(c: Client, actions: seq<Action>): (c': Client)
    requires ValidClient(c)
    ensures ValidClient(c')
    decreases |actions|
  {
    if actions == [] then c else Execute(Act(c, actions[0]), actions[1..])
  }

  /** A client object just constructed. */
  predicate Constructed(c: Client) {
    ValidClient(c) && !c.connected && c.clientFd == -1 && c.signalFd == -1 &&
    Contents(c.writeBuffer) == "" && Contents(c.readBuffer) == "" && c.output == ""
  }
}
