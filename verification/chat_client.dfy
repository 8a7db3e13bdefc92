/** `chat::ChatClient`: the client object, proved to take the steps of `ClientModel`. */
module ChatClients {
  import opened ClientModel
  import opened NetUtils
  import opened OperatingSystem
  import opened ProtocolBuffer
  import opened Wrappers
  import Lines
  import NetIo

  lemma {:induction false} SessionFrom(c: Client, polls: seq<Poll>, i: nat)
    requires ValidClient(c) && c.connected && i < |polls|
    ensures var s := Round(c, polls[i]);
            (s.outcome == Continue ==> s.client.connected) &&
            Session(c, polls[i..]) == if s.outcome == Continue then Session(s.client, polls[i + 1..]) else s
  {
    assert polls[i..][0] == polls[i] && polls[i..][1..] == polls[i + 1..];
  }

  class ChatClient {
    const os: OS
    var connected: bool
    const clientFd: ScopedFileDescriptor
    const signalFd: ScopedFileDescriptor
    var clientName: string
    const readBuffer: Buffer
    const writeBuffer: Buffer
    var output: string // what has been printed

    ghost predicate Valid()
      reads this, readBuffer, readBuffer.mem, writeBuffer, writeBuffer.mem
    {
      readBuffer.Valid() && writeBuffer.Valid() &&
      readBuffer != writeBuffer && readBuffer.mem != writeBuffer.mem && clientFd != signalFd
    }

    ghost function State(): (c: Client)
      requires Valid()
      reads this, os, clientFd, signalFd, readBuffer, readBuffer.mem, writeBuffer, writeBuffer.mem
      ensures ValidClient(c)
    {
      Client(connected, clientFd.fd_, signalFd.fd_, writeBuffer.Value(), readBuffer.Value(), output, os.k)
    }

    constructor (os: OS)
      ensures Valid() && fresh(clientFd) && fresh(signalFd)
      ensures fresh(readBuffer) && fresh(readBuffer.mem) && fresh(writeBuffer) && fresh(writeBuffer.mem)
      ensures this.os == os && clientName == "No Name"
      ensures Constructed(State())
    {
      this.os := os;
      connected := false;
      clientFd := new ScopedFileDescriptor(-1);
      signalFd := new ScopedFileDescriptor(-1);
      clientName := "No Name";
      readBuffer := new Buffer();
      writeBuffer := new Buffer();
      output := "";
    }

    method SetName(name: string) returns (r: Result<()>)
      modifies this`clientName
      ensures r.Returned? <==> 0 < |name| <= MAX_NAME_LEN
      ensures clientName == if r.Returned? then name else old(clientName)
    {
      if name == "" {
        return Thrown;
      }
      if |name| > MAX_NAME_LEN {
        return Thrown;
      }
      clientName := name;
      r := Returned(());
    }

    method Stop()
      requires Valid()
      modifies this`connected, clientFd, signalFd, os
      ensures Valid() && State() == ClientModel.Stop(old(State()))
    {
      signalFd.Reset(os, -1);
      clientFd.Reset(os, -1);
      connected := false;
    }

    /**
      `startup` scripts the socket, connect and signalfd calls. Whatever fails, the temporary owner of
      the new socket closes it.
     */
    method Connect(startup: Startup, ghost c: Client) returns (r: Result<()>)
      requires ValidClient(c) && !c.connected && clientFd != signalFd
      requires c.k == os.k && c.clientFd == clientFd.fd_ && c.signalFd == signalFd.fd_
      modifies clientFd, signalFd, os
      ensures RunClient(c, clientName, startup).outcome == if r.Returned? then Continue else Threw
      ensures RunClient(c, clientName, startup).client
           == c.(connected := r.Returned?, clientFd := clientFd.fd_, signalFd := signalFd.fd_, k := os.k)
    {
      if startup.SocketFails? || !CanOpen(os.k, startup.fd) {
        return Thrown;
      }
      os.Open(startup.fd, startup.channel);
      var tempSocket := new ScopedFileDescriptor(startup.fd);
      if !startup.Starts? || !CanOpen(os.k, startup.signalFd) {
        tempSocket.Destroy(os);
        return Thrown;
      }
      os.Open(startup.signalFd, startup.signalChannel);
      var tempSignal := new ScopedFileDescriptor(startup.signalFd);
      signalFd.MoveAssign(os, tempSignal);
      tempSignal.Destroy(os);
      var name := clientName + "\n";
      r := NetIo.WriteFull(os, tempSocket.fd_, name);
      if r.Thrown? {
        tempSocket.Destroy(os);
        return Thrown;
      }
      clientFd.MoveAssign(os, tempSocket);
      tempSocket.Destroy(os);
    }

    method Run(startup: Startup) returns (r: Result<()>)
      requires Valid()
      modifies this`connected, clientFd, signalFd, os
      ensures Valid()
      ensures Step(if r.Returned? then Continue else Threw, State()) == RunClient(old(State()), clientName, startup)
    {
      if connected {
        return Thrown;
      }
      r := Connect(startup, State());
      if r.Returned? {
        connected := true;
      }
    }

    /** Reads into the free end of a buffer; the count always fits, so `increase_size` never throws. */
    method Fill(buffer: Buffer, fd: int) returns (result: SysResult)
      requires Valid() && (buffer == readBuffer || buffer == writeBuffer)
      modifies buffer, buffer.mem, os
      ensures Valid()
      ensures result == SysRead(old(os.k), fd, FreeSpace(old(buffer.Value()))).result
      ensures os.k == SysRead(old(os.k), fd, FreeSpace(old(buffer.Value()))).kernel
      ensures buffer.Value()
           == Appended(old(buffer.Value()), SysRead(old(os.k), fd, FreeSpace(old(buffer.Value()))).bytes)
    {
      result := os.Read(fd, buffer.mem, buffer.size_, BUFFER_SIZE - buffer.size_);
      if result.Count? {
        var grown := buffer.IncreaseSize(result.n);
        assert grown.Returned?;
      }
    }

    method HandleStdin() returns (outcome: Outcome)
      requires Valid()
      modifies this`connected, clientFd, signalFd, writeBuffer, writeBuffer.mem, os
      ensures Valid() && Step(outcome, State()) == StdinStep(old(State()))
    {
      AppendingNothing(writeBuffer.Value(), "");
      var result := Fill(writeBuffer, STDIN_FILENO);
      if !result.Count? {
        return Threw;
      }
      if result.n == 0 {
        Stop();
        return Broke;
      }
      var drained := writeBuffer.ConsumeFullTo(os, clientFd.fd_, NEWLINE);
      outcome := if drained.Returned? then Continue else Threw;
    }

    method HandleServer() returns (outcome: Outcome)
      requires Valid()
      modifies this`output, readBuffer, readBuffer.mem, os
      ensures Valid() && Step(outcome, State()) == ServerStep(old(State()))
    {
      AppendingNothing(readBuffer.Value(), "");
      var result := Fill(readBuffer, clientFd.fd_);
      if !result.Count? {
        return Threw;
      }
      ShowLines();
      outcome := Continue;
    }

    /** Prints all complete lines of the read buffer. */
    method ShowLines()
      requires Valid()
      modifies this`output, readBuffer, readBuffer.mem
      ensures Valid()
      ensures State() == old(State()).(readBuffer := Drained(old(State()).readBuffer, NEWLINE),
                output := old(output) + Lines.Complete(Contents(old(State()).readBuffer), NEWLINE))
    {
      ghost var c := State();
      var serverMessages := readBuffer.ConsumeFull(NEWLINE);
      assert readBuffer.Value() == Drained(c.readBuffer, NEWLINE);
      if |serverMessages| > 0 {
        output := output + serverMessages;
      } else {
        Lines.AppendNothing(output, serverMessages);
      }
    }

    method HandleSignal() returns (outcome: Outcome)
      requires Valid()
      modifies this`connected, clientFd, signalFd, os
      ensures Valid() && Step(outcome, State()) == SignalStep(old(State()))
    {
      var siginfo := new char[SIGINFO_SIZE];
      var n := os.Read(signalFd.fd_, siginfo, 0, SIGINFO_SIZE);
      if n != Count(SIGINFO_SIZE) {
        return Threw;
      }
      Stop();
      outcome := Broke;
    }

    method HandlePoll(poll: Poll) returns (outcome: Outcome)
      requires Valid()
      modifies this`connected, this`output, clientFd, signalFd, readBuffer, readBuffer.mem, writeBuffer,
               writeBuffer.mem, os
      ensures Valid() && Step(outcome, State()) == Round(old(State()), poll)
    {
      if poll.PollInterrupted? {
        return Continue;
      }
      if poll.PollFailed? {
        return Threw;
      }
      outcome := Continue;
      if poll.stdin {
        outcome := HandleStdin();
        if outcome != Continue {
          return;
        }
      }
      if poll.server {
        outcome := HandleServer();
        if outcome != Continue {
          return;
        }
      }
      if poll.signal {
        outcome := HandleSignal();
      }
    }

    /** Runs until the client stops, an exception leaves the loop, or the script of polls ends. */
    method EventLoop(polls: seq<Poll>) returns (outcome: Outcome)
      requires Valid()
      modifies this`connected, this`output, clientFd, signalFd, readBuffer, readBuffer.mem, writeBuffer,
               writeBuffer.mem, os
      ensures Valid()
      ensures !old(connected) ==> outcome == Threw && State() == old(State())
      ensures old(connected) ==> Step(outcome, State()) == Session(old(State()), polls)
    {
      if !connected {
        return Threw;
      }
      outcome := Continue;
      var i := 0;
      ghost var whole := Session(State(), polls);
      assert polls[0..] == polls;
      while connected && i < |polls|
        invariant Valid() && 0 <= i <= |polls| && outcome == Continue && connected
        invariant Session(State(), polls[i..]) == whole
        decreases |polls| - i
      {
        SessionFrom(State(), polls, i);
        outcome := HandlePoll(polls[i]);
        if outcome != Continue {
          return;
        }
        i := i + 1;
      }
    }
  }
}
