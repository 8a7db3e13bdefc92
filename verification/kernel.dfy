/**
  The operating system as the program sees it: a descriptor table over byte channels.

  Every opened channel gets a fresh identity, its index in `channels`, while descriptor numbers
  may be used again after a close. What each `read` and `write` call does is scripted: how many
  bytes it moves at most, whether a signal interrupts it, whether it fails. A script that has run
  out lets calls succeed in full, so a script is any finite run of misbehaviour.
 */
module OperatingSystem {

  datatype WriteOutcome = Accept(most: nat) | WriteInterrupted | WriteFailed

  datatype ReadOutcome = Deliver(most: nat) | ReadInterrupted | ReadFailed

  /**
    `sent`: bytes the program has written. `delivered`: bytes it has read. `incoming`: bytes still
    to be read before the end of file.
   */
  datatype Channel = Channel(sent: string, writeScript: seq<WriteOutcome>,
                             delivered: string, incoming: string, readScript: seq<ReadOutcome>)

  /** A channel that has carried nothing yet. */
  function Unused(c: Channel): Channel {
    c.(sent := "", delivered := "")
  }

  /** A system call's return: a count, or -1 with errno EINTR, or -1 with any other errno. */
  datatype SysResult = Count(n: nat) | Interrupted | Failed

  /** What `read` on a signal descriptor delivers at a time: one `signalfd_siginfo`. */
  const SIGINFO_SIZE := 128

  /** The next `read` of a whole signal record succeeds. */
  predicate WholeRecord(c: Channel) {
    |c.incoming| >= 128 && (c.readScript == [] || (c.readScript[0].Deliver? && c.readScript[0].most >= 128))
  }

  function Min(a: nat, b: nat): nat {
    if a < b then a else b
  }

  // ----- write and read on a channel -----

  datatype Written = Written(result: SysResult, channel: Channel)

  function Write(c: Channel, data: string): (w: Written)
    ensures w.result.Count? ==> w.result.n <= |data| && w.channel.sent == c.sent + data[..w.result.n]
    ensures !w.result.Count? ==> w.channel.sent == c.sent
    ensures w.result.Interrupted? ==> |w.channel.writeScript| < |c.writeScript|
    ensures w.channel == c.(sent := w.channel.sent, writeScript := w.channel.writeScript)
  {
    if c.writeScript == [] then
      Written(Count(|data|), c.(sent := c.sent + data))
    else
      var after := c.(writeScript := c.writeScript[1..]);
      match c.writeScript[0]
      case WriteInterrupted => Written(Interrupted, after)
      case WriteFailed => Written(Failed, after)
      case Accept(most) =>
        var n := Min(most, |data|);
        Written(Count(n), after.(sent := c.sent + data[..n]))
  }

  datatype Got = Got(result: SysResult, bytes: string, channel: Channel)

  /** A count of 0 means that nothing was asked for or that the end of file is reached. */
  function Read(c: Channel, max: nat): (g: Got)
    ensures g.result.Count? ==> g.result.n == |g.bytes| <= max
    ensures g.result.Count? && g.result.n == 0 <==> g.result.Count? && (max == 0 || c.incoming == "")
    ensures !g.result.Count? ==> g.bytes == ""
    ensures g.result.Interrupted? ==> |g.channel.readScript| < |c.readScript|
    ensures g.channel.delivered == c.delivered + g.bytes
    ensures c.incoming == g.bytes + g.channel.incoming
    ensures g.channel.sent == c.sent && g.channel.writeScript == c.writeScript
  {
    if c.readScript == [] then
      Take(c, Min(max, |c.incoming|))
    else
      var after := c.(readScript := c.readScript[1..]);
      match c.readScript[0]
      case ReadInterrupted => Got(Interrupted, "", after)
      case ReadFailed => Got(Failed, "", after)
      case Deliver(most) => Take(after, Min(Min(max, |c.incoming|), if most == 0 then 1 else most))
  }

  function Take(c: Channel, n: nat): Got
    requires n <= |c.incoming|
  {
    Got(Count(n), c.incoming[..n], c.(delivered := c.delivered + c.incoming[..n], incoming := c.incoming[n..]))
  }

  // ----- the descriptor table -----

  /** `closed` is the order in which channels were closed, by identity. */
  datatype Kernel = Kernel(table: map<int, nat>, channels: seq<Channel>, closed: seq<nat>)

  predicate ValidKernel(k: Kernel) {
    forall fd | fd in k.table :: fd >= 0 && k.table[fd] < |k.channels|
  }

  predicate IsOpen(k: Kernel, fd: int) {
    fd in k.table && k.table[fd] < |k.channels|
  }

  function ChannelOf(k: Kernel, fd: int): Channel
    requires IsOpen(k, fd)
  {
    k.channels[k.table[fd]]
  }

  function WithChannel(k: Kernel, fd: int, c: Channel): Kernel
    requires IsOpen(k, fd)
  {
    k.(channels := k.channels[k.table[fd] := c])
  }

  /** A descriptor number the kernel can hand out. */
  predicate CanOpen(k: Kernel, fd: int) {
    fd >= 0 && fd !in k.table
  }

  function OpenFd(k: Kernel, fd: int, c: Channel): (k': Kernel)
    requires CanOpen(k, fd)
    ensures ValidKernel(k) ==> ValidKernel(k')
  {
    Kernel(k.table[fd := |k.channels|], k.channels + [Unused(c)], k.closed)
  }

  function CloseFd(k: Kernel, fd: int): (k': Kernel)
    ensures ValidKernel(k) ==> ValidKernel(k')
  {
    if fd in k.table then Kernel(k.table - {fd}, k.channels, k.closed + [k.table[fd]]) else k
  }

  datatype SysWritten = SysWritten(result: SysResult, kernel: Kernel)

  function SysWrite(k: Kernel, fd: int, data: string): (w: SysWritten)
    ensures w.result.Count? ==> w.result.n <= |data|
    ensures w.kernel.table == k.table && w.kernel.closed == k.closed && |w.kernel.channels| == |k.channels|
  {
    if !IsOpen(k, fd) then
      SysWritten(Failed, k)
    else
      var w := Write(ChannelOf(k, fd), data);
      SysWritten(w.result, WithChannel(k, fd, w.channel))
  }

  datatype SysGot = SysGot(result: SysResult, bytes: string, kernel: Kernel)

  function SysRead(k: Kernel, fd: int, max: nat): (g: SysGot)
    ensures g.result.Count? ==> g.result.n == |g.bytes| <= max
    ensures !g.result.Count? ==> g.bytes == ""
    ensures g.kernel.table == k.table && g.kernel.closed == k.closed && |g.kernel.channels| == |k.channels|
  {
    if !IsOpen(k, fd) then
      SysGot(Failed, "", k)
    else
      var g := Read(ChannelOf(k, fd), max);
      SysGot(g.result, g.bytes, WithChannel(k, fd, g.channel))
  }

  // ----- the kernel as an object that system calls change -----

  /** The text of a memory area after bytes are stored at an offset. */
  function Overlay(memory: string, offset: nat, bytes: string): (m: string)
    requires offset + |bytes| <= |memory|
    ensures |m| == |memory|
  {
    memory[..offset] + bytes + memory[offset + |bytes|..]
  }

  class OS {
    var k: Kernel

    constructor (k: Kernel)
      ensures this.k == k
    {
      this.k := k;
    }

    method Write(fd: int, data: string) returns (result: SysResult)
      modifies this
      ensures SysWritten(result, k) == SysWrite(old(k), fd, data)
    {
      var w := SysWrite(k, fd, data);
      k := w.kernel;
      result := w.result;
    }

    /** Reads at most `max` bytes into `memory` at `offset`. */
    method Read(fd: int, memory: array<char>, offset: nat, max: nat) returns (result: SysResult)
      requires offset + max <= memory.Length
      modifies this, memory
      ensures result == SysRead(old(k), fd, max).result && k == SysRead(old(k), fd, max).kernel
      ensures memory[..] == Overlay(old(memory[..]), offset, SysRead(old(k), fd, max).bytes)
    {
      var g := SysRead(k, fd, max);
      ghost var before := memory[..];
      for i := 0 to |g.bytes|
        invariant memory[..] == Overlay(before, offset, g.bytes[..i])
        invariant k == old(k)
      {
        memory[offset + i] := g.bytes[i];
        assert g.bytes[..i + 1] == g.bytes[..i] + [g.bytes[i]];
      }
      assert g.bytes[..|g.bytes|] == g.bytes;
      k := g.kernel;
      result := g.result;
    }

    method Close(fd: int)
      modifies this
      ensures k == CloseFd(old(k), fd)
    {
      k := CloseFd(k, fd);
    }

    method Open(fd: int, c: Channel)
      requires CanOpen(k, fd)
      modifies this
      ensures k == OpenFd(old(k), fd, c)
    {
      k := OpenFd(k, fd, c);
    }
  }
}
