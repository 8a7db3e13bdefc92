/** Whole transfers over short, interrupted and failing system calls: `write_full` and `read_full`. */
module NetIo {
  import opened OperatingSystem
  import opened Wrappers

  // ----- writing -----

  datatype SendResult = SendResult(ok: bool, channel: Channel)

  /** Writes until everything is accepted; an interrupt retries, a count of 0 or an error gives up. */
  function SendAll(c: Channel, data: string): (r: SendResult)
    decreases |data|, |c.writeScript|
  {
    if data == "" then
      SendResult(true, c)
    else
      var w := Write(c, data);
      match w.result
      case Interrupted => SendAll(w.channel, data)
      case Failed => SendResult(false, w.channel)
      case Count(n) => if n == 0 then SendResult(false, w.channel) else SendAll(w.channel, data[n..])
  }

  function WriteAll(k: Kernel, fd: int, data: string): (r: (bool, Kernel))
    ensures r.1.table == k.table && r.1.closed == k.closed && |r.1.channels| == |k.channels|
  {
    if data == "" then (true, k)
    else if !IsOpen(k, fd) then (false, k)
    else
      var r := SendAll(ChannelOf(k, fd), data);
      (r.ok, WithChannel(k, fd, r.channel))
  }

  lemma {:induction false} WriteAllStep(k: Kernel, fd: int, data: string)
    requires data != ""
    ensures SysWrite(k, fd, data).result.Interrupted? ==>
              WriteAll(k, fd, data) == WriteAll(SysWrite(k, fd, data).kernel, fd, data)
    ensures SysWrite(k, fd, data).result.Failed? ==> WriteAll(k, fd, data) == (false, SysWrite(k, fd, data).kernel)
    ensures SysWrite(k, fd, data).result == Count(0) ==> WriteAll(k, fd, data) == (false, SysWrite(k, fd, data).kernel)
    ensures SysWrite(k, fd, data).result.Count? && SysWrite(k, fd, data).result.n > 0 ==>
              WriteAll(k, fd, data)
              == WriteAll(SysWrite(k, fd, data).kernel, fd, data[SysWrite(k, fd, data).result.n..])
  {
    if IsOpen(k, fd) {
      var id := k.table[fd];
      var w := Write(k.channels[id], data);
      var next := WithChannel(k, fd, w.channel);
      assert ChannelOf(next, fd) == w.channel;
      var rest := if w.result.Count? then data[w.result.n..] else data;
      var c := SendAll(w.channel, rest).channel;
      assert k.channels[id := w.channel][id := c] == k.channels[id := c];
    }
  }

  /** The return value is the length on success and -1 otherwise. */
  method Writen(os: OS, fd: int, data: string) returns (n: int)
    modifies os
    ensures (n == |data|, os.k) == WriteAll(old(os.k), fd, data)
    ensures n == |data| || n == -1
  {
    var ptr := 0;
    var nleft := |data|;
    assert data[0..] == data;
    while nleft > 0
      invariant 0 <= ptr <= |data| && nleft == |data| - ptr
      invariant WriteAll(os.k, fd, data[ptr..]) == WriteAll(old(os.k), fd, data)
      decreases nleft, if IsOpen(os.k, fd) then |ChannelOf(os.k, fd).writeScript| else 0
    {
      WriteAllStep(os.k, fd, data[ptr..]);
      var result := os.Write(fd, data[ptr..]);
      var nwritten := 0;
      if !result.Count? || result.n == 0 {
        if result.Interrupted? {
          nwritten := 0; // an interrupt moves nothing, and the loop goes on
        } else {
          return -1;
        }
      } else {
        nwritten := result.n;
      }
      assert data[ptr..][nwritten..] == data[ptr + nwritten..];
      nleft := nleft - nwritten;
      ptr := ptr + nwritten;
    }
    n := |data|;
  }

  method WriteFull(os: OS, fd: int, data: string) returns (r: Result<()>)
    modifies os
    ensures (r.Returned?, os.k) == WriteAll(old(os.k), fd, data)
  {
    var n := Writen(os, fd, data);
    r := if n != |data| then Thrown else Returned(());
  }

  // ----- reading -----

  datatype ReceiveResult = ReceiveResult(ok: bool, bytes: string, channel: Channel)

  /** Reads until n bytes or the end of file; an interrupt retries, an error gives up. */
  function ReceiveAll(c: Channel, n: nat): (r: ReceiveResult)
    ensures |r.bytes| <= n
    decreases n, |c.readScript|
  {
    if n == 0 then
      ReceiveResult(true, "", c)
    else
      var g := Read(c, n);
      match g.result
      case Interrupted => ReceiveAll(g.channel, n)
      case Failed => ReceiveResult(false, "", g.channel)
      case Count(m) =>
        if m == 0 then
          ReceiveResult(true, "", g.channel)
        else
          var rest := ReceiveAll(g.channel, n - m);
          ReceiveResult(rest.ok, g.bytes + rest.bytes, rest.channel)
  }

  datatype ReadAllResult = ReadAllResult(ok: bool, bytes: string, kernel: Kernel)

  function ReadAll(k: Kernel, fd: int, n: nat): (r: ReadAllResult)
    ensures |r.bytes| <= n
  {
    if n == 0 then ReadAllResult(true, "", k)
    else if !IsOpen(k, fd) then ReadAllResult(false, "", k)
    else
      var r := ReceiveAll(ChannelOf(k, fd), n);
      ReadAllResult(r.ok, r.bytes, WithChannel(k, fd, r.channel))
  }

  function Prepend(bytes: string, r: ReadAllResult): ReadAllResult {
    r.(bytes := bytes + r.bytes)
  }

  lemma {:induction false} ReadAllStep(k: Kernel, fd: int, n: nat)
    requires n > 0
    ensures SysRead(k, fd, n).result.Interrupted? ==> ReadAll(k, fd, n) == ReadAll(SysRead(k, fd, n).kernel, fd, n)
    ensures SysRead(k, fd, n).result.Failed? ==> ReadAll(k, fd, n) == ReadAllResult(false, "", SysRead(k, fd, n).kernel)
    ensures SysRead(k, fd, n).result == Count(0) ==>
              ReadAll(k, fd, n) == ReadAllResult(true, "", SysRead(k, fd, n).kernel)
    ensures SysRead(k, fd, n).result.Count? && SysRead(k, fd, n).result.n > 0 ==>
              ReadAll(k, fd, n) == Prepend(SysRead(k, fd, n).bytes,
                                           ReadAll(SysRead(k, fd, n).kernel, fd, n - SysRead(k, fd, n).result.n))
  {
    if IsOpen(k, fd) {
      var id := k.table[fd];
      var g := Read(k.channels[id], n);
      var next := WithChannel(k, fd, g.channel);
      assert ChannelOf(next, fd) == g.channel;
      var c := ReceiveAll(g.channel, n - if g.result.Count? then g.result.n else 0).channel;
      assert k.channels[id := g.channel][id := c] == k.channels[id := c];
    }
  }

  lemma {:induction false} PrependTwice(a: string, b: string, r: ReadAllResult)
    ensures Prepend(a, Prepend(b, r)) == Prepend(a + b, r)
    ensures Prepend("", r) == r
  {
    assert a + (b + r.bytes) == a + b + r.bytes;
    assert "" + r.bytes == r.bytes;
  }

  /** Half-way: `done` has been read, and reading nleft more gives what the whole transfer gives. */
  predicate Reading(k: Kernel, fd: int, nleft: nat, done: string, whole: ReadAllResult) {
    Prepend(done, ReadAll(k, fd, nleft)) == whole
  }

  lemma {:induction false} ReadingStep(k: Kernel, fd: int, nleft: nat, done: string, whole: ReadAllResult)
    requires nleft > 0 && Reading(k, fd, nleft, done, whole)
    ensures SysRead(k, fd, nleft).result.Interrupted? ==> Reading(SysRead(k, fd, nleft).kernel, fd, nleft, done, whole)
    ensures SysRead(k, fd, nleft).result.Failed? ==> !whole.ok && whole.kernel == SysRead(k, fd, nleft).kernel
    ensures SysRead(k, fd, nleft).result == Count(0) ==>
              whole == ReadAllResult(true, done, SysRead(k, fd, nleft).kernel)
    ensures SysRead(k, fd, nleft).result.Count? && SysRead(k, fd, nleft).result.n > 0 ==>
              Reading(SysRead(k, fd, nleft).kernel, fd, nleft - SysRead(k, fd, nleft).result.n,
                      done + SysRead(k, fd, nleft).bytes, whole)
  {
    ReadAllStep(k, fd, nleft);
    var g := SysRead(k, fd, nleft);
    if g.result.Count? && g.result.n > 0 {
      ReadingMore(done, g.bytes, ReadAll(g.kernel, fd, nleft - g.result.n), ReadAll(k, fd, nleft), whole);
    } else {
      assert done + "" == done;
    }
  }

  lemma {:induction false} ReadingMore(done: string, bytes: string, rest: ReadAllResult, all: ReadAllResult,
                                       whole: ReadAllResult)
    requires all == Prepend(bytes, rest) && Prepend(done, all) == whole
    ensures Prepend(done + bytes, rest) == whole
  {
    PrependTwice(done, bytes, rest);
  }

  lemma {:induction false} OverlayParts(before: string, ptr: nat, bytes: string, n: nat)
    requires ptr + |bytes| <= n <= |before|
    ensures Overlay(before, ptr, bytes)[..ptr] == before[..ptr]
    ensures Overlay(before, ptr, bytes)[..ptr + |bytes|] == before[..ptr] + bytes
    ensures Overlay(before, ptr, bytes)[n..] == before[n..]
  {
  }

  /** The bytes land at the start of `memory`; the return value counts them, or is -1. */
  method Readn(os: OS, fd: int, memory: array<char>, n: nat) returns (count: int)
    requires n <= memory.Length
    modifies os, memory
    ensures ReadAll(old(os.k), fd, n).ok <==> count >= 0
    ensures os.k == ReadAll(old(os.k), fd, n).kernel
    ensures count >= 0 ==> count <= n && memory[..count] == ReadAll(old(os.k), fd, n).bytes
    ensures memory[n..] == old(memory[n..])
  {
    ghost var whole := ReadAll(os.k, fd, n);
    var ptr := 0;
    var nleft := n;
    PrependTwice("", "", whole);
    while nleft > 0
      invariant 0 <= ptr <= n && nleft == n - ptr
      invariant Reading(os.k, fd, nleft, memory[..ptr], whole)
      invariant memory[n..] == old(memory[n..])
      decreases nleft, if IsOpen(os.k, fd) then |ChannelOf(os.k, fd).readScript| else 0
    {
      ReadingStep(os.k, fd, nleft, memory[..ptr], whole);
      OverlayParts(memory[..], ptr, SysRead(os.k, fd, nleft).bytes, n);
      var result := os.Read(fd, memory, ptr, nleft);
      var nread := 0;
      if !result.Count? {
        if result.Interrupted? {
          nread := 0; // an interrupt moves nothing, and the loop goes on
        } else {
          return -1;
        }
      } else if result.n == 0 {
        break; // the stream has ended
      } else {
        nread := result.n;
      }
      nleft := nleft - nread;
      ptr := ptr + nread;
    }
    count := n - nleft;
  }

  method ReadFull(os: OS, fd: int, memory: array<char>, n: nat) returns (r: Result<nat>)
    requires n <= memory.Length
    modifies os, memory
    ensures r.Returned? <==> ReadAll(old(os.k), fd, n).ok
    ensures os.k == ReadAll(old(os.k), fd, n).kernel
    ensures r.Returned? ==> r.value <= n && memory[..r.value] == ReadAll(old(os.k), fd, n).bytes
  {
    var count := Readn(os, fd, memory, n);
    r := if count < 0 then Thrown else Returned(count);
  }

  // ----- what a transfer guarantees -----

  /** A beginning of what is left, sent behind the first n bytes, is a beginning of the whole. */
  lemma SentBehind(sent: string, sent1: string, sent2: string, data: string, n: nat, done: string)
    requires n <= |data| && sent1 == sent + data[..n] && sent2 == sent1 + done && done <= data[n..]
    ensures data[..n] + done <= data && sent2 == sent + (data[..n] + done)
    ensures data[..n] + done == data <==> done == data[n..]
  {
    assert data == data[..n] + data[n..];
  }

  /**
    A successful transfer appends exactly the data; a failed one appends a proper prefix of it.
    Nothing else about the channel but its script changes.
   */
  lemma {:induction false} SendAllAppends(c: Channel, data: string)
    ensures var r := SendAll(c, data);
            exists done :: done <= data && r.channel.sent == c.sent + done && (r.ok <==> done == data)
    ensures SendAll(c, data).channel.delivered == c.delivered
    ensures SendAll(c, data).channel.incoming == c.incoming
    ensures SendAll(c, data).channel.readScript == c.readScript
    decreases |data|, |c.writeScript|
  {
    var r := SendAll(c, data);
    if data == "" {
      assert "" <= data && r.channel.sent == c.sent + "";
    } else {
      var w := Write(c, data);
      if w.result.Interrupted? {
        SendAllAppends(w.channel, data);
      } else if w.result.Count? && w.result.n > 0 {
        var n := w.result.n;
        SendAllAppends(w.channel, data[n..]);
        var done :| done <= data[n..] && r.channel.sent == w.channel.sent + done && (r.ok <==> done == data[n..]);
        SentBehind(c.sent, w.channel.sent, r.channel.sent, data, n, done);
        assert data[..n] + done <= data;
      } else {
        assert "" <= data && r.channel.sent == c.sent + "";
      }
    }
  }

  /**
    The bytes come off the front of the channel and are added to the delivered ones; a success
    takes exactly n bytes, or all there are before the end of file.
   */
  predicate Takes(c: Channel, n: nat, r: ReceiveResult) {
    c.incoming == r.bytes + r.channel.incoming &&
    r.channel.delivered == c.delivered + r.bytes &&
    r.channel.sent == c.sent &&
    (r.ok ==> |r.bytes| == Min(n, |c.incoming|))
  }

  lemma {:induction false} TakesMore(c: Channel, n: nat, bytes: string, mid: Channel, rest: ReceiveResult)
    requires |bytes| <= n && c.incoming == bytes + mid.incoming
    requires mid.delivered == c.delivered + bytes && mid.sent == c.sent
    requires Takes(mid, n - |bytes|, rest)
    ensures Takes(c, n, ReceiveResult(rest.ok, bytes + rest.bytes, rest.channel))
  {
    assert bytes + (rest.bytes + rest.channel.incoming) == bytes + rest.bytes + rest.channel.incoming;
    assert c.delivered + bytes + rest.bytes == c.delivered + (bytes + rest.bytes);
  }

  /** What a transfer takes, whether it returns it or loses it in an error, is accounted for. */
  lemma {:induction false} ReceiveAllTakes(c: Channel, n: nat)
    ensures Takes(c, n, ReceiveAll(c, n))
    decreases n, |c.readScript|
  {
    if n > 0 {
      var g := Read(c, n);
      if g.result.Interrupted? {
        ReceiveAllTakes(g.channel, n);
      } else if g.result.Count? && g.result.n > 0 {
        ReceiveAllTakes(g.channel, n - g.result.n);
        TakesMore(c, n, g.bytes, g.channel, ReceiveAll(g.channel, n - g.result.n));
      }
    }
  }

  /**
    Writing over one unreliable channel and reading what was accepted from another is the identity:
    if both transfers succeed, the reader holds exactly the data.
   */
  lemma {:induction false} TransferIdentity(writer: Channel, reader: Channel, data: string)
    requires SendAll(writer, data).ok
    requires SendAll(writer, data).channel.sent == writer.sent + reader.incoming
    requires ReceiveAll(reader, |data|).ok
    ensures ReceiveAll(reader, |data|).bytes == data
    ensures ReceiveAll(reader, |data|).channel.incoming == ""
  {
    SendAllAppends(writer, data);
    ReceiveAllTakes(reader, |data|);
    var sent := SendAll(writer, data).channel.sent;
    assert sent[|writer.sent|..] == data && sent[|writer.sent|..] == reader.incoming;
  }

  /**
    The same at the level of descriptors: a write touches one channel only, and appends the data,
    or a proper prefix of it when it fails.
   */
  lemma {:induction false} WriteAllAppends(k: Kernel, fd: int, data: string) returns (done: string)
    requires IsOpen(k, fd)
    ensures done <= data && (WriteAll(k, fd, data).0 <==> done == data)
    ensures IsOpen(WriteAll(k, fd, data).1, fd)
    ensures WriteAll(k, fd, data).1 == WithChannel(k, fd, ChannelOf(WriteAll(k, fd, data).1, fd))
    ensures Sends(ChannelOf(k, fd), ChannelOf(WriteAll(k, fd, data).1, fd), done)
  {
    if data == "" {
      done := "";
      assert k.channels[k.table[fd] := ChannelOf(k, fd)] == k.channels;
    } else {
      var c := ChannelOf(k, fd);
      SendAllAppends(c, data);
      var r := SendAll(c, data);
      done :| done <= data && r.channel.sent == c.sent + done && (r.ok <==> done == data);
    }
  }

  /** The channel after `text` was sent on it: only its script may differ otherwise. */
  predicate Sends(c: Channel, c': Channel, text: string) {
    c'.sent == c.sent + text && c'.delivered == c.delivered &&
    c'.incoming == c.incoming && c'.readScript == c.readScript
  }

  lemma {:induction false} SendsTwice(c0: Channel, c1: Channel, c2: Channel, a: string, b: string)
    requires Sends(c0, c1, a) && Sends(c1, c2, b)
    ensures Sends(c0, c2, a + b)
  {
    assert c0.sent + a + b == c0.sent + (a + b);
  }
}
