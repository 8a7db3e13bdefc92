/**
  The steps of `ServerModel` cut into the pieces that the methods of the server object carry out one after
  the other, and proofs that the pieces make up the step.
 */
module ServerSteps {
  import opened OperatingSystem
  import opened ProtocolBuffer
  import opened ServerModel
  import opened Wrappers

  // ----- removing and starting -----

  /** Starting has nothing to do with the clients there are. */
  lemma RunServerSetsUp(s: Server, startup: Startup)
    requires ValidServer(s) && !s.running
    ensures var r := RunServer(s.(clients := [], h := NO_HISTORY), startup);
            RunServer(s, startup) == Step(r.outcome, r.server.(clients := s.clients, h := s.h))
  {
  }

  // ----- what is done with a chunk, step by step -----

  /** The server with a chunk put into the buffer of slot i. */
  ghost function Filled(s: Server, i: nat, bytes: string): (s': Server)
    requires ValidServer(s) && i < |s.clients| && |bytes| <= FreeSpace(s.clients[i].buffer)
    ensures ValidServer(s') && |s'.clients| == |s.clients|
  {
    Noted(s, i, bytes).(clients := s.clients[i := s.clients[i].(buffer := ReadAtStart(s.clients[i].buffer, bytes))])
  }

  /** What a slot held just before does not matter to what is delivered for it. */
  lemma PublishLast(s: Server, i: nat, before: Slot, c: Chunked)
    requires ValidServer(s) && i < |s.clients|
    requires ValidBuf(before.buffer) && before.fd == s.clients[i].fd
    requires ValidBuf(c.slot.buffer) && c.slot.fd == s.clients[i].fd
    ensures Publish(s.(clients := s.clients[i := before]), i, c) == Publish(s, i, c)
  {
    assert s.clients[i := before][i := c.slot] == s.clients[i := c.slot];
  }

  lemma HandleChunkReplies(s: Server, i: nat, bytes: string)
    requires ValidServer(s) && i < |s.clients| && |bytes| <= FreeSpace(s.clients[i].buffer)
    ensures HandleChunk(s, i, bytes) == Publish(Filled(s, i, bytes), i, TakeTurn(Filled(s, i, bytes).clients[i]))
  {
    PublishLast(Noted(s, i, bytes), i, Filled(s, i, bytes).clients[i], TakeChunk(s.clients[i], bytes));
  }

  ghost function ChunkRead(s: Server, i: nat): SysGot
    requires ValidServer(s) && i < |s.clients|
  {
    Input(s.k, s.clients[i])
  }

  ghost function AfterReceiving(s: Server, i: nat): (s': Server)
    requires ValidServer(s) && i < |s.clients|
    ensures ValidServer(s') && |s'.clients| == |s.clients|
  {
    var g := ChunkRead(s, i);
    var s' := s.(k := g.kernel);
    if g.result.Count? && g.result.n > 0 then Filled(s', i, g.bytes) else s'
  }

  lemma ReadNothing(b: Buf)
    requires ValidBuf(b)
    ensures ReadAtStart(b, "") == b
  {
    assert Overlay(b.mem, 0, "") == b.mem;
  }

  lemma AfterReceivingIs(s: Server, i: nat)
    requires ValidServer(s) && i < |s.clients|
    ensures AfterReceiving(s, i) ==
            Server(s.running, s.listenFd, s.signalFd,
                   s.clients[i := s.clients[i].(buffer := ReadAtStart(s.clients[i].buffer, ChunkRead(s, i).bytes))],
                   ChunkRead(s, i).kernel, AfterReceiving(s, i).h)
  {
    if ChunkRead(s, i).bytes == "" {
      ReadNothing(s.clients[i].buffer);
      assert s.clients[i := s.clients[i]] == s.clients;
    }
  }

  /** What `read` returned decides: an error, the end of the stream, or a chunk to reply to. */
  ghost function Concluded(s: Server, i: nat, n: SysResult): (r: Served)
    requires ValidServer(s) && i < |s.clients|
  {
    if !n.Count? then Served(Threw, s, false)
    else if n.n == 0 then Served(Continue, RemoveAt(s, i), true)
    else
      var r := Publish(s, i, TakeTurn(s.clients[i]));
      Served(r.outcome, r.server, false)
  }

  lemma ServeReadable(s: Server, e: Revents, i: nat)
    requires ValidServer(s) && i < |s.clients| && !Hangup(e)
    ensures Serve(s, e, i) == Concluded(AfterReceiving(s, i), i, ChunkRead(s, i).result)
  {
    var g := ChunkRead(s, i);
    if g.result.Count? && g.result.n > 0 {
      HandleChunkReplies(s.(k := g.kernel), i, g.bytes);
    }
  }
}
