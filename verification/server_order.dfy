/**
  Total-order broadcast: there is one log of broadcasts, and what a connection receives is exactly the
  part of it that others sent while the connection was in `clients`.
 */
module ServerOrder {
  import opened OperatingSystem
  import opened ProtocolBuffer
  import opened ServerInduction
  import opened ServerModel
  import opened Wrappers
  import NetIo
  import Descriptors
  import ServerDescriptors

  // ----- logs -----

  /** The messages that a connection is sent: those of every other connection. */
  function NotFrom(log: seq<Message>, id: nat): (ms: seq<Message>) {
    if log == [] then []
    else NotFrom(log[..|log| - 1], id) + if log[|log| - 1].sender == id then [] else [log[|log| - 1]]
  }

  function Texts(ms: seq<Message>): string {
    if ms == [] then "" else Texts(ms[..|ms| - 1]) + Text(ms[|ms| - 1])
  }

  function Received(log: seq<Message>, id: nat): string {
    Texts(NotFrom(log, id))
  }

  lemma {:induction false} TextsAppend(a: seq<Message>, b: seq<Message>)
    ensures Texts(a + b) == Texts(a) + Texts(b)
  {
    if b == [] {
      assert a + b == a;
    } else {
      assert (a + b)[..|a + b| - 1] == a + b[..|b| - 1];
      TextsAppend(a, b[..|b| - 1]);
    }
  }

  lemma {:induction false} NotFromAppend(a: seq<Message>, b: seq<Message>, id: nat)
    ensures NotFrom(a + b, id) == NotFrom(a, id) + NotFrom(b, id)
  {
    if b == [] {
      assert a + b == a;
    } else {
      assert (a + b)[..|a + b| - 1] == a + b[..|b| - 1];
      NotFromAppend(a, b[..|b| - 1], id);
    }
  }

  lemma {:induction false} ReceivedAppend(a: seq<Message>, b: seq<Message>, id: nat)
    ensures Received(a + b, id) == Received(a, id) + Received(b, id)
  {
    NotFromAppend(a, b, id);
    TextsAppend(NotFrom(a, id), NotFrom(b, id));
  }

  lemma {:induction false} ReceivedSnoc(log: seq<Message>, m: Message, id: nat)
    ensures Received(log + [m], id) == if m.sender == id then Received(log, id) else Received(log, id) + Text(m)
  {
    assert (log + [m])[..|log|] == log;
    var ms := NotFrom(log, id);
    if m.sender == id {
      assert ms + [] == ms;
    } else {
      assert (ms + [m])[..|ms|] == ms;
    }
  }

  // ----- the invariant -----

  /** The log position at which a connection left, or the end of the log while it is in `clients`. */
  function WindowEnd(h: History, id: nat): nat {
    if id in h.left then h.left[id] else |h.log|
  }

  predicate HasWindow(h: History, id: nat) {
    id in h.joined && h.joined[id] <= WindowEnd(h, id) <= |h.log|
  }

  /** The broadcasts made while the connection was in `clients`. */
  function Window(h: History, id: nat): seq<Message>
    requires HasWindow(h, id)
  {
    h.log[h.joined[id]..WindowEnd(h, id)]
  }

  /**
    Every connection that was let in has received exactly its window of the one log; nothing else was sent
    anything.
   */
  ghost predicate Ordered(s: Server) {
    (forall id | id in s.h.joined :: id < |s.k.channels| && HasWindow(s.h, id) &&
                                     s.k.channels[id].sent == Received(Window(s.h, id), id)) &&
    (forall id: nat | id < |s.k.channels| && id !in s.h.joined :: s.k.channels[id].sent == "") &&
    s.h.left.Keys <= s.h.joined.Keys &&
    s.h.joined.Keys - s.h.left.Keys == Ids(s)
  }

  /** The part of the broadcast at log position p that was received: all of it, unless a write for it failed. */
  predicate PartOf(h: History, p: nat, part: string)
    requires p < |h.log|
  {
    part <= Text(h.log[p]) && (p !in h.failed ==> part == Text(h.log[p]))
  }

  /** The text is made of one part for each broadcast of the others from position lo to hi, in order. */
  ghost predicate HeardInOrder(sent: string, h: History, id: nat, lo: nat, hi: nat)
    requires lo <= hi <= |h.log|
    decreases hi - lo
  {
    if lo == hi then sent == ""
    else if h.log[hi - 1].sender == id then HeardInOrder(sent, h, id, lo, hi - 1)
    else exists n: nat :: n <= |sent| && HeardInOrder(sent[..n], h, id, lo, hi - 1) && PartOf(h, hi - 1, sent[n..])
  }

  /**
    Every connection that was let in has received its window of the one log in order, each broadcast in full
    unless a write for it failed, and then a beginning of it; nothing else was sent anything.
   */
  ghost predicate InOrder(s: Server) {
    (forall id | id in s.h.joined ::
       id < |s.k.channels| && HasWindow(s.h, id) &&
       HeardInOrder(s.k.channels[id].sent, s.h, id, s.h.joined[id], WindowEnd(s.h, id))) &&
    (forall id: nat | id < |s.k.channels| && id !in s.h.joined :: s.k.channels[id].sent == "") &&
    s.h.left.Keys <= s.h.joined.Keys &&
    s.h.joined.Keys - s.h.left.Keys == Ids(s)
  }

  /** What every use of the server keeps. */
  ghost predicate OrderKept(s: Server, foreign: map<int, nat>) {
    ServerDescriptors.Conserved(s, foreign) && InOrder(s)
  }

  /** Only the broadcasts of the window matter. */
  lemma {:induction false} HeardSame(sent: string, h: History, h': History, id: nat, lo: nat, hi: nat)
    requires lo <= hi <= |h.log| && hi <= |h'.log|
    requires forall p | lo <= p < hi :: h.log[p] == h'.log[p] && (p in h.failed <==> p in h'.failed)
    requires HeardInOrder(sent, h, id, lo, hi)
    ensures HeardInOrder(sent, h', id, lo, hi)
    decreases hi - lo
  {
    if lo < hi {
      if h.log[hi - 1].sender == id {
        HeardSame(sent, h, h', id, lo, hi - 1);
      } else {
        var n: nat :| n <= |sent| && HeardInOrder(sent[..n], h, id, lo, hi - 1) && PartOf(h, hi - 1, sent[n..]);
        HeardSame(sent[..n], h, h', id, lo, hi - 1);
      }
    }
  }

  lemma {:induction false} HeardMore(sent: string, h: History, id: nat, lo: nat, hi: nat, part: string)
    requires lo <= hi < |h.log| && HeardInOrder(sent, h, id, lo, hi)
    requires h.log[hi].sender != id && PartOf(h, hi, part)
    ensures HeardInOrder(sent + part, h, id, lo, hi + 1)
  {
    assert (sent + part)[..|sent|] == sent && (sent + part)[|sent|..] == part;
  }

  /** Where no write failed, the parts are the whole texts. */
  lemma {:induction false} HeardExactly(sent: string, h: History, id: nat, lo: nat, hi: nat)
    requires lo <= hi <= |h.log| && HeardInOrder(sent, h, id, lo, hi)
    requires forall p | lo <= p < hi :: p !in h.failed
    ensures sent == Received(h.log[lo..hi], id)
    decreases hi - lo
  {
    if lo < hi {
      if h.log[hi - 1].sender == id {
        HeardExactly(sent, h, id, lo, hi - 1);
        assert h.log[lo..hi] == h.log[lo..hi - 1] + [h.log[hi - 1]];
        ReceivedSnoc(h.log[lo..hi - 1], h.log[hi - 1], id);
      } else {
        var n: nat :| n <= |sent| && HeardInOrder(sent[..n], h, id, lo, hi - 1) && PartOf(h, hi - 1, sent[n..]);
        HeardExactly(sent[..n], h, id, lo, hi - 1);
        HeardLast(sent, h, id, lo, hi, n);
      }
    }
  }

  lemma {:induction false} HeardLast(sent: string, h: History, id: nat, lo: nat, hi: nat, n: nat)
    requires lo < hi <= |h.log| && n <= |sent| && hi - 1 !in h.failed && h.log[hi - 1].sender != id
    requires sent[..n] == Received(h.log[lo..hi - 1], id) && PartOf(h, hi - 1, sent[n..])
    ensures sent == Received(h.log[lo..hi], id)
  {
    assert h.log[lo..hi] == h.log[lo..hi - 1] + [h.log[hi - 1]];
    ReceivedSnoc(h.log[lo..hi - 1], h.log[hi - 1], id);
    assert sent == sent[..n] + sent[n..];
  }

  lemma {:induction false} OrderedWithoutFailure(s: Server)
    requires InOrder(s) && s.h.failed == {}
    ensures Ordered(s)
  {
    forall id | id in s.h.joined ensures s.k.channels[id].sent == Received(Window(s.h, id), id) {
      HeardExactly(s.k.channels[id].sent, s.h, id, s.h.joined[id], WindowEnd(s.h, id));
    }
  }

  /** The connections a broadcast from `sender` has still to write to, from slot j on. */
  function Audience(s: Server, sender: nat, j: nat): set<nat>
    requires j <= |s.clients|
  {
    set i | j <= i < |s.clients| && i != sender :: IdOf(s, i)
  }

  // ----- one broadcast -----

  /** What writing a text to a set of connections does: on failure each may have got a part of it. */
  ghost predicate Delivers(k: Kernel, k': Kernel, audience: set<nat>, text: string, ok: bool) {
    |k'.channels| == |k.channels| &&
    forall id: nat | id < |k.channels| ::
      k'.channels[id].delivered == k.channels[id].delivered &&
      (id !in audience ==> k'.channels[id].sent == k.channels[id].sent) &&
      (id in audience && ok ==> k'.channels[id].sent == k.channels[id].sent + text) &&
      (id in audience && !ok ==> exists part :: part <= text && k'.channels[id].sent == k.channels[id].sent + part)
  }

  lemma {:induction false} DeliversOne(k: Kernel, fd: int, text: string)
    requires IsOpen(k, fd)
    ensures Delivers(k, NetIo.WriteAll(k, fd, text).1, {k.table[fd]}, text, NetIo.WriteAll(k, fd, text).0)
  {
    var done := NetIo.WriteAllAppends(k, fd, text);
    assert done <= text;
  }

  lemma {:induction false} DeliversBoth(k0: Kernel, k1: Kernel, k2: Kernel, a: set<nat>, b: set<nat>, text: string,
                                        ok: bool)
    requires Delivers(k0, k1, a, text, true) && Delivers(k1, k2, b, text, ok) && a !! b
    ensures Delivers(k0, k2, a + b, text, ok)
  {
    forall id: nat | id < |k0.channels| && id in a + b && !ok
      ensures exists part :: part <= text && k2.channels[id].sent == k0.channels[id].sent + part
    {
      if id in a {
        assert text <= text;
      }
    }
  }

  lemma {:induction false} DeliversMore(k: Kernel, k': Kernel, a: set<nat>, b: set<nat>, text: string)
    requires Delivers(k, k', a, text, false) && a <= b
    ensures Delivers(k, k', b, text, false)
  {
    forall id: nat | id < |k.channels| && id in b
      ensures exists part :: part <= text && k'.channels[id].sent == k.channels[id].sent + part
    {
      if id !in a {
        assert "" <= text && k'.channels[id].sent == k.channels[id].sent + "";
      }
    }
  }

  lemma {:induction false} AudienceCons(s: Server, sender: nat, j: nat)
    requires j < |s.clients| && j != sender
    requires forall i, l | 0 <= i < l < |s.clients| :: IdOf(s, i) != IdOf(s, l)
    ensures Audience(s, sender, j) == {IdOf(s, j)} + Audience(s, sender, j + 1)
    ensures {IdOf(s, j)} !! Audience(s, sender, j + 1)
  {
  }

  /** One write, and then what the rest of the broadcast delivers. */
  lemma {:induction false} DeliversNext(k: Kernel, fd: int, text: string, rest: (bool, Kernel), id: nat,
                                        others: set<nat>, audience: set<nat>)
    requires IsOpen(k, fd) && k.table[fd] == id && audience == {id} + others && id !in others
    requires NetIo.WriteAll(k, fd, text).0 ==> Delivers(NetIo.WriteAll(k, fd, text).1, rest.1, others, text, rest.0)
    requires !NetIo.WriteAll(k, fd, text).0 ==> rest == (false, NetIo.WriteAll(k, fd, text).1)
    ensures Delivers(k, rest.1, audience, text, rest.0)
  {
    var w := NetIo.WriteAll(k, fd, text);
    DeliversOne(k, fd, text);
    if w.0 {
      DeliversBoth(k, w.1, rest.1, {id}, others, text, rest.0);
    } else {
      DeliversMore(k, w.1, {id}, audience, text);
    }
  }

  lemma {:induction false} BroadcastDelivers(s: Server, k: Kernel, sender: nat, text: string, j: nat)
    requires k.table == s.k.table && |k.channels| == |s.k.channels| && j <= |s.clients|
    requires forall i | 0 <= i < |s.clients| :: s.clients[i].fd in s.k.table && IdOf(s, i) < |k.channels|
    requires forall i, l | 0 <= i < l < |s.clients| :: IdOf(s, i) != IdOf(s, l)
    ensures Delivers(k, Broadcast(k, s.clients, sender, text, j).1, Audience(s, sender, j), text,
            Broadcast(k, s.clients, sender, text, j).0)
    decreases |s.clients| - j
  {
    if j == |s.clients| {
      assert Audience(s, sender, j) == {};
    } else if j == sender {
      assert Audience(s, sender, j) == Audience(s, sender, j + 1);
      BroadcastDelivers(s, k, sender, text, j + 1);
    } else {
      var w := NetIo.WriteAll(k, s.clients[j].fd, text);
      AudienceCons(s, sender, j);
      if w.0 {
        BroadcastDelivers(s, w.1, sender, text, j + 1);
      }
      DeliversNext(k, s.clients[j].fd, text, Broadcast(k, s.clients, sender, text, j), IdOf(s, j),
                   Audience(s, sender, j + 1), Audience(s, sender, j));
    }
  }

  // ----- steps -----

  /** The same history, up to what does not concern the order. */
  predicate SameOrder(h: History, h': History) {
    h'.log == h.log && h'.joined == h.joined && h'.left == h.left && h'.failed == h.failed
  }

  /** New channels that have carried nothing, and changes that touch no log, keep the order. */
  lemma {:induction false} OrderFrame(s: Server, s': Server)
    requires InOrder(s) && Ids(s') == Ids(s) && SameOrder(s.h, s'.h)
    requires |s.k.channels| <= |s'.k.channels|
    requires forall id: nat | id < |s'.k.channels| ::
               s'.k.channels[id].sent == if id < |s.k.channels| then s.k.channels[id].sent else ""
    ensures InOrder(s')
  {
    forall id | id in s'.h.joined
      ensures id < |s'.k.channels| && HasWindow(s'.h, id) &&
              HeardInOrder(s'.k.channels[id].sent, s'.h, id, s'.h.joined[id], WindowEnd(s'.h, id))
    {
      HeardSame(s.k.channels[id].sent, s.h, s'.h, id, s.h.joined[id], WindowEnd(s.h, id));
    }
  }

  /** One more message: the windows of those present grow by it, those of the departed do not. */
  lemma {:induction false} WindowGrows(h: History, m: Message, h': History, id: nat)
    requires HasWindow(h, id) && h'.joined == h.joined && h'.left == h.left && h'.log == h.log + [m]
    ensures HasWindow(h', id)
    ensures Received(Window(h', id), id)
         == if id in h.left || m.sender == id then Received(Window(h, id), id)
           else Received(Window(h, id), id) + Text(m)
  {
    if id in h.left {
      assert Window(h', id) == Window(h, id);
    } else {
      assert Window(h', id) == Window(h, id) + [m];
      ReceivedSnoc(Window(h, id), m, id);
    }
  }

  /** The same for what was heard: a connection that is present and did not speak hears its part. */
  lemma {:induction false} HearingGrows(h: History, m: Message, ok: bool, id: nat, sent: string, part: string)
    requires HasWindow(h, id) && HeardInOrder(sent, h, id, h.joined[id], WindowEnd(h, id))
    requires if id in h.left || m.sender == id then part == "" else part <= Text(m) && (ok ==> part == Text(m))
    ensures var h' := WithMessage(h, m, ok);
            HasWindow(h', id) && HeardInOrder(sent + part, h', id, h'.joined[id], WindowEnd(h', id))
  {
    var h', lo, hi := WithMessage(h, m, ok), h.joined[id], WindowEnd(h, id);
    HeardSame(sent, h, h', id, lo, hi);
    assert sent + "" == sent;
    if id !in h.left && m.sender != id {
      HeardMore(sent, h', id, lo, hi, part);
    }
  }

  /** What a connection gets of a broadcast, by what the writes delivered. */
  lemma {:induction false} PartDelivered(k: Kernel, k': Kernel, audience: set<nat>, text: string, ok: bool, id: nat)
    returns (part: string)
    requires Delivers(k, k', audience, text, ok) && id < |k.channels|
    ensures k'.channels[id].sent == k.channels[id].sent + part && part <= text
    ensures id !in audience ==> part == ""
    ensures id in audience && ok ==> part == text
  {
    if id !in audience {
      part := "";
      assert k.channels[id].sent + "" == k.channels[id].sent;
    } else if ok {
      part := text;
    } else {
      part :| part <= text && k'.channels[id].sent == k.channels[id].sent + part;
    }
  }

  /** Everyone present but the sender is in the audience. */
  lemma {:induction false} AudienceIsOthers(s: Server, foreign: map<int, nat>, i: nat)
    requires ServerDescriptors.Conserved(s, foreign) && i < |s.clients|
    ensures Audience(s, i, 0) == Ids(s) - {IdOf(s, i)}
  {
    ServerDescriptors.DistinctIds(s, foreign);
    forall id | id in Ids(s) - {IdOf(s, i)} ensures id in Audience(s, i, 0) {
      var j :| 0 <= j < |s.clients| && IdOf(s, j) == id;
    }
  }

  lemma {:induction false} BroadcastInOrder(s: Server, s': Server, i: nat, m: Message, ok: bool, foreign: map<int, nat>)
    requires ServerDescriptors.Conserved(s, foreign) && InOrder(s) && i < |s.clients| && m.sender == IdOf(s, i)
    requires Delivers(s.k, s'.k, Audience(s, i, 0), Text(m), ok)
    requires Ids(s') == Ids(s) && SameOrder(WithMessage(s.h, m, ok), s'.h)
    ensures InOrder(s')
  {
    AudienceIsOthers(s, foreign, i);
    var h' := WithMessage(s.h, m, ok);
    forall id | id in s'.h.joined
      ensures id < |s'.k.channels| && HasWindow(s'.h, id) &&
              HeardInOrder(s'.k.channels[id].sent, s'.h, id, s'.h.joined[id], WindowEnd(s'.h, id))
    {
      var part := PartDelivered(s.k, s'.k, Audience(s, i, 0), Text(m), ok, id);
      assert id in s.h.left <==> id !in Ids(s);
      HearingGrows(s.h, m, ok, id, s.k.channels[id].sent, part);
      HeardSame(s'.k.channels[id].sent, h', s'.h, id, h'.joined[id], WindowEnd(h', id));
    }
    forall id: nat | id < |s'.k.channels| && id !in s'.h.joined ensures s'.k.channels[id].sent == "" {
      assert id !in Ids(s);
    }
  }

  /** A broadcast looks at the slots' descriptors only. */
  lemma {:induction false} BroadcastSlots(k: Kernel, a: seq<Slot>, b: seq<Slot>, sender: nat, text: string, j: nat)
    requires j <= |a| == |b| && forall i | 0 <= i < |a| :: a[i].fd == b[i].fd
    ensures Broadcast(k, a, sender, text, j) == Broadcast(k, b, sender, text, j)
    decreases |a| - j
  {
    if j < |a| {
      if j == sender {
        BroadcastSlots(k, a, b, sender, text, j + 1);
      } else {
        BroadcastSlots(NetIo.WriteAll(k, a[j].fd, text).1, a, b, sender, text, j + 1);
      }
    }
  }

  /** What is published is written on the descriptors there were, and logged. */
  lemma {:induction false} PublishSends(s: Server, i: nat, c: Chunked)
    requires ValidServer(s) && i < |s.clients| && ValidBuf(c.slot.buffer) && c.slot.fd == s.clients[i].fd &&
             c.payload != ""
    ensures var m := Message(IdOf(s, i), c.slot.name, c.payload); var b := Broadcast(s.k, s.clients, i, Text(m), 0);
            Publish(s, i, c) == Step(if b.0 then Continue else Threw,
                                     s.(clients := s.clients[i := c.slot], k := b.1,
                                        h := WithMessage(s.h, m, b.0)))
  {
    BroadcastSlots(s.k, s.clients, s.clients[i := c.slot], i, Text(Message(IdOf(s, i), c.slot.name, c.payload)), 0);
  }

  lemma {:induction false} ChunkOrdered(s: Server, foreign: map<int, nat>, i: nat, bytes: string)
    requires OrderKept(s, foreign) && i < |s.clients| && |bytes| <= FreeSpace(s.clients[i].buffer)
    ensures OrderKept(HandleChunk(s, i, bytes).server, foreign)
  {
    ServerDescriptors.ChunkConserves(s, foreign, i, bytes);
    ServerDescriptors.DistinctIds(s, foreign);
    var r, c := HandleChunk(s, i, bytes), TakeChunk(s.clients[i], bytes);
    if c.payload == "" {
      OrderFrame(s, r.server);
    } else {
      var m := Message(IdOf(s, i), c.slot.name, c.payload);
      PublishSends(Noted(s, i, bytes), i, c);
      BroadcastDelivers(s, s.k, i, Text(m), 0);
      BroadcastInOrder(s, r.server, i, m, Broadcast(s.k, s.clients, i, Text(m), 0).0, foreign);
    }
  }

  lemma {:induction false} LeavingInOrder(s: Server, s': Server, leaving: set<nat>)
    requires InOrder(s) && leaving <= Ids(s) && Ids(s') == Ids(s) - leaving
    requires s'.h.log == s.h.log && s'.h.joined == s.h.joined && s'.h.failed == s.h.failed
    requires s'.h.left.Keys == s.h.left.Keys + leaving
    requires forall id | id in s'.h.left :: s'.h.left[id] == if id in leaving then |s.h.log| else s.h.left[id]
    requires s'.k.channels == s.k.channels
    ensures InOrder(s')
  {
    forall id | id in s'.h.joined
      ensures HasWindow(s'.h, id) &&
              HeardInOrder(s'.k.channels[id].sent, s'.h, id, s'.h.joined[id], WindowEnd(s'.h, id))
    {
      assert WindowEnd(s'.h, id) == WindowEnd(s.h, id);
      HeardSame(s.k.channels[id].sent, s.h, s'.h, id, s.h.joined[id], WindowEnd(s.h, id));
    }
  }

  lemma {:induction false} RemovalOrdered(s: Server, foreign: map<int, nat>, i: nat)
    requires OrderKept(s, foreign) && i < |s.clients|
    ensures OrderKept(RemoveAt(s, i), foreign)
  {
    ServerDescriptors.RemovalConserves(s, foreign, i);
    assert IdOf(s, i) in Ids(s);
    LeavingInOrder(s, RemoveAt(s, i), {IdOf(s, i)});
  }

  /** Reading from a descriptor sends nothing. */
  lemma {:induction false} ReadOrdered(s: Server, foreign: map<int, nat>, fd: int, max: nat)
    requires OrderKept(s, foreign)
    ensures OrderKept(s.(k := SysRead(s.k, fd, max).kernel), foreign)
  {
    var s' := s.(k := SysRead(s.k, fd, max).kernel);
    ServerDescriptors.SameDescriptors(s, s', foreign);
    OrderFrame(s, s');
  }

  lemma {:induction false} ServeOrdered(s: Server, foreign: map<int, nat>, e: Revents, i: nat)
    requires OrderKept(s, foreign) && i < |s.clients|
    ensures OrderKept(Serve(s, e, i).server, foreign)
  {
    if Hangup(e) {
      RemovalOrdered(s, foreign, i);
    } else {
      var fd, free := s.clients[i].fd, FreeSpace(s.clients[i].buffer);
      var g := SysRead(s.k, fd, free);
      ReadOrdered(s, foreign, fd, free);
      if g.result.Count? {
        if g.result.n == 0 {
          RemovalOrdered(s.(k := g.kernel), foreign, i);
        } else {
          ChunkOrdered(s.(k := g.kernel), foreign, i, g.bytes);
        }
      }
    }
  }

  lemma {:induction false} JoiningInOrder(s: Server, s': Server, id: nat)
    requires InOrder(s) && id == |s.k.channels| && id !in s.h.joined && id !in s.h.left
    requires Ids(s') == Ids(s) + {id} && s'.h == s.h.(joined := s.h.joined[id := |s.h.log|])
    requires |s'.k.channels| == id + 1 && s'.k.channels[id].sent == ""
    requires forall x: nat | x < id :: s'.k.channels[x] == s.k.channels[x]
    ensures InOrder(s')
  {
    forall x | x in s'.h.joined
      ensures x < |s'.k.channels| && HasWindow(s'.h, x) &&
              HeardInOrder(s'.k.channels[x].sent, s'.h, x, s'.h.joined[x], WindowEnd(s'.h, x))
    {
      if x != id {
        HeardSame(s.k.channels[x].sent, s.h, s'.h, x, s.h.joined[x], WindowEnd(s.h, x));
      }
    }
  }

  lemma {:induction false} AcceptOrdered(s: Server, foreign: map<int, nat>, a: AcceptOutcome)
    requires OrderKept(s, foreign)
    ensures OrderKept(AcceptClient(s, a).server, foreign)
  {
    ServerDescriptors.AcceptConserves(s, foreign, a);
    var s' := AcceptClient(s, a).server;
    if AcceptClient(s, a).outcome == Continue {
      if |s.clients| >= MAX_CLIENTS {
        OrderFrame(s, s');
      } else {
        JoiningInOrder(s, s', |s.k.channels|);
      }
    }
  }

  /** The record that `stop` makes. */
  lemma {:induction false} StopLeaves(s: Server)
    requires ValidServer(s)
    ensures Stop(s).h.log == s.h.log && Stop(s).h.joined == s.h.joined && Stop(s).h.failed == s.h.failed
    ensures Stop(s).h.left.Keys == s.h.left.Keys + Ids(s)
    ensures forall id | id in Stop(s).h.left :: Stop(s).h.left[id] == if id in Ids(s) then |s.h.log| else s.h.left[id]
    ensures Stop(s).k.channels == s.k.channels && Ids(Stop(s)) == {}
  {
    ServerDescriptors.CloseAllChannels(s.k, s.clients);
    assert Ids(Stop(s)) == {};
  }

  lemma {:induction false} StopOrdered(s: Server, foreign: map<int, nat>)
    requires OrderKept(s, foreign)
    ensures OrderKept(Stop(s), foreign)
  {
    ServerDescriptors.StopConserves(s, foreign);
    StopLeaves(s);
    LeavingInOrder(s, Stop(s), Ids(s));
  }

  lemma {:induction false} SignalOrdered(s: Server, foreign: map<int, nat>)
    requires OrderKept(s, foreign)
    ensures OrderKept(SignalStep(s).server, foreign)
  {
    ReadOrdered(s, foreign, s.signalFd, SIGINFO_SIZE);
    StopOrdered(s.(k := SysRead(s.k, s.signalFd, SIGINFO_SIZE).kernel), foreign);
  }

  lemma {:induction false} RunOrdered(s: Server, foreign: map<int, nat>, startup: Startup)
    requires OrderKept(s, foreign)
    ensures OrderKept(RunServer(s, startup).server, foreign)
  {
    ServerDescriptors.RunConserves(s, foreign, startup);
    var s' := RunServer(s, startup).server;
    OrderFrame(s, s');
  }

  // ----- every run -----

  lemma {:induction false} OrderIsInductive(foreign: map<int, nat>)
    ensures Inductive(s => OrderKept(s, foreign))
  {
    var inv: Server -> bool := s => OrderKept(s, foreign);
    forall s: Server, e: Revents, i: nat | ValidServer(s) && i < |s.clients| && inv(s)
      ensures inv(Serve(s, e, i).server)
    {
      ServeOrdered(s, foreign, e, i);
    }
    forall s: Server, a: AcceptOutcome | ValidServer(s) && inv(s) ensures inv(AcceptClient(s, a).server) {
      AcceptOrdered(s, foreign, a);
    }
    forall s: Server | ValidServer(s) && inv(s) ensures inv(SignalStep(s).server) && inv(Stop(s)) {
      SignalOrdered(s, foreign);
      StopOrdered(s, foreign);
    }
    forall s: Server, startup: Startup | ValidServer(s) && inv(s) ensures inv(RunServer(s, startup).server) {
      RunOrdered(s, foreign, startup);
    }
  }

  /** Bytes on the channels are counted from the construction of the server. */
  predicate AllQuiet(k: Kernel) {
    forall id: nat | id < |k.channels| :: k.channels[id].sent == ""
  }

  /**
    Over any use of a constructed server: every connection ever let in has received, in the order of the one
    log, the broadcasts of the others in the part of it made while the connection was in `clients`; each of
    them in full, or, if a write for that broadcast failed, a beginning of it. Connections turned away at the
    cap, and every other descriptor, have been sent nothing. As long as no write has failed, what was received
    is exactly those broadcasts.
   */
  lemma {:induction false} TotalOrderBroadcast(s: Server, actions: seq<Action>)
    requires Constructed(s) && Descriptors.KernelConserved(s.k) && AllQuiet(s.k)
    ensures InOrder(Execute(s, actions))
    ensures Execute(s, actions).h.failed == {} ==> Ordered(Execute(s, actions))
  {
    ServerDescriptors.ConstructedConserves(s);
    assert Ids(s) == {};
    OrderIsInductive(s.k.table);
    ExecuteKeeps(t => OrderKept(t, s.k.table), s, actions);
    if Execute(s, actions).h.failed == {} {
      OrderedWithoutFailure(Execute(s, actions));
    }
  }

  // ----- what two connections have in common -----

  function Max(a: nat, b: nat): nat {
    if a < b then b else a
  }

  /** The broadcasts made while both connections were in `clients`. */
  function Overlap(h: History, c: nat, d: nat): seq<Message>
    requires HasWindow(h, c) && HasWindow(h, d)
    requires Max(h.joined[c], h.joined[d]) <= Min(WindowEnd(h, c), WindowEnd(h, d))
  {
    h.log[Max(h.joined[c], h.joined[d])..Min(WindowEnd(h, c), WindowEnd(h, d))]
  }

  lemma {:induction false} NotFromCommutes(log: seq<Message>, c: nat, d: nat)
    ensures NotFrom(NotFrom(log, c), d) == NotFrom(NotFrom(log, d), c)
  {
    if log != [] {
      var front, m := log[..|log| - 1], log[|log| - 1];
      NotFromCommutes(front, c, d);
      NotFromAppend(NotFrom(front, c), if m.sender == c then [] else [m], d);
      NotFromAppend(NotFrom(front, d), if m.sender == d then [] else [m], c);
      NotFromOne(m, c);
      NotFromOne(m, d);
    }
  }

  lemma {:induction false} NotFromOne(m: Message, id: nat)
    ensures NotFrom([m], id) == if m.sender == id then [] else [m]
    ensures NotFrom([], id) == []
  {
    assert [m][..0] == [];
  }

  lemma {:induction false} NotFromAll(log: seq<Message>, id: nat)
    requires forall i | 0 <= i < |log| :: log[i].sender != id
    ensures NotFrom(log, id) == log
  {
    if log != [] {
      NotFromAll(log[..|log| - 1], id);
      assert log == log[..|log| - 1] + [log[|log| - 1]];
    }
  }

  /** What a connection received is one piece for each part of its window. */
  lemma {:induction false} ReceivedInThree(h: History, id: nat, lo: nat, hi: nat)
    requires HasWindow(h, id) && h.joined[id] <= lo <= hi <= WindowEnd(h, id)
    ensures Received(Window(h, id), id)
         == Received(h.log[h.joined[id]..lo], id) + Received(h.log[lo..hi], id)
           + Received(h.log[hi..WindowEnd(h, id)], id)
  {
    var a, b, c := h.log[h.joined[id]..lo], h.log[lo..hi], h.log[hi..WindowEnd(h, id)];
    assert Window(h, id) == (a + b) + c;
    ReceivedAppend(a + b, c, id);
    ReceivedAppend(a, b, id);
  }

  /** What is left of a sequence when some of its elements are struck out. */
  predicate IsSubsequence(part: seq<Message>, whole: seq<Message>)
    decreases |whole|
  {
    part == [] ||
    (whole != [] &&
      ((part[|part| - 1] == whole[|whole| - 1] && IsSubsequence(part[..|part| - 1], whole[..|whole| - 1])) ||
       IsSubsequence(part, whole[..|whole| - 1])))
  }

  lemma {:induction false} SubsequenceOfMore(part: seq<Message>, whole: seq<Message>, more: seq<Message>)
    requires IsSubsequence(part, whole)
    ensures IsSubsequence(part, whole + more)
  {
    if more == [] {
      assert whole + more == whole;
    } else {
      assert (whole + more)[..|whole + more| - 1] == whole + more[..|more| - 1];
      SubsequenceOfMore(part, whole, more[..|more| - 1]);
    }
  }

  lemma {:induction false} SubsequenceBehind(part: seq<Message>, before: seq<Message>, whole: seq<Message>)
    requires IsSubsequence(part, whole)
    ensures IsSubsequence(part, before + whole)
    decreases |whole|
  {
    if part != [] {
      var front := whole[..|whole| - 1];
      assert (before + whole)[..|before + whole| - 1] == before + front;
      if part[|part| - 1] == whole[|whole| - 1] && IsSubsequence(part[..|part| - 1], front) {
        SubsequenceBehind(part[..|part| - 1], before, front);
      } else {
        SubsequenceBehind(part, before, front);
      }
    }
  }

  /** Striking out the messages of one sender leaves a subsequence. */
  lemma {:induction false} NotFromIsSubsequence(log: seq<Message>, id: nat)
    ensures IsSubsequence(NotFrom(log, id), log)
  {
    if log != [] {
      var front, m := log[..|log| - 1], log[|log| - 1];
      NotFromIsSubsequence(front, id);
      if m.sender == id {
        assert NotFrom(log, id) == NotFrom(front, id);
      } else {
        assert NotFrom(log, id)[..|NotFrom(log, id)| - 1] == NotFrom(front, id);
      }
    }
  }

  /** What both connections got: the messages of their common period that neither of them sent. */
  function Common(h: History, c: nat, d: nat): seq<Message>
    requires HasWindow(h, c) && HasWindow(h, d)
    requires Max(h.joined[c], h.joined[d]) <= Min(WindowEnd(h, c), WindowEnd(h, d))
  {
    NotFrom(NotFrom(Overlap(h, c, d), c), d)
  }

  lemma {:induction false} CommonIsReceived(h: History, c: nat, d: nat)
    requires HasWindow(h, c) && HasWindow(h, d)
    requires Max(h.joined[c], h.joined[d]) <= Min(WindowEnd(h, c), WindowEnd(h, d))
    ensures IsSubsequence(Common(h, c, d), NotFrom(Window(h, c), c))
  {
    var lo, hi := Max(h.joined[c], h.joined[d]), Min(WindowEnd(h, c), WindowEnd(h, d));
    var before, after := h.log[h.joined[c]..lo], h.log[hi..WindowEnd(h, c)];
    var shared := NotFrom(Overlap(h, c, d), c);
    assert Window(h, c) == (before + Overlap(h, c, d)) + after;
    NotFromAppend(before + Overlap(h, c, d), after, c);
    NotFromAppend(before, Overlap(h, c, d), c);
    NotFromIsSubsequence(shared, d);
    SubsequenceBehind(Common(h, c, d), NotFrom(before, c), shared);
    SubsequenceOfMore(Common(h, c, d), NotFrom(before, c) + shared, NotFrom(after, c));
  }

  lemma {:induction false} OverlapCommutes(h: History, c: nat, d: nat)
    requires HasWindow(h, c) && HasWindow(h, d)
    requires Max(h.joined[c], h.joined[d]) <= Min(WindowEnd(h, c), WindowEnd(h, d))
    ensures Common(h, c, d) == Common(h, d, c)
  {
    assert Overlap(h, c, d) == Overlap(h, d, c);
    NotFromCommutes(Overlap(h, c, d), c, d);
  }

  /**
    Two connections agree on the order of everything both received: the messages of their common period that
    neither of them sent are, in the same order, among those that the one received and among those that the
    other received. What each received in that period is one contiguous piece of its bytes, and if neither
    spoke in it, the two pieces are the same bytes.
   */
  lemma {:induction false} ConnectionsAgree(s: Server, c: nat, d: nat)
    requires Ordered(s) && c in s.h.joined && d in s.h.joined
    requires HasWindow(s.h, c) && HasWindow(s.h, d)
    requires Max(s.h.joined[c], s.h.joined[d]) <= Min(WindowEnd(s.h, c), WindowEnd(s.h, d))
    ensures IsSubsequence(Common(s.h, c, d), NotFrom(Window(s.h, c), c)) &&
            IsSubsequence(Common(s.h, c, d), NotFrom(Window(s.h, d), d))
    ensures s.k.channels[c].sent == Texts(NotFrom(Window(s.h, c), c)) &&
            s.k.channels[d].sent == Texts(NotFrom(Window(s.h, d), d))
    ensures exists before, after :: s.k.channels[c].sent == before + Received(Overlap(s.h, c, d), c) + after
    ensures exists before, after :: s.k.channels[d].sent == before + Received(Overlap(s.h, c, d), d) + after
    ensures (forall i | 0 <= i < |Overlap(s.h, c, d)| ::
               Overlap(s.h, c, d)[i].sender != c && Overlap(s.h, c, d)[i].sender != d)
        ==> Received(Overlap(s.h, c, d), c) == Received(Overlap(s.h, c, d), d)
  {
    var lo, hi := Max(s.h.joined[c], s.h.joined[d]), Min(WindowEnd(s.h, c), WindowEnd(s.h, d));
    ReceivedInThree(s.h, c, lo, hi);
    ReceivedInThree(s.h, d, lo, hi);
    CommonIsReceived(s.h, c, d);
    CommonIsReceived(s.h, d, c);
    OverlapCommutes(s.h, c, d);
    var overlap := Overlap(s.h, c, d);
    if forall i | 0 <= i < |overlap| :: overlap[i].sender != c && overlap[i].sender != d {
      NotFromAll(overlap, c);
      NotFromAll(overlap, d);
    }
  }

  // ----- the broadcast that fails -----

  lemma PrefixAppend(a: string, part: string, text: string)
    requires part <= text
    ensures a <= a + part <= a + text
  {
  }

  /** A chunk whose handling throws has been broadcast in part. */
  ghost predicate BrokenOff(s: Server, i: nat, m: Message, s': Server)
    requires ValidServer(s) && i < |s.clients|
  {
    Delivers(s.k, s'.k, Audience(s, i, 0), Text(m), false) &&
    s'.h.joined == s.h.joined && s'.h.left == s.h.left && s'.h.log == s.h.log + [m]
  }

  lemma {:induction false} PartOfWindow(s: Server, s': Server, i: nat, m: Message, foreign: map<int, nat>, id: nat)
    requires ServerDescriptors.Conserved(s, foreign) && Ordered(s) && i < |s.clients| && m.sender == IdOf(s, i)
    requires BrokenOff(s, i, m, s') && id in s.h.joined
    ensures id < |s.k.channels| && HasWindow(s'.h, id)
    ensures s.k.channels[id].sent <= s'.k.channels[id].sent <= Received(Window(s'.h, id), id)
  {
    ServerDescriptors.DistinctIds(s, foreign);
    WindowGrows(s.h, m, s'.h, id);
    if id in Audience(s, i, 0) {
      assert id in Ids(s) && id !in s.h.left && id != m.sender;
      var part :| part <= Text(m) && s'.k.channels[id].sent == s.k.channels[id].sent + part;
      PrefixAppend(s.k.channels[id].sent, part, Text(m));
    } else {
      PrefixAppend(s.k.channels[id].sent, "", Text(m));
    }
  }

  /** The message that a chunk makes of its complete lines. */
  function ChunkMessage(s: Server, i: nat, bytes: string): Message
    requires ValidServer(s) && i < |s.clients| && |bytes| <= FreeSpace(s.clients[i].buffer)
  {
    var c := TakeChunk(s.clients[i], bytes);
    Message(IdOf(s, i), c.slot.name, c.payload)
  }

  lemma {:induction false} ChunkThrows(s: Server, i: nat, bytes: string)
    requires ValidServer(s) && i < |s.clients| && |bytes| <= FreeSpace(s.clients[i].buffer)
    ensures var r, m := HandleChunk(s, i, bytes), ChunkMessage(s, i, bytes);
            r.outcome == Threw ==>
              Broadcast(s.k, s.clients, i, Text(m), 0) == (false, r.server.k) &&
              r.server.h == WithMessage(s.h, m, false).(tainted := r.server.h.tainted)
  {
    if HandleChunk(s, i, bytes).outcome == Threw {
      PublishSends(Noted(s, i, bytes), i, TakeChunk(s.clients[i], bytes));
    }
  }

  lemma {:induction false} FailedChunk(s: Server, foreign: map<int, nat>, i: nat, bytes: string)
    requires ServerDescriptors.Conserved(s, foreign) && i < |s.clients| && |bytes| <= FreeSpace(s.clients[i].buffer)
    ensures var r := HandleChunk(s, i, bytes);
            r.outcome == Threw ==> BrokenOff(s, i, ChunkMessage(s, i, bytes), r.server)
  {
    ServerDescriptors.DistinctIds(s, foreign);
    ChunkThrows(s, i, bytes);
    if HandleChunk(s, i, bytes).outcome == Threw {
      BroadcastDelivers(s, s.k, i, Text(ChunkMessage(s, i, bytes)), 0);
    }
  }

  /** Each connection has what it had and perhaps more, and never more than its window of the log. */
  ghost predicate NothingBeyondWindow(s: Server, s': Server) {
    forall id | id in s.h.joined ::
      id < |s.k.channels| && id < |s'.k.channels| && HasWindow(s'.h, id) &&
      s.k.channels[id].sent <= s'.k.channels[id].sent <= Received(Window(s'.h, id), id)
  }

  /**
    When a write fails in a broadcast, no connection has received anything out of order: each has what it had,
    followed by all, a part, or none of the failed message, and never more than its window of the log.
   */
  lemma {:induction false} FailedBroadcast(s: Server, foreign: map<int, nat>, i: nat, bytes: string)
    requires OrderKept(s, foreign) && s.h.failed == {} && i < |s.clients| && |bytes| <= FreeSpace(s.clients[i].buffer)
    ensures HandleChunk(s, i, bytes).outcome == Threw ==> NothingBeyondWindow(s, HandleChunk(s, i, bytes).server)
  {
    var s', m := HandleChunk(s, i, bytes).server, ChunkMessage(s, i, bytes);
    FailedChunk(s, foreign, i, bytes);
    OrderedWithoutFailure(s);
    if HandleChunk(s, i, bytes).outcome == Threw {
      forall id | id in s.h.joined
        ensures id < |s.k.channels| && HasWindow(s'.h, id) &&
                s.k.channels[id].sent <= s'.k.channels[id].sent <= Received(Window(s'.h, id), id)
      {
        PartOfWindow(s, s', i, m, foreign, id);
      }
    }
  }
}
