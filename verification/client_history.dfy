/**
  What the client has moved over its whole life: any number of connections, sessions that end in exceptions
  and are taken up again, and lines that stay in the buffers from one connection to the next.
 */
module ClientHistory {
  import opened ClientDescriptors
  import opened ClientModel
  import opened ClientSessions
  import opened Descriptors
  import opened OperatingSystem
  import opened ProtocolBuffer
  import opened Wrappers
  import Lines
  import NetIo

  /** A socket on which `run` has sent the name line: a connection is made if all of the line was sent. */
  datatype Link = Link(sock: nat, greeting: string, made: bool)

  /** What one drain put on a socket: the lines that left the buffer, and a fragment of the next if a write failed. */
  datatype Piece = Piece(sock: nat, full: string, partial: string)

  /** Bookkeeping that the program does not have, in the order of the events. */
  datatype Past = Past(links: seq<Link>, pieces: seq<Piece>)

  // ----- the sockets of an execution -----

  /** The socket that an action sends the name line on. */
  function MadeBy(c: Client, a: Action): seq<Link>
    requires ValidClient(c)
  {
    if a.Run? && !c.connected && CanStart(c, a.startup) then
      [Link(|c.k.channels|, a.name + "\n", RunClient(c, a.name, a.startup).outcome == Continue)]
    else
      []
  }

  /** All of them, as the actions follow one another. */
  function Made(c: Client, actions: seq<Action>): seq<Link>
    requires ValidClient(c)
    decreases |actions|
  {
    if actions == [] then [] else MadeBy(c, actions[0]) + Made(Act(c, actions[0]), actions[1..])
  }

  predicate IsSocket(links: seq<Link>, id: nat) {
    exists i | 0 <= i < |links| :: links[i].sock == id
  }

  predicate IsConnection(links: seq<Link>, id: nat) {
    exists i | 0 <= i < |links| :: links[i].made && links[i].sock == id
  }

  predicate LinksRise(links: seq<Link>) {
    forall i, j | 0 <= i < j < |links| :: links[i].sock < links[j].sock
  }

  predicate LinksIn(k: Kernel, links: seq<Link>) {
    forall i | 0 <= i < |links| :: links[i].sock < |k.channels|
  }

  // ----- the texts -----

  /** Everything that has left the write buffer. */
  function Fulls(pieces: seq<Piece>): string {
    if pieces == [] then "" else Fulls(pieces[..|pieces| - 1]) + pieces[|pieces| - 1].full
  }

  /** The lines that left it for one socket. */
  function FullsOn(pieces: seq<Piece>, sock: nat): string {
    if pieces == [] then ""
    else
      var p := pieces[|pieces| - 1];
      FullsOn(pieces[..|pieces| - 1], sock) + if p.sock == sock then p.full else ""
  }

  /** Everything that drains have put on one socket. */
  function WireOn(pieces: seq<Piece>, sock: nat): string {
    if pieces == [] then ""
    else
      var p := pieces[|pieces| - 1];
      WireOn(pieces[..|pieces| - 1], sock) + if p.sock == sock then p.full + p.partial else ""
  }

  /** Each fragment is a proper beginning of the line that came next, which stayed in the buffer. */
  predicate Fragments(pieces: seq<Piece>, left: string)
    decreases |pieces|
  {
    pieces == [] ||
    (Lines.Fragment(pieces[|pieces| - 1].partial, left, NEWLINE) &&
     Fragments(pieces[..|pieces| - 1], pieces[|pieces| - 1].full + left))
  }

  predicate AllWhole(pieces: seq<Piece>) {
    forall i | 0 <= i < |pieces| :: Lines.WholeLines(pieces[i].full, NEWLINE)
  }

  /** Once a later socket is used, no earlier one is used again. */
  predicate PiecesRise(pieces: seq<Piece>) {
    forall i, j | 0 <= i <= j < |pieces| :: pieces[i].sock <= pieces[j].sock
  }

  /** Everything heard, one connection after the other. */
  function HeardOver(k: Kernel, links: seq<Link>): string
    requires LinksIn(k, links)
  {
    if links == [] then ""
    else HeardOver(k, links[..|links| - 1]) + k.channels[links[|links| - 1].sock].delivered
  }

  lemma {:induction false} FragmentsStay(pieces: seq<Piece>, left: string, more: string)
    requires Fragments(pieces, left)
    ensures Fragments(pieces, left + more)
    decreases |pieces|
  {
    if pieces != [] {
      var p, front := pieces[|pieces| - 1], pieces[..|pieces| - 1];
      Lines.FragmentStays(p.partial, left, more, NEWLINE);
      FragmentsStay(front, p.full + left, more);
      assert p.full + left + more == p.full + (left + more);
    }
  }

  lemma {:induction false} FullsSnoc(pieces: seq<Piece>, p: Piece)
    ensures Fulls(pieces + [p]) == Fulls(pieces) + p.full
  {
    assert (pieces + [p])[..|pieces|] == pieces;
  }

  lemma {:induction false} WireSnoc(pieces: seq<Piece>, p: Piece, sock: nat)
    ensures WireOn(pieces + [p], sock) == WireOn(pieces, sock) + if p.sock == sock then p.full + p.partial else ""
  {
    assert (pieces + [p])[..|pieces|] == pieces;
  }

  lemma {:induction false} FragmentsSnoc(pieces: seq<Piece>, p: Piece, left: string)
    requires Fragments(pieces, p.full + left) && Lines.Fragment(p.partial, left, NEWLINE)
    ensures Fragments(pieces + [p], left)
  {
    assert (pieces + [p])[..|pieces|] == pieces;
  }

  lemma {:induction false} NothingOnOthers(pieces: seq<Piece>, sock: nat)
    requires forall i | 0 <= i < |pieces| :: pieces[i].sock != sock
    ensures WireOn(pieces, sock) == "" && FullsOn(pieces, sock) == ""
  {
    if pieces != [] {
      NothingOnOthers(pieces[..|pieces| - 1], sock);
    }
  }

  lemma {:induction false} HeardSame(k: Kernel, k': Kernel, links: seq<Link>)
    requires LinksIn(k, links) && LinksIn(k', links)
    requires forall i | 0 <= i < |links| :: k'.channels[links[i].sock].delivered == k.channels[links[i].sock].delivered
    ensures HeardOver(k', links) == HeardOver(k, links)
  {
    if links != [] {
      HeardSame(k, k', links[..|links| - 1]);
    }
  }

  lemma {:induction false} HeardGrows(k: Kernel, k': Kernel, links: seq<Link>, bytes: string)
    requires links != [] && LinksIn(k, links) && LinksIn(k', links)
    requires forall i | 0 <= i < |links| - 1 ::
               k'.channels[links[i].sock].delivered == k.channels[links[i].sock].delivered
    requires k'.channels[links[|links| - 1].sock].delivered == k.channels[links[|links| - 1].sock].delivered + bytes
    ensures HeardOver(k', links) == HeardOver(k, links) + bytes
  {
    var front, d := links[..|links| - 1], k.channels[links[|links| - 1].sock].delivered;
    HeardSame(k, k', front);
    assert HeardOver(k, front) + (d + bytes) == HeardOver(k, front) + d + bytes;
  }

  // ----- the invariant: `first` is the kernel that the client was constructed on -----

  /** The channels of the past, and where the client's descriptors lead. */
  ghost predicate Known(c: Client, first: Kernel, past: Past, stdin: nat) {
    stdin < |first.channels| <= |c.k.channels| &&
    first.channels[stdin].delivered <= c.k.channels[stdin].delivered &&
    STDIN_FILENO in c.k.table && c.k.table[STDIN_FILENO] == stdin &&
    LinksRise(past.links) && PiecesRise(past.pieces) &&
    (forall i | 0 <= i < |past.links| :: |first.channels| <= past.links[i].sock < |c.k.channels|) &&
    (forall i | 0 <= i < |past.pieces| :: IsConnection(past.links, past.pieces[i].sock)) &&
    (c.connected ==> past.links != [] && past.links[|past.links| - 1].made && c.clientFd in c.k.table &&
                     c.k.table[c.clientFd] == past.links[|past.links| - 1].sock) &&
    (c.signalFd in c.k.table ==> !IsSocket(past.links, c.k.table[c.signalFd]))
  }

  /** Everything typed since the client was constructed. */
  ghost function TypedSince(c: Client, first: Kernel, stdin: nat): string
    requires stdin < |first.channels| <= |c.k.channels|
    requires first.channels[stdin].delivered <= c.k.channels[stdin].delivered
  {
    c.k.channels[stdin].delivered[|first.channels[stdin].delivered|..]
  }

  /** What has been typed is what has left the buffer and what is in it. */
  ghost predicate TypedKept(c: Client, first: Kernel, past: Past, stdin: nat)
    requires Known(c, first, past, stdin) && ValidClient(c)
  {
    TypedSince(c, first, stdin) == Fulls(past.pieces) + Contents(c.writeBuffer) &&
    AllWhole(past.pieces) && Fragments(past.pieces, Contents(c.writeBuffer))
  }

  /** A connection carries its name line and then its share; a socket without one, a part of the name line. */
  predicate Carries(sent: string, link: Link, pieces: seq<Piece>) {
    if link.made then sent == link.greeting + WireOn(pieces, link.sock)
    else sent <= link.greeting && sent != link.greeting
  }

  /** Nothing is sent on any channel that is not one of the sockets. */
  function SentBefore(first: Kernel, id: nat): string {
    if id < |first.channels| then first.channels[id].sent else ""
  }

  /** Every byte ever sent, on whatever channel. */
  ghost predicate WireKept(k: Kernel, first: Kernel, past: Past) {
    LinksIn(k, past.links) &&
    (forall i | 0 <= i < |past.links| :: Carries(k.channels[past.links[i].sock].sent, past.links[i], past.pieces)) &&
    forall id: nat | id < |k.channels| && !IsSocket(past.links, id) :: k.channels[id].sent == SentBefore(first, id)
  }

  /** The screen shows the complete lines of everything heard, and the buffer holds the unfinished one. */
  ghost predicate DownlinkKept(c: Client, past: Past)
    requires LinksIn(c.k, past.links) && ValidClient(c)
  {
    c.output == Lines.Complete(HeardOver(c.k, past.links), NEWLINE) &&
    Contents(c.readBuffer) == Lines.Rest(HeardOver(c.k, past.links), NEWLINE)
  }

  ghost predicate Kept(c: Client, foreign: map<int, nat>, first: Kernel, past: Past) {
    Conserved(c, foreign) && STDIN_FILENO in foreign && Known(c, first, past, foreign[STDIN_FILENO]) &&
    TypedKept(c, first, past, foreign[STDIN_FILENO]) && WireKept(c.k, first, past) && DownlinkKept(c, past)
  }

  /** A later past: what is added to it is added on the latest socket or on later ones. */
  predicate Extends(past: Past, past': Past) {
    past.links <= past'.links && past.pieces <= past'.pieces &&
    (past.links != [] ==>
       forall i | |past.pieces| <= i < |past'.pieces| ::
         past.links[|past.links| - 1].sock <= past'.pieces[i].sock)
  }

  lemma {:induction false} ExtendsTwice(a: Past, b: Past, c: Past)
    requires Extends(a, b) && Extends(b, c) && LinksRise(b.links)
    ensures Extends(a, c)
  {
    if a.links != [] {
      var last := |a.links| - 1;
      assert b.links[last] == a.links[last];
      assert b.links[last].sock <= b.links[|b.links| - 1].sock;
      forall i | |a.pieces| <= i < |c.pieces| ensures a.links[last].sock <= c.pieces[i].sock {
        if i < |b.pieces| {
          assert c.pieces[i] == b.pieces[i];
        }
      }
    }
  }

  // ----- steps that move nothing -----

  /** Nothing has moved on any channel that the past tells of; what is new has carried nothing. */
  ghost predicate SameTraffic(k: Kernel, k': Kernel, past: Past, stdin: nat) {
    stdin < |k.channels| <= |k'.channels| && LinksIn(k, past.links) &&
    (forall id: nat | id < |k'.channels| ::
       k'.channels[id].sent == if id < |k.channels| then k.channels[id].sent else "") &&
    k'.channels[stdin].delivered == k.channels[stdin].delivered &&
    forall i | 0 <= i < |past.links| ::
      k'.channels[past.links[i].sock].delivered == k.channels[past.links[i].sock].delivered
  }

  lemma {:induction false} WireFrame(k: Kernel, k': Kernel, first: Kernel, past: Past, stdin: nat)
    requires WireKept(k, first, past) && SameTraffic(k, k', past, stdin) && |first.channels| <= |k.channels|
    ensures WireKept(k', first, past)
  {
  }

  lemma {:induction false} KeptFrame(c: Client, c': Client, foreign: map<int, nat>, first: Kernel, past: Past)
    requires Kept(c, foreign, first, past) && Conserved(c', foreign)
    requires Known(c', first, past, foreign[STDIN_FILENO])
    requires SameTraffic(c.k, c'.k, past, foreign[STDIN_FILENO])
    requires c'.writeBuffer == c.writeBuffer && c'.readBuffer == c.readBuffer && c'.output == c.output
    ensures Kept(c', foreign, first, past)
  {
    WireFrame(c.k, c'.k, first, past, foreign[STDIN_FILENO]);
    HeardSame(c.k, c'.k, past.links);
  }

  lemma {:induction false} RecordStop(c: Client, foreign: map<int, nat>, first: Kernel, past: Past)
    requires Kept(c, foreign, first, past)
    ensures Kept(Stop(c), foreign, first, past)
  {
    StopConserves(c, foreign);
    assert Stop(c).k.channels == c.k.channels;
    KeptFrame(c, Stop(c), foreign, first, past);
  }

  /** A read from one open descriptor changes the delivered bytes of its channel and nothing else of the traffic. */
  lemma {:induction false} ReadChanges(k: Kernel, fd: int, max: nat)
    requires ValidKernel(k)
    ensures var g := SysRead(k, fd, max);
            g.kernel.table == k.table && g.kernel.closed == k.closed && |g.kernel.channels| == |k.channels| &&
            (fd !in k.table ==> g.kernel == k && g.bytes == "") &&
            forall id: nat | id < |k.channels| ::
              g.kernel.channels[id].sent == k.channels[id].sent &&
              g.kernel.channels[id].delivered
              == if fd in k.table && id == k.table[fd] then k.channels[id].delivered + g.bytes
                else k.channels[id].delivered
  {
  }

  /** Two numbers of the table never lead to the same channel. */
  lemma {:induction false} StdinIsNobodyElses(c: Client, foreign: map<int, nat>, first: Kernel, past: Past)
    requires Kept(c, foreign, first, past)
    ensures c.signalFd in c.k.table ==> c.k.table[c.signalFd] != foreign[STDIN_FILENO]
    ensures c.clientFd in c.k.table ==> c.k.table[c.clientFd] != foreign[STDIN_FILENO]
  {
    assert c.signalFd in c.k.table ==> c.signalFd >= 0;
    assert c.clientFd in c.k.table ==> c.clientFd >= 0;
  }

  /** Reading from the signal descriptor leaves every stream of the past as it was. */
  lemma {:induction false} RecordSignalRead(c: Client, foreign: map<int, nat>, first: Kernel, past: Past)
    requires Kept(c, foreign, first, past)
    ensures Kept(c.(k := SysRead(c.k, c.signalFd, SIGINFO_SIZE).kernel), foreign, first, past)
  {
    var c' := c.(k := SysRead(c.k, c.signalFd, SIGINFO_SIZE).kernel);
    ReadChanges(c.k, c.signalFd, SIGINFO_SIZE);
    StdinIsNobodyElses(c, foreign, first, past);
    SameDescriptors(c, c', foreign);
    KeptFrame(c, c', foreign, first, past);
  }

  lemma {:induction false} RecordSignal(c: Client, foreign: map<int, nat>, first: Kernel, past: Past)
    requires Kept(c, foreign, first, past)
    ensures Kept(SignalStep(c).client, foreign, first, past)
  {
    RecordSignalRead(c, foreign, first, past);
    RecordStop(c.(k := SysRead(c.k, c.signalFd, SIGINFO_SIZE).kernel), foreign, first, past);
  }

  // ----- the downlink -----

  /** One chunk more has been heard. */
  lemma {:induction false} RecordServer(c: Client, foreign: map<int, nat>, first: Kernel, past: Past)
    requires Kept(c, foreign, first, past) && c.connected
    ensures Kept(ServerStep(c).client, foreign, first, past)
  {
    var free, c' := FreeSpace(c.readBuffer), ServerStep(c).client;
    var g := SysRead(c.k, c.clientFd, free);
    ReadChanges(c.k, c.clientFd, free);
    StdinIsNobodyElses(c, foreign, first, past);
    SameDescriptors(c, c', foreign);
    HeardKnown(c, c', first, past, foreign[STDIN_FILENO], g.bytes);
    ServerDownlink(c, past);
  }

  /** A chunk from the socket is in the stream of the last link, and nothing else has changed. */
  ghost predicate HearsMore(k: Kernel, k': Kernel, sock: nat, bytes: string) {
    k'.table == k.table && |k'.channels| == |k.channels| &&
    forall id: nat | id < |k.channels| ::
      k'.channels[id].sent == k.channels[id].sent &&
      k'.channels[id].delivered
      == if id == sock then k.channels[id].delivered + bytes else k.channels[id].delivered
  }

  lemma {:induction false} HeardKnown(c: Client, c': Client, first: Kernel, past: Past, stdin: nat, bytes: string)
    requires Known(c, first, past, stdin) && c.connected && ValidClient(c) && ValidClient(c')
    requires TypedKept(c, first, past, stdin) && WireKept(c.k, first, past)
    requires HearsMore(c.k, c'.k, c.k.table[c.clientFd], bytes)
    requires c'.clientFd == c.clientFd && c'.signalFd == c.signalFd && c'.connected == c.connected &&
             c'.writeBuffer == c.writeBuffer
    ensures Known(c', first, past, stdin) && TypedKept(c', first, past, stdin) && WireKept(c'.k, first, past)
  {
  }

  lemma {:induction false} ServerDownlink(c: Client, past: Past)
    requires ValidClient(c) && ValidKernel(c.k) && c.clientFd in c.k.table && past.links != [] &&
             LinksIn(c.k, past.links) && LinksRise(past.links)
    requires c.k.table[c.clientFd] == past.links[|past.links| - 1].sock
    requires DownlinkKept(c, past)
    ensures LinksIn(ServerStep(c).client.k, past.links) && DownlinkKept(ServerStep(c).client, past)
  {
    var g := SysRead(c.k, c.clientFd, FreeSpace(c.readBuffer));
    ReadChanges(c.k, c.clientFd, FreeSpace(c.readBuffer));
    HeardGrows(c.k, g.kernel, past.links, g.bytes);
    var heard := HeardOver(c.k, past.links);
    if g.result.Count? {
      DrainedContents(Appended(c.readBuffer, g.bytes), NEWLINE);
      ShownContinues(c.output, heard, g.bytes);
    } else {
      assert heard + g.bytes == heard;
    }
  }

  lemma {:induction false} ShownContinues(output: string, heard: string, bytes: string)
    requires output == Lines.Complete(heard, NEWLINE)
    ensures output + Lines.Complete(Lines.Rest(heard, NEWLINE) + bytes, NEWLINE)
            == Lines.Complete(heard + bytes, NEWLINE)
    ensures Lines.Rest(Lines.Rest(heard, NEWLINE) + bytes, NEWLINE) == Lines.Rest(heard + bytes, NEWLINE)
  {
    Lines.CompleteAppend(heard, bytes, NEWLINE);
  }

  // ----- the uplink -----

  /** What was held and what was read is what left and what is held now. */
  lemma {:induction false} UplinkTexts(pieces: seq<Piece>, held: string, bytes: string, p: Piece, left: string)
    requires Fragments(pieces, held) && AllWhole(pieces)
    requires p.full + left == held + bytes && Lines.WholeLines(p.full, NEWLINE) &&
             Lines.Fragment(p.partial, left, NEWLINE)
    ensures Fragments(pieces + [p], left) && AllWhole(pieces + [p])
    ensures Fulls(pieces) + held + bytes == Fulls(pieces + [p]) + left
  {
    FragmentsStay(pieces, held, bytes);
    FragmentsSnoc(pieces, p, left);
    FullsSnoc(pieces, p);
    Regrouped(Fulls(pieces), held, bytes, p.full, left);
  }

  lemma Regrouped(before: string, held: string, bytes: string, full: string, left: string)
    requires full + left == held + bytes
    ensures before + held + bytes == before + full + left
  {
    assert before + held + bytes == before + (held + bytes);
    assert before + (full + left) == before + full + left;
  }

  /** One link after one more piece. */
  lemma {:induction false} CarriesMore(sent: string, sent': string, link: Link, pieces: seq<Piece>, p: Piece)
    requires Carries(sent, link, pieces) && (link.sock == p.sock ==> link.made)
    requires sent' == if link.sock == p.sock then sent + (p.full + p.partial) else sent
    ensures Carries(sent', link, pieces + [p])
  {
    WireSnoc(pieces, p, link.sock);
    var wire := WireOn(pieces, link.sock);
    assert link.greeting + wire + (p.full + p.partial) == link.greeting + (wire + (p.full + p.partial));
    assert wire + "" == wire;
  }

  /** What the read and the drain together do to the channels. */
  ghost predicate Drains(k: Kernel, k': Kernel, stdin: nat, bytes: string, p: Piece) {
    stdin < |k.channels| && k'.table == k.table && |k'.channels| == |k.channels| &&
    forall id: nat | id < |k.channels| ::
      k'.channels[id].sent
      == (if id == p.sock then k.channels[id].sent + (p.full + p.partial) else k.channels[id].sent) &&
      k'.channels[id].delivered
      == if id == stdin then k.channels[id].delivered + bytes else k.channels[id].delivered
  }

  /** The wire of every socket after one more piece. */
  lemma {:induction false} PieceWire(k: Kernel, k': Kernel, first: Kernel, past: Past, stdin: nat, bytes: string,
                                     p: Piece)
    requires WireKept(k, first, past) && Drains(k, k', stdin, bytes, p)
    requires LinksRise(past.links) && past.links != [] && past.links[|past.links| - 1].made &&
             p.sock == past.links[|past.links| - 1].sock
    ensures WireKept(k', first, past.(pieces := past.pieces + [p]))
  {
    forall i | 0 <= i < |past.links|
      ensures Carries(k'.channels[past.links[i].sock].sent, past.links[i], past.pieces + [p])
    {
      var sock := past.links[i].sock;
      CarriesMore(k.channels[sock].sent, k'.channels[sock].sent, past.links[i], past.pieces, p);
    }
  }

  lemma {:induction false} PieceKnown(c: Client, c': Client, first: Kernel, past: Past, stdin: nat, bytes: string,
                                      p: Piece)
    requires Known(c, first, past, stdin) && c.connected && Drains(c.k, c'.k, stdin, bytes, p)
    requires c'.connected && c'.clientFd == c.clientFd && c'.signalFd == c.signalFd
    requires p.sock == c.k.table[c.clientFd]
    ensures Known(c', first, past.(pieces := past.pieces + [p]), stdin)
  {
    var pieces := past.pieces + [p];
    forall i | 0 <= i < |pieces| ensures IsConnection(past.links, pieces[i].sock) && pieces[i].sock <= p.sock {
      if i == |past.pieces| {
        assert past.links[|past.links| - 1].sock == p.sock;
      } else {
        assert IsConnection(past.links, past.pieces[i].sock);
      }
    }
  }

  lemma {:induction false} PieceTyped(c: Client, c': Client, first: Kernel, past: Past, stdin: nat, bytes: string,
                                      p: Piece)
    requires Known(c, first, past, stdin) && ValidClient(c) && TypedKept(c, first, past, stdin)
    requires Drains(c.k, c'.k, stdin, bytes, p) && ValidClient(c')
    requires Known(c', first, past.(pieces := past.pieces + [p]), stdin)
    requires p.full + Contents(c'.writeBuffer) == Contents(c.writeBuffer) + bytes
    requires Lines.WholeLines(p.full, NEWLINE) && Lines.Fragment(p.partial, Contents(c'.writeBuffer), NEWLINE)
    ensures TypedKept(c', first, past.(pieces := past.pieces + [p]), stdin)
  {
    UplinkTexts(past.pieces, Contents(c.writeBuffer), bytes, p, Contents(c'.writeBuffer));
    TailGrows(c.k.channels[stdin].delivered, bytes, |first.channels[stdin].delivered|);
  }

  lemma TailGrows(t: string, more: string, n: nat)
    requires n <= |t|
    ensures (t + more)[n..] == t[n..] + more
  {
  }

  lemma {:induction false} PieceDownlink(c: Client, c': Client, past: Past, stdin: nat, bytes: string, p: Piece)
    requires LinksIn(c.k, past.links) && ValidClient(c) && DownlinkKept(c, past) && !IsSocket(past.links, stdin)
    requires Drains(c.k, c'.k, stdin, bytes, p) && ValidClient(c')
    requires c'.readBuffer == c.readBuffer && c'.output == c.output
    ensures LinksIn(c'.k, past.links) && DownlinkKept(c', past.(pieces := past.pieces + [p]))
  {
    HeardSame(c.k, c'.k, past.links);
  }

  /** The invariant after one more piece. */
  lemma {:induction false} PieceKeeps(c: Client, c': Client, foreign: map<int, nat>, first: Kernel, past: Past,
                                      bytes: string, p: Piece)
    requires Kept(c, foreign, first, past) && c.connected && Conserved(c', foreign)
    requires c' == c.(k := c'.k, writeBuffer := c'.writeBuffer)
    requires p.sock == c.k.table[c.clientFd] && Drains(c.k, c'.k, foreign[STDIN_FILENO], bytes, p)
    requires p.full + Contents(c'.writeBuffer) == Contents(c.writeBuffer) + bytes
    requires Lines.WholeLines(p.full, NEWLINE) && Lines.Fragment(p.partial, Contents(c'.writeBuffer), NEWLINE)
    ensures Kept(c', foreign, first, past.(pieces := past.pieces + [p]))
  {
    var stdin := foreign[STDIN_FILENO];
    PieceKnown(c, c', first, past, stdin, bytes, p);
    PieceTyped(c, c', first, past, stdin, bytes, p);
    PieceWire(c.k, c'.k, first, past, stdin, bytes, p);
    PieceDownlink(c, c', past, stdin, bytes, p);
  }

  /** The kernel after a drain: the socket has the piece, and no other channel has changed. */
  lemma {:induction false} DrainChanges(k: Kernel, fd: int, b: Buf, d: DrainResult, full: string, partial: string)
    requires ValidBuf(b) && IsOpen(k, fd) && ValidBuf(d.buf)
    requires DrainEffect(k, fd, b, d, NEWLINE, full, partial)
    ensures d.kernel.table == k.table && d.kernel.closed == k.closed && |d.kernel.channels| == |k.channels| &&
            forall id: nat | id < |k.channels| ::
              d.kernel.channels[id].delivered == k.channels[id].delivered &&
              d.kernel.channels[id].sent == if id == k.table[fd] then k.channels[id].sent + (full + partial)
                else k.channels[id].sent
  {
    assert d.kernel.channels[k.table[fd]] == ChannelOf(d.kernel, fd);
  }

  /** At most one piece has been added, on this socket. */
  predicate PieceAdded(past: Past, past': Past, sock: nat) {
    past' == past ||
    (past'.pieces != [] && past'.pieces[|past'.pieces| - 1].sock == sock && past'.links == past.links &&
     past.pieces == past'.pieces[..|past'.pieces| - 1])
  }

  lemma {:induction false} RecordDrain(c: Client, c1: Client, foreign: map<int, nat>, first: Kernel, past: Past,
                                       bytes: string)
    returns (past': Past)
    requires Kept(c, foreign, first, past) && c.connected && |bytes| <= FreeSpace(c.writeBuffer)
    requires c1 == c.(k := c1.k) && Conserved(c1, foreign)
    requires c1.k.table == c.k.table && |c1.k.channels| == |c.k.channels|
    requires forall id: nat | id < |c.k.channels| ::
               c1.k.channels[id].sent == c.k.channels[id].sent &&
               c1.k.channels[id].delivered
               == if id == foreign[STDIN_FILENO] then c.k.channels[id].delivered + bytes else c.k.channels[id].delivered
    ensures var d := DrainTo(c1.k, c.clientFd, Appended(c.writeBuffer, bytes), NEWLINE);
            Kept(c1.(k := d.kernel, writeBuffer := d.buf), foreign, first, past')
    ensures PieceAdded(past, past', c.k.table[c.clientFd])
  {
    var b := Appended(c.writeBuffer, bytes);
    var full, partial := DrainAppends(c1.k, c.clientFd, b, NEWLINE);
    var d := DrainTo(c1.k, c.clientFd, b, NEWLINE);
    var p := Piece(c.k.table[c.clientFd], full, partial);
    past' := past.(pieces := past.pieces + [p]);
    DrainChanges(c1.k, c.clientFd, b, d, full, partial);
    var c' := c1.(k := d.kernel, writeBuffer := d.buf);
    SameDescriptors(c1, c', foreign);
    PieceKeeps(c, c', foreign, first, past, bytes, p);
  }

  /** One event on standard input adds at most one piece, on the connection in use. */
  lemma {:induction false} RecordStdin(c: Client, foreign: map<int, nat>, first: Kernel, past: Past)
    returns (past': Past)
    requires Kept(c, foreign, first, past) && c.connected
    ensures Kept(StdinStep(c).client, foreign, first, past') && PieceAdded(past, past', c.k.table[c.clientFd])
    ensures StdinStep(c).outcome == Continue ==> StdinStep(c).client.connected
  {
    past' := past;
    var free := FreeSpace(c.writeBuffer);
    var g := SysRead(c.k, STDIN_FILENO, free);
    var c1 := c.(k := g.kernel);
    ReadChanges(c.k, STDIN_FILENO, free);
    SameDescriptors(c, c1, foreign);
    if g.result.Count? && g.result.n > 0 {
      past' := RecordDrain(c, c1, foreign, first, past, g.bytes);
    } else {
      var d := c.k.channels[foreign[STDIN_FILENO]].delivered;
      assert d + g.bytes == d;
      KeptFrame(c, c1, foreign, first, past);
      RecordStop(c1, foreign, first, past);
    }
  }

  // ----- a turn of the loop, and a session -----

  /** After a step: the invariant, and a client that goes on is connected. */
  ghost predicate KeptStep(s: Step, foreign: map<int, nat>, first: Kernel, past: Past) {
    Kept(s.client, foreign, first, past) && (s.outcome == Continue ==> s.client.connected)
  }

  /** No socket is added, and the pieces added are on the latest one. */
  predicate SameLinks(past: Past, past': Past) {
    past'.links == past.links && Extends(past, past')
  }

  lemma {:induction false} RecordStdinEvent(c: Client, foreign: map<int, nat>, first: Kernel, past: Past, event: bool)
    returns (past': Past)
    requires Kept(c, foreign, first, past) && c.connected
    ensures KeptStep(if event then StdinStep(c) else Step(Continue, c), foreign, first, past')
    ensures SameLinks(past, past')
  {
    past' := past;
    if event {
      past' := RecordStdin(c, foreign, first, past);
    }
  }

  lemma {:induction false} RecordServerEvent(s: Step, foreign: map<int, nat>, first: Kernel, past: Past, event: bool)
    requires KeptStep(s, foreign, first, past)
    ensures KeptStep(if event && s.outcome == Continue then ServerStep(s.client) else s, foreign, first, past)
  {
    if event && s.outcome == Continue {
      RecordServer(s.client, foreign, first, past);
    }
  }

  lemma {:induction false} RecordSignalEvent(s: Step, foreign: map<int, nat>, first: Kernel, past: Past, event: bool)
    requires KeptStep(s, foreign, first, past)
    ensures KeptStep(if event && s.outcome == Continue then SignalStep(s.client) else s, foreign, first, past)
  {
    if event && s.outcome == Continue {
      RecordSignal(s.client, foreign, first, past);
    }
  }

  lemma {:induction false} RecordRound(c: Client, foreign: map<int, nat>, first: Kernel, past: Past, poll: Poll)
    returns (past': Past)
    requires Kept(c, foreign, first, past) && c.connected
    ensures KeptStep(Round(c, poll), foreign, first, past') && SameLinks(past, past')
  {
    past' := past;
    if poll.Ready? {
      past' := RecordStdinEvent(c, foreign, first, past, poll.stdin);
      var s1 := if poll.stdin then StdinStep(c) else Step(Continue, c);
      RecordServerEvent(s1, foreign, first, past', poll.server);
      var s2 := if poll.server && s1.outcome == Continue then ServerStep(s1.client) else s1;
      RecordSignalEvent(s2, foreign, first, past', poll.signal);
    }
  }

  lemma {:induction false} RecordSession(c: Client, foreign: map<int, nat>, first: Kernel, past: Past,
                                         polls: seq<Poll>)
    returns (past': Past)
    requires Kept(c, foreign, first, past) && c.connected
    ensures Kept(Session(c, polls).client, foreign, first, past') && SameLinks(past, past')
    decreases |polls|
  {
    past' := past;
    if polls != [] {
      var past1 := RecordRound(c, foreign, first, past, polls[0]);
      past' := past1;
      var s := Round(c, polls[0]);
      if s.outcome == Continue {
        past' := RecordSession(s.client, foreign, first, past1, polls[1..]);
        ExtendsTwice(past, past1, past');
      }
    }
  }

  // ----- run -----

  /** The channels once the client has started, or has failed to send its name. */
  lemma {:induction false} StartingTraffic(c: Client, startup: Startup, name: string)
    requires ValidKernel(c.k) && CanStart(c, startup) && startup.fd != c.signalFd
    ensures var n, w := |c.k.channels|, NetIo.WriteAll(StartKernel(c, startup), startup.fd, name + "\n");
            |w.1.channels| == n + 2 && w.1.channels[..n] == c.k.channels &&
            w.1.channels[n].delivered == "" && w.1.channels[n + 1].sent == "" &&
            w.1.channels[n].sent <= name + "\n" && (w.0 <==> w.1.channels[n].sent == name + "\n")
  {
    var k0 := StartKernel(c, startup);
    assert k0.channels == c.k.channels + [Unused(startup.channel), Unused(startup.signalChannel)];
    assert startup.fd in k0.table && k0.table[startup.fd] == |c.k.channels|;
    var done := NetIo.WriteAllAppends(k0, startup.fd, name + "\n");
    assert "" + done == done;
  }

  /** The new channels follow those that were there, which are as they were. */
  ghost predicate ChannelsAdded(k: Kernel, k': Kernel) {
    |k'.channels| == |k.channels| + 2 && forall id: nat | id < |k.channels| :: k'.channels[id] == k.channels[id]
  }

  lemma {:induction false} SamePrefix(k: Kernel, k': Kernel)
    requires |k.channels| <= |k'.channels| && k'.channels[..|k.channels|] == k.channels
    ensures forall id: nat | id < |k.channels| :: k'.channels[id] == k.channels[id]
  {
    assert forall id: nat | id < |k.channels| :: k'.channels[id] == k'.channels[..|k.channels|][id];
  }

  lemma {:induction false} SocketSnoc(links: seq<Link>, link: Link, id: nat)
    ensures IsSocket(links + [link], id) <==> IsSocket(links, id) || id == link.sock
    ensures IsConnection(links, id) ==> IsConnection(links + [link], id)
  {
    var more := links + [link];
    assert more[|links|] == link;
    if IsSocket(links, id) {
      var i :| 0 <= i < |links| && links[i].sock == id;
      assert more[i].sock == id;
    }
    if IsConnection(links, id) {
      var i :| 0 <= i < |links| && links[i].made && links[i].sock == id;
      assert more[i].made && more[i].sock == id;
    }
  }

  lemma {:induction false} LinkKnown(c: Client, c': Client, first: Kernel, past: Past, link: Link, stdin: nat)
    requires Known(c, first, past, stdin) && ChannelsAdded(c.k, c'.k) && link.sock == |c.k.channels|
    requires STDIN_FILENO in c'.k.table && c'.k.table[STDIN_FILENO] == stdin
    requires c'.connected ==> link.made && c'.clientFd in c'.k.table && c'.k.table[c'.clientFd] == link.sock
    requires c'.signalFd in c'.k.table && c'.k.table[c'.signalFd] == link.sock + 1
    ensures Known(c', first, past.(links := past.links + [link]), stdin)
  {
    SocketSnoc(past.links, link, link.sock + 1);
    forall i | 0 <= i < |past.pieces| ensures IsConnection(past.links + [link], past.pieces[i].sock) {
      SocketSnoc(past.links, link, past.pieces[i].sock);
    }
  }

  lemma {:induction false} LinkWire(k: Kernel, k': Kernel, first: Kernel, past: Past, link: Link)
    requires WireKept(k, first, past) && ChannelsAdded(k, k') && link.sock == |k.channels| >= |first.channels|
    requires forall i | 0 <= i < |past.pieces| :: past.pieces[i].sock < |k.channels|
    requires var sent := k'.channels[link.sock].sent; sent <= link.greeting && (link.made <==> sent == link.greeting)
    requires k'.channels[link.sock + 1].sent == ""
    ensures WireKept(k', first, past.(links := past.links + [link]))
  {
    var links := past.links + [link];
    NothingOnOthers(past.pieces, link.sock);
    assert link.greeting + "" == link.greeting;
    forall i | 0 <= i < |links| ensures Carries(k'.channels[links[i].sock].sent, links[i], past.pieces) {
      if i < |past.links| {
        assert links[i] == past.links[i];
      }
    }
    forall id: nat | id < |k'.channels| && !IsSocket(links, id)
      ensures k'.channels[id].sent == SentBefore(first, id)
    {
      SocketSnoc(past.links, link, id);
    }
  }

  lemma {:induction false} LinkDownlink(c: Client, c': Client, past: Past, link: Link)
    requires LinksIn(c.k, past.links) && ValidClient(c) && DownlinkKept(c, past)
    requires ChannelsAdded(c.k, c'.k) && link.sock == |c.k.channels| && ValidClient(c')
    requires c'.k.channels[link.sock].delivered == "" && c'.readBuffer == c.readBuffer && c'.output == c.output
    ensures LinksIn(c'.k, past.links + [link]) && DownlinkKept(c', past.(links := past.links + [link]))
  {
    HeardSame(c.k, c'.k, past.links);
    assert (past.links + [link])[..|past.links|] == past.links;
    assert HeardOver(c'.k, past.links) + "" == HeardOver(c'.k, past.links);
  }

  /** A socket is added, on which nothing but the name, or a part of it, has been sent. */
  lemma {:induction false} LinkAdded(c: Client, c': Client, foreign: map<int, nat>, first: Kernel, past: Past,
                                     link: Link)
    requires Kept(c, foreign, first, past) && Conserved(c', foreign) && link.sock == |c.k.channels|
    requires ChannelsAdded(c.k, c'.k)
    requires var sent := c'.k.channels[link.sock].sent; sent <= link.greeting && (link.made <==> sent == link.greeting)
    requires c'.k.channels[link.sock + 1].sent == "" && c'.k.channels[link.sock].delivered == ""
    requires c'.connected ==> link.made && c'.clientFd in c'.k.table && c'.k.table[c'.clientFd] == link.sock
    requires c'.signalFd in c'.k.table && c'.k.table[c'.signalFd] == link.sock + 1
    requires c'.writeBuffer == c.writeBuffer && c'.readBuffer == c.readBuffer && c'.output == c.output
    ensures Kept(c', foreign, first, past.(links := past.links + [link]))
  {
    LinkKnown(c, c', first, past, link, foreign[STDIN_FILENO]);
    forall i | 0 <= i < |past.pieces| ensures past.pieces[i].sock < |c.k.channels| {
      assert IsConnection(past.links, past.pieces[i].sock);
    }
    LinkWire(c.k, c'.k, first, past, link);
    LinkDownlink(c, c', past, link);
  }

  lemma {:induction false} EarlyFailure(c: Client, name: string, startup: Startup)
    requires ValidClient(c) && !c.connected && !CanStart(c, startup)
    ensures var c' := RunClient(c, name, startup).client;
            c' == c ||
            (!startup.SocketFails? && c' == c.(k := c'.k) && c'.k.table == c.k.table &&
             c'.k.channels == c.k.channels + [Unused(startup.channel)])
  {
    if !startup.SocketFails? && CanOpen(c.k, startup.fd) {
      assert CloseFd(OpenFd(c.k, startup.fd, startup.channel), startup.fd).table == c.k.table;
    }
  }

  lemma {:induction false} UnusedAdded(k: Kernel, k': Kernel, channel: Channel, past: Past, stdin: nat)
    requires k'.channels == k.channels + [Unused(channel)] && stdin < |k.channels| && LinksIn(k, past.links)
    ensures SameTraffic(k, k', past, stdin)
  {
  }

  /** A run that fails before both descriptors are there has sent nothing. */
  lemma {:induction false} RecordEarlyFailure(c: Client, foreign: map<int, nat>, first: Kernel, past: Past,
                                              name: string, startup: Startup)
    requires Kept(c, foreign, first, past) && !c.connected && !CanStart(c, startup)
    ensures Kept(RunClient(c, name, startup).client, foreign, first, past)
  {
    RunConserves(c, foreign, name, startup);
    var c' := RunClient(c, name, startup).client;
    EarlyFailure(c, name, startup);
    if c' != c {
      UnusedAdded(c.k, c'.k, startup.channel, past, foreign[STDIN_FILENO]);
      KeptFrame(c, c', foreign, first, past);
    }
  }

  /** What `run` leaves once both descriptors have been opened. */
  lemma {:induction false} Started(c: Client, foreign: map<int, nat>, name: string, startup: Startup)
    requires Conserved(c, foreign) && !c.connected && CanStart(c, startup)
    ensures var c', n := RunClient(c, name, startup).client, |c.k.channels|;
            ChannelsAdded(c.k, c'.k) && c'.k.channels[n].delivered == "" && c'.k.channels[n + 1].sent == "" &&
            c'.k.channels[n].sent <= name + "\n" &&
            (RunClient(c, name, startup).outcome == Continue <==> c'.k.channels[n].sent == name + "\n") &&
            (c'.connected <==> RunClient(c, name, startup).outcome == Continue) &&
            (c'.connected ==> c'.clientFd in c'.k.table && c'.k.table[c'.clientFd] == n) &&
            c'.signalFd in c'.k.table && c'.k.table[c'.signalFd] == n + 1
  {
    RunConserves(c, foreign, name, startup);
    assert c.signalFd >= 0 ==> c.signalFd in c.k.table;
    StartingTraffic(c, startup, name);
    StartingConserves(c, foreign, startup, name);
    var w := NetIo.WriteAll(StartKernel(c, startup), startup.fd, name + "\n");
    var c' := RunClient(c, name, startup).client;
    assert c'.k.channels == w.1.channels && c'.signalFd == startup.signalFd;
    SamePrefix(c.k, w.1);
  }

  lemma {:induction false} RecordRun(c: Client, foreign: map<int, nat>, first: Kernel, past: Past, name: string,
                                     startup: Startup)
    returns (past': Past)
    requires Kept(c, foreign, first, past)
    ensures Kept(RunClient(c, name, startup).client, foreign, first, past')
    ensures past' == past.(links := past.links + MadeBy(c, Run(name, startup)))
  {
    past' := past.(links := past.links + MadeBy(c, Run(name, startup)));
    if c.connected || !CanStart(c, startup) {
      assert past' == past;
      if !c.connected {
        RecordEarlyFailure(c, foreign, first, past, name, startup);
      }
    } else {
      var r := RunClient(c, name, startup);
      RunConserves(c, foreign, name, startup);
      Started(c, foreign, name, startup);
      LinkAdded(c, r.client, foreign, first, past, Link(|c.k.channels|, name + "\n", r.outcome == Continue));
    }
  }

  // ----- the whole life -----

  lemma {:induction false} RecordAction(c: Client, foreign: map<int, nat>, first: Kernel, past: Past, a: Action)
    returns (past': Past)
    requires Kept(c, foreign, first, past)
    ensures Kept(Act(c, a), foreign, first, past')
    ensures past'.links == past.links + MadeBy(c, a) && Extends(past, past')
  {
    past' := past;
    match a {
      case Run(name, startup) => past' := RecordRun(c, foreign, first, past, name, startup);
      case Loop(polls) => if c.connected { past' := RecordSession(c, foreign, first, past, polls); }
      case StopClient => RecordStop(c, foreign, first, past);
    }
  }

  lemma {:induction false} LinksAndLater(past: Past, past1: Past, past2: Past, made: seq<Link>, later: seq<Link>)
    requires Extends(past, past1) && Extends(past1, past2) && LinksRise(past1.links)
    requires past1.links == past.links + made && past2.links == past1.links + later
    ensures Extends(past, past2) && past2.links == past.links + (made + later)
  {
    ExtendsTwice(past, past1, past2);
    assert past.links + made + later == past.links + (made + later);
  }

  /**
    Whatever use is made of the client from here on, the sockets that it opens are added to the past and what
    it sends is added on the latest socket there is or on later ones.
   */
  lemma {:induction false} UseContinues(c: Client, foreign: map<int, nat>, first: Kernel, past: Past,
                                        actions: seq<Action>)
    returns (past': Past)
    requires Kept(c, foreign, first, past)
    ensures Kept(Execute(c, actions), foreign, first, past')
    ensures past'.links == past.links + Made(c, actions) && Extends(past, past')
    decreases |actions|
  {
    past' := past;
    if actions != [] {
      var past1 := RecordAction(c, foreign, first, past, actions[0]);
      past' := UseContinues(Act(c, actions[0]), foreign, first, past1, actions[1..]);
      LinksAndLater(past, past1, past', MadeBy(c, actions[0]), Made(Act(c, actions[0]), actions[1..]));
    }
  }

  lemma {:induction false} NothingMoreOn(pieces: seq<Piece>, more: seq<Piece>, sock: nat)
    requires pieces <= more && forall i | |pieces| <= i < |more| :: more[i].sock != sock
    ensures WireOn(more, sock) == WireOn(pieces, sock)
    decreases |more|
  {
    if |pieces| < |more| {
      NothingMoreOn(pieces, more[..|more| - 1], sock);
      Lines.AppendNothing(WireOn(pieces, sock), "");
    } else {
      assert pieces == more;
    }
  }

  /** Once there is a later socket, nothing more is ever sent on a connection. */
  lemma {:induction false} EarlierStays(c: Client, c': Client, foreign: map<int, nat>, first: Kernel, past: Past,
                                        past': Past, i: nat)
    requires Kept(c, foreign, first, past) && Kept(c', foreign, first, past') && Extends(past, past')
    requires i < |past.links| - 1 && past.links[i].made
    ensures c'.k.channels[past.links[i].sock].sent == c.k.channels[past.links[i].sock].sent
  {
    var link := past.links[i];
    assert past'.links[i] == link;
    NothingMoreOn(past.pieces, past'.pieces, link.sock);
    assert Carries(c.k.channels[link.sock].sent, link, past.pieces);
    assert Carries(c'.k.channels[link.sock].sent, link, past'.pieces);
  }

  /** A client just constructed has moved nothing. */
  lemma {:induction false} NothingYet(c: Client)
    requires Constructed(c) && KernelConserved(c.k) && STDIN_FILENO in c.k.table
    ensures Kept(c, c.k.table, c.k, Past([], []))
  {
    var d := c.k.channels[c.k.table[STDIN_FILENO]].delivered;
    assert d[|d|..] == "";
  }

  lemma BehindNothing<T>(s: seq<T>, t: seq<T>)
    requires s == [] + t
    ensures s == t
  {
  }

  /**
    Over any use of a constructed client, with any number of connections and exceptions: everything typed is,
    in order, what has left the write buffer and what is in it; every connection made, and no other channel,
    carries the name given to its `run` and then the lines that left the buffer for it, each fragment of a
    failed write being a proper beginning of the line that stayed; a socket whose `run` failed carries a part of
    the name; and the screen shows the complete lines of everything heard on the connections made, one after the
    other, the unfinished line being in the buffer.
   */
  lemma {:induction false} HistoryOfUse(c: Client, actions: seq<Action>) returns (past: Past)
    requires Constructed(c) && KernelConserved(c.k) && STDIN_FILENO in c.k.table
    ensures Kept(Execute(c, actions), c.k.table, c.k, past) && past.links == Made(c, actions)
  {
    NothingYet(c);
    past := UseContinues(c, c.k.table, c.k, Past([], []), actions);
    BehindNothing(past.links, Made(c, actions));
  }

  // ----- the share of one connection -----

  /** The pieces of one socket stand together. */
  lemma {:induction false} Stretch(pieces: seq<Piece>, sock: nat) returns (before: string, after: string)
    requires PiecesRise(pieces)
    ensures Fulls(pieces) == before + FullsOn(pieces, sock) + after
    ensures (forall i | 0 <= i < |pieces| :: pieces[i].sock <= sock) ==> after == ""
  {
    before, after := "", "";
    if pieces != [] {
      var p, front := pieces[|pieces| - 1], pieces[..|pieces| - 1];
      if p.sock < sock {
        NothingOnOthers(pieces, sock);
        before := Fulls(pieces);
        assert before + "" + "" == before;
      } else {
        before, after := Stretch(front, sock);
        StretchSnoc(Fulls(front), before, FullsOn(front, sock), after, p.full);
        if p.sock == sock {
          assert after == "";
        } else {
          after := after + p.full;
        }
      }
    }
  }

  lemma StretchSnoc(all: string, before: string, share: string, after: string, full: string)
    requires all == before + share + after
    ensures all + full == before + share + (after + full)
    ensures after == "" ==> all + full == before + (share + full) + after
    ensures share + "" == share
  {
  }

  lemma {:induction false} WithoutFragments(pieces: seq<Piece>, sock: nat)
    requires forall i | 0 <= i < |pieces| && pieces[i].sock == sock :: pieces[i].partial == ""
    ensures WireOn(pieces, sock) == FullsOn(pieces, sock)
  {
    if pieces != [] {
      WithoutFragments(pieces[..|pieces| - 1], sock);
      var p := pieces[|pieces| - 1];
      assert p.full + "" == p.full;
    }
  }

  /**
    What leaves the buffer for one connection is one stretch of what was typed. If no write on the connection
    has failed, that stretch is exactly what it carries behind the name.
   */
  lemma {:induction false} ShareOfTyped(c: Client, foreign: map<int, nat>, first: Kernel, past: Past, i: nat)
    returns (before: string, after: string)
    requires Kept(c, foreign, first, past) && i < |past.links| && past.links[i].made
    ensures var link := past.links[i];
            var share := FullsOn(past.pieces, link.sock);
            TypedSince(c, first, foreign[STDIN_FILENO]) == before + share + after + Contents(c.writeBuffer) &&
            ((forall j | 0 <= j < |past.pieces| && past.pieces[j].sock == link.sock :: past.pieces[j].partial == "") ==>
               c.k.channels[link.sock].sent == link.greeting + share)
  {
    var sock := past.links[i].sock;
    before, after := Stretch(past.pieces, sock);
    assert Carries(c.k.channels[sock].sent, past.links[i], past.pieces);
    if forall j | 0 <= j < |past.pieces| && past.pieces[j].sock == sock :: past.pieces[j].partial == "" {
      WithoutFragments(past.pieces, sock);
    }
  }

  // ----- when a connection starts as the first one did -----

  /** Stopped, the client is as idle as a new one if and only if no complete line is left in its write buffer. */
  lemma {:induction false} IdleAgain(c: Client, foreign: map<int, nat>, first: Kernel, past: Past)
    requires Kept(c, foreign, first, past)
    ensures Idle(Stop(c)) <==> NEWLINE !in Contents(c.writeBuffer)
  {
    RecordStop(c, foreign, first, past);
  }

  lemma {:induction false} StdinLeavesNoLine(c: Client)
    requires ValidClient(c) && StdinStep(c).outcome == Continue
    ensures NEWLINE !in Contents(StdinStep(c).client.writeBuffer)
  {
    var g := SysRead(c.k, STDIN_FILENO, FreeSpace(c.writeBuffer));
    var b := Appended(c.writeBuffer, g.bytes);
    DrainIsSendLines(g.kernel, c.clientFd, b, NEWLINE, Lines.Split(Contents(b), NEWLINE));
    DrainedContents(b, NEWLINE);
  }

  lemma {:induction false} RoundLeavesNoLine(c: Client, poll: Poll)
    requires ValidClient(c) && NEWLINE !in Contents(c.writeBuffer) && Round(c, poll).outcome != Threw
    ensures NEWLINE !in Contents(Round(c, poll).client.writeBuffer)
  {
    if poll.Ready? && poll.stdin && StdinStep(c).outcome == Continue {
      StdinLeavesNoLine(c);
    }
  }

  /** Only an exception leaves a complete line behind. */
  lemma {:induction false} SessionLeavesNoLine(c: Client, polls: seq<Poll>)
    requires ValidClient(c) && NEWLINE !in Contents(c.writeBuffer) && Session(c, polls).outcome != Threw
    ensures NEWLINE !in Contents(Session(c, polls).client.writeBuffer)
    decreases |polls|
  {
    if polls != [] {
      RoundLeavesNoLine(c, polls[0]);
      var s := Round(c, polls[0]);
      if s.outcome == Continue {
        SessionLeavesNoLine(s.client, polls[1..]);
      }
    }
  }
}
