/**
  The list of poll descriptors that the event loop keeps beside the slots, and the counter of ready
  descriptors it counts down: both stay in step with the slots through accepting and swap-removal, and
  leaving early when the counter is used up loses nothing.
 */
module ServerPolling {
  import opened ProtocolBuffer
  import opened ServerModel
  import opened ServerSweep
  import opened Wrappers

  // ----- the descriptor list beside the slots -----

  datatype PollFd = PollFd(fd: int, revents: Revents)

  /** The events of the clients: the first two entries are the listener's and the signal descriptor's. */
  function EventsOf(pollfds: seq<PollFd>): (events: seq<Revents>)
    requires |pollfds| >= 2
    ensures |events| == |pollfds| - 2
    ensures forall j | 0 <= j < |events| :: events[j] == pollfds[j + 2].revents
  {
    seq(|pollfds| - 2, j requires 0 <= j < |pollfds| - 2 => pollfds[j + 2].revents)
  }

  /** Entry j + 2 of the list is the descriptor of slot j, and there are no other entries behind the first two. */
  predicate Parallel(pollfds: seq<PollFd>, slots: seq<Slot>) {
    |pollfds| == |slots| + 2 && forall j | 0 <= j < |slots| :: pollfds[j + 2].fd == slots[j].fd
  }

  lemma {:induction false} RemovalKeepsParallel(pollfds: seq<PollFd>, slots: seq<Slot>, i: nat, slots': seq<Slot>)
    requires Parallel(pollfds, slots) && i < |slots|
    requires Fds(slots') == SwapRemoved(Fds(slots), i)
    ensures Parallel(SwapRemoved(pollfds, i + 2), slots')
    ensures EventsOf(SwapRemoved(pollfds, i + 2)) == SwapRemoved(EventsOf(pollfds), i)
  {
    assert |slots'| == |Fds(slots')|;
    assert forall j | 0 <= j < |slots'| :: slots'[j].fd == Fds(slots')[j];
  }

  lemma {:induction false} ServingKeepsParallel(pollfds: seq<PollFd>, slots: seq<Slot>, slots': seq<Slot>)
    requires Parallel(pollfds, slots) && Fds(slots') == Fds(slots)
    ensures Parallel(pollfds, slots')
  {
    assert |slots'| == |Fds(slots')|;
    assert forall j | 0 <= j < |slots'| :: slots'[j].fd == Fds(slots')[j];
  }

  lemma {:induction false} NoneReady(fds: seq<int>, events: seq<Revents>, i: nat)
    requires i <= |fds| == |events| && |ReadyFds(fds, events, i)| == 0
    ensures forall j | i <= j < |events| :: !IsReady(events[j])
    decreases |fds| - i
  {
    if i < |fds| {
      assert |ReadyFds(fds, events, i)| == |ReadyFd(fds[i], events[i])| + |ReadyFds(fds, events, i + 1)|;
      NoneReady(fds, events, i + 1);
    }
  }

  // ----- the sweep with its counter -----

  function After(handled: seq<int>, r: Swept): Swept {
    r.(handled := handled + r.handled)
  }

  /**
    Half-way: the list stands beside the slots, the counter covers what is still to be served, and going
    on gives what the whole sweep gives.
   */
  ghost predicate Sweeping(s: Server, pollfds: seq<PollFd>, i: nat, nready: int, handled: seq<int>, whole: Swept) {
    Parallel(pollfds, s.clients) && ValidServer(s) && i <= |s.clients| &&
    nready >= |ReadyFds(Fds(s.clients), EventsOf(pollfds), i)| &&
    After(handled, Sweep(s, EventsOf(pollfds), i)) == whole
  }

  lemma {:induction false} SweepBegins(s: Server, pollfds: seq<PollFd>, nready: int)
    requires Parallel(pollfds, s.clients) && ValidServer(s)
    requires nready >= |ReadyFds(Fds(s.clients), EventsOf(pollfds), 0)|
    ensures Sweeping(s, pollfds, 0, nready, [], Sweep(s, EventsOf(pollfds), 0))
  {
    var r := Sweep(s, EventsOf(pollfds), 0);
    assert [] + r.handled == r.handled;
  }

  lemma {:induction false} SweepPasses(s: Server, pollfds: seq<PollFd>, i: nat, nready: int, handled: seq<int>,
                                       whole: Swept)
    requires Sweeping(s, pollfds, i, nready, handled, whole) && i < |s.clients| && !IsReady(pollfds[i + 2].revents)
    ensures Sweeping(s, pollfds, i + 1, nready, handled, whole)
  {
  }

  lemma {:induction false} AfterServing(handled: seq<int>, fd: int, r: Swept)
    ensures After(handled, Serving(fd, r)) == After(handled + [fd], r)
  {
    assert handled + ([fd] + r.handled) == handled + [fd] + r.handled;
  }

  /** A slot served and removed: the last entry takes its place in the list as well, and stands where it stood. */
  lemma {:induction false} SweepRemoves(s: Server, pollfds: seq<PollFd>, i: nat, nready: int, handled: seq<int>,
                                        whole: Swept)
    requires Sweeping(s, pollfds, i, nready, handled, whole) && i < |s.clients| && IsReady(pollfds[i + 2].revents)
    requires Serve(s, pollfds[i + 2].revents, i).removed
    ensures Sweeping(Serve(s, pollfds[i + 2].revents, i).server, SwapRemoved(pollfds, i + 2), i, nready - 1,
                     handled + [s.clients[i].fd], whole)
  {
    var r, events := Serve(s, pollfds[i + 2].revents, i), EventsOf(pollfds);
    RemovalKeepsParallel(pollfds, s.clients, i, r.server.clients);
    ReadyFdsAfterRemoval(Fds(s.clients), events, i);
    AfterServing(handled, s.clients[i].fd, Sweep(r.server, SwapRemoved(events, i), i));
  }

  /** A slot served and kept. */
  lemma {:induction false} SweepKeeps(s: Server, pollfds: seq<PollFd>, i: nat, nready: int, handled: seq<int>,
                                      whole: Swept)
    requires Sweeping(s, pollfds, i, nready, handled, whole) && i < |s.clients| && IsReady(pollfds[i + 2].revents)
    requires !Serve(s, pollfds[i + 2].revents, i).removed && Serve(s, pollfds[i + 2].revents, i).outcome == Continue
    ensures Sweeping(Serve(s, pollfds[i + 2].revents, i).server, pollfds, i + 1, nready - 1,
                     handled + [s.clients[i].fd], whole)
  {
    var r, events := Serve(s, pollfds[i + 2].revents, i), EventsOf(pollfds);
    ServingKeepsParallel(pollfds, s.clients, r.server.clients);
    AfterServing(handled, s.clients[i].fd, Sweep(r.server, events, i + 1));
  }

  /** One ready slot served: the counter goes down by one, and so does what it has to cover. */
  lemma {:induction false} SweepServes(s: Server, pollfds: seq<PollFd>, i: nat, nready: int, handled: seq<int>,
                                       whole: Swept)
    requires Sweeping(s, pollfds, i, nready, handled, whole) && i < |s.clients| && IsReady(pollfds[i + 2].revents)
    ensures var r := Serve(s, pollfds[i + 2].revents, i);
            if r.outcome != Continue then
              Swept(r.outcome, r.server, handled + [s.clients[i].fd]) == whole
            else
              Sweeping(r.server, if r.removed then SwapRemoved(pollfds, i + 2) else pollfds,
                       if r.removed then i else i + 1, nready - 1, handled + [s.clients[i].fd], whole)
  {
    var r := Serve(s, pollfds[i + 2].revents, i);
    if r.removed {
      SweepRemoves(s, pollfds, i, nready, handled, whole);
    } else if r.outcome == Continue {
      SweepKeeps(s, pollfds, i, nready, handled, whole);
    }
  }

  /** Once the counter is used up, nothing is left to serve. */
  lemma {:induction false} SweepEnds(s: Server, pollfds: seq<PollFd>, i: nat, nready: int, handled: seq<int>,
                                     whole: Swept)
    requires Sweeping(s, pollfds, i, nready, handled, whole) && (nready <= 0 || i == |s.clients|)
    ensures Swept(Continue, s, handled) == whole
  {
    if i < |s.clients| {
      NoneReady(Fds(s.clients), EventsOf(pollfds), i);
    }
    SweepIdle(s, EventsOf(pollfds), i);
    assert handled + [] == handled;
  }

  // ----- one return of poll -----

  /** What `poll` writes into the list: events for the listener, the signal descriptor and the clients. */
  function WithEvents(pollfds: seq<PollFd>, listen: Revents, signal: Revents, events: seq<Revents>): (r: seq<PollFd>)
    requires |pollfds| == |events| + 2
    ensures |r| == |pollfds| && r[0].revents == listen && r[1].revents == signal
    ensures EventsOf(r) == events
    ensures forall j | 0 <= j < |r| :: r[j].fd == pollfds[j].fd
  {
    seq(|pollfds|, j requires 0 <= j < |pollfds| =>
      PollFd(pollfds[j].fd, if j == 0 then listen else if j == 1 then signal else events[j - 2]))
  }

  function ReadyOne(e: Revents): nat {
    if IsReady(e) then 1 else 0
  }

  /** What `poll` returns: the number of entries, from position i on, with any events. */
  function ReadyCount(pollfds: seq<PollFd>, i: nat): nat
    requires i <= |pollfds|
    decreases |pollfds| - i
  {
    if i == |pollfds| then 0 else ReadyOne(pollfds[i].revents) + ReadyCount(pollfds, i + 1)
  }

  lemma {:induction false} ReadyCountOfClients(pollfds: seq<PollFd>, fds: seq<int>, i: nat)
    requires |pollfds| == |fds| + 2 && i <= |fds|
    ensures ReadyCount(pollfds, i + 2) == |ReadyFds(fds, EventsOf(pollfds), i)|
    decreases |fds| - i
  {
    if i < |fds| {
      ReadyCountOfClients(pollfds, fds, i + 1);
    }
  }

  /** The list stands beside the slots, and the counter covers the signal descriptor and the clients. */
  ghost predicate Covered(s: Server, pollfds: seq<PollFd>, nready: int) {
    Parallel(pollfds, s.clients) &&
    nready >= ReadyOne(pollfds[1].revents) + |ReadyFds(Fds(s.clients), EventsOf(pollfds), 0)|
  }

  lemma {:induction false} PollCovers(s: Server, pollfds: seq<PollFd>)
    requires Parallel(pollfds, s.clients)
    ensures Covered(s, pollfds, ReadyCount(pollfds, 0) - ReadyOne(pollfds[0].revents))
  {
    ReadyCountOfClients(pollfds, Fds(s.clients), 0);
    assert ReadyCount(pollfds, 1) == ReadyOne(pollfds[1].revents) + ReadyCount(pollfds, 2);
  }

  /** The round behind the accepting: signals, then clients. */
  ghost function RoundRest(s: Server, pollfds: seq<PollFd>): (r: Step)
    requires ValidServer(s) && Parallel(pollfds, s.clients)
  {
    if pollfds[1].revents.pollin then SignalStep(s)
    else
      var r := Sweep(s, EventsOf(pollfds), 0);
      Step(r.outcome, r.server)
  }

  /** With the counter used up, going on to the signals and the clients would have done nothing. */
  lemma {:induction false} RestIdle(s: Server, pollfds: seq<PollFd>, nready: int)
    requires ValidServer(s) && Covered(s, pollfds, nready) && nready <= 0
    ensures RoundRest(s, pollfds) == Step(Continue, s)
  {
    NoneReady(Fds(s.clients), EventsOf(pollfds), 0);
    SweepIdle(s, EventsOf(pollfds), 0);
  }

  /** The list after a connection was accepted: an entry without events is added for it, if it was kept. */
  function Extended(pollfds: seq<PollFd>, kept: bool, fd: int): (r: seq<PollFd>)
    ensures |r| >= |pollfds|
  {
    if kept then pollfds + [PollFd(fd, NO_EVENTS)] else pollfds
  }

  lemma {:induction false} ExtendedCovers(slots: seq<Slot>, slot: Slot, pollfds: seq<PollFd>)
    requires Parallel(pollfds, slots)
    ensures Parallel(Extended(pollfds, true, slot.fd), slots + [slot])
    ensures EventsOf(Extended(pollfds, true, slot.fd)) == EventsFor(|slots| + 1, EventsOf(pollfds))
    ensures ReadyFds(Fds(slots + [slot]), EventsFor(|slots| + 1, EventsOf(pollfds)), 0)
            == ReadyFds(Fds(slots), EventsOf(pollfds), 0)
  {
    var pollfds', slots' := Extended(pollfds, true, slot.fd), slots + [slot];
    var fds, events := Fds(slots'), EventsOf(pollfds');
    assert EventsFor(|slots| + 1, EventsOf(pollfds)) == events;
    ReadyFdsLast(fds, events, 0);
    assert fds[..|slots|] == Fds(slots) && events[..|slots|] == EventsOf(pollfds);
  }

  /** Accepting keeps the list beside the slots and the counter sufficient. */
  lemma {:induction false} AcceptCovers(s: Server, accept: AcceptOutcome, pollfds: seq<PollFd>, nready: int)
    requires ValidServer(s) && Covered(s, pollfds, nready) && AcceptClient(s, accept).outcome == Continue
    ensures var s' := AcceptClient(s, accept).server;
            Covered(s', Extended(pollfds, |s.clients| < MAX_CLIENTS, accept.fd), nready)
    ensures var s' := AcceptClient(s, accept).server;
            EventsOf(Extended(pollfds, |s.clients| < MAX_CLIENTS, accept.fd))
              == EventsFor(|s'.clients|, EventsOf(pollfds))
  {
    if |s.clients| < MAX_CLIENTS {
      ExtendedCovers(s.clients, Slot(accept.fd, "NoName", Buf(accept.memory, 0), false), pollfds);
    }
  }

  /** The list as `poll` has filled it in, with a counter that covers it behind the listener's entry. */
  ghost predicate Describes(s: Server, poll: Poll, pollfds: seq<PollFd>, nready: int) {
    poll.Polled? && Covered(s, pollfds, nready) &&
    pollfds[1].revents == poll.signal && EventsOf(pollfds) == EventsFor(|s.clients|, poll.clients)
  }

  /** A round without a new connection, in terms of the list. */
  lemma {:induction false} RoundPolled(s: Server, poll: Poll, pollfds: seq<PollFd>, nready: int)
    requires ValidServer(s) && Describes(s, poll, pollfds, nready) && !poll.listen.pollin
    ensures Round(s, poll) == RoundRest(s, pollfds)
  {
    assert EventsFor(|s.clients|, EventsOf(pollfds)) == EventsOf(pollfds);
  }

  /** A round with one. */
  lemma {:induction false} RoundAccepts(s: Server, poll: Poll, pollfds: seq<PollFd>, nready: int)
    requires ValidServer(s) && Describes(s, poll, pollfds, nready) && poll.listen.pollin
    ensures var a := AcceptClient(s, poll.accept);
            if a.outcome == Continue then
              poll.accept.Accepted? &&
              Covered(a.server, Extended(pollfds, |s.clients| < MAX_CLIENTS, poll.accept.fd), nready) &&
              Round(s, poll) == RoundRest(a.server, Extended(pollfds, |s.clients| < MAX_CLIENTS, poll.accept.fd))
            else
              Round(s, poll) == a
  {
    if AcceptClient(s, poll.accept).outcome == Continue {
      AcceptCovers(s, poll.accept, pollfds, nready);
    }
  }
}
