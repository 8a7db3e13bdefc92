/** Sweep correctness: every client that was ready at the poll is served exactly once. */
module ServerSweep {
  import opened ServerModel
  import opened Wrappers

  /** A descriptor, if its events make it ready. */
  function ReadyFd(fd: int, e: Revents): multiset<int> {
    if IsReady(e) then multiset{fd} else multiset{}
  }

  /** The ready descriptors from position i on. */
  function ReadyFds(fds: seq<int>, events: seq<Revents>, i: nat): multiset<int>
    requires i <= |fds| == |events|
    decreases |fds| - i
  {
    if i == |fds| then multiset{} else ReadyFd(fds[i], events[i]) + ReadyFds(fds, events, i + 1)
  }

  /** Only what stands from i on matters. */
  lemma {:induction false} ReadyFdsAgree(a: seq<int>, ea: seq<Revents>, b: seq<int>, eb: seq<Revents>, i: nat)
    requires i <= |a| == |ea| == |b| == |eb|
    requires forall j | i <= j < |a| :: a[j] == b[j] && ea[j] == eb[j]
    ensures ReadyFds(a, ea, i) == ReadyFds(b, eb, i)
    decreases |a| - i
  {
    if i < |a| {
      ReadyFdsAgree(a, ea, b, eb, i + 1);
    }
  }

  lemma {:induction false} ReadyFdsLast(fds: seq<int>, events: seq<Revents>, i: nat)
    requires i < |fds| == |events|
    ensures ReadyFds(fds, events, i)
         == ReadyFds(fds[..|fds| - 1], events[..|fds| - 1], i) + ReadyFd(fds[|fds| - 1], events[|fds| - 1])
    decreases |fds| - i
  {
    if i < |fds| - 1 {
      ReadyFdsLast(fds, events, i + 1);
    }
  }

  /** Swap-removal takes exactly the departing descriptor out of what is still to be served. */
  lemma {:induction false} ReadyFdsAfterRemoval(fds: seq<int>, events: seq<Revents>, i: nat)
    requires i < |fds| == |events|
    ensures ReadyFds(fds, events, i)
         == ReadyFd(fds[i], events[i]) + ReadyFds(SwapRemoved(fds, i), SwapRemoved(events, i), i)
  {
    if i < |fds| - 1 {
      ReadyFdsReplaced(fds, events, i);
    } else {
      assert ReadyFds(SwapRemoved(fds, i), SwapRemoved(events, i), i) == multiset{};
      assert ReadyFds(fds, events, i + 1) == multiset{};
    }
  }

  lemma {:induction false} ReadyFdsReplaced(fds: seq<int>, events: seq<Revents>, i: nat)
    requires i < |fds| - 1 && |fds| == |events|
    ensures ReadyFds(fds, events, i)
         == ReadyFd(fds[i], events[i]) + ReadyFds(SwapRemoved(fds, i), SwapRemoved(events, i), i)
  {
    var last := |fds| - 1;
    ReadyFdsEnds(fds, events, i);
    ReadyFdsSwapped(fds, events, i);
    AddInOrder(ReadyFd(fds[i], events[i]), ReadyFds(fds[..last], events[..last], i + 1),
               ReadyFd(fds[last], events[last]));
  }

  /** The first, those between, and the last. */
  lemma {:induction false} ReadyFdsEnds(fds: seq<int>, events: seq<Revents>, i: nat)
    requires i < |fds| - 1 && |fds| == |events|
    ensures ReadyFds(fds, events, i)
         == ReadyFd(fds[i], events[i]) + (ReadyFds(fds[..|fds| - 1], events[..|fds| - 1], i + 1)
            + ReadyFd(fds[|fds| - 1], events[|fds| - 1]))
  {
    ReadyFdsLast(fds, events, i + 1);
  }

  /** After a removal before the end: the last descriptor, then those between. */
  lemma {:induction false} ReadyFdsSwapped(fds: seq<int>, events: seq<Revents>, i: nat)
    requires i < |fds| - 1 && |fds| == |events|
    ensures ReadyFds(SwapRemoved(fds, i), SwapRemoved(events, i), i)
         == ReadyFd(fds[|fds| - 1], events[|fds| - 1]) + ReadyFds(fds[..|fds| - 1], events[..|fds| - 1], i + 1)
  {
    var last := |fds| - 1;
    SwapRemovedAt(fds, i);
    SwapRemovedAt(events, i);
    ReadyFdsFrom(SwapRemoved(fds, i), SwapRemoved(events, i), fds[..last], events[..last], i,
                 ReadyFd(fds[last], events[last]));
  }

  lemma SwapRemovedAt<T>(s: seq<T>, i: nat)
    requires i < |s| - 1
    ensures SwapRemoved(s, i)[i] == s[|s| - 1]
    ensures forall j | 0 <= j < |s| - 1 && j != i :: SwapRemoved(s, i)[j] == s[..|s| - 1][j]
  {
  }

  lemma {:induction false} ReadyFdsFrom(a: seq<int>, ea: seq<Revents>, b: seq<int>, eb: seq<Revents>, i: nat,
                                        first: multiset<int>)
    requires i < |a| == |ea| == |b| == |eb| && first == ReadyFd(a[i], ea[i])
    requires forall j | i < j < |a| :: a[j] == b[j] && ea[j] == eb[j]
    ensures ReadyFds(a, ea, i) == first + ReadyFds(b, eb, i + 1)
  {
    ReadyFdsAgree(a, ea, b, eb, i + 1);
  }

  lemma AddInOrder(a: multiset<int>, b: multiset<int>, c: multiset<int>)
    ensures a + (b + c) == a + (c + b)
  {
  }

  lemma {:induction false} RemovedAreServed(fds: seq<int>, events: seq<Revents>, i: nat, served: seq<int>)
    requires i < |fds| == |events| && IsReady(events[i])
    requires multiset(served) == ReadyFds(SwapRemoved(fds, i), SwapRemoved(events, i), i)
    ensures multiset([fds[i]] + served) == ReadyFds(fds, events, i)
  {
    ReadyFdsAfterRemoval(fds, events, i);
    ServingAdds(fds[i], served);
  }

  lemma {:induction false} KeptAreServed(fds: seq<int>, events: seq<Revents>, i: nat, served: seq<int>)
    requires i < |fds| == |events| && IsReady(events[i])
    requires multiset(served) == ReadyFds(fds, events, i + 1)
    ensures multiset([fds[i]] + served) == ReadyFds(fds, events, i)
  {
    ServingAdds(fds[i], served);
  }

  /**
    Unless an exception ends it, a sweep serves each ready descriptor exactly once and no other, whatever
    slots are removed on the way.
   */
  lemma {:induction false} SweepServesReady(s: Server, events: seq<Revents>, i: nat)
    requires i <= |s.clients| == |events| && ValidServer(s)
    requires Sweep(s, events, i).outcome == Continue
    ensures multiset(Sweep(s, events, i).handled) == ReadyFds(Fds(s.clients), events, i)
    decreases |s.clients| - i
  {
    if i < |s.clients| {
      var r := Serve(s, events[i], i);
      if !IsReady(events[i]) {
        SweepServesReady(s, events, i + 1);
      } else if r.removed {
        SweepServesReady(r.server, SwapRemoved(events, i), i);
        RemovedAreServed(Fds(s.clients), events, i, Sweep(r.server, SwapRemoved(events, i), i).handled);
      } else {
        SweepServesReady(r.server, events, i + 1);
        KeptAreServed(Fds(s.clients), events, i, Sweep(r.server, events, i + 1).handled);
      }
    }
  }

  lemma ServingAdds(fd: int, handled: seq<int>)
    ensures multiset([fd] + handled) == multiset{fd} + multiset(handled)
  {
  }

  /** With distinct descriptors, exactly once means that no descriptor is served twice. */
  lemma {:induction false} ReadyFdsCount(fds: seq<int>, events: seq<Revents>, i: nat, fd: int)
    requires i <= |fds| == |events|
    requires forall j, l | 0 <= j < l < |fds| :: fds[j] != fds[l]
    ensures ReadyFds(fds, events, i)[fd]
         == if exists j :: i <= j < |fds| && fds[j] == fd && IsReady(events[j]) then 1 else 0
    decreases |fds| - i
  {
    if i < |fds| {
      ReadyFdsCount(fds, events, i + 1, fd);
    }
  }

  /** When nothing is left to serve, the rest of a sweep does nothing: leaving early is the same as going on. */
  lemma {:induction false} SweepIdle(s: Server, events: seq<Revents>, i: nat)
    requires i <= |s.clients| == |events| && ValidServer(s)
    requires forall j | i <= j < |events| :: !IsReady(events[j])
    ensures Sweep(s, events, i) == Swept(Continue, s, [])
    decreases |s.clients| - i
  {
    if i < |s.clients| {
      SweepIdle(s, events, i + 1);
    }
  }
}
