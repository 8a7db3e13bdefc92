/** An induction principle: what every single step keeps, every use of the server keeps. */
module ServerInduction {
  import opened ServerModel
  import opened Wrappers

  ghost predicate KeptByServe(inv: Server -> bool) {
    forall s: Server, e: Revents, i: nat {:trigger Serve(s, e, i)} | ValidServer(s) && i < |s.clients| && inv(s) ::
      inv(Serve(s, e, i).server)
  }

  ghost predicate KeptByAccept(inv: Server -> bool) {
    forall s: Server, a: AcceptOutcome {:trigger AcceptClient(s, a)} | ValidServer(s) && inv(s) ::
      inv(AcceptClient(s, a).server)
  }

  ghost predicate KeptBySignal(inv: Server -> bool) {
    forall s: Server {:trigger SignalStep(s)} | ValidServer(s) && inv(s) :: inv(SignalStep(s).server)
  }

  ghost predicate KeptByRun(inv: Server -> bool) {
    forall s: Server, startup: Startup {:trigger RunServer(s, startup)} | ValidServer(s) && inv(s) ::
      inv(RunServer(s, startup).server)
  }

  ghost predicate KeptByStop(inv: Server -> bool) {
    forall s: Server {:trigger Stop(s)} | ValidServer(s) && inv(s) :: inv(Stop(s))
  }

  ghost predicate Inductive(inv: Server -> bool) {
    KeptByServe(inv) && KeptByAccept(inv) && KeptBySignal(inv) && KeptByRun(inv) && KeptByStop(inv)
  }

  lemma {:induction false} SweepKeeps(inv: Server -> bool, s: Server, events: seq<Revents>, i: nat)
    requires KeptByServe(inv) && ValidServer(s) && inv(s) && i <= |s.clients| == |events|
    ensures inv(Sweep(s, events, i).server)
    decreases |s.clients| - i
  {
    if i < |s.clients| {
      if !IsReady(events[i]) {
        SweepKeeps(inv, s, events, i + 1);
      } else {
        var r := Serve(s, events[i], i);
        if r.outcome == Continue {
          if r.removed {
            SweepKeeps(inv, r.server, SwapRemoved(events, i), i);
          } else {
            SweepKeeps(inv, r.server, events, i + 1);
          }
        }
      }
    }
  }

  lemma {:induction false} RoundKeeps(inv: Server -> bool, s: Server, poll: Poll)
    requires Inductive(inv) && ValidServer(s) && inv(s)
    ensures inv(Round(s, poll).server)
  {
    if poll.Polled? {
      var a := if poll.listen.pollin then AcceptClient(s, poll.accept) else Step(Continue, s);
      if a.outcome == Continue && !poll.signal.pollin {
        SweepKeeps(inv, a.server, EventsFor(|a.server.clients|, EventsFor(|s.clients|, poll.clients)), 0);
      }
    }
  }

  lemma {:induction false} EventLoopKeeps(inv: Server -> bool, s: Server, polls: seq<Poll>)
    requires Inductive(inv) && ValidServer(s) && inv(s)
    ensures inv(EventLoop(s, polls).server)
    decreases |polls|
  {
    if polls != [] {
      RoundKeeps(inv, s, polls[0]);
      var r := Round(s, polls[0]);
      if r.outcome == Continue {
        EventLoopKeeps(inv, r.server, polls[1..]);
      }
    }
  }

  lemma {:induction false} ExecuteKeeps(inv: Server -> bool, s: Server, actions: seq<Action>)
    requires Inductive(inv) && ValidServer(s) && inv(s)
    ensures inv(Execute(s, actions))
    decreases |actions|
  {
    if actions != [] {
      match actions[0] {
        case Run(startup) =>
        case Loop(polls) => if s.running { EventLoopKeeps(inv, s, polls); }
        case StopServer =>
      }
      ExecuteKeeps(inv, Act(s, actions[0]), actions[1..]);
    }
  }
}
