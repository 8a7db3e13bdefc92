/** Descriptor numbers and the channels they denote: what opening and closing keeps. */
module Descriptors {
  import opened OperatingSystem
  import NetUtils

  ghost predicate IsOpenChannel(k: Kernel, id: int) {
    exists fd :: fd in k.table && k.table[fd] == id
  }

  /** Every channel ever opened is open under exactly one number, or was closed exactly once. */
  ghost predicate KernelConserved(k: Kernel) {
    ValidKernel(k) &&
    (forall f, g | f in k.table && g in k.table && k.table[f] == k.table[g] :: f == g) &&
    (forall i, j | 0 <= i < j < |k.closed| :: k.closed[i] != k.closed[j]) &&
    (forall i | 0 <= i < |k.closed| :: k.closed[i] < |k.channels| && !IsOpenChannel(k, k.closed[i])) &&
    (forall id | 0 <= id < |k.channels| :: id in k.closed || IsOpenChannel(k, id))
  }

  lemma {:induction false} OpenConserves(k: Kernel, fd: int, c: Channel)
    requires KernelConserved(k) && CanOpen(k, fd)
    ensures KernelConserved(OpenFd(k, fd, c))
  {
    var k' := OpenFd(k, fd, c);
    assert k'.table[fd] == |k.channels|;
    forall id | 0 <= id < |k'.channels| ensures id in k'.closed || IsOpenChannel(k', id) {
      if id < |k.channels| && IsOpenChannel(k, id) {
        var f :| f in k.table && k.table[f] == id;
        assert f in k'.table && k'.table[f] == id;
      }
    }
    forall i | 0 <= i < |k'.closed| ensures !IsOpenChannel(k', k'.closed[i]) {
      assert !IsOpenChannel(k, k.closed[i]);
    }
  }

  lemma {:induction false} CloseConserves(k: Kernel, fd: int)
    requires KernelConserved(k) && fd in k.table
    ensures KernelConserved(CloseFd(k, fd))
    ensures CloseFd(k, fd).closed == k.closed + [k.table[fd]]
  {
    var k', gone := CloseFd(k, fd), k.table[fd];
    assert IsOpenChannel(k, gone);
    forall id | 0 <= id < |k'.channels| ensures id in k'.closed || IsOpenChannel(k', id) {
      if id == gone {
        assert k'.closed[|k.closed|] == gone;
      } else if IsOpenChannel(k, id) {
        var f :| f in k.table && k.table[f] == id;
        assert f in k'.table && k'.table[f] == id;
      }
    }
    forall i | 0 <= i < |k'.closed| ensures k'.closed[i] < |k'.channels| && !IsOpenChannel(k', k'.closed[i]) {
      assert i < |k.closed| ==> !IsOpenChannel(k, k.closed[i]);
    }
  }

  /** Reading and writing change neither the table nor what is closed. */
  lemma {:induction false} SameTableConserves(k: Kernel, k': Kernel)
    requires KernelConserved(k)
    requires k'.table == k.table && k'.closed == k.closed && |k'.channels| == |k.channels|
    ensures KernelConserved(k')
  {
  }

  /** An identity that was there before is open only under the number it had, and what is closed stays closed. */
  ghost predicate Continues(k: Kernel, k': Kernel) {
    |k.channels| <= |k'.channels| && k.closed <= k'.closed &&
    forall fd | fd in k'.table && k'.table[fd] < |k.channels| :: fd in k.table && k.table[fd] == k'.table[fd]
  }

  /** The numbers that an owner's descriptor stands for: none, or its own. */
  function Holding(fd: int): set<int> {
    if fd >= 0 then {fd} else {}
  }

  lemma {:induction false} ReleaseConserves(k: Kernel, fd: int)
    requires KernelConserved(k) && Holding(fd) <= k.table.Keys
    ensures KernelConserved(NetUtils.CloseIfValid(k, fd)) && Continues(k, NetUtils.CloseIfValid(k, fd))
    ensures NetUtils.CloseIfValid(k, fd).table == k.table - Holding(fd)
  {
    if fd >= 0 {
      assert fd in Holding(fd);
      CloseConserves(k, fd);
    }
  }

  /** Two descriptors are opened, and the two they replace, if there were any, are closed. */
  lemma {:induction false} ReplacingConserves(k: Kernel, fd: int, c: Channel, signalFd: int, signal: Channel,
                                              oldSignal: int, oldListen: int)
    requires KernelConserved(k) && CanOpen(k, fd) && CanOpen(k, signalFd) && fd != signalFd
    requires Holding(oldSignal) + Holding(oldListen) <= k.table.Keys && Holding(oldSignal) !! Holding(oldListen)
    ensures var k2 := OpenFd(OpenFd(k, fd, c), signalFd, signal);
            var k' := NetUtils.CloseIfValid(NetUtils.CloseIfValid(k2, oldSignal), oldListen);
            KernelConserved(k') && Continues(k, k') &&
            k'.table == k.table[fd := |k.channels|][signalFd := |k.channels| + 1]
                        - Holding(oldSignal) - Holding(oldListen)
  {
    OpenConserves(k, fd, c);
    var k1 := OpenFd(k, fd, c);
    OpenConserves(k1, signalFd, signal);
    var k2 := OpenFd(k1, signalFd, signal);
    ReleaseConserves(k2, oldSignal);
    ReleaseConserves(NetUtils.CloseIfValid(k2, oldSignal), oldListen);
  }

  /** What is neither open nor closed later was never there: an identity that has no number any more was closed. */
  lemma {:induction false} GoneIsClosed(k: Kernel, id: nat)
    requires KernelConserved(k) && id < |k.channels|
    requires forall fd | fd in k.table :: k.table[fd] != id
    ensures id in k.closed
  {
  }

  // ----- counting -----

  /** A channel that was closed, and once only. */
  predicate ClosedOnce(k: Kernel, id: nat) {
    id in k.closed && multiset(k.closed)[id] == 1
  }

  lemma {:induction false} CountInDistinct(xs: seq<nat>, x: nat)
    requires forall i, j | 0 <= i < j < |xs| :: xs[i] != xs[j]
    ensures multiset(xs)[x] == if x in xs then 1 else 0
  {
    if xs != [] {
      var front, last := xs[..|xs| - 1], xs[|xs| - 1];
      assert xs == front + [last];
      CountInDistinct(front, x);
    }
  }

  lemma {:induction false} ClosedMeansOnce(k: Kernel, id: nat)
    requires KernelConserved(k)
    ensures id in k.closed <==> ClosedOnce(k, id)
  {
    CountInDistinct(k.closed, id);
  }
}
