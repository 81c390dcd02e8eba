/** The binary semaphore and the lock of kernel/sync.cc, over every interleaving of any number of processes.

    Interrupts are off inside wait and signal, so one pass of the waiting loop and one signal are atomic; they are
    on between them and inside the lock's own code. */
module Semaphores {
  import opened Options
  import KernelObject

  type Pid = nat

  /** Where a process stands in acquire/release. */
  datatype Phase =
    | Outside
    | Asleep      // blocked in wait, in the waiters chain
    | Woken       // unblocked by a signal, about to test the value again
    | Entered     // wait has returned, holder is not yet set
    | Holding     // between acquire and release
    | Leaving     // holder is cleared, signal not yet called

  datatype State = State(value: nat, waiters: seq<Pid>, holder: Option<Pid>, phase: map<Pid, Phase>)

  function Init(procs: set<Pid>): State {
    State(1, [], None, map p | p in procs :: Outside)
  }

  /** One pass of the loop of wait: go to sleep at the head of the chain, or take the semaphore. */
  function Wait(s: State, p: Pid): State {
    if s.value == 0 then s.(waiters := [p] + s.waiters, phase := s.phase[p := Asleep])
    else s.(value := s.value - 1, phase := s.phase[p := Entered])
  }

  /** Wake the head of the chain, if any, and give the semaphore back. */
  function Signal(s: State, p: Pid): State {
    var left := s.(value := s.value + 1, phase := s.phase[p := Outside]);
    if s.waiters == [] then left
    else left.(waiters := s.waiters[1..], phase := left.phase[s.waiters[0] := Woken])
  }

  datatype Action = Acquire | Retry | TakeHolder | NestedAcquire | ClearHolder | Release

  predicate Enabled(s: State, p: Pid, a: Action) {
    p in s.phase &&
    match a
    case Acquire => s.phase[p] == Outside && s.holder != Some(p)
    case Retry => s.phase[p] == Woken
    case TakeHolder => s.phase[p] == Entered
    case NestedAcquire => s.holder == Some(p)
    case ClearHolder => s.phase[p] == Holding
    case Release => s.phase[p] == Leaving
  }

  function Do(s: State, p: Pid, a: Action): State
    requires Enabled(s, p, a)
  {
    match a
    case Acquire => Wait(s, p)
    case Retry => Wait(s, p)
    case TakeHolder => s.(holder := Some(p), phase := s.phase[p := Holding])
    case NestedAcquire => s
    case ClearHolder => s.(holder := None, phase := s.phase[p := Leaving])
    case Release => Signal(s, p)
  }

  /** The processes between wait and signal. */
  ghost function Inside(s: State): set<Pid> {
    set p | p in s.phase && s.phase[p] in {Entered, Holding, Leaving}
  }

  ghost predicate Inv(s: State) {
    && s.value + |Inside(s)| == 1
    && (forall i, j :: 0 <= i < j < |s.waiters| ==> s.waiters[i] != s.waiters[j])
    && (forall p :: p in s.waiters <==> p in s.phase && s.phase[p] == Asleep)
    && (s.value > 0 && s.waiters != [] ==> exists p :: p in s.phase && s.phase[p] == Woken)
    && (forall p :: s.holder == Some(p) <==> p in s.phase && s.phase[p] == Holding)
  }

  lemma InitInv(procs: set<Pid>)
    ensures Inv(Init(procs))
  {
    assert Inside(Init(procs)) == {};
  }

  lemma WaitInv(s: State, p: Pid)
    requires Inv(s) && p in s.phase && s.phase[p] in {Outside, Woken}
    ensures Inv(Wait(s, p))
  {
    var t := Wait(s, p);
    if s.value == 0 {
      assert Inside(t) == Inside(s);
      assert t.waiters[1..] == s.waiters;
    } else {
      assert Inside(t) == Inside(s) + {p};
    }
  }

  lemma SignalInv(s: State, p: Pid)
    requires Inv(s) && p in s.phase && s.phase[p] == Leaving
    ensures Inv(Signal(s, p))
  {
    var t := Signal(s, p);
    assert Inside(t) == Inside(s) - {p} by {
      if s.waiters != [] {
        assert s.waiters[0] in s.waiters;
      }
    }
    assert p in Inside(s);
    if s.waiters != [] {
      var w := s.waiters[0];
      assert w in s.waiters;
      assert t.phase[w] == Woken;
      forall q ensures q in t.waiters <==> q in t.phase && t.phase[q] == Asleep {
        assert s.waiters == [w] + s.waiters[1..];
        assert q in s.waiters <==> q == w || q in s.waiters[1..];
      }
    }
  }

  lemma HolderInv(s: State, p: Pid, a: Action)
    requires Inv(s) && a in {TakeHolder, ClearHolder} && Enabled(s, p, a)
    ensures Inv(Do(s, p, a))
  {
    var t := Do(s, p, a);
    assert Inside(t) == Inside(s);
    assert p in Inside(s);
    assert |Inside(s)| == 1;
    assert Inside(s) == {p} by {
      assert |Inside(s) - {p}| == 0;
    }
    if s.holder.Some? {
      assert s.holder.value in Inside(s);
    }
  }

  lemma DoInv(s: State, p: Pid, a: Action)
    requires Inv(s) && Enabled(s, p, a)
    ensures Inv(Do(s, p, a))
  {
    match a
    case Acquire => WaitInv(s, p);
    case Retry => WaitInv(s, p);
    case NestedAcquire =>
    case Release => SignalInv(s, p);
    case TakeHolder => HolderInv(s, p, a);
    case ClearHolder => HolderInv(s, p, a);
  }

  /** A run: each step is some process doing something it may do next. */
  ghost predicate IsRun(states: seq<State>, who: seq<Pid>, what: seq<Action>, procs: set<Pid>) {
    && |states| == |who| + 1 == |what| + 1
    && states[0] == Init(procs)
    && forall k :: 0 <= k < |who| ==>
      Enabled(states[k], who[k], what[k]) && states[k + 1] == Do(states[k], who[k], what[k])
  }

  lemma RunInv(states: seq<State>, who: seq<Pid>, what: seq<Action>, procs: set<Pid>, n: nat)
    requires IsRun(states, who, what, procs) && n < |states|
    ensures Inv(states[n])
  {
    if n == 0 {
      InitInv(procs);
    } else {
      RunInv(states, who, what, procs, n - 1);
      DoInv(states[n - 1], who[n - 1], what[n - 1]);
    }
  }

  /** Mutual exclusion, no lost wake-up, and an exact re-entrancy test, in every reachable state. */
  lemma MutualExclusion(states: seq<State>, who: seq<Pid>, what: seq<Action>, procs: set<Pid>, n: nat)
    requires IsRun(states, who, what, procs) && n < |states|
    ensures states[n].value + |Inside(states[n])| == 1
    ensures forall p, q :: p in Inside(states[n]) && q in Inside(states[n]) ==> p == q
    ensures states[n].value > 0 && states[n].waiters != [] ==>
      exists p :: p in states[n].phase && states[n].phase[p] == Woken && Enabled(states[n], p, Retry)
    ensures forall p :: states[n].holder == Some(p) <==> p in states[n].phase && states[n].phase[p] == Holding
  {
    RunInv(states, who, what, procs, n);
    var s := states[n];
    forall p, q | p in Inside(s) && q in Inside(s) ensures p == q {
      if p != q {
        assert {p, q} <= Inside(s);
        assert |{p, q}| == 2;
        SubsetCard({p, q}, Inside(s));
      }
    }
    if s.value > 0 && s.waiters != [] {
      var p :| p in s.phase && s.phase[p] == Woken;
      assert Enabled(s, p, Retry);
    }
  }

  lemma SubsetCard(a: set<Pid>, b: set<Pid>)
    requires a <= b
    ensures |a| <= |b|
  {
    assert b == a + (b - a);
  }

  /** Sleepers are woken last come, first served: who has just gone to sleep is the next to be woken. */
  lemma LastAsleepFirstWoken(s: State, p: Pid, q: Pid)
    requires s.value == 0 && p != q
    ensures var t := Signal(Wait(s, p), q);
      t.phase[p] == Woken && t.phase[q] == Outside && t.value == 1 && t.waiters == s.waiters
  {
    assert ([p] + s.waiters)[1..] == s.waiters;
  }

  const NULL: Pid := 0

  /** The semaphore as it runs: the sleepers are chained through next_ready, a null pointer ending the chain. */
  class Semaphore {
    var value: nat
    var waiters: Pid
    var nextReady: map<Pid, Pid>
    ghost var queue: seq<Pid>

    ghost predicate Valid()
      reads this
    {
      KernelObject.IsChain(waiters, nextReady, queue) && NULL !in queue
    }

    constructor ()
      ensures Valid() && value == 1 && queue == []
    {
      value, waiters, nextReady, queue := 1, NULL, map[], [];
    }

    /** One pass of the loop of wait for process `p`; false means `p` went to sleep. */
    method WaitPass(p: Pid, ghost s: State) returns (taken: bool)
      requires Valid() && value == s.value && queue == s.waiters && p != NULL && p !in queue
      modifies this
      ensures Valid() && value == Wait(s, p).value && queue == Wait(s, p).waiters
      ensures Wait(s, p).phase[p] == if taken then Entered else Asleep
    {
      if value == 0 {
        KernelObject.ChainPush(waiters, nextReady, queue, p);
        nextReady := nextReady[p := waiters];
        waiters := p;
        queue := [p] + queue;
        return false;
      }
      value := value - 1;
      taken := true;
    }

    method SignalBy(p: Pid, ghost s: State) returns (woken: Option<Pid>)
      requires Valid() && value == s.value && queue == s.waiters
      modifies this
      ensures Valid() && value == Signal(s, p).value && queue == Signal(s, p).waiters
      ensures woken == if s.waiters == [] then None else Some(s.waiters[0])
      ensures woken.Some? ==> Signal(s, p).phase[woken.value] == Woken
    {
      woken := None;
      if waiters != NULL {
        KernelObject.ChainTail(waiters, nextReady, queue);
        woken := Some(waiters);
        waiters := nextReady[waiters];
        queue := queue[1..];
      }
      value := value + 1;
    }
  }
}
