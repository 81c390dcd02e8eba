/** What one call of kernel/ipc.cc does to the processes it concerns, and why nobody waits in vain. */
module Delivery {
  import opened Options
  import opened Kernel

  lemma DomainFacts(s: State)
    requires Inv(s)
    ensures Domains(s) && s.cur in s.status && s.status[s.cur] == Running && ANY !in s.status
    ensures s.priority.Keys == s.status.Keys && s.chains.Keys == s.status.Keys && s.msg.Keys == s.status.Keys
    ensures s.intrCnt.Keys == s.status.Keys && |s.ready| == LEVELS
    ensures forall p :: p in s.status ==> s.priority[p] < LEVELS
  {}

  // ----- Who runs and who changes when schedule is called

  /** schedule changes nothing but the running process, its status and the budgets. */
  lemma ScheduleEffect(s: State, act: Step)
    requires Inv(s) && Enabled(s, act) && CallsSchedule(s, act)
    ensures var u, t := AtSchedule(s, act), Next(s, act);
      && t.init == u.init && t.priority == u.priority && t.ready == u.ready && t.maxPriority == u.maxPriority
      && t.chains == u.chains && t.msg == u.msg && t.intrCnt == u.intrCnt && t.cur in u.status
      && t.status == u.status[t.cur := Running] && Runnable(u.status[t.cur])
    ensures StillWaiting(AtSchedule(s, act), Next(s, act))
  {
    hide Inv;
    hide Enabled;
    hide Next;
    hide AtSchedule;
    hide CallsSchedule;
    hide Schedule;
    hide Parked;
    hide LinkOk;
    hide Succ;
    InvDomains(s);
    AtScheduleOk(s, act);
    ScheduleFinds(AtSchedule(s, act), Succ(s.ready[s.priority[s.cur]], s.cur));
    hide Domains;
  }

  /** Nobody has begun to wait for a message. */
  ghost predicate StillWaiting(s: State, t: State) {
    forall p :: p in t.status && t.status[p] == WaitingMsg ==> p in s.status && s.status[p] == WaitingMsg
  }

  /** At most `c` has. */
  ghost predicate WaitsBut(s: State, t: State, c: Pid) {
    forall p :: p in t.status && t.status[p] == WaitingMsg && p != c ==> p in s.status && s.status[p] == WaitingMsg
  }

  lemma ParkedWaiting(s: State, u: State, t: State, st: Status)
    requires StillWaiting(u, t) && u.status == s.status[s.cur := st]
    ensures WaitsBut(s, t, s.cur)
    ensures (st != WaitingMsg && (s.cur in s.status ==> s.status[s.cur] != WaitingMsg) ==> StillWaiting(s, t))
  {}

  // ----- send

  /** A send to a process that waits for anyone, for this sender, or for a reply delivers at once: the receiver is
      ready, at the end of its list, with the message and the sender in its message object, and the sender runs on. Any
      other send queues the message and blocks the sender, at the head of the receiver's chain. */
  lemma SendLaw(s: State, dst: Pid, kind: int, context: Context)
    requires Inv(s) && Enabled(s, DoSend(dst, kind, context))
    ensures dst in s.status && dst in s.msg && dst in s.chains && dst in s.priority && s.priority[dst] < |s.ready|
    ensures var t := Next(s, DoSend(dst, kind, context));
      if s.status[dst] == WaitingMsg && (s.msg[dst].dest == ANY || s.msg[dst].dest == s.cur || kind == REPLY) then
        && t.status == s.status[dst := Ready] && t.msg == s.msg[dst := Message(kind, context, s.cur)]
        && t.ready == s.ready[s.priority[dst] := s.ready[s.priority[dst]] + [dst]]
        && t.cur == s.cur && t.cur in t.status && t.status[t.cur] == Running && t.chains == s.chains
      else
        && t.cur != s.cur && s.cur in t.status && t.status[s.cur] == SendingMsg
        && t.chains == s.chains[dst := [s.cur] + s.chains[dst]] && s.cur in s.msg
        && t.msg == s.msg[s.cur := Message(kind, context, s.msg[s.cur].dest)]
        && OthersKept(s, t)
  {
    DomainFacts(s);
    if Awaited(s, dst, kind) {
      hide Inv;
      SendDeliveredLaw(s, dst, kind, context);
    } else {
      SendQueuedLaw(s, dst, kind, context);
      hide Inv;
    }
    hide Domains;
    hide Next;
  }

  lemma SendDeliveredLaw(s: State, dst: Pid, kind: int, context: Context)
    requires Domains(s) && Enabled(s, DoSend(dst, kind, context)) && Awaited(s, dst, kind)
    ensures var t := Next(s, DoSend(dst, kind, context));
      && t.status == s.status[dst := Ready] && t.msg == s.msg[dst := Message(kind, context, s.cur)]
      && t.ready == s.ready[s.priority[dst] := s.ready[s.priority[dst]] + [dst]]
      && t.cur == s.cur && t.chains == s.chains && t.intrCnt == s.intrCnt
  {}

  lemma SendQueuedLaw(s: State, dst: Pid, kind: int, context: Context)
    requires Inv(s) && Enabled(s, DoSend(dst, kind, context)) && !Awaited(s, dst, kind)
    ensures dst in s.chains && s.cur in s.msg && s.cur in s.status && s.status[s.cur] == Running
    ensures var t := Next(s, DoSend(dst, kind, context));
      && t.cur != s.cur && s.cur in t.status && t.status[s.cur] == SendingMsg
      && t.chains == s.chains[dst := [s.cur] + s.chains[dst]] && t.intrCnt == s.intrCnt
      && t.msg == s.msg[s.cur := Message(kind, context, s.msg[s.cur].dest)]
      && OthersKept(s, t) && StillWaiting(s, t)
  {
    hide Inv;
    hide Domains;
    hide StillWaiting;
    hide OthersKept;
    DomainFacts(s);
    var act := DoSend(dst, kind, context);
    assert CallsSchedule(s, act);
    ScheduleEffect(s, act);
    ParkedWaiting(s, AtSchedule(s, act), Next(s, act), SendingMsg);
    ParkedOthers(s, AtSchedule(s, act), Next(s, act), SendingMsg);
    hide Next;
  }

  /** Who is blocked and does not call stays as it is. */
  ghost predicate OthersKept(s: State, t: State) {
    forall p :: p in s.status && p != s.cur && !Runnable(s.status[p]) ==> p in t.status && t.status[p] == s.status[p]
  }

  lemma ParkedOthers(s: State, u: State, t: State, st: Status)
    requires u.status == s.status[s.cur := st] && t.cur in u.status && Runnable(u.status[t.cur])
    requires t.status == u.status[t.cur := Running]
    ensures OthersKept(s, t)
  {}

  // ----- receive

  /** receive(ANY) with an interrupt pending takes the interrupt and nothing else. */
  lemma ReceiveInterruptLaw(s: State)
    requires Inv(s) && Enabled(s, DoReceive(ANY)) && s.cur in s.intrCnt && s.intrCnt[s.cur] != 0
    ensures s.cur in s.msg
    ensures Next(s, DoReceive(ANY)) ==
      s.(msg := s.msg[s.cur := s.msg[s.cur].(kind := INTR)], intrCnt := s.intrCnt[s.cur := s.intrCnt[s.cur] - 1])
  {
    DomainFacts(s);
    hide Inv;
    hide Domains;
  }

  /** receive takes the message of the head of the chain if that sender was asked for, or anyone: the sender is ready,
      at the end of its list, and the receiver runs on with the message and the sender in its message object. */
  lemma ReceiveTakesHead(s: State, want: Pid)
    requires Inv(s) && Enabled(s, DoReceive(want)) && s.cur in s.chains && s.cur in s.intrCnt
    requires (want == ANY ==> s.intrCnt[s.cur] == 0) && s.chains[s.cur] != []
    requires (want == ANY || want == s.chains[s.cur][0])
    ensures var c, t := s.cur, Next(s, DoReceive(want));
      var x := s.chains[c][0];
      && x in s.msg && x in s.priority && s.priority[x] < |s.ready| && t.cur == c && x != c
      && t.msg == s.msg[c := Message(s.msg[x].kind, s.msg[x].context, x)]
      && t.chains == s.chains[c := s.chains[c][1..]] && t.status == s.status[x := Ready]
      && t.ready == s.ready[s.priority[x] := s.ready[s.priority[x]] + [x]]
  {
    DomainFacts(s);
    InvChains(s);
    hide Inv;
    hide Domains;
    hide Chains;
    ReceiveHeadLaw(s, want);
    hide Receive;
  }

  /** Otherwise it waits for the sender asked for, which is not in its chain; for anyone only if the chain is empty. */
  lemma ReceiveWaitsLaw(s: State, want: Pid)
    requires Inv(s) && Enabled(s, DoReceive(want)) && s.cur in s.chains && s.cur in s.intrCnt
    requires (want == ANY ==> s.intrCnt[s.cur] == 0)
    requires !(s.chains[s.cur] != [] && (want == ANY || want == s.chains[s.cur][0]))
    ensures var c, t := s.cur, Next(s, DoReceive(want));
      && t.cur != c && c in s.msg && c in t.status && t.status[c] == WaitingMsg
      && t.msg == s.msg[c := s.msg[c].(dest := want)] && t.intrCnt == s.intrCnt
      && t.chains == s.chains && want !in s.chains[c] && (want == ANY ==> s.chains[c] == [])
      && WaitsBut(s, t, c)
  {
    DomainFacts(s);
    NotBehind(s, want);
    hide Inv;
    hide Domains;
    hide StillWaiting;
    hide WaitsBut;
    ScheduleEffect(s, DoReceive(want));
    ParkedWaiting(s, AtSchedule(s, DoReceive(want)), Next(s, DoReceive(want)), WaitingMsg);
    hide Next;
  }

  /** What a receive that is not for mid-chain and not for the head asks for is not in the chain. */
  lemma NotBehind(s: State, want: Pid)
    requires Inv(s) && s.cur in s.chains && s.cur in s.intrCnt && !MidMatch(s, want)
    requires s.chains[s.cur] == [] || (want != ANY && want != s.chains[s.cur][0])
    ensures want !in s.chains[s.cur]
  {
    var l := s.chains[s.cur];
    if l != [] {
      forall k | 0 <= k < |l| ensures l[k] != want {
        assert k >= 1 ==> k < Find(l, want, 1);
      }
    }
  }

  lemma ReceiveHeadLaw(s: State, want: Pid)
    requires Domains(s) && Chains(s.status, s.chains) && HeadMatch(s, want) && s.status[s.cur] == Running
    ensures var c, t := s.cur, Receive(s, want);
      var x := s.chains[c][0];
      && x in s.msg && x in s.priority && s.priority[x] < |s.ready| && x != c && t.cur == c
      && t.msg == s.msg[c := Message(s.msg[x].kind, s.msg[x].context, x)]
      && t.chains == s.chains[c := s.chains[c][1..]] && t.status == s.status[x := Ready]
      && t.ready == s.ready[s.priority[x] := s.ready[s.priority[x]] + [x]]
  {
    var x := s.chains[s.cur][0];
    assert x in s.chains[s.cur];
    ChainFacts(s.status, s.chains, s.cur, x);
    hide Chains;
  }

  // ----- Interrupts, blocking and waking

  /** A network interrupt is counted, modulo 256, and wakes a process that waits for anyone. */
  lemma InterruptLaw(s: State, dst: Pid)
    requires Inv(s) && Enabled(s, DoInterrupt(dst))
    ensures dst in s.status && dst in s.msg && dst in s.intrCnt && dst in s.priority && s.priority[dst] < |s.ready|
    ensures var t := Next(s, DoInterrupt(dst));
      && t.intrCnt == s.intrCnt[dst := (s.intrCnt[dst] + 1) % 256] && t.cur == s.cur && t.chains == s.chains
      && if s.status[dst] == WaitingMsg && s.msg[dst].dest == ANY then
           && t.status == s.status[dst := Ready] && t.msg == s.msg[dst := s.msg[dst].(kind := INTR)]
           && t.ready == s.ready[s.priority[dst] := s.ready[s.priority[dst]] + [dst]]
         else t.status == s.status && t.msg == s.msg && t.ready == s.ready
  {
    hide Inv;
    hide Domains;
    DomainFacts(s);
    CountedDomains(s, dst);
    hide NetInterrupt;
    NetInterruptEffect(s, dst);
  }

  lemma CountedDomains(s: State, dst: Pid)
    requires Domains(s) && dst in s.status
    ensures Next(s, DoInterrupt(dst)) == NetInterrupt(s, dst)
  {}

  lemma NetInterruptEffect(s: State, dst: Pid)
    requires Domains(s) && dst in s.status
    ensures var t := NetInterrupt(s, dst);
      && t.intrCnt == s.intrCnt[dst := (s.intrCnt[dst] + 1) % 256] && t.cur == s.cur && t.chains == s.chains
      && if s.status[dst] == WaitingMsg && s.msg[dst].dest == ANY then
           && t.status == s.status[dst := Ready] && t.msg == s.msg[dst := s.msg[dst].(kind := INTR)]
           && t.ready == s.ready[s.priority[dst] := s.ready[s.priority[dst]] + [dst]]
         else t.status == s.status && t.msg == s.msg && t.ready == s.ready
  {}

  /** A process that blocks on a semaphore is BLOCKED and out of its list. */
  lemma BlockLaw(s: State)
    requires Inv(s) && Enabled(s, DoBlock)
    ensures s.cur in s.priority && s.priority[s.cur] < |s.ready|
    ensures var t := Next(s, DoBlock);
      && t.cur != s.cur && s.cur in t.status && t.status[s.cur] == Blocked && t.chains == s.chains && t.msg == s.msg
      && t.ready == s.ready[s.priority[s.cur] := Without(s.ready[s.priority[s.cur]], s.cur)] && t.intrCnt == s.intrCnt
      && StillWaiting(s, t)
  {
    DomainFacts(s);
    hide Inv;
    hide Domains;
    hide StillWaiting;
    ScheduleEffect(s, DoBlock);
    ParkedWaiting(s, AtSchedule(s, DoBlock), Next(s, DoBlock), Blocked);
    hide Next;
  }

  /** One that is woken is last in its list. */
  lemma WakeLaw(s: State, p: Pid)
    requires Inv(s) && Enabled(s, DoUnblock(p))
    ensures p in s.priority && s.priority[p] < |s.ready|
    ensures var t := Next(s, DoUnblock(p));
      && t.status == s.status[p := Ready] && t.cur == s.cur && t.chains == s.chains && t.msg == s.msg
      && t.ready == s.ready[s.priority[p] := s.ready[s.priority[p]] + [p]] && t.intrCnt == s.intrCnt
  {
    DomainFacts(s);
    hide Inv;
    hide Domains;
  }

  /** A new process is ready, last in the list of its level, with nobody waiting for it. */
  lemma StartLaw(s: State, p: Pid, level: nat)
    requires Inv(s) && Enabled(s, DoStart(p, level))
    ensures |s.ready| == LEVELS && level < LEVELS
    ensures var t := Next(s, DoStart(p, level));
      && t.status == s.status[p := Ready] && t.priority == s.priority[p := level] && t.cur == s.cur
      && t.ready == s.ready[level := s.ready[level] + [p]] && t.chains == s.chains[p := []]
      && p in t.msg && t.msg == s.msg[p := t.msg[p]] && t.intrCnt == s.intrCnt[p := 0]
  {
    DomainFacts(s);
    hide Inv;
    hide Domains;
  }

  /** A yield or a timer tick changes nothing but who runs. */
  lemma YieldLaw(s: State)
    requires Inv(s)
    ensures Enabled(s, DoYield)
    ensures var t := Next(s, DoYield);
      && t.chains == s.chains && t.msg == s.msg && t.intrCnt == s.intrCnt
      && t.ready == s.ready && t.priority == s.priority
      && t.maxPriority == s.maxPriority
      && StillWaiting(s, t)
  {
    DomainFacts(s);
    hide Inv;
    hide Domains;
    hide StillWaiting;
    ScheduleEffect(s, DoYield);
    ParkedWaiting(s, AtSchedule(s, DoYield), Next(s, DoYield), Ready);
    hide Next;
  }

  // ----- Nobody waits in vain

  /** A process waiting for anyone has no sender in its chain and no interrupt pending; one waiting for a certain sender
      does not have that sender in its chain. */
  ghost predicate NoneMissed(s: State) {
    forall p :: p in s.status && s.status[p] == WaitingMsg ==> MissesNothing(s, p)
  }

  ghost predicate MissesNothing(s: State, p: Pid) {
    && p in s.msg && p in s.chains && p in s.intrCnt && s.msg[p].dest !in s.chains[p]
    && (s.msg[p].dest == ANY ==> s.chains[p] == [] && s.intrCnt[p] == 0)
  }

  /** Processes that were waiting wait on, with the same message object, chain and count. */
  lemma StillMissesNone(s: State, t: State, c: Pid)
    requires NoneMissed(s)
    requires forall p :: p in t.status && t.status[p] == WaitingMsg && p != c ==>
      && p in s.status && s.status[p] == WaitingMsg && p in s.msg && p in t.msg && t.msg[p].dest == s.msg[p].dest
      && p in s.chains && p in t.chains && t.chains[p] == s.chains[p]
      && p in s.intrCnt && p in t.intrCnt && (t.intrCnt[p] == s.intrCnt[p] || s.msg[p].dest != ANY)
    requires c in t.status && t.status[c] == WaitingMsg ==> MissesNothing(t, c)
    ensures NoneMissed(t)
  {
    forall p | p in t.status && t.status[p] == WaitingMsg ensures MissesNothing(t, p) {
      assert p != c ==> MissesNothing(s, p);
    }
  }

  lemma SendMissesNone(s: State, dst: Pid, kind: int, context: Context)
    requires Inv(s) && NoneMissed(s) && Enabled(s, DoSend(dst, kind, context))
    ensures NoneMissed(Next(s, DoSend(dst, kind, context)))
  {
    hide Inv;
    hide Domains;
    hide Next;
    hide Enabled;
    DomainFacts(s);
    SendLaw(s, dst, kind, context);
    SendKeepsWaiting(s, dst, kind, context);
    var t := Next(s, DoSend(dst, kind, context));
    assert s.status[dst] == WaitingMsg ==> MissesNothing(s, dst);
    StillMissesNone(s, t, dst);
  }

  lemma SendKeepsWaiting(s: State, dst: Pid, kind: int, context: Context)
    requires Inv(s) && Enabled(s, DoSend(dst, kind, context))
    ensures var t := Next(s, DoSend(dst, kind, context)); t.intrCnt == s.intrCnt && StillWaiting(s, t)
  {
    hide Inv;
    hide Domains;
    DomainFacts(s);
    if Awaited(s, dst, kind) {
      SendDeliveredLaw(s, dst, kind, context);
    } else {
      SendQueuedLaw(s, dst, kind, context);
    }
    hide Next;
  }

  lemma ReceiveMissesNone(s: State, want: Pid)
    requires Inv(s) && NoneMissed(s) && Enabled(s, DoReceive(want))
    ensures NoneMissed(Next(s, DoReceive(want)))
  {
    hide Inv;
    hide Domains;
    hide Next;
    hide Enabled;
    hide NoneMissed;
    DomainFacts(s);
    if want == ANY && s.intrCnt[s.cur] != 0 {
      InterruptTakenMissesNone(s);
    } else if s.chains[s.cur] != [] && (want == ANY || want == s.chains[s.cur][0]) {
      TakenMissesNone(s, want);
    } else {
      WaitingMissesNone(s, want);
    }
  }

  lemma InterruptTakenMissesNone(s: State)
    requires Inv(s) && NoneMissed(s) && Enabled(s, DoReceive(ANY)) && s.cur in s.intrCnt && s.intrCnt[s.cur] != 0
    ensures NoneMissed(Next(s, DoReceive(ANY)))
  {
    hide Inv;
    hide Domains;
    hide Next;
    hide Enabled;
    DomainFacts(s);
    ReceiveInterruptLaw(s);
    StillMissesNone(s, Next(s, DoReceive(ANY)), s.cur);
  }

  lemma TakenMissesNone(s: State, want: Pid)
    requires Inv(s) && NoneMissed(s) && Enabled(s, DoReceive(want)) && s.cur in s.chains && s.cur in s.intrCnt
    requires (want == ANY ==> s.intrCnt[s.cur] == 0) && s.chains[s.cur] != []
    requires (want == ANY || want == s.chains[s.cur][0])
    ensures NoneMissed(Next(s, DoReceive(want)))
  {
    hide Inv;
    hide Domains;
    hide Next;
    hide Enabled;
    DomainFacts(s);
    ReceiveTakesHead(s, want);
    TakesKeepsCounts(s, want);
    StillMissesNone(s, Next(s, DoReceive(want)), s.cur);
  }

  lemma WaitingMissesNone(s: State, want: Pid)
    requires Inv(s) && NoneMissed(s) && Enabled(s, DoReceive(want)) && s.cur in s.chains && s.cur in s.intrCnt
    requires want == ANY ==> s.intrCnt[s.cur] == 0
    requires !(s.chains[s.cur] != [] && (want == ANY || want == s.chains[s.cur][0]))
    ensures NoneMissed(Next(s, DoReceive(want)))
  {
    hide Inv;
    hide Domains;
    hide Next;
    hide Enabled;
    DomainFacts(s);
    ReceiveWaitsLaw(s, want);
    StillMissesNone(s, Next(s, DoReceive(want)), s.cur);
  }

  lemma TakesKeepsCounts(s: State, want: Pid)
    requires Domains(s) && Enabled(s, DoReceive(want)) && !TakesInterrupt(s, want) && HeadMatch(s, want)
    ensures Next(s, DoReceive(want)).intrCnt == s.intrCnt
  {}

  lemma StepMissesNone(s: State, act: Step)
    requires Inv(s) && NoneMissed(s) && Enabled(s, act)
    ensures NoneMissed(Next(s, act))
  {
    DomainFacts(s);
    hide Inv;
    hide Domains;
    hide Next;
    hide Enabled;
    match act
    case DoSend(dst, kind, context) => SendMissesNone(s, dst, kind, context);
    case DoReceive(want) => ReceiveMissesNone(s, want);
    case DoBlock => OthersMissNone(s, act);
    case DoYield => OthersMissNone(s, act);
    case DoUnblock(p) => WakeMissesNone(s, p);
    case DoInterrupt(dst) => InterruptMissesNone(s, dst);
    case DoStart(p, level) => StartMissesNone(s, p, level);
  }

  lemma OthersMissNone(s: State, act: Step)
    requires Inv(s) && NoneMissed(s) && Enabled(s, act) && (act == DoBlock || act == DoYield)
    ensures NoneMissed(Next(s, act))
  {
    hide Inv;
    hide Domains;
    hide Next;
    hide Enabled;
    DomainFacts(s);
    if act == DoBlock {
      BlockLaw(s);
    } else {
      YieldLaw(s);
    }
    StillMissesNone(s, Next(s, act), ANY);
  }

  lemma WakeMissesNone(s: State, p: Pid)
    requires Inv(s) && NoneMissed(s) && Enabled(s, DoUnblock(p))
    ensures NoneMissed(Next(s, DoUnblock(p)))
  {
    hide Inv;
    hide Domains;
    hide Next;
    hide Enabled;
    DomainFacts(s);
    WakeLaw(s, p);
    StillMissesNone(s, Next(s, DoUnblock(p)), p);
  }

  lemma InterruptMissesNone(s: State, dst: Pid)
    requires Inv(s) && NoneMissed(s) && Enabled(s, DoInterrupt(dst))
    ensures NoneMissed(Next(s, DoInterrupt(dst)))
  {
    hide Inv;
    hide Domains;
    hide Next;
    hide Enabled;
    DomainFacts(s);
    InterruptLaw(s, dst);
    StillMissesNone(s, Next(s, DoInterrupt(dst)), ANY);
  }

  lemma StartMissesNone(s: State, p: Pid, level: nat)
    requires Inv(s) && NoneMissed(s) && Enabled(s, DoStart(p, level))
    ensures NoneMissed(Next(s, DoStart(p, level)))
  {
    hide Inv;
    hide Domains;
    hide Next;
    hide Enabled;
    DomainFacts(s);
    StartLaw(s, p, level);
    StillMissesNone(s, Next(s, DoStart(p, level)), p);
  }

  lemma {:induction false} EveryStateMissesNone(states: seq<State>, steps: seq<Step>, n: nat)
    requires IsRun(states, steps) && n < |states|
    ensures NoneMissed(states[n])
  {
    hide Inv;
    hide NoneMissed;
    hide Next;
    hide Enabled;
    if n == 0 {
      BootMissesNone(states[0]);
    } else {
      EveryStateMissesNone(states, steps, n - 1);
      EveryState(states, steps, n - 1);
      StepMissesNone(states[n - 1], steps[n - 1]);
    }
  }

  lemma BootMissesNone(s: State)
    requires exists init :: init != ANY && s == Boot(init)
    ensures NoneMissed(s)
  {}
}
