/** What becomes of the sender that receive unlinks from the middle of a chain without waking it
    (kernel/ipc.cc:144-156), and a run in which that happens. */
module StrandedSender {
  import opened Options
  import opened Kernel

  // ----- Nothing wakes it again

  /** Blocked in a send, but in no chain and no ready list. */
  ghost predicate Stranded(s: State, x: Pid) {
    && x in s.status && s.status[x] == SendingMsg && x != s.cur
    && (forall d :: d in s.chains ==> x !in s.chains[d])
    && (forall l :: 0 <= l < |s.ready| ==> x !in s.ready[l])
  }

  /** Any step, receives from the middle of a chain included. */
  ghost predicate Possible(s: State, a: Step) {
    if a.DoReceive? then Domains(s) && s.cur != s.init else Enabled(s, a)
  }

  ghost function AnyNext(s: State, a: Step): State
    requires Possible(s, a)
  {
    if a.DoReceive? then Receive(s, a.want) else Next(s, a)
  }

  lemma {:induction false} WithoutSub(l: seq<Pid>, x: Pid, y: Pid)
    requires y in Without(l, x)
    ensures y in l
  {
    if l[0] != x && y != l[0] {
      WithoutSub(l[1..], x, y);
    }
  }

  lemma {:induction false} SuccIn(l: seq<Pid>, x: Pid)
    ensures Succ(l, x).Some? ==> Succ(l, x).value in l
  {
    if |l| >= 2 && l[0] != x {
      SuccIn(l[1..], x);
    }
  }

  lemma StrandedSchedule(s: State, succ: Option<Pid>, x: Pid)
    requires |s.ready| == LEVELS && |s.maxRounds| == LEVELS && s.cur in s.priority && Stranded(s, x)
    requires succ.Some? ==> succ.value != x
    ensures Stranded(Schedule(s, succ), x)
  {
    var (level, rounds) := Pick(s.ready, s.maxRounds, s.maxPriority);
    if level < LEVELS && s.ready[level] != [] {
      assert s.ready[level][0] in s.ready[level];
    }
    hide Pick;
  }

  lemma StrandedPark(s: State, st: Status, x: Pid)
    requires Domains(s) && Stranded(s, x)
    ensures Stranded(Park(s, st), x)
  {
    var l := s.priority[s.cur];
    if x in Without(s.ready[l], s.cur) {
      WithoutSub(s.ready[l], s.cur, x);
    }
  }

  lemma StrandedBlock(s: State, st: Status, x: Pid)
    requires Domains(s) && Stranded(s, x)
    ensures Stranded(SelfBlock(s, st), x)
  {
    var l := s.ready[s.priority[s.cur]];
    SuccIn(l, s.cur);
    StrandedPark(s, st, x);
    hide Stranded;
    hide Schedule;
    StrandedSchedule(Park(s, st), Succ(l, s.cur), x);
  }

  lemma StrandedUnblock(s: State, p: Pid, x: Pid)
    requires Domains(s) && p in s.status && p != x && Stranded(s, x)
    ensures Stranded(Unblock(s, p), x)
  {}

  lemma StrandedSend(s: State, dst: Pid, kind: int, context: Context, x: Pid)
    requires Domains(s) && dst in s.status && Stranded(s, x)
    ensures Stranded(Send(s, dst, kind, context), x)
  {
    hide Unblock;
    hide SelfBlock;
    if Awaited(s, dst, kind) {
      StrandedUnblock(s.(msg := s.msg[dst := Message(kind, context, s.cur)]), dst, x);
    } else {
      StrandedBlock(Queued(s, dst, kind, context), SendingMsg, x);
    }
  }

  /** A chain of the current process cut short, a message written, and a former member woken. */
  lemma StrandedTaken(s: State, msg: map<Pid, Message>, rest: seq<Pid>, p: Pid, x: Pid)
    requires Domains(s) && Stranded(s, x) && p in s.chains[s.cur] && msg.Keys == s.msg.Keys
    requires forall y :: y in rest ==> y in s.chains[s.cur]
    ensures var t := s.(msg := msg, chains := s.chains[s.cur := rest]);
      Domains(t) && Stranded(t, x) && Stranded(Unblock(t, p), x)
  {
    var t := s.(msg := msg, chains := s.chains[s.cur := rest]);
    assert t.chains.Keys == s.chains.Keys;
    StrandedUnblock(t, p, x);
  }

  lemma StrandedReceive(s: State, want: Pid, x: Pid)
    requires Domains(s) && Stranded(s, x)
    ensures Stranded(Receive(s, want), x)
  {
    hide Unblock;
    hide SelfBlock;
    hide Find;
    var c, l := s.cur, s.chains[s.cur];
    if TakesInterrupt(s, want) {
    } else if HeadMatch(s, want) {
      assert l[0] in l;
      StrandedTaken(s, s.msg[c := Message(s.msg[l[0]].kind, s.msg[l[0]].context, l[0])], l[1..], l[0], x);
      hide Stranded;
    } else if MidMatch(s, want) {
      var i := Find(l, want, 1);
      assert l[i - 1] in l && l[i] in l;
      StrandedTaken(s, s.msg[c := Message(s.msg[want].kind, s.msg[want].context, l[i - 1])], CutAt(l, i), l[i - 1], x);
      hide Stranded;
    } else {
      StrandedBlock(s.(msg := s.msg[c := s.msg[c].(dest := want)]), WaitingMsg, x);
    }
  }

  lemma StrandedStep(s: State, a: Step, x: Pid)
    requires Stranded(s, x) && Possible(s, a)
    ensures Stranded(AnyNext(s, a), x)
  {
    match a
    case DoSend(dst, kind, context) => StrandedSend(s, dst, kind, context, x);
    case DoReceive(want) => StrandedReceive(s, want, x);
    case DoBlock => StrandedBlock(s, Blocked, x);
    case DoYield =>
      SuccIn(s.ready[s.priority[s.cur]], s.cur);
      StrandedSchedule(s.(status := s.status[s.cur := Ready]), Succ(s.ready[s.priority[s.cur]], s.cur), x);
    case DoUnblock(p) => StrandedUnblock(s, p, x);
    case DoInterrupt(dst) =>
    case DoStart(p, level) =>
  }

  /** After the receive the sender is stranded, and stays so whatever steps follow. */
  lemma {:induction false} StrandedForEver(s: State, want: Pid, states: seq<State>, steps: seq<Step>, n: nat)
    requires Inv(s) && MidMatch(s, want) && |states| == |steps| + 1 && states[0] == Receive(s, want) && n < |states|
    requires forall k :: 0 <= k < |steps| ==>
      Possible(states[k], steps[k]) && states[k + 1] == AnyNext(states[k], steps[k])
    ensures Stranded(states[n], want)
  {
    hide Inv;
    hide Stranded;
    hide Possible;
    hide AnyNext;
    hide Receive;
    if n == 0 {
      MidMatchStrands(s, want);
    } else {
      StrandedForEver(s, want, states, steps, n - 1);
      StrandedStep(states[n - 1], steps[n - 1], want);
    }
  }

  lemma MidMatchStrands(s: State, want: Pid)
    requires Inv(s) && MidMatch(s, want)
    ensures Stranded(Receive(s, want), want)
  {
    hide Chains;
    hide Queues;
    hide Levels;
    var l := s.chains[s.cur];
    var i := Find(l, want, 1);
    assert l[i - 1] in l && l[i] in l;
    MidMatchBreaks(s, want);
    ChainFacts(s.status, s.chains, s.cur, l[i - 1]);
    ChainFacts(s.status, s.chains, s.cur, want);
    forall k | 0 <= k < LEVELS ensures want !in s.ready[k] {
      QueueMember(s, k, want);
    }
    hide Domains;
    WokenOnly(s, want);
  }

  /** Such a receive adds one process to one ready list and does not switch. */
  lemma WokenOnly(s: State, want: Pid)
    requires Domains(s) && MidMatch(s, want)
    ensures var t, prev := Receive(s, want), s.chains[s.cur][Find(s.chains[s.cur], want, 1) - 1];
      t.cur == s.cur && |t.ready| == LEVELS && forall k, x :: 0 <= k < LEVELS && x in t.ready[k] ==>
        x in s.ready[k] || x == prev
  {
    hide Find;
  }

  // ----- A run in which it happens

  const NOTHING := Context(0, 0, 0, 0)

  /** Processes 1 (init) to 4, all at the lowest level; `ready` are those that can run, `queue` those sending to 4. */
  ghost predicate At(s: State, cur: Pid, ready: seq<Pid>, queue: seq<Pid>) {
    && Inv(s) && s.init == 1 && s.cur == cur && s.maxPriority == LOWEST && s.ready[LOWEST] == ready
    && 4 in s.status && s.chains[4] == queue && s.status[4] != WaitingMsg && s.priority[s.cur] == LOWEST
  }

  lemma RoundRobin(s: State, succ: Option<Pid>)
    requires Domains(s) && s.maxPriority == LOWEST && s.ready[LOWEST] != [] && s.priority[s.cur] == LOWEST
    ensures var t := Schedule(s, succ);
      && t.cur == (if succ.Some? then succ.value else s.ready[LOWEST][0]) && t.ready == s.ready && t.chains == s.chains
      && t.priority == s.priority && t.maxPriority == LOWEST && t.init == s.init &&
        t.status == s.status[t.cur := Running]
  {}

  lemma InReady(s: State, p: Pid)
    requires Inv(s) && p in s.ready[LOWEST]
    ensures p in s.status && s.priority[p] == LOWEST && Distinct(s.ready[LOWEST])
  {
    hide Chains;
    hide Levels;
    hide Queues;
    QueueMember(s, LOWEST, p);
  }

  ghost predicate StepTo(s: State, a: Step, t: State) { Enabled(s, a) && t == Next(s, a) }

  lemma StartedOne(s: State, p: Pid) returns (t: State)
    requires Inv(s) && s.maxPriority == LOWEST && p !in s.status && p != ANY
    ensures StepTo(s, DoStart(p, LOWEST), t) && Inv(t) && t.init == s.init && t.cur == s.cur && t.maxPriority == LOWEST
    ensures |t.ready| == |s.ready| == LEVELS && t.ready[LOWEST] == s.ready[LOWEST] + [p]
    ensures t.status == s.status[p := Ready] && t.chains == s.chains[p := []] && t.priority == s.priority[p := LOWEST]
  {
    hide Inv;
    InvDomains(s);
    StartInv(s, p, LOWEST);
    t := Start(s, p, LOWEST);
  }

  lemma Started() returns (s1: State, s2: State, s3: State)
    ensures StepTo(Boot(1), DoStart(2, LOWEST), s1) && StepTo(s1, DoStart(3, LOWEST), s2)
    ensures StepTo(s2, DoStart(4, LOWEST), s3)
    ensures At(s3, 1, [1, 2, 3, 4], [])
  {
    hide Inv;
    hide StepTo;
    BootInv(1);
    s1 := StartedOne(Boot(1), 2);
    s2 := StartedOne(s1, 3);
    s3 := StartedOne(s2, 4);
    assert [1] + [2] + [3] + [4] == [1, 2, 3, 4];
  }

  lemma Yielded(s: State)
    requires At(s, 1, [1, 2, 3, 4], [])
    ensures Enabled(s, DoYield) && At(Next(s, DoYield), 2, [1, 2, 3, 4], [])
  {
    hide Inv;
    hide Levels;
    hide Schedule;
    InvDomains(s);
    NextInv(s, DoYield);
    InReady(s, 2);
    assert Succ([1, 2, 3, 4], 1) == Some(2);
    hide Succ;
    ReadyDomains(s);
    RoundRobin(s.(status := s.status[s.cur := Ready]), Some(2));
    hide Domains;
  }

  lemma ReadyDomains(s: State)
    requires Domains(s)
    ensures Domains(s.(status := s.status[s.cur := Ready]))
  {
    assert (s.status[s.cur := Ready]).Keys == s.status.Keys;
  }

  /** `cur` sends to 4, which is not waiting: it joins the chain and `next` runs. */
  lemma Joined(s: State, cur: Pid, next: Pid, ready: seq<Pid>, queue: seq<Pid>)
    requires At(s, cur, ready, queue) && 2 <= cur < 4 && next != cur && cur in ready && Succ(ready, cur) == Some(next)
    ensures Enabled(s, DoSend(4, 0, NOTHING))
    ensures At(Next(s, DoSend(4, 0, NOTHING)), next, Without(ready, cur), [cur] + queue)
  {
    hide Inv;
    hide Levels;
    hide Schedule;
    hide Succ;
    hide Without;
    InvDomains(s);
    NextInv(s, DoSend(4, 0, NOTHING));
    SuccIn(ready, cur);
    InReady(s, next);
    WithoutElems(ready, cur);
    SendSwitches(s, next);
    hide Send;
    hide Domains;
  }

  lemma SendSwitches(s: State, next: Pid)
    requires Domains(s) && 4 in s.status && s.status[4] != WaitingMsg && s.cur != 4 && s.maxPriority == LOWEST
    requires s.priority[s.cur] == LOWEST && Succ(s.ready[LOWEST], s.cur) == Some(next)
    requires Without(s.ready[LOWEST], s.cur) != []
    ensures var t := Send(s, 4, 0, NOTHING);
      && t.cur == next && t.init == s.init && t.maxPriority == LOWEST && t.priority == s.priority
      && t.ready == s.ready[LOWEST := Without(s.ready[LOWEST], s.cur)] &&
        t.chains == s.chains[4 := [s.cur] + s.chains[4]]
      && t.status == s.status[s.cur := SendingMsg][next := Running]
  {
    hide Schedule;
    hide Succ;
    hide Without;
    ParkedDomains(s);
    RoundRobin(Park(Queued(s, 4, 0, NOTHING), SendingMsg), Some(next));
  }

  lemma ParkedDomains(s: State)
    requires Domains(s) && 4 in s.status
    ensures Domains(Queued(s, 4, 0, NOTHING)) && Domains(Park(Queued(s, 4, 0, NOTHING), SendingMsg))
  {
    var q := Queued(s, 4, 0, NOTHING);
    assert q.chains.Keys == s.chains.Keys && q.msg.Keys == s.msg.Keys;
    assert Park(q, SendingMsg).status.Keys == s.status.Keys;
  }

  lemma RunOfSix(s: seq<State>, a: seq<Step>)
    requires |s| == 7 && |a| == 6 && s[0] == Boot(1)
    requires StepTo(s[0], a[0], s[1]) && StepTo(s[1], a[1], s[2]) && StepTo(s[2], a[2], s[3])
    requires StepTo(s[3], a[3], s[4]) && StepTo(s[4], a[4], s[5]) && StepTo(s[5], a[5], s[6])
    ensures IsRun(s, a)
  {
    hide Enabled;
    hide Next;
    hide Boot;
    forall k | 0 <= k < 6 ensures StepTo(s[k], a[k], s[k + 1]) {}
  }

  lemma Lists()
    ensures Succ([1, 2, 3, 4], 2) == Some(3) && Without([1, 2, 3, 4], 2) == [1, 3, 4] && Succ([1, 3, 4], 3) == Some(4)
    ensures [2] + [] == [2] && [3] + [2] == [3, 2] && Find([3, 2], 2, 1) == 1
  {}

  /** Three processes are started, init yields, 2 and 3 send to 4; now 4 asks for 2, which is behind 3. */
  lemma MidMatchRun() returns (states: seq<State>, steps: seq<Step>)
    ensures IsRun(states, steps) && |steps| == 6 && states[6].cur == 4 && Inv(states[6]) && MidMatch(states[6], 2)
    ensures !Inv(Receive(states[6], 2))
  {
    hide Inv;
    hide IsRun;
    hide Enabled;
    hide Next;
    hide Boot;
    hide Succ;
    hide Without;
    var s1, s2, s3 := Started();
    Yielded(s3);
    var s4 := Next(s3, DoYield);
    Lists();
    var send := DoSend(4, 0, NOTHING);
    Joined(s4, 2, 3, [1, 2, 3, 4], []);
    var s5 := Next(s4, send);
    Joined(s5, 3, 4, [1, 3, 4], [2]);
    var s6 := Next(s5, send);
    states := [Boot(1), s1, s2, s3, s4, s5, s6];
    steps := [DoStart(2, LOWEST), DoStart(3, LOWEST), DoStart(4, LOWEST), DoYield, send, send];
    RunOfSix(states, steps);
    AsksBehind(s6);
  }

  lemma AsksBehind(s: State)
    requires At(s, 4, Without([1, 3, 4], 3), [3, 2])
    ensures Domains(s) && MidMatch(s, 2) && !Inv(Receive(s, 2))
  {
    hide Inv;
    hide Receive;
    InvDomains(s);
    Lists();
    ReceiveInvIff(s, 2);
  }
}
