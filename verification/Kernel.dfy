/** Message passing of kernel/ipc.cc and the scheduler of kernel/process.cc as a transition system. A system call
    runs with interrupts off (kernel/interrupt.cc:170), so each call by the current process is one step. */
module Kernel {
  import opened Options

  /** A process is named by the address of its pcb; 0 is ANY. */
  type Pid = nat
  const ANY: Pid := 0
  const REPLY := 0xff_fffe
  const INTR := 0xff_ffff
  const LEVELS := 5
  /** PRIORITY_E, the level of init. */
  const LOWEST := 4
  const ROUNDS := 10

  datatype Status = Running | Ready | Blocked | WaitingMsg | SendingMsg

  datatype Context = Context(con1: nat, con2: nat, con3: nat, con4: nat)

  /** A process's message object: type, context and destination. */
  datatype Message = Message(kind: int, context: Context, dest: Pid)

  datatype State = State(
    init: Pid,
    cur: Pid,
    status: map<Pid, Status>,
    priority: map<Pid, nat>,
    ready: seq<seq<Pid>>,
    maxRounds: seq<nat>,
    maxPriority: nat,
    chains: map<Pid, seq<Pid>>,   // the senders blocked on each process, head of the chain first
    msg: map<Pid, Message>,
    intrCnt: map<Pid, nat>)

  // ----- Lists without repetition

  ghost predicate Distinct(l: seq<Pid>) {
    forall i, j :: 0 <= i < j < |l| ==> l[i] != l[j]
  }

  function Without(l: seq<Pid>, x: Pid): seq<Pid> {
    if l == [] then [] else if l[0] == x then l[1..] else [l[0]] + Without(l[1..], x)
  }

  /** The element after `x`; None when `x` is last: its link is the tail sentinel. */
  function Succ(l: seq<Pid>, x: Pid): Option<Pid> {
    if |l| < 2 then None else if l[0] == x then Some(l[1]) else Succ(l[1..], x)
  }

  lemma {:induction false} WithoutElems(l: seq<Pid>, x: Pid)
    requires Distinct(l)
    ensures Distinct(Without(l, x)) && forall y :: y in Without(l, x) <==> y in l && y != x
  {
    if l != [] {
      assert l == [l[0]] + l[1..];
      assert l[0] !in l[1..];
      WithoutElems(l[1..], x);
    }
  }

  lemma {:induction false} SuccElem(l: seq<Pid>, x: Pid)
    requires Distinct(l)
    ensures Succ(l, x).Some? ==> Succ(l, x).value in l && Succ(l, x).value != x
  {
    if |l| >= 2 && l[0] != x {
      SuccElem(l[1..], x);
    }
  }

  // ----- The invariant

  ghost predicate Domains(s: State) {
    && s.priority.Keys == s.status.Keys && s.chains.Keys == s.status.Keys
    && s.msg.Keys == s.status.Keys && s.intrCnt.Keys == s.status.Keys
    && ANY !in s.status && s.cur in s.status && s.init in s.status
    && |s.ready| == LEVELS && |s.maxRounds| == LEVELS
    && (forall p :: p in s.priority ==> s.priority[p] < LEVELS)
    && (forall d, x :: d in s.chains && x in s.chains[d] ==> x in s.status)
  }

  predicate Runnable(st: Status) { st == Running || st == Ready }

  /** A process is linked in the ready list of its own priority exactly when it is READY or RUNNING. */
  ghost predicate Queues(status: map<Pid, Status>, priority: map<Pid, nat>, ready: seq<seq<Pid>>)
    requires priority.Keys == status.Keys
  {
    && (forall l :: 0 <= l < |ready| ==> Distinct(ready[l]))
    && (forall l, p :: 0 <= l < |ready| ==>
          (p in ready[l] <==> p in status && priority[p] == l && Runnable(status[p])))
  }

  /** A process is in exactly one sendings chain when it is SENDING_MSG and in none otherwise; chains do not
      repeat. */
  ghost predicate Chains(status: map<Pid, Status>, chains: map<Pid, seq<Pid>>) {
    && (forall d :: d in chains ==> Distinct(chains[d]))
    && (forall d, x :: d in chains && x in chains[d] ==> x in status && status[x] == SendingMsg)
    && (forall x :: x in status && status[x] == SendingMsg ==> exists d :: d in chains && x in chains[d])
    && (forall d, e, x :: d in chains && e in chains && x in chains[d] && x in chains[e] ==> d == e)
  }

  ghost predicate Levels(s: State)
    requires Domains(s)
  {
    && s.maxPriority <= LOWEST
    && (forall p :: p in s.status && Runnable(s.status[p]) ==> s.maxPriority <= s.priority[p])
    && s.priority[s.init] == LOWEST && Runnable(s.status[s.init])
    && (forall l :: 0 <= l < 3 ==> s.maxRounds[l] <= ROUNDS)
  }

  /** Everything except who is running: what holds when schedule is called. */
  ghost predicate Parked(s: State) {
    Domains(s) && Queues(s.status, s.priority, s.ready) && Chains(s.status, s.chains) && Levels(s)
  }

  ghost predicate OnlyCurrentRuns(s: State) {
    forall p :: p in s.status && s.status[p] == Running <==> p == s.cur
  }

  ghost predicate Inv(s: State) {
    Parked(s) && OnlyCurrentRuns(s)
  }

  // ----- The scheduler

  /** The scan of schedule: the level it stops at and the round budgets it leaves. */
  function Pick(ready: seq<seq<Pid>>, rounds: seq<nat>, level: nat): (r: (nat, seq<nat>))
    requires |ready| == LEVELS && |rounds| == LEVELS
    ensures |r.1| == LEVELS
    decreases LEVELS - level
  {
    if level >= LEVELS then (level, rounds)
    else if rounds[level] == 0 && level < 3 then Pick(ready, rounds[level := ROUNDS], level + 1)
    else if ready[level] != [] then (level, rounds)
    else Pick(ready, rounds, level + 1)
  }

  /** A level schedule would pass over. */
  predicate Skipped(ready: seq<seq<Pid>>, rounds: seq<nat>, level: nat)
    requires level < |ready| && level < |rounds|
  {
    (rounds[level] == 0 && level < 3) || ready[level] == []
  }

  /** With init linked at the lowest level the scan stops at the first level that is not empty and not out of
      budget; only exhausted budgets it passed are refilled. */
  lemma {:induction false} PickIsFirst(ready: seq<seq<Pid>>, rounds: seq<nat>, level: nat)
    requires |ready| == LEVELS && |rounds| == LEVELS && level <= LOWEST && ready[LOWEST] != []
    ensures var (l, r) := Pick(ready, rounds, level);
      && level <= l <= LOWEST && !Skipped(ready, rounds, l)
      && (forall k :: level <= k < l ==> Skipped(ready, rounds, k))
      && (forall k :: 0 <= k < LEVELS ==>
            r[k] == if level <= k < l && k < 3 && rounds[k] == 0 then ROUNDS else rounds[k])
    decreases LEVELS - level
  {
    if rounds[level] == 0 && level < 3 {
      PickIsFirst(ready, rounds[level := ROUNDS], level + 1);
    } else if ready[level] == [] {
      PickIsFirst(ready, rounds, level + 1);
    }
  }

  /** Decrement of an unsigned int. */
  function Dec(x: nat): nat { if x == 0 then 0xffff_ffff else x - 1 }

  /** schedule() once the current process's own status is settled; `succ` is its link in its ready list, stale
      if it has just been unlinked. */
  function Schedule(s: State, succ: Option<Pid>): State
    requires |s.ready| == LEVELS && |s.maxRounds| == LEVELS && s.cur in s.priority
  {
    var (level, rounds) := Pick(s.ready, s.maxRounds, s.maxPriority);
    if level >= LEVELS || s.ready[level] == [] then s.(maxRounds := rounds)
    else
      var mine := s.priority[s.cur] == level;
      var next := if mine && succ.Some? then succ.value else s.ready[level][0];
      var left := if mine then rounds[level := Dec(rounds[level])] else rounds;
      s.(maxRounds := left, cur := next, status := s.status[next := Running])
  }

  /** What schedule is entitled to assume of the link it follows. */
  ghost predicate LinkOk(s: State, succ: Option<Pid>)
    requires Domains(s)
  {
    succ.Some? ==> succ.value in s.ready[s.priority[s.cur]]
  }

  lemma QueueMember(s: State, l: nat, p: Pid)
    requires s.priority.Keys == s.status.Keys && Queues(s.status, s.priority, s.ready) && l < |s.ready|
    ensures Distinct(s.ready[l])
    ensures p in s.ready[l] <==> p in s.status && s.priority[p] == l && Runnable(s.status[p])
  {}

  /** `t` is `s` with a process of the first eligible level from max_priority on made the running one. */
  ghost predicate Scheduled(s: State, t: State) {
    && Domains(s) && |t.maxRounds| == LEVELS && t.cur in s.status
    && t == s.(maxRounds := t.maxRounds, cur := t.cur, status := s.status[t.cur := Running])
    && var level := s.priority[t.cur];
    && s.maxPriority <= level && t.cur in s.ready[level] && !Skipped(s.ready, s.maxRounds, level)
    && (forall k :: s.maxPriority <= k < level ==> Skipped(s.ready, s.maxRounds, k))
    && (forall l :: 0 <= l < 3 ==> t.maxRounds[l] <= ROUNDS)
  }

  /** schedule always finds a process: one linked in the first level from max_priority on that is neither empty
      nor out of budget. */
  lemma ScheduleFinds(s: State, succ: Option<Pid>)
    requires Parked(s) && LinkOk(s, succ)
    ensures Scheduled(s, Schedule(s, succ))
    ensures Runnable(s.status[Schedule(s, succ).cur])
  {
    hide Queues;
    hide Chains;
    QueueMember(s, LOWEST, s.init);
    PickIsFirst(s.ready, s.maxRounds, s.maxPriority);
    var (level, rounds) := Pick(s.ready, s.maxRounds, s.maxPriority);
    assert s.ready[level][0] in s.ready[level];
    var t := Schedule(s, succ);
    assert t.cur in s.ready[level];
    QueueMember(s, level, t.cur);
  }

  lemma ScheduleInv(s: State, succ: Option<Pid>)
    requires Parked(s) && LinkOk(s, succ) && forall p :: p in s.status ==> s.status[p] != Running
    ensures Inv(Schedule(s, succ))
  {
    hide Queues;
    hide Chains;
    hide Schedule;
    ScheduleFinds(s, succ);
    var t := Schedule(s, succ);
    ScheduledRuns(s, t);
    ScheduledDomains(s, t);
    hide Domains;
    hide Levels;
    hide OnlyCurrentRuns;
    hide Scheduled;
    RenameRunning(s.status, t.status, s.priority, s.ready, s.chains);
  }

  lemma ScheduledDomains(s: State, t: State)
    requires Domains(s) && Levels(s) && Scheduled(s, t) && Runnable(s.status[t.cur])
    ensures Domains(t) && Levels(t)
  {
    assert t.status.Keys == s.status.Keys;
  }

  lemma ScheduledRuns(s: State, t: State)
    requires Scheduled(s, t) && Runnable(s.status[t.cur]) && forall p :: p in s.status ==> s.status[p] != Running
    ensures OnlyCurrentRuns(t) && s.priority.Keys == t.priority.Keys == s.status.Keys == t.status.Keys
    ensures t.priority == s.priority && t.ready == s.ready && t.chains == s.chains
    ensures forall p :: p in s.status ==> t.status[p] == s.status[p] || (Runnable(s.status[p]) && Runnable(t.status[p]))
  {
    assert t.status.Keys == s.status.Keys;
  }

  /** Queues and chains look only at whether a process is runnable, and at SENDING_MSG. */
  lemma RenameRunning(st: map<Pid, Status>, st': map<Pid, Status>, priority: map<Pid, nat>, ready: seq<seq<Pid>>,
    chains: map<Pid, seq<Pid>>)
    requires priority.Keys == st.Keys == st'.Keys && Queues(st, priority, ready) && Chains(st, chains)
    requires forall p :: p in st ==> st'[p] == st[p] || (Runnable(st[p]) && Runnable(st'[p]))
    ensures Queues(st', priority, ready) && Chains(st', chains)
  {
    forall l, p | 0 <= l < |ready|
      ensures p in ready[l] <==> p in st' && priority[p] == l && Runnable(st'[p])
    {
      assert p in ready[l] <==> p in st && priority[p] == l && Runnable(st[p]);
    }
  }

  /** Timer tick or yield: the current process stays runnable. */
  function Yield(s: State): State
    requires Domains(s)
  {
    Schedule(s.(status := s.status[s.cur := Ready]), Succ(s.ready[s.priority[s.cur]], s.cur))
  }

  /** self_block: the current process leaves its ready list before schedule follows its stale link. */
  function Park(s: State, st: Status): State
    requires Domains(s)
  {
    var l := s.priority[s.cur];
    s.(status := s.status[s.cur := st], ready := s.ready[l := Without(s.ready[l], s.cur)])
  }

  function SelfBlock(s: State, st: Status): State
    requires Domains(s)
  {
    Schedule(Park(s, st), Succ(s.ready[s.priority[s.cur]], s.cur))
  }

  lemma YieldParked(s: State)
    requires Inv(s)
    ensures var t := s.(status := s.status[s.cur := Ready]);
      && Parked(t) && LinkOk(t, Succ(s.ready[s.priority[s.cur]], s.cur))
      && forall p :: p in t.status ==> t.status[p] != Running
  {
    hide Queues;
    hide Chains;
    var t := s.(status := s.status[s.cur := Ready]);
    YieldDomains(s);
    assert t.status.Keys == s.status.Keys;
    hide Levels;
    RenameRunning(s.status, t.status, s.priority, s.ready, s.chains);
    QueueMember(s, s.priority[s.cur], s.cur);
    SuccElem(s.ready[s.priority[s.cur]], s.cur);
  }

  lemma YieldDomains(s: State)
    requires Domains(s) && Levels(s) && OnlyCurrentRuns(s)
    ensures var t := s.(status := s.status[s.cur := Ready]); Domains(t) && Levels(t)
  {
    assert (s.status[s.cur := Ready]).Keys == s.status.Keys;
  }

  lemma YieldInv(s: State)
    requires Inv(s)
    ensures Inv(Yield(s))
  {
    YieldParked(s);
    hide Queues;
    hide Chains;
    hide Schedule;
    ScheduleInv(s.(status := s.status[s.cur := Ready]), Succ(s.ready[s.priority[s.cur]], s.cur));
  }

  lemma ParkQueues(s: State, st: Status)
    requires Domains(s) && Queues(s.status, s.priority, s.ready) && !Runnable(st)
    ensures Queues(Park(s, st).status, s.priority, Park(s, st).ready)
  {
    var l, t := s.priority[s.cur], Park(s, st);
    WithoutElems(s.ready[l], s.cur);
    forall k, p | 0 <= k < |t.ready|
      ensures p in t.ready[k] <==> p in t.status && s.priority[p] == k && Runnable(t.status[p])
    {
      assert p in s.ready[k] <==> p in s.status && s.priority[p] == k && Runnable(s.status[p]);
    }
  }

  /** A state about to change the status of `p`, whose chains already suit the new status. */
  ghost predicate Prepared(u: State, p: Pid, st: Status) {
    && Domains(u) && Queues(u.status, u.priority, u.ready) && Levels(u) && OnlyCurrentRuns(u)
    && p in u.status && Chains(u.status[p := st], u.chains)
  }

  /** What schedule finds when self_block calls it: the current process is out of its list and its stale link
      still leads to an element of that list. */
  lemma BlockParked(u: State, st: Status)
    requires Prepared(u, u.cur, st) && !Runnable(st) && u.cur != u.init
    ensures Parked(Park(u, st)) && LinkOk(Park(u, st), Succ(u.ready[u.priority[u.cur]], u.cur))
    ensures forall p :: p in Park(u, st).status ==> Park(u, st).status[p] != Running
  {
    hide Queues;
    hide Chains;
    var l, t := u.priority[u.cur], Park(u, st);
    ParkQueues(u, st);
    QueueMember(u, l, u.cur);
    SuccElem(u.ready[l], u.cur);
    WithoutElems(u.ready[l], u.cur);
    assert t.status.Keys == u.status.Keys;
  }

  lemma BlockInv(u: State, st: Status)
    requires Prepared(u, u.cur, st) && !Runnable(st) && u.cur != u.init
    ensures Inv(SelfBlock(u, st))
  {
    BlockParked(u, st);
    hide Queues;
    hide Chains;
    hide Schedule;
    ScheduleInv(Park(u, st), Succ(u.ready[u.priority[u.cur]], u.cur));
  }

  lemma ChainMembers(st: map<Pid, Status>, chains: map<Pid, seq<Pid>>)
    requires Chains(st, chains)
    ensures forall d, x :: d in chains && x in chains[d] ==> x in st && st[x] == SendingMsg
  {}

  /** unblock_proc. Its WAITING_MID test reads the status it has just overwritten and never fires. */
  function Unblock(s: State, p: Pid): State
    requires Domains(s) && p in s.status
  {
    var l := s.priority[p];
    s.(status := s.status[p := Ready], ready := s.ready[l := s.ready[l] + [p]],
       maxPriority := if l < s.maxPriority then l else s.maxPriority)
  }

  lemma UnblockQueues(s: State, p: Pid)
    requires Domains(s) && Queues(s.status, s.priority, s.ready) && p in s.status && !Runnable(s.status[p])
    ensures Queues(Unblock(s, p).status, s.priority, Unblock(s, p).ready)
  {
    var l, t := s.priority[p], Unblock(s, p);
    assert p !in s.ready[l];
    forall k, q | 0 <= k < |t.ready|
      ensures q in t.ready[k] <==> q in t.status && s.priority[q] == k && Runnable(t.status[q])
    {
      assert q in s.ready[k] <==> q in s.status && s.priority[q] == k && Runnable(s.status[q]);
    }
  }

  lemma UnblockInv(u: State, p: Pid)
    requires Prepared(u, p, Ready) && !Runnable(u.status[p])
    ensures Inv(Unblock(u, p))
  {
    hide Queues;
    hide Chains;
    UnblockQueues(u, p);
    assert Unblock(u, p).status.Keys == u.status.Keys;
  }

  /** Changing message objects and interrupt counters disturbs nothing else. */
  lemma MessageOnly(s: State, u: State, p: Pid, st: Status)
    requires Inv(s) && u == s.(msg := u.msg, intrCnt := u.intrCnt)
    requires u.msg.Keys == s.msg.Keys && u.intrCnt.Keys == s.intrCnt.Keys
    requires p in s.status && (s.status[p] == SendingMsg <==> st == SendingMsg)
    ensures Prepared(u, p, st)
  {
    hide Queues;
    hide Chains;
    hide Domains;
    hide Levels;
    hide OnlyCurrentRuns;
    MessageDomains(s, u);
    assert (s.status[p := st]).Keys == s.status.Keys;
    ChainsOther(s.status, s.status[p := st], s.chains);
  }

  lemma MessageDomains(s: State, u: State)
    requires Domains(s) && Levels(s) && OnlyCurrentRuns(s) && u == s.(msg := u.msg, intrCnt := u.intrCnt)
    requires u.msg.Keys == s.msg.Keys && u.intrCnt.Keys == s.intrCnt.Keys
    ensures Domains(u) && Levels(u) && OnlyCurrentRuns(u)
  {}

  // ----- Message passing

  /** The receiver is waiting for this sender, for anyone, or this is a reply. */
  predicate Awaited(s: State, dst: Pid, kind: int)
    requires dst in s.status && dst in s.msg
  {
    s.status[dst] == WaitingMsg && (s.msg[dst].dest == ANY || s.msg[dst].dest == s.cur || kind == REPLY)
  }

  /** Message::send by the current process. */
  function Send(s: State, dst: Pid, kind: int, context: Context): State
    requires Domains(s) && dst in s.status
  {
    if Awaited(s, dst, kind) then
      Unblock(s.(msg := s.msg[dst := Message(kind, context, s.cur)]), dst)
    else
      SelfBlock(Queued(s, dst, kind, context), SendingMsg)
  }

  lemma SendInv(s: State, dst: Pid, kind: int, context: Context)
    requires Inv(s) && dst in s.status && s.cur != s.init
    ensures Inv(Send(s, dst, kind, context))
  {
    hide Queues;
    hide Chains;
    hide Levels;
    hide Unblock;
    hide SelfBlock;
    if Awaited(s, dst, kind) {
      var u := s.(msg := s.msg[dst := Message(kind, context, s.cur)]);
      MessageOnly(s, u, dst, Ready);
      UnblockInv(u, dst);
    } else {
      SendBlocks(s, dst, kind, context);
    }
  }

  /** The state in which a sender that has to wait blocks itself. */
  function Queued(s: State, dst: Pid, kind: int, context: Context): State
    requires Domains(s) && dst in s.status
  {
    s.(msg := s.msg[s.cur := Message(kind, context, s.msg[s.cur].dest)],
       chains := s.chains[dst := [s.cur] + s.chains[dst]])
  }

  lemma QueuedPrepared(s: State, dst: Pid, kind: int, context: Context)
    requires Inv(s) && dst in s.status
    ensures Prepared(Queued(s, dst, kind, context), s.cur, SendingMsg)
  {
    hide Queues;
    hide Chains;
    PushChain(s.status, s.chains, s.cur, dst);
    PushedMembers(s.status, s.chains, s.cur, dst);
  }

  lemma SendBlocks(s: State, dst: Pid, kind: int, context: Context)
    requires Inv(s) && dst in s.status && s.cur != s.init && !Awaited(s, dst, kind)
    ensures Inv(Send(s, dst, kind, context))
  {
    hide Queues;
    hide Chains;
    hide SelfBlock;
    QueuedPrepared(s, dst, kind, context);
    BlockInv(Queued(s, dst, kind, context), SendingMsg);
  }

  lemma ChainsOther(st: map<Pid, Status>, st': map<Pid, Status>, chains: map<Pid, seq<Pid>>)
    requires Chains(st, chains) && st'.Keys == st.Keys
    requires forall p :: p in st ==> (st'[p] == SendingMsg <==> st[p] == SendingMsg)
    ensures Chains(st', chains)
  {}

  lemma PushChain(st: map<Pid, Status>, chains: map<Pid, seq<Pid>>, x: Pid, d: Pid)
    requires Chains(st, chains) && x in st && st[x] != SendingMsg && d in chains
    ensures Chains(st[x := SendingMsg], chains[d := [x] + chains[d]])
  {
    var st', chains' := st[x := SendingMsg], chains[d := [x] + chains[d]];
    assert forall e, y :: e in chains && y in chains'[e] <==> e in chains && (y in chains[e] || (e == d && y == x));
    forall y | y in st' && st'[y] == SendingMsg ensures exists e :: e in chains' && y in chains'[e] {
      if y == x {
        assert x in chains'[d];
      } else {
        var e :| e in chains && y in chains[e];
        assert y in chains'[e];
      }
    }
  }

  lemma PushedMembers(st: map<Pid, Status>, chains: map<Pid, seq<Pid>>, x: Pid, d: Pid)
    requires x in st && d in chains && forall e, y :: e in chains && y in chains[e] ==> y in st
    ensures var chains' := chains[d := [x] + chains[d]];
      chains'.Keys == chains.Keys && forall e, y :: e in chains' && y in chains'[e] ==> y in st
  {}

  /** Remove position `i` of a chain. */
  function CutAt(l: seq<Pid>, i: nat): seq<Pid>
    requires i < |l|
  {
    l[..i] + l[i + 1..]
  }

  lemma CutElems(l: seq<Pid>, i: nat)
    requires Distinct(l) && i < |l|
    ensures Distinct(CutAt(l, i)) && forall y :: y in CutAt(l, i) <==> y in l && y != l[i]
  {
    assert l == l[..i] + [l[i]] + l[i + 1..];
    forall y | y in CutAt(l, i) ensures y != l[i] {
      var k :| 0 <= k < |CutAt(l, i)| && CutAt(l, i)[k] == y;
      assert y == l[if k < i then k else k + 1];
    }
  }

  lemma CutChain(st: map<Pid, Status>, chains: map<Pid, seq<Pid>>, d: Pid, i: nat)
    requires Chains(st, chains) && d in chains && i < |chains[d]|
    ensures Chains(st[chains[d][i] := Ready], chains[d := CutAt(chains[d], i)])
  {
    var l := chains[d];
    var x := l[i];
    var st', chains' := st[x := Ready], chains[d := CutAt(l, i)];
    assert x in l;
    CutElems(l, i);
    hide Distinct;
    hide CutAt;
    forall y | y in st' && st'[y] == SendingMsg ensures exists e :: e in chains' && y in chains'[e] {
      var e :| e in chains && y in chains[e];
      assert y in chains'[e];
    }
  }

  /** The first position from `i` on that holds `want`, or the length. */
  function Find(l: seq<Pid>, want: Pid, i: nat): (k: nat)
    requires i <= |l|
    ensures i <= k <= |l| && (k < |l| ==> l[k] == want) && forall j :: i <= j < k ==> l[j] != want
    decreases |l| - i
  {
    if i == |l| || l[i] == want then i else Find(l, want, i + 1)
  }

  /** An interrupt is pending and any message will do. */
  predicate TakesInterrupt(s: State, want: Pid)
    requires s.cur in s.intrCnt
  {
    s.intrCnt[s.cur] != 0 && want == ANY
  }

  predicate HeadMatch(s: State, want: Pid)
    requires s.cur in s.chains && s.cur in s.intrCnt
  {
    !TakesInterrupt(s, want) && s.chains[s.cur] != [] && (want == s.chains[s.cur][0] || want == ANY)
  }

  /** The sender asked for is in the chain, but not at its head. */
  predicate MidMatch(s: State, want: Pid)
    requires s.cur in s.chains && s.cur in s.intrCnt
  {
    want != ANY && s.chains[s.cur] != [] && want != s.chains[s.cur][0]
    && Find(s.chains[s.cur], want, 1) < |s.chains[s.cur]|
  }

  /** Message::receive by the current process, as written: in the middle of the chain it unlinks the sender asked
      for, but wakes, and answers to, the one before it. */
  function Receive(s: State, want: Pid): State
    requires Domains(s)
  {
    var c, l := s.cur, s.chains[s.cur];
    if TakesInterrupt(s, want) then
      s.(msg := s.msg[c := s.msg[c].(kind := INTR)], intrCnt := s.intrCnt[c := s.intrCnt[c] - 1])
    else if HeadMatch(s, want) then
      var x := l[0];
      var t := s.(msg := s.msg[c := Message(s.msg[x].kind, s.msg[x].context, x)], chains := s.chains[c := l[1..]]);
      if s.status[x] == SendingMsg then Unblock(t, x) else t
    else if MidMatch(s, want) then
      var i := Find(l, want, 1);
      var prev := l[i - 1];
      var t := s.(msg := s.msg[c := Message(s.msg[want].kind, s.msg[want].context, prev)],
                  chains := s.chains[c := CutAt(l, i)]);
      if s.status[prev] == SendingMsg then Unblock(t, prev) else t
    else
      SelfBlock(s.(msg := s.msg[c := s.msg[c].(dest := want)]), WaitingMsg)
  }

  /** receive keeps the queues and chains right if and only if the sender asked for is not in the middle of the
      chain. */
  lemma ReceiveInvIff(s: State, want: Pid)
    requires Inv(s) && s.cur != s.init
    ensures Inv(Receive(s, want)) <==> !MidMatch(s, want)
  {
    hide Queues;
    hide Chains;
    hide Unblock;
    hide SelfBlock;
    if TakesInterrupt(s, want) {
      var t := Receive(s, want);
      MessageOnly(s, t, s.cur, Running);
      SameStatus(s, t);
    } else if HeadMatch(s, want) {
      ReceiveHead(s, want);
    } else if MidMatch(s, want) {
      MidMatchBreaks(s, want);
    } else {
      var u := s.(msg := s.msg[s.cur := s.msg[s.cur].(dest := want)]);
      MessageOnly(s, u, s.cur, WaitingMsg);
      BlockInv(u, WaitingMsg);
    }
  }

  /** What Chains says of one member `x` of the chain of `c`. */
  lemma ChainFacts(st: map<Pid, Status>, chains: map<Pid, seq<Pid>>, c: Pid, x: Pid)
    requires Chains(st, chains) && c in chains && x in chains[c]
    ensures Distinct(chains[c]) && x in st && st[x] == SendingMsg
    ensures forall d :: d in chains && d != c ==> x !in chains[d]
  {}

  lemma NotChains(st: map<Pid, Status>, chains: map<Pid, seq<Pid>>, c: Pid, x: Pid)
    requires c in chains && x in chains[c] && x in st && st[x] != SendingMsg
    ensures !Chains(st, chains)
  {}

  lemma ReceiveHead(s: State, want: Pid)
    requires Inv(s) && HeadMatch(s, want)
    ensures Inv(Receive(s, want))
  {
    hide Queues;
    hide Chains;
    hide Unblock;
    var c, l := s.cur, s.chains[s.cur];
    var x := l[0];
    assert x in s.chains[c];
    ChainFacts(s.status, s.chains, c, x);
    CutChain(s.status, s.chains, c, 0);
    assert CutAt(l, 0) == l[1..];
    var u := s.(msg := s.msg[c := Message(s.msg[x].kind, s.msg[x].context, x)], chains := s.chains[c := l[1..]]);
    UnblockInv(u, x);
  }

  lemma MidMatchState(s: State, want: Pid)
    requires Domains(s) && MidMatch(s, want)
    requires forall x :: x in s.chains[s.cur] ==> s.status[x] == SendingMsg
    ensures var t := Receive(s, want);
      var l := s.chains[s.cur];
      var i := Find(l, want, 1);
      t.chains == s.chains[s.cur := CutAt(l, i)] && t.status == s.status[l[i - 1] := Ready]
  {
    var l := s.chains[s.cur];
    assert l[Find(l, want, 1) - 1] in l;
  }

  /** The process woken is the one before the sender asked for: it is READY but still linked. The sender asked for is
      still SENDING_MSG, in no chain at all. */
  lemma MidMatchBreaks(s: State, want: Pid)
    requires Inv(s) && MidMatch(s, want)
    ensures var t := Receive(s, want);
      var l := s.chains[s.cur];
      var prev := l[Find(l, want, 1) - 1];
      && !Chains(t.status, t.chains)
      && prev != want && prev in t.status && t.status[prev] == Ready && s.cur in t.chains && prev in t.chains[s.cur]
      && want in t.status && t.status[want] == SendingMsg && forall d :: d in t.chains ==> want !in t.chains[d]
  {
    hide Queues;
    hide Levels;
    hide Chains;
    hide Receive;
    hide OnlyCurrentRuns;
    var c, l := s.cur, s.chains[s.cur];
    var i := Find(l, want, 1);
    var prev := l[i - 1];
    assert prev in l && l[i] in l;
    ChainFacts(s.status, s.chains, c, prev);
    ChainFacts(s.status, s.chains, c, want);
    ChainMembers(s.status, s.chains);
    MidMatchState(s, want);
    var t := Receive(s, want);
    assert t.chains[c][i - 1] == prev;
    NotChains(t.status, t.chains, c, prev);
    assert want !in CutAt(l, i);
  }

  /** The network interrupt: counted, and delivered at once to a process waiting for anyone. */
  function NetInterrupt(s: State, dst: Pid): State
    requires Domains(s) && dst in s.status
  {
    var t := s.(intrCnt := s.intrCnt[dst := (s.intrCnt[dst] + 1) % 256]);
    if s.status[dst] == WaitingMsg && s.msg[dst].dest == ANY then
      Unblock(t.(msg := s.msg[dst := s.msg[dst].(kind := INTR)]), dst)
    else t
  }

  lemma NetInterruptInv(s: State, dst: Pid)
    requires Inv(s) && dst in s.status
    ensures Inv(NetInterrupt(s, dst))
  {
    hide Queues;
    hide Chains;
    hide Levels;
    hide OnlyCurrentRuns;
    hide Unblock;
    var t := s.(intrCnt := s.intrCnt[dst := (s.intrCnt[dst] + 1) % 256]);
    if s.status[dst] == WaitingMsg && s.msg[dst].dest == ANY {
      var u := t.(msg := s.msg[dst := s.msg[dst].(kind := INTR)]);
      MessageOnly(s, u, dst, Ready);
      UnblockInv(u, dst);
    } else {
      MessageDomains(s, t);
      SameStatus(s, t);
    }
  }

  lemma SameStatus(s: State, t: State)
    requires Inv(s) && t == s.(msg := t.msg, intrCnt := t.intrCnt) && Domains(t)
    ensures Inv(t)
  {
    hide Queues;
    hide Chains;
  }

  /** start_process: a fresh pcb joins the ready list of its priority. */
  function Start(s: State, p: Pid, level: nat): State
    requires Domains(s) && level < LEVELS
  {
    s.(status := s.status[p := Ready], priority := s.priority[p := level],
       ready := s.ready[level := s.ready[level] + [p]],
       maxPriority := if level < s.maxPriority then level else s.maxPriority,
       chains := s.chains[p := []],
       msg := s.msg[p := Message(0, Context(0, 0, 0, 0), ANY)], intrCnt := s.intrCnt[p := 0])
  }

  lemma StartInv(s: State, p: Pid, level: nat)
    requires Inv(s) && level < LEVELS && p !in s.status && p != ANY
    ensures Inv(Start(s, p, level))
  {
    hide Queues;
    hide Chains;
    StartQueues(s, p, level);
    StartChains(s.status, s.chains, p);
    StartDomains(s, p, level);
    StartLevels(s, p, level);
    hide Levels;
    hide OnlyCurrentRuns;
  }

  lemma StartDomains(s: State, p: Pid, level: nat)
    requires Domains(s) && level < LEVELS && p !in s.status && p != ANY
    ensures Domains(Start(s, p, level))
  {
    assert Start(s, p, level).status.Keys == s.status.Keys + {p};
  }

  lemma StartLevels(s: State, p: Pid, level: nat)
    requires Domains(s) && Levels(s) && OnlyCurrentRuns(s) && level < LEVELS && p !in s.status
    requires Domains(Start(s, p, level))
    ensures Levels(Start(s, p, level)) && OnlyCurrentRuns(Start(s, p, level))
  {}

  lemma StartQueues(s: State, p: Pid, level: nat)
    requires Domains(s) && Queues(s.status, s.priority, s.ready) && level < LEVELS && p !in s.status
    ensures Queues(s.status[p := Ready], s.priority[p := level], s.ready[level := s.ready[level] + [p]])
  {
    var st, pr, rd := s.status[p := Ready], s.priority[p := level], s.ready[level := s.ready[level] + [p]];
    assert p !in s.ready[level];
    forall k, q | 0 <= k < |rd|
      ensures q in rd[k] <==> q in st && pr[q] == k && Runnable(st[q])
    {
      assert q in s.ready[k] <==> q in s.status && s.priority[q] == k && Runnable(s.status[q]);
    }
  }

  lemma StartChains(st: map<Pid, Status>, chains: map<Pid, seq<Pid>>, p: Pid)
    requires Chains(st, chains) && p !in st && p !in chains
    ensures Chains(st[p := Ready], chains[p := []])
  {
    var st', ch := st[p := Ready], chains[p := []];
    assert forall d :: d in ch ==> ch[d] == if d == p then [] else chains[d];
    forall d, e, x | d in ch && e in ch && x in ch[d] && x in ch[e] ensures d == e {
      assert x in chains[d] && x in chains[e];
    }
    forall x | x in st' && st'[x] == SendingMsg ensures exists d :: d in ch && x in ch[d] {
      var d :| d in chains && x in chains[d];
      assert ch[d] == chains[d];
    }
  }

  /** init_pm followed by deal_init_process. */
  function Boot(init: Pid): State {
    State(init, init, map[init := Running], map[init := LOWEST], [[], [], [], [], [init]],
          [ROUNDS, ROUNDS, ROUNDS, ROUNDS, ROUNDS], LOWEST, map[init := []],
          map[init := Message(0, Context(0, 0, 0, 0), ANY)], map[init := 0])
  }

  lemma BootInv(init: Pid)
    requires init != ANY
    ensures Inv(Boot(init))
  {
    BootQueues(init);
    hide Queues;
  }

  lemma BootQueues(init: Pid)
    ensures Queues(Boot(init).status, Boot(init).priority, Boot(init).ready)
  {
    var s := Boot(init);
    forall l, p | 0 <= l < LEVELS
      ensures p in s.ready[l] <==> p in s.status && s.priority[p] == l && Runnable(s.status[p])
    {}
  }

  // ----- Runs

  datatype Step =
    | DoSend(dst: Pid, kind: int, context: Context)
    | DoReceive(want: Pid)
    | DoBlock
    | DoYield
    | DoUnblock(blocked: Pid)
    | DoInterrupt(target: Pid)
    | DoStart(pid: Pid, level: nat)

  /** init never blocks (kernel/main.cc:34); a receive does not ask for a sender in mid-chain; a semaphore wakes only
      processes it has blocked (kernel/sync.cc:39). */
  ghost predicate Enabled(s: State, a: Step) {
    Domains(s) &&
    match a
    case DoSend(dst, _, _) => dst in s.status && s.cur != s.init
    case DoReceive(want) => s.cur != s.init && !MidMatch(s, want)
    case DoBlock => s.cur != s.init
    case DoYield => true
    case DoUnblock(p) => p in s.status && s.status[p] == Blocked
    case DoInterrupt(dst) => dst in s.status
    case DoStart(p, level) => level < LEVELS && p !in s.status && p != ANY
  }

  ghost function Next(s: State, a: Step): State
    requires Enabled(s, a)
  {
    match a
    case DoSend(dst, kind, context) => Send(s, dst, kind, context)
    case DoReceive(want) => Receive(s, want)
    case DoBlock => SelfBlock(s, Blocked)
    case DoYield => Yield(s)
    case DoUnblock(p) => Unblock(s, p)
    case DoInterrupt(dst) => NetInterrupt(s, dst)
    case DoStart(p, level) => Start(s, p, level)
  }

  lemma NextInv(s: State, a: Step)
    requires Inv(s) && Enabled(s, a)
    ensures Inv(Next(s, a))
  {
    hide Queues;
    hide Chains;
    hide Levels;
    hide Send;
    hide Receive;
    hide SelfBlock;
    hide Yield;
    hide NetInterrupt;
    hide Start;
    match a
    case DoSend(dst, kind, context) => SendInv(s, dst, kind, context);
    case DoReceive(want) => ReceiveInvIff(s, want);
    case DoBlock =>
      ChainsOther(s.status, s.status[s.cur := Blocked], s.chains);
      BlockInv(s, Blocked);
    case DoYield => YieldInv(s);
    case DoUnblock(p) =>
      ChainsOther(s.status, s.status[p := Ready], s.chains);
      UnblockInv(s, p);
    case DoInterrupt(dst) => NetInterruptInv(s, dst);
    case DoStart(p, level) => StartInv(s, p, level);
  }

  ghost predicate IsRun(states: seq<State>, steps: seq<Step>) {
    && |states| == |steps| + 1
    && (exists init :: init != ANY && states[0] == Boot(init))
    && forall k :: 0 <= k < |steps| ==> Enabled(states[k], steps[k]) && states[k + 1] == Next(states[k], steps[k])
  }

  /** Every reachable state keeps ready lists, chains and max_priority right. */
  lemma {:induction false} EveryState(states: seq<State>, steps: seq<Step>, n: nat)
    requires IsRun(states, steps) && n < |states|
    ensures Inv(states[n])
  {
    if n == 0 {
      var init :| init != ANY && states[0] == Boot(init);
      BootInv(init);
    } else {
      EveryState(states, steps, n - 1);
      NextInv(states[n - 1], steps[n - 1]);
    }
  }

  // ----- Round budgets

  /** The steps that call schedule. */
  ghost predicate CallsSchedule(s: State, a: Step)
    requires Enabled(s, a)
  {
    match a
    case DoSend(dst, kind, _) => !Awaited(s, dst, kind)
    case DoReceive(want) => !TakesInterrupt(s, want) && !HeadMatch(s, want)
    case DoBlock => true
    case DoYield => true
    case _ => false
  }

  /** Rounds left at level `m`, plus one if the next pick of that level is free of charge. */
  function Credit(s: State, m: nat): nat
    requires Domains(s) && m < 3
  {
    s.maxRounds[m] + if s.priority[s.cur] == m then 0 else 1
  }

  lemma ScheduleCredit(s: State, succ: Option<Pid>)
    requires Parked(s) && LinkOk(s, succ) && s.maxPriority < 3
    ensures var t := Schedule(s, succ); t.cur in s.priority && |t.maxRounds| == LEVELS
    ensures var t := Schedule(s, succ);
      s.priority[t.cur] == s.maxPriority ==> Credit(s, s.maxPriority) == t.maxRounds[s.maxPriority] + 1
  {
    ScheduleFinds(s, succ);
    hide Queues;
    hide Chains;
    QueueMember(s, LOWEST, s.init);
    PickIsFirst(s.ready, s.maxRounds, s.maxPriority);
  }

  /** The state in which a step calls schedule. */
  ghost function AtSchedule(s: State, a: Step): State
    requires Enabled(s, a) && CallsSchedule(s, a)
  {
    match a
    case DoSend(dst, kind, context) => Park(Queued(s, dst, kind, context), SendingMsg)
    case DoReceive(want) => Park(s.(msg := s.msg[s.cur := s.msg[s.cur].(dest := want)]), WaitingMsg)
    case DoBlock => Park(s, Blocked)
    case _ => s.(status := s.status[s.cur := Ready])
  }

  lemma AtScheduleOk(s: State, a: Step)
    requires Inv(s) && Enabled(s, a) && CallsSchedule(s, a)
    ensures var t := AtSchedule(s, a);
      var succ := Succ(s.ready[s.priority[s.cur]], s.cur);
      && Parked(t) && LinkOk(t, succ) && Next(s, a) == Schedule(t, succ)
      && t.cur == s.cur && t.priority == s.priority && t.maxRounds == s.maxRounds && t.maxPriority == s.maxPriority
  {
    hide Queues;
    hide Chains;
    hide Schedule;
    match a
    case DoSend(dst, kind, context) =>
      QueuedPrepared(s, dst, kind, context);
      BlockParked(Queued(s, dst, kind, context), SendingMsg);
    case DoReceive(want) =>
      var u := s.(msg := s.msg[s.cur := s.msg[s.cur].(dest := want)]);
      MessageOnly(s, u, s.cur, WaitingMsg);
      BlockParked(u, WaitingMsg);
    case DoBlock =>
      MessageOnly(s, s, s.cur, Blocked);
      BlockParked(s, Blocked);
    case DoYield => YieldParked(s);
  }

  /** In every run, every call of schedule makes a process run that is linked in the first level, from
      max_priority on, that is neither empty nor out of round budget. */
  lemma EveryScheduleFinds(states: seq<State>, steps: seq<Step>, n: nat)
    requires IsRun(states, steps) && n < |steps| && CallsSchedule(states[n], steps[n])
    ensures Scheduled(AtSchedule(states[n], steps[n]), states[n + 1])
  {
    EveryState(states, steps, n);
    var s := states[n];
    AtScheduleOk(s, steps[n]);
    hide Inv;
    ScheduleFinds(AtSchedule(s, steps[n]), Succ(s.ready[s.priority[s.cur]], s.cur));
  }

  /** A step that does not call schedule leaves the budgets and the current process alone. */
  lemma QuietStep(s: State, a: Step)
    requires Inv(s) && Enabled(s, a) && !CallsSchedule(s, a)
    ensures var t := Next(s, a);
      && t.maxRounds == s.maxRounds && t.cur == s.cur && s.cur in t.priority && t.priority[s.cur] == s.priority[s.cur]
  {
    hide Queues;
    hide Chains;
    hide Levels;
    match a
    case DoSend(dst, kind, context) =>
    case DoReceive(want) =>
    case DoUnblock(p) =>
    case DoInterrupt(dst) =>
    case DoStart(p, level) =>
  }

  /** The priority level of the current process. */
  function Level(s: State): nat { if s.cur in s.priority then s.priority[s.cur] else 0 }

  lemma StepCredit(s: State, a: Step, m: nat)
    requires Inv(s) && Enabled(s, a) && m < 3 && s.maxPriority == m && Inv(Next(s, a))
    ensures !CallsSchedule(s, a) ==> Credit(Next(s, a), m) == Credit(s, m)
    ensures CallsSchedule(s, a) ==> Level(Next(s, a)) >= m
    ensures CallsSchedule(s, a) && Level(Next(s, a)) == m ==> Credit(Next(s, a), m) + 1 == Credit(s, m)
  {
    hide Queues;
    hide Chains;
    hide Next;
    hide Schedule;
    hide Enabled;
    hide OnlyCurrentRuns;
    hide LinkOk;
    if CallsSchedule(s, a) {
      AtScheduleOk(s, a);
      var t := AtSchedule(s, a);
      hide AtSchedule;
      var succ := Succ(s.ready[s.priority[s.cur]], s.cur);
      ScheduleCredit(t, succ);
      ScheduleFinds(t, succ);
    } else {
      QuietStep(s, a);
    }
  }

  /** The calls of schedule among the first `n` steps. */
  ghost function Calls(states: seq<State>, steps: seq<Step>, n: nat): nat
    requires IsRun(states, steps) && n <= |steps|
  {
    if n == 0 then 0
    else Calls(states, steps, n - 1) + if CallsSchedule(states[n - 1], steps[n - 1]) then 1 else 0
  }

  /** Step `k` calls schedule and gives the processor to level `l`. */
  ghost predicate Picks(states: seq<State>, steps: seq<Step>, k: nat, l: nat)
    requires IsRun(states, steps) && k < |steps|
  {
    CallsSchedule(states[k], steps[k]) && Level(states[k + 1]) == l
  }

  lemma {:induction false} CreditSpent(states: seq<State>, steps: seq<Step>, from: nat, n: nat, m: nat)
    requires IsRun(states, steps) && from <= n <= |steps| && m < 3
    requires forall k :: from <= k <= n ==> states[k].maxPriority == m
    requires forall k :: from <= k < n && CallsSchedule(states[k], steps[k]) ==> Picks(states, steps, k, m)
    ensures Inv(states[from]) && Inv(states[n])
    ensures Credit(states[n], m) + (Calls(states, steps, n) - Calls(states, steps, from)) == Credit(states[from], m)
    decreases n - from
  {
    hide Inv;
    hide Domains;
    hide Levels;
    hide Credit;
    hide Calls;
    hide Picks;
    hide Next;
    hide Enabled;
    hide CallsSchedule;
    EveryState(states, steps, from);
    EveryState(states, steps, n);
    InvDomains(states[from]);
    InvDomains(states[n]);
    if from < n {
      CreditSpent(states, steps, from, n - 1, m);
      OneCall(states, steps, n - 1, m);
    }
  }

  /** Step `k`, seen from the run: what is called is paid for. */
  lemma OneCall(states: seq<State>, steps: seq<Step>, k: nat, m: nat)
    requires IsRun(states, steps) && k < |steps| && m < 3 && states[k].maxPriority == m
    requires CallsSchedule(states[k], steps[k]) ==> Picks(states, steps, k, m)
    ensures Inv(states[k]) && Inv(states[k + 1])
    ensures Credit(states[k + 1], m) + (Calls(states, steps, k + 1) - Calls(states, steps, k)) == Credit(states[k], m)
  {
    hide Parked;
    hide Next;
    hide CallsSchedule;
    hide Credit;
    EveryState(states, steps, k);
    EveryState(states, steps, k + 1);
    InvDomains(states[k]);
    InvDomains(states[k + 1]);
    StepCredit(states[k], steps[k], m);
  }

  lemma CreditBound(s: State, m: nat)
    requires Inv(s) && m < 3
    ensures Credit(s, m) <= ROUNDS + 1
  {}

  lemma InvDomains(s: State)
    requires Inv(s)
    ensures Domains(s) && Levels(s)
  {}

  /** While max_priority stays at a level m above PRIORITY_D, no 12 calls of schedule in a row can all pick level m:
      one of them runs a process of strictly lower priority. */
  lemma LowerLevelRuns(states: seq<State>, steps: seq<Step>, from: nat, n: nat, m: nat)
    requires IsRun(states, steps) && from <= n <= |steps| && m < 3
    requires forall k :: from <= k <= n ==> states[k].maxPriority == m
    requires Calls(states, steps, n) - Calls(states, steps, from) >= 12
    ensures exists k, l :: from <= k < n && l > m && Picks(states, steps, k, l)
  {
    hide Parked;
    hide CallsSchedule;
    EveryState(states, steps, from);
    CreditBound(states[from], m);
    if forall k :: from <= k < n && CallsSchedule(states[k], steps[k]) ==> Picks(states, steps, k, m) {
      CreditSpent(states, steps, from, n, m);
    } else {
      var k :| from <= k < n && CallsSchedule(states[k], steps[k]) && !Picks(states, steps, k, m);
      EveryState(states, steps, k);
      EveryState(states, steps, k + 1);
      StepCredit(states[k], steps[k], m);
      assert Picks(states, steps, k, Level(states[k + 1]));
    }
  }

  // ----- Every message is consumed exactly once

  /** A message as its sender gave it. */
  datatype Packet = Packet(src: Pid, dst: Pid, kind: int, context: Context)

  /** Message number `id` reached `receiver`, whose message object then read `got`. */
  datatype Delivery = Delivery(id: nat, receiver: Pid, got: Message)

  /** The kernel with its history: all messages sent, all deliveries, and the message of each blocked sender. */
  datatype World = World(s: State, sent: seq<Packet>, log: seq<Delivery>, pend: map<Pid, nat>)

  ghost function NextWorld(w: World, a: Step): World
    requires Enabled(w.s, a)
  {
    var s, t := w.s, Next(w.s, a);
    match a
    case DoSend(dst, kind, context) =>
      var sent := w.sent + [Packet(s.cur, dst, kind, context)];
      if Awaited(s, dst, kind) && dst in t.msg then
        World(t, sent, w.log + [Delivery(|w.sent|, dst, t.msg[dst])], w.pend)
      else World(t, sent, w.log, w.pend[s.cur := |w.sent|])
    case DoReceive(want) =>
      if HeadMatch(s, want) && s.chains[s.cur][0] in w.pend && s.cur in t.msg then
        var x := s.chains[s.cur][0];
        World(t, w.sent, w.log + [Delivery(w.pend[x], s.cur, t.msg[s.cur])], w.pend - {x})
      else w.(s := t)
    case _ => w.(s := t)
  }

  ghost predicate Logged(log: seq<Delivery>, id: nat) {
    exists k :: 0 <= k < |log| && log[k].id == id
  }

  ghost predicate Pending(pend: map<Pid, nat>, id: nat) {
    exists x :: x in pend && pend[x] == id
  }

  /** The receiver got the type and context the sender gave, and would reply to that sender. */
  predicate Faithful(p: Packet, d: Delivery) {
    d.receiver == p.dst && d.got == Message(p.kind, p.context, p.src)
  }

  /** The deliveries carry what was sent, each at most once. */
  ghost predicate LogOk(sent: seq<Packet>, log: seq<Delivery>) {
    && (forall k :: 0 <= k < |log| ==> log[k].id < |sent| && Faithful(sent[log[k].id], log[k]))
    && (forall j, k :: 0 <= j < k < |log| ==> log[j].id != log[k].id)
  }

  /** Sender `x` still holds exactly the message it gave and is chained to the process it addressed. */
  ghost predicate Held(s: State, sent: seq<Packet>, pend: map<Pid, nat>, x: Pid) {
    && x in pend && x in s.msg && pend[x] < |sent|
    && var p := sent[pend[x]];
    && p.src == x && p.kind == s.msg[x].kind && p.context == s.msg[x].context
    && p.dst in s.chains && x in s.chains[p.dst]
  }

  ghost predicate PendOk(s: State, sent: seq<Packet>, pend: map<Pid, nat>) {
    && (forall x :: x in pend <==> x in s.status && s.status[x] == SendingMsg)
    && (forall x :: x in pend ==> Held(s, sent, pend, x))
  }

  ghost predicate WorldInv(w: World) {
    && Inv(w.s) && LogOk(w.sent, w.log) && PendOk(w.s, w.sent, w.pend)
    && (forall id :: 0 <= id < |w.sent| ==> (Logged(w.log, id) <==> !Pending(w.pend, id)))
  }

  /** No blocked sender, its chain or its message changes from `s` to `t`. */
  ghost predicate SameSenders(s: State, t: State) {
    && (forall x :: x in t.status && t.status[x] == SendingMsg <==> x in s.status && s.status[x] == SendingMsg)
    && (forall x :: x in s.status && s.status[x] == SendingMsg && x in s.msg ==> x in t.msg && t.msg[x] == s.msg[x])
    && (forall d :: d in s.chains ==> d in t.chains && t.chains[d] == s.chains[d])
  }

  lemma SameSendersPend(s: State, t: State, sent: seq<Packet>, pend: map<Pid, nat>)
    requires SameSenders(s, t) && PendOk(s, sent, pend)
    ensures PendOk(t, sent, pend)
  {
    forall x | x in pend ensures Held(t, sent, pend, x) {
      assert Held(s, sent, pend, x);
    }
  }

  /** schedule changes the status of one runnable process only. */
  ghost predicate OnlyRunnableChanged(u: State, t: State) {
    && t.chains == u.chains && t.msg == u.msg && t.status.Keys == u.status.Keys
    && forall p :: p in u.status ==> if Runnable(u.status[p]) then Runnable(t.status[p]) else t.status[p] == u.status[p]
  }

  lemma ScheduledEffect(u: State, t: State)
    requires Scheduled(u, t) && Runnable(u.status[t.cur])
    ensures OnlyRunnableChanged(u, t)
  {
    hide Domains;
    assert t.status == u.status[t.cur := Running];
  }

  lemma AfterSchedule(s: State, a: Step)
    requires Inv(s) && Enabled(s, a) && CallsSchedule(s, a)
    ensures OnlyRunnableChanged(AtSchedule(s, a), Next(s, a))
  {
    AtScheduleOk(s, a);
    hide Inv;
    hide Next;
    hide AtSchedule;
    var u := AtSchedule(s, a);
    var succ := Succ(s.ready[s.priority[s.cur]], s.cur);
    ScheduleFinds(u, succ);
    hide Schedule;
    hide Parked;
    ScheduledEffect(u, Next(s, a));
  }

  /** Changes to processes that are not blocked senders. */
  lemma SendersUntouched(s: State, t: State, p: Pid)
    requires p in t.status && p in t.msg && t.status == s.status[p := t.status[p]] && t.msg == s.msg[p := t.msg[p]]
    requires t.status[p] != SendingMsg && (p in s.status ==> s.status[p] != SendingMsg)
    requires forall d :: d in s.chains ==> d in t.chains && t.chains[d] == s.chains[d]
    ensures SameSenders(s, t)
  {}

  lemma ScheduleSenders(s: State, u: State, t: State)
    requires SameSenders(s, u) && OnlyRunnableChanged(u, t)
    ensures SameSenders(s, t)
  {}

  lemma QuietSenders(s: State, a: Step)
    requires Inv(s) && Enabled(s, a) && !a.DoSend?
    requires a.DoReceive? ==> !HeadMatch(s, a.want)
    ensures SameSenders(s, Next(s, a))
  {
    hide Queues;
    hide Chains;
    hide Levels;
    hide Schedule;
    if CallsSchedule(s, a) {
      AfterSchedule(s, a);
      hide Next;
      hide SameSenders;
      SendersUntouched(s, AtSchedule(s, a), s.cur);
      ScheduleSenders(s, AtSchedule(s, a), Next(s, a));
    } else {
      hide SameSenders;
      match a
      case DoReceive(want) => SendersUntouched(s, Next(s, a), s.cur);
      case DoUnblock(p) => SendersUntouched(s, Next(s, a), p);
      case DoInterrupt(dst) => InterruptSenders(s, dst);
      case DoStart(p, level) => SendersUntouched(s, Next(s, a), p);
    }
  }

  lemma InterruptSenders(s: State, dst: Pid)
    requires Domains(s) && dst in s.status
    ensures SameSenders(s, NetInterrupt(s, dst))
  {
    if s.status[dst] == WaitingMsg && s.msg[dst].dest == ANY {
      SendersUntouched(s, NetInterrupt(s, dst), dst);
    }
  }

  lemma SendDelivered(s: State, dst: Pid, kind: int, context: Context)
    requires Domains(s) && dst in s.status && Awaited(s, dst, kind)
    ensures var t := Send(s, dst, kind, context);
      SameSenders(s, t) && dst in t.msg && t.msg[dst] == Message(kind, context, s.cur)
  {
    SendersUntouched(s, Send(s, dst, kind, context), dst);
  }

  lemma SendQueued(s: State, dst: Pid, kind: int, context: Context)
    requires Inv(s) && dst in s.status && s.cur != s.init && !Awaited(s, dst, kind)
    ensures var t := Send(s, dst, kind, context);
      && t.status.Keys == s.status.Keys
      && t.chains == s.chains[dst := [s.cur] + s.chains[dst]]
      && t.msg == s.msg[s.cur := Message(kind, context, s.msg[s.cur].dest)]
      && forall x :: x in s.status ==> (t.status[x] == SendingMsg <==> x == s.cur || s.status[x] == SendingMsg)
  {
    hide Queues;
    hide Chains;
    hide Levels;
    hide Schedule;
    var a := DoSend(dst, kind, context);
    AfterSchedule(s, a);
    assert Next(s, a) == Send(s, dst, kind, context);
    hide Next;
    hide Send;
    var u := AtSchedule(s, a);
    assert u.status == s.status[s.cur := SendingMsg];
  }

  /** Another sender's message stays held while the current process joins the chain of `dst`. */
  lemma HeldBefore(s: State, t: State, sent: seq<Packet>, sent': seq<Packet>, pend: map<Pid, nat>, pend': map<Pid, nat>,
                   x: Pid, dst: Pid)
    requires Held(s, sent, pend, x) && sent <= sent' && x in pend' && pend'[x] == pend[x]
    requires x in t.msg && t.msg[x] == s.msg[x]
    requires dst in s.chains && t.chains == s.chains[dst := [s.cur] + s.chains[dst]]
    ensures Held(t, sent', pend', x)
  {}

  lemma SendPend(w: World, t: State, dst: Pid, kind: int, context: Context)
    requires PendOk(w.s, w.sent, w.pend) && Domains(w.s) && dst in w.s.chains && w.s.cur !in w.pend
    requires t.status.Keys == w.s.status.Keys && t.chains == w.s.chains[dst := [w.s.cur] + w.s.chains[dst]]
    requires t.msg == w.s.msg[w.s.cur := Message(kind, context, w.s.msg[w.s.cur].dest)]
    requires forall x :: x in w.s.status ==> (t.status[x] == SendingMsg <==>
      x == w.s.cur || w.s.status[x] == SendingMsg)
    ensures PendOk(t, w.sent + [Packet(w.s.cur, dst, kind, context)], w.pend[w.s.cur := |w.sent|])
  {
    var s := w.s;
    var sent, pend := w.sent + [Packet(s.cur, dst, kind, context)], w.pend[s.cur := |w.sent|];
    forall x | x in pend ensures Held(t, sent, pend, x) {
      if x != s.cur {
        assert Held(s, w.sent, w.pend, x);
        HeldBefore(s, t, w.sent, sent, w.pend, pend, x, dst);
      } else {
        assert sent[pend[x]] == Packet(s.cur, dst, kind, context);
      }
    }
    hide Held;
  }

  lemma LogGrows(sent: seq<Packet>, log: seq<Delivery>, p: Packet)
    requires LogOk(sent, log)
    ensures LogOk(sent + [p], log)
  {}

  lemma LogAppends(sent: seq<Packet>, log: seq<Delivery>, d: Delivery)
    requires LogOk(sent, log) && d.id < |sent| && Faithful(sent[d.id], d) && !Logged(log, d.id)
    ensures LogOk(sent, log + [d])
    ensures forall id :: Logged(log + [d], id) <==> Logged(log, id) || id == d.id
  {
    forall id ensures Logged(log + [d], id) <==> Logged(log, id) || id == d.id {
      if Logged(log, id) {
        var k :| 0 <= k < |log| && log[k].id == id;
        assert (log + [d])[k].id == id;
      }
      assert (log + [d])[|log|].id == d.id;
    }
  }

  lemma PendingOf(pend: map<Pid, nat>, x: Pid, n: nat)
    ensures forall id :: id != n && x !in pend ==> (Pending(pend[x := n], id) <==> Pending(pend, id))
    ensures Pending(pend[x := n], n)
  {
    var pend' := pend[x := n];
    assert pend'[x] == n;
    forall id | id != n && x !in pend ensures Pending(pend', id) <==> Pending(pend, id) {
      if Pending(pend, id) {
        var y :| y in pend && pend[y] == id;
        assert y in pend' && pend'[y] == id;
      }
    }
  }

  lemma NoneNew(w: World)
    requires WorldInv(w)
    ensures !Logged(w.log, |w.sent|) && !Pending(w.pend, |w.sent|) && w.s.cur !in w.pend
  {
    hide Parked;
    InvDomains(w.s);
    assert forall x :: x in w.pend ==> Held(w.s, w.sent, w.pend, x);
  }

  lemma PendGrows(s: State, sent: seq<Packet>, pend: map<Pid, nat>, p: Packet)
    requires PendOk(s, sent, pend)
    ensures PendOk(s, sent + [p], pend)
  {
    forall x | x in pend ensures Held(s, sent + [p], pend, x) {
      assert Held(s, sent, pend, x);
    }
  }

  lemma SendWorld(w: World, a: Step)
    requires WorldInv(w) && Enabled(w.s, a) && a.DoSend? && Inv(Next(w.s, a))
    ensures WorldInv(NextWorld(w, a))
  {
    var s, t, dst, kind, context := w.s, Next(w.s, a), a.dst, a.kind, a.context;
    var n, p := |w.sent|, Packet(s.cur, dst, kind, context);
    NoneNew(w);
    InvDomains(s);
    if Awaited(s, dst, kind) {
      SendDelivered(s, dst, kind, context);
      hide Inv;
      hide Send;
      SameSendersPend(s, t, w.sent, w.pend);
      DeliveredWorld(w, t, p, Delivery(n, dst, t.msg[dst]));
    } else {
      SendQueued(s, dst, kind, context);
      hide Inv;
      hide Send;
      SendPend(w, t, dst, kind, context);
      QueuedWorld(w, t, p);
    }
  }

  /** A message handed straight to its receiver. */
  lemma DeliveredWorld(w: World, t: State, p: Packet, d: Delivery)
    requires WorldInv(w) && Inv(t) && PendOk(t, w.sent, w.pend)
    requires !Logged(w.log, |w.sent|) && !Pending(w.pend, |w.sent|) && d.id == |w.sent| && Faithful(p, d)
    ensures WorldInv(World(t, w.sent + [p], w.log + [d], w.pend))
  {
    hide Inv;
    LogGrows(w.sent, w.log, p);
    PendGrows(t, w.sent, w.pend, p);
    LogAppends(w.sent + [p], w.log, d);
    hide LogOk;
    hide PendOk;
  }

  /** A message that waits with its sender. */
  lemma QueuedWorld(w: World, t: State, p: Packet)
    requires WorldInv(w) && Inv(t) && w.s.cur !in w.pend && !Logged(w.log, |w.sent|)
    requires PendOk(t, w.sent + [p], w.pend[w.s.cur := |w.sent|])
    ensures WorldInv(World(t, w.sent + [p], w.log, w.pend[w.s.cur := |w.sent|]))
  {
    hide Inv;
    LogGrows(w.sent, w.log, p);
    PendingOf(w.pend, w.s.cur, |w.sent|);
    hide LogOk;
    hide PendOk;
  }

  lemma ReceiveTakes(s: State, want: Pid)
    requires Domains(s) && Chains(s.status, s.chains) && HeadMatch(s, want)
    ensures var t, x := Receive(s, want), s.chains[s.cur][0];
      && x in s.status && s.status[x] == SendingMsg
      && t.chains == s.chains[s.cur := s.chains[s.cur][1..]] && t.status == s.status[x := Ready]
      && t.msg == s.msg[s.cur := Message(s.msg[x].kind, s.msg[x].context, x)]
  {
    var x := s.chains[s.cur][0];
    assert x in s.chains[s.cur];
    ChainFacts(s.status, s.chains, s.cur, x);
    hide Chains;
  }

  lemma ReceivePend(s: State, t: State, sent: seq<Packet>, pend: map<Pid, nat>)
    requires PendOk(s, sent, pend) && s.cur in s.chains && s.chains[s.cur] != [] && s.cur !in pend && Domains(s)
    requires Distinct(s.chains[s.cur])
    requires var x := s.chains[s.cur][0];
      && x in pend && t.chains == s.chains[s.cur := s.chains[s.cur][1..]] && t.status == s.status[x := Ready]
      && t.msg == s.msg[s.cur := Message(s.msg[x].kind, s.msg[x].context, x)]
    ensures PendOk(t, sent, pend - {s.chains[s.cur][0]})
  {
    var l := s.chains[s.cur];
    var x := l[0];
    assert l == [x] + l[1..];
    var pend' := pend - {x};
    forall y | y in pend' ensures Held(t, sent, pend', y) {
      assert Held(s, sent, pend, y);
    }
  }

  lemma PendingMinus(s: State, sent: seq<Packet>, pend: map<Pid, nat>, x: Pid)
    requires PendOk(s, sent, pend) && x in pend
    ensures forall id :: Pending(pend - {x}, id) <==> Pending(pend, id) && id != pend[x]
  {
    forall y | y in pend ensures pend[y] == pend[x] ==> y == x {
      assert Held(s, sent, pend, x) && Held(s, sent, pend, y);
    }
    forall id ensures Pending(pend - {x}, id) <==> Pending(pend, id) && id != pend[x] {
      if Pending(pend, id) && id != pend[x] {
        var y :| y in pend && pend[y] == id;
        assert y in pend - {x} && (pend - {x})[y] == id;
      }
    }
  }

  /** A blocked sender's message taken by its receiver. */
  lemma TakenWorld(w: World, t: State, x: Pid, d: Delivery)
    requires WorldInv(w) && Inv(t) && x in w.pend && PendOk(t, w.sent, w.pend - {x})
    requires d.id == w.pend[x] < |w.sent| && Faithful(w.sent[d.id], d)
    ensures WorldInv(World(t, w.sent, w.log + [d], w.pend - {x}))
  {
    hide Inv;
    assert Pending(w.pend, w.pend[x]);
    PendingMinus(w.s, w.sent, w.pend, x);
    LogAppends(w.sent, w.log, d);
    hide LogOk;
    hide PendOk;
  }

  lemma ReceiveWorld(w: World, a: Step)
    requires WorldInv(w) && Enabled(w.s, a) && a.DoReceive? && HeadMatch(w.s, a.want) && Inv(Next(w.s, a))
    ensures WorldInv(NextWorld(w, a))
  {
    var s, t := w.s, Next(w.s, a);
    var x := s.chains[s.cur][0];
    NoneNew(w);
    ReceiveTakes(s, a.want);
    assert x in s.chains[s.cur];
    ChainFacts(s.status, s.chains, s.cur, x);
    assert Held(s, w.sent, w.pend, x);
    HeldTarget(s, w.sent, w.pend, x);
    hide Inv;
    hide Receive;
    hide LogOk;
    ReceivePend(s, t, w.sent, w.pend);
    TakenWorld(w, t, x, Delivery(w.pend[x], s.cur, t.msg[s.cur]));
  }

  /** The head of the current process's chain addressed that process. */
  lemma HeldTarget(s: State, sent: seq<Packet>, pend: map<Pid, nat>, x: Pid)
    requires Held(s, sent, pend, x) && Chains(s.status, s.chains) && s.cur in s.chains && x in s.chains[s.cur]
    ensures sent[pend[x]] == Packet(x, s.cur, s.msg[x].kind, s.msg[x].context)
  {}

  lemma QuietNext(w: World, a: Step)
    requires Enabled(w.s, a) && !a.DoSend?
    requires a.DoReceive? ==> !HeadMatch(w.s, a.want)
    ensures NextWorld(w, a) == w.(s := Next(w.s, a))
  {
    hide Next;
  }

  lemma ReplaceState(w: World, t: State)
    requires WorldInv(w) && Inv(t) && PendOk(t, w.sent, w.pend)
    ensures WorldInv(w.(s := t))
  {
    hide Inv;
    hide PendOk;
    hide LogOk;
    hide Logged;
    hide Pending;
  }

  lemma QuietWorld(w: World, a: Step)
    requires WorldInv(w) && Enabled(w.s, a) && Inv(Next(w.s, a)) && !a.DoSend?
    requires a.DoReceive? ==> !HeadMatch(w.s, a.want)
    ensures WorldInv(NextWorld(w, a))
  {
    QuietSenders(w.s, a);
    SameSendersPend(w.s, Next(w.s, a), w.sent, w.pend);
    ReplaceState(w, Next(w.s, a));
    hide Inv;
    hide WorldInv;
    QuietNext(w, a);
  }

  lemma WorldStep(w: World, a: Step)
    requires WorldInv(w) && Enabled(w.s, a)
    ensures WorldInv(NextWorld(w, a))
  {
    NextInv(w.s, a);
    hide Inv;
    hide Next;
    if a.DoSend? {
      SendWorld(w, a);
    } else if a.DoReceive? && HeadMatch(w.s, a.want) {
      ReceiveWorld(w, a);
    } else {
      QuietWorld(w, a);
    }
  }

  /** A run with its history. */
  ghost predicate IsHistory(worlds: seq<World>, steps: seq<Step>) {
    && |worlds| == |steps| + 1
    && (exists init :: init != ANY && worlds[0] == World(Boot(init), [], [], map[]))
    && forall k :: 0 <= k < |steps| ==>
      Enabled(worlds[k].s, steps[k]) && worlds[k + 1] == NextWorld(worlds[k], steps[k])
  }

  lemma BootWorld(init: Pid)
    requires init != ANY
    ensures WorldInv(World(Boot(init), [], [], map[]))
  {
    hide Inv;
    BootInv(init);
  }

  lemma {:induction false} EveryWorld(worlds: seq<World>, steps: seq<Step>, n: nat)
    requires IsHistory(worlds, steps) && n < |worlds|
    ensures WorldInv(worlds[n])
  {
    hide WorldInv;
    hide Enabled;
    hide NextWorld;
    hide Boot;
    if n == 0 {
      var init :| init != ANY && worlds[0] == World(Boot(init), [], [], map[]);
      BootWorld(init);
    } else {
      EveryWorld(worlds, steps, n - 1);
      WorldStep(worlds[n - 1], steps[n - 1]);
    }
  }

  /** In every run, each message has been delivered exactly once and intact, with the receiver set to answer its
      sender, or it is still held by its sender, blocked in the chain of the process it addressed. */
  lemma ExactlyOnce(worlds: seq<World>, steps: seq<Step>, n: nat, id: nat)
    requires IsHistory(worlds, steps) && n < |worlds| && id < |worlds[n].sent|
    ensures var w := worlds[n];
      var p := w.sent[id];
      || (&& !Pending(w.pend, id)
          && exists k :: 0 <= k < |w.log| && w.log[k].id == id && Faithful(p, w.log[k])
               && forall j :: 0 <= j < |w.log| && j != k ==> w.log[j].id != id)
      || (&& !Logged(w.log, id)
          && p.src in w.pend && w.pend[p.src] == id && Held(w.s, w.sent, w.pend, p.src)
          && p.src in w.s.status && w.s.status[p.src] == SendingMsg)
  {
    EveryWorld(worlds, steps, n);
    hide Inv;
    var w := worlds[n];
    if Logged(w.log, id) {
      var k :| 0 <= k < |w.log| && w.log[k].id == id;
      assert Faithful(w.sent[id], w.log[k]);
    } else {
      var x :| x in w.pend && w.pend[x] == id;
      assert Held(w.s, w.sent, w.pend, x);
    }
  }

  /** A process blocked for a message is woken only by a send to it, from the process it waits for, from anyone if
      it waits for anyone, or of type REPLY; or, waiting for anyone, by a network interrupt. */
  lemma WokenBy(s: State, a: Step, p: Pid)
    requires Inv(s) && Enabled(s, a) && p in s.status && s.status[p] == WaitingMsg
    ensures p in Next(s, a).status
    ensures Next(s, a).status[p] != WaitingMsg ==>
      || (a.DoSend? && a.dst == p && (s.msg[p].dest == s.cur || s.msg[p].dest == ANY || a.kind == REPLY))
      || (a.DoInterrupt? && a.target == p && s.msg[p].dest == ANY)
  {
    InvDomains(s);
    assert p != s.cur;
    if CallsSchedule(s, a) {
      AfterSchedule(s, a);
      hide Inv;
      hide Next;
      hide Schedule;
      assert AtSchedule(s, a).status[p] == WaitingMsg;
    } else {
      QuietStatus(s, a, p);
    }
  }

  lemma QuietSend(s: State, dst: Pid, kind: int, context: Context, p: Pid)
    requires Domains(s) && dst in s.status && Awaited(s, dst, kind) && p in s.status && p != dst
    ensures p in Send(s, dst, kind, context).status && Send(s, dst, kind, context).status[p] == s.status[p]
  {}

  lemma QuietReceive(s: State, want: Pid, p: Pid)
    requires Domains(s) && Chains(s.status, s.chains) && (TakesInterrupt(s, want) || HeadMatch(s, want))
    requires p in s.status && s.status[p] == WaitingMsg
    ensures p in Receive(s, want).status && Receive(s, want).status[p] == WaitingMsg
  {
    hide Chains;
    if HeadMatch(s, want) {
      ReceiveTakes(s, want);
    }
  }

  lemma QuietInterrupt(s: State, dst: Pid, p: Pid)
    requires Domains(s) && dst in s.status && p in s.status
    ensures p in NetInterrupt(s, dst).status
    ensures NetInterrupt(s, dst).status[p] == s.status[p] || (p == dst && s.msg[p].dest == ANY)
  {}

  lemma QuietStatus(s: State, a: Step, p: Pid)
    requires Inv(s) && Enabled(s, a) && !CallsSchedule(s, a) && p in s.status && s.status[p] == WaitingMsg
    ensures p in Next(s, a).status
    ensures Next(s, a).status[p] != WaitingMsg ==>
      (a.DoSend? && a.dst == p && Awaited(s, p, a.kind)) || (a.DoInterrupt? && a.target == p && s.msg[p].dest == ANY)
  {
    InvDomains(s);
    InvChains(s);
    hide Inv;
    hide Chains;
    hide Domains;
    hide Levels;
    hide Send;
    hide Receive;
    hide NetInterrupt;
    hide Start;
    match a
    case DoSend(dst, kind, context) =>
      if p != dst {
        QuietSend(s, dst, kind, context, p);
      }
    case DoReceive(want) =>
      QuietReceive(s, want, p);
    case DoUnblock(q) =>
      QuietUnblock(s, q, p);
    case DoInterrupt(dst) =>
      QuietInterrupt(s, dst, p);
    case DoStart(q, level) =>
      QuietStart(s, q, level, p);
  }

  lemma QuietUnblock(s: State, q: Pid, p: Pid)
    requires Domains(s) && q in s.status && p in s.status && p != q
    ensures p in Unblock(s, q).status && Unblock(s, q).status[p] == s.status[p]
  {}

  lemma QuietStart(s: State, q: Pid, level: nat, p: Pid)
    requires Domains(s) && level < LEVELS && q !in s.status && p in s.status
    ensures p in Start(s, q, level).status && Start(s, q, level).status[p] == s.status[p]
  {}

  lemma InvChains(s: State)
    requires Inv(s)
    ensures Chains(s.status, s.chains)
  {}
}
