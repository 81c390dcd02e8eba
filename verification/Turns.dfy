/** Whose turn it is (kernel/process.cc:167-172): inside a level the processes take turns in the order of the list, and
    max_priority is the best priority of any process started. */
module Turns {
  import opened Options
  import opened Kernel
  import Fairness

  // ----- Round robin

  lemma {:induction false} SuccAt(l: seq<Pid>, i: nat)
    requires Distinct(l) && i < |l|
    ensures Succ(l, l[i]) == if i + 1 < |l| then Some(l[i + 1]) else None
  {
    if |l| >= 2 && i > 0 {
      SuccAt(l[1..], i - 1);
    }
  }

  lemma {:induction false} WithoutLast(l: seq<Pid>, x: Pid)
    requires |l| >= 2 && l[0] != x
    ensures Without(l, x) != [] && Without(l, x)[0] == l[0]
  {}

  /** schedule follows the link of the calling process inside its level, and starts any other level at its head. */
  lemma ScheduleRuns(s: State, succ: Option<Pid>)
    requires Parked(s) && LinkOk(s, succ)
    ensures var t := Schedule(s, succ);
      && Level(t) < |s.ready| && s.ready[Level(t)] != []
      && t.cur == if Level(t) == Level(s) && succ.Some? then succ.value else s.ready[Level(t)][0]
  {
    Fairness.AfterPick(s, succ);
    hide Queues;
    hide Chains;
    hide Levels;
    PickNotEmpty(s);
    hide Pick;
  }

  lemma PickNotEmpty(s: State)
    requires Parked(s)
    ensures var l := Pick(s.ready, s.maxRounds, s.maxPriority).0; l < LEVELS && s.ready[l] != []
  {
    hide Queues;
    hide Chains;
    QueueMember(s, LOWEST, s.init);
    PickIsFirst(s.ready, s.maxRounds, s.maxPriority);
  }

  /** The position behind `i` in a list of length `n`; behind the last comes the first. */
  function Behind(i: nat, n: nat): nat { if i + 1 < n then i + 1 else 0 }

  /** The position of the current process in the list of its level. */
  ghost predicate AtPosition(s: State, list: seq<Pid>, i: nat) {
    i < |list| && list[i] == s.cur && Level(s) < |s.ready| && s.ready[Level(s)] == list
  }

  /** Following the link, stale or not, or starting again at the head. */
  lemma FollowLink(l: seq<Pid>, i: nat, after: seq<Pid>)
    requires Distinct(l) && i < |l| && (after == l || after == Without(l, l[i])) && after != []
    ensures (if Succ(l, l[i]).Some? then Succ(l, l[i]).value else after[0]) == l[Behind(i, |l|)]
  {
    SuccAt(l, i);
    if i + 1 == |l| && after == Without(l, l[i]) && |l| >= 2 {
      WithoutLast(l, l[i]);
    }
  }

  /** A process that yields or blocks is followed by the one behind it in its list, if its level is picked again;
      otherwise by the head of the level picked. */
  lemma NextInLine(s: State, act: Step, list: seq<Pid>, i: nat)
    requires Inv(s) && Enabled(s, act) && CallsSchedule(s, act) && AtPosition(s, list, i)
    ensures var t := Next(s, act);
      && (Level(t) == Level(s) ==> t.cur == list[Behind(i, |list|)])
      && (Level(t) != Level(s) ==> Level(t) < |s.ready| && s.ready[Level(t)] != [] && t.cur == s.ready[Level(t)][0])
  {
    hide Inv;
    hide Next;
    hide AtSchedule;
    hide CallsSchedule;
    hide Schedule;
    hide Enabled;
    hide Parked;
    hide Succ;
    hide Without;
    hide Domains;
    CurrentIn(s, list);
    AtScheduleOk(s, act);
    ListsAt(s, act);
    var u, t := AtSchedule(s, act), Next(s, act);
    ScheduleRuns(u, Succ(list, s.cur));
    if Level(t) == Level(s) {
      FollowLink(list, i, u.ready[Level(s)]);
    }
  }

  lemma CurrentIn(s: State, list: seq<Pid>)
    requires Inv(s) && Level(s) < |s.ready| && s.ready[Level(s)] == list
    ensures Distinct(list) && s.cur in s.priority && |s.ready| == LEVELS
  {
    hide Chains;
    hide Levels;
  }

  /** The lists schedule sees: only the caller may have left its own. */
  lemma ListsAt(s: State, act: Step)
    requires Inv(s) && Enabled(s, act) && CallsSchedule(s, act)
    ensures var u, l := AtSchedule(s, act), Level(s);
      && l < |s.ready| && Level(u) == l && |u.ready| == |s.ready|
      && (forall k :: 0 <= k < |s.ready| && k != l ==> u.ready[k] == s.ready[k])
      && (u.ready[l] == s.ready[l] || u.ready[l] == Without(s.ready[l], s.cur))
  {
    InvDomains(s);
    hide Inv;
    hide Levels;
  }

  /** The position after `k` turns, at most once around. */
  function Around(i: nat, k: nat, n: nat): nat
    requires i < n && k <= n
  {
    if i + k < n then i + k else i + k - n
  }

  /** In any run of yields during which one level is picked each time, its processes run in the order of the list, and
      after as many yields as there are processes it is the first one's turn again. */
  lemma {:induction false} RoundRobin(states: seq<State>, steps: seq<Step>, from: nat, n: nat, list: seq<Pid>, i: nat)
    requires IsRun(states, steps) && from <= n <= |steps| && AtPosition(states[from], list, i) && n - from <= |list|
    requires forall k :: from <= k < n ==> steps[k] == DoYield
    requires forall k :: from <= k <= n ==> Level(states[k]) == Level(states[from])
    ensures AtPosition(states[n], list, Around(i, n - from, |list|))
    decreases n - from
  {
    hide Inv;
    hide Enabled;
    hide Next;
    hide CallsSchedule;
    hide Boot;
    if from < n {
      RoundRobin(states, steps, from, n - 1, list, i);
      EveryState(states, steps, n - 1);
      hide Level;
      TurnPasses(states[n - 1], list, Around(i, n - 1 - from, |list|));
    }
  }

  lemma TurnPasses(s: State, list: seq<Pid>, j: nat)
    requires Inv(s) && AtPosition(s, list, j)
    ensures Enabled(s, DoYield)
    ensures Level(Next(s, DoYield)) == Level(s) ==> AtPosition(Next(s, DoYield), list, Behind(j, |list|))
  {
    hide Inv;
    hide Next;
    YieldCalls(s);
    hide Enabled;
    hide CallsSchedule;
    NextInLine(s, DoYield, list, j);
  }

  lemma YieldCalls(s: State)
    requires Inv(s)
    ensures Enabled(s, DoYield) && CallsSchedule(s, DoYield)
    ensures Next(s, DoYield).ready == s.ready && Next(s, DoYield).priority == s.priority
  {
    hide Inv;
    hide Levels;
    hide Schedule;
    InvDomains(s);
    ScheduleKeeps(s.(status := s.status[s.cur := Ready]), Succ(s.ready[s.priority[s.cur]], s.cur));
  }

  lemma ScheduleKeeps(s: State, succ: Option<Pid>)
    requires |s.ready| == LEVELS && |s.maxRounds| == LEVELS && s.cur in s.priority
    ensures Schedule(s, succ).ready == s.ready && Schedule(s, succ).priority == s.priority
  {
    hide Pick;
  }

  // ----- max_priority

  /** max_priority is the best priority of any process started, ready or not. */
  ghost predicate TopPriority(s: State) {
    && (exists p :: p in s.priority && s.priority[p] == s.maxPriority)
    && forall p :: p in s.priority ==> s.maxPriority <= s.priority[p]
  }

  lemma PriorityAfter(s: State, act: Step)
    requires Inv(s) && Enabled(s, act) && TopPriority(s)
    ensures var t := Next(s, act);
      if act.DoStart? then
        && t.priority == s.priority[act.pid := act.level] && act.pid !in s.priority
        && t.maxPriority == if act.level < s.maxPriority then act.level else s.maxPriority
      else t.priority == s.priority && t.maxPriority == s.maxPriority
  {
    InvDomains(s);
    if CallsSchedule(s, act) {
      AtScheduleOk(s, act);
      var u := AtSchedule(s, act);
      hide Inv;
      hide AtSchedule;
      ScheduleFinds(u, Succ(s.ready[s.priority[s.cur]], s.cur));
      hide Next;
      hide Schedule;
      hide Parked;
    } else {
      hide Inv;
      hide Levels;
      QuietPriority(s, act);
    }
  }

  lemma QuietPriority(s: State, act: Step)
    requires Domains(s) && Enabled(s, act) && TopPriority(s) && !CallsSchedule(s, act)
    ensures var t := Next(s, act);
      if act.DoStart? then
        && t.priority == s.priority[act.pid := act.level] && act.pid !in s.priority
        && t.maxPriority == if act.level < s.maxPriority then act.level else s.maxPriority
      else t.priority == s.priority && t.maxPriority == s.maxPriority
  {
    match act
    case DoSend(dst, kind, context) =>
    case DoReceive(want) =>
    case DoUnblock(p) =>
    case DoInterrupt(dst) =>
    case DoStart(p, level) =>
  }

  lemma {:induction false} EveryTopPriority(states: seq<State>, steps: seq<Step>, n: nat)
    requires IsRun(states, steps) && n < |states|
    ensures TopPriority(states[n])
  {
    hide Inv;
    hide Next;
    hide Enabled;
    hide TopPriority;
    if n == 0 {
      BootTop(states[0]);
    } else {
      EveryTopPriority(states, steps, n - 1);
      EveryState(states, steps, n - 1);
      StepTop(states[n - 1], steps[n - 1]);
    }
  }

  lemma BootTop(s: State)
    requires exists init :: init != ANY && s == Boot(init)
    ensures TopPriority(s)
  {
    var init :| init != ANY && s == Boot(init);
    assert s.priority[init] == s.maxPriority;
  }

  lemma StepTop(s: State, act: Step)
    requires Inv(s) && Enabled(s, act) && TopPriority(s)
    ensures TopPriority(Next(s, act))
  {
    hide Inv;
    hide Next;
    hide Enabled;
    PriorityAfter(s, act);
    var t := Next(s, act);
    var p :| p in s.priority && s.priority[p] == s.maxPriority;
    if act.DoStart? && act.level < s.maxPriority {
      assert t.priority[act.pid] == t.maxPriority;
    } else {
      assert t.priority[p] == t.maxPriority;
    }
  }
}
