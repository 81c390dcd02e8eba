/** Which priority levels schedule serves (kernel/process.cc:155-170). A budget is spent only when the level picked is
    that of the process that calls, so of the levels that stay ready only the first two get turns: each turn of the
    second is followed by one of the first, and the second's own budget is never spent. */
module Fairness {
  import opened Options
  import opened Kernel

  /** From max_priority on, `a` is the first level that is not empty. */
  predicate First(s: State, a: nat) {
    && |s.ready| == LEVELS && s.maxPriority <= a <= LOWEST && s.ready[a] != []
    && forall k :: s.maxPriority <= k < a ==> s.ready[k] == []
  }

  /** And `b` is the second. */
  predicate FirstTwo(s: State, a: nat, b: nat) {
    && First(s, a) && a < b <= LOWEST && s.ready[b] != []
    && forall k :: a < k < b ==> s.ready[k] == []
  }

  /** The second level has rounds left, and so does the first unless it is having its turn. */
  predicate Locked(s: State, a: nat, b: nat)
    requires |s.maxRounds| == LEVELS && a < b <= LOWEST
  {
    (b < 3 ==> s.maxRounds[b] > 0) && (Level(s) == a || s.maxRounds[a] > 0)
  }

  // ----- One call of schedule

  /** Where the scan stops, and what it leaves in the budgets of the two levels. */
  lemma PickOfTwo(s: State, a: nat, b: nat)
    requires FirstTwo(s, a, b) && a < 3 && |s.maxRounds| == LEVELS && s.ready[LOWEST] != []
    ensures var (l, r) := Pick(s.ready, s.maxRounds, s.maxPriority);
      && (s.maxRounds[a] > 0 ==> l == a && r[a] == s.maxRounds[a] && r[b] == s.maxRounds[b])
      && (s.maxRounds[a] == 0 && !(b < 3 && s.maxRounds[b] == 0) ==> l == b && r[a] == ROUNDS && r[b] == s.maxRounds[b])
      && (s.maxRounds[a] == 0 && b < 3 && s.maxRounds[b] == 0 ==> b < l <= LOWEST && r[a] == ROUNDS && r[b] == ROUNDS)
  {
    PickIsFirst(s.ready, s.maxRounds, s.maxPriority);
    var (l, r) := Pick(s.ready, s.maxRounds, s.maxPriority);
    hide Pick;
    assert l >= a && (l > a ==> Skipped(s.ready, s.maxRounds, a));
    assert l > a ==> l >= b;
    assert l > b ==> Skipped(s.ready, s.maxRounds, b);
  }

  lemma PickOfOne(s: State, a: nat)
    requires First(s, a) && |s.maxRounds| == LEVELS && s.ready[LOWEST] != []
    ensures var l := Pick(s.ready, s.maxRounds, s.maxPriority).0;
      a <= l <= LOWEST && (a >= 3 || s.maxRounds[a] > 0 ==> l == a)
  {
    PickIsFirst(s.ready, s.maxRounds, s.maxPriority);
    var l := Pick(s.ready, s.maxRounds, s.maxPriority).0;
    hide Pick;
    assert l >= a && (l > a ==> Skipped(s.ready, s.maxRounds, a));
  }

  /** What schedule does with the level picked. */
  lemma AfterPick(s: State, succ: Option<Pid>)
    requires Parked(s) && LinkOk(s, succ)
    ensures var t, p := Schedule(s, succ), Pick(s.ready, s.maxRounds, s.maxPriority);
      && s.ready[LOWEST] != [] && p.0 <= LOWEST && Level(t) == p.0 && |t.maxRounds| == LEVELS &&
        t.priority == s.priority
      && t.maxRounds == if Level(s) == p.0 then p.1[p.0 := Dec(p.1[p.0])] else p.1
  {
    hide Queues;
    hide Chains;
    QueueMember(s, LOWEST, s.init);
    PickIsFirst(s.ready, s.maxRounds, s.maxPriority);
    var p := Pick(s.ready, s.maxRounds, s.maxPriority);
    hide Pick;
    var t := Schedule(s, succ);
    assert s.ready[p.0][0] in s.ready[p.0];
    assert t.cur in s.ready[p.0];
    QueueMember(s, p.0, t.cur);
  }

  /** Once locked, only the two levels are picked and the lock stays; and a pick below them locks. */
  lemma ScheduleOfTwo(s: State, succ: Option<Pid>, a: nat, b: nat)
    requires Parked(s) && LinkOk(s, succ) && FirstTwo(s, a, b) && a < 3
    ensures var t := Schedule(s, succ);
      && |t.maxRounds| == LEVELS && Level(t) >= a
      && (s.maxRounds[a] > 0 ==> Level(t) == a)
      && (Level(t) == a ==> Turns(t, a) + 1 == Turns(s, a))
      && (Level(t) > b ==> Locked(t, a, b))
      && (Locked(s, a, b) ==> Locked(t, a, b) && (Level(t) == a || Level(t) == b))
      && (!Locked(t, a, b) ==> Wait(t, a) < Wait(s, a))
  {
    hide Schedule;
    hide Pick;
    AfterPick(s, succ);
    hide Parked;
    PickOfTwo(s, a, b);
  }

  /** The turns level `a` has left before another one is picked. */
  function Turns(s: State, a: nat): nat
    requires |s.maxRounds| == LEVELS && a < LEVELS
  {
    s.maxRounds[a] + if Level(s) == a then 0 else 1
  }

  /** A bound on the calls that lead from an unlocked state to another. */
  function Wait(s: State, a: nat): nat
    requires |s.maxRounds| == LEVELS && a < LEVELS
  {
    if s.maxRounds[a] == 0 && Level(s) != a then ROUNDS + 3 else Turns(s, a) + 1
  }

  // ----- Runs

  /** At every call of schedule from step `from` to step `n`, `a` and `b` are the first two levels. */
  ghost predicate StayFirstTwo(states: seq<State>, steps: seq<Step>, from: nat, n: nat, a: nat, b: nat)
    requires IsRun(states, steps) && n <= |steps|
  {
    a < b <= LOWEST && forall k :: from <= k < n && CallsSchedule(states[k], steps[k]) ==>
      FirstTwo(AtSchedule(states[k], steps[k]), a, b)
  }

  /** One step of such a run. */
  lemma StepOfTwo(s: State, act: Step, a: nat, b: nat)
    requires Inv(s) && Enabled(s, act) && a < 3 && a < b <= LOWEST
    requires CallsSchedule(s, act) ==> FirstTwo(AtSchedule(s, act), a, b)
    ensures var t := Next(s, act);
      && |s.maxRounds| == LEVELS && |t.maxRounds| == LEVELS
      && (!CallsSchedule(s, act) ==> t.maxRounds == s.maxRounds && Level(t) == Level(s))
      && (CallsSchedule(s, act) ==>
            && Level(t) >= a && (s.maxRounds[a] > 0 ==> Level(t) == a)
            && (Level(t) == a ==> Turns(t, a) + 1 == Turns(s, a))
            && (Level(t) > b ==> Locked(t, a, b))
            && (Locked(s, a, b) ==> Locked(t, a, b) && (Level(t) == a || Level(t) == b))
            && (!Locked(t, a, b) ==> Wait(t, a) < Wait(s, a)))
  {
    hide Queues;
    hide Chains;
    hide Next;
    hide Schedule;
    hide Enabled;
    hide OnlyCurrentRuns;
    hide LinkOk;
    hide AtSchedule;
    if CallsSchedule(s, act) {
      AtScheduleOk(s, act);
      hide CallsSchedule;
      ScheduleOfTwo(AtSchedule(s, act), Succ(s.ready[s.priority[s.cur]], s.cur), a, b);
    } else {
      QuietStep(s, act);
    }
  }

  /** From a locked state on, every call picks one of the two levels, whatever the processes do. */
  lemma {:induction false} LockedForEver(states: seq<State>, steps: seq<Step>, from: nat, n: nat, a: nat, b: nat)
    requires IsRun(states, steps) && from <= n <= |steps| && a < 3 && StayFirstTwo(states, steps, from, n, a, b)
    requires |states[from].maxRounds| == LEVELS && Locked(states[from], a, b)
    ensures |states[n].maxRounds| == LEVELS && Locked(states[n], a, b)
    ensures forall k, l :: from <= k < n && Picks(states, steps, k, l) ==> l == a || l == b
    decreases n - from
  {
    hide Inv;
    hide Enabled;
    hide Next;
    hide CallsSchedule;
    hide AtSchedule;
    hide FirstTwo;
    if from < n {
      LockedForEver(states, steps, from, n - 1, a, b);
      EveryState(states, steps, n - 1);
      StepOfTwo(states[n - 1], steps[n - 1], a, b);
    }
  }

  /** A level below the second is picked at most once while the two stay ready: that pick refills both budgets, and no
      later call picks anything but the two. */
  lemma BelowSecondAtMostOnce(states: seq<State>, steps: seq<Step>, n: nat, a: nat, b: nat, j: nat, l: nat)
    requires IsRun(states, steps) && j < n <= |steps| && a < 3 && StayFirstTwo(states, steps, j, n, a, b)
    requires Picks(states, steps, j, l) && l > b
    ensures forall k, m :: j < k < n && Picks(states, steps, k, m) ==> m == a || m == b
  {
    EveryState(states, steps, j);
    hide Inv;
    hide Next;
    hide Enabled;
    hide CallsSchedule;
    hide AtSchedule;
    hide FirstTwo;
    StepOfTwo(states[j], steps[j], a, b);
    LockedForEver(states, steps, j + 1, n, a, b);
  }

  /** While only level `a` is picked, each call uses up one of its turns. */
  lemma {:induction false} TurnsSpent(states: seq<State>, steps: seq<Step>, from: nat, n: nat, a: nat, b: nat)
    requires IsRun(states, steps) && from <= n <= |steps| && a < 3 && StayFirstTwo(states, steps, from, n, a, b)
    requires |states[from].maxRounds| == LEVELS
    requires forall k :: from <= k < n && CallsSchedule(states[k], steps[k]) ==> Picks(states, steps, k, a)
    ensures |states[n].maxRounds| == LEVELS
    ensures Turns(states[n], a) + (Calls(states, steps, n) - Calls(states, steps, from)) == Turns(states[from], a)
    decreases n - from
  {
    hide Inv;
    hide Enabled;
    hide Next;
    hide CallsSchedule;
    hide AtSchedule;
    hide FirstTwo;
    if from < n {
      TurnsSpent(states, steps, from, n - 1, a, b);
      EveryState(states, steps, n - 1);
      StepOfTwo(states[n - 1], steps[n - 1], a, b);
    }
  }

  /** The second level is never picked twice in a row. */
  lemma {:induction false} NotTwiceInARow(states: seq<State>, steps: seq<Step>, from: nat, n: nat, a: nat, b: nat)
    requires IsRun(states, steps) && from <= n <= |steps| && a < 3 && StayFirstTwo(states, steps, from, n, a, b)
    requires |states[from].maxRounds| == LEVELS && Locked(states[from], a, b)
    requires forall k :: from <= k < n && CallsSchedule(states[k], steps[k]) ==> Picks(states, steps, k, b)
    ensures Calls(states, steps, n) - Calls(states, steps, from) <= 1
    ensures Calls(states, steps, n) > Calls(states, steps, from) ==> Level(states[n]) == b
    decreases n - from
  {
    hide Inv;
    hide Enabled;
    hide Next;
    hide CallsSchedule;
    hide AtSchedule;
    hide FirstTwo;
    if from < n {
      NotTwiceInARow(states, steps, from, n - 1, a, b);
      LockedForEver(states, steps, from, n - 1, a, b);
      EveryState(states, steps, n - 1);
      StepOfTwo(states[n - 1], steps[n - 1], a, b);
    }
  }

  /** As long as no state is locked, each call brings the lock closer. */
  lemma {:induction false} LockComes(states: seq<State>, steps: seq<Step>, from: nat, n: nat, a: nat, b: nat)
    requires IsRun(states, steps) && from <= n <= |steps| && a < 3 && StayFirstTwo(states, steps, from, n, a, b)
    requires forall k :: from <= k <= n ==> |states[k].maxRounds| == LEVELS && !Locked(states[k], a, b)
    ensures Wait(states[n], a) + (Calls(states, steps, n) - Calls(states, steps, from)) <= Wait(states[from], a)
    decreases n - from
  {
    hide Inv;
    hide Enabled;
    hide Next;
    hide CallsSchedule;
    hide AtSchedule;
    hide FirstTwo;
    if from < n {
      LockComes(states, steps, from, n - 1, a, b);
      EveryState(states, steps, n - 1);
      StepOfTwo(states[n - 1], steps[n - 1], a, b);
    }
  }

  /** In any run in which the two levels stay the first, thirteen calls are enough to lock. */
  lemma LockedWithinThirteen(states: seq<State>, steps: seq<Step>, from: nat, n: nat, a: nat, b: nat)
    requires IsRun(states, steps) && from <= n <= |steps| && a < 3 && StayFirstTwo(states, steps, from, n, a, b)
    requires Calls(states, steps, n) - Calls(states, steps, from) >= 13
    ensures exists k :: from <= k <= n && |states[k].maxRounds| == LEVELS && Locked(states[k], a, b)
  {
    hide Inv;
    hide Enabled;
    hide Next;
    hide CallsSchedule;
    hide AtSchedule;
    hide FirstTwo;
    hide Calls;
    forall k | from <= k <= n ensures |states[k].maxRounds| == LEVELS {
      EveryState(states, steps, k);
      BudgetBound(states[k], a);
    }
    EveryState(states, steps, from);
    BudgetBound(states[from], a);
    if forall k :: from <= k <= n ==> !Locked(states[k], a, b) {
      LockComes(states, steps, from, n, a, b);
    }
  }

  lemma BudgetBound(s: State, a: nat)
    requires Inv(s) && a < 3
    ensures |s.maxRounds| == LEVELS && Turns(s, a) <= ROUNDS + 1
  {}

  /** Which levels are served: from a locked state on, the levels picked in any twelve calls or more are exactly the
      first two. */
  lemma ServedIff(states: seq<State>, steps: seq<Step>, from: nat, n: nat, a: nat, b: nat, l: nat)
    requires IsRun(states, steps) && from <= n <= |steps| && a < 3 && StayFirstTwo(states, steps, from, n, a, b)
    requires |states[from].maxRounds| == LEVELS && Locked(states[from], a, b)
    requires Calls(states, steps, n) - Calls(states, steps, from) >= 12
    ensures (exists k :: from <= k < n && Picks(states, steps, k, l)) <==> l == a || l == b
  {
    hide Inv;
    hide Enabled;
    hide Next;
    hide CallsSchedule;
    hide StayFirstTwo;
    hide Calls;
    LockedForEver(states, steps, from, n, a, b);
    EveryState(states, steps, from);
    BudgetBound(states[from], a);
    if l == b && !exists k :: from <= k < n && Picks(states, steps, k, b) {
      forall k | from <= k < n && CallsSchedule(states[k], steps[k]) ensures Picks(states, steps, k, a) {
        assert Picks(states, steps, k, Level(states[k + 1]));
      }
      TurnsSpent(states, steps, from, n, a, b);
    }
    if l == a && !exists k :: from <= k < n && Picks(states, steps, k, a) {
      forall k | from <= k < n && CallsSchedule(states[k], steps[k]) ensures Picks(states, steps, k, b) {
        assert Picks(states, steps, k, Level(states[k + 1]));
      }
      NotTwiceInARow(states, steps, from, n, a, b);
    }
  }

  /** A level without a budget, PRIORITY_D or PRIORITY_E, is served alone while it is the first. */
  lemma OnlyFirstServed(s: State, act: Step, a: nat)
    requires Inv(s) && Enabled(s, act) && CallsSchedule(s, act) && First(AtSchedule(s, act), a) && a >= 3
    ensures Level(Next(s, act)) == a
  {
    AtScheduleOk(s, act);
    hide Inv;
    hide Next;
    hide AtSchedule;
    hide CallsSchedule;
    hide Schedule;
    hide Pick;
    var t := AtSchedule(s, act);
    AfterPick(t, Succ(s.ready[s.priority[s.cur]], s.cur));
    hide Parked;
    PickOfOne(t, a);
  }

  // ----- A run in which init never runs again

  /** Process 2 at level 0 and process 3 at level 1 beside init. */
  ghost predicate Crowded(s: State) {
    && Inv(s) && s.maxPriority == 0 && s.ready == [[2], [3], [], [], [1]] && 1 in s.priority && s.priority[1] == LOWEST
    && |s.maxRounds| == LEVELS && Locked(s, 0, 1)
  }

  lemma StartedAt(s: State, p: Pid, level: nat) returns (t: State)
    requires Inv(s) && p !in s.status && p != ANY && level < LEVELS
    ensures Enabled(s, DoStart(p, level)) && t == Next(s, DoStart(p, level)) && Inv(t)
    ensures |s.ready| == LEVELS && t.ready == s.ready[level := s.ready[level] + [p]] && t.maxRounds == s.maxRounds
    ensures t.status == s.status[p := Ready] && t.priority == s.priority[p := level]
    ensures t.maxPriority == if level < s.maxPriority then level else s.maxPriority
  {
    hide Inv;
    InvDomains(s);
    StartInv(s, p, level);
    t := Start(s, p, level);
  }

  lemma CrowdedBoot() returns (s1: State, s2: State)
    ensures Enabled(Boot(1), DoStart(2, 0)) && s1 == Next(Boot(1), DoStart(2, 0))
    ensures Enabled(s1, DoStart(3, 1)) && s2 == Next(s1, DoStart(3, 1)) && Crowded(s2)
  {
    hide Inv;
    hide Enabled;
    hide Next;
    BootInv(1);
    s1 := StartedAt(Boot(1), 2, 0);
    s2 := StartedAt(s1, 3, 1);
    assert [] + [2] == [2] && [] + [3] == [3];
  }

  /** A yield leaves the lists alone and runs 2 or 3. */
  lemma CrowdedYield(s: State)
    requires Crowded(s)
    ensures Enabled(s, DoYield) && Crowded(Next(s, DoYield)) && Next(s, DoYield).cur != 1
  {
    hide Inv;
    hide Pick;
    InvDomains(s);
    NextInv(s, DoYield);
    YieldKeeps(s);
    hide Next;
    hide Domains;
    hide Levels;
    StepOfTwo(s, DoYield, 0, 1);
  }

  lemma YieldKeeps(s: State)
    requires Domains(s)
    ensures var t := Next(s, DoYield); t.ready == s.ready && t.maxPriority == s.maxPriority && t.priority == s.priority
    ensures Next(s, DoYield).cur in s.priority ==> Level(Next(s, DoYield)) == s.priority[Next(s, DoYield).cur]
  {
    hide Pick;
  }

  /** However often the processes yield, init does not run again. */
  lemma {:induction false} InitStarves(n: nat) returns (states: seq<State>, steps: seq<Step>)
    ensures IsRun(states, steps) && |steps| == n + 2 && Crowded(states[n + 2])
    ensures states[0] == Boot(1) && steps[0] == DoStart(2, 0) && steps[1] == DoStart(3, 1)
    ensures forall k :: 2 <= k < |steps| ==> steps[k] == DoYield
    ensures forall k :: 3 <= k < |states| ==> states[k].cur != 1
  {
    hide Crowded;
    hide Enabled;
    hide Next;
    hide Boot;
    if n == 0 {
      var s1, s2 := CrowdedBoot();
      states, steps := [Boot(1), s1, s2], [DoStart(2, 0), DoStart(3, 1)];
    } else {
      var before, done := InitStarves(n - 1);
      var s := before[n + 1];
      CrowdedYield(s);
      states, steps := before + [Next(s, DoYield)], done + [DoYield];
    }
  }
}
