/** kernel/ipc.cc and kernel/process.cc as they run: ready lists with their links, sendings chains threaded through
    next_ready. Each operation is proved to do what the transition system of module Kernel says. */
module KernelObject {
  import opened Options
  import opened Kernel

  /** `dst` ready again, with `m` in its message object. */
  function Delivered(s: State, dst: Pid, m: Message): State
    requires Domains(s) && dst in s.status
  {
    Unblock(s.(msg := s.msg[dst := m]), dst)
  }

  /** What the link of position `i` must be: the next element, or the tail sentinel. */
  function AfterIn(l: seq<Pid>, i: nat): Option<Pid>
    requires i < |l|
  {
    if i + 1 < |l| then Some(l[i + 1]) else None
  }

  /** What next_ready of position `i` of a chain must be: the next sender, or null. */
  function AfterInChain(l: seq<Pid>, i: nat): Pid
    requires i < |l|
  {
    if i + 1 < |l| then l[i + 1] else ANY
  }

  /** Every element's link is its successor; the last one's is the tail sentinel. */
  ghost predicate Linked(l: seq<Pid>, link: map<Pid, Option<Pid>>) {
    forall i :: 0 <= i < |l| ==> l[i] in link && link[l[i]] == AfterIn(l, i)
  }

  lemma {:induction false} LinkIsSucc(l: seq<Pid>, link: map<Pid, Option<Pid>>, p: Pid)
    requires Linked(l, link) && Distinct(l) && p in l
    ensures p in link && link[p] == Succ(l, p)
  {
    if l[0] != p {
      var m := l[1..];
      forall i | 0 <= i < |m| ensures m[i] in link && link[m[i]] == AfterIn(m, i) {
        assert m[i] == l[i + 1];
      }
      LinkIsSucc(l[1..], link, p);
    } else {
      assert link[l[0]] == AfterIn(l, 0);
    }
  }

  /** The list with `p` appended: the old last element now links to it. */
  lemma LinkedAppend(l: seq<Pid>, link: map<Pid, Option<Pid>>, p: Pid)
    requires Linked(l, link) && Distinct(l) && p !in l
    ensures l == [] ==> Linked([p], link[p := None])
    ensures l != [] ==> Linked(l + [p], link[l[|l| - 1] := Some(p)][p := None])
  {
    if l != [] {
      var link' := link[l[|l| - 1] := Some(p)][p := None];
      forall i | 0 <= i < |l + [p]|
        ensures (l + [p])[i] in link' && link'[(l + [p])[i]] == AfterIn(l + [p], i)
      {
        if i < |l| - 1 {
          assert l[i] != l[|l| - 1] && l[i] in l;
        }
      }
    }
  }

  lemma {:induction false} WithoutAt(l: seq<Pid>, k: nat)
    requires Distinct(l) && k < |l|
    ensures Without(l, l[k]) == l[..k] + l[k + 1..]
  {
    if k > 0 {
      WithoutAt(l[1..], k - 1);
      assert l[1..][k - 1] == l[k];
      assert [l[0]] + (l[1..][..k - 1] + l[1..][k..]) == l[..k] + l[k + 1..];
    }
  }

  /** Unlinking: the predecessor takes over the link; the removed element keeps its own. */
  lemma LinkedRemove(l: seq<Pid>, link: map<Pid, Option<Pid>>, k: nat)
    requires Linked(l, link) && Distinct(l) && k < |l|
    ensures Linked(l[..k] + l[k + 1..], if k == 0 then link else link[l[k - 1] := link[l[k]]])
  {
    var r := l[..k] + l[k + 1..];
    var link' := if k == 0 then link else link[l[k - 1] := link[l[k]]];
    forall i | 0 <= i < |r|
      ensures r[i] in link' && link'[r[i]] == AfterIn(r, i)
    {
      var j := if i < k then i else i + 1;
      assert r[i] == l[j];
      if i == k - 1 {
        assert link[l[k]] == AfterIn(l, k);
      } else {
        assert k > 0 ==> l[j] != l[k - 1];
        assert link[l[j]] == AfterIn(l, j);
      }
    }
  }

  lemma LinkedOther(l: seq<Pid>, link: map<Pid, Option<Pid>>, link': map<Pid, Option<Pid>>)
    requires Linked(l, link) && forall p :: p in l ==> p in link' && p in link && link'[p] == link[p]
    ensures Linked(l, link')
  {
    forall i | 0 <= i < |l|
      ensures l[i] in link' && link'[l[i]] == AfterIn(l, i)
    {
      assert l[i] in l;
    }
  }

  /** `head` and the next pointers spell out the chain `l`, ended by a null pointer. */
  ghost predicate IsChain(head: Pid, next: map<Pid, Pid>, l: seq<Pid>) {
    && head == (if l == [] then ANY else l[0])
    && forall i :: 0 <= i < |l| ==> l[i] in next && next[l[i]] == AfterInChain(l, i)
  }

  lemma ChainPush(head: Pid, next: map<Pid, Pid>, l: seq<Pid>, x: Pid)
    requires IsChain(head, next, l) && x !in l
    ensures IsChain(x, next[x := head], [x] + l)
  {
    var m, next' := [x] + l, next[x := head];
    forall i | 0 <= i < |m|
      ensures m[i] in next' && next'[m[i]] == AfterInChain(m, i)
    {
      if i > 0 {
        assert l[i - 1] in l;
      }
    }
  }

  lemma ChainSame(head: Pid, next: map<Pid, Pid>, next': map<Pid, Pid>, l: seq<Pid>)
    requires IsChain(head, next, l) && forall y :: y in l ==> y in next' && y in next && next'[y] == next[y]
    ensures IsChain(head, next', l)
  {
    forall i | 0 <= i < |l|
      ensures l[i] in next' && next'[l[i]] == AfterInChain(l, i)
    {
      assert l[i] in l;
    }
  }

  lemma ChainTail(head: Pid, next: map<Pid, Pid>, l: seq<Pid>)
    requires IsChain(head, next, l) && l != []
    ensures head in next && IsChain(next[head], next, l[1..])
  {
    var m := l[1..];
    forall i | 0 <= i < |m| ensures m[i] in next && next[m[i]] == AfterInChain(m, i) {
      assert m[i] == l[i + 1];
    }
    assert next[l[0]] == AfterInChain(l, 0);
  }

  /** Unlinking position `i >= 1` by redirecting the element before it. */
  lemma ChainCut(head: Pid, next: map<Pid, Pid>, l: seq<Pid>, i: nat)
    requires IsChain(head, next, l) && Distinct(l) && 1 <= i < |l|
    ensures IsChain(head, next[l[i - 1] := next[l[i]]], CutAt(l, i))
  {
    var m, next' := CutAt(l, i), next[l[i - 1] := next[l[i]]];
    forall k | 0 <= k < |m|
      ensures m[k] in next' && next'[m[k]] == AfterInChain(m, k)
    {
      var j := if k < i then k else k + 1;
      assert m[k] == l[j];
      if k == i - 1 {
        assert next[l[i]] == AfterInChain(l, i);
      } else {
        assert l[j] != l[i - 1];
        assert next[l[j]] == AfterInChain(l, j);
      }
    }
  }

  /** Appending `p` to its own list does not disturb the links of another list. */
  lemma OtherListKept(s: State, p: Pid, k: nat, was: map<Pid, Option<Pid>>, link: map<Pid, Option<Pid>>)
    requires Domains(s) && Queues(s.status, s.priority, s.ready) && p in s.status && !Runnable(s.status[p])
    requires k < |s.ready| && k != s.priority[p] && Linked(s.ready[k], was)
    requires var l := s.ready[s.priority[p]];
      link == (if l == [] then was else was[l[|l| - 1] := Some(p)])[p := None]
    ensures Linked(s.ready[k], link)
  {
    hide Queues;
    var l := s.ready[s.priority[p]];
    forall q | q in s.ready[k] ensures q in was && q in link && link[q] == was[q] {
      var i :| 0 <= i < |s.ready[k]| && s.ready[k][i] == q;
      QueueMember(s, k, q);
      QueueMember(s, k, p);
      if l != [] {
        assert l[|l| - 1] in l;
        QueueMember(s, s.priority[p], l[|l| - 1]);
      }
    }
    LinkedOther(s.ready[k], was, link);
  }

  class Processor {
    const init: Pid
    var cur: Pid
    var status: map<Pid, Status>
    var priority: map<Pid, nat>
    var ready: seq<seq<Pid>>
    /** The next pointer of each ready_elem; it survives removal. */
    var link: map<Pid, Option<Pid>>
    var maxRounds: seq<nat>
    var maxPriority: nat
    var sendings: map<Pid, Pid>
    var nextReady: map<Pid, Pid>
    var msg: map<Pid, Message>
    var intrCnt: map<Pid, nat>
    ghost var chains: map<Pid, seq<Pid>>

    ghost function View(): State
      reads this
    {
      State(init, cur, status, priority, ready, maxRounds, maxPriority, chains, msg, intrCnt)
    }

    ghost predicate Links()
      reads this`ready, this`link
    {
      forall l :: 0 <= l < |ready| ==> Linked(ready[l], link)
    }

    ghost predicate Pointers()
      reads this`chains, this`sendings, this`nextReady
    {
      forall d :: d in chains ==> d in sendings && IsChain(sendings[d], nextReady, chains[d])
    }

    ghost predicate Valid()
      reads this
    {
      Inv(View()) && Links() && Pointers()
    }

    /** init_pm and deal_init_process. */
    constructor (init: Pid)
      requires init != ANY
      ensures Valid() && View() == Boot(init)
    {
      hide Inv;
      this.init, cur := init, init;
      status, priority := map[init := Running], map[init := LOWEST];
      ready, link := [[], [], [], [], [init]], map[init := None];
      maxRounds, maxPriority := [ROUNDS, ROUNDS, ROUNDS, ROUNDS, ROUNDS], LOWEST;
      sendings, nextReady := map[init := ANY], map[];
      msg, intrCnt := map[init := Message(0, Context(0, 0, 0, 0), ANY)], map[init := 0];
      chains := map[init := []];
      new;
      BootInv(init);
    }

    /** CycleList::append on the ready list of `p`'s priority. */
    method AppendReady(p: Pid)
      requires Domains(View()) && Queues(status, priority, ready) && Links()
      requires p in status && !Runnable(status[p])
      modifies this`ready, this`link
      ensures Links() && ready == old(ready)[priority[p] := old(ready)[priority[p]] + [p]]
    {
      var l := priority[p];
      QueueMember(View(), l, p);
      LinkedAppend(ready[l], link, p);
      ghost var was := link;
      if ready[l] != [] {
        link := link[ready[l][|ready[l]| - 1] := Some(p)];
      }
      link := link[p := None];
      forall k | 0 <= k < |ready| && k != l ensures Linked(ready[k], link) {
        OtherListKept(View(), p, k, was, link);
      }
      ready := ready[l := ready[l] + [p]];
    }

    /** CycleList::remove of the current process from its ready list. */
    method RemoveReady()
      requires Domains(View()) && Queues(status, priority, ready) && Links() && Runnable(status[cur])
      modifies this`ready, this`link
      ensures Links() && cur in link && link[cur] == Succ(old(ready)[priority[cur]], cur)
      ensures ready == old(ready)[priority[cur] := Without(old(ready)[priority[cur]], cur)]
    {
      var l := priority[cur];
      QueueMember(View(), l, cur);
      LinkIsSucc(ready[l], link, cur);
      var k :| 0 <= k < |ready[l]| && ready[l][k] == cur;
      WithoutAt(ready[l], k);
      LinkedRemove(ready[l], link, k);
      ghost var was := link;
      if k > 0 {
        link := link[ready[l][k - 1] := link[cur]];
      }
      forall j | 0 <= j < |ready| && j != l ensures Linked(ready[j], link) {
        forall q | q in ready[j] ensures k > 0 ==> q != ready[l][k - 1] {
          QueueMember(View(), j, q);
          if k > 0 {
            assert ready[l][k - 1] in ready[l];
            QueueMember(View(), l, ready[l][k - 1]);
          }
        }
        hide Queues;
        assert Linked(ready[j], was);
        assert forall q :: q in ready[j] ==> q in was by {
          forall q | q in ready[j] ensures q in was { var i :| 0 <= i < |ready[j]| && ready[j][i] == q; }
        }
        LinkedOther(ready[j], was, link);
      }
      ready := ready[l := ready[l][..k] + ready[l][k + 1..]];
    }

    lemma LinkOfCurrent()
      requires Domains(View()) && Queues(status, priority, ready) && Links() && Runnable(status[cur])
      ensures cur in link && link[cur] == Succ(ready[priority[cur]], cur)
    {
      QueueMember(View(), priority[cur], cur);
      LinkIsSucc(ready[priority[cur]], link, cur);
    }

    /** schedule() with the current process's status settled: scan, refill, pick, switch. */
    method ScheduleNext(ghost succ: Option<Pid>)
      requires |ready| == LEVELS && |maxRounds| == LEVELS && cur in priority && cur in link && link[cur] == succ
      modifies this`cur, this`status, this`maxRounds
      ensures View() == Schedule(old(View()), succ)
    {
      var maxPrio := maxPriority;
      while maxPrio < LEVELS && ((maxRounds[maxPrio] == 0 && maxPrio < 3) || ready[maxPrio] == [])
        invariant |maxRounds| == LEVELS
        invariant cur == old(cur) && status == old(status)
        invariant Pick(ready, maxRounds, maxPrio) == Pick(old(ready), old(maxRounds), old(maxPriority))
        decreases LEVELS - maxPrio
      {
        if maxRounds[maxPrio] == 0 && maxPrio < 3 {
          maxRounds := maxRounds[maxPrio := ROUNDS];
        }
        maxPrio := maxPrio + 1;
      }
      if maxPrio < LEVELS {
        var next;
        if priority[cur] == maxPrio {
          if link[cur] == None {
            next := ready[maxPrio][0];
          } else {
            next := link[cur].value;
          }
          maxRounds := maxRounds[maxPrio := Dec(maxRounds[maxPrio])];
        } else {
          next := ready[maxPrio][0];
        }
        status := status[next := Running];
        cur := next;
      }
    }

    /** proc_yield, and schedule from the timer. */
    method DoYield()
      requires Valid()
      modifies this`cur, this`status, this`maxRounds
      ensures Valid() && View() == Yield(old(View()))
    {
      hide Inv;
      hide Domains;
      hide Links;
      hide Pointers;
      hide Schedule;
      hide Succ;
      ghost var s := View();
      YieldInv(s);
      CurrentLinked();
      status := status[cur := Ready];
      assert View() == s.(status := s.status[s.cur := Ready]);
      ScheduleNext(link[cur]);
    }

    /** What yield needs to know to call schedule. */
    lemma CurrentLinked()
      requires Valid()
      ensures Domains(View()) && |ready| == LEVELS && |maxRounds| == LEVELS && cur in priority && cur in status
      ensures priority[cur] < LEVELS && cur in link && link[cur] == Succ(ready[priority[cur]], cur)
    {
      hide Links;
      hide Pointers;
      hide Queues;
      hide Inv;
      InvParts(View());
      RunningCurrent(View());
      LinkOfCurrent();
    }

    method DoSelfBlock(st: Status)
      requires Prepared(View(), cur, st) && !Runnable(st) && cur != init && Links()
      modifies this`cur, this`status, this`maxRounds, this`ready, this`link
      ensures Inv(View()) && View() == SelfBlock(old(View()), st) && Links()
    {
      hide Inv;
      hide Prepared;
      hide Links;
      hide Queues;
      hide Schedule;
      hide Succ;
      hide Without;
      ghost var u := View();
      PreparedParts(u, cur, st);
      BlockInv(u, st);
      RemoveReady();
      status := status[cur := st];
      assert View() == Park(u, st);
      ScheduleNext(link[cur]);
    }

    method UnblockProc(p: Pid)
      requires Domains(View()) && Queues(status, priority, ready) && p in status && !Runnable(status[p]) && Links()
      modifies this`status, this`ready, this`link, this`maxPriority
      ensures View() == Unblock(old(View()), p) && Links()
    {
      hide Links;
      hide Queues;
      AppendReady(p);
      status := status[p := Ready];
      if priority[p] < maxPriority {
        maxPriority := priority[p];
      }
    }

    /** unblock_proc on a process that a semaphore has blocked. */
    method Wake(p: Pid)
      requires Valid() && p in status && status[p] == Blocked
      modifies this`status, this`ready, this`link, this`maxPriority
      ensures Valid() && View() == Unblock(old(View()), p)
    {
      hide Inv;
      hide Prepared;
      hide Links;
      hide Pointers;
      hide Unblock;
      ghost var s := View();
      DomainsOf(s);
      MessageOnly(s, s, p, Ready);
      PreparedParts(s, p, Ready);
      UnblockInv(s, p);
      UnblockProc(p);
    }

    /** unblock of a process whose message object has just been written. */
    method Deliver(dst: Pid, m: Message)
      requires Valid() && dst in status && status[dst] == WaitingMsg
      modifies this`msg, this`status, this`ready, this`link, this`maxPriority
      ensures Valid() && View() == Delivered(old(View()), dst, m)
    {
      hide Inv;
      hide Prepared;
      hide Links;
      hide Pointers;
      hide Unblock;
      ghost var s := View();
      ghost var u := s.(msg := s.msg[dst := m]);
      DomainsOf(s);
      MessageOnly(s, u, dst, Ready);
      msg := msg[dst := m];
      assert View() == u;
      PreparedParts(u, dst, Ready);
      UnblockInv(u, dst);
      UnblockProc(dst);
    }

    /** Message::send with the current process as source. */
    method DoSend(dst: Pid, kind: int, context: Context)
      requires Valid() && dst in status && cur != init
      modifies this
      ensures Valid() && View() == Send(old(View()), dst, kind, context)
    {
      hide Inv;
      hide Links;
      hide Pointers;
      hide Unblock;
      hide SelfBlock;
      DomainsOf(View());
      if status[dst] == WaitingMsg && (msg[dst].dest == ANY || cur == msg[dst].dest || kind == REPLY) {
        Deliver(dst, Message(kind, context, cur));
      } else {
        Enqueue(dst, kind, context);
      }
    }

    /** The sender pushes itself on the receiver's chain and blocks. */
    method Enqueue(dst: Pid, kind: int, context: Context)
      requires Valid() && dst in status && cur != init && !Awaited(View(), dst, kind)
      modifies this
      ensures Valid() && View() == Send(old(View()), dst, kind, context)
    {
      hide Inv;
      hide Prepared;
      hide Links;
      hide SelfBlock;
      hide Chains;
      hide Queues;
      hide Pointers;
      hide Queued;
      ghost var s := View();
      DomainsOf(s);
      QueuedPrepared(s, dst, kind, context);
      JoinChain(dst, kind, context);
      DoSelfBlock(SendingMsg);
    }

    /** The current process writes its message and becomes the head of the receiver's chain. */
    method JoinChain(dst: Pid, kind: int, context: Context)
      requires Valid() && dst in status
      modifies this`msg, this`nextReady, this`sendings, this`chains
      ensures Links() && Pointers() && Domains(old(View())) && View() == Queued(old(View()), dst, kind, context)
    {
      hide Inv;
      hide Links;
      hide Chains;
      hide Queues;
      hide IsChain;
      hide Pointers;
      ghost var s := View();
      DomainsOf(s);
      CurrentInNoChain(s);
      PointersHold();
      PushPointers(sendings, nextReady, chains, cur, dst);
      msg := msg[cur := Message(kind, context, msg[cur].dest)];
      nextReady := nextReady[cur := sendings[dst]];
      sendings := sendings[dst := cur];
      chains := chains[dst := [cur] + chains[dst]];
      HoldPointers();
      assert View() == Queued(s, dst, kind, context);
    }

    lemma PointersHold()
      requires Pointers()
      ensures ChainsHold(sendings, nextReady, chains)
    {}

    lemma HoldPointers()
      requires ChainsHold(sendings, nextReady, chains)
      ensures Pointers()
    {}

    /** Nobody suitable is waiting: remember whom the process waits for and block. */
    method WaitFor(want: Pid)
      requires Valid() && cur != init
      requires !TakesInterrupt(View(), want) && !HeadMatch(View(), want) && !MidMatch(View(), want)
      modifies this
      ensures Valid() && View() == Receive(old(View()), want)
    {
      hide Inv;
      hide Pointers;
      hide Prepared;
      hide Links;
      hide SelfBlock;
      hide Receive;
      ghost var s := View();
      DomainsOf(s);
      ghost var u := s.(msg := s.msg[cur := s.msg[cur].(dest := want)]);
      RunningCurrent(s);
      MessageOnly(s, u, cur, WaitingMsg);
      ReceiveWaits(s, want);
      msg := msg[cur := msg[cur].(dest := want)];
      assert View() == u;
      DoSelfBlock(WaitingMsg);
    }

    /** Copy the message of the first sender of the chain and unlink that sender. */
    method PopSender() returns (x: Pid)
      requires Domains(View()) && Pointers() && chains[cur] != [] && Distinct(chains[cur]) && chains[cur][0] != ANY
      modifies this`msg, this`sendings, this`chains
      ensures x == old(chains[cur][0]) && View() == HeadTaken(old(View())) && Pointers()
    {
      hide Pointers;
      hide IsChain;
      hide Distinct;
      KeysOf(View());
      assert chains[cur][0] in chains[cur];
      assert chains[cur][0] in msg;
      PointersHold();
      PopPointers(sendings, nextReady, chains, cur);
      x := sendings[cur];
      msg := msg[cur := Message(msg[x].kind, msg[x].context, x)];
      sendings := sendings[cur := if nextReady[x] == x then ANY else nextReady[x]];
      chains := chains[cur := chains[cur][1..]];
      HoldPointers();
    }

    /** Take the message of the first sender of the chain and wake that sender. */
    method TakeHead(want: Pid)
      requires Valid() && HeadMatch(View(), want)
      modifies this
      ensures Valid() && View() == Receive(old(View()), want)
    {
      hide Inv;
      hide Receive;
      hide Unblock;
      hide Prepared;
      hide Links;
      hide Pointers;
      hide Domains;
      hide HeadMatch;
      hide HeadTaken;
      hide Queues;
      ghost var s := View();
      HeadPrepared(s, want);
      var x := PopSender();
      PreparedParts(View(), x, Ready);
      HeadStatus(s);
      UnblockInv(View(), x);
      UnblockProc(x);
    }

    /** A match in mid-chain: unlink the sender asked for, wake the one before it. */
    method CutMiddle(want: Pid, prev: Pid, ghost i: nat)
      requires Valid() && want != ANY && 1 <= i < |chains[cur]| && chains[cur][0] != want
      requires chains[cur][i] == want && chains[cur][i - 1] == prev
      modifies this
      ensures Links() && Pointers() && View() == Receive(old(View()), want)
    {
      hide Inv;
      hide Receive;
      hide Links;
      hide Pointers;
      hide Chains;
      hide Queues;
      hide Unblock;
      hide Distinct;
      hide CutAt;
      ghost var s := View();
      DomainsOf(s);
      MidFacts(s, want, i);
      hide Domains;
      UnlinkMiddle(want, prev, i);
      UnblockProc(prev);
    }

    /** Take the message of the mid-chain sender and redirect the pointer of the one before it. */
    method UnlinkMiddle(want: Pid, prev: Pid, ghost i: nat)
      requires Valid() && want != ANY && 1 <= i < |chains[cur]| && chains[cur][0] != want
      requires chains[cur][i] == want && chains[cur][i - 1] == prev
      modifies this`msg, this`nextReady, this`chains
      ensures Links() && Pointers() && View() == MiddleCut(old(View()), want, i)
    {
      hide Inv;
      hide Receive;
      hide Links;
      hide Pointers;
      hide IsChain;
      hide Chains;
      hide Queues;
      hide Domains;
      hide Unblock;
      hide Distinct;
      hide CutAt;
      ghost var s := View();
      DomainsOf(s);
      KeysOf(s);
      ghost var l := chains[cur];
      MidFacts(s, want, i);
      PointersHold();
      CutPointers(sendings, nextReady, chains, cur, i);
      msg := msg[cur := Message(msg[want].kind, msg[want].context, prev)];
      nextReady := nextReady[prev := nextReady[want]];
      chains := chains[cur := CutAt(l, i)];
      HoldPointers();
      assert View() == MiddleCut(s, want, i);
    }

    /** Message::receive by the current process. */
    method DoReceive(want: Pid)
      requires Valid() && cur != init
      modifies this
      ensures Links() && Pointers() && View() == Receive(old(View()), want)
      ensures !MidMatch(old(View()), want) ==> Valid()
    {
      hide Inv;
      hide Receive;
      hide Links;
      hide Pointers;
      hide IsChain;
      hide Chains;
      hide Queues;
      ghost var s := View();
      DomainsOf(s);
      ghost var l := chains[cur];
      ReceiveInvIff(s, want);
      PointersHold();
      assert cur in chains;
      if intrCnt[cur] != 0 && want == ANY {
        TakeInterrupt();
        return;
      }
      var prevSender := sendings[cur];
      ChainNotNull(s);
      ChainReads(prevSender, nextReady, l);
      if prevSender != ANY && (want == prevSender || want == ANY) {
        TakeHead(want);
        return;
      }
      var i := 0;
      while prevSender != ANY
        invariant View() == s && nextReady == old(nextReady) && Links() && Pointers()
        invariant 0 <= i <= |l| && prevSender == if i < |l| then l[i] else ANY
        invariant forall j :: 1 <= j <= i && j < |l| ==> l[j] != want
        decreases |l| - i
      {
        assert nextReady[l[i]] == AfterInChain(l, i);
        var sender := nextReady[prevSender];
        if want == sender {
          CutMiddle(want, prevSender, i + 1);
          return;
        }
        prevSender := nextReady[prevSender];
        i := i + 1;
      }
      WaitFor(want);
    }

    method TakeInterrupt()
      requires Valid() && TakesInterrupt(View(), ANY)
      modifies this`msg, this`intrCnt
      ensures Links() && Pointers() && View() == Receive(old(View()), ANY)
    {
      hide Inv;
      hide Links;
      hide Pointers;
      hide SelfBlock;
      hide Unblock;
      DomainsOf(View());
      msg := msg[cur := msg[cur].(kind := INTR)];
      intrCnt := intrCnt[cur := intrCnt[cur] - 1];
    }
  }

  ghost predicate ChainsHold(heads: map<Pid, Pid>, next: map<Pid, Pid>, chains: map<Pid, seq<Pid>>) {
    forall d :: d in chains ==> d in heads && IsChain(heads[d], next, chains[d])
  }

  lemma ChainReads(head: Pid, next: map<Pid, Pid>, l: seq<Pid>)
    requires IsChain(head, next, l)
    ensures head == if l == [] then ANY else l[0]
    ensures forall i :: 0 <= i < |l| ==> l[i] in next && next[l[i]] == AfterInChain(l, i)
  {}

  lemma PushPointers(heads: map<Pid, Pid>, next: map<Pid, Pid>, chains: map<Pid, seq<Pid>>, x: Pid, d: Pid)
    requires ChainsHold(heads, next, chains) && d in chains && forall e :: e in chains ==> x !in chains[e]
    ensures ChainsHold(heads[d := x], next[x := heads[d]], chains[d := [x] + chains[d]])
  {
    var heads', next', chains' := heads[d := x], next[x := heads[d]], chains[d := [x] + chains[d]];
    forall e | e in chains' ensures e in heads' && IsChain(heads'[e], next', chains'[e]) {
      if e == d {
        ChainPush(heads[d], next, chains[d], x);
      } else {
        ChainInNext(heads[e], next, chains[e]);
        ChainSame(heads[e], next, next', chains[e]);
      }
    }
  }

  /** Advancing the head drops the first sender; the test for a self-loop is false for a proper chain. */
  lemma PopPointers(heads: map<Pid, Pid>, next: map<Pid, Pid>, chains: map<Pid, seq<Pid>>, d: Pid)
    requires ChainsHold(heads, next, chains) && d in chains && chains[d] != []
    requires Distinct(chains[d]) && chains[d][0] != ANY
    ensures d in heads && heads[d] == chains[d][0] && heads[d] in next && next[heads[d]] != heads[d]
    ensures ChainsHold(heads[d := next[heads[d]]], next, chains[d := chains[d][1..]])
  {
    ChainTail(heads[d], next, chains[d]);
    ChainReads(heads[d], next, chains[d]);
  }

  lemma CutPointers(heads: map<Pid, Pid>, next: map<Pid, Pid>, chains: map<Pid, seq<Pid>>, d: Pid, i: nat)
    requires ChainsHold(heads, next, chains) && d in chains && 1 <= i < |chains[d]| && Distinct(chains[d])
    requires forall e :: e in chains && e != d ==> chains[d][i - 1] !in chains[e]
    ensures chains[d][i] in next
    ensures ChainsHold(heads, next[chains[d][i - 1] := next[chains[d][i]]], chains[d := CutAt(chains[d], i)])
  {
    var l := chains[d];
    ChainReads(heads[d], next, l);
    var next', chains' := next[l[i - 1] := next[l[i]]], chains[d := CutAt(l, i)];
    forall e | e in chains' ensures e in heads && IsChain(heads[e], next', chains'[e]) {
      if e == d {
        ChainCut(heads[d], next, l, i);
      } else {
        ChainInNext(heads[e], next, chains[e]);
        ChainSame(heads[e], next, next', chains[e]);
      }
    }
  }

  lemma InvParts(s: State)
    requires Inv(s)
    ensures Domains(s) && Queues(s.status, s.priority, s.ready) && Chains(s.status, s.chains)
    ensures Levels(s) && OnlyCurrentRuns(s)
  {}

  lemma DomainsOf(s: State)
    requires Inv(s)
    ensures Domains(s)
  {}

  lemma KeysOf(s: State)
    requires Domains(s)
    ensures s.cur in s.status && s.cur in s.chains && s.cur in s.msg && s.cur in s.priority && s.cur in s.intrCnt
  {}

  lemma RunningCurrent(s: State)
    requires Inv(s)
    ensures s.cur in s.status && s.status[s.cur] == Running
  {}

  lemma PreparedParts(u: State, p: Pid, st: Status)
    requires Prepared(u, p, st)
    ensures Domains(u) && Queues(u.status, u.priority, u.ready)
    ensures u.cur in u.status && u.status[u.cur] == Running && p in u.status
  {}

  lemma CurrentInNoChain(s: State)
    requires Inv(s)
    ensures forall d :: d in s.chains ==> s.cur !in s.chains[d]
  {}

  /** No chain contains the null pointer. */
  lemma ChainNotNull(s: State)
    requires Inv(s)
    ensures forall i :: 0 <= i < |s.chains[s.cur]| ==> s.chains[s.cur][i] != ANY
  {
    ChainMembers(s.status, s.chains);
    forall i | 0 <= i < |s.chains[s.cur]| ensures s.chains[s.cur][i] != ANY {
      assert s.chains[s.cur][i] in s.chains[s.cur];
    }
  }

  lemma ReceiveWaits(s: State, want: Pid)
    requires Domains(s) && !TakesInterrupt(s, want) && !HeadMatch(s, want) && !MidMatch(s, want)
    ensures Receive(s, want) == SelfBlock(s.(msg := s.msg[s.cur := s.msg[s.cur].(dest := want)]), WaitingMsg)
  {
    hide SelfBlock;
  }

  /** The state in which the mid-chain branch has unlinked `want` but not yet woken the process before it. */
  function MiddleCut(s: State, want: Pid, i: nat): State
    requires Domains(s) && 1 <= i < |s.chains[s.cur]| && want in s.msg
  {
    s.(msg := s.msg[s.cur := Message(s.msg[want].kind, s.msg[want].context, s.chains[s.cur][i - 1])],
       chains := s.chains[s.cur := CutAt(s.chains[s.cur], i)])
  }

  lemma MidFacts(s: State, want: Pid, i: nat)
    requires Inv(s) && want != ANY && 1 <= i < |s.chains[s.cur]| && s.chains[s.cur][0] != want
    requires s.chains[s.cur][i] == want
    ensures Domains(s) && Queues(s.status, s.priority, s.ready) && want in s.msg
    ensures var prev := s.chains[s.cur][i - 1];
      && Distinct(s.chains[s.cur]) && prev in s.status && s.status[prev] == SendingMsg
      && (forall d :: d in s.chains && d != s.cur ==> prev !in s.chains[d])
      && Domains(MiddleCut(s, want, i)) && Receive(s, want) == Unblock(MiddleCut(s, want, i), prev)
  {
    hide Inv;
    hide Queues;
    hide Chains;
    hide Levels;
    hide OnlyCurrentRuns;
    hide Unblock;
    hide Receive;
    InvParts(s);
    var l := s.chains[s.cur];
    assert l[i - 1] in l && l[i] in l;
    ChainFacts(s.status, s.chains, s.cur, l[i - 1]);
    ChainFacts(s.status, s.chains, s.cur, want);
    FoundAt(l, want, i);
    CutDomains(s, MiddleCut(s, want, i), i);
    ReceiveMid(s, want, i);
  }

  lemma ReceiveMid(s: State, want: Pid, i: nat)
    requires Domains(s) && want != ANY && 1 <= i < |s.chains[s.cur]| && s.chains[s.cur][0] != want && want in s.msg
    requires Find(s.chains[s.cur], want, 1) == i && Domains(MiddleCut(s, want, i))
    requires var prev := s.chains[s.cur][i - 1]; prev in s.status && s.status[prev] == SendingMsg
    ensures Receive(s, want) == Unblock(MiddleCut(s, want, i), s.chains[s.cur][i - 1])
  {
    hide SelfBlock;
    hide Unblock;
  }

  lemma CutDomains(s: State, t: State, i: nat)
    requires Domains(s) && i < |s.chains[s.cur]|
    requires t == s.(msg := t.msg, chains := s.chains[s.cur := CutAt(s.chains[s.cur], i)])
    requires t.msg.Keys == s.msg.Keys
    ensures Domains(t)
  {}

  lemma ChainInNext(head: Pid, next: map<Pid, Pid>, l: seq<Pid>)
    requires IsChain(head, next, l)
    ensures forall y :: y in l ==> y in next
  {}

  /** The state in which the head of the chain has been taken off but not yet woken. */
  function HeadTaken(s: State): State
    requires Domains(s) && s.chains[s.cur] != []
  {
    var x := s.chains[s.cur][0];
    assert x in s.chains[s.cur];
    s.(msg := s.msg[s.cur := Message(s.msg[x].kind, s.msg[x].context, x)],
       chains := s.chains[s.cur := s.chains[s.cur][1..]])
  }

  lemma HeadPrepared(s: State, want: Pid)
    requires Inv(s) && HeadMatch(s, want)
    ensures Domains(s) && s.chains[s.cur] != []
    ensures var x := s.chains[s.cur][0];
      && x in s.msg && x != ANY && Distinct(s.chains[s.cur]) && x in s.status && s.status[x] == SendingMsg
      && Prepared(HeadTaken(s), x, Ready) && Receive(s, want) == Unblock(HeadTaken(s), x)
  {
    hide Inv;
    hide Queues;
    hide Chains;
    hide Unblock;
    hide Prepared;
    hide Levels;
    hide OnlyCurrentRuns;
    InvParts(s);
    var x := s.chains[s.cur][0];
    assert x in s.chains[s.cur];
    ChainFacts(s.status, s.chains, s.cur, x);
    HeadTakenPrepared(s);
  }

  lemma HeadStatus(s: State)
    requires Domains(s) && s.chains[s.cur] != []
    ensures HeadTaken(s).status == s.status
  {}

  lemma HeadTakenPrepared(s: State)
    requires Domains(s) && Queues(s.status, s.priority, s.ready) && Chains(s.status, s.chains)
    requires Levels(s) && OnlyCurrentRuns(s) && s.chains[s.cur] != []
    ensures Prepared(HeadTaken(s), s.chains[s.cur][0], Ready)
  {
    hide Queues;
    hide Chains;
    var c, l := s.cur, s.chains[s.cur];
    assert l[0] in l;
    CutChain(s.status, s.chains, c, 0);
    assert CutAt(l, 0) == l[1..];
  }

  lemma FoundAt(l: seq<Pid>, want: Pid, i: nat)
    requires Distinct(l) && 1 <= i < |l| && l[i] == want
    ensures Find(l, want, 1) == i
  {}

}
