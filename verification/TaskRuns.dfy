/** What whole runs of the task table show: which tasks a row of timer ticks
    serves, and what a parent learns about how its child ended. */
module TaskRuns {
  import opened Tasks

  // ---- ticks --------------------------------------------------------------

  /** The table after n timer ticks. */
  function Ticks(s: Sched, n: nat): Sched {
    if n == 0 then s else Schedule(Ticks(s, n - 1))
  }

  lemma {:induction false} TicksAdd(s: Sched, m: nat, n: nat)
    ensures Ticks(s, m + n) == Ticks(Ticks(s, m), n)
  {
    hide Schedule;
    if n > 0 {
      TicksAdd(s, m, n - 1);
    }
  }

  /** The same tasks can run, with the same priorities. */
  predicate SameTasks(s: Sched, t: Sched) {
    && t.num == s.num
    && forall i :: 0 <= i < MAX_TASKS ==>
         (Runnable(t.tasks[i]) <==> Runnable(s.tasks[i])) && t.tasks[i].priority == s.tasks[i].priority
  }

  lemma TickSame(s: Sched)
    ensures SameTasks(s, Schedule(s))
  {
    hide Pick, Cand;
    var me := s.tasks[s.cur];
    var ts := if me.state == RUNNING then s.tasks[s.cur := me.(state := READY)] else s.tasks;
    PickRunnable(ts, s.cur);
  }

  lemma {:induction false} TicksSame(s: Sched, n: nat)
    ensures SameTasks(s, Ticks(s, n))
  {
    hide Schedule;
    if n > 0 {
      TicksSame(s, n - 1);
      TickSame(Ticks(s, n - 1));
    }
  }

  predicate Other(s: Sched, i: Slot) { Runnable(s.tasks[i]) && i != s.cur }

  /** The choice of a tick among slots: never below another runnable task of at
      least the current priority, and the nearest one when there is no such task. */
  lemma TickChoice(s: Sched)
    requires s.num > 1
    ensures var c := Schedule(s).cur;
            && (forall i: Slot :: Other(s, i) ==> Other(s, c))
            && ((forall i: Slot :: !Other(s, i)) ==> c == s.cur)
            && (forall i: Slot :: Other(s, i) && s.tasks[i].priority >= s.tasks[s.cur].priority ==>
                  s.tasks[c].priority >= s.tasks[i].priority)
            && ((forall i: Slot :: Other(s, i) ==> s.tasks[i].priority < s.tasks[s.cur].priority) ==>
                  forall i: Slot :: Other(s, i) ==> Distance(s.cur, c) <= Distance(s.cur, i))
  {
    hide Schedule, Cand, Distance;
    ScheduleIsRight(s);
    var c := Schedule(s).cur;
    DistanceBound(s.cur, c);
    forall i: Slot | Other(s, i) ensures Ready(s.tasks, s.cur, Distance(s.cur, i)) {
      DistanceBound(s.cur, i);
    }
    forall i: Slot ensures Cand(s.cur, Distance(s.cur, i)) == i {
      DistanceBound(s.cur, i);
    }
    forall i | Ready(s.tasks, s.cur, i) ensures Other(s, Cand(s.cur, i)) {
      PlaceOf(s.cur, i);
    }
  }

  // ---- who is served ------------------------------------------------------

  ghost predicate RunsWithin(s: Sched, t: Slot, n: nat) {
    exists k :: n < k <= n + MAX_TASKS && Ticks(s, k).cur == t
  }

  /** From any moment on, every runnable task is current within 16 ticks. */
  ghost predicate Fair(s: Sched) {
    forall t: Slot, n: nat :: Runnable(s.tasks[t]) ==> RunsWithin(s, t, n)
  }

  /** From the second tick on, t is never current. */
  ghost predicate Starves(s: Sched, t: Slot) {
    Runnable(s.tasks[t]) && forall k: nat :: k >= 2 ==> Ticks(s, k).cur != t
  }

  predicate Only(s: Sched, t: Slot) { forall i: Slot :: Runnable(s.tasks[i]) ==> i == t }
  predicate OnlyTwo(s: Sched, a: Slot, b: Slot) { forall i: Slot :: Runnable(s.tasks[i]) ==> i == a || i == b }

  predicate AllEqual(s: Sched) {
    forall i: Slot, j: Slot :: Runnable(s.tasks[i]) && Runnable(s.tasks[j]) ==>
        s.tasks[i].priority == s.tasks[j].priority
  }

  ghost predicate Balanced(s: Sched) {
    Only(s, s.cur) || (s.num > 1 && (AllEqual(s) || exists a, b :: OnlyTwo(s, a, b)))
  }

  lemma {:induction false} StaysPut(s: Sched, n: nat)
    requires Only(s, s.cur)
    ensures Ticks(s, n).cur == s.cur
  {
    hide Schedule;
    if n > 0 {
      StaysPut(s, n - 1);
      TicksSame(s, n - 1);
      LonelyTick(Ticks(s, n - 1));
    }
  }

  lemma LonelyTick(s: Sched)
    requires Only(s, s.cur)
    ensures Schedule(s).cur == s.cur
  {
    if s.num > 1 {
      hide Schedule;
      TickChoice(s);
    }
  }

  lemma {:induction false} EqualReach(s: Sched, t: Slot) returns (k: nat)
    requires AllEqual(s) && s.num > 1 && Runnable(s.tasks[t])
    ensures k <= Distance(s.cur, t) && Ticks(s, k).cur == t
    decreases Distance(s.cur, t)
  {
    hide Schedule, Distance;
    DistanceBound(s.cur, t);
    if s.cur == t {
      k := 0;
    } else {
      TickComesCloser(s, t);
      TickSame(s);
      var j := EqualReach(Schedule(s), t);
      k := 1 + j;
      TicksAdd(s, 1, j);
      assert Ticks(s, 1) == Schedule(Ticks(s, 0));
    }
  }

  lemma EqualServes(s: Sched, t: Slot, n: nat)
    requires AllEqual(s) && s.num > 1 && Runnable(s.tasks[t])
    ensures RunsWithin(s, t, n)
  {
    hide Schedule, Distance, Ticks;
    var x := Ticks(s, n + 1);
    TicksSame(s, n + 1);
    var k := EqualReach(x, t);
    DistanceBound(x.cur, t);
    TicksAdd(s, n + 1, k);
    assert Ticks(s, n + 1 + k).cur == t;
  }

  lemma TwoServe(s: Sched, a: Slot, b: Slot, t: Slot, n: nat)
    requires OnlyTwo(s, a, b) && s.num > 1 && Runnable(s.tasks[t])
    ensures RunsWithin(s, t, n)
  {
    hide Schedule, Distance;
    var x, y := Ticks(s, n), Ticks(s, n + 1);
    TicksSame(s, n);
    TicksSame(s, n + 1);
    TickChoice(x);
    TickChoice(y);
    assert Ticks(s, n + 2) == Schedule(y);
    assert Other(x, t) || x.cur == t;
    assert Other(y, t) || y.cur == t;
    assert Ticks(s, n + 1).cur == t || Ticks(s, n + 2).cur == t;
  }

  lemma BalancedIsFair(s: Sched)
    requires Balanced(s)
    ensures Fair(s)
  {
    hide Ticks, RunsWithin;
    forall t: Slot, n: nat | Runnable(s.tasks[t]) ensures RunsWithin(s, t, n) {
      if Only(s, s.cur) {
        StaysPut(s, n + 1);
        Witness(s, t, n, n + 1);
      } else if AllEqual(s) {
        EqualServes(s, t, n);
      } else {
        var a, b :| OnlyTwo(s, a, b);
        TwoServe(s, a, b, t, n);
      }
    }
  }

  lemma Witness(s: Sched, t: Slot, n: nat, k: nat)
    requires n < k <= n + MAX_TASKS && Ticks(s, k).cur == t
    ensures RunsWithin(s, t, n)
  {
  }

  // ---- who starves --------------------------------------------------------

  lemma {:induction false} HighestBelow(s: Sched, n: nat, r: Slot) returns (a: Slot)
    requires n <= MAX_TASKS && r < n && Runnable(s.tasks[r])
    ensures Runnable(s.tasks[a])
    ensures forall i :: 0 <= i < n && Runnable(s.tasks[i]) ==> s.tasks[i].priority <= s.tasks[a].priority
  {
    var m := n - 1;
    a := r;
    if exists i :: 0 <= i < m && Runnable(s.tasks[i]) {
      var q :| 0 <= q < m && Runnable(s.tasks[q]);
      a := HighestBelow(s, m, q);
    }
    if Runnable(s.tasks[m]) && s.tasks[m].priority > s.tasks[a].priority {
      a := m;
    }
  }

  /** While two tasks of the highest priority can run, no tick chooses a task
      below that priority. */
  lemma LowPriorityStarves(s: Sched, a: Slot, b: Slot)
    requires a != b && Runnable(s.tasks[a]) && Runnable(s.tasks[b]) && s.num > 1
    requires s.tasks[a].priority == s.tasks[b].priority && s.tasks[s.cur].priority <= s.tasks[a].priority
    ensures s.tasks[Schedule(s).cur].priority >= s.tasks[a].priority
  {
    hide Schedule;
    TickChoice(s);
    assert Other(s, if s.cur == a then b else a);
  }

  /** Where the only task of the highest priority hands over to. */
  lemma TopHandsOver(s: Sched, x: Sched, a: Slot)
    requires SameTasks(s, x) && s.cur == a && x.cur == a && s.num > 1 && !Only(s, a)
    requires forall i: Slot :: Runnable(s.tasks[i]) && i != a ==> s.tasks[i].priority < s.tasks[a].priority
    ensures Schedule(x).cur == Schedule(s).cur
  {
    hide Schedule, Distance;
    TickChoice(s);
    TickChoice(x);
    var c, d := Schedule(s).cur, Schedule(x).cur;
    var i: Slot :| Runnable(s.tasks[i]) && i != a;
    assert Other(s, i) && Other(x, i);
    assert Other(s, d) && Other(x, c);
    DistanceBound(a, c);
    DistanceBound(a, d);
  }

  lemma StaysRunnable(s: Sched, k: nat, r: Slot)
    requires s.num > 1 && k >= 1 && Runnable(s.tasks[r]) && r != s.cur
    requires exists q: Slot :: q != r && Runnable(s.tasks[q])
    ensures Runnable(s.tasks[Ticks(s, k).cur])
  {
    hide Schedule;
    var q: Slot :| q != r && Runnable(s.tasks[q]);
    var x := Ticks(s, k - 1);
    TicksSame(s, k - 1);
    TickChoice(x);
    assert Other(x, if x.cur == r then q else r);
  }

  lemma TwoTopsStarve(s: Sched, a: Slot, b: Slot, t: Slot, r: Slot)
    requires s.num > 1 && a != b && Runnable(s.tasks[a]) && Runnable(s.tasks[b]) && Runnable(s.tasks[t])
    requires Runnable(s.tasks[r]) && r != s.cur
    requires forall i: Slot :: Runnable(s.tasks[i]) ==> s.tasks[i].priority <= s.tasks[a].priority
    requires s.tasks[t].priority < s.tasks[a].priority == s.tasks[b].priority
    ensures Starves(s, t)
  {
    hide Schedule;
    forall k: nat | k >= 2 ensures Ticks(s, k).cur != t {
      assert (if r == a then b else a) != r;
      StaysRunnable(s, k - 1, r);
      TicksSame(s, k - 1);
      LowPriorityStarves(Ticks(s, k - 1), a, b);
    }
  }

  lemma LoneTopStarves(s: Sched, a: Slot, t: Slot, r: Slot)
    requires s.num > 1 && Runnable(s.tasks[a]) && Runnable(s.tasks[t]) && Runnable(s.tasks[r]) && r != s.cur
    requires forall i: Slot :: Runnable(s.tasks[i]) && i != a ==> s.tasks[i].priority < s.tasks[a].priority
    requires t != a && t != Schedule(s.(cur := a)).cur
    ensures Starves(s, t)
  {
    hide Schedule;
    forall k: nat | k >= 2 ensures Ticks(s, k).cur != t {
      assert (if r == a then t else a) != r;
      StaysRunnable(s, k - 1, r);
      var x := Ticks(s, k - 1);
      TicksSame(s, k - 1);
      if x.cur == a {
        TopHandsOver(s.(cur := a), x, a);
      } else {
        TickChoice(x);
        assert Other(x, a);
      }
    }
  }

  lemma UnbalancedStarves(s: Sched) returns (t: Slot)
    requires !Balanced(s)
    ensures Starves(s, t)
  {
    hide Schedule, Ticks, Starves;
    var r: Slot :| Runnable(s.tasks[r]) && r != s.cur;
    if s.num <= 1 {
      t := r;
      NoTickNoTurn(s, r);
    } else {
      var a := HighestBelow(s, MAX_TASKS, r);
      if b: Slot :| Runnable(s.tasks[b]) && b != a && s.tasks[b].priority == s.tasks[a].priority {
        var i: Slot, j: Slot :|
          Runnable(s.tasks[i]) && Runnable(s.tasks[j]) && s.tasks[i].priority != s.tasks[j].priority;
        t := if s.tasks[i].priority < s.tasks[a].priority then i else j;
        TwoTopsStarve(s, a, b, t, r);
      } else {
        var b := Schedule(s.(cur := a)).cur;
        assert !OnlyTwo(s, a, b);
        t :| Runnable(s.tasks[t]) && t != a && t != b;
        LoneTopStarves(s, a, t, r);
      }
    }
  }

  lemma {:induction false} Idle(s: Sched, n: nat)
    requires s.num <= 1
    ensures Ticks(s, n) == s
  {
    if n > 0 {
      Idle(s, n - 1);
    }
  }

  lemma NoTickNoTurn(s: Sched, t: Slot)
    requires s.num <= 1 && Runnable(s.tasks[t]) && t != s.cur
    ensures Starves(s, t)
  {
    hide Schedule;
    forall k: nat | k >= 2 ensures Ticks(s, k).cur != t {
      Idle(s, k);
    }
  }

  /** A row of ticks serves every runnable task, each within 16 ticks again and
      again, if and only if nobody else waits, or ticks switch at all and either
      all runnable tasks have equal priorities or at most two tasks can run.
      Otherwise some runnable task is never current after the first tick. */
  lemma FairIff(s: Sched)
    ensures Fair(s) <==> Balanced(s)
    ensures !Balanced(s) ==> exists t :: Starves(s, t)
  {
    hide Balanced, Ticks, Fair, Starves;
    if Balanced(s) {
      BalancedIsFair(s);
    } else {
      var t := UnbalancedStarves(s);
      StarvingIsUnfair(s, t);
    }
  }

  /** One task of priority 2 and two of priority 1: slot 2 never runs. */
  lemma LoneTopExample(s: Sched)
    requires s.cur == 0 && s.num == 3
    requires forall i :: 0 <= i < MAX_TASKS ==>
               s.tasks[i].state == (if i == 0 then RUNNING else if i < 3 then READY else DEAD)
    requires s.tasks[0].priority == 2 && s.tasks[1].priority == 1 && s.tasks[2].priority == 1
    ensures Starves(s, 2) && !Fair(s)
  {
    hide Schedule, Starves, Balanced, Fair;
    TickChoice(s);
    var b := Schedule(s).cur;
    assert Other(s, 1) && Distance(0, 1) == 1 && Distance(0, 2) == 2;
    assert s.(cur := 0) == s;
    LoneTopStarves(s, 0, 2, 1);
    StarvingIsUnfair(s, 2);
  }

  lemma StarvingIsUnfair(s: Sched, t: Slot)
    requires Starves(s, t)
    ensures !Fair(s)
  {
    hide Ticks;
    assert !RunsWithin(s, t, 2);
  }

  // ---- how a task ended ---------------------------------------------------

  /** Slot z became a zombie at step k and has not changed since. */
  ghost predicate EndedAt(states: seq<Sched>, ops: seq<Op>, z: Slot, k: nat)
    requires |states| == |ops| + 1
  {
    && k < |ops| && Counted(states[k].tasks[z]) && states[k + 1].tasks[z].state == ZOMBIE
    && forall m :: k < m <= |ops| ==> states[m].tasks[z] == states[|ops|].tasks[z]
  }

  /** By proc_exit, its own or through a kill of itself: it was the current task. */
  ghost predicate EndedByExit(states: seq<Sched>, ops: seq<Op>, z: Slot)
    requires |states| == |ops| + 1
  {
    exists k: nat :: EndedAt(states, ops, z, k) && states[k].cur == z
  }

  /** What a call that leaves slot z as the zombie t has done to it: nothing, or
      ended it, the current task by exit or by a kill of itself, any other by a kill. */
  predicate LeftAs(s: Sched, op: Op, z: Slot, t: Task) {
    if !Counted(s.tasks[z]) then t == s.tasks[z]
    else if z == s.cur then
      (op.Quit? || op.KillPid?) && t.pid == -1 && t.exitCode == (if op.Quit? then op.code else -1)
    else op == KillPid(s.tasks[z].pid) && t.pid == s.tasks[z].pid && t.pid > 0 && t.exitCode == -1
  }

  lemma QuitLeaves(s: Sched, code: int, z: Slot)
    requires Counted(s.tasks[s.cur]) && Exit(s, code).tasks[z].state == ZOMBIE
    ensures LeftAs(s, Quit(code), z, Exit(s, code).tasks[z])
  {
    hide Exit, Ready, Distance;
    ExitHandsOver(s, code);
  }

  lemma KillLeaves(s: Sched, pid: int, z: Slot)
    requires TaskOk(s) && Allowed(s, KillPid(pid)) && Kill(s, pid).0.tasks[z].state == ZOMBIE
    ensures LeftAs(s, KillPid(pid), z, Kill(s, pid).0.tasks[z])
  {
    hide Exit, CountLive, Ready, Distance;
    ExitHandsOver(s, -1);
  }

  lemma TickLeaves(s: Sched, z: Slot)
    requires Schedule(s).tasks[z].state == ZOMBIE
    ensures LeftAs(s, Tick, z, Schedule(s).tasks[z])
  {
    if s.num > 1 {
      hide Schedule, FirstBest, Ready, Prio, Distance;
      ScheduleIsRight(s);
      TickSame(s);
    }
  }

  lemma ZombieStep(s: Sched, op: Op, z: Slot)
    requires TaskOk(s) && Allowed(s, op) && Apply(s, op).tasks[z].state == ZOMBIE
    ensures LeftAs(s, op, z, Apply(s, op).tasks[z])
  {
    match op
    case Quit(code) => QuitLeaves(s, code, z);
    case KillPid(pid) => KillLeaves(s, pid, z);
    case Tick => TickLeaves(s, z);
    case _ =>
      hide TaskOk, Exit, Kill, Schedule;
  }

  /** Over every run each zombie has a step that ended it. */
  lemma {:induction false} ZombieOrigin(states: seq<Sched>, ops: seq<Op>, z: Slot) returns (k: nat)
    requires IsRun(states, ops) && states[|ops|].tasks[z].state == ZOMBIE
    ensures EndedAt(states, ops, z, k)
  {
    hide Apply, Allowed, TaskOk;
    var n := |ops| - 1;
    RunKeepsTable(states[..n + 1], ops[..n]);
    assert Allowed(states[n], ops[n]) && states[n + 1] == Apply(states[n], ops[n]);
    ZombieStep(states[n], ops[n], z);
    if Counted(states[n].tasks[z]) {
      k := n;
    } else {
      k := ZombieOrigin(states[..n + 1], ops[..n], z);
      assert states[..n + 1][k + 1] == states[k + 1];
      forall m | k < m <= n + 1 ensures states[m].tasks[z] == states[n + 1].tasks[z] {
        if m <= n {
          assert states[..n + 1][m] == states[m];
        }
      }
    }
  }

  lemma {:induction false} EndedHow(states: seq<Sched>, ops: seq<Op>, z: Slot, k: nat)
    requires IsRun(states, ops) && EndedAt(states, ops, z, k)
    ensures var t := states[|ops|].tasks[z];
            && t.exitCode == (if ops[k].Quit? then ops[k].code else -1)
            && t.pid == (if states[k].cur == z then -1 else states[k].tasks[z].pid)
            && (states[k].cur != z ==> t.pid > 0 && ops[k] == KillPid(t.pid))
  {
    hide Apply, Allowed, TaskOk;
    RunKeepsTable(states[..k + 1], ops[..k]);
    assert Allowed(states[k], ops[k]) && states[k + 1] == Apply(states[k], ops[k]);
    ZombieStep(states[k], ops[k], z);
  }

  // ---- what a parent learns -----------------------------------------------

  predicate ZombieChild(s: Sched, i: Slot) {
    s.tasks[i].state == ZOMBIE && s.tasks[i].parent == s.tasks[s.cur].pid
  }

  predicate LowestZombieChild(s: Sched, z: Slot) {
    ZombieChild(s, z) && forall i: Slot :: i < z ==> !ZombieChild(s, i)
  }

  /** proc_wait collects the lowest zombie child, if there is one. */
  lemma WaitCollectsLowest(s: Sched)
    ensures (forall i: Slot :: !ZombieChild(s, i)) ==> Wait(s).0 == s && Wait(s).1 == -1
    ensures forall z: Slot :: LowestZombieChild(s, z) ==>
              Wait(s) == (s.(tasks := s.tasks[z := s.tasks[z].(state := DEAD)]), s.tasks[z].pid, s.tasks[z].exitCode)
    ensures (forall i: Slot :: !ZombieChild(s, i)) || exists z :: LowestZombieChild(s, z)
  {
    hide Orphan;
    var z := Orphan(s.tasks, s.tasks[s.cur].pid);
    if z < MAX_TASKS {
      assert LowestZombieChild(s, z);
      forall y: Slot | LowestZombieChild(s, y) ensures y == z {
        assert !(y < z) && !(z < y);
      }
    }
  }

  /** Over every run proc_wait reports the code the lowest zombie child ended
      with, and its pid exactly when another task killed it: -1 is returned if and
      only if there is no zombie child or that child ended by proc_exit. */
  lemma WaitTells(states: seq<Sched>, ops: seq<Op>)
    requires IsRun(states, ops)
    ensures var s := states[|ops|];
            Wait(s).1 == -1 <==>
            (forall i: Slot :: !ZombieChild(s, i)) || exists z :: LowestZombieChild(s, z) && EndedByExit(states, ops, z)
    ensures forall z: Slot, k: nat :: LowestZombieChild(states[|ops|], z) && EndedAt(states, ops, z, k) ==>
              && Wait(states[|ops|]).1 == (if states[k].cur == z then -1 else states[k].tasks[z].pid)
              && Wait(states[|ops|]).2 == (if ops[k].Quit? then ops[k].code else -1)
  {
    hide Wait, Apply, Allowed, Boot, LowestZombieChild;
    var s := states[|ops|];
    WaitCollectsLowest(s);
    forall z: Slot, k: nat | EndedAt(states, ops, z, k)
      ensures s.tasks[z].exitCode == (if ops[k].Quit? then ops[k].code else -1)
      ensures s.tasks[z].pid == (if states[k].cur == z then -1 else states[k].tasks[z].pid)
      ensures states[k].cur != z ==> s.tasks[z].pid > 0
    {
      EndedHow(states, ops, z, k);
    }
    if z: Slot :| LowestZombieChild(s, z) {
      ZombieIsOne(s, z);
      var k := ZombieOrigin(states, ops, z);
      if states[k].cur == z {
        assert EndedByExit(states, ops, z);
      }
      LowestIsUnique(s, z);
    }
  }

  lemma ZombieIsOne(s: Sched, z: Slot)
    requires LowestZombieChild(s, z)
    ensures s.tasks[z].state == ZOMBIE && ZombieChild(s, z)
  {
  }

  lemma LowestIsUnique(s: Sched, z: Slot)
    requires LowestZombieChild(s, z)
    ensures forall y: Slot :: LowestZombieChild(s, y) ==> y == z
  {
    forall y: Slot | LowestZombieChild(s, y) ensures y == z {
      assert !(y < z) && !(z < y);
    }
  }
}
