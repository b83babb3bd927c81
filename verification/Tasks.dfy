/** The task table: creation, exit, kill, wait, reaping and the two-pass
    priority scheduler, with what every run of them keeps. */
module Tasks {
  const MAX_TASKS: nat := 16

  datatype State = READY | RUNNING | BLOCKED | ZOMBIE | DEAD
  datatype Task = Task(pid: int, state: State, exitCode: int, parent: int, priority: int)

  const EMPTY := Task(-1, DEAD, 0, -1, 1)

  type Table = ts: seq<Task> | |ts| == 16 witness seq<Task>(16, _ => EMPTY)
  type Slot = x: nat | x < 16

  datatype Sched = Sched(tasks: Table, cur: Slot, num: int, nextPid: int)

  predicate Runnable(t: Task) { t.state == READY || t.state == RUNNING }
  predicate Counted(t: Task) { t.state != ZOMBIE && t.state != DEAD }

  function CountLive(ts: seq<Task>): nat {
    if ts == [] then 0 else CountLive(ts[..|ts| - 1]) + if Counted(ts[|ts| - 1]) then 1 else 0
  }

  /** At most the current task is RUNNING, the counter is exact, and the pids of
      counted tasks are positive, distinct and already handed out. */
  predicate TaskOk(s: Sched) {
    && s.nextPid >= 1
    && s.num == CountLive(s.tasks)
    && (forall i :: 0 <= i < MAX_TASKS && s.tasks[i].state == RUNNING ==> i == s.cur)
    && (forall i :: 0 <= i < MAX_TASKS ==> s.tasks[i].pid < s.nextPid)
    && (forall i :: 0 <= i < MAX_TASKS && Counted(s.tasks[i]) ==> s.tasks[i].pid >= 1)
    && (forall i, j :: 0 <= i < j < MAX_TASKS && Counted(s.tasks[i]) && Counted(s.tasks[j]) ==>
        s.tasks[i].pid != s.tasks[j].pid)
  }

  lemma {:induction false} CountUpdate(ts: seq<Task>, i: nat, t: Task)
    requires i < |ts|
    ensures CountLive(ts[i := t]) == CountLive(ts) + (if Counted(t) then 1 else 0) - (if Counted(ts[i]) then 1 else 0)
  {
    var n := |ts| - 1;
    if i < n {
      CountUpdate(ts[..n], i, t);
      assert ts[i := t][..n] == ts[..n][i := t];
    } else {
      assert ts[i := t][..n] == ts[..n];
    }
  }

  // ---- the scheduler's choice ---------------------------------------------

  /** The slot i places after cur. */
  function Cand(cur: Slot, i: nat): Slot { (cur + i) % 16 }

  /** Pass 0: the best place so far, 0 standing for the current task itself. */
  function BestFrom(ts: Table, cur: Slot, i: nat, best: nat): nat
    requires 1 <= i <= MAX_TASKS && best < i
    decreases MAX_TASKS - i
  {
    if i == MAX_TASKS then best
    else
      var c, b := ts[Cand(cur, i)], ts[Cand(cur, best)];
      if Runnable(c) && c.priority >= b.priority && (best == 0 || c.priority > b.priority)
      then BestFrom(ts, cur, i + 1, i)
      else BestFrom(ts, cur, i + 1, best)
  }

  /** The first runnable place from i on, or MAX_TASKS. */
  function FirstFrom(ts: Table, cur: Slot, i: nat): (r: nat)
    requires i <= MAX_TASKS
    ensures i <= r <= MAX_TASKS
    ensures r < MAX_TASKS ==> Runnable(ts[Cand(cur, r)])
    ensures forall k :: i <= k < r ==> !Runnable(ts[Cand(cur, k)])
    decreases MAX_TASKS - i
  {
    if i == MAX_TASKS || Runnable(ts[Cand(cur, i)]) then i else FirstFrom(ts, cur, i + 1)
  }

  /** How many places after cur the next task is; 0 means no switch. */
  function Pick(ts: Table, cur: Slot): (k: nat)
  {
    var b := BestFrom(ts, cur, 1, 0);
    if b != 0 then b
    else
      var f := FirstFrom(ts, cur, 1);
      if f == MAX_TASKS then 0 else f
  }

  predicate Ready(ts: Table, cur: Slot, i: nat) { 1 <= i < MAX_TASKS && Runnable(ts[Cand(cur, i)]) }
  function Prio(ts: Table, cur: Slot, i: nat): int { ts[Cand(cur, i)].priority }

  /** Place k is the first of maximum priority among the runnable places below n. */
  predicate FirstBest(ts: Table, cur: Slot, n: nat, k: nat) {
    && Ready(ts, cur, k) && k < n
    && (forall i :: 1 <= i < n && Ready(ts, cur, i) ==> Prio(ts, cur, i) <= Prio(ts, cur, k))
    && (forall i :: 1 <= i < k && Ready(ts, cur, i) ==> Prio(ts, cur, i) < Prio(ts, cur, k))
  }

  lemma {:induction false} BestFromSpec(ts: Table, cur: Slot, i: nat, best: nat)
    requires 1 <= i <= MAX_TASKS && best < i
    requires best == 0 ==> forall j :: 1 <= j < i && Ready(ts, cur, j) ==> Prio(ts, cur, j) < ts[cur].priority
    requires best != 0 ==> FirstBest(ts, cur, i, best) && Prio(ts, cur, best) >= ts[cur].priority
    ensures var b := BestFrom(ts, cur, i, best);
            && (b == 0 ==> forall j :: 1 <= j < MAX_TASKS && Ready(ts, cur, j) ==> Prio(ts, cur, j) < ts[cur].priority)
            && (b != 0 ==> FirstBest(ts, cur, MAX_TASKS, b) && Prio(ts, cur, b) >= ts[cur].priority)
    decreases MAX_TASKS - i
  {
    assert Cand(cur, 0) == cur;
    if i < MAX_TASKS {
      var c, b := ts[Cand(cur, i)], ts[Cand(cur, best)];
      if Runnable(c) && c.priority >= b.priority && (best == 0 || c.priority > b.priority) {
        BestFromSpec(ts, cur, i + 1, i);
      } else {
        BestFromSpec(ts, cur, i + 1, best);
      }
    }
  }

  /** The choice: the first runnable task of maximum priority if that is at
      least the current one's, else the first runnable task, else none. */
  lemma PickIsRight(ts: Table, cur: Slot)
    ensures var k := Pick(ts, cur);
            && (k == 0 <==> forall i :: 1 <= i < MAX_TASKS ==> !Ready(ts, cur, i))
            && ((exists i :: Ready(ts, cur, i) && Prio(ts, cur, i) >= ts[cur].priority) ==>
                FirstBest(ts, cur, MAX_TASKS, k))
            && ((exists i :: Ready(ts, cur, i)) && (forall i :: Ready(ts, cur, i) ==>
                Prio(ts, cur, i) < ts[cur].priority) ==>
                  Ready(ts, cur, k) && forall i :: 1 <= i < k ==> !Ready(ts, cur, i))
  {
    BestFromSpec(ts, cur, 1, 0);
    hide BestFrom, FirstFrom;
    var b, f := BestFrom(ts, cur, 1, 0), FirstFrom(ts, cur, 1);
    if b == 0 && f < MAX_TASKS {
      assert Ready(ts, cur, f);
    }
  }

  /** When the runnable tasks have equal priorities, the scheduler takes the
      next one in turn, as exit does; what the other slots hold is no matter. */
  lemma EqualPrioritiesRoundRobin(ts: Table, cur: Slot)
    requires forall i, j :: 0 <= i < MAX_TASKS && 0 <= j < MAX_TASKS && Runnable(ts[i]) && Runnable(ts[j]) ==>
               ts[i].priority == ts[j].priority
    ensures Pick(ts, cur) == if FirstFrom(ts, cur, 1) == MAX_TASKS then 0 else FirstFrom(ts, cur, 1)
  {
    PickIsRight(ts, cur);
    hide BestFrom, FirstFrom, Pick;
    var k, f := Pick(ts, cur), FirstFrom(ts, cur, 1);
    if f < MAX_TASKS {
      assert Ready(ts, cur, f);
      assert Ready(ts, cur, k);
    }
  }

  // ---- turns --------------------------------------------------------------

  function Distance(cur: Slot, t: Slot): nat { (t + 16 - cur) % 16 }

  lemma TurnComesCloser(ts: Table, cur: Slot, t: Slot)
    requires t != cur && Runnable(ts[t])
    requires forall i :: 0 <= i < MAX_TASKS && Runnable(ts[i]) ==> ts[i].priority == ts[t].priority
    ensures Distance(Cand(cur, Pick(ts, cur)), t) < Distance(cur, t)
  {
    EqualPrioritiesRoundRobin(ts, cur);
    hide Pick, FirstFrom, Cand, Distance;
    var d, f := Distance(cur, t), FirstFrom(ts, cur, 1);
    DistanceBound(cur, t);
    assert Runnable(ts[Cand(cur, d)]);
    Advance(cur, t, f);
  }

  lemma DistanceBound(cur: Slot, t: Slot)
    ensures Distance(cur, t) <= MAX_TASKS - 1 && (Distance(cur, t) == 0 <==> cur == t)
    ensures Cand(cur, Distance(cur, t)) == t
  {
    if t >= cur {
      assert Distance(cur, t) == t - cur;
    } else {
      assert Distance(cur, t) == t + 16 - cur;
    }
  }

  lemma Advance(cur: Slot, t: Slot, f: nat)
    requires f <= Distance(cur, t)
    ensures Distance(Cand(cur, f), t) == Distance(cur, t) - f
  {
    var d := if t >= cur then t - cur else t + 16 - cur;
    assert Distance(cur, t) == d;
    var c := if cur + f < 16 then cur + f else cur + f - 16;
    assert Cand(cur, f) == c;
  }

  // ---- the operations -----------------------------------------------------

  /** The slot alloc_pid takes, or 16. */
  function FreeSlot(ts: seq<Task>): (i: nat)
    ensures i <= |ts|
    ensures i < |ts| ==> ts[i].state == DEAD
    ensures forall k :: 0 <= k < i ==> ts[k].state != DEAD
  {
    if ts == [] || ts[0].state == DEAD then 0 else 1 + FreeSlot(ts[1..])
  }

  /** The pid is assigned before the parent is read, so a task that is created
      in the current slot becomes its own parent. */
  function ParentPid(s: Sched, i: Slot): int {
    if i == s.cur then s.nextPid else s.tasks[s.cur].pid
  }

  function Create(s: Sched, priority: int): (r: (Sched, int)) {
    var i := FreeSlot(s.tasks);
    if s.num >= MAX_TASKS || i == MAX_TASKS then (s, -1)
    else
      var t := Task(s.nextPid, READY, s.tasks[i].exitCode, ParentPid(s, i), if priority > 0 then priority else 1);
      (s.(tasks := s.tasks[i := t], num := s.num + 1, nextPid := s.nextPid + 1), s.nextPid)
  }

  /** proc_create_user: when no page is left for the stack the slot stays READY
      but uncounted. */
  function CreateUser(s: Sched, page: bool): (r: (Sched, int)) {
    var i := FreeSlot(s.tasks);
    if s.num >= MAX_TASKS || i == MAX_TASKS then (s, -1)
    else
      var t := Task(s.nextPid, READY, s.tasks[i].exitCode, ParentPid(s, i), 1);
      var a := s.(tasks := s.tasks[i := t], nextPid := s.nextPid + 1);
      if page then (a.(num := s.num + 1), s.nextPid) else (a, -1)
  }

  /** proc_exit.  The pid is cleared before the children are compared with it,
      so no parent link changes; with nobody runnable the machine halts. */
  function Exit(s: Sched, code: int): Sched {
    var gone := s.tasks[s.cur].(exitCode := code, state := ZOMBIE, pid := -1);
    var ts := s.tasks[s.cur := gone];
    var f := FirstFrom(ts, s.cur, 1);
    if f == MAX_TASKS then s.(tasks := ts, num := s.num - 1)
    else
      var c := Cand(s.cur, f);
      s.(tasks := ts[c := ts[c].(state := RUNNING)], num := s.num - 1, cur := c)
  }

  /** The task a pid names: the first slot with it that is not DEAD, or 16. */
  function Target(ts: seq<Task>, pid: int): (i: nat)
    ensures i <= |ts|
    ensures i < |ts| ==> ts[i].pid == pid && ts[i].state != DEAD
    ensures forall k :: 0 <= k < i ==> !(ts[k].pid == pid && ts[k].state != DEAD)
  {
    if ts == [] || (ts[0].pid == pid && ts[0].state != DEAD) then 0 else 1 + Target(ts[1..], pid)
  }

  function Kill(s: Sched, pid: int): (r: (Sched, int)) {
    var i := Target(s.tasks, pid);
    if pid <= 0 || i == MAX_TASKS then (s, -1)
    else if i == s.cur then (Exit(s, -1), 0)
    else (s.(tasks := s.tasks[i := s.tasks[i].(state := ZOMBIE, exitCode := -1)], num := s.num - 1), 0)
  }

  function Orphan(ts: seq<Task>, parent: int): (i: nat)
    ensures i <= |ts|
    ensures i < |ts| ==> ts[i].parent == parent && ts[i].state == ZOMBIE
    ensures forall k :: 0 <= k < i ==> !(ts[k].parent == parent && ts[k].state == ZOMBIE)
  {
    if ts == [] || (ts[0].parent == parent && ts[0].state == ZOMBIE) then 0 else 1 + Orphan(ts[1..], parent)
  }

  /** proc_wait: collect one zombie child; its pid field and exit code, or -1. */
  function Wait(s: Sched): (r: (Sched, int, int)) {
    var i := Orphan(s.tasks, s.tasks[s.cur].pid);
    if i == MAX_TASKS then (s, -1, 0)
    else (s.(tasks := s.tasks[i := s.tasks[i].(state := DEAD)]), s.tasks[i].pid, s.tasks[i].exitCode)
  }

  function Reaped(ts: seq<Task>): (r: seq<Task>)
    ensures |r| == |ts|
    ensures forall i :: 0 <= i < |ts| ==> r[i] == if ts[i].state == ZOMBIE then ts[i].(state := DEAD) else ts[i]
  {
    seq(|ts|, i requires 0 <= i < |ts| => if ts[i].state == ZOMBIE then ts[i].(state := DEAD) else ts[i])
  }

  function Reap(s: Sched): Sched {
    s.(tasks := Reaped(s.tasks))
  }

  /** schedule: the running task becomes READY and the chosen one RUNNING. */
  function Schedule(s: Sched): Sched {
    if s.num <= 1 then s
    else
      var me := s.tasks[s.cur];
      var ts := if me.state == RUNNING then s.tasks[s.cur := me.(state := READY)] else s.tasks;
      var k := Pick(ts, s.cur);
      if k == 0 then s.(tasks := ts)
      else
        var c := Cand(s.cur, k);
        s.(tasks := ts[c := ts[c].(state := RUNNING)], cur := c)
  }

  // ---- what they keep -----------------------------------------------------

  lemma CreateKeeps(s: Sched, priority: int)
    requires TaskOk(s)
    ensures TaskOk(Create(s, priority).0)
    ensures Create(s, priority).1 != -1 ==> forall i :: 0 <= i < MAX_TASKS ==> s.tasks[i].pid != Create(s, priority).1
  {
    hide CountLive;
    var i := FreeSlot(s.tasks);
    if i < MAX_TASKS {
      CountUpdate(s.tasks, i, Create(s, priority).0.tasks[i]);
    }
  }

  /** Creating a user task keeps the table sound exactly when it found a page or
      changed nothing. */
  lemma CreateUserKeepsIff(s: Sched, page: bool)
    requires TaskOk(s)
    ensures TaskOk(CreateUser(s, page).0) <==> page || s.num >= MAX_TASKS || FreeSlot(s.tasks) == MAX_TASKS
  {
    hide CountLive;
    var i := FreeSlot(s.tasks);
    if i < MAX_TASKS {
      CountUpdate(s.tasks, i, Task(s.nextPid, READY, s.tasks[i].exitCode, ParentPid(s, i), 1));
    }
  }

  lemma SwitchKeeps(s: Sched, ts: Table, c: Slot, num: int)
    requires TaskOk(s.(tasks := ts, num := num)) && Runnable(ts[c])
    requires forall i :: 0 <= i < MAX_TASKS ==> ts[i].state != RUNNING
    ensures TaskOk(s.(tasks := ts[c := ts[c].(state := RUNNING)], cur := c, num := num))
  {
    hide CountLive;
    CountUpdate(ts, c, ts[c].(state := RUNNING));
  }

  /** Exit keeps the table sound exactly when the exiting task was counted. */
  lemma ExitKeepsIff(s: Sched, code: int)
    requires TaskOk(s)
    ensures TaskOk(Exit(s, code)) <==> Counted(s.tasks[s.cur])
  {
    hide CountLive, FirstFrom, Cand;
    var gone := s.tasks[s.cur].(exitCode := code, state := ZOMBIE, pid := -1);
    var ts := s.tasks[s.cur := gone];
    CountUpdate(s.tasks, s.cur, gone);
    var f := FirstFrom(ts, s.cur, 1);
    if f < MAX_TASKS {
      var c := Cand(s.cur, f);
      CountUpdate(ts, c, ts[c].(state := RUNNING));
      if Counted(s.tasks[s.cur]) {
        SwitchKeeps(s, ts, c, s.num - 1);
      }
    }
  }

  /** Kill keeps the table sound exactly when its target is not a zombie: a
      second kill decrements the counter again. */
  lemma KillKeepsIff(s: Sched, pid: int)
    requires TaskOk(s)
    ensures var i := Target(s.tasks, pid);
            TaskOk(Kill(s, pid).0) <==> pid <= 0 || i == MAX_TASKS || s.tasks[i].state != ZOMBIE
  {
    hide CountLive, Exit;
    var i := Target(s.tasks, pid);
    if pid > 0 && i < MAX_TASKS {
      if i == s.cur {
        ExitKeepsIff(s, -1);
      } else {
        CountUpdate(s.tasks, i, s.tasks[i].(state := ZOMBIE, exitCode := -1));
      }
    }
  }

  lemma WaitKeeps(s: Sched)
    requires TaskOk(s)
    ensures TaskOk(Wait(s).0)
  {
    hide CountLive;
    var i := Orphan(s.tasks, s.tasks[s.cur].pid);
    if i < MAX_TASKS {
      CountUpdate(s.tasks, i, s.tasks[i].(state := DEAD));
    }
  }

  lemma {:induction false} ReapedCount(ts: seq<Task>)
    ensures CountLive(Reaped(ts)) == CountLive(ts)
  {
    if ts != [] {
      ReapedCount(ts[..|ts| - 1]);
      assert Reaped(ts)[..|ts| - 1] == Reaped(ts[..|ts| - 1]);
    }
  }

  lemma ReapKeeps(s: Sched)
    requires TaskOk(s)
    ensures TaskOk(Reap(s))
  {
    ReapedCount(s.tasks);
    hide CountLive;
  }

  lemma ScheduleKeeps(s: Sched)
    requires TaskOk(s)
    ensures TaskOk(Schedule(s))
  {
    hide CountLive, Pick, Cand;
    var me := s.tasks[s.cur];
    var ts := if me.state == RUNNING then s.tasks[s.cur := me.(state := READY)] else s.tasks;
    CountUpdate(s.tasks, s.cur, me.(state := READY));
    PickIsRight(ts, s.cur);
    var k := Pick(ts, s.cur);
    if k != 0 {
      PickRunnable(ts, s.cur);
      SwitchKeeps(s, ts, Cand(s.cur, k), s.num);
    }
  }

  lemma PickRunnable(ts: Table, cur: Slot)
    ensures Pick(ts, cur) != 0 ==> Ready(ts, cur, Pick(ts, cur))
  {
    BestFromSpec(ts, cur, 1, 0);
    hide BestFrom, FirstFrom;
  }

  // ---- every run ----------------------------------------------------------

  datatype Op =
    | Make(priority: int)
    | MakeUser(page: bool)
    | StartShell
    | Quit(code: int)
    | KillPid(pid: int)
    | Collect
    | ReapAll
    | Tick

  /** The boot code makes the second task the running one by hand. */
  function Start(s: Sched): Sched {
    s.(cur := 1, tasks := s.tasks[1 := s.tasks[1].(state := RUNNING)])
  }

  /** One call: a user task gets its stack page if a slot is taken for it, exit is
      made by a live current task, kill names no zombie. */
  predicate Allowed(s: Sched, op: Op) {
    match op
    case MakeUser(page) => page || s.num >= MAX_TASKS || FreeSlot(s.tasks) == MAX_TASKS
    case StartShell => s.tasks[1].state == READY && forall i :: 0 <= i < MAX_TASKS ==> s.tasks[i].state != RUNNING
    case Quit(_) => Counted(s.tasks[s.cur])
    case KillPid(pid) => var i := Target(s.tasks, pid); i == MAX_TASKS || s.tasks[i].state != ZOMBIE
    case _ => true
  }

  function Apply(s: Sched, op: Op): Sched {
    match op
    case Make(p) => Create(s, p).0
    case MakeUser(page) => CreateUser(s, page).0
    case StartShell => Start(s)
    case Quit(c) => Exit(s, c)
    case KillPid(pid) => Kill(s, pid).0
    case Collect => Wait(s).0
    case ReapAll => Reap(s)
    case Tick => Schedule(s)
  }

  function Boot(): Sched {
    Sched(seq<Task>(16, _ => EMPTY), 0, 0, 1)
  }

  /** The empty table, and the first task in it: slot 0, pid 1. */
  lemma FirstTask(priority: int)
    ensures var b := Boot();
            && b.cur == 0 && b.num == 0
            && (forall i :: 0 <= i < MAX_TASKS ==> b.tasks[i].state == DEAD && b.tasks[i].pid == -1)
            && Create(b, priority).1 == 1 && Create(b, priority).0.tasks[0].pid == 1
  {
    assert Boot().tasks[0].state == DEAD;
  }

  ghost predicate IsRun(states: seq<Sched>, ops: seq<Op>) {
    && |states| == |ops| + 1 && states[0] == Boot()
    && forall k :: 0 <= k < |ops| ==> Allowed(states[k], ops[k]) && states[k + 1] == Apply(states[k], ops[k])
  }

  /** The second task becomes the current, running one; nothing else changes. */
  lemma StartKeeps(s: Sched)
    requires TaskOk(s) && Allowed(s, StartShell)
    ensures TaskOk(Start(s))
    ensures var t := Start(s);
            && t.cur == 1 && t.num == s.num && t.nextPid == s.nextPid
            && t.tasks[1] == s.tasks[1].(state := RUNNING)
            && forall i :: 0 <= i < MAX_TASKS && i != 1 ==> t.tasks[i] == s.tasks[i]
  {
    SwitchKeeps(s, s.tasks, 1, s.num);
  }

  lemma {:induction false} NoneLive(ts: seq<Task>)
    requires forall i :: 0 <= i < |ts| ==> !Counted(ts[i])
    ensures CountLive(ts) == 0
  {
    if ts != [] {
      NoneLive(ts[..|ts| - 1]);
    }
  }

  lemma ApplyKeeps(s: Sched, op: Op)
    requires TaskOk(s) && Allowed(s, op)
    ensures TaskOk(Apply(s, op))
  {
    hide TaskOk, Create, CreateUser, Exit, Kill, Wait, Reap, Schedule;
    match op
    case Make(p) => CreateKeeps(s, p);
    case MakeUser(page) => CreateUserKeepsIff(s, page);
    case StartShell => StartKeeps(s);
    case Quit(c) => ExitKeepsIff(s, c);
    case KillPid(pid) => KillKeepsIff(s, pid);
    case Collect => WaitKeeps(s);
    case ReapAll => ReapKeeps(s);
    case Tick => ScheduleKeeps(s);
  }

  /** Over every run from boot the task table stays sound. */
  lemma {:induction false} RunKeepsTable(states: seq<Sched>, ops: seq<Op>)
    requires IsRun(states, ops)
    ensures TaskOk(states[|ops|])
  {
    if ops == [] {
      NoneLive(Boot().tasks);
    } else {
      hide TaskOk, Apply, Allowed;
      var n := |ops| - 1;
      RunKeepsTable(states[..n + 1], ops[..n]);
      assert Allowed(states[n], ops[n]) && states[n + 1] == Apply(states[n], ops[n]);
      ApplyKeeps(states[n], ops[n]);
    }
  }

  // ---- waiting ------------------------------------------------------------

  /** The call hands the processor over if another task can run. */
  predicate Switches(s: Sched, op: Op) {
    match op
    case Tick => s.num > 1
    case Quit(_) => true
    case KillPid(pid) => pid > 0 && Target(s.tasks, pid) == s.cur
    case _ => false
  }

  function SwitchCount(states: seq<Sched>, ops: seq<Op>): nat
    requires |states| == |ops| + 1
  {
    if ops == [] then 0 else SwitchCount(states[1..], ops[1..]) + if Switches(states[0], ops[0]) then 1 else 0
  }

  ghost predicate EqualAndRunnable(s: Sched, t: Slot) {
    && Runnable(s.tasks[t])
    && forall i :: 0 <= i < MAX_TASKS && Runnable(s.tasks[i]) ==> s.tasks[i].priority == s.tasks[t].priority
  }

  /** Any calls from any state, as long as t stays runnable and the runnable
      tasks have equal priorities. */
  ghost predicate FairRun(states: seq<Sched>, ops: seq<Op>, t: Slot) {
    && |states| == |ops| + 1
    && forall k :: 0 <= k < |ops| ==>
         EqualAndRunnable(states[k], t) && ops[k] != StartShell && states[k + 1] == Apply(states[k], ops[k])
  }

  lemma TickComesCloser(s: Sched, t: Slot)
    requires EqualAndRunnable(s, t) && s.cur != t && s.num > 1
    ensures Distance(Schedule(s).cur, t) < Distance(s.cur, t)
  {
    hide Pick, Distance;
    var me := s.tasks[s.cur];
    var ts := if me.state == RUNNING then s.tasks[s.cur := me.(state := READY)] else s.tasks;
    TurnComesCloser(ts, s.cur, t);
    assert Cand(s.cur, 0) == s.cur;
  }

  lemma ExitComesCloser(s: Sched, code: int, t: Slot)
    requires EqualAndRunnable(s, t) && s.cur != t
    ensures Distance(Exit(s, code).cur, t) < Distance(s.cur, t)
  {
    hide Pick, Distance, FirstFrom;
    var ts := s.tasks[s.cur := s.tasks[s.cur].(exitCode := code, state := ZOMBIE, pid := -1)];
    TurnComesCloser(ts, s.cur, t);
    EqualPrioritiesRoundRobin(ts, s.cur);
    assert Cand(s.cur, 0) == s.cur;
  }

  lemma StepComesCloser(s: Sched, op: Op, t: Slot)
    requires EqualAndRunnable(s, t) && s.cur != t && op != StartShell
    ensures Distance(Apply(s, op).cur, t) + (if Switches(s, op) then 1 else 0) <= Distance(s.cur, t)
  {
    hide Pick, Distance, Exit, EqualAndRunnable;
    match op
    case Tick =>
      if s.num > 1 {
        hide Schedule;
        TickComesCloser(s, t);
      }
    case Quit(code) => ExitComesCloser(s, code, t);
    case KillPid(pid) => ExitComesCloser(s, -1, t);
    case _ =>
  }

  /** With equal priorities a task that stays runnable becomes current within as
      many switches as it is places away, hence within MAX_TASKS - 1, whatever
      is created, exits, is killed, collected or reaped meanwhile. */
  lemma {:induction false} BoundedWaiting(states: seq<Sched>, ops: seq<Op>, t: Slot)
    requires FairRun(states, ops, t) && Distance(states[0].cur, t) <= SwitchCount(states, ops)
    ensures exists k :: 0 <= k < |states| && states[k].cur == t
    decreases |ops|
  {
    hide Apply, Switches, EqualAndRunnable, Distance;
    DistanceBound(states[0].cur, t);
    if states[0].cur != t {
      StepComesCloser(states[0], ops[0], t);
      assert states[1] == Apply(states[0], ops[0]);
      BoundedWaiting(states[1..], ops[1..], t);
      var k :| 0 <= k < |states[1..]| && states[1..][k].cur == t;
      assert states[k + 1].cur == t;
    }
  }

  // ---- handing over -------------------------------------------------------

  /** Exit leaves a zombie with the code, touches only the task it hands over
      to, and takes the next runnable one whatever its priority. */
  lemma ExitHandsOver(s: Sched, code: int)
    ensures var e := Exit(s, code);
            && e.num == s.num - 1 && e.nextPid == s.nextPid
            && e.tasks[s.cur] == s.tasks[s.cur].(state := ZOMBIE, exitCode := code, pid := -1)
            && (forall i :: 0 <= i < MAX_TASKS && i != s.cur && i != e.cur ==> e.tasks[i] == s.tasks[i])
            && (e.cur == s.cur <==> forall i :: 1 <= i < MAX_TASKS ==> !Ready(s.tasks, s.cur, i))
            && (e.cur != s.cur ==>
                  && e.tasks[e.cur] == s.tasks[e.cur].(state := RUNNING)
                  && Ready(s.tasks, s.cur, Distance(s.cur, e.cur))
                  && forall i :: 1 <= i < Distance(s.cur, e.cur) ==> !Ready(s.tasks, s.cur, i))
  {
    hide FirstFrom, Distance, Cand;
    var ts := s.tasks[s.cur := s.tasks[s.cur].(exitCode := code, state := ZOMBIE, pid := -1)];
    var f := FirstFrom(ts, s.cur, 1);
    forall i | 1 <= i < MAX_TASKS ensures Ready(s.tasks, s.cur, i) <==> Runnable(ts[Cand(s.cur, i)]) {
      PlaceOf(s.cur, i);
    }
    if f < MAX_TASKS {
      PlaceOf(s.cur, f);
    }
  }

  lemma PlaceOf(cur: Slot, i: nat)
    requires 1 <= i < MAX_TASKS
    ensures Cand(cur, i) != cur && Distance(cur, Cand(cur, i)) == i
  {
    assert Cand(cur, i) == if cur + i < 16 then cur + i else cur + i - 16;
  }

  // ---- what the calls do, slot by slot ------------------------------------

  /** Slot i was the lowest dead one and holds a new READY task; no other slot
      changed.  A task made in the current slot becomes its own parent. */
  predicate SlotTaken(s: Sched, c: Sched, i: Slot, pid: int, priority: int) {
    && s.tasks[i].state == DEAD && (forall j :: 0 <= j < i ==> s.tasks[j].state != DEAD)
    && pid == s.nextPid && c.nextPid == pid + 1
    && c.tasks[i].pid == pid && c.tasks[i].state == READY && c.tasks[i].exitCode == s.tasks[i].exitCode
    && c.tasks[i].priority == priority
    && c.tasks[i].parent == (if i == s.cur then pid else s.tasks[s.cur].pid)
    && c.cur == s.cur && forall j :: 0 <= j < MAX_TASKS && j != i ==> c.tasks[j] == s.tasks[j]
  }

  predicate Room(s: Sched) {
    s.num < MAX_TASKS && exists i :: 0 <= i < MAX_TASKS && s.tasks[i].state == DEAD
  }

  /** Creation succeeds exactly when the counter allows it and a slot is dead. */
  lemma CreateAdds(s: Sched, priority: int)
    requires TaskOk(s)
    ensures var (c, pid) := Create(s, priority);
            var prio := if priority > 0 then priority else 1;
            && (pid != -1 <==> Room(s))
            && (pid == -1 ==> c == s)
            && (pid != -1 ==>
                  && c.num == s.num + 1
                  && exists i: Slot :: SlotTaken(s, c, i, pid, prio))
  {
    hide FreeSlot, CountLive;
    var i := FreeSlot(s.tasks);
    if s.num < MAX_TASKS && i < MAX_TASKS {
      var (c, pid) := Create(s, priority);
      assert SlotTaken(s, c, i, pid, if priority > 0 then priority else 1);
    }
  }

  /** A user task is made exactly when there is room and a page was found; it has
      priority 1 and is counted.  Without a page the slot is taken all the same,
      but nobody counts it and no pid is returned. */
  lemma CreateUserAdds(s: Sched, page: bool)
    requires TaskOk(s)
    ensures var (c, pid) := CreateUser(s, page);
            && (pid != -1 <==> Room(s) && page)
            && (!Room(s) ==> c == s)
            && (Room(s) ==>
                  && c.num == s.num + (if page then 1 else 0) && (page ==> pid == s.nextPid)
                  && exists i: Slot :: SlotTaken(s, c, i, s.nextPid, 1))
  {
    hide FreeSlot, CountLive;
    var i := FreeSlot(s.tasks);
    if s.num < MAX_TASKS && i < MAX_TASKS {
      assert SlotTaken(s, CreateUser(s, page).0, i, s.nextPid, 1);
    }
  }

  /** The lowest slot, not dead, that the pid names. */
  predicate Named(s: Sched, pid: int, i: Slot) {
    && pid > 0 && s.tasks[i].pid == pid && s.tasks[i].state != DEAD
    && forall j :: 0 <= j < i ==> !(s.tasks[j].pid == pid && s.tasks[j].state != DEAD)
  }

  /** Kill returns 0 exactly when the pid names a task; that one becomes a zombie
      with code -1 and is no longer counted, and no other slot changes, unless it
      is the current one, which exits. */
  lemma KillEnds(s: Sched, pid: int)
    ensures var (c, r) := Kill(s, pid);
            && (r == 0 <==> exists i: Slot :: Named(s, pid, i))
            && (r != 0 ==> r == -1 && c == s)
            && forall i: Slot :: Named(s, pid, i) ==>
                 if i == s.cur then c == Exit(s, -1)
                 else
                   && c.num == s.num - 1 && c.cur == s.cur && c.nextPid == s.nextPid
                   && c.tasks[i] == s.tasks[i].(state := ZOMBIE, exitCode := -1)
                   && forall j :: 0 <= j < MAX_TASKS && j != i ==> c.tasks[j] == s.tasks[j]
  {
    hide Target, Exit;
    var t := Target(s.tasks, pid);
    if pid > 0 && t < MAX_TASKS {
      assert Named(s, pid, t);
    }
    forall i: Slot | Named(s, pid, i) ensures i == t {
      assert !(t < i) && !(i < t);
    }
  }

  /** Reaping turns every zombie into a dead slot and does nothing else. */
  lemma ReapFrees(s: Sched)
    ensures var c := Reap(s);
            && c.cur == s.cur && c.num == s.num && c.nextPid == s.nextPid
            && forall i: Slot ::
                 && c.tasks[i].state != ZOMBIE
                 && (s.tasks[i].state != ZOMBIE ==> c.tasks[i] == s.tasks[i])
                 && (s.tasks[i].state == ZOMBIE ==> c.tasks[i] == s.tasks[i].(state := DEAD))
  {
  }

  /** A tick with more than one live task switches to the task the choice
      demands: at once RUNNING, the old one READY if it was RUNNING, all others
      untouched; it stays put exactly when no other task can run.  With at most
      one live task it does nothing. */
  lemma ScheduleIsRight(s: Sched)
    ensures s.num <= 1 ==> Schedule(s) == s
    ensures s.num > 1 ==>
            var t := Schedule(s);
            var k := Distance(s.cur, t.cur);
            && t.num == s.num && t.nextPid == s.nextPid
            && (t.cur == s.cur <==> forall i :: 1 <= i < MAX_TASKS ==> !Ready(s.tasks, s.cur, i))
            && ((exists i :: Ready(s.tasks, s.cur, i) && Prio(s.tasks, s.cur, i) >= s.tasks[s.cur].priority) ==>
                  FirstBest(s.tasks, s.cur, MAX_TASKS, k))
            && ((exists i :: Ready(s.tasks, s.cur, i)) && (forall i :: Ready(s.tasks, s.cur, i) ==>
                Prio(s.tasks, s.cur, i) < s.tasks[s.cur].priority) ==>
                  Ready(s.tasks, s.cur, k) && forall i :: 1 <= i < k ==> !Ready(s.tasks, s.cur, i))
            && (forall i :: 0 <= i < MAX_TASKS && i != s.cur && i != t.cur ==> t.tasks[i] == s.tasks[i])
            && (t.cur != s.cur ==> t.tasks[t.cur] == s.tasks[t.cur].(state := RUNNING))
            && var me := s.tasks[s.cur];
               t.tasks[s.cur] == if me.state == RUNNING then me.(state := READY) else me
  {
    hide Pick, Distance, Cand;
    var me := s.tasks[s.cur];
    var ts := if me.state == RUNNING then s.tasks[s.cur := me.(state := READY)] else s.tasks;
    forall i | 1 <= i < MAX_TASKS ensures ts[Cand(s.cur, i)] == s.tasks[Cand(s.cur, i)] {
      PlaceOf(s.cur, i);
    }
    PickIsRight(ts, s.cur);
    PickRunnable(ts, s.cur);
    SamePlaces(s.tasks, ts, s.cur);
    var k := Pick(ts, s.cur);
    if k != 0 {
      PlaceOf(s.cur, k);
    }
  }

  /** Ready places and their priorities do not depend on the current slot's state. */
  lemma SamePlaces(ts: Table, us: Table, cur: Slot)
    requires us[cur].priority == ts[cur].priority
    requires forall i :: 1 <= i < MAX_TASKS ==> us[Cand(cur, i)] == ts[Cand(cur, i)]
    ensures forall i :: Ready(us, cur, i) <==> Ready(ts, cur, i)
    ensures forall i :: 1 <= i < MAX_TASKS ==> Prio(us, cur, i) == Prio(ts, cur, i)
    ensures forall k :: FirstBest(us, cur, MAX_TASKS, k) <==> FirstBest(ts, cur, MAX_TASKS, k)
  {
    hide Cand;
  }
}
