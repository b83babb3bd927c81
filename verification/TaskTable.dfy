/** process.c as it runs: the array of task slots, the current slot, the task
    counter and the pid counter, updated in place. */
module TaskTable {
  import opened Tasks

  lemma FirstStep(ts: Table, cur: Slot, i: nat)
    requires i <= MAX_TASKS
    ensures FirstFrom(ts, cur, i) ==
            if i == MAX_TASKS || Runnable(ts[Cand(cur, i)]) then i else FirstFrom(ts, cur, i + 1)
  {
  }

  class Kernel {
    const tasks: array<Task>
    var cur: Slot
    var num: int
    var nextPid: int

    ghost predicate Valid()
      reads this
    {
      tasks.Length == 16
    }

    ghost function View(): Sched
      reads this, tasks
      requires Valid()
    {
      Sched(tasks[..], cur, num, nextPid)
    }

    /** proc_init */
    constructor ()
      ensures Valid() && View() == Tasks.Boot() && fresh(tasks)
    {
      tasks := new Task[16](_ => EMPTY);
      cur, num, nextPid := 0, 0, 1;
      new;
      assert tasks[..] == Tasks.Boot().tasks;
    }

    method AllocPid() returns (slot: int)
      requires Valid()
      modifies this`nextPid, tasks
      ensures Valid()
      ensures var i := FreeSlot(old(tasks[..]));
              && slot == (if i == MAX_TASKS then -1 else i)
              && nextPid == old(nextPid) + (if i == MAX_TASKS then 0 else 1)
              && tasks[..] == (if i == MAX_TASKS then old(tasks[..])
                  else old(tasks[..])[i := old(tasks[i]).(pid := old(nextPid))])
    {
      for i := 0 to MAX_TASKS
        invariant Valid() && tasks[..] == old(tasks[..]) && nextPid == old(nextPid)
        invariant forall k :: 0 <= k < i ==> tasks[k].state != DEAD
      {
        if tasks[i].state == DEAD {
          tasks[i] := tasks[i].(pid := nextPid);
          nextPid := nextPid + 1;
          return i;
        }
      }
      return -1;
    }

    method Create(priority: int) returns (pid: int)
      requires Valid()
      modifies this, tasks
      ensures Valid() && (View(), pid) == Tasks.Create(old(View()), priority)
    {
      hide FreeSlot;
      if num >= MAX_TASKS { return -1; }
      var i := AllocPid();
      if i < 0 { return -1; }
      tasks[i] := tasks[i].(state := READY, priority := if priority > 0 then priority else 1);
      tasks[i] := tasks[i].(parent := tasks[cur].pid);
      num := num + 1;
      assert tasks[..] == Tasks.Create(old(View()), priority).0.tasks;
      return tasks[i].pid;
    }

    /** proc_create_user; page says whether a page was left for the stack. */
    method CreateUser(page: bool) returns (pid: int)
      requires Valid()
      modifies this, tasks
      ensures Valid() && (View(), pid) == Tasks.CreateUser(old(View()), page)
    {
      hide FreeSlot;
      if num >= MAX_TASKS { return -1; }
      var i := AllocPid();
      if i < 0 { return -1; }
      tasks[i] := tasks[i].(state := READY);
      tasks[i] := tasks[i].(parent := tasks[cur].pid);
      tasks[i] := tasks[i].(priority := 1);
      assert tasks[..] == Tasks.CreateUser(old(View()), page).0.tasks;
      if !page { return -1; }
      num := num + 1;
      return tasks[i].pid;
    }

    method Exit(code: int)
      requires Valid()
      modifies this, tasks
      ensures Valid() && View() == Tasks.Exit(old(View()), code)
    {
      hide FirstFrom;
      tasks[cur] := tasks[cur].(exitCode := code, state := ZOMBIE, pid := -1);
      num := num - 1;
      ghost var ts: Table := tasks[..];
      var i := 1;
      while i < MAX_TASKS
        invariant 1 <= i <= MAX_TASKS && Valid() && tasks[..] == ts && cur == old(cur) && num == old(num) - 1
        invariant nextPid == old(nextPid)
        invariant FirstFrom(ts, cur, 1) == FirstFrom(ts, cur, i)
      {
        var next := (cur + i) % MAX_TASKS;
        FirstStep(ts, cur, i);
        if tasks[next].state == READY || tasks[next].state == RUNNING {
          tasks[next] := tasks[next].(state := RUNNING);
          cur := next;
          return;
        }
        i := i + 1;
      }
      FirstStep(ts, cur, i);
    }

    method Kill(pid: int) returns (r: int)
      requires Valid()
      modifies this, tasks
      ensures Valid() && (View(), r) == Tasks.Kill(old(View()), pid)
    {
      hide Tasks.Exit;
      if pid <= 0 { return -1; }
      for i := 0 to MAX_TASKS
        invariant Valid() && View() == old(View())
        invariant forall k :: 0 <= k < i ==> !(tasks[k].pid == pid && tasks[k].state != DEAD)
      {
        if tasks[i].pid == pid && tasks[i].state != DEAD {
          assert Target(View().tasks, pid) == i;
          if i == cur {
            Exit(-1);
            return 0;
          }
          tasks[i] := tasks[i].(state := ZOMBIE);
          tasks[i] := tasks[i].(exitCode := -1);
          num := num - 1;
          assert tasks[..] == Tasks.Kill(old(View()), pid).0.tasks;
          return 0;
        }
      }
      return -1;
    }

    method Wait() returns (pid: int, status: int)
      requires Valid()
      modifies tasks
      ensures Valid() && (View(), pid, status) == Tasks.Wait(old(View()))
    {
      for i := 0 to MAX_TASKS
        invariant Valid() && View() == old(View())
        invariant forall k :: 0 <= k < i ==> !(tasks[k].parent == tasks[cur].pid && tasks[k].state == ZOMBIE)
      {
        if tasks[i].parent == tasks[cur].pid && tasks[i].state == ZOMBIE {
          assert Orphan(View().tasks, tasks[cur].pid) == i;
          status := tasks[i].exitCode;
          tasks[i] := tasks[i].(state := DEAD);
          return tasks[i].pid, status;
        }
      }
      return -1, 0;
    }

    method Reap()
      requires Valid()
      modifies tasks
      ensures Valid() && View() == Tasks.Reap(old(View()))
    {
      ghost var done := Reaped(tasks[..]);
      for i := 0 to MAX_TASKS
        invariant forall k :: 0 <= k < MAX_TASKS ==> tasks[k] == if k < i then done[k] else old(tasks[k])
      {
        if tasks[i].state == ZOMBIE {
          tasks[i] := tasks[i].(state := DEAD);
        }
      }
      assert tasks[..] == done;
    }

    /** The timer tick: both passes of the choice, then the switch. */
    method Schedule()
      requires Valid()
      modifies this, tasks
      ensures Valid() && View() == Tasks.Schedule(old(View()))
    {
      hide BestFrom, FirstFrom;
      if num <= 1 { return; }
      if tasks[cur].state == RUNNING {
        tasks[cur] := tasks[cur].(state := READY);
      }
      var k := ChooseBest();
      if k == 0 {
        k := ChooseFirst();
      }
      if k == 0 { return; }
      cur := (cur + k) % MAX_TASKS;
      tasks[cur] := tasks[cur].(state := RUNNING);
    }

    method ChooseBest() returns (best: nat)
      requires Valid()
      ensures best == BestFrom(tasks[..], cur, 1, 0) && best < MAX_TASKS
    {
      best := 0;
      var i := 1;
      while i < MAX_TASKS
        invariant 1 <= i <= MAX_TASKS && best < i
        invariant BestFrom(tasks[..], cur, 1, 0) == BestFrom(tasks[..], cur, i, best)
      {
        var c, b := tasks[(cur + i) % MAX_TASKS], tasks[(cur + best) % MAX_TASKS];
        if (c.state == READY || c.state == RUNNING) && c.priority >= b.priority {
          if best == 0 || c.priority > b.priority {
            best := i;
          }
        }
        i := i + 1;
      }
    }

    method ChooseFirst() returns (k: nat)
      requires Valid()
      ensures k == if FirstFrom(tasks[..], cur, 1) == MAX_TASKS then 0 else FirstFrom(tasks[..], cur, 1)
    {
      var i := 1;
      while i < MAX_TASKS
        invariant 1 <= i <= MAX_TASKS
        invariant FirstFrom(tasks[..], cur, 1) == FirstFrom(tasks[..], cur, i)
      {
        var c := tasks[(cur + i) % MAX_TASKS];
        if c.state == READY || c.state == RUNNING { return i; }
        i := i + 1;
      }
      k := 0;
    }
  }
}
