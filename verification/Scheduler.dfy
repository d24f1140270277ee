/** The ring of tasks and the choice of the next one to run. */
module Scheduler {
  import opened Bytes

  datatype State = Running | Sleeping | Zombie

  /** What the scheduler looks at in one task. */
  datatype Cell = Cell(pid: int, state: State, wakeup: u32)
  {
    predicate Due(now: u32) { state.Sleeping? && now >= wakeup }

    /** After the walk has passed the task. */
    function Passed(now: u32): Cell { if Due(now) then this.(state := Running) else this }
  }

  /** The least index from `k` on whose task is running, or the number of tasks. */
  function FirstRunning(view: seq<Cell>, k: nat): (r: nat)
    requires k <= |view|
    ensures k <= r <= |view| && (r < |view| ==> view[r].state.Running?)
    ensures forall i :: k <= i < r ==> !view[i].state.Running?
    decreases |view| - k
  {
    if k == |view| || view[k].state.Running? then k else FirstRunning(view, k + 1)
  }

  function FirstDue(view: seq<Cell>, now: u32, k: nat): (r: nat)
    requires k <= |view|
    ensures k <= r <= |view| && (r < |view| ==> view[r].Due(now))
    ensures forall i :: k <= i < r ==> !view[i].Due(now)
    decreases |view| - k
  {
    if k == |view| || view[k].Due(now) then k else FirstDue(view, now, k + 1)
  }

  /** The task runs, or it sleeps and its time has come. */
  predicate Able(c: Cell, now: u32) { c.state == Running || (c.state == Sleeping && now >= c.wakeup) }

  /** Somebody can run: the condition under which a search for a task ends. */
  predicate CanRun(view: seq<Cell>, now: u32) { exists i :: 0 <= i < |view| && Able(view[i], now) }

  lemma CanRunIs(view: seq<Cell>, now: u32)
    ensures CanRun(view, now) <==> FirstRunning(view, 0) < |view| || FirstDue(view, now, 0) < |view|
  {
    if FirstRunning(view, 0) < |view| { assert Able(view[FirstRunning(view, 0)], now); }
    if FirstDue(view, now, 0) < |view| { assert Able(view[FirstDue(view, now, 0)], now); }
  }

  /** The choice, with the ring read from the task after the current one: the first task
      already running, else the first sleeper that is due. */
  function Pick(view: seq<Cell>, now: u32): (r: nat)
    requires CanRun(view, now)
    ensures r < |view|
  {
    CanRunIs(view, now);
    if FirstRunning(view, 0) < |view| then FirstRunning(view, 0) else FirstDue(view, now, 0)
  }

  /** The first `n` tasks are not running. */
  predicate NoneRunning(view: seq<Cell>, n: int) { forall i :: 0 <= i < n && i < |view| ==> view[i].state != Running }

  /** The rule of choice, said of the tasks' fields: `p` is the first that runs; where none does, the first
      that sleeps and whose time has come. */
  ghost predicate Chosen(view: seq<Cell>, now: u32, p: int) {
    && 0 <= p < |view|
    && if !NoneRunning(view, |view|) then view[p].state == Running && NoneRunning(view, p)
       else
         && view[p].state == Sleeping && now >= view[p].wakeup
         && forall i :: 0 <= i < p && view[i].state == Sleeping ==> now < view[i].wakeup
  }

  lemma PickIsChosen(view: seq<Cell>, now: u32, p: int)
    requires CanRun(view, now)
    ensures Chosen(view, now, p) <==> p == Pick(view, now)
  {
    var r := FirstRunning(view, 0);
    if r < |view| { assert view[r].state == Running; }
    assert !NoneRunning(view, |view|) <==> r < |view|;
    if p < r { assert !Chosen(view, now, p) || r == |view|; }
  }

  /** The tasks after a walk: those that sleep although their time has come, and that no running task stands
      before, run; the others are as they were. */
  ghost function Awake(view: seq<Cell>, now: u32): (r: seq<Cell>)
    ensures |r| == |view|
  {
    seq(|view|, i requires 0 <= i < |view| => AwakeAt(view, now, i))
  }

  ghost function AwakeAt(view: seq<Cell>, now: u32, i: nat): Cell
    requires i < |view|
  {
    if view[i].state == Sleeping && now >= view[i].wakeup && NoneRunning(view, i) then view[i].(state := Running)
    else view[i]
  }

  /** How many tasks the walk passes and wakes if due. */
  function Reach(view: seq<Cell>): nat { FirstRunning(view, 0) }

  /** The ring after the walk has passed `n` tasks, still read from the task after the previous current one. */
  function Woken(view: seq<Cell>, now: u32, n: int): (r: seq<Cell>)
    ensures |r| == |view| && forall i :: 0 <= i < |view| ==> r[i] == if i < n then view[i].Passed(now) else view[i]
  {
    seq(|view|, i requires 0 <= i < |view| => if i < n then view[i].Passed(now) else view[i])
  }

  function Rotate<T>(s: seq<T>, n: nat): seq<T>
    requires n <= |s|
  {
    s[n..] + s[..n]
  }

  lemma WokenIsAwake(view: seq<Cell>, now: u32)
    ensures Woken(view, now, Reach(view)) == Awake(view, now)
  {
    var r := FirstRunning(view, 0);
    forall i | 0 <= i < |view| ensures Woken(view, now, r)[i] == AwakeAt(view, now, i) {
      if i > r { assert !NoneRunning(view, i); }
    }
  }

  /** Zombies stay dead, nobody is woken early, nobody is put to sleep. */
  lemma WokenIsFair(view: seq<Cell>, now: u32, i: nat)
    requires i < |view|
    ensures var c := Woken(view, now, Reach(view))[i];
            && c.pid == view[i].pid && c.wakeup == view[i].wakeup
            && (view[i].state.Zombie? ==> c.state.Zombie?)
            && (view[i].state.Running? ==> c.state.Running?)
            && (view[i].state.Sleeping? && now < view[i].wakeup ==> c.state.Sleeping?)
  {
  }

  /** The walk as the source performs it, one task per step, `k` steps in. */
  function WalkView(view: seq<Cell>, now: u32, k: nat): (r: seq<Cell>)
    requires |view| > 0
    ensures |r| == |view|
  {
    if k == 0 then view
    else
      var v := WalkView(view, now, k - 1);
      var p := (k - 1) % |view|;
      v[p := v[p].Passed(now)]
  }

  /** Nobody can run: the walk never meets a running task, however long it goes on. */
  lemma {:induction false} WalkForever(view: seq<Cell>, now: u32, k: nat)
    requires |view| > 0 && !CanRun(view, now)
    ensures WalkView(view, now, k) == view && !WalkView(view, now, k)[k % |view|].state.Running?
  {
    if k > 0 {
      WalkForever(view, now, k - 1);
      var p := (k - 1) % |view|;
      assert !Able(view[p], now);
      assert view[p := view[p].Passed(now)] == view;
    }
    assert !Able(view[k % |view|], now);
  }

  /** A task that runs at ring distance `d` is overtaken by nobody behind it. */
  lemma PickNotBeyond(view: seq<Cell>, now: u32, d: nat)
    requires d < |view| && view[d].state.Running?
    ensures CanRun(view, now) && Pick(view, now) <= d
  {
    assert Able(view[d], now);
  }

  function Pids(view: seq<Cell>): (r: seq<int>)
    ensures |r| == |view|
  {
    seq(|view|, i requires 0 <= i < |view| => view[i].pid)
  }

  /** A run of scheduling calls without insertions: between calls tasks may do anything to
      their states, but the ring keeps its members and turns with the current task. */
  ghost predicate IsRun(views: seq<seq<Cell>>, nows: seq<u32>) {
    && |nows| == |views|
    && (forall k :: 0 <= k < |views| ==> CanRun(views[k], nows[k]))
    && (forall k :: 0 <= k < |views| - 1 ==> Turned(views[k], views[k + 1], nows[k]))
  }

  ghost predicate Turned(view: seq<Cell>, view': seq<Cell>, now: u32)
    requires CanRun(view, now)
  {
    Pids(view') == Rotate(Pids(view), Pick(view, now) + 1)
  }

  /** Task `pid` is in the ring and ready to run at every call. */
  ghost predicate StaysReady(views: seq<seq<Cell>>, pid: int) {
    forall k :: 0 <= k < |views| ==> ReadyIn(views[k], pid)
  }

  ghost predicate ReadyIn(view: seq<Cell>, pid: int) {
    exists i :: 0 <= i < |view| && view[i].pid == pid && view[i].state.Running?
  }

  /** Call number `k` of the run picks task `pid`. */
  ghost predicate PickedAt(views: seq<seq<Cell>>, nows: seq<u32>, pid: int, k: int) {
    0 <= k < |views| && k < |nows| && CanRun(views[k], nows[k]) && views[k][Pick(views[k], nows[k])].pid == pid
  }

  ghost predicate DistinctPids(view: seq<Cell>) {
    forall i, j :: 0 <= i < j < |view| ==> view[i].pid != view[j].pid
  }

  /** Bounded bypass: a task that stays ready at distance `d` is picked by one of the next
      `d + 1` calls. */
  lemma {:induction false} BoundedBypass(views: seq<seq<Cell>>, nows: seq<u32>, pid: int, d: nat)
    requires IsRun(views, nows) && StaysReady(views, pid) && |views| > d
    requires DistinctPids(views[0]) && d < |views[0]| && views[0][d].pid == pid
    ensures exists k :: k <= d && PickedAt(views, nows, pid, k)
    decreases d
  {
    var view := views[0];
    assert ReadyIn(view, pid);
    var i :| 0 <= i < |view| && view[i].pid == pid && view[i].state.Running?;
    assert i == d;
    PickNotBeyond(view, nows[0], d);
    var p := Pick(view, nows[0]);
    if p == d {
      assert PickedAt(views, nows, pid, 0);
    } else {
      assert Turned(view, views[1], nows[0]);
      TurnedPosition(view, views[1], p + 1, d);
      var rest, later := views[1..], nows[1..];
      assert forall k :: 0 <= k < |rest| ==> rest[k] == views[k + 1] && later[k] == nows[k + 1];
      BoundedBypass(rest, later, pid, d - p - 1);
      var k :| k <= d - p - 1 && PickedAt(rest, later, pid, k);
      assert PickedAt(views, nows, pid, k + 1);
    }
  }

  /** Task `pid` sleeps although its time has come. */
  ghost predicate OverdueIn(view: seq<Cell>, now: u32, pid: int) {
    exists i :: 0 <= i < |view| && view[i].pid == pid && view[i].state == Sleeping && now >= view[i].wakeup
  }

  /** Call number `k` of the run wakes task `pid`. */
  ghost predicate WokenAt(views: seq<seq<Cell>>, nows: seq<u32>, pid: int, k: int) {
    && 0 <= k < |views| && k < |nows| && OverdueIn(views[k], nows[k], pid)
    && ReadyIn(Awake(views[k], nows[k]), pid)
  }

  /** A task at distance `d` whose sleep is over is awake after at most `d + 1` calls. */
  lemma {:induction false} BoundedSleep(views: seq<seq<Cell>>, nows: seq<u32>, pid: int, d: nat)
    requires IsRun(views, nows) && |views| > d
    requires forall k :: 0 <= k < |views| ==> OverdueIn(views[k], nows[k], pid)
    requires DistinctPids(views[0]) && d < |views[0]| && views[0][d].pid == pid
    ensures exists k :: k <= d && WokenAt(views, nows, pid, k)
    decreases d
  {
    var view := views[0];
    assert OverdueIn(view, nows[0], pid);
    if NoneRunning(view, d) {
      assert Awake(view, nows[0])[d].state == Running;
      assert WokenAt(views, nows, pid, 0);
    } else {
      var p := Pick(view, nows[0]);
      PickIsChosen(view, nows[0], p);
      assert p < d;
      assert Turned(view, views[1], nows[0]);
      TurnedPosition(view, views[1], p + 1, d);
      var rest, later := views[1..], nows[1..];
      assert forall k :: 0 <= k < |rest| ==> rest[k] == views[k + 1] && later[k] == nows[k + 1];
      BoundedSleep(rest, later, pid, d - p - 1);
      var k :| k <= d - p - 1 && WokenAt(rest, later, pid, k);
      assert WokenAt(views, nows, pid, k + 1);
    }
  }

  lemma TurnedPosition(view: seq<Cell>, view': seq<Cell>, n: nat, d: nat)
    requires n <= d < |view| && Pids(view') == Rotate(Pids(view), n) && DistinctPids(view)
    ensures |view'| == |view| && view'[d - n].pid == view[d].pid && DistinctPids(view')
  {
    var a, b := Pids(view), Pids(view');
    assert b[d - n] == a[d];
    forall i, j | 0 <= i < j < |view'| ensures view'[i].pid != view'[j].pid {
      assert b[i] == a[if i < |a| - n then i + n else i + n - |a|];
      assert b[j] == a[if j < |a| - n then j + n else j + n - |a|];
    }
  }

  class Task {
    const pid: int
    var state: State
    var wakeup: u32
    var next: Task?

    constructor (id: int)
      ensures pid == id && state == Running && wakeup == 0
    {
      pid, state, wakeup, next := id, Running, 0, null;
    }

    ghost function View(): Cell
      reads this
    {
      Cell(pid, state, wakeup)
    }
  }

  /** `r` is a circular list without repetitions. */
  ghost predicate Ring(r: seq<Task>)
    reads r
  {
    && |r| > 0
    && (forall i, j :: 0 <= i < j < |r| ==> r[i] != r[j])
    && (forall i :: 0 <= i < |r| - 1 ==> r[i].next == r[i + 1])
    && r[|r| - 1].next == r[0]
  }

  lemma RotateRing(r: seq<Task>, n: nat)
    requires Ring(r) && n <= |r|
    ensures Ring(Rotate(r, n))
    ensures forall t :: t in Rotate(r, n) <==> t in r
  {
  }

  /** Every task number is in use once and was handed out before. */
  ghost predicate Numbered(r: seq<Task>, nextPid: int) {
    && (forall i :: 0 <= i < |r| ==> r[i].pid < nextPid)
    && (forall i, j :: 0 <= i < j < |r| ==> r[i].pid != r[j].pid)
  }

  lemma RotateNumbered(r: seq<Task>, n: nat, nextPid: int)
    requires Numbered(r, nextPid) && n <= |r|
    ensures Numbered(Rotate(r, n), nextPid)
  {
  }

  /** A scheduling call on a ring `r0` with view `v0`: the picked task is last, that is
      current, and the sleepers the walk passed are awake if they were due. */
  ghost predicate Scheduled(r0: seq<Task>, v0: seq<Cell>, r: seq<Task>, v: seq<Cell>, now: u32) {
    && |v0| == |r0| && CanRun(v0, now)
    && exists p :: 0 <= p < |v0| && Chosen(v0, now, p) && r == Rotate(r0, p + 1) && v == Rotate(Awake(v0, now), p + 1)
  }

  lemma ScheduledIs(r0: seq<Task>, v0: seq<Cell>, r: seq<Task>, v: seq<Cell>, now: u32)
    requires |v0| == |r0| && CanRun(v0, now) && r == Rotate(r0, Pick(v0, now) + 1)
    requires v == Rotate(Woken(v0, now, Reach(v0)), Pick(v0, now) + 1)
    ensures Scheduled(r0, v0, r, v, now)
  {
    hide Rotate, Woken, Awake, Reach, Pick, Chosen, CanRun;
    PickIsChosen(v0, now, Pick(v0, now));
    WokenIsAwake(v0, now);
  }

  /** Scheduling calls are the steps of a run in the sense of `BoundedBypass`. */
  lemma ScheduledTurns(r0: seq<Task>, v0: seq<Cell>, r: seq<Task>, v: seq<Cell>, now: u32)
    requires Scheduled(r0, v0, r, v, now)
    ensures Turned(v0, v, now) && v[|v| - 1].state.Running? && v[|v| - 1].pid == v0[Pick(v0, now)].pid
  {
    hide Chosen, Awake, CanRun, Reach, Pick;
    PickIsChosen(v0, now, Pick(v0, now));
    var p :| 0 <= p < |v0| && Chosen(v0, now, p) && r == Rotate(r0, p + 1) && v == Rotate(Awake(v0, now), p + 1);
    PickIsChosen(v0, now, p);
    ChosenRuns(v0, now, p);
    assert v[|v| - 1] == Awake(v0, now)[p];
    assert Pids(Awake(v0, now)) == Pids(v0);
  }

  lemma ChosenRuns(view: seq<Cell>, now: u32, p: int)
    requires Chosen(view, now, p)
    ensures Awake(view, now)[p].state == Running
    ensures forall i :: 0 <= i < |view| ==> Awake(view, now)[i].pid == view[i].pid
  {
  }

  ghost function ViewOf(r: seq<Task>): (v: seq<Cell>)
    reads r
    ensures |v| == |r| && forall i :: 0 <= i < |r| ==> v[i] == r[i].View()
  {
    seq(|r|, i requires 0 <= i < |r| reads r => r[i].View())
  }

  /** A call returns with a code, or never: the caller is not scheduled again. */
  datatype Outcome = Returned(code: int) | Away

  class Tasks {
    var current: Task
    const list: Task
    var nextPid: int
    /** The ring from the task after the current one round to the current one. */
    ghost var ring: seq<Task>

    ghost predicate Valid()
      reads this, ring
    {
      Ring(ring) && ring[|ring| - 1] == current && list in ring && Numbered(ring, nextPid)
    }

    ghost function View(): seq<Cell>
      reads this, ring
    {
      ViewOf(ring)
    }

    /** The kernel task alone. */
    constructor ()
      ensures Valid() && fresh(ring) && |ring| == 1 && ring[0] == list && list.pid == 0 && list.state == Running
      ensures nextPid == 1
    {
      var kernel := new Task(0);
      kernel.next := kernel;
      current, list, nextPid := kernel, kernel, 1;
      ring := [kernel];
    }

    /** Walks the ring from the task after the current one, waking sleepers that are due,
        until it meets a running task; makes that one current. */
    method Schedule(now: u32)
      requires Valid() && CanRun(View(), now)
      modifies this`current, this`ring, ring
      ensures Valid() && nextPid == old(nextPid)
      ensures Scheduled(old(ring), old(View()), ring, View(), now)
      ensures exists p :: Chosen(old(View()), now, p) && current == old(ring)[p] && current.state == Running
      ensures ViewOf(old(ring)) == Awake(old(View()), now)
    {
      hide FirstRunning, FirstDue, Rotate, Woken, CanRun, Pick, Numbered, Ring, ViewOf, Reach, Cell.Due, Cell.Passed;
      hide Scheduled, Chosen, Awake, NoneRunning, Able;
      ghost var view, r0 := View(), ring;
      ghost var p := Pick(view, now);
      PickIsChosen(view, now, p);
      WokenIsAwake(view, now);
      var next := Walk(now, view);
      SwitchTo(next, p);
      ScheduledIs(r0, view, ring, View(), now);
    }

    /** The context switch, if there is one: the ring is now read from behind `next`. */
    method SwitchTo(next: Task, ghost p: nat)
      requires Valid() && p < |ring| && next == ring[p]
      modifies this`current, this`ring
      ensures Valid() && ring == Rotate(old(ring), p + 1) && View() == Rotate(old(View()), p + 1) && current == next
    {
      hide Rotate, Numbered, Ring, ViewOf;
      RotateRing(ring, p + 1);
      RotateNumbered(ring, p + 1, nextPid);
      RotateView(ring, p + 1);
      RotateLast(ring, p + 1);
      ring := Rotate(ring, p + 1);
      if next == current { return; }
      current := next;
    }

    method Walk(now: u32, ghost view: seq<Cell>) returns (next: Task)
      requires Ring(ring) && ring[|ring| - 1] == current && CanRun(view, now) && view == View()
      modifies ring`state
      ensures Ring(ring) && next == ring[Pick(view, now)] && next.state == Running
      ensures View() == Woken(view, now, Reach(view))
    {
      hide FirstRunning, FirstDue, CanRun, Ring, WalkAt, Woken, Pick, Reach, Distinct, ViewOf, Links, Spot, Ahead;
      ghost var n := |ring|;
      RingLinks(ring);
      LinkAt(ring, n - 1);
      SpotEnds(n);
      next := current.next;
      ghost var k := 0;
      WalkStarts(view, now);
      while next.state != Running
        invariant WalkAt(view, now, k) && 0 <= k < 2 * n && 0 <= Spot(k, n) < n && next == ring[Spot(k, n)]
        invariant Links(ring) && ViewOf(ring) == Woken(view, now, k)
        decreases 2 * n - k
      {
        AheadIs(view, now, k, ViewOf(ring));
        WalkOn(view, now, k);
        LinkAt(ring, Spot(k, n));
        SpotNext(k, n);
        Visit(next, ring, Spot(k, n), now);
        next := next.next;
        WokenStep(view, now, k);
        k := k + 1;
      }
      AheadIs(view, now, k, ViewOf(ring));
      WalkEnds(view, now, k);
      LinksRing(ring);
      WokenDone(view, now, k);
    }

    /** Puts a new running task right after the head of the list. */
    method Create() returns (t: Task)
      requires Valid()
      modifies this`nextPid, this`ring, list`next
      ensures Valid() && fresh(t) && t.pid == old(nextPid) && nextPid == old(nextPid) + 1
      ensures t.state == Running && list.next == t && t.next == old(list.next)
      ensures exists l :: 0 <= l < |old(ring)| && old(ring)[l] == list && ring == InsertAfter(old(ring), l, t)
    {
      hide Ring, Numbered, Links, Distinct, InsertAfter, Spot;
      t := new Task(nextPid);
      nextPid := nextPid + 1;
      ghost var l :| 0 <= l < |ring| && ring[l] == list;
      ghost var r0 := ring;
      RingLinks(r0);
      LinkAt(r0, l);
      t.next := list.next;
      list.next := t;
      ring := InsertAfter(r0, l, t);
      InsertRing(r0, l, t);
      InsertNumbered(r0, l, t, nextPid);
    }

    method Exit(now: u32)
      requires Valid() && CanRun(LastIs(View(), Zombie, current.wakeup), now)
      modifies this`current, this`ring, ring
      ensures Valid() && nextPid == old(nextPid)
      ensures Scheduled(old(ring), LastIs(old(View()), Zombie, old(current.wakeup)), ring, View(), now)
    {
      hide Ring, Numbered, Scheduled, CanRun, Distinct;
      RingLinks(ring);
      Mark(ring, current, |ring| - 1, Zombie, current.wakeup);
      Schedule(now);
    }

    /** The current task sleeps until the tick counter reaches `now + ticks`, 32 bits wide. */
    method Sleep(now: u32, ticks: u32)
      requires Valid() && CanRun(LastIs(View(), Sleeping, Wrap32(now as int + ticks)), now)
      modifies this`current, this`ring, ring
      ensures Valid() && nextPid == old(nextPid)
      ensures Scheduled(old(ring), LastIs(old(View()), Sleeping, Wrap32(now as int + ticks)), ring, View(), now)
    {
      hide Ring, Numbered, Scheduled, CanRun, Distinct, Wrap32;
      RingLinks(ring);
      Mark(ring, current, |ring| - 1, Sleeping, Wrap32(now as int + ticks));
      Schedule(now);
    }

    /** Kills exactly the task named. The current task, killing itself, is scheduled away from for good. */
    method Kill(pid: int, now: u32) returns (r: Outcome)
      requires Valid()
      requires current.pid == pid ==> CanRun(LastIs(View(), Zombie, current.wakeup), now)
      modifies this`current, this`ring, ring
      ensures Valid() && nextPid == old(nextPid)
      ensures r == Returned(-1) <==> !HasPid(old(ring), pid)
      ensures r != Returned(-1) ==> r == if old(current.pid) == pid then Away else Returned(0)
      ensures r == Returned(-1) ==> ring == old(ring) && View() == old(View()) && current == old(current)
      ensures r == Returned(0) ==> ring == old(ring) && View() == Killed(old(View()), pid) && current == old(current)
      ensures r == Away ==> Scheduled(old(ring), Killed(old(View()), pid), ring, View(), now)
    {
      hide Ring, Scheduled, CanRun, ViewOf, Killed, Numbered, LastIs;
      var t := FindPid(pid);
      if t == null { return Returned(-1); }
      SameTask(ring, t, nextPid);
      if t == current {
        KilledLast(ring, nextPid);
        Exit(now);
        return Away;
      }
      KillOther(t);
      r := Returned(0);
    }

    method KillOther(t: Task)
      requires Valid() && t in ring
      modifies t`state, t`wakeup
      ensures Valid() && View() == Killed(old(View()), t.pid)
    {
      hide Ring, Distinct, ViewOf, Killed, Numbered;
      RingLinks(ring);
      ghost var j :| 0 <= j < |ring| && ring[j] == t;
      KilledIs(ring, j, t.pid, nextPid);
      Mark(ring, t, j, Zombie, t.wakeup);
    }

    /** Goes round the list once, looking for a task number. */
    method FindPid(pid: int) returns (t: Task?)
      requires Valid()
      ensures t == null <==> !HasPid(ring, pid)
      ensures t != null ==> t in ring && t.pid == pid
    {
      hide Ring, Rotate, Distinct, Links, Numbered;
      RingLinks(ring);
      ghost var l :| 0 <= l < |ring| && ring[l] == list;
      ghost var q := Rotate(ring, l);
      RotateRing(ring, l);
      RotateFirst(ring, l);
      RingLinks(q);
      t := list;
      ghost var i := 0;
      while true
        invariant 0 <= i < |q| && t == q[i] && forall k :: 0 <= k < i ==> q[k].pid != pid
        invariant Links(q) && Distinct(q) && q[0] == list && forall x :: x in q <==> x in ring
        decreases |q| - i
      {
        assert q[i] in q && q[i] in ring;
        if t.pid == pid {
          assert HasPid(ring, pid);
          return;
        }
        LinkAt(q, i);
        t := t.next;
        i := i + 1;
        if t == list {
          StartOnly(q, i);
          NoPid(ring, q, pid);
          return null;
        }
      }
    }
  }

  /** Tasks with one number are one task. */
  lemma SameTask(r: seq<Task>, t: Task, nextPid: int)
    requires Numbered(r, nextPid) && t in r && |r| > 0
    ensures HasPid(r, t.pid) && (t == r[|r| - 1] <==> r[|r| - 1].pid == t.pid)
  {
  }

  lemma KilledLast(r: seq<Task>, nextPid: int)
    requires Numbered(r, nextPid) && |r| > 0
    ensures Killed(ViewOf(r), r[|r| - 1].pid) == LastIs(ViewOf(r), Zombie, r[|r| - 1].wakeup)
  {
    hide Killed, ViewOf;
    KilledIs(r, |r| - 1, r[|r| - 1].pid, nextPid);
  }

  /** The view with the current task, which is last, in another state. */
  function LastIs(view: seq<Cell>, state: State, wakeup: u32): seq<Cell> {
    if |view| == 0 then view else view[|view| - 1 := Cell(view[|view| - 1].pid, state, wakeup)]
  }

  ghost predicate HasPid(r: seq<Task>, pid: int) { exists i :: 0 <= i < |r| && r[i].pid == pid }

  /** The view with the task named turned into a zombie. */
  function Killed(view: seq<Cell>, pid: int): seq<Cell> {
    seq(|view|, i requires 0 <= i < |view| => if view[i].pid == pid then view[i].(state := Zombie) else view[i])
  }

  lemma KilledIs(r: seq<Task>, j: int, pid: int, nextPid: int)
    requires Numbered(r, nextPid) && 0 <= j < |r| && r[j].pid == pid
    ensures HasPid(r, pid)
    ensures Killed(ViewOf(r), pid) == ViewOf(r)[j := Cell(pid, Zombie, r[j].wakeup)]
  {
  }

  lemma RotateFirst(r: seq<Task>, l: int)
    requires 0 <= l < |r|
    ensures |Rotate(r, l)| == |r| && Rotate(r, l)[0] == r[l]
  {
  }

  lemma StartOnly(q: seq<Task>, i: int)
    requires Distinct(q) && 0 < i <= |q| && q[Spot(i, |q|)] == q[0]
    ensures i == |q|
  {
  }

  lemma NoPid(r: seq<Task>, q: seq<Task>, pid: int)
    requires forall t :: t in q <==> t in r
    requires forall k :: 0 <= k < |q| ==> q[k].pid != pid
    ensures !HasPid(r, pid)
  {
    forall i | 0 <= i < |r| ensures r[i].pid != pid {
      assert r[i] in q;
      var k :| 0 <= k < |q| && q[k] == r[i];
    }
  }

  function InsertAfter(r: seq<Task>, l: int, t: Task): seq<Task>
    requires 0 <= l < |r|
  {
    if l == |r| - 1 then [t] + r else r[..l + 1] + [t] + r[l + 1..]
  }

  /** The place of the inserted task. */
  function Place(n: int, l: int): int { if l == n - 1 then 0 else l + 1 }

  lemma InsertAt(r: seq<Task>, l: int, t: Task)
    requires 0 <= l < |r|
    ensures var q, p := InsertAfter(r, l, t), Place(|r|, l);
            && |q| == |r| + 1 && q[p] == t
            && (forall i :: 0 <= i < p ==> q[i] == r[i])
            && (forall i :: p < i < |q| ==> q[i] == r[i - 1])
  {
  }

  lemma InsertRing(r: seq<Task>, l: int, t: Task)
    requires Distinct(r) && 0 <= l < |r| && t !in r
    requires forall i :: 0 <= i < |r| && i != l ==> r[i].next == r[Spot(i + 1, |r|)]
    requires r[l].next == t && t.next == r[Spot(l + 1, |r|)]
    ensures Ring(InsertAfter(r, l, t))
  {
    hide InsertAfter;
    InsertAt(r, l, t);
    var q, p := InsertAfter(r, l, t), Place(|r|, l);
    forall i | 0 <= i < |q| - 1 ensures q[i].next == q[i + 1] {
      if i < p - 1 { assert r[i].next == r[Spot(i + 1, |r|)]; }
      if i > p { assert r[i - 1].next == r[Spot(i, |r|)]; }
    }
    if l < |r| - 1 { assert r[|r| - 1].next == r[Spot(|r|, |r|)]; }
    forall i, j | 0 <= i < j < |q| ensures q[i] != q[j] { InsertDistinct(r, q, p, t, i, j); }
  }

  lemma InsertDistinct(r: seq<Task>, q: seq<Task>, p: int, t: Task, i: int, j: int)
    requires Distinct(r) && t !in r && |q| == |r| + 1 && 0 <= p < |q| && q[p] == t && 0 <= i < j < |q|
    requires forall k :: 0 <= k < p ==> q[k] == r[k]
    requires forall k :: p < k < |q| ==> q[k] == r[k - 1]
    ensures q[i] != q[j]
  {
  }

  lemma InsertNumbered(r: seq<Task>, l: int, t: Task, nextPid: int)
    requires Numbered(r, t.pid) && 0 <= l < |r| && t.pid < nextPid
    ensures Numbered(InsertAfter(r, l, t), nextPid)
    ensures |InsertAfter(r, l, t)| == |r| + 1 && InsertAfter(r, l, t)[|r|] == r[|r| - 1]
    ensures forall x :: x in r ==> x in InsertAfter(r, l, t)
  {
    hide InsertAfter;
    InsertAt(r, l, t);
    var q, p := InsertAfter(r, l, t), Place(|r|, l);
    forall x | x in r ensures x in q {
      var i :| 0 <= i < |r| && r[i] == x;
      assert q[if i < p then i else i + 1] == x;
    }
  }

  /** Changes the state of one task. */
  method Mark(ghost r: seq<Task>, t: Task, ghost j: int, state: State, wakeup: u32)
    requires Distinct(r) && 0 <= j < |r| && t == r[j]
    modifies t`state, t`wakeup
    ensures ViewOf(r) == old(ViewOf(r))[j := Cell(t.pid, state, wakeup)]
    ensures old(Ring(r)) ==> Ring(r)
  {
    t.state, t.wakeup := state, wakeup;
    forall i | 0 <= i < |r| ensures i != j ==> r[i].View() == old(r[i].View()) {
      if i < j { assert r[i] != r[j]; }
      if j < i { assert r[j] != r[i]; }
    }
  }

  /** The body of the walk for one task: wakes it if it is due. */
  method Visit(t: Task, ghost r: seq<Task>, ghost j: int, now: u32)
    requires Distinct(r) && 0 <= j < |r| && t == r[j] && Links(r)
    modifies t`state
    ensures ViewOf(r) == old(ViewOf(r))[j := old(ViewOf(r))[j].Passed(now)] && Links(r)
  {
    if t.state == Sleeping && now >= t.wakeup {
      t.state := Running;
    }
    forall i | 0 <= i < |r| ensures r[i].View() == if i == j then old(r[i].View()).Passed(now) else old(r[i].View()) {
      if i < j { assert r[i] != r[j]; }
      if j < i { assert r[j] != r[i]; }
    }
  }

  lemma WokenStep(view: seq<Cell>, now: u32, k: int)
    requires 0 <= k < 2 * |view|
    ensures var v := Woken(view, now, k);
            v[Spot(k, |view|) := v[Spot(k, |view|)].Passed(now)] == Woken(view, now, k + 1)
  {
  }

  lemma WokenDone(view: seq<Cell>, now: u32, k: int)
    requires 0 <= k && Reach(view) == (if k < |view| then k else |view|)
    ensures Woken(view, now, k) == Woken(view, now, Reach(view))
  {
  }

  /** Step `k` of a walk of less than two rounds stands here. */
  function Spot(k: int, n: int): int { if k < n then k else k - n }

  lemma SpotNext(k: int, n: int)
    requires 0 <= k && k + 1 < 2 * n
    ensures 0 <= Spot(k, n) < n && Spot(Spot(k, n) + 1, n) == Spot(k + 1, n) && 0 <= Spot(k + 1, n) < n
  {
  }

  lemma SpotEnds(n: int)
    requires n > 0
    ensures Spot(n - 1 + 1, n) == 0 && Spot(0, n) == 0
  {
  }

  lemma AheadIs(view: seq<Cell>, now: u32, k: int, v: seq<Cell>)
    requires 0 <= k < 2 * |view| && v == Woken(view, now, k)
    ensures 0 <= Spot(k, |view|) < |view| && v[Spot(k, |view|)] == Ahead(view, now, k)
  {
  }

  ghost predicate Distinct(r: seq<Task>) { forall i, j :: 0 <= i < j < |r| ==> r[i] != r[j] }

  ghost predicate Links(r: seq<Task>)
    reads r
  {
    forall i :: 0 <= i < |r| ==> r[i].next == r[Spot(i + 1, |r|)]
  }

  lemma LinkAt(r: seq<Task>, i: int)
    requires Links(r) && 0 <= i < |r|
    ensures 0 <= Spot(i + 1, |r|) < |r| && r[i].next == r[Spot(i + 1, |r|)]
  {
  }

  lemma RingLinks(r: seq<Task>)
    requires Ring(r)
    ensures |r| > 0 && Distinct(r) && Links(r)
  {
  }

  lemma LinksRing(r: seq<Task>)
    requires |r| > 0 && Distinct(r) && Links(r)
    ensures Ring(r)
  {
  }

  /** The walk has taken `k` steps, less than two rounds, without meeting a running task. */
  ghost predicate WalkAt(view: seq<Cell>, now: u32, k: int) {
    && 0 <= k < 2 * |view|
    && (k < |view| ==> k <= Reach(view))
    && (k >= |view| ==> Reach(view) == |view| && k - |view| <= FirstDue(view, now, 0) < |view|)
  }

  lemma WalkStarts(view: seq<Cell>, now: u32)
    requires CanRun(view, now)
    ensures WalkAt(view, now, 0) && |view| > 0 && Woken(view, now, 0) == view
  {
    CanRunIs(view, now);
  }

  /** The cell the walk stands on, as it is now. */
  function Ahead(view: seq<Cell>, now: u32, k: int): Cell
    requires 0 <= k < 2 * |view|
  {
    if k < |view| then view[k] else view[k - |view|].Passed(now)
  }

  lemma WalkOn(view: seq<Cell>, now: u32, k: int)
    requires CanRun(view, now) && WalkAt(view, now, k) && !Ahead(view, now, k).state.Running?
    ensures WalkAt(view, now, k + 1) && k + 1 < 2 * |view|
  {
    CanRunIs(view, now);
  }

  lemma WalkEnds(view: seq<Cell>, now: u32, k: int)
    requires CanRun(view, now) && WalkAt(view, now, k) && Ahead(view, now, k).state.Running?
    ensures Pick(view, now) == Spot(k, |view|)
    ensures Reach(view) == if k < |view| then k else |view|
  {
    CanRunIs(view, now);
  }

  lemma RotateLast(r: seq<Task>, n: nat)
    requires 0 < n <= |r|
    ensures |Rotate(r, n)| == |r| && Rotate(r, n)[|r| - 1] == r[n - 1]
  {
  }

  lemma RotateView(r: seq<Task>, n: nat)
    requires n <= |r|
    ensures ViewOf(Rotate(r, n)) == Rotate(ViewOf(r), n)
  {
  }

  /** Where element `i` stands after turning the ring by `n`. */
  lemma RotatedAt<T>(s: seq<T>, n: nat, i: nat)
    requires n <= |s| && i < |s|
    ensures |Rotate(s, n)| == |s| && Rotate(s, n)[if i < n then i + |s| - n else i - n] == s[i]
  {
  }

  /** The task in place `j` sleeps until `wakeup`, or runs. */
  ghost predicate Napping(r: seq<Task>, v: seq<Cell>, t: Task, wakeup: u32, j: int) {
    && |v| == |r| && 0 <= j < |r| && r[j] == t
    && (v[j].state == Running || (v[j].state == Sleeping && v[j].wakeup == wakeup))
  }

  /** One call on a ring in which place `j` sleeps: it is woken or comes nearer, if its time has come. */
  lemma NapStep(r0: seq<Task>, v0: seq<Cell>, r: seq<Task>, v: seq<Cell>, now: u32, wakeup: u32, j: nat)
    returns (j': nat)
    requires Scheduled(r0, v0, r, v, now) && j < |v0| && v0[j].state == Sleeping && v0[j].wakeup == wakeup
    ensures |r| == |r0| && Napping(r, v, r0[j], wakeup, j') && forall t :: t in r <==> t in r0
    ensures now >= wakeup && v[j'].state == Sleeping ==> j' < j
  {
    hide CanRun, Awake;
    var p :| 0 <= p < |v0| && Chosen(v0, now, p) && r == Rotate(r0, p + 1) && v == Rotate(Awake(v0, now), p + 1);
    RotatedAt(r0, p + 1, j);
    RotatedAt(Awake(v0, now), p + 1, j);
    AwakeIs(v0, now, j);
    j' := if j < p + 1 then j + |r0| - (p + 1) else j - (p + 1);
    if !NoneRunning(v0, j) { assert p < j; }
    forall t ensures t in r <==> t in r0 { assert r0 == r0[..p + 1] + r0[p + 1..]; }
  }

  lemma AwakeIs(view: seq<Cell>, now: u32, i: nat)
    requires i < |view|
    ensures Awake(view, now)[i] == AwakeAt(view, now, i)
  {
  }

  /** A client: the current task sleeps, and is running again after at most as many calls at a later time
      as there are tasks. */
  method Nap(ts: Tasks, now: u32, ticks: u32, later: u32) returns (calls: nat)
    requires ts.Valid() && now as int + ticks <= later
    requires CanRun(LastIs(ts.View(), Sleeping, now as int + ticks), now)
    modifies ts`current, ts`ring, ts.ring
    ensures ts.Valid() && old(ts.current).state == Running && calls <= |old(ts.ring)|
  {
    hide Ring, Numbered, Scheduled, CanRun, Distinct, LastIs, Napping, ViewOf;
    ghost var r0, wakeup: u32 := ts.ring, now as int + ticks;
    assert |r0| > 0 by { RingLinks(r0); }
    ghost var v0 := LastIs(ts.View(), Sleeping, wakeup);
    LastCell(ts.View(), wakeup);
    var me := ts.current;
    ts.Sleep(now, ticks);
    ghost var j := NapStep(r0, v0, ts.ring, ts.View(), now, wakeup, |r0| - 1);
    NapCell(ts.ring, me, wakeup, j);
    SameMembers(ts.ring, r0);
    calls := Await(ts, me, later, wakeup, j);
  }

  /** Schedules until the task in place `j` runs. */
  method Await(ts: Tasks, me: Task, later: u32, ghost wakeup: u32, ghost j: nat) returns (calls: nat)
    requires ts.Valid() && wakeup <= later && Napping(ts.ring, ts.View(), me, wakeup, j)
    modifies ts`current, ts`ring, ts.ring
    ensures ts.Valid() && me.state == Running && calls <= j + 1
  {
    hide Ring, Numbered, Scheduled, CanRun, Distinct, Napping, ViewOf;
    ghost var r0 := ts.ring;
    ghost var i := j;
    calls := 0;
    NapCell(ts.ring, me, wakeup, i);
    while me.state != Running
      invariant ts.Valid() && forall t :: t in ts.ring <==> t in r0
      invariant Napping(ts.ring, ts.View(), me, wakeup, i)
      invariant if me.state == Running then calls <= j + 1 else calls + i <= j
      decreases me.state != Running, i
    {
      NapCell(ts.ring, me, wakeup, i);
      ghost var r1, v1 := ts.ring, ts.View();
      AbleRuns(v1, later, i);
      SameMembers(ts.ring, r0);
      ts.Schedule(later);
      i := NapStep(r1, v1, ts.ring, ts.View(), later, wakeup, i);
      NapCell(ts.ring, me, wakeup, i);
      calls := calls + 1;
    }
  }

  lemma SameMembers(r: seq<Task>, r0: seq<Task>)
    requires forall t :: t in r <==> t in r0
    ensures forall i :: 0 <= i < |r| ==> r[i] in r0
  {
    forall i | 0 <= i < |r| ensures r[i] in r0 { assert r[i] in r; }
  }

  lemma NapCell(r: seq<Task>, t: Task, wakeup: u32, j: int)
    requires Napping(r, ViewOf(r), t, wakeup, j)
    ensures 0 <= j < |r| == |ViewOf(r)| && t == r[j] && t in r && ViewOf(r)[j].state == t.state
    ensures t.state == Running || (t.state == Sleeping && ViewOf(r)[j].wakeup == wakeup)
  {
  }

  lemma LastCell(view: seq<Cell>, wakeup: u32)
    requires |view| > 0
    ensures var v := LastIs(view, Sleeping, wakeup);
            |v| == |view| && v[|v| - 1].state == Sleeping && v[|v| - 1].wakeup == wakeup
  {
  }

  lemma AbleRuns(view: seq<Cell>, now: u32, j: nat)
    requires j < |view| && Able(view[j], now)
    ensures CanRun(view, now)
  {
  }
}
