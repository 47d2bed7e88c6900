/** The registry of background tasks: one task per task id, a count of the
    callers watching it, started on the first watcher and stopped when the
    last one leaves. Each locked section of `monitor_task` is one atomic
    method here; the processes that run the tasks are not modelled. */
module TaskDb {

  /** What the registry knows of one task: the function and arguments it was
      created with, its watcher count and whether it is running. */
  datatype TaskState<F, A> = TaskState(func: F, arguments: A, watchers: int, active: bool)

  /** The reference-counting invariant of one task: a task runs exactly when
      somebody watches it. */
  predicate Consistent<F, A>(t: TaskState<F, A>)
  {
    t.watchers >= 0 && (t.active <==> t.watchers > 0)
  }

  predicate AllConsistent<K, F, A>(m: map<K, TaskState<F, A>>)
  {
    forall k :: k in m ==> Consistent(m[k])
  }

  /** The first locked section of `monitor_task`: look the task up, create it
      if there is none, start it if it is not running, count one more watcher. */
  function Acquired<K, F, A>(m: map<K, TaskState<F, A>>, key: K, func: F, arguments: A)
    : (m': map<K, TaskState<F, A>>)
    ensures m'.Keys == m.Keys + {key}
    ensures m'[key].active
    ensures m'[key].watchers == (if key in m then m[key].watchers else 0) + 1
    // the first registration wins: a later caller's function and arguments are ignored
    ensures key in m ==> m'[key].func == m[key].func && m'[key].arguments == m[key].arguments
    ensures key !in m ==> m'[key].func == func && m'[key].arguments == arguments
    ensures forall k :: k in m && k != key ==> m'[k] == m[k]
    ensures AllConsistent(m) ==> AllConsistent(m')
  {
    var task := if key in m then m[key] else TaskState(func, arguments, 0, false);
    var started := if task.active then task else task.(active := true);
    m[key := started.(watchers := started.watchers + 1)]
  }

  /** The second locked section of `monitor_task`: count one watcher fewer
      and stop the task when none is left. The entry stays for later reuse.
      (The source holds the task itself, so the key is always present.) */
  function Released<K, F, A>(m: map<K, TaskState<F, A>>, key: K): (m': map<K, TaskState<F, A>>)
    ensures m'.Keys == m.Keys
    ensures key in m ==> m'[key].watchers == m[key].watchers - 1
    ensures key in m ==> m'[key].func == m[key].func && m'[key].arguments == m[key].arguments
    ensures key in m ==> (m'[key].active <==> m[key].active && m[key].watchers != 1)
    ensures forall k :: k in m && k != key ==> m'[k] == m[k]
    ensures AllConsistent(m) && key in m && m[key].watchers > 0 ==> AllConsistent(m')
  {
    if key !in m then m
    else
      var task := m[key].(watchers := m[key].watchers - 1);
      m[key := if task.watchers == 0 then task.(active := false) else task]
  }

  /** A call history: each caller of `monitor_task` acquires, later releases. */
  datatype Op<K, F, A> = Acquire(key: K, func: F, arguments: A) | Release(key: K)

  function Apply<K, F, A>(m: map<K, TaskState<F, A>>, op: Op<K, F, A>): map<K, TaskState<F, A>>
  {
    match op
    case Acquire(key, func, arguments) => Acquired(m, key, func, arguments)
    case Release(key) => Released(m, key)
  }

  /** The registry after a history, starting from an empty one. */
  function Replay<K, F, A>(ops: seq<Op<K, F, A>>): map<K, TaskState<F, A>>
  {
    if ops == [] then map[] else Apply(Replay(ops[..|ops| - 1]), ops[|ops| - 1])
  }

  /** Acquires of `key` in a history that have not been released yet. */
  function Outstanding<K(==), F, A>(ops: seq<Op<K, F, A>>, key: K): int
  {
    if ops == [] then 0
    else
      var op := ops[|ops| - 1];
      Outstanding(ops[..|ops| - 1], key) + (if op.key != key then 0 else if op.Acquire? then 1 else -1)
  }

  /** Every release follows an acquire of the same key that it undoes, as in
      `monitor_task`, where each caller releases only what it acquired. */
  predicate Matched<K(==), F, A>(ops: seq<Op<K, F, A>>)
  {
    forall i :: 0 <= i < |ops| && ops[i].Release? ==> Outstanding(ops[..i], ops[i].key) > 0
  }

  /** The call at index i is the first one to acquire `key`, and it passed
      `func` and `arguments`. */
  ghost predicate FirstAcquireAt<K, F, A>(ops: seq<Op<K, F, A>>, i: int, key: K, func: F, arguments: A)
  {
    0 <= i < |ops| && ops[i] == Acquire(key, func, arguments)
    && forall j :: 0 <= j < i ==> !(ops[j].Acquire? && ops[j].key == key)
  }

  /** Some call of the history acquired `key`. */
  ghost predicate Requested<K, F, A>(ops: seq<Op<K, F, A>>, key: K)
  {
    exists i :: 0 <= i < |ops| && ops[i].Acquire? && ops[i].key == key
  }

  /** The first acquire of `key` in the history passed `func` and `arguments`. */
  ghost predicate RegisteredBy<K, F, A>(ops: seq<Op<K, F, A>>, key: K, func: F, arguments: A)
  {
    exists i :: FirstAcquireAt(ops, i, key, func, arguments)
  }

  /** Each prefix of a matched history is matched, and its last release has
      an outstanding acquire to undo. */
  lemma MatchedPrefix<K, F, A>(ops: seq<Op<K, F, A>>)
    requires Matched(ops) && ops != []
    ensures Matched(ops[..|ops| - 1])
    ensures ops[|ops| - 1].Release? ==> Outstanding(ops[..|ops| - 1], ops[|ops| - 1].key) > 0
  {
    var prev := ops[..|ops| - 1];
    forall i | 0 <= i < |prev| && prev[i].Release?
      ensures Outstanding(prev[..i], prev[i].key) > 0
    {
      assert prev[..i] == ops[..i];
    }
  }

  /** One more call adds its key to what the history requested, if it is an acquire. */
  lemma RequestedStep<K, F, A>(ops: seq<Op<K, F, A>>, key: K)
    requires ops != []
    ensures Requested(ops, key) <==>
      Requested(ops[..|ops| - 1], key) || (ops[|ops| - 1].Acquire? && ops[|ops| - 1].key == key)
  {
  }

  /** One more call keeps the first registration of a key, and makes the
      first registration of a key that was never acquired before. */
  lemma RegisteredStep<K, F, A>(ops: seq<Op<K, F, A>>, key: K, func: F, arguments: A)
    requires ops != []
    ensures RegisteredBy(ops[..|ops| - 1], key, func, arguments) ==> RegisteredBy(ops, key, func, arguments)
    ensures !Requested(ops[..|ops| - 1], key) && ops[|ops| - 1] == Acquire(key, func, arguments)
      ==> RegisteredBy(ops, key, func, arguments)
  {
    var n := |ops|;
    var prev := ops[..n - 1];
    assert forall j :: 0 <= j < n - 1 ==> prev[j] == ops[j];
    if RegisteredBy(prev, key, func, arguments) {
      var i :| FirstAcquireAt(prev, i, key, func, arguments);
      assert FirstAcquireAt(ops, i, key, func, arguments);
    }
    if !Requested(prev, key) && ops[n - 1] == Acquire(key, func, arguments) {
      assert FirstAcquireAt(ops, n - 1, key, func, arguments);
    }
  }

  /** What the registry holds for one key after a matched history: a task
      exactly when the key was ever acquired; its watcher count is the number
      of outstanding acquires; it runs exactly when that number is positive;
      and it keeps the function and arguments of the first acquire. */
  lemma {:induction false} ReplayTracksKey<K, F, A>(ops: seq<Op<K, F, A>>, key: K)
    requires Matched(ops)
    ensures key in Replay(ops) <==> Requested(ops, key)
    ensures key !in Replay(ops) ==> Outstanding(ops, key) == 0
    ensures key in Replay(ops) ==> Replay(ops)[key].watchers == Outstanding(ops, key)
    ensures key in Replay(ops) ==> Consistent(Replay(ops)[key])
    ensures key in Replay(ops) ==> RegisteredBy(ops, key, Replay(ops)[key].func, Replay(ops)[key].arguments)
  {
    if ops != [] {
      var n := |ops|;
      var prev, op := ops[..n - 1], ops[n - 1];
      MatchedPrefix(ops);
      ReplayTracksKey(prev, key);
      var m := Replay(prev);
      assert Replay(ops) == Apply(m, op);
      RequestedStep(ops, key);
      if key in m {
        RegisteredStep(ops, key, m[key].func, m[key].arguments);
      } else if op.Acquire? {
        RegisteredStep(ops, key, op.func, op.arguments);
      }
    }
  }

  /** Every matched history leaves every task of the registry running exactly
      when it has watchers. */
  lemma ReplayIsConsistent<K, F, A>(ops: seq<Op<K, F, A>>)
    requires Matched(ops)
    ensures AllConsistent(Replay(ops))
  {
    forall k | k in Replay(ops) ensures Consistent(Replay(ops)[k]) {
      ReplayTracksKey(ops, k);
    }
  }

  /** One task of the registry. `start` and `stop` only flip `active` here;
      the process they launch and terminate is not modelled. */
  class Task<K, F, A> {
    const taskId: K
    const func: F
    const arguments: A
    var watchers: int
    var active: bool

    constructor (taskId: K, func: F, arguments: A)
      ensures this.taskId == taskId
      ensures State() == TaskState(func, arguments, 0, false)
    {
      this.taskId := taskId;
      this.func := func;
      this.arguments := arguments;
      watchers := 0;
      active := false;
    }

    function State(): TaskState<F, A>
      reads this
    {
      TaskState(func, arguments, watchers, active)
    }

    method Start()
      modifies this
      ensures State() == old(State()).(active := true)
    {
      active := true;
    }

    method Stop()
      modifies this
      ensures State() == old(State()).(active := false)
    {
      active := false;
    }
  }

  /** The registry: task id to task. */
  class TaskDB<K(==), F, A> {
    var tasks: map<K, Task<K, F, A>>

    /** Each task is filed under its own id (so no two ids share a task) and
        runs exactly when it has watchers. */
    ghost predicate Valid()
      reads this, tasks.Values
    {
      (forall k :: k in tasks ==> tasks[k].taskId == k) && AllConsistent(View())
    }

    /** The registry as a map of task states. */
    ghost function View(): map<K, TaskState<F, A>>
      reads this, tasks.Values
    {
      map k | k in tasks :: tasks[k].State()
    }

    constructor ()
      ensures Valid() && tasks == map[] && View() == map[]
    {
      tasks := map[];
    }

    /** `add_task`: file a new, idle task under `key`, replacing any task
        filed there before. */
    method AddTask(key: K, func: F, arguments: A) returns (task: Task<K, F, A>)
      requires Valid()
      modifies this
      ensures Valid() && fresh(task)
      ensures tasks == old(tasks)[key := task]
      ensures task.taskId == key && task.State() == TaskState(func, arguments, 0, false)
      ensures View() == old(View())[key := TaskState(func, arguments, 0, false)]
    {
      ghost var before := View();
      task := new Task(key, func, arguments);
      tasks := tasks[key := task];
      assert View() == before[key := task.State()];
    }

    /** The first locked section of `monitor_task`. An existing task is
        reused (and restarted if idle); a new one is created only for an
        unknown key. */
    method Acquire(key: K, func: F, arguments: A) returns (task: Task<K, F, A>)
      requires Valid()
      modifies this, tasks.Values
      ensures Valid() && key in tasks && task == tasks[key]
      ensures View() == Acquired(old(View()), key, func, arguments)
      ensures key in old(tasks) ==> tasks == old(tasks)
      ensures key !in old(tasks) ==> fresh(tasks[key]) && tasks == old(tasks)[key := tasks[key]]
    {
      ghost var before := View();
      if key in tasks {
        task := tasks[key];
      } else {
        task := AddTask(key, func, arguments);
      }
      ghost var found, t0 := View(), task.State();
      assert found == before[key := t0];
      assert task == tasks[key] && task.taskId == key;
      label Found:
      if !task.active {
        task.Start();
      }
      task.watchers := task.watchers + 1;
      forall k | k in tasks && k != key ensures View()[k] == found[k] {
        assert tasks[k] != task;
        assert tasks[k].State() == old@Found(tasks[k].State());
      }
      assert View().Keys == found.Keys;
      assert View() == found[key := task.State()];
      assert t0 == if key in before then before[key] else TaskState(func, arguments, 0, false);
      assert task.State() == (if t0.active then t0 else t0.(active := true)).(watchers := t0.watchers + 1);
    }

    /** The second locked section of `monitor_task`, run on the task object
        the caller got from `Acquire`: one watcher fewer, and the task stops
        when none is left. The map is not touched. If that task is still
        filed under its id, the registry moves by `Released`; if a direct
        `add_task` has since replaced it, only the orphaned task changes. */
    method Release(task: Task<K, F, A>)
      requires Valid() && task.watchers > 0
      modifies task
      ensures Valid() && tasks == old(tasks)
      ensures task.State() == old(task.State()).(watchers := old(task.watchers) - 1,
                                                 active := old(task.active) && old(task.watchers) != 1)
      ensures Filed(task) ==> View() == Released(old(View()), task.taskId)
      ensures !Filed(task) ==> View() == old(View())
    {
      ghost var before := View();
      label Held:
      task.watchers := task.watchers - 1;
      if task.watchers == 0 {
        task.Stop();
      }
      forall k | k in tasks && tasks[k] != task ensures View()[k] == before[k] {
        assert tasks[k].State() == old@Held(tasks[k].State());
      }
      assert View().Keys == before.Keys;
      if Filed(task) {
        assert View() == before[task.taskId := task.State()];
      } else {
        assert forall k :: k in tasks ==> tasks[k] != task;
        assert View() == before;
      }
    }

    /** `task` is the task filed under its own id. */
    ghost predicate Filed(task: Task<K, F, A>)
      reads this
    {
      task.taskId in tasks && tasks[task.taskId] == task
    }
  }

  /** Two callers watch the same key, both leave, a third comes later: the
      task is shared, stopped after the last leaves, and restarted, not
      replaced, by the third. */
  method TwoWatchersThenReuse<F, A>(func: F, arguments: A, other: F)
  {
    var db := new TaskDB<string, F, A>();
    var task := db.Acquire("x", func, arguments);
    var second := db.Acquire("x", other, arguments);
    assert second == task && task.watchers == 2 && task.func == func;
    db.Release(task);
    assert task.active;
    db.Release(second);
    assert !task.active && task.watchers == 0 && db.tasks["x"] == task;
    var third := db.Acquire("x", other, arguments);
    assert third == task && task.active && task.watchers == 1 && task.func == func;
  }

  /** A direct `add_task` replaces a task that is in use: the caller that
      acquired the old task releases and stops that orphan, while the new
      task keeps its own watcher and keeps running. */
  method ReplacedTaskIsReleasedAsOrphan<F, A>(func: F, arguments: A)
  {
    var db := new TaskDB<int, F, A>();
    var old1 := db.Acquire(1, func, arguments);
    var new1 := db.AddTask(1, func, arguments);
    var got := db.Acquire(1, func, arguments);
    assert got == new1 && new1 != old1 && new1.watchers == 1;
    db.Release(old1);
    assert !old1.active && old1.watchers == 0;
    assert new1.active && new1.watchers == 1 && db.tasks[1] == new1;
  }
}
