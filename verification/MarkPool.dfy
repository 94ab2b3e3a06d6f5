/** Parallel marking: tasks that follow edges up to three levels inline and bank the
    rest in batches of 16, which spawn as further tasks. A task's every visit of a
    subsection is one atomic step, and any task may take the next step. */
module MarkPool {
  import opened Sequences
  import opened LinkGraph

  const GC_BATCH: nat := 16
  const MAX_DEPTH: nat := 3

  /** One level of visit_section: the edges it has read and not yet followed. */
  datatype Frame = Frame(targets: seq<nat>, depth: nat)

  /** One visit_batch: the ids left in its batch, the sections being visited, the
      outermost first, and what it has banked. */
  datatype Task = Task(batch: seq<nat>, stack: seq<Frame>, next: seq<nat>)

  /** `expanded` records, in order, the subsections whose edges were read. */
  datatype Pool = Pool(tasks: seq<Task>, visited: set<nat>, expanded: seq<nat>)

  function Idle(t: Task): bool { t.batch == [] && t.stack == [] && t.next == [] }

  /** Hands a task's banked work to a new task. */
  function Spawn(s: Pool, t: nat, task: Task): Pool
    requires t < |s.tasks|
  {
    s.(tasks := s.tasks[t := task.(next := [])] + [Task(task.next, [], [])])
  }

  ghost predicate Sane(img: Image, s: Pool) {
    && img.Valid()
    && (forall id :: id in s.visited ==> id < |img.isecs|)
    && (forall t :: 0 <= t < |s.tasks| ==> TaskSane(img, s.tasks[t]))
  }

  ghost predicate TaskSane(img: Image, t: Task) {
    && Bounded(t.batch, |img.isecs|)
    && Bounded(t.next, |img.isecs|)
    && |t.stack| <= MAX_DEPTH + 1
    && (forall f :: 0 <= f < |t.stack| ==> FrameSane(img, t.stack[f], f))
  }

  /** A frame of the given depth: how many calls are below it. */
  ghost predicate FrameSane(img: Image, f: Frame, depth: nat) {
    f.depth == depth <= MAX_DEPTH && Bounded(f.targets, |img.isecs|)
  }

  /** The next step of task t. */
  function Step(img: Image, s: Pool, t: nat): Pool
    requires t < |s.tasks| && Sane(img, s)
  {
    var task := s.tasks[t];
    if task.stack != [] then
      var top := task.stack[|task.stack| - 1];
      var rest := task.stack[..|task.stack| - 1];
      if top.targets == [] then
        // visit_section returns; after one of the batch, a full bank is spawned.
        var task' := task.(stack := rest);
        if rest == [] && |task.next| >= GC_BATCH then Spawn(s, t, task') else s.(tasks := s.tasks[t := task'])
      else
        assert TaskSane(img, task) && FrameSane(img, top, |task.stack| - 1);
        var target := img.redirects[top.targets[0]];
        var stack := rest + [top.(targets := top.targets[1..])];
        if target in s.visited then
          s.(tasks := s.tasks[t := task.(stack := stack)])
        else if top.depth < MAX_DEPTH then
          Pool(s.tasks[t := task.(stack := stack + [Frame(img.Edges(target), top.depth + 1)])],
               s.visited + {target}, s.expanded + [target])
        else
          Pool(s.tasks[t := task.(stack := stack, next := task.next + [target])], s.visited + {target}, s.expanded)
    else if task.batch != [] then
      var id := task.batch[0];
      assert TaskSane(img, task);
      s.(tasks := s.tasks[t := task.(batch := task.batch[1..], stack := [Frame(img.Edges(id), 0)])],
         expanded := s.expanded + [id])
    else if task.next != [] then Spawn(s, t, task)
    else s
  }

  lemma SpawnSane(img: Image, s: Pool, t: nat, task: Task)
    requires Sane(img, s) && t < |s.tasks| && TaskSane(img, task)
    ensures Sane(img, Spawn(s, t, task))
  {
    assert TaskSane(img, task.(next := [])) && TaskSane(img, Task(task.next, [], []));
  }

  lemma FollowSane(img: Image, s: Pool, t: nat)
    requires Sane(img, s) && t < |s.tasks| && s.tasks[t].stack != []
    requires s.tasks[t].stack[|s.tasks[t].stack| - 1].targets != []
    ensures Sane(img, Step(img, s, t))
  {
    var task := s.tasks[t];
    var top := task.stack[|task.stack| - 1];
    assert TaskSane(img, task) && FrameSane(img, top, |task.stack| - 1);
    var v := img.redirects[top.targets[0]];
    img.EdgesInBounds(v);
    assert FrameSane(img, top.(targets := top.targets[1..]), |task.stack| - 1);
    assert top.depth < MAX_DEPTH ==> FrameSane(img, Frame(img.Edges(v), top.depth + 1), |task.stack|);
    assert TaskSane(img, Step(img, s, t).tasks[t]);
  }

  lemma StepSane(img: Image, s: Pool, t: nat)
    requires Sane(img, s) && t < |s.tasks|
    ensures Sane(img, Step(img, s, t))
  {
    var task := s.tasks[t];
    assert TaskSane(img, task);
    if task.stack != [] {
      if task.stack[|task.stack| - 1].targets == [] {
        var task' := task.(stack := task.stack[..|task.stack| - 1]);
        assert TaskSane(img, task');
        SpawnSane(img, s, t, task');
      } else {
        FollowSane(img, s, t);
      }
    } else if task.batch != [] {
      img.EdgesInBounds(task.batch[0]);
      assert FrameSane(img, Frame(img.Edges(task.batch[0]), 0), 0);
      assert TaskSane(img, Step(img, s, t).tasks[t]);
    } else {
      SpawnSane(img, s, t, task);
    }
  }

  function Chunks(ids: seq<nat>): (r: seq<seq<nat>>)
    decreases |ids|
  {
    if |ids| <= GC_BATCH then [ids] else [ids[..GC_BATCH]] + Chunks(ids[GC_BATCH..])
  }

  /** mark's start: the roots, already visited and each once, in chunks. */
  function Start(roots: seq<nat>): Pool {
    var chunks := Chunks(roots);
    Pool(seq(|chunks|, i requires 0 <= i < |chunks| => Task(chunks[i], [], [])), SetOf(roots), [])
  }

  // ---- What the tasks hold: how often an id is pending, a raw target waiting ----

  datatype Kind = PendingKind | WaitingKind

  function Count(xs: seq<nat>, x: nat): nat { multiset(xs)[x] }

  function FramesCount(stack: seq<Frame>, x: nat): nat {
    if stack == [] then 0
    else FramesCount(stack[..|stack| - 1], x) + Count(stack[|stack| - 1].targets, x)
  }

  function TaskCount(kind: Kind, t: Task, x: nat): nat {
    match kind
    case PendingKind => Count(t.batch, x) + Count(t.next, x)
    case WaitingKind => FramesCount(t.stack, x)
  }

  function TotalCount(kind: Kind, tasks: seq<Task>, x: nat): nat {
    if tasks == [] then 0
    else TotalCount(kind, tasks[..|tasks| - 1], x) + TaskCount(kind, tasks[|tasks| - 1], x)
  }

  /** How many times `x` is visited and not yet expanded. */
  function Pending(s: Pool, x: nat): nat { TotalCount(PendingKind, s.tasks, x) }

  /** How many times `x` is a raw target not yet followed. */
  function Waiting(s: Pool, x: nat): nat { TotalCount(WaitingKind, s.tasks, x) }

  lemma {:induction false} SumUpdate(kind: Kind, tasks: seq<Task>, t: nat, task: Task, x: nat)
    requires t < |tasks|
    ensures TotalCount(kind, tasks[t := task], x) ==
            TotalCount(kind, tasks, x) - TaskCount(kind, tasks[t], x) + TaskCount(kind, task, x)
    ensures TaskCount(kind, tasks[t], x) <= TotalCount(kind, tasks, x)
  {
    var last := |tasks| - 1;
    var tasks' := tasks[t := task];
    if t == last {
      assert tasks'[..last] == tasks[..last];
    } else {
      assert tasks'[..last] == tasks[..last][t := task];
      SumUpdate(kind, tasks[..last], t, task, x);
    }
  }

  lemma SumPush(kind: Kind, tasks: seq<Task>, task: Task, x: nat)
    ensures TotalCount(kind, tasks + [task], x) == TotalCount(kind, tasks, x) + TaskCount(kind, task, x)
  {
    assert (tasks + [task])[..|tasks|] == tasks;
  }

  lemma CountFirst(xs: seq<nat>, x: nat)
    requires xs != []
    ensures Count(xs, x) == Count(xs[1..], x) + (if x == xs[0] then 1 else 0)
  {
    assert xs == [xs[0]] + xs[1..];
  }

  lemma CountPush(xs: seq<nat>, y: nat, x: nat)
    ensures Count(xs + [y], x) == Count(xs, x) + (if x == y then 1 else 0)
  {
  }

  // ---- What one step does to these counts ----

  datatype Action =
    | Move                // a frame returns, a bank is spawned, or nothing is left to do
    | Revisit(e: nat)     // an edge is followed to a subsection visited before
    | Recurse(e: nat)     // to a new one, which is expanded at once
    | Bank(e: nat)        // to a new one, which is banked
    | Expand(id: nat)     // the next of a batch is expanded

  /** The action of task t's next step. */
  function ActionOf(img: Image, s: Pool, t: nat): Action
    requires t < |s.tasks| && Sane(img, s)
  {
    var task := s.tasks[t];
    if task.stack != [] then
      var top := task.stack[|task.stack| - 1];
      if top.targets == [] then Move else
        assert TaskSane(img, task) && FrameSane(img, top, |task.stack| - 1);
        var e := top.targets[0];
        if img.redirects[e] in s.visited then Revisit(e)
        else if top.depth < MAX_DEPTH then Recurse(e) else Bank(e)
    else if task.batch != [] then Expand(task.batch[0])
    else Move
  }

  function One(x: nat, y: nat): nat { if x == y then 1 else 0 }

  ghost predicate Effect(img: Image, s: Pool, s': Pool, a: Action)
    requires img.Valid()
  {
    match a
    case Move =>
      && s'.visited == s.visited && s'.expanded == s.expanded
      && forall x :: Pending(s', x) == Pending(s, x) && Waiting(s', x) == Waiting(s, x)
    case Revisit(e) =>
      && e < |img.isecs| && Waiting(s, e) > 0 && img.redirects[e] in s.visited
      && s'.visited == s.visited && s'.expanded == s.expanded
      && forall x :: Pending(s', x) == Pending(s, x) && Waiting(s', x) == Waiting(s, x) - One(x, e)
    case Recurse(e) =>
      && e < |img.isecs| && Waiting(s, e) > 0 && img.redirects[e] !in s.visited
      && var v := img.redirects[e];
      && s'.visited == s.visited + {v} && s'.expanded == s.expanded + [v]
      && forall x :: Pending(s', x) == Pending(s, x)
           && Waiting(s', x) == Waiting(s, x) - One(x, e) + Count(img.Edges(v), x)
    case Bank(e) =>
      && e < |img.isecs| && Waiting(s, e) > 0 && img.redirects[e] !in s.visited
      && var v := img.redirects[e];
      && s'.visited == s.visited + {v} && s'.expanded == s.expanded
      && forall x :: Pending(s', x) == Pending(s, x) + One(x, v) && Waiting(s', x) == Waiting(s, x) - One(x, e)
    case Expand(id) =>
      && id < |img.isecs| && Pending(s, id) > 0
      && s'.visited == s.visited && s'.expanded == s.expanded + [id]
      && forall x :: Pending(s', x) == Pending(s, x) - One(x, id)
           && Waiting(s', x) == Waiting(s, x) + Count(img.Edges(id), x)
  }

  lemma SpawnEffect(s: Pool, t: nat, task: Task, x: nat)
    requires t < |s.tasks|
    requires TaskCount(PendingKind, task, x) == TaskCount(PendingKind, s.tasks[t], x)
    requires TaskCount(WaitingKind, task, x) == TaskCount(WaitingKind, s.tasks[t], x)
    ensures Pending(Spawn(s, t, task), x) == Pending(s, x) && Waiting(Spawn(s, t, task), x) == Waiting(s, x)
  {
    var kept, spawned := task.(next := []), Task(task.next, [], []);
    SumUpdate(PendingKind, s.tasks, t, kept, x);
    SumPush(PendingKind, s.tasks[t := kept], spawned, x);
    SumUpdate(WaitingKind, s.tasks, t, kept, x);
    SumPush(WaitingKind, s.tasks[t := kept], spawned, x);
  }

  /** A frame without targets counts for nothing. */
  lemma EmptyFrame(task: Task, x: nat)
    requires task.stack != [] && task.stack[|task.stack| - 1].targets == []
    ensures var task' := task.(stack := task.stack[..|task.stack| - 1]);
            && TaskCount(PendingKind, task', x) == TaskCount(PendingKind, task, x)
            && TaskCount(WaitingKind, task', x) == TaskCount(WaitingKind, task, x)
  {
  }

  lemma ReturnEffect(img: Image, s: Pool, t: nat, x: nat)
    requires Sane(img, s) && t < |s.tasks| && s.tasks[t].stack != []
    requires s.tasks[t].stack[|s.tasks[t].stack| - 1].targets == []
    ensures var s' := Step(img, s, t); Pending(s', x) == Pending(s, x) && Waiting(s', x) == Waiting(s, x)
  {
    var task := s.tasks[t];
    var task' := task.(stack := task.stack[..|task.stack| - 1]);
    EmptyFrame(task, x);
    if task'.stack == [] && |task.next| >= GC_BATCH {
      SpawnEffect(s, t, task', x);
    } else {
      SumUpdate(PendingKind, s.tasks, t, task', x);
      SumUpdate(WaitingKind, s.tasks, t, task', x);
    }
  }

  lemma FramesPush(stack: seq<Frame>, f: Frame, x: nat)
    ensures FramesCount(stack + [f], x) == FramesCount(stack, x) + Count(f.targets, x)
  {
    assert (stack + [f])[..|stack|] == stack;
  }

  lemma FrontAndLast<T>(s: seq<T>)
    requires s != []
    ensures s == s[..|s| - 1] + [s[|s| - 1]]
  {
  }

  /** Following the first target of the top frame, in a task's own counts. */
  lemma FollowCounts(img: Image, s: Pool, t: nat, x: nat)
    requires Sane(img, s) && t < |s.tasks| && s.tasks[t].stack != []
    requires s.tasks[t].stack[|s.tasks[t].stack| - 1].targets != []
    ensures var task, task' := s.tasks[t], Step(img, s, t).tasks[t];
            var e := task.stack[|task.stack| - 1].targets[0];
            && e < |img.isecs|
            && var v := img.redirects[e];
            && TaskCount(WaitingKind, task, x) >= One(x, e)
            && TaskCount(WaitingKind, task', x) == TaskCount(WaitingKind, task, x) - One(x, e)
                 + (if ActionOf(img, s, t) == Recurse(e) then Count(img.Edges(v), x) else 0)
            && TaskCount(PendingKind, task', x) == TaskCount(PendingKind, task, x)
                 + (if ActionOf(img, s, t) == Bank(e) then One(x, v) else 0)
  {
    var task := s.tasks[t];
    var n := |task.stack| - 1;
    var top := task.stack[n];
    assert TaskSane(img, task) && FrameSane(img, top, |task.stack| - 1);
    var v := img.redirects[top.targets[0]];
    var stack := task.stack[..n] + [top.(targets := top.targets[1..])];
    FrontAndLast(task.stack);
    CountFirst(top.targets, x);
    FramesPush(task.stack[..n], top, x);
    FramesPush(task.stack[..n], top.(targets := top.targets[1..]), x);
    FramesPush(stack, Frame(img.Edges(v), top.depth + 1), x);
    CountPush(task.next, v, x);
  }

  lemma FollowEffect(img: Image, s: Pool, t: nat, x: nat)
    requires Sane(img, s) && t < |s.tasks| && s.tasks[t].stack != []
    requires s.tasks[t].stack[|s.tasks[t].stack| - 1].targets != []
    ensures var e := s.tasks[t].stack[|s.tasks[t].stack| - 1].targets[0];
            && e < |img.isecs|
            && var s', v := Step(img, s, t), img.redirects[e];
            && Waiting(s, x) >= One(x, e)
            && Waiting(s', x) == Waiting(s, x) - One(x, e)
                 + (if ActionOf(img, s, t) == Recurse(e) then Count(img.Edges(v), x) else 0)
            && Pending(s', x) == Pending(s, x) + (if ActionOf(img, s, t) == Bank(e) then One(x, v) else 0)
  {
    FollowCounts(img, s, t, x);
    var task' := Step(img, s, t).tasks[t];
    SumUpdate(PendingKind, s.tasks, t, task', x);
    SumUpdate(WaitingKind, s.tasks, t, task', x);
    assert Step(img, s, t).tasks == s.tasks[t := task'];
  }

  lemma BatchEffect(img: Image, s: Pool, t: nat, x: nat)
    requires Sane(img, s) && t < |s.tasks| && s.tasks[t].stack == [] && s.tasks[t].batch != []
    ensures var id, s' := s.tasks[t].batch[0], Step(img, s, t);
            && id < |img.isecs| && Pending(s, x) >= One(x, id)
            && Pending(s', x) == Pending(s, x) - One(x, id)
            && Waiting(s', x) == Waiting(s, x) + Count(img.Edges(id), x)
  {
    var task := s.tasks[t];
    assert TaskSane(img, task);
    CountFirst(task.batch, x);
    FramesPush([], Frame(img.Edges(task.batch[0]), 0), x);
    var task' := Step(img, s, t).tasks[t];
    SumUpdate(PendingKind, s.tasks, t, task', x);
    SumUpdate(WaitingKind, s.tasks, t, task', x);
  }

  lemma StepEffect(img: Image, s: Pool, t: nat)
    requires Sane(img, s) && t < |s.tasks|
    ensures Effect(img, s, Step(img, s, t), ActionOf(img, s, t))
  {
    var task := s.tasks[t];
    var s', a := Step(img, s, t), ActionOf(img, s, t);
    match a
    case Move =>
      forall x ensures Pending(s', x) == Pending(s, x) && Waiting(s', x) == Waiting(s, x) {
        if task.stack != [] {
          ReturnEffect(img, s, t, x);
        } else {
          SpawnEffect(s, t, task, x);
        }
      }
    case Expand(id) =>
      BatchEffect(img, s, t, id);
      forall x ensures Pending(s', x) == Pending(s, x) - One(x, id)
                  && Waiting(s', x) == Waiting(s, x) + Count(img.Edges(id), x) {
        BatchEffect(img, s, t, x);
      }
    case Revisit(e) =>
      FollowEffect(img, s, t, e);
      forall x ensures Pending(s', x) == Pending(s, x) && Waiting(s', x) == Waiting(s, x) - One(x, e) {
        FollowEffect(img, s, t, x);
      }
    case Recurse(e) =>
      FollowEffect(img, s, t, e);
      forall x ensures Pending(s', x) == Pending(s, x)
                  && Waiting(s', x) == Waiting(s, x) - One(x, e) + Count(img.Edges(img.redirects[e]), x) {
        FollowEffect(img, s, t, x);
      }
    case Bank(e) =>
      FollowEffect(img, s, t, e);
      forall x ensures Pending(s', x) == Pending(s, x) + One(x, img.redirects[e])
                  && Waiting(s', x) == Waiting(s, x) - One(x, e) {
        FollowEffect(img, s, t, x);
      }
  }
}
