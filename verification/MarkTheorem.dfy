/** Whatever order the marking tasks run in, they end, each subsection they mark is
    expanded exactly once, and what they mark is the least set that contains the
    roots and is closed under edges. */
module MarkTheorem {
  import opened Sequences
  import opened LinkGraph
  import opened MarkPool

  /** Every visited subsection is, exactly once, either expanded or pending. */
  ghost predicate Once(s: Pool) {
    forall x :: Count(s.expanded, x) + Pending(s, x) == if x in s.visited then 1 else 0
  }

  /** Every edge of an expanded subsection has been followed or is waiting. */
  ghost predicate Followed(img: Image, s: Pool)
    requires img.Valid()
  {
    forall u: nat, m: nat {:trigger img.Leads(u, m)} ::
      u in s.expanded && u < |img.isecs| && 0 <= m < |img.Edges(u)| ==>
      img.Leads(u, m) in s.visited || Waiting(s, img.Edges(u)[m]) > 0
  }

  /** Nothing outside `bound` has been visited or is about to be. */
  ghost predicate Within(img: Image, s: Pool, bound: set<nat>)
    requires img.Valid()
  {
    && s.visited <= bound
    && forall e: nat :: Waiting(s, e) > 0 ==> e < |img.redirects| && img.redirects[e] in bound
  }

  ghost predicate Inv(img: Image, s: Pool, roots: set<nat>, bound: set<nat>) {
    Sane(img, s) && Once(s) && Followed(img, s) && Within(img, s, bound) && roots <= s.visited
  }

  lemma OnceKept(img: Image, s: Pool, s': Pool, a: Action)
    requires img.Valid() && Effect(img, s, s', a) && Once(s)
    ensures Once(s')
  {
    forall x ensures Count(s'.expanded, x) + Pending(s', x) == if x in s'.visited then 1 else 0 {
      match a
      case Recurse(e) => CountPush(s.expanded, img.redirects[e], x);
      case Expand(id) => CountPush(s.expanded, id, x);
      case _ =>
    }
  }

  lemma ExpandedEdges(img: Image, v: nat, m: nat)
    requires v < |img.isecs| && m < |img.Edges(v)|
    ensures Count(img.Edges(v), img.Edges(v)[m]) > 0
  {
    assert img.Edges(v)[m] in img.Edges(v);
  }

  lemma FollowedKept(img: Image, s: Pool, s': Pool, a: Action)
    requires img.Valid() && Effect(img, s, s', a) && Followed(img, s)
    ensures Followed(img, s')
  {
    forall u: nat, m: nat | u in s'.expanded && u < |img.isecs| && 0 <= m < |img.Edges(u)|
      ensures img.Leads(u, m) in s'.visited || Waiting(s', img.Edges(u)[m]) > 0
    {
      ExpandedEdges(img, u, m);
      assert u in s.expanded ==> img.Leads(u, m) in s.visited || Waiting(s, img.Edges(u)[m]) > 0;
    }
  }

  lemma CountIn(xs: seq<nat>, x: nat)
    ensures Count(xs, x) > 0 <==> x in xs
  {
  }

  lemma NewEdgesWithin(img: Image, bound: set<nat>, v: nat)
    requires img.Valid() && img.Closed(bound) && v in bound && v < |img.isecs|
    ensures forall e: nat :: Count(img.Edges(v), e) > 0 ==> e < |img.redirects| && img.redirects[e] in bound
  {
    forall e: nat | Count(img.Edges(v), e) > 0 ensures e < |img.redirects| && img.redirects[e] in bound {
      CountIn(img.Edges(v), e);
      img.EdgesInBounds(v);
      var m :| 0 <= m < |img.Edges(v)| && img.Edges(v)[m] == e;
      assert img.Leads(v, m) == img.redirects[e];
    }
  }

  lemma WithinKept(img: Image, s: Pool, s': Pool, a: Action, bound: set<nat>)
    requires img.Valid() && Effect(img, s, s', a) && Within(img, s, bound) && img.Closed(bound) && Once(s)
    ensures Within(img, s', bound)
  {
    match a
    case Recurse(e) => NewEdgesWithin(img, bound, img.redirects[e]);
    case Expand(id) =>
      assert id in s.visited;
      NewEdgesWithin(img, bound, id);
    case _ =>
  }

  lemma StepInv(img: Image, s: Pool, t: nat, roots: set<nat>, bound: set<nat>)
    requires Inv(img, s, roots, bound) && img.Closed(bound) && t < |s.tasks|
    ensures Inv(img, Step(img, s, t), roots, bound)
  {
    var s', a := Step(img, s, t), ActionOf(img, s, t);
    StepSane(img, s, t);
    StepEffect(img, s, t);
    OnceKept(img, s, s', a);
    FollowedKept(img, s, s', a);
    WithinKept(img, s, s', a, bound);
  }

  // ---- Every run ends ----

  function Degree(img: Image, id: nat): nat { if id < |img.isecs| then |img.Edges(id)| else 0 }

  function Cost(img: Image, ids: seq<nat>, extra: nat): nat {
    if ids == [] then 0 else Degree(img, ids[0]) + extra + Cost(img, ids[1..], extra)
  }

  lemma {:induction false} CostPush(img: Image, ids: seq<nat>, id: nat, extra: nat)
    ensures Cost(img, ids + [id], extra) == Cost(img, ids, extra) + Degree(img, id) + extra
  {
    if ids == [] {
      assert [id][1..] == [];
    } else {
      assert (ids + [id])[1..] == ids[1..] + [id];
      CostPush(img, ids[1..], id, extra);
    }
  }

  lemma {:induction false} CostExtra(img: Image, ids: seq<nat>, extra: nat)
    ensures Cost(img, ids, extra + 1) == Cost(img, ids, extra) + |ids|
  {
    if ids != [] {
      CostExtra(img, ids[1..], extra);
    }
  }

  function FramesWork(stack: seq<Frame>): nat {
    if stack == [] then 0 else FramesWork(stack[..|stack| - 1]) + |stack[|stack| - 1].targets| + 1
  }

  lemma FramesWorkPush(stack: seq<Frame>, f: Frame)
    ensures FramesWork(stack + [f]) == FramesWork(stack) + |f.targets| + 1
  {
    assert (stack + [f])[..|stack|] == stack;
  }

  function TaskWork(img: Image, t: Task): nat {
    Cost(img, t.batch, 2) + Cost(img, t.next, 3) + FramesWork(t.stack)
  }

  function Work(img: Image, tasks: seq<Task>): nat {
    if tasks == [] then 0 else Work(img, tasks[..|tasks| - 1]) + TaskWork(img, tasks[|tasks| - 1])
  }

  lemma {:induction false} WorkUpdate(img: Image, tasks: seq<Task>, t: nat, task: Task)
    requires t < |tasks|
    ensures Work(img, tasks[t := task]) == Work(img, tasks) - TaskWork(img, tasks[t]) + TaskWork(img, task)
  {
    var last := |tasks| - 1;
    var tasks' := tasks[t := task];
    if t == last {
      assert tasks'[..last] == tasks[..last];
    } else {
      assert tasks'[..last] == tasks[..last][t := task];
      WorkUpdate(img, tasks[..last], t, task);
    }
  }

  lemma WorkPush(img: Image, tasks: seq<Task>, task: Task)
    ensures Work(img, tasks + [task]) == Work(img, tasks) + TaskWork(img, task)
  {
    assert (tasks + [task])[..|tasks|] == tasks;
  }

  function Unvisited(img: Image, visited: set<nat>, n: nat): nat {
    if n == 0 then 0
    else Unvisited(img, visited, n - 1) + (if n - 1 in visited then 0 else Degree(img, n - 1) + 4)
  }

  lemma {:induction false} UnvisitedDrop(img: Image, visited: set<nat>, v: nat, n: nat)
    requires v !in visited
    ensures Unvisited(img, visited + {v}, n) == Unvisited(img, visited, n) - (if v < n then Degree(img, v) + 4 else 0)
  {
    if n > 0 {
      UnvisitedDrop(img, visited, v, n - 1);
    }
  }

  function Potential(img: Image, s: Pool): nat {
    Unvisited(img, s.visited, |img.isecs|) + Work(img, s.tasks)
  }

  lemma SpawnWork(img: Image, s: Pool, t: nat, task: Task)
    requires t < |s.tasks|
    ensures Work(img, Spawn(s, t, task).tasks) ==
            Work(img, s.tasks) - TaskWork(img, s.tasks[t]) + TaskWork(img, task) - |task.next|
  {
    var kept, spawned := task.(next := []), Task(task.next, [], []);
    WorkUpdate(img, s.tasks, t, kept);
    WorkPush(img, s.tasks[t := kept], spawned);
    CostExtra(img, task.next, 2);
  }

  /** The frames once a target of the last is followed, and with a further one. */
  lemma FollowedFrames(stack: seq<Frame>, f: Frame)
    requires stack != [] && stack[|stack| - 1].targets != []
    ensures var n := |stack| - 1;
            var stack' := stack[..n] + [stack[n].(targets := stack[n].targets[1..])];
            && FramesWork(stack') == FramesWork(stack) - 1
            && FramesWork(stack' + [f]) == FramesWork(stack) + |f.targets|
  {
    var n := |stack| - 1;
    var top' := stack[n].(targets := stack[n].targets[1..]);
    FramesWorkPush(stack[..n], top');
    FramesWorkPush(stack[..n] + [top'], f);
  }

  lemma FollowWork(img: Image, s: Pool, t: nat)
    requires Sane(img, s) && t < |s.tasks| && s.tasks[t].stack != []
    requires s.tasks[t].stack[|s.tasks[t].stack| - 1].targets != []
    ensures var s' := Step(img, s, t);
            var gain := Unvisited(img, s.visited, |img.isecs|) - Unvisited(img, s'.visited, |img.isecs|);
            gain >= 0 && TaskWork(img, s'.tasks[t]) < TaskWork(img, s.tasks[t]) + gain
            && s'.tasks == s.tasks[t := s'.tasks[t]]
  {
    var task := s.tasks[t];
    var n := |task.stack| - 1;
    var top := task.stack[n];
    assert TaskSane(img, task) && FrameSane(img, top, |task.stack| - 1);
    var v := img.redirects[top.targets[0]];
    FollowedWork(img, task, v, Frame(img.Edges(v), top.depth + 1));
    if v !in s.visited {
      UnvisitedDrop(img, s.visited, v, |img.isecs|);
    }
  }

  /** A task's work once a target of its last frame is followed: nothing new, a further
      frame, or v banked. */
  lemma FollowedWork(img: Image, task: Task, v: nat, f: Frame)
    requires task.stack != [] && task.stack[|task.stack| - 1].targets != []
    ensures var n := |task.stack| - 1;
            var stack := task.stack[..n] + [task.stack[n].(targets := task.stack[n].targets[1..])];
            && TaskWork(img, task.(stack := stack)) == TaskWork(img, task) - 1
            && TaskWork(img, task.(stack := stack + [f])) == TaskWork(img, task) + |f.targets|
            && TaskWork(img, task.(stack := stack, next := task.next + [v])) == TaskWork(img, task) + Degree(img, v) + 2
  {
    FollowedFrames(task.stack, f);
    CostPush(img, task.next, v, 3);
  }

  /** Every step of a task that has anything left to do lowers the potential, so no
      run is longer than the potential of its start. */
  lemma StepLowersPotential(img: Image, s: Pool, t: nat)
    requires Sane(img, s) && t < |s.tasks|
    ensures if Idle(s.tasks[t]) then Step(img, s, t) == s else Potential(img, Step(img, s, t)) < Potential(img, s)
  {
    var task := s.tasks[t];
    if task.stack != [] {
      if task.stack[|task.stack| - 1].targets == [] {
        var task' := task.(stack := task.stack[..|task.stack| - 1]);
        WorkUpdate(img, s.tasks, t, task');
        SpawnWork(img, s, t, task');
      } else {
        FollowWork(img, s, t);
        WorkUpdate(img, s.tasks, t, Step(img, s, t).tasks[t]);
      }
    } else if task.batch != [] {
      FramesWorkPush([], Frame(img.Edges(task.batch[0]), 0));
      WorkUpdate(img, s.tasks, t, Step(img, s, t).tasks[t]);
    } else if task.next != [] {
      SpawnWork(img, s, t, task);
    }
  }

  // ---- A whole run ----

  /** A run follows a schedule: the index of the task to take each step, among the
      tasks there are by then. */
  function Run(img: Image, s: Pool, schedule: seq<nat>): Pool
    requires Sane(img, s)
    decreases |schedule|
  {
    if schedule == [] then s
    else if schedule[0] >= |s.tasks| then Run(img, s, schedule[1..])
    else
      assert Sane(img, Step(img, s, schedule[0])) by { StepSane(img, s, schedule[0]); }
      Run(img, Step(img, s, schedule[0]), schedule[1..])
  }

  lemma {:induction false} RunInv(img: Image, s: Pool, schedule: seq<nat>, roots: set<nat>, bound: set<nat>)
    requires Inv(img, s, roots, bound) && img.Closed(bound)
    ensures Inv(img, Run(img, s, schedule), roots, bound)
    decreases |schedule|
  {
    if schedule != [] {
      if schedule[0] >= |s.tasks| {
        RunInv(img, s, schedule[1..], roots, bound);
      } else {
        StepInv(img, s, schedule[0], roots, bound);
        RunInv(img, Step(img, s, schedule[0]), schedule[1..], roots, bound);
      }
    }
  }

  lemma {:induction false} SumFront(kind: Kind, t: Task, rest: seq<Task>, x: nat)
    ensures TotalCount(kind, [t] + rest, x) == TaskCount(kind, t, x) + TotalCount(kind, rest, x)
  {
    if rest == [] {
      assert ([t] + rest)[..0] == [];
    } else {
      var n := |rest| - 1;
      assert ([t] + rest)[..n + 1] == [t] + rest[..n];
      SumFront(kind, t, rest[..n], x);
    }
  }

  function TasksOf(chunks: seq<seq<nat>>): seq<Task> {
    seq(|chunks|, i requires 0 <= i < |chunks| => Task(chunks[i], [], []))
  }

  lemma {:induction false} ChunksCount(roots: seq<nat>, x: nat)
    ensures TotalCount(PendingKind, TasksOf(Chunks(roots)), x) == Count(roots, x)
    ensures TotalCount(WaitingKind, TasksOf(Chunks(roots)), x) == 0
    decreases |roots|
  {
    if |roots| <= GC_BATCH {
      assert TasksOf(Chunks(roots)) == [Task(roots, [], [])];
      assert [Task(roots, [], [])][..0] == [];
    } else {
      var first, rest := roots[..GC_BATCH], Chunks(roots[GC_BATCH..]);
      ChunksCount(roots[GC_BATCH..], x);
      assert TasksOf(Chunks(roots)) == [Task(first, [], [])] + TasksOf(rest);
      SumFront(PendingKind, Task(first, [], []), TasksOf(rest), x);
      SumFront(WaitingKind, Task(first, [], []), TasksOf(rest), x);
      assert roots == first + roots[GC_BATCH..];
    }
  }

  lemma {:induction false} ChunksSane(img: Image, roots: seq<nat>)
    requires Bounded(roots, |img.isecs|)
    ensures forall c :: 0 <= c < |Chunks(roots)| ==> Bounded(Chunks(roots)[c], |img.isecs|)
    decreases |roots|
  {
    if |roots| > GC_BATCH {
      ChunksSane(img, roots[GC_BATCH..]);
    }
  }

  /** The roots are found already visited, each once. */
  ghost predicate RootsOk(img: Image, roots: seq<nat>) {
    img.Valid() && Bounded(roots, |img.isecs|) && forall i, j :: 0 <= i < j < |roots| ==> roots[i] != roots[j]
  }

  lemma {:induction false} DistinctCount(roots: seq<nat>, x: nat)
    requires forall i, j :: 0 <= i < j < |roots| ==> roots[i] != roots[j]
    ensures Count(roots, x) == if x in roots then 1 else 0
  {
    if roots != [] {
      var n := |roots| - 1;
      assert roots == roots[..n] + [roots[n]];
      DistinctCount(roots[..n], x);
      CountPush(roots[..n], roots[n], x);
    }
  }

  lemma StartInv(img: Image, roots: seq<nat>, bound: set<nat>)
    requires RootsOk(img, roots) && SetOf(roots) <= bound
    ensures Inv(img, Start(roots), SetOf(roots), bound)
  {
    var s := Start(roots);
    assert s.tasks == TasksOf(Chunks(roots));
    forall x ensures Pending(s, x) == (if x in s.visited then 1 else 0) && Waiting(s, x) == 0 {
      ChunksCount(roots, x);
      DistinctCount(roots, x);
    }
    ChunksSane(img, roots);
  }

  lemma {:induction false} AllIdle(tasks: seq<Task>, kind: Kind, x: nat)
    requires forall t :: 0 <= t < |tasks| ==> Idle(tasks[t])
    ensures TotalCount(kind, tasks, x) == 0
  {
    if tasks != [] {
      AllIdle(tasks[..|tasks| - 1], kind, x);
    }
  }

  /** For every schedule that leaves no task with work: the visited set is the least
      one, and each of its members was expanded exactly once. */
  lemma MarkIsLeast(img: Image, roots: seq<nat>, schedule: seq<nat>)
    requires RootsOk(img, roots)
    requires Sane(img, Start(roots))
    requires forall t :: 0 <= t < |Run(img, Start(roots), schedule).tasks| ==>
               Idle(Run(img, Start(roots), schedule).tasks[t])
    ensures var s := Run(img, Start(roots), schedule);
            && img.IsLeast(SetOf(roots), s.visited)
            && forall x :: Count(s.expanded, x) == if x in s.visited then 1 else 0
  {
    var s := Run(img, Start(roots), schedule);
    forall bound: set<nat> | SetOf(roots) <= bound && img.Closed(bound)
      ensures Inv(img, s, SetOf(roots), bound)
    {
      StartInv(img, roots, bound);
      RunInv(img, Start(roots), schedule, SetOf(roots), bound);
    }
    var ids := seq(|img.isecs|, i => i);
    var all := SetOf(ids);
    forall u: nat, v: nat | u in all && u < |img.isecs| && img.Edge(u, v) ensures v in all {
      assert v < |img.isecs| && ids[v] == v;
    }
    forall r | r in roots ensures r in all {
      assert ids[r] == r;
    }
    assert Inv(img, s, SetOf(roots), all);
    forall x ensures Pending(s, x) == 0 && Waiting(s, x) == 0 {
      AllIdle(s.tasks, PendingKind, x);
      AllIdle(s.tasks, WaitingKind, x);
    }
    forall u: nat, v: nat | u in s.visited && u < |img.isecs| && img.Edge(u, v) ensures v in s.visited {
      CountIn(s.expanded, u);
      var m := img.EdgeIsLed(u, v);
      assert Waiting(s, img.Edges(u)[m]) == 0;
    }
  }

  /** Some schedule ends: any task with work left may be run, and that cannot go on
      for ever. */
  lemma {:induction false} MarkEnds(img: Image, s: Pool) returns (schedule: seq<nat>)
    requires Sane(img, s)
    ensures forall t :: 0 <= t < |Run(img, s, schedule).tasks| ==> Idle(Run(img, s, schedule).tasks[t])
    decreases Potential(img, s)
  {
    schedule := [];
    if t: nat :| t < |s.tasks| && !Idle(s.tasks[t]) {
      StepSane(img, s, t);
      StepLowersPotential(img, s, t);
      var rest := MarkEnds(img, Step(img, s, t));
      schedule := [t] + rest;
      assert schedule[1..] == rest;
    }
  }
}
