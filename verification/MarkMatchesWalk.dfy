/** Parallel marking and the serial walk find the same subsections, whatever order
    the tasks run in, and no schedule can run for ever. */
module MarkMatchesWalk {
  import opened Sequences
  import opened LinkGraph
  import MarkPool
  import MarkTheorem
  import DeadStrip

  lemma MarkEqualsWalk(img: Image, roots: seq<nat>, schedule: seq<nat>, w0: DeadStrip.Walking,
                       visited: seq<bool>, why: seq<DeadStrip.Why>, level: DeadStrip.Levels)
    requires MarkTheorem.RootsOk(img, roots) && MarkPool.Sane(img, MarkPool.Start(roots))
    requires forall t :: 0 <= t < |MarkTheorem.Run(img, MarkPool.Start(roots), schedule).tasks| ==>
               MarkPool.Idle(MarkTheorem.Run(img, MarkPool.Start(roots), schedule).tasks[t])
    requires DeadStrip.Walked(img, w0, visited, why, level) && DeadStrip.Marked(w0.visited) == SetOf(roots)
    ensures MarkTheorem.Run(img, MarkPool.Start(roots), schedule).visited == DeadStrip.Marked(visited)
  {
    MarkTheorem.MarkIsLeast(img, roots, schedule);
    DeadStrip.WalkedIsLeast(img, w0, visited, why, level);
    var marked := MarkTheorem.Run(img, MarkPool.Start(roots), schedule).visited;
    img.LeastIsUnique(SetOf(roots), marked, DeadStrip.Marked(visited));
  }

  /** Every task picked has work to do. */
  predicate Busy(img: Image, s: MarkPool.Pool, schedule: seq<nat>)
    requires MarkPool.Sane(img, s)
    decreases |schedule|
  {
    schedule == [] ||
    (&& schedule[0] < |s.tasks| && !MarkPool.Idle(s.tasks[schedule[0]])
     && (MarkPool.StepSane(img, s, schedule[0]); Busy(img, MarkPool.Step(img, s, schedule[0]), schedule[1..])))
  }

  /** A schedule that always picks a task with work left is no longer than the work
      there was: marking ends however the tasks are scheduled. */
  lemma {:induction false} EveryScheduleEnds(img: Image, s: MarkPool.Pool, schedule: seq<nat>)
    requires MarkPool.Sane(img, s) && Busy(img, s, schedule)
    ensures |schedule| <= MarkTheorem.Potential(img, s)
    decreases |schedule|
  {
    if schedule != [] {
      MarkPool.StepSane(img, s, schedule[0]);
      MarkTheorem.StepLowersPotential(img, s, schedule[0]);
      EveryScheduleEnds(img, MarkPool.Step(img, s, schedule[0]), schedule[1..]);
    }
  }
}
