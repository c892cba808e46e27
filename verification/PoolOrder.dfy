// The order in which the download pool prints and collects: nothing overtakes anything on a queue, and what
// each worker puts out is what its jobs put out, one after the other.
module PoolOrder {
  import opened WorkerPool
  import opened Wrappers

  /** Something put out, and by which worker. */
  datatype Tag = Tag(worker: nat, output: Output)

  /** What a step puts out. */
  function PutBy(c: Config, s: State, a: Actor): seq<Tag> {
    match a
    case Thread(i) =>
      if i < |s.workers| && s.workers[i].Busy? && s.workers[i].put < |c.outputs(i, s.workers[i].job)|
      then [Tag(i, c.outputs(i, s.workers[i].job)[s.workers[i].put])] else []
    case _ => []
  }

  /** All that a run puts out, in order. */
  function AllPut(c: Config, s: State, schedule: seq<Actor>): seq<Tag>
    decreases |schedule|
  {
    if schedule == [] then []
    else
      match Act(c, s, schedule[0])
      case None => []
      case Some(t) => PutBy(c, s, schedule[0]) + AllPut(c, t, schedule[1..])
  }

  function Lines(tags: seq<Tag>): seq<Output> {
    if tags == [] then [] else (if tags[0].output.Line? then [tags[0].output] else []) + Lines(tags[1..])
  }

  function Codes(tags: seq<Tag>): seq<Output> {
    if tags == [] then [] else (if tags[0].output.Code? then [tags[0].output] else []) + Codes(tags[1..])
  }

  function ByWorker(tags: seq<Tag>, i: nat): seq<Output> {
    if tags == [] then [] else (if tags[0].worker == i then [tags[0].output] else []) + ByWorker(tags[1..], i)
  }

  /** The lines that wait on the printer's queue. */
  function Waiting(stdout: seq<Option<Output>>): seq<Output> {
    if stdout == [] then [] else (if stdout[0].Some? then [stdout[0].value] else []) + Waiting(stdout[1..])
  }

  lemma {:induction false} WaitingSnoc(stdout: seq<Option<Output>>, o: Option<Output>)
    ensures Waiting(stdout + [o]) == Waiting(stdout) + if o.Some? then [o.value] else []
  {
    if stdout == [] {
      assert stdout + [o] == [o];
      assert Waiting([o][1..]) == [];
    } else {
      assert (stdout + [o])[1..] == stdout[1..] + [o];
      WaitingSnoc(stdout[1..], o);
      Regroup(if stdout[0].Some? then [stdout[0].value] else [], Waiting(stdout[1..]), if o.Some? then [o.value] else []);
    }
  }

  // -------------------------------------------------------------- the two queues

  lemma LinesOfOne(t: Tag)
    ensures Lines([t]) == (if t.output.Line? then [t.output] else []) && Codes([t]) == (if t.output.Code? then [t.output] else [])
    ensures forall i: nat :: ByWorker([t], i) == if t.worker == i then [t.output] else []
  {
    assert [t][1..] == [];
  }

  lemma WorkerQueues(c: Config, s: State, i: nat, t: State)
    requires i < |s.workers| && WorkerStep(c, s, i) == Some(t)
    ensures t.printed == s.printed
    ensures Waiting(t.stdout) == Waiting(s.stdout) + Lines(PutBy(c, s, Thread(i)))
    ensures t.codes == s.codes + Codes(PutBy(c, s, Thread(i)))
  {
    var put := PutBy(c, s, Thread(i));
    if put != [] {
      LinesOfOne(put[0]);
      WaitingSnoc(s.stdout, Some(put[0].output));
    }
  }

  lemma PrinterQueues(s: State, t: State)
    requires PrinterStep(s) == Some(t)
    ensures t.printed + Waiting(t.stdout) == s.printed + Waiting(s.stdout) && t.codes == s.codes
  {
    var o := s.stdout[0];
    if o.Some? {
      Regroup(s.printed, [o.value], Waiting(s.stdout[1..]));
    }
  }

  lemma StepQueues(c: Config, s: State, a: Actor, t: State)
    requires Act(c, s, a) == Some(t)
    ensures t.printed + Waiting(t.stdout) == s.printed + Waiting(s.stdout) + Lines(PutBy(c, s, a))
    ensures t.codes == s.codes + Codes(PutBy(c, s, a))
  {
    match a
    case Main => WaitingSnoc(s.stdout, None);
    case Thread(i) =>
      WorkerQueues(c, s, i, t);
      Regroup(s.printed, Waiting(s.stdout), Lines(PutBy(c, s, a)));
    case Printer => PrinterQueues(s, t);
  }

  lemma {:induction false} LinesSplit(a: seq<Tag>, b: seq<Tag>)
    ensures Lines(a + b) == Lines(a) + Lines(b)
  {
    if a == [] {
      assert a + b == b;
    } else {
      assert (a + b)[1..] == a[1..] + b;
      LinesSplit(a[1..], b);
      Regroup(if a[0].output.Line? then [a[0].output] else [], Lines(a[1..]), Lines(b));
    }
  }

  lemma {:induction false} CodesSplit(a: seq<Tag>, b: seq<Tag>)
    ensures Codes(a + b) == Codes(a) + Codes(b)
  {
    if a == [] {
      assert a + b == b;
    } else {
      assert (a + b)[1..] == a[1..] + b;
      CodesSplit(a[1..], b);
      Regroup(if a[0].output.Code? then [a[0].output] else [], Codes(a[1..]), Codes(b));
    }
  }

  lemma {:induction false} ByWorkerSplits(a: seq<Tag>, b: seq<Tag>, i: nat)
    ensures ByWorker(a + b, i) == ByWorker(a, i) + ByWorker(b, i)
  {
    if a == [] {
      assert a + b == b;
    } else {
      assert (a + b)[1..] == a[1..] + b;
      ByWorkerSplits(a[1..], b, i);
      Regroup(if a[0].worker == i then [a[0].output] else [], ByWorker(a[1..], i), ByWorker(b, i));
    }
  }

  /** Behind what was there, the run has printed or queued its lines and collected its codes, each in the order they were put out. */
  lemma {:induction false} RunQueues(c: Config, s: State, schedule: seq<Actor>, end: State)
    requires Run(c, s, schedule) == Some(end)
    ensures end.printed + Waiting(end.stdout) == s.printed + Waiting(s.stdout) + Lines(AllPut(c, s, schedule))
    ensures end.codes == s.codes + Codes(AllPut(c, s, schedule))
    decreases |schedule|
  {
    if schedule != [] {
      var t := Act(c, s, schedule[0]).value;
      var put, rest := PutBy(c, s, schedule[0]), AllPut(c, t, schedule[1..]);
      StepQueues(c, s, schedule[0], t);
      RunQueues(c, t, schedule[1..], end);
      LinesSplit(put, rest);
      CodesSplit(put, rest);
      Regroup(s.printed + Waiting(s.stdout), Lines(put), Lines(rest));
      Regroup(s.codes, Codes(put), Codes(rest));
    }
  }

  // ---------------------------------------------------------------- each worker

  /** The jobs that worker i has taken, in order. */
  function JobsOf(taken: seq<Taken>, i: nat): seq<nat> {
    if taken == [] then []
    else
      var last := taken[|taken| - 1];
      JobsOf(taken[..|taken| - 1], i) + if last.worker == i && last.item.Some? then [last.item.value] else []
  }

  function OutputsOf(c: Config, i: nat, jobs: seq<nat>): seq<Output> {
    if jobs == [] then [] else OutputsOf(c, i, jobs[..|jobs| - 1]) + c.outputs(i, jobs[|jobs| - 1])
  }

  /** Has the worker put out what its jobs put out, the last of them up to where it is? */
  predicate HasPut(c: Config, i: nat, w: Worker, jobs: seq<nat>, out: seq<Output>) {
    match w
    case Busy(j, put) =>
      && jobs != [] && jobs[|jobs| - 1] == j && put <= |c.outputs(i, j)|
      && out == OutputsOf(c, i, jobs[..|jobs| - 1]) + c.outputs(i, j)[..put]
    case _ => out == OutputsOf(c, i, jobs)
  }

  lemma TakingPuts(c: Config, i: nat, w: Worker, jobs: seq<nat>, out: seq<Output>, item: Option<nat>)
    requires HasPut(c, i, w, jobs, out) && w == Getting
    ensures HasPut(c, i, After(item), jobs + (if item.Some? then [item.value] else []), out)
  {
    if item.Some? {
      assert (jobs + [item.value])[..|jobs|] == jobs;
      assert out + c.outputs(i, item.value)[..0] == out;
    } else {
      assert jobs + [] == jobs;
    }
  }

  lemma WorkingPuts(c: Config, i: nat, w: Worker, jobs: seq<nat>, out: seq<Output>)
    requires HasPut(c, i, w, jobs, out) && w.Busy?
    ensures w.put < |c.outputs(i, w.job)| ==>
              HasPut(c, i, Busy(w.job, w.put + 1), jobs, out + [c.outputs(i, w.job)[w.put]])
    ensures w.put >= |c.outputs(i, w.job)| ==> HasPut(c, i, Getting, jobs, out)
  {
    var es := c.outputs(i, w.job);
    if w.put < |es| {
      assert es[..w.put + 1] == es[..w.put] + [es[w.put]];
      Regroup(OutputsOf(c, i, jobs[..|jobs| - 1]), es[..w.put], [es[w.put]]);
    } else {
      assert es[..w.put] == es;
    }
  }

  lemma JobsSnoc(taken: seq<Taken>, x: Taken, i: nat)
    ensures JobsOf(taken + [x], i) == JobsOf(taken, i) + if x.worker == i && x.item.Some? then [x.item.value] else []
  {
    assert (taken + [x])[..|taken|] == taken;
  }

  /** One step, for worker i. */
  lemma StepPuts(c: Config, s: State, a: Actor, t: State, i: nat, out: seq<Output>)
    requires Act(c, s, a) == Some(t) && i < |s.workers|
    requires HasPut(c, i, s.workers[i], JobsOf(s.taken, i), out)
    ensures |t.workers| == |s.workers|
    ensures HasPut(c, i, t.workers[i], JobsOf(t.taken, i), out + ByWorker(PutBy(c, s, a), i))
  {
    if a.Thread? {
      WorkerPuts(c, s, a.i, t, i, out);
    } else {
      NothingPut(c, s, a, t);
      assert out + [] == out;
    }
  }

  lemma NothingPut(c: Config, s: State, a: Actor, t: State)
    requires Act(c, s, a) == Some(t) && !a.Thread?
    ensures t.workers == s.workers && t.taken == s.taken && PutBy(c, s, a) == []
  {
  }

  /** A worker that waits for an item takes one. */
  lemma TakerPuts(c: Config, s: State, k: nat, t: State, i: nat, out: seq<Output>)
    requires k < |s.workers| && WorkerStep(c, s, k) == Some(t) && i < |s.workers| && s.workers[k] == Getting
    requires HasPut(c, i, s.workers[i], JobsOf(s.taken, i), out)
    ensures |t.workers| == |s.workers|
    ensures HasPut(c, i, t.workers[i], JobsOf(t.taken, i), out)
  {
    JobsSnoc(s.taken, Taken(k, s.work[0]), i);
    if k == i {
      TakingPuts(c, i, Getting, JobsOf(s.taken, i), out, s.work[0]);
    } else {
      assert JobsOf(s.taken, i) + [] == JobsOf(s.taken, i);
    }
  }

  lemma WorkerPuts(c: Config, s: State, k: nat, t: State, i: nat, out: seq<Output>)
    requires k < |s.workers| && WorkerStep(c, s, k) == Some(t) && i < |s.workers|
    requires HasPut(c, i, s.workers[i], JobsOf(s.taken, i), out)
    ensures |t.workers| == |s.workers|
    ensures HasPut(c, i, t.workers[i], JobsOf(t.taken, i), out + ByWorker(PutBy(c, s, Thread(k)), i))
  {
    var w, put := s.workers[k], PutBy(c, s, Thread(k));
    assert out + [] == out;
    if w == Getting {
      TakerPuts(c, s, k, t, i, out);
    } else {
      if put != [] {
        LinesOfOne(put[0]);
      }
      if k == i {
        WorkingPuts(c, i, w, JobsOf(s.taken, i), out);
      }
    }
  }

  lemma {:induction false} RunPuts(c: Config, s: State, schedule: seq<Actor>, end: State, i: nat, out: seq<Output>)
    requires Run(c, s, schedule) == Some(end) && i < |s.workers|
    requires HasPut(c, i, s.workers[i], JobsOf(s.taken, i), out)
    ensures |end.workers| == |s.workers|
    ensures HasPut(c, i, end.workers[i], JobsOf(end.taken, i), out + ByWorker(AllPut(c, s, schedule), i))
    decreases |schedule|
  {
    if schedule == [] {
      assert out + [] == out;
    } else {
      var t := Act(c, s, schedule[0]).value;
      var put, rest := PutBy(c, s, schedule[0]), AllPut(c, t, schedule[1..]);
      StepPuts(c, s, schedule[0], t, i, out);
      RunPuts(c, t, schedule[1..], end, i, out + ByWorker(put, i));
      ByWorkerSplits(put, rest, i);
      Regroup(out, ByWorker(put, i), ByWorker(rest, i));
    }
  }

  // -------------------------------------------------------------------- results

  /**
   * In every interleaving there is one order in which everything was put out: the lines printed and those
   * still waiting are the lines of that order, the codes collected are its codes, and of each worker it
   * holds what its jobs put out, one job after the other, in the order in which the worker took them.
   */
  lemma PrintedInOrder(c: Config, schedule: seq<Actor>, i: nat)
    requires Run(c, Start(c), schedule).Some? && i < c.workers
    ensures var end, put := Run(c, Start(c), schedule).value, AllPut(c, Start(c), schedule);
            && end.printed + Waiting(end.stdout) == Lines(put)
            && end.codes == Codes(put)
            && i < |end.workers|
            && HasPut(c, i, end.workers[i], JobsOf(end.taken, i), ByWorker(put, i))
  {
    var s := Start(c);
    var end, put := Run(c, s, schedule).value, AllPut(c, s, schedule);
    RunQueues(c, s, schedule, end);
    assert s.printed + Waiting(s.stdout) == [] && [] + Lines(put) == Lines(put) && s.codes + Codes(put) == Codes(put);
    RunPuts(c, s, schedule, end, i, []);
    assert [] + ByWorker(put, i) == ByWorker(put, i);
  }

  /** When the call has returned, every worker has put out all that its jobs put out, and all lines are printed. */
  lemma AllPrintedInOrder(c: Config, schedule: seq<Actor>, i: nat)
    requires Run(c, Start(c), schedule).Some? && Run(c, Start(c), schedule).value.main.Returned?
    requires i < c.workers
    ensures var end, put := Run(c, Start(c), schedule).value, AllPut(c, Start(c), schedule);
            && end.printed == Lines(put) && end.codes == Codes(put)
            && ByWorker(put, i) == OutputsOf(c, i, JobsOf(end.taken, i))
  {
    var end := Run(c, Start(c), schedule).value;
    PrintedInOrder(c, schedule, i);
    RunFromStart(c, schedule);
    ReturnMeansDone(c, schedule);
    assert end.printed + [] == end.printed;
    assert end.workers[i] == Exited;
  }

  // ---------------------------------------------------------------- the messages

  /** The positions of the reports that have something to say. */
  function Speaking(reports: seq<Report>): seq<nat> {
    if reports == [] then []
    else
      var n := |reports| - 1;
      Speaking(reports[..n]) + if reports[n].message.Some? && reports[n].message.value != "" then [n] else []
  }

  predicate Rising(ids: seq<nat>) {
    forall k, l :: 0 <= k < l < |ids| ==> ids[k] < ids[l]
  }

  lemma {:induction false} SpeakingAre(reports: seq<Report>)
    ensures forall k :: k in Speaking(reports) <==>
              0 <= k < |reports| && reports[k].message.Some? && reports[k].message.value != ""
    ensures Rising(Speaking(reports))
  {
    if reports != [] {
      var front := reports[..|reports| - 1];
      SpeakingAre(front);
      assert forall k :: 0 <= k < |front| ==> front[k] == reports[k];
      assert forall k :: 0 <= k < |Speaking(front)| ==> Speaking(front)[k] in Speaking(front);
    }
  }

  lemma {:induction false} MessagesAreSpoken(reports: seq<Report>)
    ensures |Messages(reports)| == |Speaking(reports)|
    ensures forall k :: 0 <= k < |Speaking(reports)| ==>
              Speaking(reports)[k] < |reports| && reports[Speaking(reports)[k]].message == Some(Messages(reports)[k])
  {
    if reports != [] {
      var front := reports[..|reports| - 1];
      MessagesAreSpoken(front);
      assert forall k :: 0 <= k < |front| ==> front[k] == reports[k];
    }
  }

  /** The messages are those of the reports that have one that is not empty, each once and in their order. */
  lemma MessagesInOrder(reports: seq<Report>)
    ensures var ids := Speaking(reports);
            && (forall k :: k in ids <==> 0 <= k < |reports| && reports[k].message.Some? && reports[k].message.value != "")
            && Rising(ids) && |Messages(reports)| == |ids|
            && forall k :: 0 <= k < |ids| ==> ids[k] < |reports| && reports[ids[k]].message == Some(Messages(reports)[k])
  {
    SpeakingAre(reports);
    MessagesAreSpoken(reports);
  }
}
