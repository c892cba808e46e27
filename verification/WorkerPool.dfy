// The download pool: worker threads on a FIFO queue that ends in one sentinel per worker,
// a printer thread on a second queue, and the return code collected at the end.
module WorkerPool {
  import opened Wrappers

  /** What a job puts on the shared queues: a line to print, or a return code with a message. */
  datatype Output = Line(text: string) | Code(code: int, message: string)

  /**
   * jobs jobs for workers threads; outputs gives what a job puts out, in order, when a
   * given worker runs it. Every function of that shape is allowed.
   */
  datatype Config = Config(jobs: nat, workers: nat, outputs: (nat, nat) -> seq<Output>)

  datatype Worker = Getting | Busy(job: nat, put: nat) | Exited

  datatype MainPhase = PutJobs(k: nat) | PutSentinels(k: nat) | Join(k: nat) | StopPrinter | JoinPrinter | Returned(result: int)

  /** Who took which item off the work queue; None is the sentinel. */
  datatype Taken = Taken(worker: nat, item: Option<nat>)

  datatype State = State(
    main: MainPhase, work: seq<Option<nat>>, workers: seq<Worker>, taken: seq<Taken>,
    stdout: seq<Option<Output>>, printed: seq<Output>, printerDone: bool, codes: seq<Output>)

  function Start(c: Config): State {
    State(PutJobs(0), [], seq(c.workers, i => Getting), [], [], [], false, [])
  }

  // ---------------------------------------------------------------------- steps

  /** The largest code, and 0 if there is none above it. */
  function MaxCode(codes: seq<Output>): int {
    if codes == [] then 0
    else
      var last, m := codes[|codes| - 1], MaxCode(codes[..|codes| - 1]);
      if last.Code? && last.code > m then last.code else m
  }

  lemma {:induction false} MaxCodeIsMax(codes: seq<Output>)
    ensures MaxCode(codes) >= 0
    ensures forall o :: o in codes && o.Code? ==> o.code <= MaxCode(codes)
    ensures MaxCode(codes) == 0 || exists o :: o in codes && o.Code? && o.code == MaxCode(codes)
  {
    if codes != [] {
      var front, last := codes[..|codes| - 1], codes[|codes| - 1];
      MaxCodeIsMax(front);
      assert forall o :: o in codes <==> o in front || o == last;
    }
  }

  function MainStep(c: Config, s: State): Option<State> {
    match s.main
    case PutJobs(k) =>
      if k < c.jobs then Some(s.(main := PutJobs(k + 1), work := s.work + [Some(k)]))
      else Some(s.(main := PutSentinels(0)))
    case PutSentinels(k) =>
      if k < c.workers then Some(s.(main := PutSentinels(k + 1), work := s.work + [None]))
      else Some(s.(main := Join(0)))
    case Join(k) =>
      if k >= |s.workers| then Some(s.(main := StopPrinter))
      else if s.workers[k] == Exited then Some(s.(main := Join(k + 1)))
      else None
    case StopPrinter => Some(s.(main := JoinPrinter, stdout := s.stdout + [None]))
    case JoinPrinter => if s.printerDone then Some(s.(main := Returned(MaxCode(s.codes)))) else None
    case Returned(_) => None
  }

  /** What a worker does with an item. */
  function After(item: Option<nat>): Worker {
    match item case None => Exited case Some(j) => Busy(j, 0)
  }

  function WorkerStep(c: Config, s: State, i: nat): Option<State>
    requires i < |s.workers|
  {
    match s.workers[i]
    case Getting =>
      if s.work == [] then None
      else
        Some(s.(work := s.work[1..], taken := s.taken + [Taken(i, s.work[0])],
                workers := s.workers[i := After(s.work[0])]))
    case Busy(j, put) =>
      var es := c.outputs(i, j);
      if put >= |es| then Some(s.(workers := s.workers[i := Getting]))
      else
        var t := s.(workers := s.workers[i := Busy(j, put + 1)]);
        Some(if es[put].Line? then t.(stdout := s.stdout + [Some(es[put])]) else t.(codes := s.codes + [es[put]]))
    case Exited => None
  }

  function PrinterStep(s: State): Option<State> {
    if s.printerDone || s.stdout == [] then None
    else
      var t := s.(stdout := s.stdout[1..]);
      match s.stdout[0]
      case None => Some(t.(printerDone := true))
      case Some(o) => Some(t.(printed := s.printed + [o]))
  }

  datatype Actor = Main | Thread(i: nat) | Printer

  function Act(c: Config, s: State, a: Actor): Option<State> {
    match a
    case Main => MainStep(c, s)
    case Thread(i) => if i < |s.workers| then WorkerStep(c, s, i) else None
    case Printer => PrinterStep(s)
  }

  function Run(c: Config, s: State, schedule: seq<Actor>): Option<State>
    decreases |schedule|
  {
    if schedule == [] then Some(s)
    else
      match Act(c, s, schedule[0])
      case None => None
      case Some(t) => Run(c, t, schedule[1..])
  }

  // ------------------------------------------------------------ the work queue

  /** What main puts on the work queue from first to last. */
  function AllWork(c: Config): (r: seq<Option<nat>>)
    ensures |r| == c.jobs + c.workers
  {
    seq(c.jobs + c.workers, k => if k < c.jobs then Some(k) else None)
  }

  /** How much of it has been put so far. */
  function Put(c: Config, s: State): nat {
    match s.main case PutJobs(k) => k case PutSentinels(k) => c.jobs + k case _ => c.jobs + c.workers
  }

  function Items(taken: seq<Taken>): (r: seq<Option<nat>>)
    ensures |r| == |taken|
  {
    seq(|taken|, k requires 0 <= k < |taken| => taken[k].item)
  }

  /** How many sentinels worker i has taken. */
  function Sentinels(taken: seq<Taken>, i: nat): nat {
    if taken == [] then 0
    else Sentinels(taken[..|taken| - 1], i) + if taken[|taken| - 1] == Taken(i, None) then 1 else 0
  }

  function AllSentinels(items: seq<Option<nat>>): nat {
    if items == [] then 0
    else AllSentinels(items[..|items| - 1]) + if items[|items| - 1] == None then 1 else 0
  }

  function CountExited(ws: seq<Worker>): (n: nat)
    ensures n <= |ws|
  {
    if ws == [] then 0 else (if ws[0] == Exited then 1 else 0) + CountExited(ws[1..])
  }

  /** First in, first out: what was taken and what is waiting is what was put, in order. */
  predicate FifoInv(c: Config, s: State) {
    && Put(c, s) <= |AllWork(c)|
    && (s.main.PutJobs? ==> s.main.k <= c.jobs)
    && Items(s.taken) + s.work == AllWork(c)[..Put(c, s)]
  }

  /** A worker exits with the one sentinel it takes. */
  predicate ExitInv(workers: seq<Worker>, taken: seq<Taken>) {
    && (forall i :: 0 <= i < |workers| ==> Sentinels(taken, i) == if workers[i] == Exited then 1 else 0)
    && AllSentinels(Items(taken)) == CountExited(workers)
    && (forall k :: 0 <= k < |taken| ==> taken[k].worker < |workers|)
  }

  predicate JoinInv(s: State) {
    && (s.main.Join? ==> s.main.k <= |s.workers| && forall i :: 0 <= i < s.main.k ==> s.workers[i] == Exited)
    && (Joined(s) ==> forall i :: 0 <= i < |s.workers| ==> s.workers[i] == Exited)
  }

  predicate QueueInv(c: Config, s: State) {
    |s.workers| == c.workers && FifoInv(c, s) && ExitInv(s.workers, s.taken) && JoinInv(s)
  }

  /** Main has seen all workers exit. */
  predicate Joined(s: State) {
    s.main == StopPrinter || s.main == JoinPrinter || s.main.Returned?
  }

  lemma {:induction false} CountUpdate(ws: seq<Worker>, i: nat, w: Worker)
    requires i < |ws|
    ensures CountExited(ws[i := w])
         == CountExited(ws) - (if ws[i] == Exited then 1 else 0) + (if w == Exited then 1 else 0)
  {
    if i > 0 {
      CountUpdate(ws[1..], i - 1, w);
      assert ws[i := w][1..] == ws[1..][i - 1 := w];
    } else {
      assert ws[i := w][1..] == ws[1..];
    }
  }

  lemma {:induction false} CountFull(ws: seq<Worker>)
    ensures CountExited(ws) == |ws| <==> forall i :: 0 <= i < |ws| ==> ws[i] == Exited
  {
    if ws != [] {
      CountFull(ws[1..]);
      assert forall i :: 1 <= i < |ws| ==> ws[i] == ws[1..][i - 1];
      if forall i :: 0 <= i < |ws| ==> ws[i] == Exited {
        assert forall i :: 0 <= i < |ws[1..]| ==> ws[1..][i] == ws[i + 1];
      }
    }
  }

  lemma {:induction false} SentinelsOfWork(c: Config, n: nat)
    requires n <= |AllWork(c)|
    ensures AllSentinels(AllWork(c)[..n]) == if n <= c.jobs then 0 else n - c.jobs
    decreases n
  {
    if n > 0 {
      assert AllWork(c)[..n][..n - 1] == AllWork(c)[..n - 1];
      SentinelsOfWork(c, n - 1);
    }
  }

  lemma TakingKeepsFifo(c: Config, s: State, i: nat)
    requires FifoInv(c, s) && i < |s.workers| && s.workers[i] == Getting && s.work != []
    ensures FifoInv(c, WorkerStep(c, s, i).value)
  {
    var t := WorkerStep(c, s, i).value;
    ItemsSnoc(s.taken, Taken(i, s.work[0]));
    assert [s.work[0]] + t.work == s.work;
  }

  lemma SentinelsSnoc(taken: seq<Taken>, x: Taken, i: nat)
    ensures Sentinels(taken + [x], i) == Sentinels(taken, i) + if x == Taken(i, None) then 1 else 0
  {
    assert (taken + [x])[..|taken|] == taken;
  }

  lemma AllSentinelsSnoc(items: seq<Option<nat>>, x: Option<nat>)
    ensures AllSentinels(items + [x]) == AllSentinels(items) + if x == None then 1 else 0
  {
    assert (items + [x])[..|items|] == items;
  }

  lemma ItemsSnoc(taken: seq<Taken>, x: Taken)
    ensures Items(taken + [x]) == Items(taken) + [x.item]
  {
  }

  /** A worker that takes a sentinel exits, and none has taken more than before. */
  lemma TakenSentinels(workers: seq<Worker>, taken: seq<Taken>, i: nat, item: Option<nat>, k: nat)
    requires i < |workers| && k < |workers| && workers[i] == Getting
    requires Sentinels(taken, k) == if workers[k] == Exited then 1 else 0
    ensures Sentinels(taken + [Taken(i, item)], k) == if workers[i := After(item)][k] == Exited then 1 else 0
  {
    SentinelsSnoc(taken, Taken(i, item), k);
  }

  lemma TakenExits(workers: seq<Worker>, taken: seq<Taken>, i: nat, item: Option<nat>)
    requires i < |workers| && workers[i] == Getting
    requires AllSentinels(Items(taken)) == CountExited(workers)
    ensures AllSentinels(Items(taken + [Taken(i, item)])) == CountExited(workers[i := After(item)])
  {
    ItemsSnoc(taken, Taken(i, item));
    AllSentinelsSnoc(Items(taken), item);
    CountUpdate(workers, i, After(item));
  }

  lemma TakingKeepsExits(workers: seq<Worker>, taken: seq<Taken>, i: nat, item: Option<nat>)
    requires ExitInv(workers, taken) && i < |workers| && workers[i] == Getting
    ensures ExitInv(workers[i := After(item)], taken + [Taken(i, item)])
  {
    var after, more := workers[i := After(item)], taken + [Taken(i, item)];
    assert forall k :: 0 <= k < |after| ==> Sentinels(more, k) == if after[k] == Exited then 1 else 0 by {
      forall k | 0 <= k < |after|
        ensures Sentinels(more, k) == if after[k] == Exited then 1 else 0
      {
        TakenSentinels(workers, taken, i, item, k);
      }
    }
    assert AllSentinels(Items(more)) == CountExited(after) by {
      TakenExits(workers, taken, i, item);
    }
    assert forall k :: 0 <= k < |more| ==> more[k].worker < |after|;
  }

  lemma WorkingKeepsExits(workers: seq<Worker>, taken: seq<Taken>, i: nat, w: Worker)
    requires ExitInv(workers, taken) && i < |workers| && workers[i].Busy? && w != Exited
    ensures ExitInv(workers[i := w], taken)
  {
    CountUpdate(workers, i, w);
  }

  /** A worker that has not exited is none that main has waited for. */
  lemma JoinStays(s: State, t: State, i: nat)
    requires JoinInv(s) && i < |s.workers| == |t.workers| && s.workers[i] != Exited && t.main == s.main
    requires forall k :: 0 <= k < |s.workers| && k != i ==> t.workers[k] == s.workers[k]
    ensures JoinInv(t)
  {
  }

  lemma TakingKeepsQueue(c: Config, s: State, i: nat)
    requires QueueInv(c, s) && i < |s.workers| && s.workers[i] == Getting && s.work != []
    ensures QueueInv(c, WorkerStep(c, s, i).value)
  {
    TakingKeepsFifo(c, s, i);
    TakingKeepsExits(s.workers, s.taken, i, s.work[0]);
    JoinStays(s, WorkerStep(c, s, i).value, i);
  }

  lemma WorkingKeepsQueue(c: Config, s: State, i: nat)
    requires QueueInv(c, s) && i < |s.workers| && s.workers[i].Busy?
    ensures QueueInv(c, WorkerStep(c, s, i).value)
  {
    var t := WorkerStep(c, s, i).value;
    assert FifoInv(c, t) by {
      assert t.work == s.work && t.taken == s.taken && t.main == s.main;
    }
    assert ExitInv(t.workers, t.taken) by {
      WorkingKeepsExits(s.workers, s.taken, i, t.workers[i]);
    }
    JoinStays(s, t, i);
  }

  lemma WorkerKeepsQueue(c: Config, s: State, i: nat)
    requires QueueInv(c, s) && i < |s.workers| && WorkerStep(c, s, i).Some?
    ensures QueueInv(c, WorkerStep(c, s, i).value)
  {
    if s.workers[i] == Getting {
      TakingKeepsQueue(c, s, i);
    } else {
      WorkingKeepsQueue(c, s, i);
    }
  }

  lemma PuttingKeepsFifo(c: Config, s: State)
    requires FifoInv(c, s) && MainStep(c, s).Some?
    ensures FifoInv(c, MainStep(c, s).value)
  {
    var t := MainStep(c, s).value;
    var n := Put(c, s);
    if Put(c, t) > n {
      assert AllWork(c)[..n] + [AllWork(c)[n]] == AllWork(c)[..n + 1];
      assert Items(s.taken) + t.work == (Items(s.taken) + s.work) + [AllWork(c)[n]];
    }
  }

  lemma MainKeepsJoin(c: Config, s: State)
    requires JoinInv(s) && MainStep(c, s).Some?
    ensures JoinInv(MainStep(c, s).value)
  {
  }

  lemma MainKeepsQueue(c: Config, s: State)
    requires QueueInv(c, s) && MainStep(c, s).Some?
    ensures QueueInv(c, MainStep(c, s).value)
  {
    var t := MainStep(c, s).value;
    PuttingKeepsFifo(c, s);
    MainKeepsJoin(c, s);
    assert t.workers == s.workers && t.taken == s.taken;
  }

  lemma ActKeepsQueue(c: Config, s: State, a: Actor)
    requires QueueInv(c, s) && Act(c, s, a).Some?
    ensures QueueInv(c, Act(c, s, a).value)
  {
    match a
    case Main => MainKeepsQueue(c, s);
    case Thread(i) => WorkerKeepsQueue(c, s, i);
    case Printer =>
  }

  /** When every sentinel has been taken, so has everything before it. */
  lemma AllTaken(c: Config, s: State)
    requires QueueInv(c, s) && Put(c, s) == |AllWork(c)|
    requires c.workers > 0 || c.jobs == 0
    requires forall i :: 0 <= i < |s.workers| ==> s.workers[i] == Exited
    ensures s.work == [] && Items(s.taken) == AllWork(c)
  {
    var n := |s.taken|;
    assert AllWork(c)[..|AllWork(c)|] == AllWork(c);
    assert Items(s.taken) == (Items(s.taken) + s.work)[..n] == AllWork(c)[..n];
    CountFull(s.workers);
    SentinelsOfWork(c, n);
    assert n == |AllWork(c)|;
    assert s.work == [];
    assert Items(s.taken) + [] == Items(s.taken);
  }

  // ------------------------------------------------------- conservation of output

  function Count(s: seq<Output>, o: Output): nat {
    multiset(s)[o]
  }

  /** The lines on the queue, without the end marker. */
  function Somes(q: seq<Option<Output>>): seq<Output> {
    if q == [] then [] else (if q[0] == None then [] else [q[0].value]) + Somes(q[1..])
  }

  /** How often worker i has still to put out o for its present job. */
  function Remaining(c: Config, i: nat, w: Worker, o: Output): nat {
    match w
    case Busy(j, put) => if put <= |c.outputs(i, j)| then Count(c.outputs(i, j)[put..], o) else 0
    case _ => 0
  }

  function AllRemaining(c: Config, ws: seq<Worker>, o: Output): nat {
    if ws == [] then 0
    else AllRemaining(c, ws[..|ws| - 1], o) + Remaining(c, |ws| - 1, ws[|ws| - 1], o)
  }

  /** How often the jobs taken put out o. */
  function Owed(c: Config, taken: seq<Taken>, o: Output): nat {
    if taken == [] then 0
    else
      var last := taken[|taken| - 1];
      Owed(c, taken[..|taken| - 1], o) + match last.item case None => 0 case Some(j) => Count(c.outputs(last.worker, j), o)
  }

  /** Where each output that the jobs taken put out is by now. */
  predicate Conserved(c: Config, s: State, o: Output) {
    Count(s.printed, o) + Count(Somes(s.stdout), o) + Count(s.codes, o) + AllRemaining(c, s.workers, o)
    == Owed(c, s.taken, o)
  }

  lemma {:induction false} SomesAppend(q: seq<Option<Output>>, x: Option<Output>)
    ensures Somes(q + [x]) == Somes(q) + if x == None then [] else [x.value]
  {
    if q == [] {
      assert (q + [x])[1..] == [];
    } else {
      assert (q + [x])[1..] == q[1..] + [x];
      SomesAppend(q[1..], x);
    }
  }

  lemma {:induction false} RemainingUpdate(c: Config, ws: seq<Worker>, i: nat, w: Worker, o: Output)
    requires i < |ws|
    ensures AllRemaining(c, ws[i := w], o) == AllRemaining(c, ws, o) - Remaining(c, i, ws[i], o) + Remaining(c, i, w, o)
  {
    var n := |ws| - 1;
    if i < n {
      assert ws[i := w][..n] == ws[..n][i := w];
      RemainingUpdate(c, ws[..n], i, w, o);
    } else {
      assert ws[i := w][..n] == ws[..n];
    }
  }

  lemma TakingConserves(c: Config, s: State, i: nat, o: Output)
    requires Conserved(c, s, o) && i < |s.workers| && s.workers[i] == Getting && s.work != []
    ensures Conserved(c, WorkerStep(c, s, i).value, o)
  {
    var t := WorkerStep(c, s, i).value;
    RemainingUpdate(c, s.workers, i, t.workers[i], o);
    assert t.taken[..|s.taken|] == s.taken;
    if s.work[0].Some? {
      assert c.outputs(i, s.work[0].value)[0..] == c.outputs(i, s.work[0].value);
    }
  }

  lemma CountAppend(s: seq<Output>, x: Output, o: Output)
    ensures Count(s + [x], o) == Count(s, o) + if x == o then 1 else 0
    ensures Count([x] + s, o) == Count(s, o) + if x == o then 1 else 0
  {
  }

  /** The rest of a job's outputs is its first one and what follows. */
  lemma RestOfOutputs(es: seq<Output>, put: nat, o: Output)
    requires put < |es|
    ensures Count(es[put..], o) == Count(es[put + 1..], o) + if es[put] == o then 1 else 0
  {
    assert es[put..] == [es[put]] + es[put + 1..];
    CountAppend(es[put + 1..], es[put], o);
  }

  lemma FinishingConserves(c: Config, s: State, i: nat, o: Output)
    requires Conserved(c, s, o) && i < |s.workers| && s.workers[i].Busy?
    requires s.workers[i].put >= |c.outputs(i, s.workers[i].job)|
    ensures Conserved(c, WorkerStep(c, s, i).value, o)
  {
    var j, put := s.workers[i].job, s.workers[i].put;
    RemainingUpdate(c, s.workers, i, Getting, o);
    assert put == |c.outputs(i, j)| ==> c.outputs(i, j)[put..] == [];
  }

  /** One output less to come is one more on its queue. */
  lemma PuttingConserves(c: Config, s: State, i: nat, o: Output)
    requires Conserved(c, s, o) && i < |s.workers| && s.workers[i].Busy?
    requires s.workers[i].put < |c.outputs(i, s.workers[i].job)|
    ensures Conserved(c, WorkerStep(c, s, i).value, o)
  {
    var j, put := s.workers[i].job, s.workers[i].put;
    var e := c.outputs(i, j)[put];
    RemainingUpdate(c, s.workers, i, Busy(j, put + 1), o);
    RestOfOutputs(c.outputs(i, j), put, o);
    if e.Line? {
      SomesAppend(s.stdout, Some(e));
      CountAppend(Somes(s.stdout), e, o);
    } else {
      CountAppend(s.codes, e, o);
    }
  }

  lemma PrintingConserves(c: Config, s: State, o: Output)
    requires Conserved(c, s, o) && PrinterStep(s).Some?
    ensures Conserved(c, PrinterStep(s).value, o)
  {
    if s.stdout[0].Some? {
      CountAppend(s.printed, s.stdout[0].value, o);
      CountAppend(Somes(s.stdout[1..]), s.stdout[0].value, o);
    } else {
      assert Somes(s.stdout) == Somes(s.stdout[1..]);
    }
  }

  /** Main only adds the end marker, which is no output. */
  lemma MainKeepsOutput(c: Config, s: State)
    requires MainStep(c, s).Some?
    ensures var t := MainStep(c, s).value;
            && t.printed == s.printed && t.codes == s.codes && t.workers == s.workers && t.taken == s.taken
            && t.stdout == if s.main == StopPrinter then s.stdout + [None] else s.stdout
  {
  }

  lemma MainConserves(c: Config, s: State, t: State, o: Output)
    requires Conserved(c, s, o)
    requires t.printed == s.printed && t.codes == s.codes && t.workers == s.workers && t.taken == s.taken
    requires t.stdout == s.stdout + [None] || t.stdout == s.stdout
    ensures Conserved(c, t, o)
  {
    SomesAppend(s.stdout, None);
  }

  lemma ActConserves(c: Config, s: State, a: Actor, o: Output)
    requires Conserved(c, s, o) && Act(c, s, a).Some?
    ensures Conserved(c, Act(c, s, a).value, o)
  {
    match a
    case Main =>
      MainKeepsOutput(c, s);
      MainConserves(c, s, MainStep(c, s).value, o);
    case Printer => PrintingConserves(c, s, o);
    case Thread(i) =>
      if s.workers[i].Busy? {
        if s.workers[i].put < |c.outputs(i, s.workers[i].job)| {
          PuttingConserves(c, s, i, o);
        } else {
          FinishingConserves(c, s, i, o);
        }
      } else {
        TakingConserves(c, s, i, o);
      }
  }

  // ---------------------------------------------------------------- the printer

  /** The end marker is put once, behind all lines, when no worker is left to add one; only lines are printed. */
  predicate PrinterInv(s: State) {
    && (forall k :: 0 <= k < |s.stdout| && s.stdout[k] == None ==>
          k == |s.stdout| - 1 && !s.printerDone && (s.main == JoinPrinter || s.main.Returned?))
    && (s.main == JoinPrinter && !s.printerDone ==> s.stdout != [] && s.stdout[|s.stdout| - 1] == None)
    && (s.printerDone ==> s.stdout == [] && (s.main == JoinPrinter || s.main.Returned?))
    && (s.main.Returned? ==> s.printerDone && s.main.result == MaxCode(s.codes))
    && (forall k :: 0 <= k < |s.stdout| && s.stdout[k].Some? ==> s.stdout[k].value.Line?)
    && (forall k :: 0 <= k < |s.printed| ==> s.printed[k].Line?)
    && (forall k :: 0 <= k < |s.codes| ==> s.codes[k].Code?)
  }

  lemma MainKeepsPrinter(c: Config, s: State)
    requires PrinterInv(s) && JoinInv(s) && MainStep(c, s).Some?
    ensures PrinterInv(MainStep(c, s).value)
  {
  }

  lemma WorkerKeepsPrinter(c: Config, s: State, i: nat)
    requires PrinterInv(s) && JoinInv(s) && i < |s.workers| && WorkerStep(c, s, i).Some?
    ensures PrinterInv(WorkerStep(c, s, i).value)
  {
    assert s.workers[i] != Exited;
  }

  lemma ActKeepsPrinter(c: Config, s: State, a: Actor)
    requires PrinterInv(s) && JoinInv(s) && Act(c, s, a).Some?
    ensures PrinterInv(Act(c, s, a).value)
  {
    match a
    case Main => MainKeepsPrinter(c, s);
    case Thread(i) => WorkerKeepsPrinter(c, s, i);
    case Printer =>
  }

  ghost predicate Inv(c: Config, s: State) {
    && QueueInv(c, s)
    && PrinterInv(s)
    && forall o :: Conserved(c, s, o)
  }

  lemma {:induction false} StartInv(c: Config, n: nat)
    ensures var ws := seq(n, i => Getting);
            CountExited(ws) == 0 && forall o :: AllRemaining(c, ws, o) == 0
  {
    var ws: seq<Worker> := seq(n, i => Getting);
    if n > 0 {
      assert ws[1..] == seq(n - 1, i => Getting) == ws[..n - 1];
      StartInv(c, n - 1);
    }
  }

  lemma {:induction false} RunKeepsInv(c: Config, s: State, schedule: seq<Actor>)
    requires Inv(c, s) && Run(c, s, schedule).Some?
    ensures Inv(c, Run(c, s, schedule).value)
    decreases |schedule|
  {
    if schedule != [] {
      var t := Act(c, s, schedule[0]).value;
      ActKeepsQueue(c, s, schedule[0]);
      ActKeepsPrinter(c, s, schedule[0]);
      forall o
        ensures Conserved(c, t, o)
      {
        ActConserves(c, s, schedule[0], o);
      }
      RunKeepsInv(c, t, schedule[1..]);
    }
  }

  lemma RunFromStart(c: Config, schedule: seq<Actor>)
    requires Run(c, Start(c), schedule).Some?
    ensures Inv(c, Run(c, Start(c), schedule).value)
  {
    StartInv(c, c.workers);
    RunKeepsInv(c, Start(c), schedule);
  }

  // -------------------------------------------------------------------- results

  /**
   * When download_from_google_storage returns, in any interleaving, with a worker or without jobs: the
   * work queue is empty; entry k of the record of takings is job k, so every job was taken once, by
   * one worker; every worker took one sentinel; and everything the jobs put out has been printed or
   * is among the codes, as often as it was put out.
   */
  lemma ReturnMeansDone(c: Config, schedule: seq<Actor>)
    requires c.workers > 0 || c.jobs == 0
    requires Run(c, Start(c), schedule).Some? && Run(c, Start(c), schedule).value.main.Returned?
    ensures var s := Run(c, Start(c), schedule).value;
            && s.work == [] && s.stdout == [] && s.printerDone
            && |s.taken| == c.jobs + c.workers
            && (forall k :: 0 <= k < c.jobs ==> s.taken[k].item == Some(k) && s.taken[k].worker < c.workers)
            && (forall k :: c.jobs <= k < |s.taken| ==> s.taken[k].item == None)
            && (forall i :: 0 <= i < c.workers ==> Sentinels(s.taken, i) == 1)
            && (forall o :: Count(s.printed, o) + Count(s.codes, o) == Owed(c, s.taken, o))
            && (forall k :: 0 <= k < |s.printed| ==> s.printed[k].Line?)
            && (forall k :: 0 <= k < |s.codes| ==> s.codes[k].Code?)
            && s.main.result >= 0
            && (forall o :: o in s.codes && o.Code? ==> o.code <= s.main.result)
            && (s.main.result == 0 || exists o :: o in s.codes && o.Code? && o.code == s.main.result)
  {
    RunFromStart(c, schedule);
    var s := Run(c, Start(c), schedule).value;
    AllTaken(c, s);
    MaxCodeIsMax(s.codes);
    forall k | 0 <= k < |s.taken|
      ensures s.taken[k].item == if k < c.jobs then Some(k) else None
    {
      assert Items(s.taken)[k] == AllWork(c)[k];
    }
    forall o
      ensures Count(s.printed, o) + Count(s.codes, o) == Owed(c, s.taken, o)
    {
      assert Conserved(c, s, o);
      NothingRemains(c, s.workers, o);
    }
  }

  lemma {:induction false} NothingRemains(c: Config, ws: seq<Worker>, o: Output)
    requires forall i :: 0 <= i < |ws| ==> ws[i] == Exited
    ensures AllRemaining(c, ws, o) == 0
  {
    if ws != [] {
      NothingRemains(c, ws[..|ws| - 1], o);
    }
  }

  /** Without workers no job is ever taken, so the condition of ReturnMeansDone is needed. */
  lemma NoWorkersNoJobs(c: Config, schedule: seq<Actor>)
    requires c.workers == 0
    requires Run(c, Start(c), schedule).Some?
    ensures Run(c, Start(c), schedule).value.taken == []
  {
    RunFromStart(c, schedule);
    var s := Run(c, Start(c), schedule).value;
    assert |s.taken| > 0 ==> s.taken[0].worker < |s.workers|;
  }

  // ------------------------------------------------------- no deadlock, no endless run

  predicate Stuck(c: Config, s: State) {
    MainStep(c, s) == None && PrinterStep(s) == None && forall i :: 0 <= i < |s.workers| ==> WorkerStep(c, s, i) == None
  }

  /** Main waits for a worker only while some thread can still move. */
  lemma StuckIsReturned(c: Config, s: State)
    requires Inv(c, s) && Stuck(c, s)
    ensures s.main.Returned?
  {
    if s.main.Join? && s.main.k < |s.workers| {
      forall i | 0 <= i < |s.workers|
        ensures !s.workers[i].Busy?
      {
        assert WorkerStep(c, s, i) == None;
      }
      assert WorkerStep(c, s, s.main.k) == None;
      assert s.work == [];
      assert Items(s.taken) + [] == Items(s.taken);
      assert AllWork(c)[..|AllWork(c)|] == AllWork(c);
      SentinelsOfWork(c, |AllWork(c)|);
      CountFull(s.workers);
    }
  }

  /** More than any worker puts out for job j. */
  function MostOutput(c: Config, n: nat, j: nat): nat {
    if n == 0 then 0 else MostOutput(c, n - 1, j) + |c.outputs(n - 1, j)|
  }

  lemma {:induction false} MostOutputIsMost(c: Config, n: nat, i: nat, j: nat)
    requires i < n
    ensures |c.outputs(i, j)| <= MostOutput(c, n, j)
  {
    if i < n - 1 {
      MostOutputIsMost(c, n - 1, i, j);
    }
  }

  function ItemCost(c: Config, item: Option<nat>): nat {
    match item case None => 1 case Some(j) => 2 + 2 * MostOutput(c, c.workers, j)
  }

  /** The cost of all items from the k-th one on. */
  function CostFrom(c: Config, k: nat): nat
    decreases |AllWork(c)| - k
  {
    if k >= |AllWork(c)| then 0 else ItemCost(c, AllWork(c)[k]) + CostFrom(c, k + 1)
  }

  function BusyCost(c: Config, i: nat, w: Worker): nat {
    match w
    case Busy(j, put) => if put <= |c.outputs(i, j)| then 2 * (|c.outputs(i, j)| - put) + 1 else 1
    case _ => 0
  }

  function AllBusyCost(c: Config, ws: seq<Worker>): nat {
    if ws == [] then 0 else AllBusyCost(c, ws[..|ws| - 1]) + BusyCost(c, |ws| - 1, ws[|ws| - 1])
  }

  function MainLeft(c: Config, s: State): int {
    match s.main
    case PutJobs(k) => 5 + 2 * c.workers + c.jobs - k
    case PutSentinels(k) => 4 + 2 * c.workers - k
    case Join(k) => 3 + c.workers - k
    case StopPrinter => 2
    case JoinPrinter => 1
    case Returned(_) => 0
  }

  function Rank(c: Config, s: State): int {
    2 * MainLeft(c, s) + CostFrom(c, |s.taken|) + AllBusyCost(c, s.workers) + |s.stdout|
  }

  lemma {:induction false} BusyCostUpdate(c: Config, ws: seq<Worker>, i: nat, w: Worker)
    requires i < |ws|
    ensures AllBusyCost(c, ws[i := w]) == AllBusyCost(c, ws) - BusyCost(c, i, ws[i]) + BusyCost(c, i, w)
  {
    var n := |ws| - 1;
    if i < n {
      assert ws[i := w][..n] == ws[..n][i := w];
      BusyCostUpdate(c, ws[..n], i, w);
    } else {
      assert ws[i := w][..n] == ws[..n];
    }
  }

  lemma TakingLowersRank(c: Config, s: State, i: nat)
    requires QueueInv(c, s) && i < |s.workers| && s.workers[i] == Getting && s.work != []
    ensures Rank(c, WorkerStep(c, s, i).value) < Rank(c, s)
  {
    var item := s.work[0];
    assert AllWork(c)[|s.taken|] == item by {
      assert (Items(s.taken) + s.work)[|s.taken|] == item;
    }
    BusyCostUpdate(c, s.workers, i, After(item));
    if item.Some? {
      MostOutputIsMost(c, c.workers, i, item.value);
    }
  }

  lemma WorkingLowersRank(c: Config, s: State, i: nat)
    requires i < |s.workers| && s.workers[i].Busy?
    ensures Rank(c, WorkerStep(c, s, i).value) < Rank(c, s)
  {
    var j, put := s.workers[i].job, s.workers[i].put;
    var next := if put >= |c.outputs(i, j)| then Getting else Busy(j, put + 1);
    BusyCostUpdate(c, s.workers, i, next);
    assert BusyCost(c, i, next) < BusyCost(c, i, s.workers[i]);
  }

  lemma MainLowersRank(c: Config, s: State)
    requires QueueInv(c, s) && MainStep(c, s).Some?
    ensures Rank(c, MainStep(c, s).value) < Rank(c, s)
  {
    var t := MainStep(c, s).value;
    assert MainLeft(c, t) < MainLeft(c, s);
    assert t.taken == s.taken && t.workers == s.workers && |t.stdout| <= |s.stdout| + 1;
  }

  lemma ActLowersRank(c: Config, s: State, a: Actor)
    requires QueueInv(c, s) && Act(c, s, a).Some?
    ensures Rank(c, Act(c, s, a).value) < Rank(c, s)
  {
    match a
    case Main => MainLowersRank(c, s);
    case Printer =>
    case Thread(i) =>
      if s.workers[i] == Getting {
        TakingLowersRank(c, s, i);
      } else {
        WorkingLowersRank(c, s, i);
      }
  }

  lemma {:induction false} RunLowersRank(c: Config, s: State, schedule: seq<Actor>)
    requires Inv(c, s) && Run(c, s, schedule).Some?
    ensures Rank(c, Run(c, s, schedule).value) + |schedule| <= Rank(c, s)
    decreases |schedule|
  {
    if schedule != [] {
      RunKeepsInv(c, s, schedule[..1]);
      assert schedule[..1][0] == schedule[0] && schedule[..1][1..] == [];
      ActLowersRank(c, s, schedule[0]);
      RunLowersRank(c, Act(c, s, schedule[0]).value, schedule[1..]);
    }
  }

  lemma {:induction false} NothingBusy(c: Config, ws: seq<Worker>)
    requires forall i :: 0 <= i < |ws| ==> ws[i] == Getting
    ensures AllBusyCost(c, ws) == 0
  {
    if ws != [] {
      NothingBusy(c, ws[..|ws| - 1]);
    }
  }

  /** Every run is finite, whatever the schedule, and if no thread can move the call has returned. */
  lemma EveryRunReturns(c: Config, schedule: seq<Actor>)
    requires Run(c, Start(c), schedule).Some?
    ensures Stuck(c, Run(c, Start(c), schedule).value) ==> Run(c, Start(c), schedule).value.main.Returned?
    ensures |schedule| <= 2 * (5 + 2 * c.workers + c.jobs) + CostFrom(c, 0)
  {
    var s := Run(c, Start(c), schedule).value;
    RunFromStart(c, []);
    RunFromStart(c, schedule);
    RunLowersRank(c, Start(c), schedule);
    NothingBusy(c, Start(c).workers);
    assert Rank(c, s) >= 0;
    if Stuck(c, s) {
      StuckIsReturned(c, s);
    }
  }

  // ---------------------------------------------------------------- the return code

  /** A code with the message that goes with it; the first report of all has no message. */
  datatype Report = Report(code: int, message: Option<string>)

  /** The loop over the codes at the end: the largest code, and the messages that are not empty. */
  method CollectCodes(reports: seq<Report>) returns (maxRetCode: int, messages: seq<string>)
    ensures maxRetCode >= 0
    ensures forall r :: r in reports ==> r.code <= maxRetCode
    ensures maxRetCode == 0 || exists r :: r in reports && r.code == maxRetCode
    ensures messages == Messages(reports)
  {
    maxRetCode, messages := 0, [];
    for i := 0 to |reports|
      invariant maxRetCode >= 0
      invariant forall j :: 0 <= j < i ==> reports[j].code <= maxRetCode
      invariant maxRetCode == 0 || exists j :: 0 <= j < i && reports[j].code == maxRetCode
      invariant messages == Messages(reports[..i])
    {
      assert reports[..i + 1][..i] == reports[..i];
      var r := reports[i];
      maxRetCode := if r.code > maxRetCode then r.code else maxRetCode;
      if r.message.Some? && r.message.value != "" {
        messages := messages + [r.message.value];
      }
    }
    assert reports[..|reports|] == reports;
  }

  function Messages(reports: seq<Report>): seq<string> {
    if reports == [] then []
    else
      var last := reports[|reports| - 1];
      Messages(reports[..|reports| - 1])
      + if last.message.Some? && last.message.value != "" then [last.message.value] else []
  }
}
