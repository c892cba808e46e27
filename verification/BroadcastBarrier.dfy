// The barrier of the broadcast benchmark: a sender that waits, between messages, for a
// counter to come back to zero, and receivers that count down and wake it.
module BroadcastBarrier {
  import opened Wrappers

  /**
   * tasks receivers, a counter of modulus values, a channel that holds capacity messages,
   * and the messages that the sender goes through.
   */
  datatype Config<M> = Config(tasks: nat, modulus: nat, capacity: nat, script: seq<M>)
  {
    predicate Fits() {
      tasks < modulus && capacity >= 1
    }
  }

  /** A receiver that lags behind the channel gets an error and stops. */
  datatype Phase = Idle | Working | Notifying | Stopped

  datatype Receiver<M> = Receiver(phase: Phase, unread: seq<M>, handled: seq<M>)

  datatype SenderPhase = Add | Send | Load | Wait | Panicked

  datatype State<M> = State(
    counter: nat, permit: bool, phase: SenderPhase, round: nat, receivers: seq<Receiver<M>>)

  datatype Actor = Sender | Task(i: nat)

  function Start<M>(c: Config<M>): State<M> {
    State(0, false, Add, 0, seq(c.tasks, i => Receiver(Idle, [], [])))
  }

  // ---------------------------------------------------------------------- steps

  /** The next step of the sender; None if it is waiting, has panicked or is done. */
  function SenderStep<M>(c: Config<M>, s: State<M>): Option<State<M>>
    requires c.Fits()
  {
    match s.phase
    case Add =>
      if s.round >= |c.script| then None
      else Some(s.(counter := (s.counter + c.tasks) % c.modulus,
                   phase := if s.counter == 0 then Send else Panicked))
    case Send =>
      if s.round >= |c.script| then None
      else Some(s.(phase := Load, receivers := Delivered(s.receivers, c.script[s.round])))
    case Load =>
      if s.counter > 0 then Some(s.(phase := Wait)) else Some(s.(phase := Add, round := s.round + 1))
    case Wait =>
      if s.permit then Some(s.(permit := false, phase := Load)) else None
    case Panicked => None
  }

  function Delivered<M>(receivers: seq<Receiver<M>>, message: M): (r: seq<Receiver<M>>)
    ensures |r| == |receivers|
  {
    seq(|receivers|, i requires 0 <= i < |receivers| =>
      receivers[i].(unread := receivers[i].unread + [message]))
  }

  /** The next step of receiver i; None if it has nothing to receive or has stopped. */
  function TaskStep<M>(c: Config<M>, s: State<M>, i: nat): Option<State<M>>
    requires c.Fits() && i < |s.receivers|
  {
    var r := s.receivers[i];
    match r.phase
    case Idle =>
      if r.unread == [] then None
      else if |r.unread| > c.capacity then Some(s.(receivers := s.receivers[i := r.(phase := Stopped)]))
      else
        var next := Receiver(Working, r.unread[1..], r.handled + [r.unread[0]]);
        Some(s.(receivers := s.receivers[i := next]))
    case Working =>
      var next := r.(phase := if s.counter == 1 then Notifying else Idle);
      Some(s.(counter := (s.counter + c.modulus - 1) % c.modulus, receivers := s.receivers[i := next]))
    case Notifying =>
      Some(s.(permit := true, receivers := s.receivers[i := r.(phase := Idle)]))
    case Stopped => None
  }

  function Act<M>(c: Config<M>, s: State<M>, a: Actor): Option<State<M>>
    requires c.Fits()
  {
    match a
    case Sender => SenderStep(c, s)
    case Task(i) => if i < |s.receivers| then TaskStep(c, s, i) else None
  }

  /** The state after the actors have taken one step each in this order; None if one of them could not. */
  function Run<M>(c: Config<M>, s: State<M>, schedule: seq<Actor>): Option<State<M>>
    requires c.Fits()
    decreases |schedule|
  {
    if schedule == [] then Some(s)
    else
      match Act(c, s, schedule[0])
      case None => None
      case Some(t) => Run(c, t, schedule[1..])
  }

  // ------------------------------------------------------------------ invariant

  /** Has the receiver not yet counted down for the current message? */
  predicate Busy<M>(r: Receiver<M>) {
    r.unread != [] || r.phase == Working
  }

  function CountBusy<M>(rs: seq<Receiver<M>>): (n: nat)
    ensures n <= |rs|
  {
    if rs == [] then 0 else (if Busy(rs[0]) then 1 else 0) + CountBusy(rs[1..])
  }

  /** How many messages have been sent. */
  function Sent<M>(s: State<M>): nat {
    if s.phase == Load || s.phase == Wait then s.round + 1 else s.round
  }

  /** Each receiver has handled, in order, all messages sent but at most the last one. */
  ghost predicate InStep<M>(c: Config<M>, sent: nat, r: Receiver<M>) {
    && r.phase != Stopped
    && sent <= |c.script|
    && r.handled + r.unread == c.script[..sent]
    && |r.unread| <= 1
    && (r.phase == Working ==> r.unread == [])
  }

  /** The counter at each point of the sender's loop, in terms of the busy receivers. */
  predicate Counted<M>(c: Config<M>, s: State<M>) {
    match s.phase
    case Add => CountBusy(s.receivers) == 0 && s.counter == 0
    case Send => CountBusy(s.receivers) == 0 && s.counter == c.tasks
    case _ => CountBusy(s.receivers) == s.counter
  }

  predicate SomeNotifying<M>(rs: seq<Receiver<M>>) {
    exists i :: 0 <= i < |rs| && rs[i].phase == Notifying
  }

  ghost predicate Inv<M>(c: Config<M>, s: State<M>) {
    && |s.receivers| == c.tasks
    && s.phase != Panicked
    && s.round <= |c.script| && (s.phase == Add || s.round < |c.script|)
    && (forall i :: 0 <= i < |s.receivers| ==> InStep(c, Sent(s), s.receivers[i]))
    && Counted(c, s)
    && (s.phase == Wait && s.counter == 0 ==> s.permit || SomeNotifying(s.receivers))
  }

  lemma {:induction false} CountUpdate<M>(rs: seq<Receiver<M>>, i: nat, r: Receiver<M>)
    requires i < |rs|
    ensures CountBusy(rs[i := r]) == CountBusy(rs) - (if Busy(rs[i]) then 1 else 0) + (if Busy(r) then 1 else 0)
  {
    if i > 0 {
      CountUpdate(rs[1..], i - 1, r);
      assert rs[i := r][1..] == rs[1..][i - 1 := r];
    } else {
      assert rs[i := r][1..] == rs[1..];
    }
  }

  lemma {:induction false} CountZero<M>(rs: seq<Receiver<M>>)
    ensures CountBusy(rs) == 0 <==> forall i :: 0 <= i < |rs| ==> !Busy(rs[i])
  {
    if rs != [] {
      CountZero(rs[1..]);
      assert forall i :: 1 <= i < |rs| ==> rs[i] == rs[1..][i - 1];
      assert (forall i :: 0 <= i < |rs| ==> !Busy(rs[i])) ==> forall i :: 0 <= i < |rs[1..]| ==> !Busy(rs[1..][i]);
    }
  }

  lemma {:induction false} CountAll<M>(rs: seq<Receiver<M>>)
    requires forall i :: 0 <= i < |rs| ==> Busy(rs[i])
    ensures CountBusy(rs) == |rs|
  {
    if rs != [] {
      CountAll(rs[1..]);
    }
  }

  lemma StartInv<M>(c: Config<M>)
    requires c.Fits()
    ensures Inv(c, Start(c))
  {
    CountZero(Start(c).receivers);
  }

  lemma SentStaysInStep<M>(c: Config<M>, n: nat, r: Receiver<M>)
    requires n < |c.script| && InStep(c, n, r) && !Busy(r)
    ensures InStep(c, n + 1, r.(unread := r.unread + [c.script[n]]))
  {
    assert c.script[..n] + [c.script[n]] == c.script[..n + 1];
  }

  lemma SendKeepsInv<M>(c: Config<M>, s: State<M>)
    requires c.Fits() && Inv(c, s) && s.phase == Send && SenderStep(c, s).Some?
    ensures Inv(c, SenderStep(c, s).value)
  {
    var t := SenderStep(c, s).value;
    CountZero(s.receivers);
    CountAll(t.receivers);
    forall i | 0 <= i < |t.receivers|
      ensures InStep(c, Sent(t), t.receivers[i])
    {
      SentStaysInStep(c, s.round, s.receivers[i]);
    }
  }

  lemma SenderKeepsInv<M>(c: Config<M>, s: State<M>)
    requires c.Fits() && Inv(c, s) && SenderStep(c, s).Some?
    ensures Inv(c, SenderStep(c, s).value)
  {
    if s.phase == Send {
      SendKeepsInv(c, s);
    }
  }

  lemma WrappingDecrement(x: nat, modulus: nat)
    requires 0 < x < modulus
    ensures (x + modulus - 1) % modulus == x - 1
  {
    var y := x - 1;
    assert x + modulus - 1 == y + modulus;
  }

  lemma ReceiveKeepsInv<M>(c: Config<M>, s: State<M>, i: nat)
    requires c.Fits() && Inv(c, s) && i < |s.receivers| && s.receivers[i].phase == Idle
    requires TaskStep(c, s, i).Some?
    ensures Inv(c, TaskStep(c, s, i).value)
  {
    var t := TaskStep(c, s, i).value;
    var r := s.receivers[i];
    assert InStep(c, Sent(s), r);
    assert r.handled + [r.unread[0]] + r.unread[1..] == r.handled + r.unread;
    CountUpdate(s.receivers, i, t.receivers[i]);
    if SomeNotifying(s.receivers) {
      NotifyingStays(s.receivers, i, t.receivers[i]);
    }
  }

  lemma CountDownKeepsInv<M>(c: Config<M>, s: State<M>, i: nat)
    requires c.Fits() && Inv(c, s) && i < |s.receivers| && s.receivers[i].phase == Working
    ensures TaskStep(c, s, i).Some? && Inv(c, TaskStep(c, s, i).value)
  {
    var t := TaskStep(c, s, i).value;
    assert InStep(c, Sent(s), s.receivers[i]);
    CountZero(s.receivers);
    assert CountBusy(s.receivers) == s.counter;
    WrappingDecrement(s.counter, c.modulus);
    CountUpdate(s.receivers, i, t.receivers[i]);
    if t.counter == 0 {
      assert t.receivers[i].phase == Notifying;
    }
  }

  lemma NotifyKeepsInv<M>(c: Config<M>, s: State<M>, i: nat)
    requires c.Fits() && Inv(c, s) && i < |s.receivers| && s.receivers[i].phase == Notifying
    ensures TaskStep(c, s, i).Some? && Inv(c, TaskStep(c, s, i).value)
  {
    var t := TaskStep(c, s, i).value;
    assert InStep(c, Sent(s), s.receivers[i]);
    CountUpdate(s.receivers, i, t.receivers[i]);
  }

  lemma NotifyingStays<M>(rs: seq<Receiver<M>>, i: nat, r: Receiver<M>)
    requires i < |rs| && rs[i].phase != Notifying && SomeNotifying(rs)
    ensures SomeNotifying(rs[i := r])
  {
    var j :| 0 <= j < |rs| && rs[j].phase == Notifying;
    assert rs[i := r][j].phase == Notifying;
  }

  lemma ActKeepsInv<M>(c: Config<M>, s: State<M>, a: Actor)
    requires c.Fits() && Inv(c, s) && Act(c, s, a).Some?
    ensures Inv(c, Act(c, s, a).value)
  {
    match a
    case Sender => SenderKeepsInv(c, s);
    case Task(i) =>
      assert InStep(c, Sent(s), s.receivers[i]);
      match s.receivers[i].phase {
        case Idle => ReceiveKeepsInv(c, s, i);
        case Working => CountDownKeepsInv(c, s, i);
        case Notifying => NotifyKeepsInv(c, s, i);
        case Stopped =>
      }
  }

  lemma {:induction false} RunKeepsInv<M>(c: Config<M>, s: State<M>, schedule: seq<Actor>)
    requires c.Fits() && Inv(c, s) && Run(c, s, schedule).Some?
    ensures Inv(c, Run(c, s, schedule).value)
    decreases |schedule|
  {
    if schedule != [] {
      ActKeepsInv(c, s, schedule[0]);
      RunKeepsInv(c, Act(c, s, schedule[0]).value, schedule[1..]);
    }
  }

  // ------------------------------------------------------------ no lost wake-ups

  predicate Stuck<M>(c: Config<M>, s: State<M>)
    requires c.Fits()
  {
    SenderStep(c, s) == None && forall i :: 0 <= i < |s.receivers| ==> TaskStep(c, s, i) == None
  }

  /** The sender has gone through its script and every receiver has handled all of it, in order. */
  ghost predicate Finished<M>(c: Config<M>, s: State<M>) {
    && s.phase == Add && s.round == |c.script|
    && |s.receivers| == c.tasks
    && forall i :: 0 <= i < |s.receivers| ==> s.receivers[i] == Receiver(Idle, [], c.script)
  }

  /** A state in which nobody can move is the end: a waiting sender is always going to be woken. */
  lemma StuckIsFinished<M>(c: Config<M>, s: State<M>)
    requires c.Fits() && Inv(c, s)
    requires Stuck(c, s)
    ensures Finished(c, s)
  {
    forall i | 0 <= i < |s.receivers|
      ensures s.receivers[i].phase == Idle && s.receivers[i].unread == []
    {
      assert InStep(c, Sent(s), s.receivers[i]);
      assert TaskStep(c, s, i) == None;
    }
    CountZero(s.receivers);
    assert s.phase != Wait;
    assert c.script[..|c.script|] == c.script;
    forall i | 0 <= i < |s.receivers|
      ensures s.receivers[i] == Receiver(Idle, [], c.script)
    {
      assert InStep(c, Sent(s), s.receivers[i]);
      assert s.receivers[i].handled + [] == s.receivers[i].handled;
    }
  }

  // --------------------------------------------------------------- runs are finite

  function WorkOf<M>(r: Receiver<M>): nat {
    4 * |r.unread| + match r.phase case Working => 2 case Notifying => 1 case _ => 0
  }

  function Work<M>(rs: seq<Receiver<M>>): nat {
    if rs == [] then 0 else WorkOf(rs[0]) + Work(rs[1..])
  }

  /** The stages of the sender that are still to come, not counting waits. */
  function StagesLeft<M>(c: Config<M>, s: State<M>): int {
    3 * (|c.script| - s.round) - match s.phase case Add => 0 case Send => 1 case _ => 2
  }

  /** What can happen before the sender enters its next stage. */
  function Restlessness<M>(s: State<M>): nat {
    4 * Work(s.receivers) + (if s.permit then 2 else 0) + (if s.phase == Load then 1 else 0)
  }

  /** More steps than any run within one stage of the sender can have. */
  function StageBound<M>(c: Config<M>): nat {
    24 * c.tasks + 4
  }

  function Rank<M>(c: Config<M>, s: State<M>): int {
    StagesLeft(c, s) * StageBound(c) + Restlessness(s)
  }

  lemma {:induction false} WorkUpdate<M>(rs: seq<Receiver<M>>, i: nat, r: Receiver<M>)
    requires i < |rs|
    ensures Work(rs[i := r]) == Work(rs) - WorkOf(rs[i]) + WorkOf(r)
  {
    if i > 0 {
      WorkUpdate(rs[1..], i - 1, r);
      assert rs[i := r][1..] == rs[1..][i - 1 := r];
    } else {
      assert rs[i := r][1..] == rs[1..];
    }
  }

  lemma {:induction false} WorkIsBounded<M>(rs: seq<Receiver<M>>)
    requires forall i :: 0 <= i < |rs| ==> WorkOf(rs[i]) <= 6
    ensures Work(rs) <= 6 * |rs|
  {
    if rs != [] {
      WorkIsBounded(rs[1..]);
    }
  }

  lemma RestlessnessIsBounded<M>(c: Config<M>, s: State<M>)
    requires Inv(c, s)
    ensures Restlessness(s) < StageBound(c)
  {
    forall i | 0 <= i < |s.receivers|
      ensures WorkOf(s.receivers[i]) <= 6
    {
      assert InStep(c, Sent(s), s.receivers[i]);
    }
    WorkIsBounded(s.receivers);
  }

  lemma RankIsNatural<M>(c: Config<M>, s: State<M>)
    requires Inv(c, s)
    ensures Rank(c, s) >= 0
  {
    assert StagesLeft(c, s) >= 0;
  }

  lemma NextStageIsLower(a: int, b: int, bound: nat, x: nat, y: nat)
    requires b < a && y < bound
    ensures b * bound + y < a * bound + x
  {
    assert b * bound + bound <= a * bound by {
      assert (b + 1) * bound <= a * bound;
    }
  }

  lemma SenderLowersRank<M>(c: Config<M>, s: State<M>)
    requires c.Fits() && Inv(c, s) && SenderStep(c, s).Some? && Inv(c, SenderStep(c, s).value)
    ensures Rank(c, SenderStep(c, s).value) < Rank(c, s)
  {
    var t := SenderStep(c, s).value;
    if StagesLeft(c, t) < StagesLeft(c, s) {
      RestlessnessIsBounded(c, t);
      NextStageIsLower(StagesLeft(c, s), StagesLeft(c, t), StageBound(c), Restlessness(s), Restlessness(t));
    }
  }

  lemma TaskLowersRank<M>(c: Config<M>, s: State<M>, i: nat)
    requires c.Fits() && Inv(c, s) && i < |s.receivers| && TaskStep(c, s, i).Some?
    ensures Rank(c, TaskStep(c, s, i).value) < Rank(c, s)
  {
    var t := TaskStep(c, s, i).value;
    WorkUpdate(s.receivers, i, t.receivers[i]);
    assert InStep(c, Sent(s), s.receivers[i]);
  }

  /** Every step brings the run nearer to its end, whoever takes it. */
  lemma ActLowersRank<M>(c: Config<M>, s: State<M>, a: Actor)
    requires c.Fits() && Inv(c, s) && Act(c, s, a).Some?
    ensures Rank(c, Act(c, s, a).value) < Rank(c, s)
  {
    ActKeepsInv(c, s, a);
    match a {
      case Sender => SenderLowersRank(c, s);
      case Task(i) => TaskLowersRank(c, s, i);
    }
  }

  lemma {:induction false} RunLowersRank<M>(c: Config<M>, s: State<M>, schedule: seq<Actor>)
    requires c.Fits() && Inv(c, s) && Run(c, s, schedule).Some?
    ensures Rank(c, Run(c, s, schedule).value) + |schedule| <= Rank(c, s)
    decreases |schedule|
  {
    if schedule != [] {
      ActKeepsInv(c, s, schedule[0]);
      ActLowersRank(c, s, schedule[0]);
      RunLowersRank(c, Act(c, s, schedule[0]).value, schedule[1..]);
    }
  }

  lemma {:induction false} NoWorkAtStart<M>(rs: seq<Receiver<M>>)
    requires forall i :: 0 <= i < |rs| ==> rs[i].phase == Idle && rs[i].unread == []
    ensures Work(rs) == 0
  {
    if rs != [] {
      NoWorkAtStart(rs[1..]);
    }
  }

  lemma RankAtStart<M>(c: Config<M>)
    requires c.Fits()
    ensures Rank(c, Start(c)) == 3 * |c.script| * (24 * c.tasks + 4)
  {
    NoWorkAtStart(Start(c).receivers);
  }

  // -------------------------------------------------------------------- results

  /**
   * Safety in every interleaving: the sender's assertion never fails, no receiver lags or stops, each is
   * at most one message behind, and the counter is the number of receivers yet to finish the message.
   */
  lemma EveryRunIsSafe<M>(c: Config<M>, schedule: seq<Actor>)
    requires c.Fits() && Run(c, Start(c), schedule).Some?
    ensures var s := Run(c, Start(c), schedule).value;
            && s.phase != Panicked
            && (s.phase == Add ==> s.counter == 0)
            && (s.phase == Load || s.phase == Wait ==> s.counter == CountBusy(s.receivers))
            && Sent(s) <= |c.script|
            && forall i :: 0 <= i < |s.receivers| ==>
                 && s.receivers[i].phase != Stopped
                 && |s.receivers[i].unread| <= 1
                 && s.receivers[i].handled + s.receivers[i].unread == c.script[..Sent(s)]
  {
    StartInv(c);
    RunKeepsInv(c, Start(c), schedule);
    var s := Run(c, Start(c), schedule).value;
    forall i | 0 <= i < |s.receivers|
      ensures InStep(c, Sent(s), s.receivers[i])
    {
    }
  }

  /** Liveness in every interleaving, fair or not: a run that cannot go on has finished, and none goes on for long. */
  lemma EveryRunFinishes<M>(c: Config<M>, schedule: seq<Actor>)
    requires c.Fits() && Run(c, Start(c), schedule).Some?
    ensures Stuck(c, Run(c, Start(c), schedule).value) ==> Finished(c, Run(c, Start(c), schedule).value)
    ensures |schedule| <= 3 * |c.script| * (24 * c.tasks + 4)
  {
    var start := Start(c);
    StartInv(c);
    RunKeepsInv(c, start, schedule);
    RunLowersRank(c, start, schedule);
    RankIsNatural(c, Run(c, start, schedule).value);
    RankAtStart(c);
    if Stuck(c, Run(c, start, schedule).value) {
      StuckIsFinished(c, Run(c, start, schedule).value);
    }
  }
}
