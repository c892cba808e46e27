// How often the receivers of the barrier wake the sender: once for each round, by the last of them.
module BarrierWakeUps {
  import opened BroadcastBarrier
  import opened Wrappers

  /** Does the step call notify_one? */
  predicate Wakes<M>(s: State<M>, a: Actor) {
    a.Task? && a.i < |s.receivers| && s.receivers[a.i].phase == Notifying
  }

  function WakeUps<M>(c: Config<M>, s: State<M>, schedule: seq<Actor>): nat
    requires c.Fits()
    decreases |schedule|
  {
    if schedule == [] then 0
    else
      match Act(c, s, schedule[0])
      case None => 0
      case Some(t) => (if Wakes(s, schedule[0]) then 1 else 0) + WakeUps(c, t, schedule[1..])
  }

  function CountNotifying<M>(rs: seq<Receiver<M>>): (n: nat) {
    if rs == [] then 0 else (if rs[0].phase == Notifying then 1 else 0) + CountNotifying(rs[1..])
  }

  /** The rounds in which every receiver has counted down. */
  function RoundsCounted<M>(s: State<M>): nat {
    if (s.phase == Load || s.phase == Wait) && s.counter == 0 then s.round + 1 else s.round
  }

  lemma {:induction false} NotifyingUpdate<M>(rs: seq<Receiver<M>>, i: nat, r: Receiver<M>)
    requires i < |rs|
    ensures CountNotifying(rs[i := r])
         == CountNotifying(rs) - (if rs[i].phase == Notifying then 1 else 0) + (if r.phase == Notifying then 1 else 0)
  {
    if i > 0 {
      NotifyingUpdate(rs[1..], i - 1, r);
      assert rs[i := r][1..] == rs[1..][i - 1 := r];
    } else {
      assert rs[i := r][1..] == rs[1..];
    }
  }

  lemma {:induction false} SamePhases<M>(a: seq<Receiver<M>>, b: seq<Receiver<M>>)
    requires |a| == |b| && forall i :: 0 <= i < |a| ==> a[i].phase == b[i].phase
    ensures CountNotifying(a) == CountNotifying(b)
  {
    if a != [] {
      SamePhases(a[1..], b[1..]);
    }
  }

  lemma SenderKeepsCount<M>(c: Config<M>, s: State<M>, t: State<M>)
    requires c.Fits() && c.tasks > 0 && Inv(c, s) && SenderStep(c, s) == Some(t)
    ensures RoundsCounted(t) == RoundsCounted(s) && CountNotifying(t.receivers) == CountNotifying(s.receivers)
  {
    if s.phase == Send {
      SamePhases(t.receivers, s.receivers);
    }
  }

  /** A receiver that works has not counted down, so the sender is in its waiting loop. */
  lemma WorkingIsCounted<M>(c: Config<M>, s: State<M>, i: nat)
    requires c.Fits() && Inv(c, s) && i < |s.receivers| && s.receivers[i].phase == Working
    ensures (s.phase == Load || s.phase == Wait) && 0 < s.counter < c.modulus
  {
    CountZero(s.receivers);
    assert Busy(s.receivers[i]);
  }

  lemma TaskKeepsCount<M>(c: Config<M>, s: State<M>, i: nat, t: State<M>)
    requires c.Fits() && Inv(c, s) && i < |s.receivers| && TaskStep(c, s, i) == Some(t)
    ensures (if s.receivers[i].phase == Notifying then 1 else 0) + CountNotifying(t.receivers) - RoundsCounted(t)
         == CountNotifying(s.receivers) - RoundsCounted(s)
  {
    NotifyingUpdate(s.receivers, i, t.receivers[i]);
    assert t.receivers == s.receivers[i := t.receivers[i]];
    if s.receivers[i].phase == Working {
      WorkingIsCounted(c, s, i);
      WrappingDecrement(s.counter, c.modulus);
    }
  }

  lemma {:induction false} RunWakes<M>(c: Config<M>, s: State<M>, schedule: seq<Actor>, end: State<M>)
    requires c.Fits() && c.tasks > 0 && Inv(c, s) && Run(c, s, schedule) == Some(end)
    ensures WakeUps(c, s, schedule) + CountNotifying(end.receivers) - RoundsCounted(end)
         == CountNotifying(s.receivers) - RoundsCounted(s)
    decreases |schedule|
  {
    if schedule != [] {
      var a := schedule[0];
      var t := Act(c, s, a).value;
      RunKeepsInv(c, s, [a]);
      assert Run(c, t, []) == Some(t);
      match a {
        case Sender => SenderKeepsCount(c, s, t);
        case Task(i) => TaskKeepsCount(c, s, i, t);
      }
      RunWakes(c, t, schedule[1..], end);
    }
  }

  lemma {:induction false} NoneNotifies<M>(rs: seq<Receiver<M>>)
    requires forall i :: 0 <= i < |rs| ==> rs[i].phase == Idle
    ensures CountNotifying(rs) == 0
  {
    if rs != [] {
      NoneNotifies(rs[1..]);
    }
  }

  /**
   * In every interleaving, the wake-ups that have been made and those that are about to be made are as many
   * as the rounds in which all receivers have counted down: one for each round, whoever is last.
   */
  lemma OneWakeUpPerRound<M>(c: Config<M>, schedule: seq<Actor>)
    requires c.Fits() && c.tasks > 0 && Run(c, Start(c), schedule).Some?
    ensures var s := Run(c, Start(c), schedule).value;
            WakeUps(c, Start(c), schedule) + CountNotifying(s.receivers) == RoundsCounted(s)
  {
    StartInv(c);
    NoneNotifies(Start(c).receivers);
    RunWakes(c, Start(c), schedule, Run(c, Start(c), schedule).value);
  }
}
