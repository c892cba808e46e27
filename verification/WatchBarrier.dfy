// The barrier of the watch benchmark. A watch channel keeps only its latest value; the
// barrier makes it as good as a broadcast channel, which is shown by simulation.
module WatchBarrier {
  import opened BroadcastBarrier
  import opened Wrappers

  /** Changed is the point between noticing a new version and reading the value. */
  datatype WatchPhase = Unchanged | Changed | Computing | Waking

  datatype Watcher<M> = Watcher(phase: WatchPhase, seen: nat, handled: seq<M>)

  datatype WatchState<M> = WatchState(
    counter: nat, permit: bool, phase: SenderPhase, round: nat,
    version: nat, latest: M, watchers: seq<Watcher<M>>)

  /** All watchers have seen the initial value of the channel. */
  function WatchStart<M>(c: Config<M>, initial: M): WatchState<M> {
    WatchState(0, false, Add, 0, 0, initial, seq(c.tasks, i => Watcher(Unchanged, 0, [])))
  }

  // ---------------------------------------------------------------------- steps

  function WatchSenderStep<M>(c: Config<M>, w: WatchState<M>): Option<WatchState<M>>
    requires c.Fits()
  {
    match w.phase
    case Add =>
      if w.round >= |c.script| then None
      else Some(w.(counter := (w.counter + c.tasks) % c.modulus,
                   phase := if w.counter == 0 then Send else Panicked))
    case Send =>
      if w.round >= |c.script| then None
      else Some(w.(phase := Load, version := w.version + 1, latest := c.script[w.round]))
    case Load =>
      if w.counter > 0 then Some(w.(phase := Wait)) else Some(w.(phase := Add, round := w.round + 1))
    case Wait =>
      if w.permit then Some(w.(permit := false, phase := Load)) else None
    case Panicked => None
  }

  /** Reading the value is a step of its own: it reads whatever the channel holds by then. */
  function WatcherStep<M>(c: Config<M>, w: WatchState<M>, i: nat): Option<WatchState<M>>
    requires c.Fits() && i < |w.watchers|
  {
    var r := w.watchers[i];
    match r.phase
    case Unchanged =>
      if r.seen == w.version then None
      else Some(w.(watchers := w.watchers[i := r.(phase := Changed, seen := w.version)]))
    case Changed =>
      Some(w.(watchers := w.watchers[i := r.(phase := Computing, handled := r.handled + [w.latest])]))
    case Computing =>
      Some(w.(counter := (w.counter + c.modulus - 1) % c.modulus,
              watchers := w.watchers[i := r.(phase := if w.counter == 1 then Waking else Unchanged)]))
    case Waking =>
      Some(w.(permit := true, watchers := w.watchers[i := r.(phase := Unchanged)]))
  }

  function WatchAct<M>(c: Config<M>, w: WatchState<M>, a: Actor): Option<WatchState<M>>
    requires c.Fits()
  {
    match a
    case Sender => WatchSenderStep(c, w)
    case Task(i) => if i < |w.watchers| then WatcherStep(c, w, i) else None
  }

  function WatchRun<M>(c: Config<M>, w: WatchState<M>, schedule: seq<Actor>): Option<WatchState<M>>
    requires c.Fits()
    decreases |schedule|
  {
    if schedule == [] then Some(w)
    else
      match WatchAct(c, w, schedule[0])
      case None => None
      case Some(t) => WatchRun(c, t, schedule[1..])
  }

  // ----------------------------------------------------------------- simulation

  /** A watcher as a receiver of a broadcast channel: an unread version is an unread message. */
  function AsReceiver<M>(r: Watcher<M>, version: nat, latest: M): Receiver<M> {
    Receiver(
      match r.phase case Unchanged => Idle case Changed => Idle case Computing => Working case Waking => Notifying,
      if r.seen != version || r.phase == Changed then [latest] else [],
      r.handled)
  }

  function AsBroadcast<M>(w: WatchState<M>): (s: State<M>)
    ensures |s.receivers| == |w.watchers|
  {
    State(w.counter, w.permit, w.phase, w.round,
          seq(|w.watchers|, i requires 0 <= i < |w.watchers| => AsReceiver(w.watchers[i], w.version, w.latest)))
  }

  ghost predicate WatchInv<M>(c: Config<M>, w: WatchState<M>) {
    && Inv(c, AsBroadcast(w))
    && w.version == Sent(AsBroadcast(w))
    && forall i :: 0 <= i < |w.watchers| ==>
         && w.watchers[i].seen <= w.version <= w.watchers[i].seen + 1
         && (w.watchers[i].phase == Changed ==> w.watchers[i].seen == w.version)
  }

  lemma WatchStartInv<M>(c: Config<M>, initial: M)
    requires c.Fits()
    ensures WatchInv(c, WatchStart(c, initial)) && AsBroadcast(WatchStart(c, initial)) == Start(c)
  {
    StartInv(c);
    assert AsBroadcast(WatchStart(c, initial)).receivers == Start(c).receivers;
  }

  /** Noticing a change is the only step that the broadcast channel does not see. */
  predicate OnlyNotices<M>(w: WatchState<M>, a: Actor) {
    a.Task? && a.i < |w.watchers| && w.watchers[a.i].phase == Unchanged
  }

  lemma UpdateAsReceiver<M>(w: WatchState<M>, v: WatchState<M>, i: nat)
    requires i < |w.watchers| == |v.watchers|
    requires v.version == w.version && v.latest == w.latest
    requires v.watchers == w.watchers[i := v.watchers[i]]
    ensures AsBroadcast(v).receivers
         == AsBroadcast(w).receivers[i := AsReceiver(v.watchers[i], w.version, w.latest)]
  {
  }

  /** No message is unread when the next is sent, so overwriting the value loses nothing. */
  lemma SendSimulates<M>(c: Config<M>, w: WatchState<M>)
    requires c.Fits() && WatchInv(c, w) && w.phase == Send
    ensures var v := w.(phase := Load, version := w.version + 1, latest := c.script[w.round]);
            && AsBroadcast(v).receivers == Delivered(AsBroadcast(w).receivers, v.latest)
            && forall i :: 0 <= i < |w.watchers| ==> w.watchers[i].seen == w.version && w.watchers[i].phase != Changed
  {
    var s := AsBroadcast(w);
    CountZero(s.receivers);
    var v := w.(phase := Load, version := w.version + 1, latest := c.script[w.round]);
    forall i | 0 <= i < |w.watchers|
      ensures AsBroadcast(v).receivers[i] == Delivered(s.receivers, v.latest)[i]
      ensures w.watchers[i].seen == w.version && w.watchers[i].phase != Changed
    {
      assert !Busy(s.receivers[i]);
    }
  }

  lemma SenderSimulates<M>(c: Config<M>, w: WatchState<M>)
    requires c.Fits() && WatchInv(c, w)
    ensures match WatchSenderStep(c, w)
            case None => SenderStep(c, AsBroadcast(w)) == None
            case Some(v) => SenderStep(c, AsBroadcast(w)) == Some(AsBroadcast(v)) && WatchInv(c, v)
  {
    var step := WatchSenderStep(c, w);
    if step.Some? {
      if w.phase == Send {
        SendSimulates(c, w);
      } else {
        assert AsBroadcast(step.value).receivers == AsBroadcast(w).receivers;
      }
      SenderKeepsInv(c, AsBroadcast(w));
    }
  }

  lemma NoticeSimulates<M>(c: Config<M>, w: WatchState<M>, i: nat)
    requires c.Fits() && WatchInv(c, w) && i < |w.watchers|
    requires w.watchers[i].phase == Unchanged && w.watchers[i].seen != w.version
    ensures var v := WatcherStep(c, w, i).value;
            && WatchInv(c, v) && AsBroadcast(v) == AsBroadcast(w)
            && TaskStep(c, AsBroadcast(w), i).Some?
  {
    var s, v := AsBroadcast(w), WatcherStep(c, w, i).value;
    UpdateAsReceiver(w, v, i);
    assert AsBroadcast(v).receivers == s.receivers;
  }

  lemma HandlingSimulates<M>(c: Config<M>, w: WatchState<M>, i: nat)
    requires c.Fits() && WatchInv(c, w) && i < |w.watchers| && w.watchers[i].phase != Unchanged
    ensures var v := WatcherStep(c, w, i).value;
            WatchInv(c, v) && TaskStep(c, AsBroadcast(w), i) == Some(AsBroadcast(v))
  {
    var s, v := AsBroadcast(w), WatcherStep(c, w, i).value;
    assert InStep(c, Sent(s), s.receivers[i]);
    UpdateAsReceiver(w, v, i);
    assert [w.latest][1..] == [];
    ActKeepsInv(c, s, Task(i));
  }

  lemma WatcherSimulates<M>(c: Config<M>, w: WatchState<M>, i: nat)
    requires c.Fits() && WatchInv(c, w) && i < |w.watchers|
    ensures match WatcherStep(c, w, i)
            case None => TaskStep(c, AsBroadcast(w), i) == None
            case Some(v) =>
              && TaskStep(c, AsBroadcast(w), i).Some?
              && WatchInv(c, v)
              && (if w.watchers[i].phase == Unchanged then AsBroadcast(v) == AsBroadcast(w)
                  else TaskStep(c, AsBroadcast(w), i) == Some(AsBroadcast(v)))
  {
    if w.watchers[i].phase != Unchanged {
      HandlingSimulates(c, w, i);
    } else if w.watchers[i].seen != w.version {
      NoticeSimulates(c, w, i);
    }
  }

  /** Every step of the watch benchmark is a step of the broadcast benchmark, or none. */
  lemma WatchSimulatesBroadcast<M>(c: Config<M>, w: WatchState<M>, a: Actor)
    requires c.Fits() && WatchInv(c, w)
    ensures match WatchAct(c, w, a)
            case None => Act(c, AsBroadcast(w), a) == None
            case Some(v) =>
              && WatchInv(c, v)
              && Act(c, AsBroadcast(w), a).Some?
              && (if OnlyNotices(w, a) then AsBroadcast(v) == AsBroadcast(w)
                  else Act(c, AsBroadcast(w), a) == Some(AsBroadcast(v)))
  {
    match a
    case Sender => SenderSimulates(c, w);
    case Task(i) =>
      if i < |w.watchers| {
        WatcherSimulates(c, w, i);
      }
  }

  /** The actors whose steps the broadcast channel sees. */
  function Visible<M>(c: Config<M>, w: WatchState<M>, schedule: seq<Actor>): seq<Actor>
    requires c.Fits() && WatchRun(c, w, schedule).Some?
    decreases |schedule|
  {
    if schedule == [] then []
    else
      (if OnlyNotices(w, schedule[0]) then [] else [schedule[0]])
      + Visible(c, WatchAct(c, w, schedule[0]).value, schedule[1..])
  }

  lemma {:induction false} RunSimulates<M>(c: Config<M>, w: WatchState<M>, schedule: seq<Actor>)
    requires c.Fits() && WatchInv(c, w) && WatchRun(c, w, schedule).Some?
    ensures WatchInv(c, WatchRun(c, w, schedule).value)
    ensures Run(c, AsBroadcast(w), Visible(c, w, schedule)) == Some(AsBroadcast(WatchRun(c, w, schedule).value))
    decreases |schedule|
  {
    if schedule != [] {
      var v := WatchAct(c, w, schedule[0]).value;
      var rest := Visible(c, v, schedule[1..]);
      WatchSimulatesBroadcast(c, w, schedule[0]);
      RunSimulates(c, v, schedule[1..]);
      assert ([schedule[0]] + rest)[1..] == rest;
      assert [] + rest == rest;
    }
  }

  // --------------------------------------------------------------- runs are finite

  /** The watchers that have yet to notice the version. */
  function Unaware<M>(rs: seq<Watcher<M>>, version: nat): (n: nat)
    ensures n <= |rs|
  {
    if rs == [] then 0
    else (if rs[0].phase == Unchanged && rs[0].seen != version then 1 else 0) + Unaware(rs[1..], version)
  }

  lemma {:induction false} UnawareUpdate<M>(rs: seq<Watcher<M>>, version: nat, i: nat, r: Watcher<M>)
    requires i < |rs| && rs[i].phase == Unchanged && rs[i].seen != version && r.phase != Unchanged
    ensures Unaware(rs[i := r], version) == Unaware(rs, version) - 1
  {
    if i > 0 {
      UnawareUpdate(rs[1..], version, i - 1, r);
      assert rs[i := r][1..] == rs[1..][i - 1 := r];
    } else {
      assert rs[i := r][1..] == rs[1..];
    }
  }

  lemma {:induction false} AwareAtStart<M>(rs: seq<Watcher<M>>)
    requires forall i :: 0 <= i < |rs| ==> rs[i].seen == 0
    ensures Unaware(rs, 0) == 0
  {
    if rs != [] {
      AwareAtStart(rs[1..]);
    }
  }

  function WatchRank<M>(c: Config<M>, w: WatchState<M>): int {
    Rank(c, AsBroadcast(w)) * (c.tasks + 1) + Unaware(w.watchers, w.version)
  }

  lemma WatchActLowersRank<M>(c: Config<M>, w: WatchState<M>, a: Actor)
    requires c.Fits() && WatchInv(c, w) && WatchAct(c, w, a).Some?
    ensures WatchRank(c, WatchAct(c, w, a).value) < WatchRank(c, w)
  {
    var v := WatchAct(c, w, a).value;
    WatchSimulatesBroadcast(c, w, a);
    if OnlyNotices(w, a) {
      UnawareUpdate(w.watchers, w.version, a.i, v.watchers[a.i]);
    } else {
      var before, after := Rank(c, AsBroadcast(w)), Rank(c, AsBroadcast(v));
      ActLowersRank(c, AsBroadcast(w), a);
      NextStageIsLower(before, after, c.tasks + 1, Unaware(w.watchers, w.version), Unaware(v.watchers, v.version));
    }
  }

  lemma {:induction false} WatchRunLowersRank<M>(c: Config<M>, w: WatchState<M>, schedule: seq<Actor>)
    requires c.Fits() && WatchInv(c, w) && WatchRun(c, w, schedule).Some?
    ensures WatchRank(c, WatchRun(c, w, schedule).value) + |schedule| <= WatchRank(c, w)
    decreases |schedule|
  {
    if schedule != [] {
      WatchSimulatesBroadcast(c, w, schedule[0]);
      WatchActLowersRank(c, w, schedule[0]);
      WatchRunLowersRank(c, WatchAct(c, w, schedule[0]).value, schedule[1..]);
    }
  }

  // -------------------------------------------------------------------- results

  /**
   * Exactly once over a lossy channel: in every interleaving each watcher has read exactly the
   * values sent so far, in order and once each, or all of them but the last.
   */
  lemma EveryVersionIsReadOnce<M>(c: Config<M>, initial: M, schedule: seq<Actor>, i: nat)
    requires c.Fits() && WatchRun(c, WatchStart(c, initial), schedule).Some?
    requires i < |WatchRun(c, WatchStart(c, initial), schedule).value.watchers|
    ensures var w := WatchRun(c, WatchStart(c, initial), schedule).value;
            var r := w.watchers[i];
            && w.phase != Panicked
            && r.seen <= w.version <= r.seen + 1
            && w.version <= |c.script|
            && (r.phase == Changed ==> r.seen > 0)
            && r.handled == c.script[..if r.phase == Changed then r.seen - 1 else r.seen]
  {
    var start := WatchStart(c, initial);
    WatchStartInv(c, initial);
    RunSimulates(c, start, schedule);
    var w := WatchRun(c, start, schedule).value;
    var s := AsBroadcast(w);
    assert InStep(c, Sent(s), s.receivers[i]);
    var r := s.receivers[i];
    assert r.handled == (r.handled + r.unread)[..|r.handled|];
    assert |r.handled| == w.version - |r.unread|;
  }

  predicate WatchStuck<M>(c: Config<M>, w: WatchState<M>)
    requires c.Fits()
  {
    WatchSenderStep(c, w) == None && forall i :: 0 <= i < |w.watchers| ==> WatcherStep(c, w, i) == None
  }

  lemma WatchRankIsNatural<M>(c: Config<M>, w: WatchState<M>)
    requires c.Fits() && WatchInv(c, w)
    ensures WatchRank(c, w) >= 0
  {
    RankIsNatural(c, AsBroadcast(w));
    ProductIsNatural(Rank(c, AsBroadcast(w)), c.tasks + 1);
  }

  lemma ProductIsNatural(a: int, b: nat)
    requires a >= 0
    ensures a * b >= 0
  {
  }

  lemma WatchRankAtStart<M>(c: Config<M>, initial: M, rank: int)
    requires c.Fits() && rank == 3 * |c.script| * (24 * c.tasks + 4)
    ensures WatchRank(c, WatchStart(c, initial)) == rank * (c.tasks + 1)
  {
    WatchStartInv(c, initial);
    RankAtStart(c);
    AwareAtStart(WatchStart(c, initial).watchers);
  }

  lemma WatchRunIsBounded<M>(c: Config<M>, initial: M, schedule: seq<Actor>)
    requires c.Fits() && WatchRun(c, WatchStart(c, initial), schedule).Some?
    ensures |schedule| <= WatchRank(c, WatchStart(c, initial))
  {
    var start := WatchStart(c, initial);
    WatchStartInv(c, initial);
    RunSimulates(c, start, schedule);
    WatchRunLowersRank(c, start, schedule);
    WatchRankIsNatural(c, WatchRun(c, start, schedule).value);
  }

  lemma WatchStuckIsStuck<M>(c: Config<M>, w: WatchState<M>)
    requires c.Fits() && WatchInv(c, w) && WatchStuck(c, w)
    ensures Stuck(c, AsBroadcast(w))
  {
    SenderSimulates(c, w);
    forall i | 0 <= i < |w.watchers|
      ensures TaskStep(c, AsBroadcast(w), i) == None
    {
      assert WatcherStep(c, w, i) == None;
      WatcherSimulates(c, w, i);
    }
  }

  /** The sender is through and every watcher has read everything. */
  ghost predicate WatchFinished<M>(c: Config<M>, w: WatchState<M>) {
    && w.phase == Add && w.round == |c.script| == w.version
    && forall i :: 0 <= i < |w.watchers| ==> w.watchers[i] == Watcher(Unchanged, w.version, c.script)
  }

  lemma FinishedIsWatchFinished<M>(c: Config<M>, w: WatchState<M>)
    requires c.Fits() && WatchInv(c, w) && WatchStuck(c, w) && Finished(c, AsBroadcast(w))
    ensures WatchFinished(c, w)
  {
    forall i | 0 <= i < |w.watchers|
      ensures w.watchers[i] == Watcher(Unchanged, w.version, c.script)
    {
      assert WatcherStep(c, w, i) == None;
      assert AsBroadcast(w).receivers[i] == Receiver(Idle, [], c.script);
    }
  }

  /** Every run comes to an end, whatever the schedule, and it ends with everything read by everyone. */
  lemma EveryWatchRunFinishes<M>(c: Config<M>, initial: M, schedule: seq<Actor>)
    requires c.Fits() && WatchRun(c, WatchStart(c, initial), schedule).Some?
    ensures var w := WatchRun(c, WatchStart(c, initial), schedule).value;
            WatchStuck(c, w) ==> WatchFinished(c, w)
    ensures |schedule| <= 3 * |c.script| * (24 * c.tasks + 4) * (c.tasks + 1)
  {
    var start := WatchStart(c, initial);
    WatchRunIsBounded(c, initial, schedule);
    WatchRankAtStart(c, initial, 3 * |c.script| * (24 * c.tasks + 4));
    WatchStartInv(c, initial);
    RunSimulates(c, start, schedule);
    var w := WatchRun(c, start, schedule).value;
    if WatchStuck(c, w) {
      WatchStuckIsStuck(c, w);
      StuckIsFinished(c, AsBroadcast(w));
      FinishedIsWatchFinished(c, w);
    }
  }
}
