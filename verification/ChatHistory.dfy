// What the chat server's log holds, read off the events alone, and who gets to hear it.
module ChatHistory {
  import opened ChatRoom
  import opened Wrappers

  /** What the events tell about a connection. */
  datatype Person = Person(addr: SocketAddr, name: string)

  function PeopleAfter(people: seq<Person>, e: Event): seq<Person> {
    match e
    case Connect(addr) => people + [Person(addr, "")]
    case Register(i, name) => if i < |people| then people[i := people[i].(name := name)] else people
    case _ => people
  }

  predicate IsMessage(e: Event) {
    e.Announce? || e.Say? || e.Leave?
  }

  /** What a peer's arrival, line or departure reads like. */
  function TextOf(name: string, e: Event): string
    requires IsMessage(e)
  {
    match e
    case Announce(i) => name + " has joined the chat"
    case Say(i, line) => name + ": " + line
    case Leave(i) => name + " has left the chat"
  }

  /** The message that an event puts out, under its sender's address. */
  function MessageOf(people: seq<Person>, e: Event): seq<Entry> {
    if IsMessage(e) && e.i < |people| then [Entry(people[e.i].addr, TextOf(people[e.i].name, e))] else []
  }

  /** All messages of the events, in their order. */
  function History(people: seq<Person>, events: seq<Event>): seq<Entry>
    decreases |events|
  {
    if events == [] then []
    else MessageOf(people, events[0]) + History(PeopleAfter(people, events[0]), events[1..])
  }

  predicate IsPerson(s: Session, p: Person) {
    s.addr == p.addr && s.name == p.name
  }

  predicate Same(room: Room, people: seq<Person>) {
    && |room.sessions| == |people|
    && forall i :: 0 <= i < |people| ==> IsPerson(room.sessions[i], people[i])
  }

  lemma MessageTells(room: Room, people: seq<Person>, e: Event, next: Room)
    requires Same(room, people) && IsMessage(e) && Step(room, e) == Some(next)
    ensures Same(next, PeopleAfter(people, e))
    ensures next.log == room.log + MessageOf(people, e)
  {
    assert IsPerson(room.sessions[e.i], people[e.i]);
  }

  lemma StepTells(room: Room, people: seq<Person>, e: Event, next: Room)
    requires Same(room, people) && Step(room, e) == Some(next)
    ensures Same(next, PeopleAfter(people, e))
    ensures next.log == room.log + MessageOf(people, e)
  {
    if IsMessage(e) {
      MessageTells(room, people, e, next);
    }
  }

  lemma {:induction false} RunTells(room: Room, people: seq<Person>, events: seq<Event>, end: Room)
    requires Same(room, people) && Run(room, events) == Some(end)
    ensures end.log == room.log + History(people, events)
    decreases |events|
  {
    if events != [] {
      var e := events[0];
      var next := Step(room, e).value;
      StepTells(room, people, e, next);
      RunTells(next, PeopleAfter(people, e), events[1..], end);
      Regroup(room.log, MessageOf(people, e), History(PeopleAfter(people, e), events[1..]));
    }
  }

  /**
   * On every run the log is read off the events: a peer's announcement, each of its lines behind its
   * name, and its farewell, in the order in which they happened.
   */
  lemma LogIsHistory(events: seq<Event>)
    requires Run(EMPTY_ROOM, events).Some?
    ensures Run(EMPTY_ROOM, events).value.log == History([], events)
  {
    RunTells(EMPTY_ROOM, [], events, Run(EMPTY_ROOM, events).value);
  }

  // ---------------------------------------------------------------- who hears it

  /** Is the session's handler between its registration and its end? */
  predicate Listens(s: Session) {
    s.stage == Registered || s.stage == Joined
  }

  function Hearing(s: Session, text: string): Session {
    if Listens(s) then s.(box := s.box.(sent := s.box.sent + [text])) else s
  }

  /** Anybody but the sender hears a broadcast exactly if it listens. */
  lemma BroadcastReaches(room: Room, sender: SocketAddr, text: string, j: nat)
    requires Inv(room) && j < |room.sessions|
    requires Listens(room.sessions[j]) ==> room.sessions[j].addr != sender
    ensures Broadcasted(room, sender, text).sessions[j] == Hearing(room.sessions[j], text)
  {
    var s := room.sessions[j];
    assert SessionInv(room, j);
    if Listens(s) {
      assert Attached(room, j) && s.box.open;
      assert s.box.Post(text) == s.box.(sent := s.box.sent + [text]);
    } else {
      assert s.(box := s.box) == s;
      assert !Attached(room, j) || s.box.Post(text) == s.box;
    }
  }

  lemma SenderKeeps(room: Room, sender: SocketAddr, text: string, i: nat)
    requires i < |room.sessions| && room.sessions[i].addr == sender
    ensures Broadcasted(room, sender, text).sessions[i] == room.sessions[i]
  {
  }

  /** The room just before the message is broadcast. */
  function Before(room: Room, e: Event): Room
    requires IsMessage(e) && e.i < |room.sessions|
  {
    var s := room.sessions[e.i];
    match e
    case Announce(i) => Changed(room, i, s.(stage := Joined))
    case Say(i, line) => room
    case Leave(i) =>
      Changed(room, i, s.(stage := Gone, box := s.box.(open := false), until := Some(|room.log|)))
        .(peers := room.peers - {s.addr})
  }

  lemma BeforeKeepsInv(room: Room, e: Event)
    requires Inv(room) && IsMessage(e) && Step(room, e).Some?
    ensures Inv(Before(room, e))
  {
    match e
    case Announce(i) =>
      assert SessionInv(room, i);
      ChangeKeepsInv(room, i, room.sessions[i].(stage := Joined));
    case Say(i, line) =>
    case Leave(i) => DetachKeepsInv(room, i);
  }

  lemma StepBroadcasts(room: Room, e: Event, next: Room)
    requires IsMessage(e) && Step(room, e) == Some(next)
    ensures e.i < |room.sessions|
    ensures var s := room.sessions[e.i];
            next == Broadcasted(Before(room, e), s.addr, TextOf(s.name, e))
  {
  }

  /** The address of the sender is not that of any other session that listens. */
  lemma SenderIsAlone(room: Room, i: nat, j: nat)
    requires Inv(room) && i < |room.sessions| && j < |room.sessions| && i != j
    requires Listens(room.sessions[i]) && Listens(room.sessions[j])
    ensures room.sessions[i].addr != room.sessions[j].addr
  {
  }

  lemma MessageReaches(room: Room, e: Event, next: Room, j: nat)
    requires Inv(room) && IsMessage(e) && Step(room, e) == Some(next) && j < |room.sessions|
    ensures e.i < |room.sessions| == |next.sessions|
    ensures j != e.i ==> next.sessions[j] == Hearing(room.sessions[j], TextOf(room.sessions[e.i].name, e))
    ensures j == e.i ==> next.sessions[j].box.sent == room.sessions[j].box.sent
  {
    var i := e.i;
    var s := room.sessions[i];
    StepBroadcasts(room, e, next);
    if j == i {
      SenderKeeps(Before(room, e), s.addr, TextOf(s.name, e), i);
    } else {
      BeforeKeepsInv(room, e);
      if Listens(room.sessions[j]) {
        SenderIsAlone(room, i, j);
      }
      BroadcastReaches(Before(room, e), s.addr, TextOf(s.name, e), j);
    }
  }

  /**
   * In every run, an announcement, a line or a farewell is put on the channel of every other session that
   * has registered and not ended, behind what is there, and changes nothing else for anyone else.
   */
  lemma EveryoneElseHears(events: seq<Event>, e: Event, j: nat)
    requires Run(EMPTY_ROOM, events).Some? && IsMessage(e)
    requires Step(Run(EMPTY_ROOM, events).value, e).Some? && j < |Run(EMPTY_ROOM, events).value.sessions|
    ensures var room := Run(EMPTY_ROOM, events).value;
            var next := Step(room, e).value;
            && e.i < |room.sessions| == |next.sessions|
            && (j != e.i ==> next.sessions[j] == Hearing(room.sessions[j], TextOf(room.sessions[e.i].name, e)))
            && (j == e.i ==> next.sessions[j].box.sent == room.sessions[j].box.sent)
  {
    var room := Run(EMPTY_ROOM, events).value;
    RunKeepsInv(EMPTY_ROOM, events);
    MessageReaches(room, e, Step(room, e).value, j);
  }

  // ------------------------------------------------- what a peer has heard, from the events

  lemma RegisteredStep(room: Room, e: Event, next: Room, i: nat)
    requires Step(room, e) == Some(next) && i < |room.sessions| && room.sessions[i].stage != Connected
    ensures i < |next.sessions| && next.sessions[i].stage != Connected
    ensures next.sessions[i].from == room.sessions[i].from && next.sessions[i].addr == room.sessions[i].addr
  {
  }

  /** Once registered, a session hears from the same place of the log on. */
  lemma {:induction false} RegisteredStays(room: Room, events: seq<Event>, end: Room, i: nat)
    requires Run(room, events) == Some(end) && i < |room.sessions| && room.sessions[i].stage != Connected
    ensures i < |end.sessions| && end.sessions[i].stage != Connected
    ensures end.sessions[i].from == room.sessions[i].from && end.sessions[i].addr == room.sessions[i].addr
    decreases |events|
  {
    if events != [] {
      var next := Step(room, events[0]).value;
      RegisteredStep(room, events[0], next, i);
      RegisteredStays(next, events[1..], end, i);
    }
  }

  lemma {:induction false} RunInTwo(room: Room, a: seq<Event>, b: seq<Event>)
    requires Run(room, a + b).Some?
    ensures Run(room, a).Some? && Run(room, a + b) == Run(Run(room, a).value, b)
    decreases |a|
  {
    if a == [] {
      assert a + b == b;
    } else {
      assert (a + b)[1..] == a[1..] + b;
      RunInTwo(Step(room, a[0]).value, a[1..], b);
    }
  }

  /**
   * What has been put on the channel of a session that still listens is, whatever else happened: the messages
   * of the events since its registration, in their order, but for those from its own address.
   */
  lemma ChannelIsHistory(before: seq<Event>, i: nat, name: string, after: seq<Event>)
    requires Run(EMPTY_ROOM, before + [Event.Register(i, name)] + after).Some?
    ensures var events := before + [Event.Register(i, name)] + after;
            var room := Run(EMPTY_ROOM, events).value;
            var from, all := History([], before), History([], events);
            && i < |room.sessions|
            && (Listens(room.sessions[i]) ==>
                  room.sessions[i].box.sent == Heard(all, room.sessions[i].addr, |from|, |all|))
  {
    var register := Event.Register(i, name);
    RunInTwo(EMPTY_ROOM, before + [register], after);
    RunInTwo(EMPTY_ROOM, before, [register]);
    var room := Run(EMPTY_ROOM, before).value;
    var next := Run(EMPTY_ROOM, before + [register]).value;
    assert Run(room, [register]) == Step(room, register);
    assert next.sessions[i].from == |room.log|;
    LogIsHistory(before);
    var events := before + [register] + after;
    var end := Run(EMPTY_ROOM, events).value;
    RegisteredStays(next, after, end, i);
    LogIsHistory(events);
    RunKeepsInv(EMPTY_ROOM, events);
    assert SessionInv(end, i);
  }

  // ------------------------------------------------------------- what each session goes through

  /** The stage of session i behind an event. */
  function StageBehind(stage: Stage, e: Event, i: nat): Stage {
    if e == NoName(i) || e == Leave(i) then Gone
    else if e == FailToDeliver(i) then Dropped
    else if e == Announce(i) then Joined
    else if e.Register? && e.i == i then Registered
    else stage
  }

  /** The stage of session i, read off all events. */
  function StageAfter(stage: Stage, events: seq<Event>, i: nat): Stage
    decreases |events|
  {
    if events == [] then stage else StageAfter(StageBehind(stage, events[0], i), events[1..], i)
  }

  function Connections(events: seq<Event>): nat {
    if events == [] then 0 else (if events[0].Connect? then 1 else 0) + Connections(events[1..])
  }

  /** The stage of a session; of one that is not there yet, the first. */
  function StageIn(room: Room, i: nat): Stage {
    if i < |room.sessions| then room.sessions[i].stage else Connected
  }

  lemma StageStep(room: Room, e: Event, next: Room, i: nat)
    requires Step(room, e) == Some(next)
    ensures StageIn(next, i) == StageBehind(StageIn(room, i), e, i)
    ensures |next.sessions| == |room.sessions| + if e.Connect? then 1 else 0
  {
  }

  lemma {:induction false} StagesAre(room: Room, events: seq<Event>, end: Room, i: nat, stage: Stage)
    requires Run(room, events) == Some(end) && stage == StageIn(room, i)
    ensures StageIn(end, i) == StageAfter(stage, events, i)
    ensures |end.sessions| == |room.sessions| + Connections(events)
    decreases |events|
  {
    if events != [] {
      var e := events[0];
      var next := Step(room, e).value;
      StageStep(room, e, next, i);
      StagesAre(next, events[1..], end, i, StageBehind(stage, e, i));
    }
  }

  lemma StagesAllow(room: Room, i: nat, line: string, there: bool, stage: Stage)
    requires there == (i < |room.sessions|) && stage == StageIn(room, i)
    ensures Step(room, Announce(i)).Some? <==> there && stage == Registered
    ensures Step(room, Say(i, line)).Some? <==> there && stage == Joined
    ensures Step(room, ReadError(i)).Some? <==> there && stage == Joined
    ensures Step(room, Leave(i)).Some? <==> there && stage == Joined
    ensures Step(room, NoName(i)).Some? <==> there && stage == Connected
  {
  }

  /**
   * In every run a session can announce itself exactly between its registration and its announcement, and speak,
   * fail to be read and leave exactly between its announcement and its departure or a failed delivery.
   */
  lemma SessionsFollowProtocol(events: seq<Event>, i: nat, line: string)
    requires Run(EMPTY_ROOM, events).Some?
    ensures var room, stage := Run(EMPTY_ROOM, events).value, StageAfter(Connected, events, i);
            var there := i < Connections(events);
            && |room.sessions| == Connections(events)
            && (Step(room, Announce(i)).Some? <==> there && stage == Registered)
            && (Step(room, Say(i, line)).Some? <==> there && stage == Joined)
            && (Step(room, ReadError(i)).Some? <==> there && stage == Joined)
            && (Step(room, Leave(i)).Some? <==> there && stage == Joined)
            && (Step(room, NoName(i)).Some? <==> there && stage == Connected)
  {
    var room := Run(EMPTY_ROOM, events).value;
    StagesAre(EMPTY_ROOM, events, room, i, Connected);
    StagesAllow(room, i, line, i < Connections(events), StageAfter(Connected, events, i));
  }

  // ---------------------------------------------------------------- what can always happen

  function Deliveries(i: nat, n: nat): (r: seq<Event>)
    ensures |r| == n && forall k :: 0 <= k < n ==> r[k] == Deliver(i)
  {
    seq(n, k => Deliver(i))
  }

  /** Whatever is on the channel of a peer in its loop can be delivered, which changes nothing else. */
  lemma {:induction false} AllCanBeDelivered(room: Room, i: nat, n: nat)
    requires InStage(room, i, Joined) && room.sessions[i].received + n == |room.sessions[i].box.sent|
    ensures var s := room.sessions[i];
            Run(room, Deliveries(i, n)) == Some(Changed(room, i, s.(received := |s.box.sent|)))
    decreases n
  {
    var s := room.sessions[i];
    if n == 0 {
      assert Changed(room, i, s) == room;
    } else {
      var next := Changed(room, i, s.(received := s.received + 1));
      assert Deliveries(i, n)[1..] == Deliveries(i, n - 1);
      AllCanBeDelivered(next, i, n - 1);
      assert Changed(next, i, s.(received := |s.box.sent|)) == Changed(room, i, s.(received := |s.box.sent|));
    }
  }

  predicate IsFree(room: Room, addr: SocketAddr) {
    forall i :: 0 <= i < |room.sessions| && Live(room.sessions[i]) ==> room.sessions[i].addr != addr
  }

  /** A newcomer's registration. */
  lemma CanRegister(room: Room, addr: SocketAddr, name: string) returns (next: Room)
    requires Inv(room) && IsFree(room, addr)
    ensures Run(room, [Connect(addr), Event.Register(|room.sessions|, name)]) == Some(next) && Inv(next)
    ensures |next.sessions| == |room.sessions| + 1 && next.sessions[..|room.sessions|] == room.sessions
    ensures InStage(next, |room.sessions|, Registered)
    ensures next.sessions[|room.sessions|].addr == addr && next.sessions[|room.sessions|].name == name
  {
    var n := |room.sessions|;
    var connect, register := Connect(addr), Event.Register(n, name);
    var connected := Step(room, connect).value;
    StepKeepsInv(room, connect);
    assert InStage(connected, n, Connected);
    next := Step(connected, register).value;
    StepKeepsInv(connected, register);
    assert Run(connected, [register]) == Some(next);
    assert [connect, register][1..] == [register];
  }

  lemma CanSpeak(room: Room, e: Event, n: nat) returns (next: Room)
    requires Inv(room) && IsMessage(e) && e.i == n
    requires InStage(room, n, if e.Announce? then Registered else Joined)
    ensures Step(room, e) == Some(next) && Inv(next) && |next.sessions| == |room.sessions|
    ensures InStage(next, n, if e.Leave? then Gone else Joined) && next.sessions[n].name == room.sessions[n].name
    ensures forall j :: 0 <= j < |room.sessions| && j != n ==>
              next.sessions[j] == Hearing(room.sessions[j], TextOf(room.sessions[n].name, e))
  {
    next := Step(room, e).value;
    StepKeepsInv(room, e);
    forall j | 0 <= j < |room.sessions|
      ensures j != n ==> next.sessions[j] == Hearing(room.sessions[j], TextOf(room.sessions[n].name, e))
    {
      MessageReaches(room, e, next, j);
    }
  }

  /**
   * In every reachable room, somebody with a free address can connect, give a name, say something and leave,
   * and every session that listens hears of it: three messages more, in this order.
   */
  lemma NewcomerIsHeard(events: seq<Event>, addr: SocketAddr, name: string, line: string, j: nat)
    requires Run(EMPTY_ROOM, events).Some? && IsFree(Run(EMPTY_ROOM, events).value, addr)
    requires j < |Run(EMPTY_ROOM, events).value.sessions|
    ensures var room := Run(EMPTY_ROOM, events).value;
            var n := |room.sessions|;
            var end := Run(room, [Connect(addr), Event.Register(n, name)] + [Announce(n), Say(n, line), Leave(n)]);
            && end.Some? && |end.value.sessions| == n + 1
            && (Listens(room.sessions[j]) ==>
                  end.value.sessions[j].box.sent
                  == room.sessions[j].box.sent + [name + " has joined the chat", name + ": " + line, name + " has left the chat"])
  {
    var room := Run(EMPTY_ROOM, events).value;
    var n := |room.sessions|;
    RunKeepsInv(EMPTY_ROOM, events);
    var registered := CanRegister(room, addr, name);
    assert registered.sessions[j] == room.sessions[j];
    var joined := CanSpeak(registered, Announce(n), n);
    var said := CanSpeak(joined, Say(n, line), n);
    var left := CanSpeak(said, Leave(n), n);
    RunOfThree(registered, Announce(n), Say(n, line), Leave(n), joined, said, left);
    RunOn(room, [Connect(addr), Event.Register(n, name)], [Announce(n), Say(n, line), Leave(n)], registered);
    ThreeHeard(room.sessions[j].box.sent, name + " has joined the chat", name + ": " + line, name + " has left the chat");
  }

  lemma ThreeHeard(sent: seq<string>, a: string, b: string, c: string)
    ensures sent + [a] + [b] + [c] == sent + [a, b, c]
  {
  }

  lemma RunOfThree(room: Room, a: Event, b: Event, c: Event, r1: Room, r2: Room, r3: Room)
    requires Step(room, a) == Some(r1) && Step(r1, b) == Some(r2) && Step(r2, c) == Some(r3)
    ensures Run(room, [a, b, c]) == Some(r3)
  {
    assert [a, b, c][1..] == [b, c] && [b, c][1..] == [c] && [c][1..] == [];
    assert Run(r3, []) == Some(r3);
    assert Run(r2, [c]) == Some(r3);
    assert Run(r1, [b, c]) == Some(r3);
  }

  lemma {:induction false} RunOn(room: Room, a: seq<Event>, b: seq<Event>, middle: Room)
    requires Run(room, a) == Some(middle)
    ensures Run(room, a + b) == Run(middle, b)
    decreases |a|
  {
    if a == [] {
      assert a + b == b;
    } else {
      assert (a + b)[1..] == a[1..] + b;
      RunOn(Step(room, a[0]).value, a[1..], b, middle);
    }
  }
}
