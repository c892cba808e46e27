// The chat server: peers register under a lock, and every broadcast puts a message on the
// channels of all other registered peers.
module ChatRoom {
  import opened Wrappers

  datatype SocketAddr = SocketAddr(ip: nat, port: nat)

  // ------------------------------------------------------------- the shared state

  /** All that was put on a channel, and whether its receiving half still exists. */
  datatype Mailbox = Mailbox(sent: seq<string>, open: bool)
  {
    /** Sending to a closed channel fails, and the failure is ignored. */
    function Post(message: string): Mailbox {
      if open then this.(sent := sent + [message]) else this
    }
  }

  /** The effect of a broadcast on the registered channels. */
  function Posted(boxes: map<SocketAddr, Mailbox>, sender: SocketAddr, message: string): map<SocketAddr, Mailbox> {
    map a | a in boxes :: if a != sender then boxes[a].Post(message) else boxes[a]
  }

  class Channel {
    var box: Mailbox

    constructor ()
      ensures box == Mailbox([], true)
    {
      box := Mailbox([], true);
    }

    method Send(message: string)
      modifies this
      ensures box == old(box).Post(message)
    {
      box := box.Post(message);
    }
  }

  class Shared {
    var peers: map<SocketAddr, Channel>

    /** No two peers share a channel. */
    ghost predicate Valid()
      reads this
    {
      forall a, b :: a in peers && b in peers && a != b ==> peers[a] != peers[b]
    }

    ghost function Boxes(): map<SocketAddr, Mailbox>
      reads this, peers.Values
    {
      map a | a in peers :: peers[a].box
    }

    constructor ()
      ensures Valid() && Boxes() == map[]
    {
      peers := map[];
    }

    method Broadcast(sender: SocketAddr, message: string)
      requires Valid()
      modifies peers.Values
      ensures peers == old(peers) && Valid()
      ensures Boxes() == Posted(old(Boxes()), sender, message)
    {
      var todo := peers.Keys;
      while todo != {}
        invariant todo <= peers.Keys && peers == old(peers)
        invariant forall a :: a in todo ==> peers[a].box == old(peers[a].box)
        invariant forall a :: a in peers && a !in todo ==>
                    peers[a].box == if a != sender then old(peers[a].box).Post(message) else old(peers[a].box)
        decreases todo
      {
        var a :| a in todo;
        todo := todo - {a};
        if a != sender {
          assert peers[a] in peers.Values;
          peers[a].Send(message);
        }
      }
    }

    /** A new peer replaces whatever is registered under its address. */
    method Register(addr: SocketAddr) returns (channel: Channel)
      requires Valid()
      modifies this
      ensures Valid() && fresh(channel) && peers == old(peers)[addr := channel]
      ensures Boxes() == old(Boxes())[addr := Mailbox([], true)]
    {
      channel := new Channel();
      peers := peers[addr := channel];
    }

    method Remove(addr: SocketAddr)
      requires Valid()
      modifies this
      ensures Valid() && peers == old(peers) - {addr}
      ensures Boxes() == old(Boxes()) - {addr}
    {
      peers := peers - {addr};
    }
  }

  // --------------------------------------------------------------- whole runs

  /** An entry of the global log: one per broadcast, in the order of the lock. */
  datatype Entry = Entry(sender: SocketAddr, text: string)

  /**
   * Where the handler of a connection is: before it has a user name, registered but not yet
   * announced, in its loop, gone after a regular disconnect, or ended by a failed write,
   * which leaves its entry in the map.
   */
  datatype Stage = Connected | Registered | Joined | Gone | Dropped

  /** received counts the messages taken off the channel; from and until are lengths of the log. */
  datatype Session = Session(
    addr: SocketAddr, stage: Stage, name: string, box: Mailbox, received: nat, from: nat, until: Option<nat>)

  /** peers maps an address to the session whose channel is registered under it. */
  datatype Room = Room(sessions: seq<Session>, peers: map<SocketAddr, nat>, log: seq<Entry>)

  datatype Event =
    | Connect(addr: SocketAddr)
    | NoName(i: nat)
    | Register(i: nat, name: string)
    | Announce(i: nat)
    | Say(i: nat, line: string)
    | ReadError(i: nat)
    | Deliver(i: nat)
    | FailToDeliver(i: nat)
    | Leave(i: nat)

  predicate Live(s: Session) {
    s.stage == Connected || s.stage == Registered || s.stage == Joined
  }

  /** The peers' channels as the lock holder sees them. */
  function BoxesOf(room: Room): map<SocketAddr, Mailbox>
    requires PeersExist(room)
  {
    map a | a in room.peers :: room.sessions[room.peers[a]].box
  }

  predicate PeersExist(room: Room) {
    forall a :: a in room.peers ==> room.peers[a] < |room.sessions|
  }

  function Broadcasted(room: Room, sender: SocketAddr, text: string): (r: Room)
    ensures |r.sessions| == |room.sessions|
  {
    var hear := (i: nat, s: Session) =>
      if s.addr != sender && s.addr in room.peers && room.peers[s.addr] == i then s.(box := s.box.Post(text)) else s;
    Room(seq(|room.sessions|, i requires 0 <= i < |room.sessions| => hear(i, room.sessions[i])),
         room.peers, room.log + [Entry(sender, text)])
  }

  function Changed(room: Room, i: nat, s: Session): Room
    requires i < |room.sessions|
  {
    room.(sessions := room.sessions[i := s])
  }

  predicate InStage(room: Room, i: nat, stage: Stage) {
    i < |room.sessions| && room.sessions[i].stage == stage
  }

  /** The next state; None if the event cannot happen. The network gives no two live connections the same address. */
  function Step(room: Room, e: Event): Option<Room> {
    match e
    case Connect(addr) =>
      if exists i :: 0 <= i < |room.sessions| && Live(room.sessions[i]) && room.sessions[i].addr == addr then None
      else
        Some(room.(sessions := room.sessions + [Session(addr, Connected, "", Mailbox([], true), 0, 0, None)]))
    case NoName(i) =>
      if !InStage(room, i, Connected) then None
      else Some(Changed(room, i, room.sessions[i].(stage := Gone)))
    case Register(i, name) =>
      if !InStage(room, i, Connected) then None
      else
        var s := room.sessions[i].(stage := Registered, name := name, from := |room.log|);
        Some(Changed(room, i, s).(peers := room.peers[s.addr := i]))
    case Announce(i) =>
      if !InStage(room, i, Registered) then None
      else
        var s := room.sessions[i];
        Some(Broadcasted(Changed(room, i, s.(stage := Joined)), s.addr, s.name + " has joined the chat"))
    case Say(i, line) =>
      if !InStage(room, i, Joined) then None
      else Some(Broadcasted(room, room.sessions[i].addr, room.sessions[i].name + ": " + line))
    case ReadError(i) => if !InStage(room, i, Joined) then None else Some(room)
    case Deliver(i) =>
      if !InStage(room, i, Joined) || room.sessions[i].received >= |room.sessions[i].box.sent| then None
      else Some(Changed(room, i, room.sessions[i].(received := room.sessions[i].received + 1)))
    case FailToDeliver(i) =>
      if !InStage(room, i, Joined) || room.sessions[i].received >= |room.sessions[i].box.sent| then None
      else
        var s := room.sessions[i];
        Some(Changed(room, i, s.(stage := Dropped, box := s.box.(open := false), until := Some(|room.log|))))
    case Leave(i) =>
      if !InStage(room, i, Joined) then None
      else
        var s := room.sessions[i];
        var left := s.(stage := Gone, box := s.box.(open := false), until := Some(|room.log|));
        Some(Broadcasted(Changed(room, i, left).(peers := room.peers - {s.addr}), s.addr, s.name + " has left the chat"))
  }

  function Run(room: Room, events: seq<Event>): Option<Room>
    decreases |events|
  {
    if events == [] then Some(room)
    else
      match Step(room, events[0])
      case None => None
      case Some(next) => Run(next, events[1..])
  }

  const EMPTY_ROOM := Room([], map[], [])

  // -------------------------------------------------------------- total order

  /** The texts in the log from position a up to b that somebody other than addr has sent. */
  function Heard(log: seq<Entry>, addr: SocketAddr, a: nat, b: nat): seq<string>
    requires b <= |log|
    decreases b
  {
    if b <= a then []
    else Heard(log, addr, a, b - 1) + if log[b - 1].sender != addr then [log[b - 1].text] else []
  }

  lemma {:induction false} HeardReads(log: seq<Entry>, more: seq<Entry>, addr: SocketAddr, a: nat, b: nat)
    requires b <= |log|
    ensures Heard(log + more, addr, a, b) == Heard(log, addr, a, b)
    decreases b
  {
    if a < b {
      HeardReads(log, more, addr, a, b - 1);
    }
  }

  /** How far into the log a session has been listening. */
  function Until(log: seq<Entry>, s: Session): nat {
    match s.until case Some(n) => n case None => |log|
  }

  /** Everything on the session's channel is the log from its registration on, without its own messages. */
  predicate HearsLog(log: seq<Entry>, s: Session) {
    && s.from <= Until(log, s) <= |log|
    && s.received <= |s.box.sent|
    && (s.box.open <==> s.until == None)
    && s.box.sent == Heard(log, s.addr, s.from, Until(log, s))
  }

  predicate Attached(room: Room, i: nat)
    requires i < |room.sessions|
  {
    room.sessions[i].addr in room.peers && room.peers[room.sessions[i].addr] == i
  }

  predicate SessionInv(room: Room, i: nat)
    requires i < |room.sessions|
  {
    var s := room.sessions[i];
    match s.stage
    case Connected => s.box == Mailbox([], true) && s.until == None && s.received == 0 && !Attached(room, i)
    case Registered => HearsLog(room.log, s) && s.until == None && Attached(room, i)
    case Joined => HearsLog(room.log, s) && s.until == None && Attached(room, i)
    case Dropped => HearsLog(room.log, s) && s.until.Some?
    case Gone => (s.until == None || HearsLog(room.log, s)) && !Attached(room, i)
  }

  predicate PeerInv(room: Room, a: SocketAddr) {
    a in room.peers ==> room.peers[a] < |room.sessions| && room.sessions[room.peers[a]].addr == a
  }

  predicate LiveAddressesDiffer(sessions: seq<Session>) {
    forall i, j :: 0 <= i < j < |sessions| && Live(sessions[i]) && Live(sessions[j]) ==>
      sessions[i].addr != sessions[j].addr
  }

  ghost predicate Inv(room: Room) {
    && (forall i :: 0 <= i < |room.sessions| ==> SessionInv(room, i))
    && (forall a :: PeerInv(room, a))
    && LiveAddressesDiffer(room.sessions)
  }

  /** A session that listens stays in line with the log when an entry is added. */
  lemma HearsNext(log: seq<Entry>, s: Session, e: Entry)
    requires HearsLog(log, s)
    ensures HearsLog(log + [e], if e.sender != s.addr then s.(box := s.box.Post(e.text)) else s)
  {
    HeardReads(log, [e], s.addr, s.from, Until(log, s));
  }

  lemma BroadcastKeepsSession(room: Room, sender: SocketAddr, text: string, i: nat)
    requires i < |room.sessions| && SessionInv(room, i)
    ensures SessionInv(Broadcasted(room, sender, text), i)
  {
    var s := room.sessions[i];
    if s.stage != Connected && !(s.stage == Gone && s.until == None) {
      HearsNext(room.log, s, Entry(sender, text));
    }
  }

  lemma BroadcastKeepsInv(room: Room, sender: SocketAddr, text: string)
    requires Inv(room)
    ensures Inv(Broadcasted(room, sender, text))
  {
    var next := Broadcasted(room, sender, text);
    forall i | 0 <= i < |next.sessions|
      ensures SessionInv(next, i)
    {
      assert SessionInv(room, i);
      BroadcastKeepsSession(room, sender, text, i);
    }
    forall a
      ensures PeerInv(next, a)
    {
      assert PeerInv(room, a);
    }
  }

  /** Replacing a session keeps the invariant if its own part and its liveness allow it. */
  lemma ChangeKeepsInv(room: Room, i: nat, s: Session)
    requires Inv(room) && i < |room.sessions|
    requires s.addr == room.sessions[i].addr
    requires Live(s) ==> Live(room.sessions[i])
    requires SessionInv(Changed(room, i, s), i)
    ensures Inv(Changed(room, i, s))
  {
    var next := Changed(room, i, s);
    forall j | 0 <= j < |next.sessions|
      ensures SessionInv(next, j)
    {
      assert SessionInv(room, j);
    }
    forall a
      ensures PeerInv(next, a)
    {
      assert PeerInv(room, a);
    }
  }

  lemma ConnectKeepsInv(room: Room, addr: SocketAddr)
    requires Inv(room) && Step(room, Connect(addr)).Some?
    ensures Inv(Step(room, Connect(addr)).value)
  {
    var next := Step(room, Connect(addr)).value;
    forall j | 0 <= j < |next.sessions|
      ensures SessionInv(next, j)
    {
      if j < |room.sessions| {
        assert SessionInv(room, j);
      }
      assert PeerInv(room, next.sessions[j].addr);
    }
    forall a
      ensures PeerInv(next, a)
    {
      assert PeerInv(room, a);
    }
  }

  lemma RegisterKeepsInv(room: Room, i: nat, name: string)
    requires Inv(room) && Step(room, Event.Register(i, name)).Some?
    ensures Inv(Step(room, Event.Register(i, name)).value)
  {
    var next := Step(room, Event.Register(i, name)).value;
    assert SessionInv(room, i);
    forall j | 0 <= j < |next.sessions|
      ensures SessionInv(next, j)
    {
      assert SessionInv(room, j);
      if j != i && Live(room.sessions[j]) {
        assert room.sessions[j].addr != room.sessions[i].addr;
      }
    }
    forall a
      ensures PeerInv(next, a)
    {
      assert PeerInv(room, a);
    }
  }

  /** Leaving takes exactly the own entry out of the map. */
  lemma DetachKeepsInv(room: Room, i: nat)
    requires Inv(room) && InStage(room, i, Joined)
    ensures var s := room.sessions[i];
            var left := s.(stage := Gone, box := s.box.(open := false), until := Some(|room.log|));
            Inv(Changed(room, i, left).(peers := room.peers - {s.addr}))
  {
    var s := room.sessions[i];
    var left := s.(stage := Gone, box := s.box.(open := false), until := Some(|room.log|));
    var next := Changed(room, i, left).(peers := room.peers - {s.addr});
    assert SessionInv(room, i);
    forall j | 0 <= j < |next.sessions|
      ensures SessionInv(next, j)
    {
      assert SessionInv(room, j);
      if j != i && Live(room.sessions[j]) {
        assert room.sessions[j].addr != s.addr;
      }
    }
    forall a
      ensures PeerInv(next, a)
    {
      assert PeerInv(room, a);
    }
  }

  lemma StepKeepsInv(room: Room, e: Event)
    requires Inv(room) && Step(room, e).Some?
    ensures Inv(Step(room, e).value)
  {
    match e
    case Connect(addr) => ConnectKeepsInv(room, addr);
    case Register(i, name) => RegisterKeepsInv(room, i, name);
    case NoName(i) =>
      assert SessionInv(room, i);
      ChangeKeepsInv(room, i, room.sessions[i].(stage := Gone));
    case Announce(i) =>
      assert SessionInv(room, i);
      var s := room.sessions[i].(stage := Joined);
      ChangeKeepsInv(room, i, s);
      BroadcastKeepsInv(Changed(room, i, s), s.addr, s.name + " has joined the chat");
    case Say(i, line) =>
      BroadcastKeepsInv(room, room.sessions[i].addr, room.sessions[i].name + ": " + line);
    case ReadError(i) =>
    case Deliver(i) =>
      assert SessionInv(room, i);
      ChangeKeepsInv(room, i, room.sessions[i].(received := room.sessions[i].received + 1));
    case FailToDeliver(i) =>
      assert SessionInv(room, i);
      var s := room.sessions[i];
      ChangeKeepsInv(room, i, s.(stage := Dropped, box := s.box.(open := false), until := Some(|room.log|)));
    case Leave(i) =>
      DetachKeepsInv(room, i);
      var s := room.sessions[i];
      var left := s.(stage := Gone, box := s.box.(open := false), until := Some(|room.log|));
      BroadcastKeepsInv(Changed(room, i, left).(peers := room.peers - {s.addr}), s.addr, s.name + " has left the chat");
  }

  lemma {:induction false} RunKeepsInv(room: Room, events: seq<Event>)
    requires Inv(room) && Run(room, events).Some?
    ensures Inv(Run(room, events).value)
    decreases |events|
  {
    if events != [] {
      StepKeepsInv(room, events[0]);
      RunKeepsInv(Step(room, events[0]).value, events[1..]);
    }
  }

  // -------------------------------------------------------------------- results

  predicate HasRegistered(s: Session) {
    s.stage == Registered || s.stage == Joined || s.stage == Dropped || s.until.Some?
  }

  /**
   * In every run: what was put on a peer's channel is the global log from its registration to its
   * removal, without its own messages, and what it was sent over the network is a prefix of that.
   */
  lemma ChannelIsLogSlice(events: seq<Event>, i: nat)
    requires Run(EMPTY_ROOM, events).Some?
    requires i < |Run(EMPTY_ROOM, events).value.sessions|
    requires HasRegistered(Run(EMPTY_ROOM, events).value.sessions[i])
    ensures var room := Run(EMPTY_ROOM, events).value;
            var s := room.sessions[i];
            && s.from <= Until(room.log, s) <= |room.log|
            && s.box.sent == Heard(room.log, s.addr, s.from, Until(room.log, s))
            && s.received <= |s.box.sent|
  {
    RunKeepsInv(EMPTY_ROOM, events);
    assert SessionInv(Run(EMPTY_ROOM, events).value, i);
  }

  /** The positions of the log behind Heard. */
  function Others(log: seq<Entry>, addr: SocketAddr, a: nat, b: nat): seq<nat>
    requires b <= |log|
    decreases b
  {
    if b <= a then []
    else Others(log, addr, a, b - 1) + if log[b - 1].sender != addr then [b - 1] else []
  }

  predicate Increasing(ids: seq<nat>) {
    forall k, l :: 0 <= k < l < |ids| ==> ids[k] < ids[l]
  }

  lemma {:induction false} OthersAre(log: seq<Entry>, addr: SocketAddr, a: nat, b: nat)
    requires b <= |log|
    ensures forall k :: k in Others(log, addr, a, b) <==> a <= k < b && log[k].sender != addr
    ensures Increasing(Others(log, addr, a, b))
    decreases b
  {
    if a < b {
      OthersAre(log, addr, a, b - 1);
      var front := Others(log, addr, a, b - 1);
      assert forall k :: 0 <= k < |front| ==> front[k] in front;
    }
  }

  lemma {:induction false} HeardAreOthers(log: seq<Entry>, addr: SocketAddr, a: nat, b: nat)
    requires b <= |log|
    ensures |Heard(log, addr, a, b)| == |Others(log, addr, a, b)|
    ensures forall k :: 0 <= k < |Others(log, addr, a, b)| ==>
              Others(log, addr, a, b)[k] < b && Heard(log, addr, a, b)[k] == log[Others(log, addr, a, b)[k]].text
    decreases b
  {
    if a < b {
      HeardAreOthers(log, addr, a, b - 1);
    }
  }

  /** What is heard are the entries at increasing positions: each message once, in the order of the log. */
  lemma HeardInOrder(log: seq<Entry>, addr: SocketAddr, a: nat, b: nat)
    requires b <= |log|
    ensures var ids := Others(log, addr, a, b);
            && (forall k :: k in ids <==> a <= k < b && log[k].sender != addr)
            && Increasing(ids)
            && |Heard(log, addr, a, b)| == |ids|
            && forall k :: 0 <= k < |ids| ==> ids[k] < b && Heard(log, addr, a, b)[k] == log[ids[k]].text
  {
    OthersAre(log, addr, a, b);
    HeardAreOthers(log, addr, a, b);
  }

  /** The elements of ids that also occur in other, in the order of ids. */
  function Common(ids: seq<nat>, other: seq<nat>): (r: seq<nat>)
    ensures forall k :: k in r <==> k in ids && k in other
  {
    if ids == [] then []
    else
      var last := ids[|ids| - 1];
      Common(ids[..|ids| - 1], other) + if last in other then [last] else []
  }

  lemma {:induction false} CommonIncreases(ids: seq<nat>, other: seq<nat>)
    requires Increasing(ids)
    ensures Increasing(Common(ids, other))
  {
    if ids != [] {
      var front := ids[..|ids| - 1];
      var rest := Common(front, other);
      CommonIncreases(front, other);
      forall k | 0 <= k < |rest|
        ensures rest[k] < ids[|ids| - 1]
      {
        assert rest[k] in front;
      }
    }
  }

  /** An increasing sequence is determined by its elements. */
  lemma {:induction false} IncreasingIsUnique(a: seq<nat>, b: seq<nat>)
    requires Increasing(a) && Increasing(b)
    requires forall k :: k in a <==> k in b
    ensures a == b
    decreases |a|
  {
    assert |a| > 0 ==> a[0] in a;
    assert |b| > 0 ==> b[0] in b;
    if a != [] {
      var x, y := a[|a| - 1], b[|b| - 1];
      assert x in b && y in a;
      assert x == y;
      var a', b' := a[..|a| - 1], b[..|b| - 1];
      forall k
        ensures k in a' <==> k in b'
      {
        assert k in a' <==> k in a && k != x;
        assert k in b' <==> k in b && k != y;
      }
      IncreasingIsUnique(a', b');
    }
  }

  /** Any two peers receive their common messages in the same order, each of them once. */
  lemma CommonMessagesInSameOrder(events: seq<Event>, i: nat, j: nat)
    requires Run(EMPTY_ROOM, events).Some?
    requires i < |Run(EMPTY_ROOM, events).value.sessions| && j < |Run(EMPTY_ROOM, events).value.sessions|
    requires HasRegistered(Run(EMPTY_ROOM, events).value.sessions[i])
    requires HasRegistered(Run(EMPTY_ROOM, events).value.sessions[j])
    ensures var room := Run(EMPTY_ROOM, events).value;
            var s, t := room.sessions[i], room.sessions[j];
            && Until(room.log, s) <= |room.log| && Until(room.log, t) <= |room.log|
            && var mine := Others(room.log, s.addr, s.from, Until(room.log, s));
               var yours := Others(room.log, t.addr, t.from, Until(room.log, t));
               && |s.box.sent| == |mine| && |t.box.sent| == |yours|
               && (forall k :: 0 <= k < |mine| ==> mine[k] < |room.log| && s.box.sent[k] == room.log[mine[k]].text)
               && (forall k :: 0 <= k < |yours| ==> yours[k] < |room.log| && t.box.sent[k] == room.log[yours[k]].text)
               && Increasing(Common(mine, yours))
               && Common(mine, yours) == Common(yours, mine)
  {
    var room := Run(EMPTY_ROOM, events).value;
    var s, t := room.sessions[i], room.sessions[j];
    ChannelIsLogSlice(events, i);
    ChannelIsLogSlice(events, j);
    HeardInOrder(room.log, s.addr, s.from, Until(room.log, s));
    HeardInOrder(room.log, t.addr, t.from, Until(room.log, t));
    var mine := Others(room.log, s.addr, s.from, Until(room.log, s));
    var yours := Others(room.log, t.addr, t.from, Until(room.log, t));
    CommonIncreases(mine, yours);
    CommonIncreases(yours, mine);
    IncreasingIsUnique(Common(mine, yours), Common(yours, mine));
  }

  /** A broadcast in the model of runs is what Shared.Broadcast does to the channels in its map. */
  lemma BroadcastPosts(room: Room, sender: SocketAddr, text: string)
    requires forall a :: PeerInv(room, a)
    ensures PeersExist(room) && PeersExist(Broadcasted(room, sender, text))
    ensures BoxesOf(Broadcasted(room, sender, text)) == Posted(BoxesOf(room), sender, text)
  {
    assert forall a :: a in room.peers ==> PeerInv(room, a);
  }
}
