// Programs, the program in use, and the cache of uniform locations.
module GlPrograms {
  import opened Wrappers
  import opened GlNames

  datatype Location = Location(index: int)

  /** A value that WebGL is told to store: the program it has in use, the location, the value. */
  datatype Sent = Sent(program: Option<Handle>, location: Location, value: real)

  datatype Info = Info(
    program: Handle,
    nameToLocation: map<string, Location>,
    nameToId: map<string, int>,
    idToLocation: map<int, Location>)

  datatype State = State(
    infos: map<int, Info>,
    next: int,
    current: Option<int>,
    bound: Option<Handle>,
    sent: seq<Sent>,
    freed: seq<Handle>)

  datatype Op =
    | Create(made: Option<Handle>)
    | Use(id: int)
    | Delete(id: int)
    | Lookup(id: int, name: string, resolved: Option<Location>)
    | Uniform(locationId: int, v: real)

  datatype Reply = Nothing | Number(n: int) | Failure(error: Error)

  const INITIAL := State(map[], 1, None, None, [], [])

  function NewInfo(program: Handle): Info {
    Info(program, map[], map[], map[])
  }

  function Cached(info: Info, name: string, location: Location): Info {
    var id := if name in info.nameToLocation then |info.nameToLocation| else |info.nameToLocation| + 1;
    Info(info.program, info.nameToLocation[name := location], info.nameToId[name := id],
         info.idToLocation[id := location])
  }

  function StepLookup(s: State, id: int, name: string, resolved: Option<Location>): (State, Reply) {
    if id !in s.infos then (s, Failure(NotFound))
    else
      var info := s.infos[id];
      if name in info.nameToId then (s, Number(info.nameToId[name]))
      else if resolved == None then (s, Number(-1))
      else
        var cached := Cached(info, name, resolved.value);
        (s.(infos := s.infos[id := cached]), Number(|cached.nameToLocation|))
  }

  function StepUniform(s: State, locationId: int, v: real): (State, Reply) {
    if s.current == None || s.current.value !in s.infos then (s, Failure(NoProgram))
    else
      var info := s.infos[s.current.value];
      if locationId !in info.idToLocation then (s, Failure(NotFound))
      else (s.(sent := s.sent + [Sent(s.bound, info.idToLocation[locationId], v)]), Nothing)
  }

  /** One call, with what WebGL answers as part of the operation. */
  function Step(s: State, op: Op): (State, Reply) {
    match op
    case Create(None) => (s, Failure(CreateFailed))
    case Create(Some(program)) =>
      (s.(infos := s.infos[s.next := NewInfo(program)], next := s.next + 1), Number(s.next))
    case Use(id) =>
      if id == 0 then (s.(current := None, bound := None), Nothing)
      else if id !in s.infos then (s, Failure(NotFound))
      else (s.(current := Some(id), bound := Some(s.infos[id].program)), Nothing)
    case Delete(id) =>
      if id !in s.infos then (s, Failure(NotFound))
      else
        (s.(infos := s.infos - {id},
            current := if s.current == Some(id) then None else s.current,
            freed := s.freed + [s.infos[id].program]), Nothing)
    case Lookup(id, name, resolved) => StepLookup(s, id, name, resolved)
    case Uniform(locationId, v) => StepUniform(s, locationId, v)
  }

  function Run(s: State, ops: seq<Op>): State
    decreases |ops|
  {
    if ops == [] then s else Run(Step(s, ops[0]).0, ops[1..])
  }

  // -------------------------------------------------------------------- invariant

  /** The ids are the numbers from 1 to the number of names. */
  ghost predicate IdsAreCounted(info: Info) {
    forall id :: id in info.idToLocation <==> 1 <= id <= |info.nameToLocation|
  }

  /** The way over the id leads to the location of the name. */
  predicate IdsLeadToLocations(info: Info) {
    && info.nameToLocation.Keys == info.nameToId.Keys
    && forall name :: name in info.nameToId ==>
         info.nameToId[name] in info.idToLocation
         && info.idToLocation[info.nameToId[name]] == info.nameToLocation[name]
  }

  predicate IdsDiffer(info: Info) {
    forall a, b :: a in info.nameToId && b in info.nameToId && info.nameToId[a] == info.nameToId[b] ==> a == b
  }

  ghost predicate Agrees(info: Info) {
    IdsAreCounted(info) && IdsLeadToLocations(info) && IdsDiffer(info)
  }

  ghost predicate Inv(s: State) {
    && s.next >= 1
    && (forall id :: id in s.infos ==> 1 <= id < s.next && Agrees(s.infos[id]))
    && |s.infos| + |s.freed| == s.next - 1
    && (s.current.Some? ==>
          s.current.value in s.infos && s.bound == Some(s.infos[s.current.value].program))
  }

  lemma CachedIs(info: Info, name: string, location: Location)
    requires IdsLeadToLocations(info) && name !in info.nameToId
    ensures var id := |info.nameToLocation| + 1;
            && |Cached(info, name, location).nameToLocation| == id
            && Cached(info, name, location)
            == Info(info.program, info.nameToLocation[name := location], info.nameToId[name := id],
                    info.idToLocation[id := location])
  {
  }

  lemma NewIdIsNew(info: Info, name: string)
    requires Agrees(info) && name in info.nameToId
    ensures info.nameToId[name] != |info.nameToLocation| + 1
  {
  }

  lemma CachingLeads(info: Info, name: string, location: Location)
    requires Agrees(info) && name !in info.nameToId
    ensures IdsLeadToLocations(Cached(info, name, location))
  {
    CachedIs(info, name, location);
    forall other | other in info.nameToId
      ensures info.nameToId[other] != |info.nameToLocation| + 1
    {
      NewIdIsNew(info, other);
    }
  }

  lemma CachingDiffers(info: Info, name: string, location: Location)
    requires Agrees(info) && name !in info.nameToId
    ensures IdsDiffer(Cached(info, name, location))
  {
    CachedIs(info, name, location);
    forall other | other in info.nameToId
      ensures info.nameToId[other] != |info.nameToLocation| + 1
    {
      NewIdIsNew(info, other);
    }
  }

  lemma CachingAgrees(info: Info, name: string, location: Location)
    requires Agrees(info) && name !in info.nameToId
    ensures Agrees(Cached(info, name, location))
    ensures |Cached(info, name, location).nameToLocation| == |info.nameToLocation| + 1
  {
    CachedIs(info, name, location);
    CachingLeads(info, name, location);
    CachingDiffers(info, name, location);
  }

  lemma LookupKeepsInv(s: State, id: int, name: string, resolved: Option<Location>)
    requires Inv(s)
    ensures Inv(StepLookup(s, id, name, resolved).0)
  {
    if id in s.infos && name !in s.infos[id].nameToId && resolved.Some? {
      CachingAgrees(s.infos[id], name, resolved.value);
    }
  }

  lemma CreateKeepsInv(s: State, program: Handle)
    requires Inv(s)
    ensures Inv(Step(s, Create(Some(program))).0)
  {
    assert Agrees(NewInfo(program));
  }

  lemma DeleteKeepsInv(s: State, id: int)
    requires Inv(s) && id in s.infos
    ensures Inv(Step(s, Delete(id)).0)
  {
    assert (s.infos - {id}).Keys == s.infos.Keys - {id};
  }

  lemma StepKeepsInv(s: State, op: Op)
    requires Inv(s)
    ensures Inv(Step(s, op).0) && Step(s, op).0.next >= s.next
  {
    match op
    case Create(Some(program)) => CreateKeepsInv(s, program);
    case Delete(id) =>
      if id in s.infos {
        DeleteKeepsInv(s, id);
      }
    case Lookup(id, name, resolved) => LookupKeepsInv(s, id, name, resolved);
    case _ =>
  }

  /**
   * On every run the maps agree, every program made is live or has been freed once, and the
   * program in use is unset or live and the one that WebGL uses.
   */
  lemma {:induction false} RunKeepsInv(s: State, ops: seq<Op>)
    requires Inv(s)
    ensures Inv(Run(s, ops)) && Run(s, ops).next >= s.next
    decreases |ops|
  {
    if ops != [] {
      StepKeepsInv(s, ops[0]);
      RunKeepsInv(Step(s, ops[0]).0, ops[1..]);
    }
  }

  lemma EveryRunKeepsInv(ops: seq<Op>)
    ensures Inv(Run(INITIAL, ops))
  {
    RunKeepsInv(INITIAL, ops);
  }

  // ---------------------------------------------------------------- what runs keep

  /** Does the program know the name by the id, at the location? */
  predicate Knows(s: State, p: int, name: string, id: int, location: Location) {
    && p in s.infos && name in s.infos[p].nameToId && name in s.infos[p].nameToLocation
    && s.infos[p].nameToId[name] == id && s.infos[p].nameToLocation[name] == location
  }

  lemma CachingKeepsName(info: Info, name: string, other: string, location: Location)
    requires other !in info.nameToId && name in info.nameToId && name in info.nameToLocation
    ensures var cached := Cached(info, other, location);
            && name in cached.nameToId && cached.nameToId[name] == info.nameToId[name]
            && name in cached.nameToLocation && cached.nameToLocation[name] == info.nameToLocation[name]
  {
  }

  lemma LookupKeepsName(s: State, q: int, other: string, r: Option<Location>, p: int, name: string, id: int, location: Location)
    requires Knows(s, p, name, id, location)
    ensures Knows(StepLookup(s, q, other, r).0, p, name, id, location)
    ensures StepLookup(s, q, other, r).0.infos[p].program == s.infos[p].program
  {
    if q == p && other !in s.infos[p].nameToId && r.Some? {
      CachingKeepsName(s.infos[p], name, other, r.value);
    }
  }

  lemma StepKeepsName(s: State, op: Op, p: int, name: string, id: int, location: Location)
    requires Inv(s) && Knows(s, p, name, id, location) && op != Delete(p)
    ensures Knows(Step(s, op).0, p, name, id, location)
    ensures Step(s, op).0.infos[p].program == s.infos[p].program
  {
    match op
    case Lookup(q, other, r) => LookupKeepsName(s, q, other, r, p, name, id, location);
    case _ =>
  }

  lemma {:induction false} RunKeepsName(s: State, ops: seq<Op>, p: int, name: string, id: int, location: Location)
    requires Inv(s) && Knows(s, p, name, id, location) && Delete(p) !in ops
    ensures Knows(Run(s, ops), p, name, id, location)
    ensures Run(s, ops).infos[p].program == s.infos[p].program
    decreases |ops|
  {
    if ops != [] {
      StepKeepsInv(s, ops[0]);
      StepKeepsName(s, ops[0], p, name, id, location);
      RunKeepsName(Step(s, ops[0]).0, ops[1..], p, name, id, location);
    }
  }

  /** The location that the name was first resolved to. */
  function Resolved(info: Info, name: string, resolved: Option<Location>): Location
    requires name in info.nameToLocation || resolved.Some?
  {
    if name in info.nameToLocation then info.nameToLocation[name] else resolved.value
  }

  /** A lookup answers with an id exactly if the name was known before or WebGL resolves it. */
  lemma LookupMakesKnown(s: State, p: int, name: string, resolved: Option<Location>)
    requires Inv(s) && p in s.infos
    ensures var (s1, reply) := Step(s, Lookup(p, name, resolved));
            && reply.Number?
            && (reply.n == -1 <==> name !in s.infos[p].nameToId && resolved == None)
            && (reply.n != -1 ==> Knows(s1, p, name, reply.n, Resolved(s.infos[p], name, resolved)))
  {
    var info := s.infos[p];
    if name in info.nameToId {
      assert Knows(s, p, name, info.nameToId[name], info.nameToLocation[name]);
    } else if resolved.Some? {
      CachingAgrees(info, name, resolved.value);
      var (s1, reply) := Step(s, Lookup(p, name, resolved));
      assert Knows(s1, p, name, reply.n, resolved.value);
    }
  }

  /**
   * A uniform set by an id that was looked up reaches the location to which the name had been
   * resolved, in the program it was looked up for, after any run that keeps the program and
   * ends with it in use. Looking the name up again gives the same id, and any other name has another one.
   */
  lemma UniformReachesName(s: State, ops: seq<Op>, p: int, name: string, id: int, location: Location, v: real)
    requires Inv(s) && Knows(s, p, name, id, location) && Delete(p) !in ops
    ensures var end := Run(s, ops);
            var told := Sent(Some(s.infos[p].program), location, v);
            && (end.current == Some(p) ==> Step(end, Uniform(id, v)) == (end.(sent := end.sent + [told]), Nothing))
            && (forall r :: Step(end, Lookup(p, name, r)) == (end, Number(id)))
            && (forall other, r :: other != name ==> Step(end, Lookup(p, other, r)).1 != Number(id))
  {
    var end := Run(s, ops);
    RunKeepsInv(s, ops);
    RunKeepsName(s, ops, p, name, id, location);
    var info := end.infos[p];
    assert info.nameToId[name] in info.idToLocation;
    forall other, r: Option<Location> | other != name
      ensures Step(end, Lookup(p, other, r)).1 != Number(id)
    {
      if other !in info.nameToId && r.Some? {
        CachingAgrees(info, other, r.value);
      }
    }
  }

  lemma {:induction false} DeletedStaysAway(s: State, ops: seq<Op>, p: int)
    requires Inv(s) && p !in s.infos && p < s.next
    ensures p !in Run(s, ops).infos
    decreases |ops|
  {
    if ops != [] {
      StepKeepsInv(s, ops[0]);
      DeletedStaysAway(Step(s, ops[0]).0, ops[1..], p);
    }
  }

  /** A deleted program is not in use, and its id is refused from then on in every run. */
  lemma DeletedIsGone(s: State, p: int, ops: seq<Op>, op: Op)
    requires Inv(s) && p in s.infos
    requires op == Use(p) || op == Delete(p) || (op.Lookup? && op.id == p)
    ensures var s1 := Step(s, Delete(p)).0;
            && s1.current != Some(p)
            && s1.freed == s.freed + [s.infos[p].program]
            && Step(Run(s1, ops), op) == (Run(s1, ops), Failure(NotFound))
  {
    var s1 := Step(s, Delete(p)).0;
    StepKeepsInv(s, Delete(p));
    DeletedStaysAway(s1, ops, p);
    RunKeepsInv(s1, ops);
  }

  // ------------------------------------------------------------------- the objects

  class ProgramInfo {
    const program: Handle
    var nameToUniformLocation: map<string, Location>
    var uniformLocationNameToId: map<string, int>
    var idToUniformLocation: map<int, Location>

    function Value(): Info
      reads this
    {
      Info(program, nameToUniformLocation, uniformLocationNameToId, idToUniformLocation)
    }

    constructor (program: Handle)
      ensures Value() == NewInfo(program)
    {
      this.program := program;
      nameToUniformLocation := map[];
      uniformLocationNameToId := map[];
      idToUniformLocation := map[];
    }

    /** The end of glGetUniformLocation: the number of names with the new one is its id. */
    method Cache(name: string, location: Location) returns (id: int)
      modifies this
      ensures Value() == Cached(old(Value()), name, location)
      ensures id == |nameToUniformLocation|
    {
      nameToUniformLocation := nameToUniformLocation[name := location];
      id := |nameToUniformLocation|;
      uniformLocationNameToId := uniformLocationNameToId[name := id];
      idToUniformLocation := idToUniformLocation[id := location];
    }
  }

  class Env {
    var programInfos: map<int, ProgramInfo>
    var nextProgramId: int
    var currentProgramInfo: ProgramInfo?
    var bound: Option<Handle>
    var sent: seq<Sent>
    var freed: seq<Handle>
    ghost var state: State

    /**
     * The objects hold what the state says; the program in use is the very object in the table.
     * Every method takes the step of its operation, so the invariant of the state is the one of runs.
     */
    ghost predicate Valid()
      reads this, programInfos.Values
    {
      && programInfos.Keys == state.infos.Keys
      && (forall id :: id in programInfos ==> id < nextProgramId && programInfos[id].Value() == state.infos[id])
      && (forall a, b :: a in programInfos && b in programInfos && programInfos[a] == programInfos[b] ==> a == b)
      && nextProgramId == state.next && bound == state.bound && sent == state.sent && freed == state.freed
      && (state.current.None? <==> currentProgramInfo == null)
      && (state.current.Some? ==>
            state.current.value in programInfos && programInfos[state.current.value] == currentProgramInfo)
    }

    constructor ()
      ensures Valid() && state == INITIAL
    {
      programInfos := map[];
      nextProgramId := 1;
      currentProgramInfo := null;
      bound := None;
      sent := [];
      freed := [];
      state := INITIAL;
    }

    method GlCreateProgram(made: Option<Handle>) returns (r: Reply)
      requires Valid()
      modifies this
      ensures Valid() && (state, r) == Step(old(state), Create(made))
      ensures forall id :: id in programInfos && id !in old(programInfos) ==> fresh(programInfos[id])
    {
      if made == None {
        return Failure(CreateFailed);
      }
      var programId := nextProgramId;
      nextProgramId := nextProgramId + 1;
      var info := new ProgramInfo(made.value);
      programInfos := programInfos[programId := info];
      state := Step(state, Create(made)).0;
      r := Number(programId);
    }

    method GlUseProgram(programId: int) returns (r: Reply)
      requires Valid()
      modifies this`currentProgramInfo, this`bound, this`state
      ensures Valid() && (state, r) == Step(old(state), Use(programId))
    {
      if programId == 0 {
        bound := None;
        currentProgramInfo := null;
        state := Step(state, Use(programId)).0;
        return Nothing;
      }
      if programId !in programInfos {
        return Failure(NotFound);
      }
      var programInfo := programInfos[programId];
      bound := Some(programInfo.program);
      currentProgramInfo := programInfo;
      state := Step(state, Use(programId)).0;
      r := Nothing;
    }

    method GlDeleteProgram(programId: int) returns (r: Reply)
      requires Valid()
      modifies this`programInfos, this`currentProgramInfo, this`freed, this`state
      ensures Valid() && (state, r) == Step(old(state), Delete(programId))
    {
      if programId !in programInfos {
        return Failure(NotFound);
      }
      var programInfo := programInfos[programId];
      assert state.current.Some? && currentProgramInfo == programInfo ==> state.current.value == programId;
      freed := freed + [programInfo.program];
      programInfos := programInfos - {programId};
      if currentProgramInfo == programInfo {
        currentProgramInfo := null;
      }
      state := Step(state, Delete(programId)).0;
      r := Nothing;
    }

    method GlGetUniformLocation(programId: int, name: string, resolved: Option<Location>) returns (r: Reply)
      requires Valid()
      modifies this`state, programInfos.Values
      ensures Valid() && (state, r) == Step(old(state), Lookup(programId, name, resolved))
      ensures programInfos == old(programInfos)
    {
      if programId !in programInfos {
        return Failure(NotFound);
      }
      var programInfo := programInfos[programId];
      if name in programInfo.uniformLocationNameToId {
        return Number(programInfo.uniformLocationNameToId[name]);
      }
      if resolved == None {
        return Number(-1);
      }
      var id := programInfo.Cache(name, resolved.value);
      state := Step(state, Lookup(programId, name, resolved)).0;
      r := Number(id);
    }

    method GlUniform1f(locationId: int, v0: real) returns (r: Reply)
      requires Valid()
      modifies this`sent, this`state
      ensures Valid() && (state, r) == Step(old(state), Uniform(locationId, v0))
    {
      if currentProgramInfo == null {
        return Failure(NoProgram);
      }
      ghost var current := state.current.value;
      assert current in programInfos && programInfos[current] == currentProgramInfo;
      if locationId !in currentProgramInfo.idToUniformLocation {
        return Failure(NotFound);
      }
      sent := sent + [Sent(bound, currentProgramInfo.idToUniformLocation[locationId], v0)];
      state := Step(state, Uniform(locationId, v0)).0;
      r := Nothing;
    }
  }
}
