// Runs of program calls: which program is in use, and how making, using, looking up and setting compose.
module GlUses {
  import opened GlNames
  import opened GlPrograms
  import opened Wrappers

  predicate NoUse(ops: seq<Op>) {
    forall i :: 0 <= i < |ops| ==> !ops[i].Use?
  }

  /** Is the program in use, here and in WebGL? */
  predicate InUse(s: State, p: int, program: Handle) {
    && p in s.infos && s.infos[p].program == program
    && s.current == Some(p) && s.bound == Some(program)
  }

  lemma StepKeepsUse(s: State, op: Op, p: int, program: Handle)
    requires Inv(s) && InUse(s, p, program) && !op.Use? && op != Delete(p)
    ensures InUse(Step(s, op).0, p, program)
  {
  }

  lemma {:induction false} RunKeepsUse(s: State, ops: seq<Op>, p: int, program: Handle)
    requires Inv(s) && InUse(s, p, program) && NoUse(ops) && Delete(p) !in ops
    ensures InUse(Run(s, ops), p, program)
    decreases |ops|
  {
    if ops != [] {
      assert !ops[0].Use?;
      StepKeepsInv(s, ops[0]);
      StepKeepsUse(s, ops[0], p, program);
      RunKeepsUse(Step(s, ops[0]).0, ops[1..], p, program);
    }
  }

  /** A live program that is used stays in use through any calls that use none and do not delete it. */
  lemma UsedStaysInUse(s: State, p: int, ops: seq<Op>)
    requires Inv(s) && p in s.infos && NoUse(ops) && Delete(p) !in ops
    ensures Step(s, Use(p)).1 == Nothing
    ensures InUse(Run(Step(s, Use(p)).0, ops), p, s.infos[p].program)
  {
    assert p != 0;
    StepKeepsInv(s, Use(p));
    RunKeepsUse(Step(s, Use(p)).0, ops, p, s.infos[p].program);
  }

  lemma {:induction false} RunKeepsNone(s: State, ops: seq<Op>)
    requires Inv(s) && NoUse(ops) && s.current == None
    ensures Run(s, ops).current == None && Run(s, ops).bound == s.bound
    decreases |ops|
  {
    if ops != [] {
      assert !ops[0].Use?;
      StepKeepsInv(s, ops[0]);
      RunKeepsNone(Step(s, ops[0]).0, ops[1..]);
    }
  }

  /** After a use of 0 no program is in use, and setting a uniform is refused, through any calls that use none. */
  lemma UseOfZeroStays(s: State, ops: seq<Op>, id: int, v: real)
    requires Inv(s) && NoUse(ops)
    ensures Step(s, Use(0)).1 == Nothing
    ensures var end := Run(Step(s, Use(0)).0, ops);
            end.current == None && end.bound == None && Step(end, Uniform(id, v)) == (end, Failure(NoProgram))
  {
    StepKeepsInv(s, Use(0));
    RunKeepsNone(Step(s, Use(0)).0, ops);
  }

  /** And likewise after the program in use has been deleted. */
  lemma DeletedIsNotUsed(s: State, p: int, ops: seq<Op>, id: int, v: real)
    requires Inv(s) && s.current == Some(p) && NoUse(ops)
    ensures Step(s, Delete(p)).1 == Nothing
    ensures var end := Run(Step(s, Delete(p)).0, ops);
            end.current == None && Step(end, Uniform(id, v)) == (end, Failure(NoProgram))
  {
    StepKeepsInv(s, Delete(p));
    RunKeepsNone(Step(s, Delete(p)).0, ops);
  }

  // ------------------------------------------------------------- from making to setting

  /** Is the program live, and the name not yet looked up in it? */
  predicate IsUnresolved(s: State, p: int, program: Handle, name: string) {
    p in s.infos && s.infos[p].program == program && name !in s.infos[p].nameToId
  }

  predicate NoLookup(ops: seq<Op>, p: int, name: string) {
    forall i :: 0 <= i < |ops| ==> !(ops[i].Lookup? && ops[i].id == p && ops[i].name == name)
  }

  /** A program is made under a number that no live program has, and no earlier one had. */
  lemma CreateAnswers(ops: seq<Op>, program: Handle, name: string)
    ensures var s := Run(INITIAL, ops);
            var (s1, reply) := Step(s, Create(Some(program)));
            && reply.Number? && reply.n >= 1 && reply.n !in s.infos
            && IsUnresolved(s1, reply.n, program, name)
            && (forall p :: p in s.infos ==> p < reply.n)
  {
    EveryRunKeepsInv(ops);
  }

  lemma UnresolvedStep(s: State, op: Op, p: int, program: Handle, name: string)
    requires Inv(s) && IsUnresolved(s, p, program, name) && op != Delete(p)
    requires !(op.Lookup? && op.id == p && op.name == name)
    ensures IsUnresolved(Step(s, op).0, p, program, name)
  {
  }

  lemma {:induction false} StaysUnresolved(s: State, ops: seq<Op>, p: int, program: Handle, name: string)
    requires Inv(s) && IsUnresolved(s, p, program, name) && Delete(p) !in ops && NoLookup(ops, p, name)
    ensures IsUnresolved(Run(s, ops), p, program, name)
    decreases |ops|
  {
    if ops != [] {
      StepKeepsInv(s, ops[0]);
      UnresolvedStep(s, ops[0], p, program, name);
      RestHasNoLookup(ops, p, name);
      StaysUnresolved(Step(s, ops[0]).0, ops[1..], p, program, name);
    }
  }

  lemma RestHasNoLookup(ops: seq<Op>, p: int, name: string)
    requires ops != [] && NoLookup(ops, p, name)
    ensures NoLookup(ops[1..], p, name)
  {
  }

  /** The first lookup of a name: the answer leads to the location that WebGL gives. */
  lemma FirstLookup(s: State, p: int, program: Handle, name: string, location: Location, id: int)
    requires Inv(s) && IsUnresolved(s, p, program, name)
    requires Step(s, Lookup(p, name, Some(location))).1 == Number(id)
    ensures var s1 := Step(s, Lookup(p, name, Some(location))).0;
            Inv(s1) && Knows(s1, p, name, id, location) && s1.infos[p].program == program
  {
    LookupMakesKnown(s, p, name, Some(location));
    StepKeepsInv(s, Lookup(p, name, Some(location)));
  }

  /**
   * From making a program to setting a uniform: whatever calls come between, as long as none deletes the
   * program, none looks the name up before, and none uses a program after it is used, the value goes to
   * the location of the name in this program.
   */
  lemma ValueReachesUniform(
    ops: seq<Op>, program: Handle, p: int, a: seq<Op>, name: string, location: Location, id: int,
    b: seq<Op>, c: seq<Op>, v: real)
    requires Step(Run(INITIAL, ops), Create(Some(program))).1 == Number(p)
    requires Delete(p) !in a && Delete(p) !in b && Delete(p) !in c && NoLookup(a, p, name) && NoUse(c)
    requires var made := Run(Step(Run(INITIAL, ops), Create(Some(program))).0, a);
             Step(made, Lookup(p, name, Some(location))).1 == Number(id)
    ensures var made := Run(Step(Run(INITIAL, ops), Create(Some(program))).0, a);
            var known := Run(Step(made, Lookup(p, name, Some(location))).0, b);
            var end := Run(Step(known, Use(p)).0, c);
            Step(end, Uniform(id, v)) == (end.(sent := end.sent + [Sent(Some(program), location, v)]), Nothing)
  {
    var s := Run(INITIAL, ops);
    EveryRunKeepsInv(ops);
    StepKeepsInv(s, Create(Some(program)));
    CreateAnswers(ops, program, name);
    var s1 := Step(s, Create(Some(program))).0;
    StaysUnresolved(s1, a, p, program, name);
    RunKeepsInv(s1, a);
    var made := Run(s1, a);
    FirstLookup(made, p, program, name, location, id);
    var s2 := Step(made, Lookup(p, name, Some(location))).0;
    RunKeepsName(s2, b, p, name, id, location);
    RunKeepsInv(s2, b);
    UseAndSet(Run(s2, b), p, program, name, id, location, c, v);
  }

  lemma UseAndSet(s: State, p: int, program: Handle, name: string, id: int, location: Location, ops: seq<Op>, v: real)
    requires Inv(s) && Knows(s, p, name, id, location) && s.infos[p].program == program
    requires NoUse(ops) && Delete(p) !in ops
    ensures var end := Run(Step(s, Use(p)).0, ops);
            Step(end, Uniform(id, v)) == (end.(sent := end.sent + [Sent(Some(program), location, v)]), Nothing)
  {
    UsedStaysInUse(s, p, ops);
    StepKeepsInv(s, Use(p));
    StepKeepsName(s, Use(p), p, name, id, location);
    UniformReachesName(Step(s, Use(p)).0, ops, p, name, id, location, v);
  }

  // --------------------------------------------------------------- which programs are live

  predicate Makes(op: Op) {
    op.Create? && op.made.Some?
  }

  /** How many programs the calls make. */
  function Creations(ops: seq<Op>): nat {
    if ops == [] then 0 else (if Makes(ops[0]) then 1 else 0) + Creations(ops[1..])
  }

  /** Is the number that of a program after the call, if next is the one that a new program gets? */
  predicate IsLiveBehind(op: Op, next: int, p: int, live: bool) {
    if Makes(op) then live || p == next else live && op != Delete(p)
  }

  /** Have the calls, from one that would get the number next, made the program and not deleted it since? */
  predicate IsLiveAfter(ops: seq<Op>, next: int, p: int, live: bool)
    decreases |ops|
  {
    if ops == [] then live
    else IsLiveAfter(ops[1..], if Makes(ops[0]) then next + 1 else next, p, IsLiveBehind(ops[0], next, p, live))
  }

  lemma LookupKeepsLive(s: State, id: int, name: string, resolved: Option<Location>, p: int)
    ensures var t := StepLookup(s, id, name, resolved).0; t.next == s.next && (p in t.infos <==> p in s.infos)
  {
  }

  /** The next number and the liveness of a program after one call. */
  lemma LiveStep(s: State, op: Op, p: int, t: State)
    requires t == Step(s, op).0
    ensures t.next == if Makes(op) then s.next + 1 else s.next
    ensures p in t.infos <==> IsLiveBehind(op, s.next, p, p in s.infos)
  {
    if op.Lookup? {
      LookupKeepsLive(s, op.id, op.name, op.resolved, p);
    }
  }

  lemma {:induction false} LiveIs(s: State, ops: seq<Op>, p: int, end: State, next: int, live: bool)
    requires Run(s, ops) == end && next == s.next && live == (p in s.infos)
    ensures end.next == next + Creations(ops)
    ensures p in end.infos <==> IsLiveAfter(ops, next, p, live)
    decreases |ops|
  {
    if ops != [] {
      var t := Step(s, ops[0]).0;
      LiveStep(s, ops[0], p, t);
      LiveIs(t, ops[1..], p, end, if Makes(ops[0]) then next + 1 else next, IsLiveBehind(ops[0], next, p, live));
    }
  }

  /**
   * On every run a number is good for a use, a delete or a lookup exactly if the calls have made a program under it
   * and not deleted it since; otherwise the call is refused and changes nothing. Numbers count from 1.
   */
  lemma OnlyLiveProgramsAnswer(ops: seq<Op>, p: int, op: Op)
    requires (op == Use(p) && p != 0) || op == Delete(p) || (op.Lookup? && op.id == p)
    ensures var s := Run(INITIAL, ops);
            && (Step(s, op).1 == Failure(NotFound) <==> !IsLiveAfter(ops, 1, p, false))
            && (Step(s, op).1 == Failure(NotFound) ==> Step(s, op).0 == s)
            && s.next == 1 + Creations(ops)
  {
    LiveIs(INITIAL, ops, p, Run(INITIAL, ops), 1, false);
  }
}
