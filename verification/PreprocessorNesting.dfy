// cpplint's nesting tracker around preprocessor conditionals: what the state becomes
// line by line, and why the lines of dead branches leave no trace in it.
module PreprocessorNesting {

  // ------------------------------------------------------------------ as values

  /** What a kind of block has besides the fields of every block: the name and access of a class, say. */
  type Particulars(==,!new)

  /** The fields of a tracked block. */
  datatype Block = Block(
    startingLine: nat, seenOpenBrace: bool, openParentheses: int, inlineAsm: nat, particulars: Particulars)

  /** What UpdatePreprocessor sees in a line. */
  datatype Directive = If | Else | Endif | NoDirective

  /** One change that the rest of Update makes to the stack. */
  datatype Edit = Push(block: Block) | Pop | AlterTop(block: Block)

  /** A line: its directive and the changes it makes, which may depend on the stack it meets. */
  datatype Line = Line(directive: Directive, edits: seq<Block> -> seq<Edit>)

  datatype Checkpoint = Checkpoint(beforeIf: seq<Block>, beforeElse: seq<Block>, seenElse: bool)

  datatype State = State(stack: seq<Block>, checkpoints: seq<Checkpoint>)

  function Last<T>(s: seq<T>): T
    requires s != []
  {
    s[|s| - 1]
  }

  function Init<T>(s: seq<T>): seq<T>
    requires s != []
  {
    s[..|s| - 1]
  }

  function ApplyEdit(stack: seq<Block>, edit: Edit): seq<Block> {
    match edit
    case Push(b) => stack + [b]
    case Pop => if stack == [] then [] else Init(stack)
    case AlterTop(b) => if stack == [] then [] else Init(stack) + [b]
  }

  function ApplyEdits(stack: seq<Block>, edits: seq<Edit>): seq<Block>
    decreases |edits|
  {
    if edits == [] then stack else ApplyEdits(ApplyEdit(stack, edits[0]), edits[1..])
  }

  function Preprocess(s: State, d: Directive): State {
    match d
    case If => s.(checkpoints := s.checkpoints + [Checkpoint(s.stack, [], false)])
    case Else =>
      if s.checkpoints == [] then s
      else
        var top := Last(s.checkpoints);
        var marked := if top.seenElse then top else top.(seenElse := true, beforeElse := s.stack);
        State(top.beforeIf, Init(s.checkpoints) + [marked])
    case Endif =>
      if s.checkpoints == [] then s
      else
        var top := Last(s.checkpoints);
        State(if top.seenElse then top.beforeElse else s.stack, Init(s.checkpoints))
    case NoDirective => s
  }

  /** One call of Update. */
  function Step(s: State, line: Line): State {
    var t := Preprocess(s, line.directive);
    t.(stack := ApplyEdits(t.stack, line.edits(t.stack)))
  }

  function Run(s: State, lines: seq<Line>): State
    decreases |lines|
  {
    if lines == [] then s else Run(Step(s, lines[0]), lines[1..])
  }

  // -------------------------------------------------- which lines are dead, syntactically

  /** For every open #if, innermost last: has its #else or #elif been passed? */
  type Passed = seq<bool>

  function NextPassed(passed: Passed, d: Directive): Passed {
    match d
    case If => passed + [false]
    case Else => if passed == [] then [] else Init(passed) + [true]
    case Endif => if passed == [] then [] else Init(passed)
    case NoDirective => passed
  }

  predicate Live(passed: Passed) {
    true !in passed
  }

  function PassedAfter(passed: Passed, lines: seq<Line>): Passed
    decreases |lines|
  {
    if lines == [] then passed else PassedAfter(NextPassed(passed, lines[0].directive), lines[1..])
  }

  /** The lines outside every #else and #elif region; an #if is kept with its #endif. */
  function Erase(passed: Passed, lines: seq<Line>): seq<Line>
    decreases |lines|
  {
    if lines == [] then []
    else
      var next := NextPassed(passed, lines[0].directive);
      (if Live(next) then [lines[0]] else []) + Erase(next, lines[1..])
  }

  function PassedOf(s: State): (r: Passed)
    ensures |r| == |s.checkpoints|
  {
    seq(|s.checkpoints|, i requires 0 <= i < |s.checkpoints| => s.checkpoints[i].seenElse)
  }

  function FirstPassed(passed: Passed): (k: nat)
    ensures k <= |passed|
    ensures Live(passed) <==> k == |passed|
    ensures k < |passed| ==> passed[k]
    ensures forall i :: 0 <= i < k ==> !passed[i]
  {
    if passed == [] then 0 else if passed[0] then 0 else 1 + FirstPassed(passed[1..])
  }

  lemma FirstPassedIs(passed: Passed, k: nat)
    requires k < |passed| && passed[k] && forall i :: 0 <= i < k ==> !passed[i]
    ensures FirstPassed(passed) == k
  {
  }

  /**
   * How the full run and the run without dead lines hang together: outside dead
   * regions they are the same state; inside, the second one is what the outermost
   * passed #if has saved for its #endif.
   */
  predicate Agree(full: State, erased: State, passed: Passed) {
    && PassedOf(full) == passed
    && var k := FirstPassed(passed);
       if k == |passed| then erased == full
       else
         && erased.stack == full.checkpoints[k].beforeElse
         && |erased.checkpoints| == k + 1
         && erased.checkpoints[..k] == full.checkpoints[..k]
         && erased.checkpoints[k].beforeIf == full.checkpoints[k].beforeIf
         && !erased.checkpoints[k].seenElse
  }

  lemma AgreeLive(full: State, erased: State, passed: Passed, line: Line)
    requires Agree(full, erased, passed) && Live(passed)
    ensures var next := NextPassed(passed, line.directive);
            Agree(Step(full, line), if Live(next) then Step(erased, line) else erased, next)
  {
    var d := line.directive;
    var next := NextPassed(passed, d);
    var full' := Step(full, line);
    if d == Else && passed != [] {
      var k := |passed| - 1;
      FirstPassedIs(next, k);
      assert PassedOf(full') == next;
      assert !passed[k] && !full.checkpoints[k].seenElse;
      assert full'.checkpoints[..k] == full.checkpoints[..k];
    } else {
      assert PassedOf(full') == next;
      assert Live(next);
    }
  }

  lemma AgreeDead(full: State, erased: State, passed: Passed, line: Line)
    requires Agree(full, erased, passed) && !Live(passed)
    ensures var next := NextPassed(passed, line.directive);
            Agree(Step(full, line), if Live(next) then Step(erased, line) else erased, next)
  {
    var d := line.directive;
    var next := NextPassed(passed, d);
    var k := FirstPassed(passed);
    var full' := Step(full, line);
    assert PassedOf(full') == next;
    if d == Endif && k == |passed| - 1 {
      assert Init(erased.checkpoints) == Init(full.checkpoints);
    } else {
      assert next[k];
      FirstPassedIs(next, k);
      assert full'.checkpoints[..k] == full.checkpoints[..k];
    }
  }

  /** One line keeps the two runs in agreement. */
  lemma StepKeepsAgreement(full: State, erased: State, passed: Passed, line: Line)
    requires Agree(full, erased, passed)
    ensures var next := NextPassed(passed, line.directive);
            Agree(Step(full, line), if Live(next) then Step(erased, line) else erased, next)
  {
    if Live(passed) {
      AgreeLive(full, erased, passed, line);
    } else {
      AgreeDead(full, erased, passed, line);
    }
  }

  lemma {:induction false} RunsAgree(full: State, erased: State, passed: Passed, lines: seq<Line>)
    requires Agree(full, erased, passed)
    ensures Agree(Run(full, lines), Run(erased, Erase(passed, lines)), PassedAfter(passed, lines))
    decreases |lines|
  {
    if lines != [] {
      var next := NextPassed(passed, lines[0].directive);
      var rest := Erase(next, lines[1..]);
      StepKeepsAgreement(full, erased, passed, lines[0]);
      if Live(next) {
        RunsAgree(Step(full, lines[0]), Step(erased, lines[0]), next, lines[1..]);
        assert ([lines[0]] + rest)[1..] == rest;
      } else {
        RunsAgree(Step(full, lines[0]), erased, next, lines[1..]);
        assert [] + rest == rest;
      }
    }
  }

  /**
   * Erasing the lines of #else and #elif regions changes nothing: wherever no such region
   * is open, the stack and the checkpoints are those of the run without these lines.
   */
  lemma DeadBranchesLeaveNoTrace(s: State, lines: seq<Line>)
    requires Live(PassedOf(s))
    requires Live(PassedAfter(PassedOf(s), lines))
    ensures Run(s, lines) == Run(s, Erase(PassedOf(s), lines))
  {
    RunsAgree(s, s, PassedOf(s), lines);
  }

  /** Inside a dead region, what is saved for the outermost passed #if is the stack of the run without dead lines. */
  lemma DeadBranchesKeepSavedStack(s: State, lines: seq<Line>)
    requires Live(PassedOf(s))
    requires !Live(PassedAfter(PassedOf(s), lines))
    ensures var k := FirstPassed(PassedAfter(PassedOf(s), lines));
            && k < |Run(s, lines).checkpoints|
            && Run(s, lines).checkpoints[k].beforeElse == Run(s, Erase(PassedOf(s), lines)).stack
  {
    RunsAgree(s, s, PassedOf(s), lines);
  }

  // ------------------------------------------------------ well-nested sections

  /** Are the conditionals in lines complete, when depth of them are open at the start? */
  predicate WellNested(lines: seq<Line>, depth: nat) {
    if lines == [] then depth == 0
    else
      match lines[0].directive
      case If => WellNested(lines[1..], depth + 1)
      case Else => depth > 0 && WellNested(lines[1..], depth)
      case Endif => depth > 0 && WellNested(lines[1..], depth - 1)
      case NoDirective => WellNested(lines[1..], depth)
  }

  lemma {:induction false} WellNestedKeepsOuter(s: State, lines: seq<Line>, depth: nat)
    requires depth <= |s.checkpoints| && WellNested(lines, depth)
    ensures Run(s, lines).checkpoints == s.checkpoints[..|s.checkpoints| - depth]
    decreases |lines|
  {
    if lines != [] {
      var t := Step(s, lines[0]);
      var outer := |s.checkpoints| - depth;
      assert t.checkpoints[..outer] == s.checkpoints[..outer];
      var d := match lines[0].directive case If => depth + 1 case Endif => depth - 1 case _ => depth;
      WellNestedKeepsOuter(t, lines[1..], d);
    }
  }

  lemma {:induction false} WellNestedKeepsPassed(passed: Passed, lines: seq<Line>, depth: nat)
    requires depth <= |passed| && WellNested(lines, depth)
    ensures PassedAfter(passed, lines) == passed[..|passed| - depth]
    decreases |lines|
  {
    if lines != [] {
      var next := NextPassed(passed, lines[0].directive);
      var outer := |passed| - depth;
      assert next[..outer] == passed[..outer];
      var d := match lines[0].directive case If => depth + 1 case Endif => depth - 1 case _ => depth;
      WellNestedKeepsPassed(next, lines[1..], d);
    }
  }

  /** The erasure theorem for a file whose conditionals are all complete. */
  lemma WellNestedErasure(lines: seq<Line>)
    requires WellNested(lines, 0)
    ensures var start := State([], []);
            Run(start, lines) == Run(start, Erase([], lines)) && Run(start, lines).checkpoints == []
  {
    var start := State([], []);
    assert PassedOf(start) == [];
    WellNestedKeepsPassed([], lines, 0);
    WellNestedKeepsOuter(start, lines, 0);
    DeadBranchesLeaveNoTrace(start, lines);
  }

  /**
   * Every branch of a conditional starts from the stack as it was before the #if, and the
   * stack kept for the #endif is the one at the end of the first branch.
   */
  lemma EveryBranchStartsBeforeIf(s: State, branch: seq<Line>)
    requires s.checkpoints != [] && WellNested(branch, 0)
    ensures var top := Last(s.checkpoints);
            var next := Preprocess(Run(s, branch), Else);
            && next.stack == top.beforeIf
            && next.checkpoints != [] && Init(next.checkpoints) == Init(s.checkpoints)
            && Last(next.checkpoints).beforeIf == top.beforeIf
            && Last(next.checkpoints).beforeElse == if top.seenElse then top.beforeElse else Run(s, branch).stack
  {
    WellNestedKeepsOuter(s, branch, 0);
  }

  // ------------------------------------------------------------------- as objects

  /** A tracked block, changed in place as the scan goes on. */
  class BlockInfo {
    var startingLine: nat
    var seenOpenBrace: bool
    var openParentheses: int
    var inlineAsm: nat
    var particulars: Particulars

    function Snapshot(): Block
      reads this
    {
      Block(startingLine, seenOpenBrace, openParentheses, inlineAsm, particulars)
    }

    constructor (b: Block)
      ensures Snapshot() == b
    {
      startingLine, seenOpenBrace := b.startingLine, b.seenOpenBrace;
      openParentheses, inlineAsm := b.openParentheses, b.inlineAsm;
      particulars := b.particulars;
    }

    method Overwrite(b: Block)
      modifies this
      ensures Snapshot() == b
    {
      startingLine, seenOpenBrace := b.startingLine, b.seenOpenBrace;
      openParentheses, inlineAsm := b.openParentheses, b.inlineAsm;
      particulars := b.particulars;
    }
  }

  datatype PreprocessorInfo = PreprocessorInfo(
    stackBeforeIf: seq<BlockInfo>, stackBeforeElse: seq<BlockInfo>, seenElse: bool)
  {
    ghost function Saved(): set<BlockInfo> {
      (set b | b in stackBeforeIf) + (set b | b in stackBeforeElse)
    }

    ghost function View(): Checkpoint
      reads stackBeforeIf, stackBeforeElse
    {
      Checkpoint(Snapshots(stackBeforeIf), Snapshots(stackBeforeElse), seenElse)
    }
  }

  ghost function Snapshots(s: seq<BlockInfo>): (r: seq<Block>)
    reads s
    ensures |r| == |s|
    ensures forall i :: 0 <= i < |s| ==> r[i] == s[i].Snapshot()
  {
    seq(|s|, i requires 0 <= i < |s| reads s => s[i].Snapshot())
  }

  predicate Distinct(s: seq<BlockInfo>) {
    forall i, j :: 0 <= i < j < |s| ==> s[i] != s[j]
  }

  /** A copy of every block, none of them shared with the original. */
  method DeepCopy(s: seq<BlockInfo>) returns (r: seq<BlockInfo>)
    ensures Snapshots(r) == Snapshots(s)
    ensures Distinct(r) && forall b :: b in r ==> fresh(b)
  {
    r := [];
    for i := 0 to |s|
      invariant |r| == i && Distinct(r)
      invariant forall j :: 0 <= j < i ==> fresh(r[j]) && r[j].Snapshot() == s[j].Snapshot()
    {
      var b := new BlockInfo(s[i].Snapshot());
      r := r + [b];
    }
  }

  /** Everything that can be reached from a stack and the saved stacks. */
  ghost function Reach(stack: seq<BlockInfo>, saved: seq<PreprocessorInfo>): set<BlockInfo> {
    (set b | b in stack) + (set i, b | 0 <= i < |saved| && b in saved[i].Saved() :: b)
  }

  /** No block of the stack, or of a saved stack that may become the stack, is shared. */
  ghost predicate Unshared(stack: seq<BlockInfo>, saved: seq<PreprocessorInfo>) {
    && Distinct(stack)
    && (forall i :: 0 <= i < |saved| ==> Distinct(saved[i].stackBeforeElse))
    && (forall i, b :: 0 <= i < |saved| && b in saved[i].Saved() ==> b !in stack)
    && (forall i, j, b :: 0 <= i < j < |saved| && b in saved[i].Saved() ==> b !in saved[j].stackBeforeElse)
  }

  lemma KeepingIsUnshared(stack: seq<BlockInfo>, saved: seq<PreprocessorInfo>, kept: seq<BlockInfo>)
    requires saved != [] && Unshared(stack, saved) && Distinct(kept)
    requires forall b :: b in kept ==> b !in Reach(stack, saved)
    ensures var next := Init(saved) + [Last(saved).(seenElse := true, stackBeforeElse := kept)];
            && Unshared(stack, next)
            && forall b :: b in Reach(stack, next) ==> b in Reach(stack, saved) || b in kept
  {
    var next := Init(saved) + [Last(saved).(seenElse := true, stackBeforeElse := kept)];
    forall i, b | 0 <= i < |next| && b in next[i].Saved()
      ensures b in saved[i].Saved() || (i == |next| - 1 && b in kept)
    {
    }
  }

  lemma LeavingIsUnshared(stack: seq<BlockInfo>, saved: seq<PreprocessorInfo>)
    requires saved != [] && Unshared(stack, saved)
    ensures var next := if Last(saved).seenElse then Last(saved).stackBeforeElse else stack;
            Unshared(next, Init(saved)) && Reach(next, Init(saved)) <= Reach(stack, saved)
  {
    var n := |saved| - 1;
    assert forall i :: 0 <= i < n ==> Init(saved)[i] == saved[i];
    assert forall b :: b in Last(saved).stackBeforeElse ==> b in saved[n].Saved();
  }

  class NestingState {
    var stack: seq<BlockInfo>
    var ppStack: seq<PreprocessorInfo>

    ghost function Blocks(): set<BlockInfo>
      reads this
    {
      Reach(stack, ppStack)
    }

    ghost predicate Valid()
      reads this
    {
      Unshared(stack, ppStack)
    }

    /** The state as values. */
    ghost function View(): State
      reads this, Blocks()
    {
      State(Snapshots(stack),
            seq(|ppStack|, i requires 0 <= i < |ppStack| reads this, Blocks() => CheckpointAt(i)))
    }

    ghost function CheckpointAt(i: nat): Checkpoint
      requires i < |ppStack|
      reads this, Blocks()
    {
      assert forall b :: b in ppStack[i].Saved() ==> b in Blocks();
      ppStack[i].View()
    }

    constructor ()
      ensures Valid() && Blocks() == {} && View() == State([], [])
    {
      stack, ppStack := [], [];
    }

    method UpdatePreprocessor(d: Directive)
      requires Valid()
      modifies this`stack, this`ppStack
      ensures Valid() && fresh(Blocks() - old(Blocks()))
      ensures View() == Preprocess(old(View()), d)
    {
      match d
      case If => BeginIf();
      case Else => BeginElse();
      case Endif => EndIf();
      case NoDirective =>
    }

    method BeginIf()
      requires Valid()
      modifies this`ppStack
      ensures Valid() && fresh(Blocks() - old(Blocks()))
      ensures |ppStack| == |old(ppStack)| + 1 && Init(ppStack) == old(ppStack)
      ensures Snapshots(Last(ppStack).stackBeforeIf) == old(Snapshots(stack)) && !Last(ppStack).seenElse
      ensures View() == Preprocess(old(View()), If)
    {
      var saved := DeepCopy(stack);
      ppStack := ppStack + [PreprocessorInfo(saved, [], false)];
    }

    method BeginElse()
      requires Valid()
      modifies this`stack, this`ppStack
      ensures Valid() && fresh(Blocks() - old(Blocks()))
      ensures View() == Preprocess(old(View()), Else)
    {
      if ppStack != [] {
        if !Last(ppStack).seenElse {
          KeepForEndif();
        }
        Restart();
      }
    }

    /** The branch starts with the stack as it was before the #if. */
    method Restart()
      requires Valid() && ppStack != []
      modifies this`stack
      ensures Valid() && fresh(Blocks() - old(Blocks()))
      ensures old(View()).checkpoints != []
      ensures View() == old(View()).(stack := Last(old(View()).checkpoints).beforeIf)
    {
      ghost var was, n := old(View()), |ppStack| - 1;
      assert was.checkpoints[n] == old(CheckpointAt(n));
      stack := DeepCopy(Last(ppStack).stackBeforeIf);
      assert forall i :: 0 <= i < |ppStack| ==> CheckpointAt(i) == was.checkpoints[i];
      assert View().checkpoints == was.checkpoints;
    }

    method KeepForEndif()
      requires Valid() && ppStack != []
      modifies this`ppStack
      ensures Valid() && fresh(Blocks() - old(Blocks()))
      ensures ppStack != [] && Last(ppStack).stackBeforeIf == old(Last(ppStack).stackBeforeIf)
      ensures View() == old(View()).(checkpoints := Init(old(View()).checkpoints)
                + [Last(old(View()).checkpoints).(seenElse := true, beforeElse := old(View()).stack)])
    {
      var kept := DeepCopy(stack);
      KeepingIsUnshared(stack, ppStack, kept);
      ppStack := Init(ppStack) + [Last(ppStack).(seenElse := true, stackBeforeElse := kept)];
      ghost var was, n := old(View()), |ppStack| - 1;
      assert forall i :: 0 <= i < n ==> CheckpointAt(i) == was.checkpoints[i];
      assert Snapshots(stack) == was.stack;
      assert CheckpointAt(n) == Last(was.checkpoints).(seenElse := true, beforeElse := was.stack);
      assert View().checkpoints == Init(was.checkpoints) + [CheckpointAt(n)];
    }

    method EndIf()
      requires Valid()
      modifies this`stack, this`ppStack
      ensures Valid() && fresh(Blocks() - old(Blocks()))
      ensures View() == Preprocess(old(View()), Endif)
    {
      if ppStack != [] {
        ghost var was, n := View(), |ppStack| - 1;
        assert was.checkpoints[n] == CheckpointAt(n);
        LeavingIsUnshared(stack, ppStack);
        var top := Last(ppStack);
        if top.seenElse {
          stack := top.stackBeforeElse;
        }
        ppStack := Init(ppStack);
        assert Snapshots(stack) == if top.seenElse then was.checkpoints[n].beforeElse else was.stack;
        assert forall i :: 0 <= i < n ==> CheckpointAt(i) == was.checkpoints[i];
        assert View().checkpoints == Init(was.checkpoints);
      }
    }

    method Change(edit: Edit)
      requires Valid()
      modifies this`stack, stack
      ensures Valid() && fresh(Blocks() - old(Blocks())) && ppStack == old(ppStack)
      ensures View() == old(View()).(stack := ApplyEdit(old(View()).stack, edit))
    {
      match edit
      case Push(b) =>
        var block := new BlockInfo(b);
        stack := stack + [block];
      case Pop =>
        if stack != [] {
          assert forall b :: b in Init(stack) ==> b in stack;
          stack := Init(stack);
        }
      case AlterTop(b) =>
        if stack != [] {
          AlterTop(b);
        }
    }

    /** The saved stacks do not see the change, because they share no block with the stack. */
    method AlterTop(b: Block)
      requires Valid() && stack != []
      modifies stack
      ensures stack == old(stack) && ppStack == old(ppStack)
      ensures Valid()
      ensures View() == old(View()).(stack := Init(old(View()).stack) + [b])
    {
      var top := Last(stack);
      top.Overwrite(b);
      forall i | 0 <= i < |ppStack|
        ensures ppStack[i].View() == old(ppStack[i].View())
      {
        assert top in stack && top !in ppStack[i].Saved();
        assert Snapshots(ppStack[i].stackBeforeIf) == old(Snapshots(ppStack[i].stackBeforeIf));
        assert Snapshots(ppStack[i].stackBeforeElse) == old(Snapshots(ppStack[i].stackBeforeElse));
      }
    }

    /** One line: the directive is handled, then the rest of the line. */
    method Update(line: Line)
      requires Valid()
      modifies this, Blocks()
      ensures Valid() && fresh(Blocks() - old(Blocks()))
      ensures View() == Step(old(View()), line)
    {
      UpdatePreprocessor(line.directive);
      var values := ReadBlocks(stack);
      ChangeAll(line.edits(values));
    }

    method ChangeAll(edits: seq<Edit>)
      requires Valid()
      modifies this`stack, stack
      ensures Valid() && fresh(Blocks() - old(Blocks()))
      ensures View() == old(View()).(stack := ApplyEdits(old(View()).stack, edits))
      decreases |edits|
    {
      if edits != [] {
        Change(edits[0]);
        ChangeAll(edits[1..]);
      }
    }
  }

  /** The loop over the lines of a file, each handed to Update. */
  method UpdateAll(nesting: NestingState, lines: seq<Line>)
    requires nesting.Valid()
    modifies nesting, nesting.Blocks()
    ensures nesting.Valid() && fresh(nesting.Blocks() - old(nesting.Blocks()))
    ensures nesting.View() == Run(old(nesting.View()), lines)
    decreases |lines|
  {
    if lines != [] {
      nesting.Update(lines[0]);
      UpdateAll(nesting, lines[1..]);
    }
  }

  method ReadBlocks(s: seq<BlockInfo>) returns (r: seq<Block>)
    ensures r == Snapshots(s)
  {
    r := [];
    for i := 0 to |s|
      invariant |r| == i && forall j :: 0 <= j < i ==> r[j] == s[j].Snapshot()
    {
      r := r + [s[i].Snapshot()];
    }
  }
}
