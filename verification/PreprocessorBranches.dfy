// What a whole conditional comes to for cpplint's nesting tracker: every branch starts with the stack met at
// the #if, and after the #endif it is as if the first branch had stood there alone.
module PreprocessorBranches {
  import opened PreprocessorNesting

  /** The line that opens a branch and the lines up to the next one of the same conditional. */
  datatype Branch = Branch(head: Line, body: seq<Line>)

  /** Are the conditionals inside complete? */
  predicate Opens(b: Branch, d: Directive) {
    b.head.directive == d && WellNested(b.body, 0)
  }

  /** An #if and any number of #elif and #else. */
  predicate IsConditional(branches: seq<Branch>) {
    branches != [] && Opens(branches[0], If) && AllElse(branches[1..])
  }

  predicate AllElse(branches: seq<Branch>) {
    forall i :: 0 <= i < |branches| ==> Opens(branches[i], Else)
  }

  function Lines(branches: seq<Branch>): seq<Line> {
    if branches == [] then [] else [branches[0].head] + branches[0].body + Lines(branches[1..])
  }

  lemma {:induction false} RunInTwo(s: State, a: seq<Line>, b: seq<Line>)
    ensures Run(s, a + b) == Run(Run(s, a), b)
    decreases |a|
  {
    if a == [] {
      assert a + b == b;
    } else {
      assert (a + b)[1..] == a[1..] + b;
      RunInTwo(Step(s, a[0]), a[1..], b);
    }
  }

  lemma RunBranch(s: State, b: Branch, rest: seq<Line>)
    ensures Run(s, [b.head] + b.body + rest) == Run(Run(Step(s, b.head), b.body), rest)
  {
    RunInTwo(s, [b.head] + b.body, rest);
    assert ([b.head] + b.body)[1..] == b.body;
  }

  /** The saved state at the top, with the stack at the end of the first branch once there is a second one. */
  predicate Saves(c: Checkpoint, beforeIf: seq<Block>, endOfFirst: seq<Block>, more: bool) {
    c.beforeIf == beforeIf && c.seenElse == more && (more ==> c.beforeElse == endOfFirst)
  }

  lemma ElseBranch(t: State, b: Branch, outer: seq<Checkpoint>, beforeIf: seq<Block>, endOfFirst: seq<Block>, more: bool)
    requires t.checkpoints != [] && Init(t.checkpoints) == outer
    requires Saves(Last(t.checkpoints), beforeIf, endOfFirst, more) && (!more ==> t.stack == endOfFirst)
    requires Opens(b, Else)
    ensures var u := Run(Step(t, b.head), b.body);
            u.checkpoints != [] && Init(u.checkpoints) == outer && Saves(Last(u.checkpoints), beforeIf, endOfFirst, true)
  {
    WellNestedKeepsOuter(Step(t, b.head), b.body, 0);
  }

  lemma {:induction false} ElseBranches(
    t: State, branches: seq<Branch>, outer: seq<Checkpoint>, beforeIf: seq<Block>, endOfFirst: seq<Block>, more: bool)
    returns (u: State)
    requires t.checkpoints != [] && Init(t.checkpoints) == outer
    requires Saves(Last(t.checkpoints), beforeIf, endOfFirst, more) && (!more ==> t.stack == endOfFirst)
    requires AllElse(branches)
    ensures u == Run(t, Lines(branches))
    ensures u.checkpoints != [] && Init(u.checkpoints) == outer
    ensures Saves(Last(u.checkpoints), beforeIf, endOfFirst, more || branches != [])
    ensures !more && branches == [] ==> u.stack == endOfFirst
    decreases |branches|
  {
    if branches == [] {
      u := t;
    } else {
      var b := branches[0];
      assert Opens(b, Else);
      ElseBranch(t, b, outer, beforeIf, endOfFirst, more);
      RunBranch(t, b, Lines(branches[1..]));
      u := ElseBranches(Run(Step(t, b.head), b.body), branches[1..], outer, beforeIf, endOfFirst, true);
    }
  }

  lemma FirstBranch(s: State, b: Branch)
    requires Opens(b, If)
    ensures var t := Run(Step(s, b.head), b.body);
            && t.checkpoints != [] && Init(t.checkpoints) == s.checkpoints
            && Last(t.checkpoints) == Checkpoint(s.stack, [], false)
  {
    WellNestedKeepsOuter(Step(s, b.head), b.body, 0);
  }

  /**
   * After an #if and any number of further branches, whatever the lines in them do: the next #elif or #else
   * starts with the stack that the #if met, and after the #endif the stack is the one at the end of
   * the first branch and the saved states are those before the #if.
   */
  lemma ConditionalIsFirstBranch(s: State, branches: seq<Branch>)
    requires IsConditional(branches)
    ensures var end := Run(s, Lines(branches));
            && Preprocess(end, Else).stack == s.stack
            && Preprocess(end, Endif) == State(Run(s, Lines(branches[..1])).stack, s.checkpoints)
  {
    var first := branches[0];
    var t := Run(Step(s, first.head), first.body);
    FirstBranch(s, first);
    RunBranch(s, first, Lines(branches[1..]));
    RunBranch(s, first, []);
    assert branches[..1] == [first];
    assert Lines([first]) == [first.head] + first.body + [];
    assert Run(s, Lines(branches[..1])) == t;
    var end := ElseBranches(t, branches[1..], s.checkpoints, s.stack, t.stack, false);
  }

  /** The first branch starts with the stack that the #if met, and so does the second. */
  lemma BranchStartsWithStackAtIf(s: State, branch: seq<Line>)
    requires WellNested(branch, 0)
    ensures Preprocess(s, If).stack == s.stack
    ensures Preprocess(Run(Preprocess(s, If), branch), Else).stack == s.stack
  {
    WellNestedKeepsOuter(Preprocess(s, If), branch, 0);
  }

  // ------------------------------------------------------------------ the file without directives

  /** What the lines do to a stack when their directives are not looked at. */
  function EditsOnly(stack: seq<Block>, lines: seq<Line>): seq<Block>
    decreases |lines|
  {
    if lines == [] then stack else EditsOnly(ApplyEdits(stack, lines[0].edits(stack)), lines[1..])
  }

  /** Outside dead regions the stack is the given one; inside, it is kept for the #endif of the outermost one. */
  predicate Follows(s: State, stack: seq<Block>, passed: Passed) {
    && PassedOf(s) == passed
    && var k := FirstPassed(passed);
       stack == if k == |passed| then s.stack else s.checkpoints[k].beforeElse
  }

  lemma LiveFollows(s: State, passed: Passed, line: Line)
    requires PassedOf(s) == passed && Live(passed)
    ensures var next := NextPassed(passed, line.directive);
            Follows(Step(s, line), if Live(next) then ApplyEdits(s.stack, line.edits(s.stack)) else s.stack, next)
  {
    var next := NextPassed(passed, line.directive);
    assert PassedOf(Step(s, line)) == next;
    if line.directive == Else && passed != [] {
      var k := |passed| - 1;
      assert next[k];
      FirstPassedIs(next, k);
      assert !passed[k] && !s.checkpoints[k].seenElse;
    } else {
      assert Live(next);
      if line.directive == Endif && passed != [] {
        assert !passed[|passed| - 1] && !Last(s.checkpoints).seenElse;
      }
    }
  }

  lemma DeadFollows(s: State, stack: seq<Block>, passed: Passed, line: Line)
    requires Follows(s, stack, passed) && !Live(passed)
    ensures var next := NextPassed(passed, line.directive);
            Follows(Step(s, line), if Live(next) then ApplyEdits(stack, line.edits(stack)) else stack, next)
  {
    var next := NextPassed(passed, line.directive);
    var k := FirstPassed(passed);
    assert PassedOf(Step(s, line)) == next;
    if line.directive == Endif && k == |passed| - 1 {
      assert Live(next);
    } else {
      assert next[k];
      FirstPassedIs(next, k);
    }
  }

  lemma {:induction false} RunFollows(s: State, stack: seq<Block>, passed: Passed, lines: seq<Line>)
    requires Follows(s, stack, passed)
    ensures Follows(Run(s, lines), EditsOnly(stack, Erase(passed, lines)), PassedAfter(passed, lines))
    decreases |lines|
  {
    if lines != [] {
      var next, line := NextPassed(passed, lines[0].directive), lines[0];
      var rest := Erase(next, lines[1..]);
      if Live(passed) {
        LiveFollows(s, passed, line);
      } else {
        DeadFollows(s, stack, passed, line);
      }
      if Live(next) {
        RunFollows(Step(s, line), ApplyEdits(stack, line.edits(stack)), next, lines[1..]);
        assert ([line] + rest)[1..] == rest;
      } else {
        RunFollows(Step(s, line), stack, next, lines[1..]);
        assert [] + rest == rest;
      }
    }
  }

  /**
   * For every file, whether its conditionals are complete or not: outside #else and #elif regions the stack
   * is the one that the lines outside these regions make, one after the other, with no directive looked at;
   * inside, that stack is the one kept for the #endif.
   */
  lemma StackIsLiveEdits(s: State, lines: seq<Line>)
    requires Live(PassedOf(s))
    ensures var passed, stack := PassedAfter(PassedOf(s), lines), EditsOnly(s.stack, Erase(PassedOf(s), lines));
            && |Run(s, lines).checkpoints| == |passed|
            && (Live(passed) ==> Run(s, lines).stack == stack)
            && (!Live(passed) ==> Run(s, lines).checkpoints[FirstPassed(passed)].beforeElse == stack)
  {
    RunFollows(s, s.stack, PassedOf(s), lines);
  }

  // ---------------------------------------------------------------------- the edits of a line

  /** Do the edits pop what they push, and stay above all but depth blocks that are there before? */
  predicate Balanced(edits: seq<Edit>, depth: nat) {
    if edits == [] then depth == 0
    else
      match edits[0]
      case Push(b) => Balanced(edits[1..], depth + 1)
      case Pop => depth > 0 && Balanced(edits[1..], depth - 1)
      case AlterTop(b) => depth > 0 && Balanced(edits[1..], depth)
  }

  lemma {:induction false} BalancedEditsStayAbove(stack: seq<Block>, edits: seq<Edit>, depth: nat)
    requires depth <= |stack| && Balanced(edits, depth)
    ensures ApplyEdits(stack, edits) == stack[..|stack| - depth]
    decreases |edits|
  {
    if edits != [] {
      var next, below := ApplyEdit(stack, edits[0]), |stack| - depth;
      assert next[..below] == stack[..below];
      var d := match edits[0] case Push(b) => depth + 1 case Pop => depth - 1 case AlterTop(b) => depth;
      BalancedEditsStayAbove(next, edits[1..], d);
    }
  }

  /** What was last pushed, or put in place of the top, is on top of the unchanged rest again when all above it has been popped. */
  lemma BlocksComeBack(stack: seq<Block>, b: Block, edits: seq<Edit>)
    requires Balanced(edits, 0)
    ensures ApplyEdits(stack, [Push(b)] + edits) == stack + [b]
    ensures stack != [] ==> ApplyEdits(stack, [AlterTop(b)] + edits) == Init(stack) + [b]
    ensures ApplyEdits(stack, [Push(b)] + edits + [Pop]) == stack
  {
    assert ([Push(b)] + edits)[1..] == edits && ([AlterTop(b)] + edits)[1..] == edits;
    BalancedEditsStayAbove(stack + [b], edits, 0);
    if stack != [] {
      BalancedEditsStayAbove(Init(stack) + [b], edits, 0);
    }
    assert ([Push(b)] + edits + [Pop])[1..] == edits + [Pop];
    BalancedThenPop(edits, 0);
    BalancedEditsStayAbove(stack + [b], edits + [Pop], 1);
  }

  lemma {:induction false} BalancedThenPop(edits: seq<Edit>, depth: nat)
    requires Balanced(edits, depth)
    ensures Balanced(edits + [Pop], depth + 1)
    decreases |edits|
  {
    if edits == [] {
      assert edits + [Pop] == [Pop];
    } else {
      assert (edits + [Pop])[1..] == edits[1..] + [Pop];
      var d := match edits[0] case Push(b) => depth + 1 case Pop => depth - 1 case AlterTop(b) => depth;
      BalancedThenPop(edits[1..], d);
    }
  }
}
