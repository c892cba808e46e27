// Angle brackets in cpplint's matchers: which `>` closes a `<` and which `<` opens a `>`, said without a
// mixed stack, and template argument lists, on which the two matchers undo each other.
module AngleMatching {
  import opened BracketMatching
  import opened PyText
  import opened Wrappers

  // ---------------------------------------------------------- what angles mean

  /** What a position means besides being a bracket or not. */
  datatype Mark = OpensAngle | ClosesAngle | EndsShift | EndsStatement | EndsLine | NoMark

  predicate IsShiftEnd(line: string, i: nat)
    requires i < |line|
  {
    line[i] == '<' && i > 0 && line[i - 1] == '<'
  }

  /** A `<` that is neither the second of `<<` nor part of the name of an operator. */
  predicate IsAngleOpener(word: WordClass, line: string, i: nat)
    requires i < |line|
  {
    line[i] == '<' && !IsShiftEnd(line, i) && !EndsInOperator(word, line[..i])
  }

  /** A `>` that is neither the end of `->` nor, one character on, part of the name of an operator. */
  predicate IsAngleCloser(word: WordClass, line: string, i: nat)
    requires i < |line|
  {
    line[i] == '>' && !(i > 0 && line[i - 1] == '-') && !(i > 0 && EndsInOperator(word, line[..i - 1]))
  }

  function LineMark(word: WordClass, line: string, i: nat): Mark
    requires i <= |line|
  {
    if i == |line| then EndsLine
    else if IsAngleOpener(word, line, i) then OpensAngle
    else if IsAngleCloser(word, line, i) then ClosesAngle
    else if IsShiftEnd(line, i) then EndsShift
    else if line[i] == ';' then EndsStatement
    else NoMark
  }

  /** The marks of all positions of the text. */
  function MarkRows(word: WordClass, lines: seq<string>): (r: seq<seq<Mark>>)
    ensures |r| == |lines|
  {
    seq(|lines|, l requires 0 <= l < |lines| => LineMarks(word, lines[l]))
  }

  function LineMarks(word: WordClass, line: string): (r: seq<Mark>)
    ensures |r| == |line| + 1
  {
    seq(|line| + 1, i requires 0 <= i < |line| + 1 => LineMark(word, line, i))
  }

  function Marks(word: WordClass, lines: seq<string>): seq<Mark> {
    Flatten(MarkRows(word, lines))
  }

  // ---------------------------------------------------------- the way forward

  /**
   * The walk over a text with some angles open. A pair of brackets is passed over in one go, so
   * what stands in it does not matter; with no angle open, the first pair is the answer.
   */
  function CloseAngle(text: string, marks: seq<Mark>, k: nat, angles: nat): (r: Option<nat>)
    requires k <= |text| == |marks|
    ensures r.Some? ==> k <= r.value < |text|
    decreases |text| - k
  {
    if k == |text| then None
    else if IsOpen(text[k]) then
      match FindClose(text, k, [])
      case None => None
      case Some(q) => if angles == 0 then Some(q) else CloseAngle(text, marks, q + 1, angles)
    else if IsClose(text[k]) then None
    else
      match marks[k]
      case OpensAngle => CloseAngle(text, marks, k + 1, angles + 1)
      case ClosesAngle =>
        if angles == 1 then Some(k) else CloseAngle(text, marks, k + 1, if angles == 0 then 0 else angles - 1)
      case EndsShift =>
        if angles == 1 then None else CloseAngle(text, marks, k + 1, if angles == 0 then 0 else angles - 1)
      case EndsStatement => None
      case EndsLine => if angles == 0 then None else CloseAngle(text, marks, k + 1, angles)
      case NoMark => CloseAngle(text, marks, k + 1, angles)
  }

  /** Does the token of the scan say the same as the character and its mark? */
  predicate Says(t: Token, c: char, m: Mark) {
    if IsOpen(c) then t == Open(c)
    else if IsClose(c) then t == Close(c)
    else
      match m
      case OpensAngle => t == Less
      case ClosesAngle => t == Greater
      case EndsShift => t == Shift
      case EndsStatement => t == Semicolon
      case EndsLine => t == LineEnd
      case NoMark => t == Other
  }

  predicate AllSay(tokens: seq<Token>, text: string, marks: seq<Mark>) {
    && |tokens| == |text| == |marks|
    && forall k :: 0 <= k < |text| ==> Says(tokens[k], text[k], marks[k])
  }

  lemma NothingIsNoOperator(word: WordClass)
    ensures !EndsInOperator(word, "")
  {
  }

  lemma TokenSays(word: WordClass, line: string, i: nat)
    requires i < |line|
    ensures Says(ForwardToken(word, line, i), line[i], LineMark(word, line, i))
  {
    NothingIsNoOperator(word);
    assert line[..0] == "";
  }

  lemma {:induction false} RowsSay(tokens: seq<seq<Token>>, text: seq<string>, marks: seq<seq<Mark>>)
    requires |tokens| == |text| == |marks|
    requires forall l :: 0 <= l < |text| ==> AllSay(tokens[l], text[l], marks[l])
    ensures AllSay(Flatten(tokens), Flatten(text), Flatten(marks))
  {
    if text != [] {
      RowsSay(tokens[1..], text[1..], marks[1..]);
      SayTogether(tokens[0], text[0], marks[0], Flatten(tokens[1..]), Flatten(text[1..]), Flatten(marks[1..]));
    }
  }

  lemma SayTogether(t: seq<Token>, s: string, m: seq<Mark>, t': seq<Token>, s': string, m': seq<Mark>)
    requires AllSay(t, s, m) && AllSay(t', s', m')
    ensures AllSay(t + t', s + s', m + m')
  {
  }

  lemma LineSays(word: WordClass, line: string)
    ensures AllSay(LineTokens(word, line), line + "\n", LineMarks(word, line))
  {
    forall i | 0 <= i < |line| + 1
      ensures Says(LineTokens(word, line)[i], (line + "\n")[i], LineMarks(word, line)[i])
    {
      if i < |line| {
        TokenSays(word, line, i);
      }
    }
  }

  lemma TextSays(word: WordClass, lines: seq<string>)
    ensures AllSay(Tokens(word, lines), Text(lines), Marks(word, lines))
  {
    forall l | 0 <= l < |lines|
      ensures AllSay(TokenRows(word, lines)[l], TextRows(lines)[l], MarkRows(word, lines)[l])
    {
      LineSays(word, lines[l]);
    }
    RowsSay(TokenRows(word, lines), TextRows(lines), MarkRows(word, lines));
  }

  function Angles(n: nat): (r: seq<char>)
    ensures |r| == n && forall i :: 0 <= i < n ==> r[i] == '<'
  {
    seq(n, i => '<')
  }

  /** What the scan makes of a stack below a bracket: it is only met again when the bracket is closed. */
  function Under(below: seq<char>, v: Verdict): Verdict {
    match v
    case Pending(s) => Pending(below + s)
    case Found(at) => if below == [] then Found(at) else Pending(below)
    case Unclosed => Unclosed
  }

  lemma {:induction false} DropUnder(below: seq<char>, s: seq<char>, angle: char)
    requires Grounded(s, angle)
    ensures DropTop(below + s, angle) == below + DropTop(s, angle) && DropTop(s, angle) != []
  {
    if OnTop(s, angle) {
      var t := s[..|s| - 1];
      assert t != [] by {
        assert !IsAngle(s[0]);
      }
      assert (below + s)[..|below + s| - 1] == below + t;
      DropUnder(below, t, angle);
    }
  }

  lemma CloseUnder(below: seq<char>, s: seq<char>, c: char, angle: char, at: nat)
    requires Grounded(s, angle)
    ensures CloseBracket(below + s, c, angle, at) == Under(below, CloseBracket(s, c, angle, at))
  {
    var t := DropTop(s, angle);
    DropUnder(below, s, angle);
    assert (below + t)[|below + t| - 1] == t[|t| - 1];
    assert (below + t)[..|below + t| - 1] == below + t[..|t| - 1];
    if |t| == 1 {
      assert below + t[..0] == below;
    }
  }

  lemma StepUnder(below: seq<char>, s: seq<char>, t: Token, at: nat)
    requires Grounded(s, '<')
    ensures ForwardStep(below + s, t, at) == Under(below, ForwardStep(s, t, at))
  {
    match t
    case Open(c) => Regroup(below, s, [c]);
    case Less => Regroup(below, s, ['<']);
    case Close(c) => CloseUnder(below, s, c, '<', at);
    case Semicolon => DropUnder(below, s, '<');
    case Shift => PopUnder(below, s);
    case Greater => PopUnder(below, s);
    case _ =>
  }

  lemma PopUnder(below: seq<char>, s: seq<char>)
    requires Grounded(s, '<')
    ensures OnTop(below + s, '<') == OnTop(s, '<')
    ensures OnTop(s, '<') ==> |s| > 1 && (below + s)[..|below + s| - 1] == below + s[..|s| - 1]
  {
    assert !IsAngle(s[0]);
  }

  /** The scan that goes on behind a position found, with a stack. */
  function GoOn(tokens: seq<Token>, found: Option<nat>, below: seq<char>): Option<nat> {
    if found.Some? && found.value < |tokens| then Scan(tokens, found.value + 1, below) else None
  }

  lemma ScanStepIs(tokens: seq<Token>, k: nat, stack: seq<char>, v: Verdict)
    requires k < |tokens| && v == ForwardStep(stack, tokens[k], k)
    ensures Scan(tokens, k, stack)
         == match v case Pending(s) => Scan(tokens, k + 1, s) case Found(at) => Some(at) case Unclosed => None
    ensures v.Found? ==> v.pos == k
  {
  }

  /** The scan above a stack is the scan of the bracket alone, and then the scan with that stack. */
  lemma {:induction false} ScanUnder(tokens: seq<Token>, text: string, k: nat, below: seq<char>, s: seq<char>)
    requires k <= |text| && Grounded(s, '<') && TokensOf(tokens, text) && below != []
    ensures Scan(tokens, k, below + s) == GoOn(tokens, Scan(tokens, k, s), below)
    decreases |text| - k
  {
    if k < |text| {
      var v := ForwardStep(s, tokens[k], k);
      assert TokenOf(tokens[k], text[k]);
      StepUnder(below, s, tokens[k], k);
      ScanGoesOn(tokens, text, k, s);
      ScanStepIs(tokens, k, s, v);
      ScanStepIs(tokens, k, below + s, Under(below, v));
      if v.Pending? {
        ScanUnder(tokens, text, k + 1, below, v.stack);
      }
    }
  }

  lemma SaysTokensOf(tokens: seq<Token>, text: string, marks: seq<Mark>)
    requires AllSay(tokens, text, marks)
    ensures TokensOf(tokens, text)
  {
    forall k | 0 <= k < |text|
      ensures TokenOf(tokens[k], text[k])
    {
      assert Says(tokens[k], text[k], marks[k]);
    }
  }

  /** A bracket met with angles open. */
  lemma ScanPassesBracket(tokens: seq<Token>, text: string, marks: seq<Mark>, k: nat, angles: nat)
    requires k < |text| && AllSay(tokens, text, marks) && IsOpen(text[k])
    ensures Scan(tokens, k, Angles(angles))
         == match FindClose(text, k, [])
            case None => None
            case Some(q) => if angles == 0 then Some(q) else Scan(tokens, q + 1, Angles(angles))
  {
    var c := text[k];
    assert Says(tokens[k], c, marks[k]);
    SaysTokensOf(tokens, text, marks);
    LoneBracket(c);
    FindCloseStarts(text, k);
    ScanIsReference(tokens, text, k + 1, [c]);
    assert Scan(tokens, k, Angles(angles)) == Scan(tokens, k + 1, Angles(angles) + [c]);
    if angles == 0 {
      assert Angles(0) + [c] == [c];
    } else {
      ScanUnder(tokens, text, k + 1, Angles(angles), [c]);
    }
  }

  lemma AnglesStep(angles: nat)
    ensures Angles(angles) + ['<'] == Angles(angles + 1)
    ensures angles > 0 ==> Angles(angles)[..angles - 1] == Angles(angles - 1) && OnTop(Angles(angles), '<')
    ensures !OnTop(Angles(0), '<')
  {
  }

  lemma {:induction false} AnglesDrop(angles: nat)
    ensures DropTop(Angles(angles), '<') == []
  {
    AnglesStep(angles);
    if angles > 0 {
      AnglesDrop(angles - 1);
    }
  }

  /** With nothing but angles open, the scan of the tokens is the walk. */
  lemma {:induction false} ScanIsWalk(tokens: seq<Token>, text: string, marks: seq<Mark>, k: nat, angles: nat)
    requires k <= |text| && AllSay(tokens, text, marks)
    ensures Scan(tokens, k, Angles(angles)) == CloseAngle(text, marks, k, angles)
    decreases |text| - k
  {
    if k < |text| {
      assert Says(tokens[k], text[k], marks[k]);
      if IsOpen(text[k]) {
        ScanPassesBracket(tokens, text, marks, k, angles);
        var q := FindClose(text, k, []);
        if q.Some? && angles > 0 {
          ScanIsWalk(tokens, text, marks, q.value + 1, angles);
        }
      } else if IsClose(text[k]) || marks[k] == EndsStatement {
        AnglesDrop(angles);
      } else {
        WalkStep(tokens, text, marks, k, angles);
        var next := NextAngles(marks[k], angles);
        if next.Some? {
          ScanIsWalk(tokens, text, marks, k + 1, next.value);
        }
      }
    }
  }

  /** The angles open behind a position that is no bracket and ends no statement; None where the walk ends. */
  function NextAngles(m: Mark, angles: nat): Option<nat> {
    match m
    case OpensAngle => Some(angles + 1)
    case ClosesAngle => if angles == 1 then None else Some(if angles == 0 then 0 else angles - 1)
    case EndsShift => if angles == 1 then None else Some(if angles == 0 then 0 else angles - 1)
    case EndsStatement => None
    case EndsLine => if angles == 0 then None else Some(angles)
    case NoMark => Some(angles)
  }

  lemma WalkStep(tokens: seq<Token>, text: string, marks: seq<Mark>, k: nat, angles: nat)
    requires k < |text| && AllSay(tokens, text, marks)
    requires !IsOpen(text[k]) && !IsClose(text[k]) && marks[k] != EndsStatement
    ensures var next := NextAngles(marks[k], angles);
            && (next.Some? ==> ForwardStep(Angles(angles), tokens[k], k) == Pending(Angles(next.value)))
            && (next == None ==>
                  ForwardStep(Angles(angles), tokens[k], k) == if marks[k] == ClosesAngle then Found(k) else Unclosed)
  {
    assert Says(tokens[k], text[k], marks[k]);
    AnglesStep(angles);
    assert Angles(0) == [];
  }

  /**
   * For every opener, CloseExpression answers as the walk over the text: a `<` is closed by the `>` at
   * which as many angles have been closed as opened, second halves of `<<` closing one as well,
   * and brackets passed over with all that stands in them; it is not closed if a `;`, a closing
   * bracket, a bracket without a partner or the end comes first, or if a `<<` closes the last angle.
   */
  lemma CloseExpressionIsWalk(word: WordClass, lines: seq<string>, l: nat, p: nat)
    requires l < |lines| && p < |lines[l]| && Starts(lines[l], p)
    ensures At(lines, l, p) < |Text(lines)| == |Marks(word, lines)|
    ensures SameEnd(lines, Closing(word, lines, l, p), CloseAngle(Text(lines), Marks(word, lines), At(lines, l, p), 0))
  {
    TextAt(lines, l, p);
    TextSays(word, lines);
    ClosingIsOneScan(word, lines, l, p);
    assert Angles(0) == [];
    ScanIsWalk(Tokens(word, lines), Text(lines), Marks(word, lines), At(lines, l, p), 0);
  }

  /** What every call of CloseExpression answers: nothing for `<<`, `<=` and any character that opens nothing. */
  lemma CloseExpressionAnswers(word: WordClass, lines: seq<string>, l: nat, p: nat)
    requires l < |lines| && p < |lines[l]|
    ensures At(lines, l, p) < |Text(lines)| == |Marks(word, lines)|
    ensures var line := lines[l];
            SameEnd(lines, Closing(word, lines, l, p),
                    if IsOpen(line[p]) || (line[p] == '<' && (p + 1 < |line| ==> line[p + 1] != '<' && line[p + 1] != '='))
                    then CloseAngle(Text(lines), Marks(word, lines), At(lines, l, p), 0) else None)
  {
    TextAt(lines, l, p);
    TextSays(word, lines);
    if Starts(lines[l], p) {
      CloseExpressionIsWalk(word, lines, l, p);
    }
  }

  // ------------------------------------------------------------------ operator names

  lemma {:induction false} StripRightIs(s: string)
    ensures StripRight(s) <= s && (StripRight(s) == [] || !IsSpace(StripRight(s)[|StripRight(s)| - 1]))
  {
    if s != [] && IsSpace(s[|s| - 1]) {
      StripRightIs(s[..|s| - 1]);
    }
  }

  /** Does `operator` stand at i, at the start of a word, with nothing but white space behind it? */
  predicate OperatorAt(word: WordClass, s: string, i: nat) {
    && OccursAt(s, "operator", i) && (i > 0 ==> !word(s[i - 1]))
    && forall j :: i + 8 <= j < |s| ==> IsSpace(s[j])
  }

  lemma OperatorFound(word: WordClass, s: string)
    requires EndsInOperator(word, s)
    ensures exists i :: 0 <= i < |s| && OperatorAt(word, s, i)
  {
    var t := StripRight(s);
    var i := |t| - 8;
    assert s[i..i + 8] == t[i..];
    assert OperatorAt(word, s, i);
  }

  lemma OperatorEndsText(word: WordClass, s: string, i: nat)
    requires OperatorAt(word, s, i)
    ensures EndsInOperator(word, s)
  {
    var t := StripRight(s);
    StripRightIs(s);
    var name := s[i..i + 8];
    assert name == "operator" && s[i + 7] == name[7];
    assert !IsSpace(s[i + 7]);
    assert |t| == i + 8;
    assert t[i..] == name;
  }

  /** The search for an operator name, said without stripping. */
  lemma OperatorMeans(word: WordClass, s: string)
    ensures EndsInOperator(word, s) <==> exists i :: 0 <= i < |s| && OperatorAt(word, s, i)
  {
    if EndsInOperator(word, s) {
      OperatorFound(word, s);
    }
    if i :| 0 <= i < |s| && OperatorAt(word, s, i) {
      OperatorEndsText(word, s, i);
    }
  }
}
