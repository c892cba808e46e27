// The forward and backward bracket matchers of cpplint and the text extractor
// built on the same idea, with one reference matcher for all three.
module BracketMatching {
  import opened PyText
  import opened Wrappers

  // ---------------------------------------------------------------- characters

  predicate IsOpen(c: char) {
    c == '(' || c == '[' || c == '{'
  }

  predicate IsClose(c: char) {
    c == ')' || c == ']' || c == '}'
  }

  /** The bracket that pairs with c. */
  function Partner(c: char): char {
    match c
    case '(' => ')'
    case '[' => ']'
    case '{' => '}'
    case ')' => '('
    case ']' => '['
    case '}' => '{'
    case _ => c
  }

  function PartnerEach(s: seq<char>): (r: seq<char>)
    ensures |r| == |s|
    ensures forall i :: 0 <= i < |s| ==> r[i] == Partner(s[i])
  {
    seq(|s|, i requires 0 <= i < |s| => Partner(s[i]))
  }

  /** The search for `\boperator\s*$` in s. */
  predicate EndsInOperator(word: WordClass, s: string) {
    var t := StripRight(s);
    && |t| >= 8
    && t[|t| - 8..] == "operator"
    && (|t| == 8 || !word(t[|t| - 9]))
  }

  /** The match of `\s>=\s` at position i of line. */
  predicate SpacedGreaterEqual(line: string, i: nat) {
    && i + 4 <= |line|
    && IsSpace(line[i]) && line[i + 1] == '>' && line[i + 2] == '=' && IsSpace(line[i + 3])
  }

  lemma OperatorEndsWithoutBracket(word: WordClass, s: string)
    requires EndsInOperator(word, s)
    ensures s != [] && !IsOpen(s[|s| - 1]) && !IsClose(s[|s| - 1])
  {
    var t := StripRight(s);
    if |t| == |s| {
      assert s[|s| - 1] == t[|t| - 8..][7] == 'r';
    }
  }

  // ------------------------------------------------------- the reference matcher

  /**
   * The plain matcher: only the three kinds of bracket count. Reads text from
   * position k with the given open brackets pending and returns where the last
   * of them is closed.
   */
  function FindClose(text: string, k: nat, pending: seq<char>): (r: Option<nat>)
    requires k <= |text|
    ensures r.Some? ==> k <= r.value < |text| && IsClose(text[r.value])
    decreases |text| - k
  {
    if k == |text| then None
    else if IsOpen(text[k]) then FindClose(text, k + 1, pending + [text[k]])
    else if IsClose(text[k]) then
      if pending == [] || pending[|pending| - 1] != Partner(text[k]) then None
      else if |pending| == 1 then Some(k)
      else FindClose(text, k + 1, pending[..|pending| - 1])
    else FindClose(text, k + 1, pending)
  }

  /** The mirror image: reads text[..n] backwards from its end. */
  function FindOpen(text: string, n: nat, pending: seq<char>): (r: Option<nat>)
    requires n <= |text|
    ensures r.Some? ==> r.value < n && IsOpen(text[r.value])
    decreases n
  {
    if n == 0 then None
    else if IsClose(text[n - 1]) then FindOpen(text, n - 1, pending + [text[n - 1]])
    else if IsOpen(text[n - 1]) then
      if pending == [] || pending[|pending| - 1] != Partner(text[n - 1]) then None
      else if |pending| == 1 then Some(n - 1)
      else FindOpen(text, n - 1, pending[..|pending| - 1])
    else FindOpen(text, n - 1, pending)
  }

  /**
   * Rewinding: if reading forward from k closes everything pending at q, then
   * reading backward from q arrives at k with the partners of what was pending.
   */
  lemma {:induction false} BackwardRetraces(text: string, k: nat, pending: seq<char>, q: nat)
    requires k <= |text| && pending != []
    requires FindClose(text, k, pending) == Some(q)
    ensures FindOpen(text, q + 1, []) == FindOpen(text, k, PartnerEach(pending))
    decreases |text| - k
  {
    var back := PartnerEach(pending);
    if IsOpen(text[k]) {
      BackwardRetraces(text, k + 1, pending + [text[k]], q);
      assert PartnerEach(pending + [text[k]]) == back + [Partner(text[k])];
      assert (back + [Partner(text[k])])[..|back|] == back;
    } else if IsClose(text[k]) {
      assert back == back[..|back| - 1] + [text[k]];
      if |pending| > 1 {
        BackwardRetraces(text, k + 1, pending[..|pending| - 1], q);
        assert PartnerEach(pending[..|pending| - 1]) == back[..|back| - 1];
      } else {
        assert back[..|back| - 1] == [];
      }
    } else {
      BackwardRetraces(text, k + 1, pending, q);
    }
  }

  lemma {:induction false} ForwardRetraces(text: string, n: nat, pending: seq<char>, p: nat)
    requires n <= |text| && pending != []
    requires FindOpen(text, n, pending) == Some(p)
    ensures FindClose(text, p, []) == FindClose(text, n, PartnerEach(pending))
    decreases n
  {
    var ahead := PartnerEach(pending);
    if IsClose(text[n - 1]) {
      ForwardRetraces(text, n - 1, pending + [text[n - 1]], p);
      assert PartnerEach(pending + [text[n - 1]]) == ahead + [Partner(text[n - 1])];
      assert (ahead + [Partner(text[n - 1])])[..|ahead|] == ahead;
    } else if IsOpen(text[n - 1]) {
      assert ahead == ahead[..|ahead| - 1] + [text[n - 1]];
      if |pending| > 1 {
        ForwardRetraces(text, n - 1, pending[..|pending| - 1], p);
        assert PartnerEach(pending[..|pending| - 1]) == ahead[..|ahead| - 1];
      } else {
        assert ahead[..|ahead| - 1] == [];
      }
    } else {
      ForwardRetraces(text, n - 1, pending, p);
    }
  }

  lemma ClosedThenOpened(text: string, p: nat, q: nat)
    requires p < |text| && IsOpen(text[p])
    requires FindClose(text, p, []) == Some(q)
    ensures FindOpen(text, q + 1, []) == Some(p)
  {
    var open := [text[p]];
    assert [] + open == open;
    BackwardRetraces(text, p + 1, open, q);
    assert PartnerEach(open) == [Partner(text[p])];
  }

  lemma OpenedThenClosed(text: string, p: nat, q: nat)
    requires q < |text| && IsClose(text[q])
    requires FindOpen(text, q + 1, []) == Some(p)
    ensures FindClose(text, p, []) == Some(q)
  {
    var close := [text[q]];
    assert [] + close == close;
    ForwardRetraces(text, q, close, p);
    assert PartnerEach(close) == [Partner(text[q])];
  }

  /** The two reference matchers are inverse partial functions on bracket positions. */
  lemma ReferenceMatchersInvert(text: string, p: nat, q: nat)
    requires p < |text| && q < |text|
    requires IsOpen(text[p]) && IsClose(text[q])
    ensures FindClose(text, p, []) == Some(q) <==> FindOpen(text, q + 1, []) == Some(p)
  {
    if FindClose(text, p, []) == Some(q) {
      ClosedThenOpened(text, p, q);
    }
    if FindOpen(text, q + 1, []) == Some(p) {
      OpenedThenClosed(text, p, q);
    }
  }

  // --------------------------------------------------------- scanning one line

  /** What scanning one line comes to: a position, no partner at all, or a stack to carry on with. */
  datatype Verdict = Found(pos: nat) | Unclosed | Pending(stack: seq<char>)

  /** What one position of a line means to the forward scan. */
  datatype Token = Open(c: char) | Close(c: char) | Less | Shift | Greater | Semicolon | Other | LineEnd

  function ForwardToken(word: WordClass, line: string, i: nat): Token
    requires i < |line|
  {
    var c := line[i];
    if IsOpen(c) then Open(c)
    else if c == '<' then
      if i > 0 && line[i - 1] == '<' then Shift
      else if i > 0 && EndsInOperator(word, line[..i]) then Other
      else Less
    else if IsClose(c) then Close(c)
    else if c == '>' then
      if i > 0 && (line[i - 1] == '-' || EndsInOperator(word, line[..i - 1])) then Other else Greater
    else if c == ';' then Semicolon
    else Other
  }

  function DropTop(stack: seq<char>, c: char): (r: seq<char>)
    ensures r <= stack
    ensures r != [] ==> r[|r| - 1] != c
  {
    if stack != [] && stack[|stack| - 1] == c then DropTop(stack[..|stack| - 1], c) else stack
  }

  predicate OnTop(stack: seq<char>, c: char) {
    stack != [] && stack[|stack| - 1] == c
  }

  /** Pops the bracket that c pairs with, after discarding the angles above it. */
  function CloseBracket(stack: seq<char>, c: char, angle: char, at: nat): Verdict {
    var s := DropTop(stack, angle);
    if !OnTop(s, Partner(c)) then Unclosed
    else if |s| == 1 then Found(at)
    else Pending(s[..|s| - 1])
  }

  function EndStatement(stack: seq<char>, angle: char): Verdict {
    var s := DropTop(stack, angle);
    if s == [] then Unclosed else Pending(s)
  }

  /** The effect of one token; a partner found is reported as position at. */
  function ForwardStep(stack: seq<char>, t: Token, at: nat): Verdict {
    match t
    case Open(c) => Pending(stack + [c])
    case Less => Pending(stack + ['<'])
    case Shift =>
      if !OnTop(stack, '<') then Pending(stack)
      else if |stack| == 1 then Unclosed
      else Pending(stack[..|stack| - 1])
    case Close(c) => CloseBracket(stack, c, '<', at)
    case Greater =>
      if !OnTop(stack, '<') then Pending(stack)
      else if |stack| == 1 then Found(at)
      else Pending(stack[..|stack| - 1])
    case Semicolon => EndStatement(stack, '<')
    case Other => Pending(stack)
    case LineEnd => if stack == [] then Unclosed else Pending(stack)
  }

  function ForwardLine(word: WordClass, line: string, i: nat, stack: seq<char>): Verdict
    requires i <= |line|
    decreases |line| - i
  {
    if i == |line| then Pending(stack)
    else
      match ForwardStep(stack, ForwardToken(word, line, i), i + 1)
      case Pending(s) => ForwardLine(word, line, i + 1, s)
      case v => v
  }

  method FindEndOfExpressionInLine(word: WordClass, line: string, startpos: nat, stack0: seq<char>)
    returns (v: Verdict)
    requires startpos <= |line|
    ensures v == ForwardLine(word, line, startpos, stack0)
  {
    var stack := stack0;
    for i := startpos to |line|
      invariant ForwardLine(word, line, startpos, stack0) == ForwardLine(word, line, i, stack)
    {
      var c := line[i];
      if IsOpen(c) {
        stack := stack + [c];
      } else if c == '<' {
        if i > 0 && line[i - 1] == '<' {
          if stack != [] && stack[|stack| - 1] == '<' {
            stack := stack[..|stack| - 1];
            if stack == [] {
              return Unclosed;
            }
          }
        } else if i > 0 && EndsInOperator(word, line[..i]) {
          continue;
        } else {
          stack := stack + ['<'];
        }
      } else if IsClose(c) {
        stack := PopAngles(stack, '<');
        if stack == [] {
          return Unclosed;
        }
        if stack[|stack| - 1] == Partner(c) {
          stack := stack[..|stack| - 1];
          if stack == [] {
            return Found(i + 1);
          }
        } else {
          return Unclosed;
        }
      } else if c == '>' {
        if i > 0 && (line[i - 1] == '-' || EndsInOperator(word, line[..i - 1])) {
          continue;
        }
        if stack != [] && stack[|stack| - 1] == '<' {
          stack := stack[..|stack| - 1];
          if stack == [] {
            return Found(i + 1);
          }
        }
      } else if c == ';' {
        stack := PopAngles(stack, '<');
        if stack == [] {
          return Unclosed;
        }
      }
    }
    v := Pending(stack);
  }

  method PopAngles(stack0: seq<char>, angle: char) returns (stack: seq<char>)
    ensures stack == DropTop(stack0, angle)
  {
    stack := stack0;
    while stack != [] && stack[|stack| - 1] == angle
      invariant DropTop(stack, angle) == DropTop(stack0, angle)
    {
      stack := stack[..|stack| - 1];
    }
  }

  /** The effect of position i on the backward scan, and how much of the line is then left. */
  function BackwardStep(word: WordClass, line: string, i: nat, stack: seq<char>): (r: (Verdict, nat))
    requires i < |line|
    ensures r.1 <= i
  {
    var c := line[i];
    if IsClose(c) then (Pending(stack + [c]), i)
    else if c == '>' then
      if SkipsGreater(word, line, i) then (Pending(stack), i - 1) else (Pending(stack + ['>']), i)
    else if c == '<' then
      if i > 0 && line[i - 1] == '<' then (Pending(stack), i - 1)
      else if !OnTop(stack, '>') then (Pending(stack), i)
      else if |stack| == 1 then (Found(i), i)
      else (Pending(stack[..|stack| - 1]), i)
    else if IsOpen(c) then (CloseBracket(stack, c, '>', i), i)
    else if c == ';' then (EndStatement(stack, '>'), i)
    else (Pending(stack), i)
  }

  /** Scans line[..n] from its end. */
  function BackwardLine(word: WordClass, line: string, n: nat, stack: seq<char>): Verdict
    requires n <= |line|
    decreases n
  {
    if n == 0 then Pending(stack)
    else
      var (v, left) := BackwardStep(word, line, n - 1, stack);
      if v.Pending? then BackwardLine(word, line, left, v.stack) else v
  }

  /** The `->`, ` >= ` and `operator>` cases, in which the character before is passed over as well. */
  predicate SkipsGreater(word: WordClass, line: string, i: nat)
    requires i < |line|
  {
    i > 0 &&
    (|| line[i - 1] == '-'
     || SpacedGreaterEqual(line, i - 1)
     || EndsInOperator(word, line[..i]))
  }

  method FindStartOfExpressionInLine(word: WordClass, line: string, endpos: int, stack0: seq<char>)
    returns (v: Verdict)
    requires -1 <= endpos < |line|
    ensures v == BackwardLine(word, line, endpos + 1, stack0)
  {
    var stack := stack0;
    var i := endpos;
    while i >= 0
      invariant -1 <= i < |line|
      invariant BackwardLine(word, line, endpos + 1, stack0) == BackwardLine(word, line, i + 1, stack)
    {
      var c := line[i];
      if IsClose(c) {
        stack := stack + [c];
      } else if c == '>' {
        if i > 0 && (line[i - 1] == '-' || SpacedGreaterEqual(line, i - 1) || EndsInOperator(word, line[..i])) {
          i := i - 1;
        } else {
          stack := stack + ['>'];
        }
      } else if c == '<' {
        if i > 0 && line[i - 1] == '<' {
          i := i - 1;
        } else if stack != [] && stack[|stack| - 1] == '>' {
          stack := stack[..|stack| - 1];
          if stack == [] {
            return Found(i);
          }
        }
      } else if IsOpen(c) {
        stack := PopAngles(stack, '>');
        if stack == [] {
          return Unclosed;
        }
        if stack[|stack| - 1] == Partner(c) {
          stack := stack[..|stack| - 1];
          if stack == [] {
            return Found(i);
          }
        } else {
          return Unclosed;
        }
      } else if c == ';' {
        stack := PopAngles(stack, '>');
        if stack == [] {
          return Unclosed;
        }
      }
      i := i - 1;
    }
    v := Pending(stack);
  }

  // ------------------------------------------------------- scanning many lines

  /** A line and a position in it. */
  datatype Place = Place(line: nat, pos: nat)

  /** Where CloseExpression ends up from here, or None. */
  function Closing(word: WordClass, lines: seq<string>, l: nat, p: nat): Option<Place>
    requires l < |lines| && p < |lines[l]|
  {
    if Starts(lines[l], p) then ClosingFrom(word, lines, l, ForwardLine(word, lines[l], p, [])) else None
  }

  /** Bracket or angle, but not the first half of `<<` or `<=`. */
  predicate Starts(line: string, p: nat)
    requires p < |line|
  {
    (IsOpen(line[p]) || line[p] == '<') && !DoubledAngle(line, p)
  }

  /** The match of `<[<=]` at position p. */
  predicate DoubledAngle(line: string, p: nat)
    requires p < |line|
  {
    line[p] == '<' && p + 1 < |line| && (line[p + 1] == '<' || line[p + 1] == '=')
  }

  function ClosingFrom(word: WordClass, lines: seq<string>, l: nat, v: Verdict): Option<Place>
    requires l < |lines|
    decreases |lines| - l
  {
    match v
    case Found(e) => Some(Place(l, e))
    case Unclosed => None
    case Pending(s) =>
      if s == [] || l + 1 == |lines| then None
      else ClosingFrom(word, lines, l + 1, ForwardLine(word, lines[l + 1], 0, s))
  }

  method CloseExpression(word: WordClass, elided: seq<string>, linenum0: nat, pos: nat)
    returns (line: string, endLine: nat, endPos: int)
    requires linenum0 < |elided| && pos < |elided[linenum0]|
    ensures match Closing(word, elided, linenum0, pos)
            case Some(place) => place.line == endLine && place.pos == endPos && endLine < |elided| && line == elided[endLine]
            case None => endLine == |elided| && endPos == -1 && line in elided
  {
    var linenum := linenum0;
    line := elided[linenum];
    if !(IsOpen(line[pos]) || line[pos] == '<') || DoubledAngle(line, pos) {
      return line, |elided|, -1;
    }
    var v := FindEndOfExpressionInLine(word, line, pos, []);
    if v.Found? {
      return line, linenum, v.pos;
    }
    while v.Pending? && v.stack != [] && linenum < |elided| - 1
      invariant linenum < |elided| && line == elided[linenum] && !v.Found?
      invariant Closing(word, elided, linenum0, pos) == ClosingFrom(word, elided, linenum, v)
      decreases |elided| - linenum
    {
      linenum := linenum + 1;
      line := elided[linenum];
      v := FindEndOfExpressionInLine(word, line, 0, v.stack);
      if v.Found? {
        return line, linenum, v.pos;
      }
    }
    return line, |elided|, -1;
  }

  /** Where ReverseCloseExpression ends up from here, or None. */
  function Opening(word: WordClass, lines: seq<string>, l: nat, p: nat): Option<Place>
    requires l < |lines| && p < |lines[l]|
  {
    if IsClose(lines[l][p]) || lines[l][p] == '>' then OpeningFrom(word, lines, l, BackwardLine(word, lines[l], p + 1, [])) else None
  }

  function OpeningFrom(word: WordClass, lines: seq<string>, l: nat, v: Verdict): Option<Place>
    requires l < |lines|
    decreases l
  {
    match v
    case Found(e) => Some(Place(l, e))
    case Unclosed => None
    case Pending(s) =>
      if s == [] || l == 0 then None
      else OpeningFrom(word, lines, l - 1, BackwardLine(word, lines[l - 1], |lines[l - 1]|, s))
  }

  method ReverseCloseExpression(word: WordClass, elided: seq<string>, linenum0: nat, pos: nat)
    returns (line: string, startLine: nat, startPos: int)
    requires linenum0 < |elided| && pos < |elided[linenum0]|
    ensures match Opening(word, elided, linenum0, pos)
            case Some(place) => place.line == startLine && place.pos == startPos && startLine < |elided| && line == elided[startLine]
            case None => startLine == 0 && startPos == -1 && line in elided
  {
    var linenum := linenum0;
    line := elided[linenum];
    if !(IsClose(line[pos]) || line[pos] == '>') {
      return line, 0, -1;
    }
    var v := FindStartOfExpressionInLine(word, line, pos, []);
    if v.Found? {
      return line, linenum, v.pos;
    }
    while v.Pending? && v.stack != [] && linenum > 0
      invariant linenum < |elided| && line == elided[linenum] && !v.Found?
      invariant Opening(word, elided, linenum0, pos) == OpeningFrom(word, elided, linenum, v)
      decreases linenum
    {
      linenum := linenum - 1;
      line := elided[linenum];
      v := FindStartOfExpressionInLine(word, line, |line| - 1, v.stack);
      if v.Found? {
        return line, linenum, v.pos;
      }
    }
    return line, 0, -1;
  }

  // --------------------------------------------------------- the text as a whole

  function Flatten<T>(rows: seq<seq<T>>): seq<T> {
    if rows == [] then [] else rows[0] + Flatten(rows[1..])
  }

  /** The flat position at which row l starts. */
  function Offset<T>(rows: seq<seq<T>>, l: nat): nat
    requires l <= |rows|
  {
    if l == 0 then 0 else |rows[0]| + Offset(rows[1..], l - 1)
  }

  lemma {:induction false} FlattenAt<T>(rows: seq<seq<T>>, l: nat, i: nat)
    requires l < |rows| && i < |rows[l]|
    ensures Offset(rows, l) + i < |Flatten(rows)|
    ensures Flatten(rows)[Offset(rows, l) + i] == rows[l][i]
  {
    if l > 0 {
      FlattenAt(rows[1..], l - 1, i);
    }
  }

  lemma {:induction false} OffsetNext<T>(rows: seq<seq<T>>, l: nat)
    requires l < |rows|
    ensures Offset(rows, l + 1) == Offset(rows, l) + |rows[l]|
    ensures Offset(rows, l + 1) <= |Flatten(rows)|
    ensures l + 1 == |rows| ==> Offset(rows, l + 1) == |Flatten(rows)|
  {
    if l > 0 {
      OffsetNext(rows[1..], l - 1);
    } else {
      assert Offset(rows[1..], 0) == 0;
      assert |rows| == 1 ==> Flatten(rows[1..]) == [];
    }
  }

  lemma {:induction false} OffsetMonotone<T>(rows: seq<seq<T>>, l: nat, m: nat)
    requires l < m <= |rows|
    ensures Offset(rows, l) + |rows[l]| <= Offset(rows, m) <= |Flatten(rows)|
    decreases m
  {
    OffsetNext(rows, m - 1);
    if l < m - 1 {
      OffsetMonotone(rows, l, m - 1);
    }
  }

  lemma {:induction false} SameOffsets<S, T>(a: seq<seq<S>>, b: seq<seq<T>>, l: nat)
    requires |a| == |b| && l <= |a|
    requires forall i :: 0 <= i < |a| ==> |a[i]| == |b[i]|
    ensures Offset(a, l) == Offset(b, l)
  {
    if l > 0 {
      SameOffsets(a[1..], b[1..], l - 1);
    }
  }

  /** Every line with its newline. */
  function TextRows(lines: seq<string>): (r: seq<string>)
    ensures |r| == |lines|
  {
    seq(|lines|, l requires 0 <= l < |lines| => lines[l] + "\n")
  }

  function Text(lines: seq<string>): string {
    Flatten(TextRows(lines))
  }

  /** The position of a place in Text(lines). */
  function At(lines: seq<string>, l: nat, p: nat): nat
    requires l < |lines|
  {
    Offset(TextRows(lines), l) + p
  }

  lemma TextAt(lines: seq<string>, l: nat, p: nat)
    requires l < |lines| && p <= |lines[l]|
    ensures At(lines, l, p) < |Text(lines)|
    ensures Text(lines)[At(lines, l, p)] == if p < |lines[l]| then lines[l][p] else '\n'
    ensures l + 1 < |lines| ==> At(lines, l, |lines[l]|) + 1 == At(lines, l + 1, 0)
    ensures l + 1 == |lines| ==> At(lines, l, |lines[l]|) + 1 == |Text(lines)|
    ensures l == 0 ==> At(lines, l, 0) == 0
  {
    FlattenAt(TextRows(lines), l, p);
    OffsetNext(TextRows(lines), l);
  }

  lemma PlacesAreDistinct(lines: seq<string>, l: nat, p: nat, m: nat, q: nat)
    requires l < |lines| && p <= |lines[l]| && m < |lines| && q <= |lines[m]|
    requires At(lines, l, p) == At(lines, m, q)
    ensures l == m && p == q
  {
    if l < m {
      OffsetMonotone(TextRows(lines), l, m);
    } else if m < l {
      OffsetMonotone(TextRows(lines), m, l);
    }
  }

  // ------------------------------------- one scan over the concatenated tokens

  function TokenRows(word: WordClass, lines: seq<string>): (r: seq<seq<Token>>)
    ensures |r| == |lines|
  {
    seq(|lines|, l requires 0 <= l < |lines| => LineTokens(word, lines[l]))
  }

  function LineTokens(word: WordClass, line: string): (r: seq<Token>)
    ensures |r| == |line| + 1
  {
    seq(|line|, i requires 0 <= i < |line| => ForwardToken(word, line, i)) + [LineEnd]
  }

  function Tokens(word: WordClass, lines: seq<string>): seq<Token> {
    Flatten(TokenRows(word, lines))
  }

  /** One pass over all tokens from position k; the result is the position of the closing token. */
  function Scan(tokens: seq<Token>, k: nat, stack: seq<char>): Option<nat>
    requires k <= |tokens|
    decreases |tokens| - k
  {
    if k == |tokens| then None
    else
      match ForwardStep(stack, tokens[k], k)
      case Pending(s) => Scan(tokens, k + 1, s)
      case Found(at) => Some(at)
      case Unclosed => None
  }

  lemma TokensAt(word: WordClass, lines: seq<string>, l: nat, p: nat)
    requires l < |lines| && p <= |lines[l]|
    ensures At(lines, l, p) < |Tokens(word, lines)|
    ensures Tokens(word, lines)[At(lines, l, p)] == LineTokens(word, lines[l])[p]
    ensures l + 1 == |lines| ==> At(lines, l, |lines[l]|) + 1 == |Tokens(word, lines)|
  {
    var rows := TokenRows(word, lines);
    SameOffsets(TextRows(lines), rows, l);
    FlattenAt(rows, l, p);
    OffsetNext(rows, l);
  }

  lemma {:induction false} LineScanIsScan(word: WordClass, lines: seq<string>, l: nat, i: nat, stack: seq<char>)
    requires l < |lines| && i <= |lines[l]|
    ensures At(lines, l, |lines[l]|) < |Tokens(word, lines)|
    ensures var whole := Scan(Tokens(word, lines), At(lines, l, i), stack);
            match ForwardLine(word, lines[l], i, stack)
            case Found(e) => i < e <= |lines[l]| && whole == Some(At(lines, l, e - 1))
            case Unclosed => whole == None
            case Pending(s) => whole == Scan(Tokens(word, lines), At(lines, l, |lines[l]|), s)
    decreases |lines[l]| - i
  {
    TokensAt(word, lines, l, |lines[l]|);
    if i < |lines[l]| {
      TokensAt(word, lines, l, i);
      var step := ForwardStep(stack, ForwardToken(word, lines[l], i), i + 1);
      if step.Pending? {
        LineScanIsScan(word, lines, l, i + 1, step.stack);
      }
    }
  }

  /** A place just behind a character found and a position of the text found are the same, or neither is found. */
  predicate SameEnd(lines: seq<string>, place: Option<Place>, whole: Option<nat>) {
    match place
    case Some(end) =>
      && end.line < |lines| && 0 < end.pos <= |lines[end.line]|
      && whole == Some(At(lines, end.line, end.pos - 1))
    case None => whole == None
  }

  /** Carrying the stack from line to line is the same as one scan of all the tokens. */
  lemma {:induction false} ClosingFromIsScan(word: WordClass, lines: seq<string>, l: nat, i: nat, stack: seq<char>)
    requires l < |lines| && i <= |lines[l]|
    ensures At(lines, l, i) < |Tokens(word, lines)|
    ensures var whole := Scan(Tokens(word, lines), At(lines, l, i), stack);
            SameEnd(lines, ClosingFrom(word, lines, l, ForwardLine(word, lines[l], i, stack)), whole)
    decreases |lines| - l
  {
    TokensAt(word, lines, l, i);
    TokensAt(word, lines, l, |lines[l]|);
    LineScanIsScan(word, lines, l, i, stack);
    var v := ForwardLine(word, lines[l], i, stack);
    if v.Pending? && v.stack != [] && l + 1 < |lines| {
      TextAt(lines, l, |lines[l]|);
      ClosingFromIsScan(word, lines, l + 1, 0, v.stack);
    }
  }

  /** Whatever the opener, an angle included, CloseExpression answers as one scan of the tokens of the whole text. */
  lemma ClosingIsOneScan(word: WordClass, lines: seq<string>, l: nat, p: nat)
    requires l < |lines| && p < |lines[l]| && Starts(lines[l], p)
    ensures At(lines, l, p) < |Tokens(word, lines)|
    ensures var whole := Scan(Tokens(word, lines), At(lines, l, p), []);
            SameEnd(lines, Closing(word, lines, l, p), whole)
  {
    ClosingFromIsScan(word, lines, l, p, []);
  }

  // ----------------------------------------------- angles never disturb brackets

  predicate IsAngle(c: char) {
    c == '<' || c == '>'
  }

  /** A stack without its angles. */
  function Brackets(stack: seq<char>): seq<char> {
    if stack == [] then []
    else
      var rest := Brackets(stack[..|stack| - 1]);
      var top := stack[|stack| - 1];
      if IsAngle(top) then rest else rest + [top]
  }

  lemma BracketsPush(stack: seq<char>, c: char)
    ensures Brackets(stack + [c]) == if IsAngle(c) then Brackets(stack) else Brackets(stack) + [c]
  {
    assert (stack + [c])[..|stack|] == stack;
  }

  lemma {:induction false} BracketsDrop(stack: seq<char>, angle: char)
    requires IsAngle(angle)
    ensures Brackets(DropTop(stack, angle)) == Brackets(stack)
  {
    if OnTop(stack, angle) {
      BracketsDrop(stack[..|stack| - 1], angle);
    }
  }

  /** A stack as the scan for one bracket builds it: a bracket at the bottom, one kind of angle at most. */
  predicate Grounded(stack: seq<char>, angle: char) {
    && IsAngle(angle)
    && stack != [] && !IsAngle(stack[0])
    && forall i :: 0 <= i < |stack| && IsAngle(stack[i]) ==> stack[i] == angle
  }

  lemma {:induction false} BracketsOfGrounded(stack: seq<char>, angle: char)
    requires Grounded(stack, angle)
    ensures Brackets(stack) != []
    ensures |stack| == 1 ==> Brackets(stack) == stack
    ensures |stack| > 1 && !IsAngle(stack[|stack| - 1]) ==> |Brackets(stack)| > 1
  {
    if |stack| > 1 {
      BracketsOfGrounded(stack[..|stack| - 1], angle);
    } else {
      assert Brackets(stack[..0]) == [];
      assert stack == [stack[0]];
    }
  }

  lemma DropKeepsGround(stack: seq<char>, angle: char)
    requires Grounded(stack, angle)
    ensures var s := DropTop(stack, angle);
            && Grounded(s, angle) && !IsAngle(s[|s| - 1])
            && Brackets(s) == Brackets(stack) != []
            && Brackets(s)[|Brackets(s)| - 1] == s[|s| - 1]
  {
    var s := DropTop(stack, angle);
    BracketsDrop(stack, angle);
    BracketsOfGrounded(stack, angle);
    assert s != [] by {
      assert Brackets([]) == [];
    }
    assert s[|s| - 1] == stack[|s| - 1];
  }

  /** Closing a bracket on the mixed stack is closing it on the bracket stack. */
  lemma CloseOnBrackets(stack: seq<char>, c: char, angle: char, at: nat)
    requires Grounded(stack, angle)
    ensures var b := Brackets(stack);
            && b != []
            && match CloseBracket(stack, c, angle, at)
               case Unclosed => b[|b| - 1] != Partner(c)
               case Found(p) => p == at && b == [Partner(c)]
               case Pending(s) =>
                 |b| > 1 && b[|b| - 1] == Partner(c) && Grounded(s, angle) && Brackets(s) == b[..|b| - 1]
  {
    var s := DropTop(stack, angle);
    DropKeepsGround(stack, angle);
    BracketsOfGrounded(s, angle);
  }

  /** A token that is no bracket leaves the brackets of a grounded stack alone and never ends the scan. */
  lemma OtherTokensKeepBrackets(stack: seq<char>, t: Token, at: nat)
    requires Grounded(stack, '<')
    requires !t.Open? && !t.Close?
    ensures var v := ForwardStep(stack, t, at);
            v.Pending? && Grounded(v.stack, '<') && Brackets(v.stack) == Brackets(stack)
  {
    match t
    case Less => BracketsPush(stack, '<');
    case Semicolon => DropKeepsGround(stack, '<');
    case _ =>
  }

  /** The forward scan of all tokens is the plain matcher on the text, whatever angles are pending. */
  lemma {:induction false} ScanIsReference(tokens: seq<Token>, text: string, k: nat, stack: seq<char>)
    requires k <= |text| && Grounded(stack, '<') && TokensOf(tokens, text)
    ensures Scan(tokens, k, stack) == FindClose(text, k, Brackets(stack))
    decreases |text| - k
  {
    if k < |text| {
      var t := tokens[k];
      assert TokenOf(t, text[k]);
      ScanGoesOn(tokens, text, k, stack);
      var v := ForwardStep(stack, t, k);
      if v.Pending? {
        ScanIsReference(tokens, text, k + 1, v.stack);
      }
    }
  }

  /** One token, for the scan and for the plain matcher on what the stack holds besides angles. */
  lemma ScanGoesOn(tokens: seq<Token>, text: string, k: nat, stack: seq<char>)
    requires k < |text| == |tokens| && Grounded(stack, '<') && TokenOf(tokens[k], text[k])
    ensures var v := ForwardStep(stack, tokens[k], k);
            && (v.Pending? ==> Grounded(v.stack, '<'))
            && FindClose(text, k, Brackets(stack))
            == match v
               case Pending(s) => FindClose(text, k + 1, Brackets(s))
               case Found(at) => Some(at)
               case Unclosed => None
  {
    var t := tokens[k];
    match t {
      case Open(c) => BracketsPush(stack, c);
      case Close(c) => CloseOnBrackets(stack, c, '<', k);
      case _ => OtherTokensKeepBrackets(stack, t, k);
    }
  }

  predicate TokenOf(t: Token, c: char) {
    && (IsOpen(c) ==> t == Open(c))
    && (IsClose(c) ==> t == Close(c))
    && (!IsOpen(c) && !IsClose(c) ==> !t.Open? && !t.Close?)
  }

  predicate TokensOf(tokens: seq<Token>, text: string) {
    |tokens| == |text| && forall k :: 0 <= k < |text| ==> TokenOf(tokens[k], text[k])
  }

  lemma TokensMatchText(word: WordClass, lines: seq<string>)
    ensures TokensOf(Tokens(word, lines), Text(lines))
  {
    RowsMatch(TokenRows(word, lines), TextRows(lines));
  }

  lemma {:induction false} RowsMatch(tokens: seq<seq<Token>>, text: seq<string>)
    requires |tokens| == |text|
    requires forall l :: 0 <= l < |text| ==> |tokens[l]| == |text[l]|
    requires forall l, i :: 0 <= l < |text| && 0 <= i < |text[l]| ==> TokenOf(tokens[l][i], text[l][i])
    ensures |Flatten(tokens)| == |Flatten(text)|
    ensures forall k :: 0 <= k < |Flatten(text)| ==> TokenOf(Flatten(tokens)[k], Flatten(text)[k])
  {
    if text != [] {
      RowsMatch(tokens[1..], text[1..]);
    }
  }

  lemma ScanStarts(tokens: seq<Token>, k: nat, c: char)
    requires k < |tokens| && tokens[k] == Open(c)
    ensures Scan(tokens, k, []) == Scan(tokens, k + 1, [c])
  {
    assert [] + [c] == [c];
  }

  lemma FindCloseStarts(text: string, k: nat)
    requires k < |text| && IsOpen(text[k])
    ensures FindClose(text, k, []) == FindClose(text, k + 1, [text[k]])
  {
    assert [] + [text[k]] == [text[k]];
  }

  lemma LoneBracket(c: char)
    requires IsOpen(c) || IsClose(c)
    ensures Grounded([c], '<') && Grounded([c], '>') && Brackets([c]) == [c]
  {
    assert [] + [c] == [c];
    BracketsPush([], c);
  }

  lemma OpensAt(word: WordClass, lines: seq<string>, l: nat, p: nat)
    requires l < |lines| && p < |lines[l]| && IsOpen(lines[l][p])
    ensures At(lines, l, p) < |Tokens(word, lines)| && Tokens(word, lines)[At(lines, l, p)] == Open(lines[l][p])
    ensures Starts(lines[l], p)
  {
    TokensAt(word, lines, l, p);
  }

  /**
   * For a bracket, CloseExpression is the plain three-bracket matcher on the whole text:
   * angles, shifts, arrows, operator names and semicolons never change its answer.
   */
  lemma CloseExpressionIsReference(word: WordClass, lines: seq<string>, l: nat, p: nat)
    requires l < |lines| && p < |lines[l]| && IsOpen(lines[l][p])
    ensures At(lines, l, p) < |Text(lines)|
    ensures SameEnd(lines, Closing(word, lines, l, p), FindClose(Text(lines), At(lines, l, p), []))
  {
    var c, k := lines[l][p], At(lines, l, p);
    TextAt(lines, l, p);
    OpensAt(word, lines, l, p);
    ClosingIsOneScan(word, lines, l, p);
    ScanStarts(Tokens(word, lines), k, c);
    LoneBracket(c);
    TokensMatchText(word, lines);
    ScanIsReference(Tokens(word, lines), Text(lines), k + 1, [c]);
    FindCloseStarts(Text(lines), k);
  }

  // ------------------------------------------------------------ the way back

  /** Skipping two characters backwards never skips a bracket. */
  lemma SkippedIsNoBracket(word: WordClass, line: string, i: nat)
    requires 0 < i < |line|
    requires SkipsGreater(word, line, i) || line[i - 1] == '<'
    ensures !IsOpen(line[i - 1]) && !IsClose(line[i - 1])
  {
    if SkipsGreater(word, line, i) && EndsInOperator(word, line[..i]) {
      OperatorEndsWithoutBracket(word, line[..i]);
    }
  }

  /** The text holds line from position base on. */
  predicate LineIn(text: string, base: nat, line: string) {
    && base + |line| <= |text|
    && forall i :: 0 <= i < |line| ==> text[base + i] == line[i]
  }

  lemma LineInText(lines: seq<string>, l: nat)
    requires l < |lines|
    ensures LineIn(Text(lines), At(lines, l, 0), lines[l])
  {
    TextAt(lines, l, |lines[l]|);
    forall i | 0 <= i < |lines[l]|
      ensures Text(lines)[At(lines, l, 0) + i] == lines[l][i]
    {
      TextAt(lines, l, i);
    }
  }

  /** Passing over a character that is no bracket. */
  lemma FindOpenPasses(text: string, n: nat, pending: seq<char>)
    requires 0 < n <= |text| && !IsOpen(text[n - 1]) && !IsClose(text[n - 1])
    ensures FindOpen(text, n, pending) == FindOpen(text, n - 1, pending)
  {
  }

  /** An angle, a semicolon or any other character leaves the brackets of a grounded stack alone. */
  lemma OtherStepKeepsBrackets(word: WordClass, line: string, i: nat, stack: seq<char>)
    requires i < |line| && Grounded(stack, '>') && !IsOpen(line[i]) && !IsClose(line[i])
    ensures var (v, left) := BackwardStep(word, line, i, stack);
            && v.Pending? && Grounded(v.stack, '>') && Brackets(v.stack) == Brackets(stack)
            && (left < i ==> left == i - 1 && !IsOpen(line[i - 1]) && !IsClose(line[i - 1]))
  {
    var c := line[i];
    if c == '>' {
      if SkipsGreater(word, line, i) {
        SkippedIsNoBracket(word, line, i);
      } else {
        BracketsPush(stack, c);
      }
    } else if c == ';' {
      DropKeepsGround(stack, '>');
    } else if c == '<' && OnTop(stack, '>') {
      BracketsOfGrounded(stack, '>');
    }
  }

  /** What is found backwards in text before position n is what the verdict v, with left characters to go, says. */
  predicate Agrees(text: string, base: nat, n: nat, whole: Option<nat>, v: Verdict, left: nat)
    requires base + left <= |text|
  {
    match v
    case Found(e) => e < n && whole == Some(base + e)
    case Unclosed => whole == None
    case Pending(s) => Grounded(s, '>') && whole == FindOpen(text, base + left, Brackets(s))
  }

  lemma BackwardOpenIsReference(text: string, base: nat, i: nat, stack: seq<char>)
    requires base + i < |text| && IsOpen(text[base + i]) && Grounded(stack, '>')
    ensures Agrees(text, base, i + 1, FindOpen(text, base + i + 1, Brackets(stack)),
                   CloseBracket(stack, text[base + i], '>', i), i)
  {
    CloseOnBrackets(stack, text[base + i], '>', i);
  }

  /** One backward step on a line is one or two steps of the plain matcher on the text. */
  lemma BackwardStepIsReference(
    word: WordClass, line: string, i: nat, stack: seq<char>, text: string, base: nat)
    returns (v: Verdict, left: nat)
    requires i < |line| && Grounded(stack, '>') && LineIn(text, base, line)
    ensures BackwardStep(word, line, i, stack) == (v, left) && left <= i
    ensures Agrees(text, base, i + 1, FindOpen(text, base + i + 1, Brackets(stack)), v, left)
  {
    var c, step := line[i], BackwardStep(word, line, i, stack);
    v, left := step.0, step.1;
    assert text[base + i] == c;
    if IsOpen(c) {
      BackwardOpenIsReference(text, base, i, stack);
    } else if IsClose(c) {
      BracketsPush(stack, c);
    } else {
      OtherStepKeepsBrackets(word, line, i, stack);
      FindOpenPasses(text, base + i + 1, Brackets(stack));
      if left < i {
        assert text[base + (i - 1)] == line[i - 1];
        FindOpenPasses(text, base + i, Brackets(stack));
      }
    }
  }

  lemma AgreesChains(text: string, base: nat, n: nat, whole: Option<nat>, stack: seq<char>, left: nat, v: Verdict)
    requires base + left <= |text| && left <= n
    requires Agrees(text, base, n, whole, Pending(stack), left)
    requires Agrees(text, base, left, FindOpen(text, base + left, Brackets(stack)), v, 0)
    ensures Agrees(text, base, n, whole, v, 0)
  {
  }

  /** A line is read by its first step and the rest of the line. */
  lemma BackwardLineGoesOn(word: WordClass, line: string, n: nat, stack: seq<char>, text: string, base: nat)
    returns (v: Verdict, left: nat)
    requires 0 < n <= |line| && Grounded(stack, '>') && LineIn(text, base, line)
    ensures left < n && Agrees(text, base, n, FindOpen(text, base + n, Brackets(stack)), v, left)
    ensures BackwardLine(word, line, n, stack) == if v.Pending? then BackwardLine(word, line, left, v.stack) else v
  {
    v, left := BackwardStepIsReference(word, line, n - 1, stack, text, base);
    BackwardLineStep(word, line, n, stack, v, left);
  }

  lemma BackwardLineStep(word: WordClass, line: string, n: nat, stack: seq<char>, v: Verdict, left: nat)
    requires 0 < n <= |line| && BackwardStep(word, line, n - 1, stack) == (v, left)
    ensures left < n
    ensures BackwardLine(word, line, n, stack) == if v.Pending? then BackwardLine(word, line, left, v.stack) else v
  {
  }

  lemma {:induction false} BackwardLineIsReference(
    word: WordClass, line: string, n: nat, stack: seq<char>, text: string, base: nat)
    requires n <= |line| && Grounded(stack, '>') && LineIn(text, base, line)
    ensures Agrees(text, base, n, FindOpen(text, base + n, Brackets(stack)), BackwardLine(word, line, n, stack), 0)
    decreases n
  {
    if n == 0 {
      assert BackwardLine(word, line, 0, stack) == Pending(stack);
    } else {
      var whole := FindOpen(text, base + n, Brackets(stack));
      var v, left := BackwardLineGoesOn(word, line, n, stack, text, base);
      if v.Pending? {
        BackwardLineIsReference(word, line, left, v.stack, text, base);
        AgreesChains(text, base, n, whole, v.stack, left, BackwardLine(word, line, left, v.stack));
      } else {
        AgreesAtEnd(text, base, n, whole, v, left);
      }
    }
  }

  lemma AgreesAtEnd(text: string, base: nat, n: nat, whole: Option<nat>, v: Verdict, left: nat)
    requires base + left <= |text| && !v.Pending? && Agrees(text, base, n, whole, v, left)
    ensures Agrees(text, base, n, whole, v, 0)
  {
  }

  /** A place found and a position of the text found are the same, or neither is found. */
  predicate SamePlace(lines: seq<string>, place: Option<Place>, whole: Option<nat>) {
    match place
    case Some(at) =>
      && at.line < |lines| && at.pos < |lines[at.line]|
      && whole == Some(At(lines, at.line, at.pos))
    case None => whole == None
  }

  lemma OpeningStops(word: WordClass, lines: seq<string>, l: nat, n: nat, v: Verdict, whole: Option<nat>)
    requires l < |lines| && n <= |lines[l]| && (v.Pending? ==> l == 0)
    requires At(lines, l, 0) <= |Text(lines)|
    requires Agrees(Text(lines), At(lines, l, 0), n, whole, v, 0)
    ensures SamePlace(lines, OpeningFrom(word, lines, l, v), whole)
  {
    TextAt(lines, l, 0);
  }

  lemma LineBeforeGoesOn(
    word: WordClass, line: string, stack: seq<char>, text: string, base: nat, after: nat, whole: Option<nat>)
    requires LineIn(text, base, line) && base + |line| + 1 == after <= |text| && text[after - 1] == '\n'
    requires Grounded(stack, '>') && whole == FindOpen(text, after, Brackets(stack))
    ensures Agrees(text, base, |line|, whole, BackwardLine(word, line, |line|, stack), 0)
  {
    FindOpenPasses(text, after, Brackets(stack));
    BackwardLineIsReference(word, line, |line|, stack, text, base);
  }

  /** A pending stack goes on to the line before, over the line end between them. */
  lemma OpeningGoesOn(word: WordClass, lines: seq<string>, l: nat, n: nat, stack: seq<char>, whole: Option<nat>)
    requires 0 < l < |lines| && n <= |lines[l]|
    requires At(lines, l, 0) <= |Text(lines)|
    requires Agrees(Text(lines), At(lines, l, 0), n, whole, Pending(stack), 0)
    ensures At(lines, l - 1, 0) <= |Text(lines)|
    ensures var line := lines[l - 1];
            Agrees(Text(lines), At(lines, l - 1, 0), |line|, whole, BackwardLine(word, line, |line|, stack), 0)
  {
    var line := lines[l - 1];
    TextAt(lines, l - 1, |line|);
    LineInText(lines, l - 1);
    LineBeforeGoesOn(word, line, stack, Text(lines), At(lines, l - 1, 0), At(lines, l, 0), whole);
  }

  lemma {:induction false} OpeningFromIsReference(
    word: WordClass, lines: seq<string>, l: nat, n: nat, v: Verdict, whole: Option<nat>)
    requires l < |lines| && n <= |lines[l]|
    requires At(lines, l, 0) <= |Text(lines)|
    requires Agrees(Text(lines), At(lines, l, 0), n, whole, v, 0)
    ensures SamePlace(lines, OpeningFrom(word, lines, l, v), whole)
    decreases l
  {
    if v.Pending? && l > 0 {
      var line := lines[l - 1];
      OpeningGoesOn(word, lines, l, n, v.stack, whole);
      OpeningFromIsReference(word, lines, l - 1, |line|, BackwardLine(word, line, |line|, v.stack), whole);
    } else {
      OpeningStops(word, lines, l, n, v, whole);
    }
  }

  /** For a bracket, ReverseCloseExpression is the plain backward matcher on the whole text. */
  lemma ReverseCloseExpressionIsReference(word: WordClass, lines: seq<string>, l: nat, p: nat)
    requires l < |lines| && p < |lines[l]| && IsClose(lines[l][p])
    ensures At(lines, l, p) < |Text(lines)|
    ensures SamePlace(lines, Opening(word, lines, l, p), FindOpen(Text(lines), At(lines, l, p) + 1, []))
  {
    var c := lines[l][p];
    TextAt(lines, l, p);
    BracketsPush([], c);
    assert [] + [c] == [c];
    LineInText(lines, l);
    BackwardLineIsReference(word, lines[l], p, [c], Text(lines), At(lines, l, 0));
    OpeningFromIsReference(word, lines, l, p, BackwardLine(word, lines[l], p, [c]),
                           FindOpen(Text(lines), At(lines, l, p) + 1, []));
  }

  /** Both matchers, over any number of lines, undo each other on brackets. */
  lemma MatchersUndoEachOther(word: WordClass, lines: seq<string>, l: nat, p: nat, m: nat, q: nat)
    requires l < |lines| && p < |lines[l]| && IsOpen(lines[l][p])
    requires m < |lines| && q < |lines[m]| && IsClose(lines[m][q])
    ensures Closing(word, lines, l, p) == Some(Place(m, q + 1)) <==> Opening(word, lines, m, q) == Some(Place(l, p))
  {
    CloseExpressionIsReference(word, lines, l, p);
    ReverseCloseExpressionIsReference(word, lines, m, q);
    TextAt(lines, l, p);
    TextAt(lines, m, q);
    ReferenceMatchersInvert(Text(lines), At(lines, l, p), At(lines, m, q));
    var close, open := Closing(word, lines, l, p), Opening(word, lines, m, q);
    if close.Some? && At(lines, close.value.line, close.value.pos - 1) == At(lines, m, q) {
      PlacesAreDistinct(lines, close.value.line, close.value.pos - 1, m, q);
    }
    if open.Some? && At(lines, open.value.line, open.value.pos) == At(lines, l, p) {
      PlacesAreDistinct(lines, open.value.line, open.value.pos, l, p);
    }
  }

  /** What CloseExpression finds for a bracket is a closing bracket, so the way back always applies. */
  lemma CloseThenReverse(word: WordClass, lines: seq<string>, l: nat, p: nat)
    requires l < |lines| && p < |lines[l]| && IsOpen(lines[l][p])
    requires Closing(word, lines, l, p).Some?
    ensures var end := Closing(word, lines, l, p).value;
            && end.line < |lines| && 0 < end.pos <= |lines[end.line]|
            && Opening(word, lines, end.line, end.pos - 1) == Some(Place(l, p))
  {
    var end := Closing(word, lines, l, p).value;
    CloseExpressionIsReference(word, lines, l, p);
    TextAt(lines, end.line, end.pos - 1);
    MatchersUndoEachOther(word, lines, l, p, end.line, end.pos - 1);
  }

  lemma ReverseThenClose(word: WordClass, lines: seq<string>, l: nat, p: nat)
    requires l < |lines| && p < |lines[l]| && IsClose(lines[l][p])
    requires Opening(word, lines, l, p).Some?
    ensures var start := Opening(word, lines, l, p).value;
            && start.line < |lines| && start.pos < |lines[start.line]|
            && Closing(word, lines, start.line, start.pos) == Some(Place(l, p + 1))
  {
    var start := Opening(word, lines, l, p).value;
    ReverseCloseExpressionIsReference(word, lines, l, p);
    TextAt(lines, start.line, start.pos);
    MatchersUndoEachOther(word, lines, start.line, start.pos, l, p);
  }

  // ------------------------------------------------------------ text extraction

  /**
   * The text between the bracket just before start and its partner; start is the end
   * of the match of the caller's start pattern, if there is one.
   */
  method GetTextInside(text: string, start: Option<nat>) returns (inside: Option<string>)
    requires start.Some? ==> 0 < start.value <= |text| && IsOpen(text[start.value - 1])
    ensures start == None ==> inside == None
    ensures start.Some? ==>
              inside == match FindClose(text, start.value - 1, [])
                        case Some(q) => Some(text[start.value..q])
                        case None => None
  {
    if start == None {
      return None;
    }
    var stack := [Partner(text[start.value - 1])];
    var position := start.value;
    ghost var whole := FindClose(text, start.value - 1, []);
    FindCloseStarts(text, start.value - 1);
    PartnersOfOne(stack[0]);
    while stack != [] && position < |text|
      invariant start.value <= position <= |text|
      invariant AllClose(stack)
      invariant stack != [] ==> whole == FindClose(text, position, PartnerEach(stack))
      invariant stack == [] ==> position > start.value && whole == Some(position - 1)
      decreases |text| - position
    {
      var c := text[position];
      InsideStep(text, position, stack, c);
      if c == stack[|stack| - 1] {
        stack := stack[..|stack| - 1];
      } else if IsClose(c) {
        return None;
      } else if IsOpen(c) {
        stack := stack + [Partner(c)];
      }
      position := position + 1;
    }
    if stack != [] {
      return None;
    }
    return Some(text[start.value..position - 1]);
  }

  predicate AllClose(stack: seq<char>) {
    forall i :: 0 <= i < |stack| ==> IsClose(stack[i])
  }

  lemma PartnersOfOne(c: char)
    ensures PartnerEach([c]) == [Partner(c)]
  {
  }

  lemma PartnersPop(stack: seq<char>)
    requires stack != []
    ensures PartnerEach(stack[..|stack| - 1]) == PartnerEach(stack)[..|stack| - 1]
  {
  }

  lemma PartnersPush(stack: seq<char>, c: char)
    ensures PartnerEach(stack + [c]) == PartnerEach(stack) + [Partner(c)]
  {
  }

  /** One character, for the stack of the closing brackets that are awaited. */
  lemma InsideStep(text: string, position: nat, stack: seq<char>, c: char)
    requires position < |text| && c == text[position]
    requires stack != [] && AllClose(stack)
    ensures AllClose(stack[..|stack| - 1]) && (IsOpen(c) ==> AllClose(stack + [Partner(c)]))
    ensures FindClose(text, position, PartnerEach(stack))
         == if c == stack[|stack| - 1] then
              if |stack| == 1 then Some(position) else FindClose(text, position + 1, PartnerEach(stack[..|stack| - 1]))
            else if IsClose(c) then None
            else FindClose(text, position + 1, PartnerEach(if IsOpen(c) then stack + [Partner(c)] else stack))
  {
    PartnersPop(stack);
    PartnersPush(stack, Partner(c));
    assert PartnerEach(stack)[|stack| - 1] == Partner(stack[|stack| - 1]);
  }
}
