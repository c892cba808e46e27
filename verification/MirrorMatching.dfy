// The way back for angle brackets: cpplint's backward matcher is the walk of the forward one over the mirrored
// text, and where both read the angles alike they undo each other.
module MirrorMatching {
  import opened AngleMatching
  import opened BracketMatching
  import opened PyText
  import opened Wrappers

  // ------------------------------------------------------------- the mirrored text

  function Mirror(c: char): char {
    if c == '<' then '>' else if c == '>' then '<' else Partner(c)
  }

  function MirrorEach(s: seq<char>): (r: seq<char>)
    ensures |r| == |s|
    ensures forall i :: 0 <= i < |s| ==> r[i] == Mirror(s[i])
  {
    seq(|s|, i requires 0 <= i < |s| => Mirror(s[i]))
  }

  function Reversed<T>(s: seq<T>): (r: seq<T>)
    ensures |r| == |s|
    ensures forall i :: 0 <= i < |s| ==> r[i] == s[|s| - 1 - i]
  {
    seq(|s|, i requires 0 <= i < |s| => s[|s| - 1 - i])
  }

  /** Is one text the other one read from its end, with every bracket turned around? */
  predicate Mirrors(text: string, back: string) {
    |text| == |back| && forall k, j :: 0 <= k < |text| && 0 <= j < |text| && k + j + 1 == |text| ==> back[j] == Mirror(text[k])
  }

  lemma MirrorsBack(text: string, back: string)
    requires Mirrors(text, back)
    ensures Mirrors(back, text)
  {
    assert forall c :: Mirror(Mirror(c)) == c;
  }

  /** The number of `<` in a row from position i on. */
  function RunOfAngles(line: string, i: nat): nat
    requires i <= |line|
    decreases |line| - i
  {
    if i < |line| && line[i] == '<' then 1 + RunOfAngles(line, i + 1) else 0
  }

  /**
   * The `<` that opens a list for a reader from the right: the first of an odd number of them,
   * since every two of them are taken for a shift.
   */
  predicate IsBackOpener(line: string, i: nat)
    requires i < |line|
  {
    line[i] == '<' && !(i > 0 && line[i - 1] == '<') && RunOfAngles(line, i) % 2 == 1
  }

  /** The `>` that closes a list for a reader from the right: it ends no `->` or operator name and is not in ` >= `. */
  predicate IsBackCloser(word: WordClass, line: string, i: nat)
    requires i < |line|
  {
    && line[i] == '>'
    && (i > 0 ==>
          line[i - 1] != '-' && !SpacedGreaterEqual(line, i - 1) && !EndsInOperator(word, line[..i]))
  }

  /** What a position means in the mirrored text, where what closes a list is met first and opens it. */
  function BackMark(word: WordClass, line: string, i: nat): Mark
    requires i <= |line|
  {
    if i == |line| then EndsLine
    else if IsBackCloser(word, line, i) then OpensAngle
    else if IsBackOpener(line, i) then ClosesAngle
    else if line[i] == ';' then EndsStatement
    else NoMark
  }

  function LineBackMarks(word: WordClass, line: string): (r: seq<Mark>)
    ensures |r| == |line| + 1
  {
    seq(|line| + 1, i requires 0 <= i < |line| + 1 => BackMark(word, line, i))
  }

  function BackMarkRows(word: WordClass, lines: seq<string>): (r: seq<seq<Mark>>)
    ensures |r| == |lines|
  {
    seq(|lines|, l requires 0 <= l < |lines| => LineBackMarks(word, lines[l]))
  }

  function BackMarks(word: WordClass, lines: seq<string>): seq<Mark> {
    Reversed(Flatten(BackMarkRows(word, lines)))
  }

  function BackText(lines: seq<string>): (r: string)
    ensures Mirrors(Text(lines), r)
  {
    MirrorEach(Reversed(Text(lines)))
  }

  /** The token that says what the character and its mark say. */
  function TokenFor(c: char, m: Mark): (t: Token)
    ensures Says(t, c, m)
  {
    if IsOpen(c) then Open(c)
    else if IsClose(c) then Close(c)
    else
      match m
      case OpensAngle => Less
      case ClosesAngle => Greater
      case EndsShift => Shift
      case EndsStatement => Semicolon
      case EndsLine => LineEnd
      case NoMark => Other
  }

  function TokensFor(text: string, marks: seq<Mark>): (r: seq<Token>)
    requires |text| == |marks|
    ensures AllSay(r, text, marks)
  {
    seq(|text|, k requires 0 <= k < |text| => TokenFor(text[k], marks[k]))
  }

  /** What a position is for a reader from the right. */
  function BackToken(word: WordClass, line: string, i: nat): Token
    requires i < |line|
  {
    TokenFor(Mirror(line[i]), BackMark(word, line, i))
  }

  // ------------------------------------------------- one step back is one step in the mirror

  /** A verdict of the backward scan as the scan of the mirrored text has it. */
  function Turned(v: Verdict, at: nat): Verdict {
    match v
    case Pending(s) => Pending(MirrorEach(s))
    case Found(e) => Found(at)
    case Unclosed => Unclosed
  }

  lemma {:induction false} DropInMirror(s: seq<char>)
    ensures DropTop(MirrorEach(s), '<') == MirrorEach(DropTop(s, '>'))
  {
    if s != [] {
      var t := s[..|s| - 1];
      assert MirrorEach(s)[..|s| - 1] == MirrorEach(t);
      DropInMirror(t);
    }
  }

  lemma PushInMirror(s: seq<char>, c: char)
    ensures MirrorEach(s + [c]) == MirrorEach(s) + [Mirror(c)]
  {
  }

  lemma PopInMirror(s: seq<char>)
    requires s != []
    ensures MirrorEach(s[..|s| - 1]) == MirrorEach(s)[..|s| - 1]
  {
  }

  lemma MirrorIsOne(a: char, b: char)
    ensures Mirror(a) == Mirror(b) <==> a == b
  {
  }

  lemma CloseInMirror(s: seq<char>, c: char, i: nat, at: nat)
    requires IsOpen(c)
    ensures CloseBracket(MirrorEach(s), Mirror(c), '<', at) == Turned(CloseBracket(s, c, '>', i), at)
  {
    DropInMirror(s);
    var t := DropTop(s, '>');
    if t != [] {
      MirrorIsOne(t[|t| - 1], Partner(c));
      PopInMirror(t);
    }
  }

  lemma EndInMirror(s: seq<char>)
    ensures EndStatement(MirrorEach(s), '<') == Turned(EndStatement(s, '>'), 0)
  {
    DropInMirror(s);
  }

  /** Nothing of a run of `<` has been read, or an even number of them. */
  predicate Ready(line: string, n: nat)
    requires n <= |line|
  {
    n == 0 || line[n - 1] != '<' || RunOfAngles(line, n) % 2 == 0
  }

  lemma AngleStep(word: WordClass, line: string, i: nat, stack: seq<char>, at: nat)
    requires i < |line| && Ready(line, i + 1) && line[i] == '<'
    ensures var (v, left) := BackwardStep(word, line, i, stack);
            && ForwardStep(MirrorEach(stack), BackToken(word, line, i), at) == Turned(v, at)
            && Ready(line, left)
            && (left < i ==> left == i - 1 && v == Pending(stack) && BackToken(word, line, left) == Other)
            && (v.Found? ==> v.pos == i)
  {
    assert RunOfAngles(line, i) == 1 + RunOfAngles(line, i + 1);
    if i > 0 && line[i - 1] == '<' {
      assert RunOfAngles(line, i - 1) == 2 + RunOfAngles(line, i + 1);
      assert !IsBackOpener(line, i - 1);
    } else {
      assert IsBackOpener(line, i);
      if OnTop(stack, '>') {
        PopInMirror(stack);
      }
    }
  }

  lemma PlainToken(word: WordClass, line: string, i: nat)
    requires i < |line| && (line[i] == '-' || line[i] == 'r' || IsSpace(line[i]))
    ensures BackToken(word, line, i) == Other && line[i] != '<'
  {
  }

  lemma SkippedIsPlain(word: WordClass, line: string, i: nat)
    requires i < |line| && SkipsGreater(word, line, i)
    ensures BackToken(word, line, i - 1) == Other && line[i - 1] != '<'
  {
    if EndsInOperator(word, line[..i]) {
      OperatorEnd(word, line[..i]);
    }
    PlainToken(word, line, i - 1);
  }

  /** What ends in an operator name ends in its last letter or in white space. */
  lemma OperatorEnd(word: WordClass, s: string)
    requires EndsInOperator(word, s)
    ensures s != [] && (s[|s| - 1] == 'r' || IsSpace(s[|s| - 1]))
  {
    var t := StripRight(s);
    if |t| == |s| {
      assert s[|s| - 1] == t[|t| - 8..][7] == 'r';
    }
  }

  lemma OtherAngleStep(word: WordClass, line: string, i: nat, stack: seq<char>, at: nat)
    requires i < |line| && line[i] == '>'
    ensures var (v, left) := BackwardStep(word, line, i, stack);
            && ForwardStep(MirrorEach(stack), BackToken(word, line, i), at) == Turned(v, at)
            && Ready(line, left)
            && (left < i ==> left == i - 1 && v == Pending(stack) && BackToken(word, line, left) == Other)
            && (v.Found? ==> v.pos == i)
  {
    assert IsBackCloser(word, line, i) <==> !SkipsGreater(word, line, i);
    if SkipsGreater(word, line, i) {
      SkippedIsPlain(word, line, i);
      assert RunOfAngles(line, i - 1) == 0;
    } else {
      PushInMirror(stack, '>');
      assert RunOfAngles(line, i) == 0;
    }
  }

  lemma NoAngleStep(word: WordClass, line: string, i: nat, stack: seq<char>, at: nat)
    requires i < |line| && !IsAngle(line[i])
    ensures var (v, left) := BackwardStep(word, line, i, stack);
            && ForwardStep(MirrorEach(stack), BackToken(word, line, i), at) == Turned(v, at)
            && left == i && (v.Found? ==> v.pos == i)
  {
    var c := line[i];
    if IsClose(c) {
      PushInMirror(stack, c);
    } else if IsOpen(c) {
      CloseInMirror(stack, c, i, at);
    } else if c == ';' {
      EndInMirror(stack);
    }
  }

  /** One backward step is one step, or two of which the second does nothing, in the mirrored text. */
  lemma StepInMirror(word: WordClass, line: string, i: nat, stack: seq<char>, at: nat)
    returns (v: Verdict, left: nat)
    requires i < |line| && Ready(line, i + 1)
    ensures BackwardStep(word, line, i, stack) == (v, left) && left <= i
    ensures ForwardStep(MirrorEach(stack), BackToken(word, line, i), at) == Turned(v, at)
    ensures Ready(line, left)
    ensures left < i ==> left == i - 1 && v == Pending(stack) && BackToken(word, line, left) == Other
    ensures v.Found? ==> v.pos == i
  {
    var c, step := line[i], BackwardStep(word, line, i, stack);
    v, left := step.0, step.1;
    if c == '<' {
      AngleStep(word, line, i, stack, at);
    } else if c == '>' {
      OtherAngleStep(word, line, i, stack, at);
    } else {
      assert RunOfAngles(line, i) == 0;
      NoAngleStep(word, line, i, stack, at);
    }
  }

  // -------------------------------------------------------- lines back, and the text in the mirror

  /** The tokens hold, from their end, those of the line behind the first base positions of the text. */
  predicate HoldsLine(word: WordClass, line: string, tokens: seq<Token>, base: nat) {
    && base + |line| <= |tokens|
    && forall i :: 0 <= i < |line| ==> tokens[|tokens| - 1 - (base + i)] == BackToken(word, line, i)
  }

  /** What the scan of the mirrored text comes to, if the backward scan of a line comes to v. */
  predicate ComesTo(tokens: seq<Token>, base: nat, n: nat, whole: Option<nat>, v: Verdict)
    requires base + n <= |tokens|
  {
    match v
    case Found(e) => e < n && whole == Some(|tokens| - 1 - (base + e))
    case Unclosed => whole == None
    case Pending(s) => whole == Scan(tokens, |tokens| - base, MirrorEach(s))
  }

  lemma ScanStep(tokens: seq<Token>, k: nat, stack: seq<char>, v: Verdict)
    requires k < |tokens| && ForwardStep(stack, tokens[k], k) == Turned(v, k)
    ensures Scan(tokens, k, stack)
         == match v case Pending(s) => Scan(tokens, k + 1, MirrorEach(s)) case Found(e) => Some(k) case Unclosed => None
  {
  }

  lemma ScanSkips(tokens: seq<Token>, k: nat, stack: seq<char>)
    requires k < |tokens| && tokens[k] == Other
    ensures Scan(tokens, k, stack) == Scan(tokens, k + 1, stack)
  {
  }

  /** A backward step and the scan from there. */
  lemma StepAndScan(word: WordClass, line: string, n: nat, stack: seq<char>, tokens: seq<Token>, base: nat)
    returns (v: Verdict, left: nat)
    requires 0 < n <= |line| && Ready(line, n) && HoldsLine(word, line, tokens, base)
    ensures BackwardStep(word, line, n - 1, stack) == (v, left) && left < n && Ready(line, left)
    ensures Scan(tokens, |tokens| - (base + n), MirrorEach(stack))
         == match v
            case Pending(s) => Scan(tokens, |tokens| - (base + left), MirrorEach(s))
            case Found(e) => Some(|tokens| - (base + n))
            case Unclosed => None
    ensures v.Found? ==> v.pos == n - 1
  {
    var k := |tokens| - (base + n);
    assert tokens[|tokens| - 1 - (base + (n - 1))] == BackToken(word, line, n - 1);
    v, left := StepInMirror(word, line, n - 1, stack, k);
    ScanStep(tokens, k, MirrorEach(stack), v);
    if left < n - 1 {
      assert tokens[|tokens| - 1 - (base + left)] == BackToken(word, line, left);
      ScanSkips(tokens, k + 1, MirrorEach(stack));
    }
  }

  lemma {:induction false} LineInMirror(
    word: WordClass, line: string, n: nat, stack: seq<char>, tokens: seq<Token>, base: nat)
    requires n <= |line| && Ready(line, n) && HoldsLine(word, line, tokens, base)
    ensures ComesTo(tokens, base, n, Scan(tokens, |tokens| - (base + n), MirrorEach(stack)), BackwardLine(word, line, n, stack))
    decreases n
  {
    if n > 0 {
      var v, left := StepAndScan(word, line, n, stack, tokens, base);
      BackwardLineStep(word, line, n, stack, v, left);
      if v.Pending? {
        LineInMirror(word, line, left, v.stack, tokens, base);
      }
    }
  }

  function BackTokens(word: WordClass, lines: seq<string>): (r: seq<Token>)
    requires |BackMarks(word, lines)| == |Text(lines)|
    ensures AllSay(r, BackText(lines), BackMarks(word, lines))
  {
    TokensFor(BackText(lines), BackMarks(word, lines))
  }

  lemma {:induction false} SameLengths<S, T>(a: seq<seq<S>>, b: seq<seq<T>>)
    requires |a| == |b|
    requires forall i :: 0 <= i < |a| ==> |a[i]| == |b[i]|
    ensures |Flatten(a)| == |Flatten(b)|
  {
    if a != [] {
      SameLengths(a[1..], b[1..]);
    }
  }

  lemma MarkForEach(word: WordClass, lines: seq<string>)
    ensures |BackMarks(word, lines)| == |Text(lines)|
  {
    SameLengths(BackMarkRows(word, lines), TextRows(lines));
  }

  lemma BackAt(word: WordClass, lines: seq<string>, l: nat, p: nat)
    requires l < |lines| && p <= |lines[l]|
    ensures |BackMarks(word, lines)| == |Text(lines)| && At(lines, l, p) < |Text(lines)|
    ensures var k := |Text(lines)| - 1 - At(lines, l, p);
            && BackMarks(word, lines)[k] == BackMark(word, lines[l], p)
            && BackText(lines)[k] == if p < |lines[l]| then Mirror(lines[l][p]) else '\n'
  {
    var rows := BackMarkRows(word, lines);
    MarkForEach(word, lines);
    TextAt(lines, l, p);
    SameOffsets(TextRows(lines), rows, l);
    FlattenAt(rows, l, p);
  }

  lemma BackTokenAt(word: WordClass, lines: seq<string>, l: nat, p: nat)
    requires l < |lines| && p <= |lines[l]|
    ensures |BackMarks(word, lines)| == |Text(lines)| && At(lines, l, p) < |Text(lines)|
    ensures BackTokens(word, lines)[|Text(lines)| - 1 - At(lines, l, p)]
         == if p < |lines[l]| then BackToken(word, lines[l], p) else LineEnd
  {
    BackAt(word, lines, l, p);
  }

  // ------------------------------------------------------------------ from line to line

  /** Do the tokens hold, from their end, all lines, the l-th from starts[l] on, and a line end before each but the first? */
  predicate HoldsLines(word: WordClass, lines: seq<string>, tokens: seq<Token>, starts: seq<nat>) {
    && |starts| == |lines|
    && (forall l :: 0 <= l < |lines| ==> HoldsLine(word, lines[l], tokens, starts[l]))
    && (forall l, m :: 0 <= l && m == l + 1 < |lines| ==> Follows(lines[l], tokens, starts[l], starts[m]))
    && (lines != [] ==> starts[0] == 0)
  }

  predicate Follows(line: string, tokens: seq<Token>, start: nat, next: nat) {
    start + |line| + 1 == next <= |tokens| && tokens[|tokens| - next] == LineEnd
  }

  /** A place found backwards and a position of the tokens found are the same, or neither is found. */
  predicate SameSpot(lines: seq<string>, starts: seq<nat>, size: nat, place: Option<Place>, whole: Option<nat>)
    requires |starts| == |lines|
  {
    match place
    case Some(at) =>
      && at.line < |lines| && at.pos < |lines[at.line]|
      && starts[at.line] + at.pos < size && whole == Some(size - 1 - (starts[at.line] + at.pos))
    case None => whole == None
  }

  /** The line end between two lines, and the line before. */
  lemma LineBeforeInMirror(word: WordClass, line: string, tokens: seq<Token>, start: nat, next: nat, stack: seq<char>)
    requires HoldsLine(word, line, tokens, start) && Follows(line, tokens, start, next) && stack != []
    ensures ComesTo(tokens, start, |line|, Scan(tokens, |tokens| - next, MirrorEach(stack)), BackwardLine(word, line, |line|, stack))
  {
    assert RunOfAngles(line, |line|) == 0;
    assert ForwardStep(MirrorEach(stack), LineEnd, 0) == Pending(MirrorEach(stack));
    LineInMirror(word, line, |line|, stack, tokens, start);
  }

  lemma NothingAtLineEnd(tokens: seq<Token>, k: nat)
    requires k < |tokens| && tokens[k] == LineEnd
    ensures Scan(tokens, k, MirrorEach([])) == None
  {
  }

  lemma NothingAtEnd(tokens: seq<Token>, stack: seq<char>)
    ensures Scan(tokens, |tokens|, stack) == None
  {
  }

  lemma OpeningPasses(word: WordClass, lines: seq<string>, l: nat, stack: seq<char>, line: string)
    requires 0 < l < |lines| && stack != [] && line == lines[l - 1]
    ensures OpeningFrom(word, lines, l, Pending(stack))
         == OpeningFrom(word, lines, l - 1, BackwardLine(word, line, |line|, stack))
  {
  }

  lemma {:induction false} LinesInMirror(
    word: WordClass, lines: seq<string>, l: nat, n: nat, v: Verdict, whole: Option<nat>,
    tokens: seq<Token>, starts: seq<nat>)
    requires l < |lines| && n <= |lines[l]| && HoldsLines(word, lines, tokens, starts)
    requires starts[l] + n <= |tokens| && ComesTo(tokens, starts[l], n, whole, v)
    ensures SameSpot(lines, starts, |tokens|, OpeningFrom(word, lines, l, v), whole)
    decreases l
  {
    if v.Pending? {
      if l == 0 {
        NothingAtEnd(tokens, MirrorEach(v.stack));
      } else {
        var line, start := lines[l - 1], starts[l - 1];
        assert Follows(line, tokens, start, starts[l]);
        if v.stack == [] {
          NothingAtLineEnd(tokens, |tokens| - starts[l]);
        } else {
          LineBeforeInMirror(word, line, tokens, start, starts[l], v.stack);
          OpeningPasses(word, lines, l, v.stack, line);
          LinesInMirror(word, lines, l - 1, |line|, BackwardLine(word, line, |line|, v.stack), whole, tokens, starts);
        }
      }
    }
  }

  function LineStarts(lines: seq<string>): (r: seq<nat>)
    ensures |r| == |lines|
    ensures forall l :: 0 <= l < |lines| ==> r[l] == At(lines, l, 0)
  {
    seq(|lines|, l requires 0 <= l < |lines| => At(lines, l, 0))
  }

  lemma TokensHoldLine(word: WordClass, lines: seq<string>, l: nat, tokens: seq<Token>)
    requires l < |lines| && |BackMarks(word, lines)| == |Text(lines)| && tokens == BackTokens(word, lines)
    ensures HoldsLine(word, lines[l], tokens, At(lines, l, 0))
  {
    TextAt(lines, l, |lines[l]|);
    forall i | 0 <= i < |lines[l]|
      ensures tokens[|tokens| - 1 - (At(lines, l, 0) + i)] == BackToken(word, lines[l], i)
    {
      BackTokenAt(word, lines, l, i);
    }
  }

  lemma TokensFollow(word: WordClass, lines: seq<string>, l: nat, tokens: seq<Token>)
    requires l + 1 < |lines| && |BackMarks(word, lines)| == |Text(lines)| && tokens == BackTokens(word, lines)
    ensures Follows(lines[l], tokens, At(lines, l, 0), At(lines, l + 1, 0))
  {
    TextAt(lines, l, |lines[l]|);
    BackTokenAt(word, lines, l, |lines[l]|);
  }

  lemma TokensHoldLines(word: WordClass, lines: seq<string>, tokens: seq<Token>)
    requires |BackMarks(word, lines)| == |Text(lines)| && tokens == BackTokens(word, lines)
    ensures HoldsLines(word, lines, tokens, LineStarts(lines))
  {
    var starts := LineStarts(lines);
    forall l | 0 <= l < |lines|
      ensures HoldsLine(word, lines[l], tokens, starts[l])
    {
      TokensHoldLine(word, lines, l, tokens);
    }
    forall l, m | 0 <= l && m == l + 1 < |lines|
      ensures Follows(lines[l], tokens, starts[l], starts[m])
    {
      TokensFollow(word, lines, l, tokens);
    }
    if lines != [] {
      TextAt(lines, 0, 0);
    }
  }

  /** The answer of the backward matcher is the scan of the tokens in the mirror. */
  lemma OpeningIsScan(word: WordClass, lines: seq<string>, l: nat, p: nat, tokens: seq<Token>, starts: seq<nat>)
    requires l < |lines| && p < |lines[l]| && (IsClose(lines[l][p]) || lines[l][p] == '>')
    requires HoldsLines(word, lines, tokens, starts) && starts[l] + p + 1 <= |tokens|
    ensures SameSpot(lines, starts, |tokens|, Opening(word, lines, l, p),
                     Scan(tokens, |tokens| - 1 - (starts[l] + p), Angles(0)))
  {
    assert MirrorEach([]) == Angles(0);
    assert HoldsLine(word, lines[l], tokens, starts[l]);
    LineInMirror(word, lines[l], p + 1, [], tokens, starts[l]);
    LinesInMirror(word, lines, l, p + 1, BackwardLine(word, lines[l], p + 1, []),
                  Scan(tokens, |tokens| - 1 - (starts[l] + p), Angles(0)), tokens, starts);
  }

  lemma OpeningIsWalk(
    word: WordClass, lines: seq<string>, l: nat, p: nat, back: string, marks: seq<Mark>, starts: seq<nat>, k: nat)
    requires l < |lines| && p < |lines[l]| && (IsClose(lines[l][p]) || lines[l][p] == '>')
    requires |back| == |marks| && HoldsLines(word, lines, TokensFor(back, marks), starts)
    requires k + starts[l] + p + 1 == |back|
    ensures SameSpot(lines, starts, |back|, Opening(word, lines, l, p), CloseAngle(back, marks, k, 0))
  {
    var tokens := TokensFor(back, marks);
    OpeningIsScan(word, lines, l, p, tokens, starts);
    ScanIsWalk(tokens, back, marks, k, 0);
  }

  /** A place found backwards and a position of the mirrored text found are the same, or neither is found. */
  predicate SameInMirror(lines: seq<string>, place: Option<Place>, whole: Option<nat>) {
    match place
    case Some(at) =>
      && at.line < |lines| && at.pos < |lines[at.line]| && At(lines, at.line, at.pos) < |Text(lines)|
      && whole == Some(|Text(lines)| - 1 - At(lines, at.line, at.pos))
    case None => whole == None
  }

  lemma SpotInMirror(lines: seq<string>, place: Option<Place>, whole: Option<nat>)
    requires SameSpot(lines, LineStarts(lines), |Text(lines)|, place, whole)
    ensures SameInMirror(lines, place, whole)
  {
  }

  /**
   * For every closing bracket and every `>`, ReverseCloseExpression answers as the walk over the mirrored
   * text: a `>` is opened by the `<` at which as many angles have been opened as closed, brackets
   * being passed over with all that stands in them.
   */
  lemma ReverseCloseExpressionIsWalk(word: WordClass, lines: seq<string>, l: nat, p: nat)
    requires l < |lines| && p < |lines[l]| && (IsClose(lines[l][p]) || lines[l][p] == '>')
    ensures At(lines, l, p) < |Text(lines)| == |BackMarks(word, lines)|
    ensures SameInMirror(lines, Opening(word, lines, l, p),
                         CloseAngle(BackText(lines), BackMarks(word, lines), |Text(lines)| - 1 - At(lines, l, p), 0))
  {
    TextAt(lines, l, p);
    MarkForEach(word, lines);
    TokensHoldLines(word, lines, BackTokens(word, lines));
    var back, marks, k := BackText(lines), BackMarks(word, lines), |Text(lines)| - 1 - At(lines, l, p);
    OpeningIsWalk(word, lines, l, p, back, marks, LineStarts(lines), k);
    SpotInMirror(lines, Opening(word, lines, l, p), CloseAngle(back, marks, k, 0));
  }

  /** What every call of ReverseCloseExpression answers: nothing for a character that closes nothing. */
  lemma ReverseCloseExpressionAnswers(word: WordClass, lines: seq<string>, l: nat, p: nat)
    requires l < |lines| && p < |lines[l]|
    ensures At(lines, l, p) < |Text(lines)| == |BackMarks(word, lines)|
    ensures SameInMirror(lines, Opening(word, lines, l, p),
                         if IsClose(lines[l][p]) || lines[l][p] == '>'
                         then CloseAngle(BackText(lines), BackMarks(word, lines), |Text(lines)| - 1 - At(lines, l, p), 0)
                         else None)
  {
    TextAt(lines, l, p);
    MarkForEach(word, lines);
    if IsClose(lines[l][p]) || lines[l][p] == '>' {
      ReverseCloseExpressionIsWalk(word, lines, l, p);
    }
  }
}
