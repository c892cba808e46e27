// cpplint's removal of C++11 raw strings, line by line with a pending delimiter.
module RawStrings {
  import opened PyText
  import opened Wrappers

  /** The lexical tests that the scan is built on: word characters, and whether a prefix already opened a // comment. */
  datatype Lexis = Lexis(word: WordClass, inComment: string -> bool)

  const EMPTY := "\"\""

  // ------------------------------------------------------ where a raw string starts

  /** The length of the encoding prefix R, u8R, uR, UR or LR at position i; 0 if there is none. */
  function PrefixLength(line: string, i: nat): (n: nat)
    requires i <= |line|
    ensures i + n <= |line| && n <= 3
  {
    if i < |line| && line[i] == 'R' then 1
    else if i + 2 < |line| && line[i] == 'u' && line[i + 1] == '8' && line[i + 2] == 'R' then 3
    else if i + 1 < |line| && line[i] in "uUL" && line[i + 1] == 'R' then 2
    else 0
  }

  /** The characters that cannot be part of a delimiter. */
  predicate EndsDelimiter(c: char) {
    IsSpace(c) || c == '\\' || c == '(' || c == ')'
  }

  function DelimiterEnd(line: string, i: nat): (p: nat)
    requires i <= |line|
    ensures i <= p <= |line|
    ensures forall j :: i <= j < p ==> !EndsDelimiter(line[j])
    ensures p < |line| ==> EndsDelimiter(line[p])
    decreases |line| - i
  {
    if i == |line| || EndsDelimiter(line[i]) then i else DelimiterEnd(line, i + 1)
  }

  /** A raw string: its first character, the first character of its delimiter, and its opening parenthesis. */
  datatype RawStart = RawStart(at: nat, delimiter: nat, paren: nat)

  /** The raw string that starts at position i, if one does. */
  function RawAt(lx: Lexis, line: string, i: nat): (r: Option<RawStart>)
    requires i <= |line|
    ensures r.Some? ==> r.value.at == i && i + 2 <= r.value.delimiter <= r.value.paren < |line|
  {
    var n := PrefixLength(line, i);
    if n == 0 || (i > 0 && lx.word(line[i - 1])) then None
    else if i + n == |line| || line[i + n] != '"' then None
    else
      var p := DelimiterEnd(line, i + n + 1);
      if p < |line| && line[p] == '(' then Some(RawStart(i, i + n + 1, p)) else None
  }

  /** The first raw string of the line at or after position i. */
  function FirstRaw(lx: Lexis, line: string, i: nat): (r: Option<RawStart>)
    requires i <= |line|
    ensures r.Some? ==> r.value.at + 2 <= r.value.delimiter <= r.value.paren < |line|
    ensures r.Some? ==> i <= r.value.at && RawAt(lx, line, r.value.at) == r
    decreases |line| - i
  {
    if RawAt(lx, line, i).Some? then RawAt(lx, line, i)
    else if i == |line| then None
    else FirstRaw(lx, line, i + 1)
  }

  lemma {:induction false} FirstRawIsFirst(lx: Lexis, line: string, i: nat, j: nat)
    requires i <= j <= |line|
    requires FirstRaw(lx, line, i).Some? ==> j < FirstRaw(lx, line, i).value.at
    ensures RawAt(lx, line, j) == None
    decreases j - i
  {
    if i < j {
      FirstRawIsFirst(lx, line, i + 1, j);
    }
  }

  /** The first raw string of the line, unless it is in a comment. */
  function Opener(lx: Lexis, line: string): (r: Option<RawStart>)
    ensures r.Some? ==> r.value.at + 2 <= r.value.delimiter <= r.value.paren < |line|
  {
    var r := FirstRaw(lx, line, 0);
    if r.Some? && lx.inComment(line[..r.value.at]) then None else r
  }

  /** What closes a raw string: `)`, its delimiter and a quote. */
  function Closer(line: string, r: RawStart): (d: string)
    requires r.delimiter <= r.paren < |line|
    ensures |d| >= 2
  {
    ")" + line[r.delimiter..r.paren] + "\""
  }

  // ------------------------------------------------------------------- one line

  /** A line that is left over, and the closer of the raw string that is open at its end. */
  datatype Rest = Rest(line: string, pending: Option<string>)

  /** What one step makes of the text behind the opening parenthesis. */
  function Cut(body: string, closer: string, prefix: string): Rest {
    match Find(body, closer, 0)
    case Some(end) => Rest(prefix + body[end + |closer|..], None)
    case None => Rest(prefix, Some(closer))
  }

  /** One step outside raw strings: the first raw string of the line is removed. */
  function Rewrite(lx: Lexis, line: string): (next: Option<Rest>)
    ensures next.Some? && next.value.pending == None ==> |next.value.line| < |line|
  {
    match Opener(lx, line)
    case None => None
    case Some(r) => Some(Cut(line[r.paren + 1..], Closer(line, r), line[..r.at] + EMPTY))
  }

  /** The leading white space of a line. */
  function Indent(line: string): string {
    line[..|line| - |StripLeft(line)|]
  }

  /** Inside a raw string: what is left of the line when the closer is looked for. */
  function Resume(line: string, closer: string): Rest {
    match Find(line, closer, 0)
    case Some(end) => Rest(Indent(line) + EMPTY + line[end + |closer|..], None)
    case None => Rest(EMPTY, Some(closer))
  }

  /** All steps outside raw strings. */
  function OutsideLine(lx: Lexis, line: string): Rest
    decreases |line|
  {
    match Rewrite(lx, line)
    case None => Rest(line, None)
    case Some(next) => if next.pending == None then OutsideLine(lx, next.line) else next
  }

  function CleanseLine(lx: Lexis, line: string, pending: Option<string>): Rest {
    if pending == None then OutsideLine(lx, line)
    else
      var rest := Resume(line, pending.value);
      if rest.pending == None then OutsideLine(lx, rest.line) else rest
  }

  function CleanseFrom(lx: Lexis, lines: seq<string>, pending: Option<string>): (r: seq<string>)
    ensures |r| == |lines|
    decreases |lines|
  {
    if lines == [] then []
    else
      var rest := CleanseLine(lx, lines[0], pending);
      [rest.line] + CleanseFrom(lx, lines[1..], rest.pending)
  }

  /** The closer that is awaited after the lines. */
  function PendingAfter(lx: Lexis, lines: seq<string>, pending: Option<string>): Option<string>
    decreases |lines|
  {
    if lines == [] then pending else PendingAfter(lx, lines[1..], CleanseLine(lx, lines[0], pending).pending)
  }

  lemma CleanseNext(lx: Lexis, lines: seq<string>, i: nat, pending: Option<string>)
    requires i < |lines|
    ensures var rest := CleanseLine(lx, lines[i], pending);
            CleanseFrom(lx, lines[i..], pending) == [rest.line] + CleanseFrom(lx, lines[i + 1..], rest.pending)
  {
    assert lines[i..][1..] == lines[i + 1..];
  }

  method CleanseRawStrings(lx: Lexis, rawLines: seq<string>) returns (cleansed: seq<string>)
    ensures |cleansed| == |rawLines|
    ensures cleansed == CleanseFrom(lx, rawLines, None)
  {
    var delimiter: Option<string> := None;
    cleansed := [];
    ghost var rest := CleanseFrom(lx, rawLines, None);
    for i := 0 to |rawLines|
      invariant |cleansed| == i
      invariant rest == CleanseFrom(lx, rawLines[i..], delimiter)
      invariant CleanseFrom(lx, rawLines, None) == cleansed + rest
    {
      CleanseNext(lx, rawLines, i, delimiter);
      var line;
      line, delimiter := CleanseOneLine(lx, rawLines[i], delimiter);
      rest := CleanseFrom(lx, rawLines[i + 1..], delimiter);
      Regroup(cleansed, [line], rest);
      cleansed := cleansed + [line];
    }
  }

  /** The body of the loop over the lines. */
  method CleanseOneLine(lx: Lexis, rawLine: string, delimiter0: Option<string>)
    returns (line: string, delimiter: Option<string>)
    ensures Rest(line, delimiter) == CleanseLine(lx, rawLine, delimiter0)
  {
    line, delimiter := rawLine, delimiter0;
    if delimiter.Some? {
      line, delimiter := ResumeLine(line, delimiter.value);
    }
    if delimiter == None {
      line, delimiter := CleanseOutside(lx, line);
    }
  }

  /** Does sub occur in s at position i, and nowhere before? */
  predicate FirstOccursAt(s: string, sub: string, i: nat) {
    OccursAt(s, sub, i) && forall j :: 0 <= j < i ==> !OccursAt(s, sub, j)
  }

  predicate Occurs(s: string, sub: string) {
    exists i :: 0 <= i <= |s| && OccursAt(s, sub, i)
  }

  /** Are the first n characters all the white space that the line starts with? */
  predicate IsIndent(line: string, n: nat) {
    && n <= |line|
    && (forall i :: 0 <= i < n ==> IsSpace(line[i]))
    && (n < |line| ==> !IsSpace(line[n]))
  }

  /** Is the line the indent, an empty string, and what follows the first closer? */
  predicate IsResumed(line0: string, closer: string, line: string, i: nat) {
    && FirstOccursAt(line0, closer, i)
    && exists n :: 0 <= n <= |line0| && IsIndent(line0, n) && line == line0[..n] + EMPTY + line0[i + |closer|..]
  }

  lemma {:induction false} StrippedIsSpace(line: string)
    ensures forall i :: 0 <= i < |line| - |StripLeft(line)| ==> IsSpace(line[i])
  {
    if line != [] && IsSpace(line[0]) {
      StrippedIsSpace(line[1..]);
      assert forall i :: 0 < i < |line| ==> line[i] == line[1..][i - 1];
    }
  }

  lemma IndentIsIndent(line: string)
    ensures IsIndent(line, |Indent(line)|) && Indent(line) == line[..|Indent(line)|]
  {
    StrippedIsSpace(line);
    var n := |line| - |StripLeft(line)|;
    assert n < |line| ==> line[n] == StripLeft(line)[0];
  }

  /** A line that starts inside a raw string: it is blanked as long as the closer does not come. */
  method ResumeLine(line0: string, closer: string) returns (line: string, delimiter: Option<string>)
    ensures Rest(line, delimiter) == Resume(line0, closer)
    ensures delimiter.Some? <==> !Occurs(line0, closer)
    ensures delimiter.Some? ==> delimiter.value == closer && line == EMPTY
    ensures delimiter == None ==> exists i :: 0 <= i <= |line0| && IsResumed(line0, closer, line, i)
  {
    line, delimiter := line0, Some(closer);
    IndentIsIndent(line);
    var end := Find(line, closer, 0);
    if end.Some? {
      line := Indent(line) + EMPTY + line[end.value + |closer|..];
      delimiter := None;
      assert IsResumed(line0, closer, line, end.value);
    } else {
      line := EMPTY;
    }
  }

  /** The inner loop, which runs while no delimiter is awaited. */
  method CleanseOutside(lx: Lexis, line0: string) returns (line: string, delimiter: Option<string>)
    ensures Rest(line, delimiter) == OutsideLine(lx, line0)
  {
    line, delimiter := line0, None;
    while delimiter == None
      invariant OutsideLine(lx, line0) == if delimiter == None then OutsideLine(lx, line) else Rest(line, delimiter)
      decreases if delimiter == None then |line| + 1 else 0
    {
      var next := RemoveFirst(lx, line);
      if next == None {
        break;
      }
      line, delimiter := next.value.line, next.value.pending;
    }
  }

  /** Does the first raw string of the line start at i? */
  predicate FirstRawStartsAt(lx: Lexis, line: string, i: nat) {
    i <= |line| && RawAt(lx, line, i).Some? && forall j :: 0 <= j < i ==> RawAt(lx, line, j) == None
  }

  /** Is there nothing to remove: no raw string, or the first one in a comment? */
  predicate IsDone(lx: Lexis, line: string) {
    forall i :: 0 <= i <= |line| && FirstRawStartsAt(lx, line, i) ==> lx.inComment(line[..i])
  }

  /** Is the text behind the prefix cut up to its first closer, or away if the closer does not come? */
  predicate IsCut(body: string, closer: string, prefix: string, next: Rest) {
    if Occurs(body, closer) then
      && next.pending == None
      && exists end :: 0 <= end <= |body| && FirstOccursAt(body, closer, end)
                       && next.line == prefix + body[end + |closer|..]
    else
      next == Rest(prefix, Some(closer))
  }

  /** Is the first raw string, which starts at i, removed, and an empty string in its place? */
  predicate IsRemovedAt(lx: Lexis, line: string, next: Rest, i: nat) {
    && FirstRawStartsAt(lx, line, i) && !lx.inComment(line[..i])
    && var r := RawAt(lx, line, i).value;
       IsCut(line[r.paren + 1..], ")" + line[r.delimiter..r.paren] + "\"", line[..i] + EMPTY, next)
  }

  lemma CutIs(body: string, closer: string, prefix: string)
    ensures IsCut(body, closer, prefix, Cut(body, closer, prefix))
  {
    var end := Find(body, closer, 0);
    if end.Some? {
      assert FirstOccursAt(body, closer, end.value);
    }
  }

  lemma FirstRawIs(lx: Lexis, line: string, i: nat)
    requires FirstRawStartsAt(lx, line, i)
    ensures FirstRaw(lx, line, 0) == RawAt(lx, line, i)
  {
    var r := FirstRaw(lx, line, 0);
    if r == None || i < r.value.at {
      FirstRawIsFirst(lx, line, 0, i);
    }
  }

  lemma StartsAtFirstRaw(lx: Lexis, line: string, r: RawStart)
    requires FirstRaw(lx, line, 0) == Some(r)
    ensures FirstRawStartsAt(lx, line, r.at) && RawAt(lx, line, r.at) == Some(r)
  {
    forall j | 0 <= j < r.at
      ensures RawAt(lx, line, j) == None
    {
      FirstRawIsFirst(lx, line, 0, j);
    }
  }

  lemma DoneIs(lx: Lexis, line: string)
    ensures Opener(lx, line) == None <==> IsDone(lx, line)
  {
    var r := FirstRaw(lx, line, 0);
    forall i | 0 <= i <= |line| && FirstRawStartsAt(lx, line, i)
      ensures r.Some? && i == r.value.at
    {
      FirstRawIs(lx, line, i);
    }
    if r.Some? {
      StartsAtFirstRaw(lx, line, r.value);
    }
  }

  lemma RemovalIs(lx: Lexis, line: string, r: RawStart)
    requires FirstRawStartsAt(lx, line, r.at) && RawAt(lx, line, r.at) == Some(r) && !lx.inComment(line[..r.at])
    ensures IsRemovedAt(lx, line, Cut(line[r.paren + 1..], Closer(line, r), line[..r.at] + EMPTY), r.at)
  {
    CutIs(line[r.paren + 1..], Closer(line, r), line[..r.at] + EMPTY);
  }

  predicate IsRemoved(lx: Lexis, line: string, next: Rest) {
    exists i :: 0 <= i <= |line| && IsRemovedAt(lx, line, next, i)
  }

  lemma RewriteCuts(lx: Lexis, line: string, r: RawStart)
    requires Opener(lx, line) == Some(r)
    ensures Rewrite(lx, line) == Some(Cut(line[r.paren + 1..], Closer(line, r), line[..r.at] + EMPTY))
  {
  }

  lemma RewriteRemoves(lx: Lexis, line: string, r: RawStart, next: Rest)
    requires Opener(lx, line) == Some(r)
    requires next == Cut(line[r.paren + 1..], Closer(line, r), line[..r.at] + EMPTY)
    ensures IsRemoved(lx, line, next)
  {
    StartsAtFirstRaw(lx, line, r);
    RemovalIs(lx, line, r);
    assert IsRemovedAt(lx, line, next, r.at);
  }

  lemma RewriteIs(lx: Lexis, line: string)
    ensures Rewrite(lx, line) == None <==> IsDone(lx, line)
    ensures Rewrite(lx, line).Some? ==> IsRemoved(lx, line, Rewrite(lx, line).value)
  {
    DoneIs(lx, line);
    var r := Opener(lx, line);
    if r.Some? {
      RewriteCuts(lx, line, r.value);
      RewriteRemoves(lx, line, r.value, Rewrite(lx, line).value);
    }
  }

  /** The text behind the opening parenthesis. */
  method CutBody(body: string, closer: string, prefix: string) returns (next: Rest)
    ensures next == Cut(body, closer, prefix)
  {
    var end := Find(body, closer, 0);
    if end.Some? {
      next := Rest(prefix + body[end.value + |closer|..], None);
    } else {
      next := Rest(prefix, Some(closer));
    }
  }

  /** The body of the inner loop; None where the loop is left. */
  method RemoveFirst(lx: Lexis, line: string) returns (next: Option<Rest>)
    ensures next == Rewrite(lx, line)
    ensures next == None <==> IsDone(lx, line)
    ensures next.Some? ==> IsRemoved(lx, line, next.value)
  {
    RewriteIs(lx, line);
    var matched := Opener(lx, line);
    if matched == None {
      return None;
    }
    var r := matched.value;
    RewriteCuts(lx, line, r);
    var cut := CutBody(line[r.paren + 1..], Closer(line, r), line[..r.at] + EMPTY);
    next := Some(cut);
  }

  // ------------------------------------------------------------------- results

  /** A line on which the scan has nothing left to do. */
  predicate Settled(lx: Lexis, line: string) {
    Rewrite(lx, line) == None
  }

  /** Whether a raw string starts at i is decided by the characters up to its parenthesis. */
  lemma RawAtReads(lx: Lexis, a: string, b: string, i: nat, n: nat)
    requires i <= n <= |a| && n <= |b| && a[..n] == b[..n]
    requires RawAt(lx, a, i).Some? && RawAt(lx, a, i).value.paren < n
    ensures RawAt(lx, b, i) == RawAt(lx, a, i)
  {
    var r := RawAt(lx, a, i).value;
    assert forall j :: 0 <= j < n ==> a[j] == a[..n][j] == b[..n][j] == b[j];
    assert PrefixLength(b, i) == PrefixLength(a, i);
    DelimiterEndIs(b, r.delimiter, r.paren);
  }

  lemma {:induction false} DelimiterEndIs(line: string, i: nat, p: nat)
    requires i <= p < |line|
    requires forall j :: i <= j < p ==> !EndsDelimiter(line[j])
    requires EndsDelimiter(line[p])
    ensures DelimiterEnd(line, i) == p
    decreases p - i
  {
    if i < p {
      DelimiterEndIs(line, i + 1, p);
    }
  }

  /** Cutting a line off at its first raw string leaves no raw string. */
  lemma CutIsSettled(lx: Lexis, line: string)
    requires Rewrite(lx, line).Some? && Rewrite(lx, line).value.pending.Some?
    ensures Settled(lx, Rewrite(lx, line).value.line)
  {
    var r := FirstRaw(lx, line, 0).value;
    var cut := line[..r.at] + EMPTY;
    var again := FirstRaw(lx, cut, 0);
    if again.Some? {
      var s := again.value;
      assert cut[s.paren] == '(';
      assert s.paren < r.at;
      assert cut[..r.at] == line[..r.at];
      RawAtReads(lx, cut, line, s.at, r.at);
      FirstRawIsFirst(lx, line, 0, s.at);
      assert false;
    }
  }

  lemma {:induction false} OutsideLineIsSettled(lx: Lexis, line: string)
    ensures Settled(lx, OutsideLine(lx, line).line)
    decreases |line|
  {
    var next := Rewrite(lx, line);
    if next.Some? {
      if next.value.pending == None {
        OutsideLineIsSettled(lx, next.value.line);
      } else {
        CutIsSettled(lx, line);
      }
    }
  }

  lemma EmptyIsSettled(lx: Lexis)
    ensures Settled(lx, EMPTY)
  {
    assert forall i :: 0 <= i <= 2 ==> PrefixLength(EMPTY, i) == 0;
  }

  lemma CleansedLineIsSettled(lx: Lexis, line: string, pending: Option<string>)
    ensures Settled(lx, CleanseLine(lx, line, pending).line)
  {
    if pending == None {
      OutsideLineIsSettled(lx, line);
    } else {
      OutsideLineIsSettled(lx, Resume(line, pending.value).line);
      EmptyIsSettled(lx);
    }
  }

  lemma {:induction false} CleansedLinesStay(lx: Lexis, lines: seq<string>, pending: Option<string>)
    ensures CleanseFrom(lx, CleanseFrom(lx, lines, pending), None) == CleanseFrom(lx, lines, pending)
    decreases |lines|
  {
    if lines != [] {
      var first := CleanseLine(lx, lines[0], pending);
      var rest := CleanseFrom(lx, lines[1..], first.pending);
      CleansedLineIsSettled(lx, lines[0], pending);
      CleansedLinesStay(lx, lines[1..], first.pending);
      assert ([first.line] + rest)[1..] == rest;
    }
  }

  /** A second run finds nothing to remove. */
  lemma CleansingIsIdempotent(lx: Lexis, lines: seq<string>)
    ensures CleanseFrom(lx, CleanseFrom(lx, lines, None), None) == CleanseFrom(lx, lines, None)
  {
    CleansedLinesStay(lx, lines, None);
  }

  lemma {:induction false} CleanseFromSplits(lx: Lexis, a: seq<string>, b: seq<string>, pending: Option<string>)
    ensures CleanseFrom(lx, a + b, pending) == CleanseFrom(lx, a, pending) + CleanseFrom(lx, b, PendingAfter(lx, a, pending))
    decreases |a|
  {
    if a == [] {
      assert a + b == b;
    } else {
      assert (a + b)[1..] == a[1..] + b;
      CleanseFromSplits(lx, a[1..], b, CleanseLine(lx, a[0], pending).pending);
    }
  }

  lemma {:induction false} InsideLines(lx: Lexis, inside: seq<string>, closer: string)
    requires forall i :: 0 <= i < |inside| ==> Find(inside[i], closer, 0) == None
    ensures CleanseFrom(lx, inside, Some(closer)) == seq(|inside|, i => EMPTY)
    ensures PendingAfter(lx, inside, Some(closer)) == Some(closer)
    decreases |inside|
  {
    if inside != [] {
      InsideLines(lx, inside[1..], closer);
      assert seq(|inside|, i => EMPTY) == [EMPTY] + seq(|inside| - 1, i => EMPTY);
    }
  }

  /**
   * A raw string over several lines: the line that opens it, behind any that it opens and closes,
   * is cut off there, the lines wholly inside become "", and scanning resumes behind its closer.
   */
  lemma RawStringOverLines(
    lx: Lexis, first: string, cut: string, closer: string, inside: seq<string>, last: string, after: seq<string>)
    requires CleanseLine(lx, first, None) == Rest(cut, Some(closer))
    requires forall i :: 0 <= i < |inside| ==> Find(inside[i], closer, 0) == None
    requires Find(last, closer, 0).Some?
    ensures CleanseFrom(lx, [first] + inside + [last] + after, None)
         == [cut] + seq(|inside|, i => EMPTY) + CleanseFrom(lx, [Resume(last, closer).line] + after, None)
  {
    Regroup([first], inside, [last]);
    Regroup([first], inside + [last], after);
    Regroup(inside, [last], after);
    CleanseFromSplits(lx, [first], inside + ([last] + after), None);
    CleanseFromSplits(lx, inside, [last] + after, Some(closer));
    InsideLines(lx, inside, closer);
    Regroup([cut], seq(|inside|, i => EMPTY), CleanseFrom(lx, [last] + after, Some(closer)));
    LastResumes(lx, last, closer, after);
  }

  lemma LastResumes(lx: Lexis, last: string, closer: string, after: seq<string>)
    requires Find(last, closer, 0).Some?
    ensures CleanseFrom(lx, [last] + after, Some(closer)) == CleanseFrom(lx, [Resume(last, closer).line] + after, None)
  {
    var resumed := Resume(last, closer).line;
    assert CleanseLine(lx, last, Some(closer)) == CleanseLine(lx, resumed, None);
    assert ([last] + after)[1..] == after && ([resumed] + after)[1..] == after;
  }
}
