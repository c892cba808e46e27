// Raw strings put together from their parts: what the removal makes of a prefix, a delimiter, a body and its closer.
module RawLiterals {
  import opened PyText
  import opened RawStrings
  import opened Wrappers

  predicate IsPrefix(p: string) {
    p == "R" || p == "u8R" || p == "uR" || p == "UR" || p == "LR"
  }

  predicate IsDelimiter(d: string) {
    forall i :: 0 <= i < |d| ==> !IsSpace(d[i]) && d[i] != '\\' && d[i] != '(' && d[i] != ')'
  }

  /** A raw string up to the parenthesis that opens its body. */
  function Opening(p: string, d: string): string {
    p + "\"" + d + "("
  }

  function Closing(d: string): string {
    ")" + d + "\""
  }

  /** Does the closer come first at the end of the body? */
  predicate EndsAt(body: string, closer: string) {
    forall j :: 0 <= j < |body| ==> !OccursAt(body + closer, closer, j)
  }

  /** Can the prefix stand here, is it outside comments, and does no raw string start before it? */
  predicate IsFirst(lx: Lexis, a: string, line: string) {
    && |a| <= |line| && !lx.inComment(a)
    && (a != [] ==> !lx.word(a[|a| - 1]))
    && forall i :: 0 <= i < |a| ==> RawAt(lx, line, i) == None
  }

  // --------------------------------------------------------------- where it is found

  lemma CharsOf(a: string, p: string, d: string, tail: string, line: string)
    requires line == a + Opening(p, d) + tail
    ensures |line| == |a| + |p| + 1 + |d| + 1 + |tail|
    ensures line[..|a|] == a
    ensures forall i :: 0 <= i < |p| ==> line[|a| + i] == p[i]
    ensures line[|a| + |p|] == '"'
    ensures line[|a| + |p| + 1..|a| + |p| + 1 + |d|] == d
    ensures line[|a| + |p| + 1 + |d|] == '('
    ensures line[|a| + |p| + 1 + |d| + 1..] == tail
  {
  }

  lemma PrefixIs(line: string, i: nat, p: string)
    requires IsPrefix(p) && i + |p| <= |line| && forall k :: 0 <= k < |p| ==> line[i + k] == p[k]
    ensures PrefixLength(line, i) == |p|
  {
    assert line[i] == p[0];
    if |p| > 1 {
      assert line[i + 1] == p[1];
    }
    if |p| > 2 {
      assert line[i + 2] == p[2];
    }
  }

  lemma DelimiterStops(line: string, i: nat, d: string)
    requires IsDelimiter(d) && i + |d| < |line| && line[i..i + |d|] == d && line[i + |d|] == '('
    ensures DelimiterEnd(line, i) == i + |d|
  {
    forall j | i <= j < i + |d|
      ensures !EndsDelimiter(line[j])
    {
      assert line[j] == d[j - i];
    }
    DelimiterEndIs(line, i, i + |d|);
  }

  lemma StartsHere(lx: Lexis, line: string, at: nat, p: string, d: string)
    requires IsPrefix(p) && IsDelimiter(d) && at + |p| + 1 + |d| < |line|
    requires at > 0 ==> !lx.word(line[at - 1])
    requires forall i :: 0 <= i < |p| ==> line[at + i] == p[i]
    requires line[at + |p|] == '"'
    requires line[at + |p| + 1..at + |p| + 1 + |d|] == d
    requires line[at + |p| + 1 + |d|] == '('
    ensures RawAt(lx, line, at) == Some(RawStart(at, at + |p| + 1, at + |p| + 1 + |d|))
  {
    PrefixIs(line, at, p);
    DelimiterStops(line, at + |p| + 1, d);
  }

  lemma OpenerAt(lx: Lexis, line: string, at: nat, r: RawStart)
    requires FirstRawStartsAt(lx, line, at) && RawAt(lx, line, at) == Some(r) && !lx.inComment(line[..at])
    ensures Opener(lx, line) == Some(r)
  {
    FirstRawIs(lx, line, at);
  }

  lemma OpenerIs(lx: Lexis, a: string, p: string, d: string, tail: string, line: string, r: RawStart)
    requires IsPrefix(p) && IsDelimiter(d) && line == a + Opening(p, d) + tail && IsFirst(lx, a, line)
    requires r == RawStart(|a|, |a| + |p| + 1, |a| + |p| + 1 + |d|)
    ensures Opener(lx, line) == Some(r)
  {
    CharsOf(a, p, d, tail, line);
    StartsHere(lx, line, |a|, p, d);
    OpenerAt(lx, line, |a|, r);
  }

  lemma CloserIs(line: string, r: RawStart, d: string)
    requires r.delimiter <= r.paren < |line| && line[r.delimiter..r.paren] == d
    ensures Closer(line, r) == Closing(d)
  {
  }

  /** The raw string is the first one of the line, and its closer is made of its delimiter. */
  lemma OpensHere(lx: Lexis, a: string, p: string, d: string, tail: string, line: string)
    requires IsPrefix(p) && IsDelimiter(d) && line == a + Opening(p, d) + tail && IsFirst(lx, a, line)
    ensures Rewrite(lx, line) == Some(Cut(tail, Closing(d), a + EMPTY))
  {
    var r := RawStart(|a|, |a| + |p| + 1, |a| + |p| + 1 + |d|);
    OpenerIs(lx, a, p, d, tail, line, r);
    CharsOf(a, p, d, tail, line);
    CloserIs(line, r, d);
    RewriteCuts(lx, line, r);
  }

  // ----------------------------------------------------------------- where it ends

  lemma FindIs(s: string, sub: string, i: nat)
    requires OccursAt(s, sub, i) && forall j :: 0 <= j < i ==> !OccursAt(s, sub, j)
    ensures Find(s, sub, 0) == Some(i)
  {
    var r := Find(s, sub, 0);
    assert r.Some? ==> r.value <= i;
  }

  lemma OccursEarlier(a: string, b: string, sub: string, j: nat)
    requires j + |sub| <= |a|
    ensures OccursAt(a + b, sub, j) <==> OccursAt(a, sub, j)
  {
    assert (a + b)[j..j + |sub|] == a[j..j + |sub|];
  }

  lemma FoundAtEnd(body: string, closer: string, rest: string)
    requires EndsAt(body, closer)
    ensures Find(body + closer + rest, closer, 0) == Some(|body|)
    ensures (body + closer + rest)[|body| + |closer|..] == rest
  {
    var text := body + closer + rest;
    assert text[|body|..|body| + |closer|] == closer;
    forall j | 0 <= j < |body|
      ensures !OccursAt(text, closer, j)
    {
      OccursEarlier(body + closer, rest, closer, j);
    }
    FindIs(text, closer, |body|);
  }

  lemma NotFound(body: string, closer: string)
    requires !Occurs(body, closer)
    ensures Find(body, closer, 0) == None
  {
    assert forall i: nat :: OccursAt(body, closer, i) ==> i <= |body|;
  }

  // --------------------------------------------------------------------- results

  /**
   * A raw string on one line, with any of the five prefixes, any delimiter and any body in which its closer does
   * not occur before its end, other closers and parentheses included: one step puts `""` in its place.
   */
  lemma LiteralIsRemoved(lx: Lexis, a: string, p: string, d: string, body: string, rest: string, line: string)
    requires IsPrefix(p) && IsDelimiter(d) && EndsAt(body, ")" + d + "\"")
    requires line == a + (p + "\"" + d + "(") + (body + (")" + d + "\"") + rest)
    requires IsFirst(lx, a, line)
    ensures Rewrite(lx, line) == Some(Rest(a + "\"\"" + rest, None))
    ensures CleanseLine(lx, line, None) == CleanseLine(lx, a + "\"\"" + rest, None)
  {
    var tail := body + Closing(d) + rest;
    OpensHere(lx, a, p, d, tail, line);
    FoundAtEnd(body, Closing(d), rest);
    assert Cut(tail, Closing(d), a + EMPTY) == Rest(a + "\"\"" + rest, None);
  }

  /** Do the letters of the prefixes count as word characters, as they do in Python? */
  predicate KnowsLetters(lx: Lexis) {
    lx.word('u') && lx.word('U') && lx.word('L') && lx.word('R') && lx.word('8')
  }

  /** No raw string starts in a text without quotes that does not end in a word character. */
  lemma NoQuoteNoStart(lx: Lexis, a: string, p: string, d: string, tail: string, line: string)
    requires IsPrefix(p) && line == a + Opening(p, d) + tail
    requires KnowsLetters(lx) && !lx.inComment(a) && (a != [] ==> !lx.word(a[|a| - 1]))
    requires forall i :: 0 <= i < |a| ==> a[i] != '"'
    ensures IsFirst(lx, a, line)
  {
    CharsOf(a, p, d, tail, line);
    forall i | 0 <= i < |a|
      ensures RawAt(lx, line, i) == None
    {
      NoStartAt(lx, a, p, line, i);
    }
  }

  lemma NoStartAt(lx: Lexis, a: string, p: string, line: string, i: nat)
    requires IsPrefix(p) && i < |a| && |a| + |p| < |line| && line[..|a|] == a
    requires forall k :: 0 <= k < |p| ==> line[|a| + k] == p[k]
    requires KnowsLetters(lx) && !lx.word(a[|a| - 1])
    requires forall k :: 0 <= k < |a| ==> a[k] != '"'
    ensures RawAt(lx, line, i) == None
  {
    var n := PrefixLength(line, i);
    assert forall k :: 0 <= k < |a| ==> line[k] == a[k];
    assert line[|a|] == p[0];
    if n > 0 {
      LastOfPrefix(line, i, n);
      assert i + n < |a| ==> line[i + n] != '"';
    }
  }

  lemma LastOfPrefix(line: string, i: nat, n: nat)
    requires i < |line| && n == PrefixLength(line, i) && n > 0
    ensures line[i + n - 1] == 'R'
  {
  }

  /** The same, where nothing that looks like a raw string can stand before it. */
  lemma LiteralAfterText(lx: Lexis, a: string, p: string, d: string, body: string, rest: string)
    requires IsPrefix(p) && IsDelimiter(d) && EndsAt(body, ")" + d + "\"")
    requires KnowsLetters(lx) && !lx.inComment(a) && (a != [] ==> !lx.word(a[|a| - 1]))
    requires forall i :: 0 <= i < |a| ==> a[i] != '"'
    ensures Rewrite(lx, a + (p + "\"" + d + "(") + (body + (")" + d + "\"") + rest)) == Some(Rest(a + "\"\"" + rest, None))
  {
    var tail := body + Closing(d) + rest;
    var line := a + Opening(p, d) + tail;
    NoQuoteNoStart(lx, a, p, d, tail, line);
    LiteralIsRemoved(lx, a, p, d, body, rest, line);
  }

  /**
   * A raw string over several lines: what stands before it is kept with `""` behind it, the lines wholly inside
   * become `""`, and the last line goes on with its indent, `""` and what follows the closer.
   */
  lemma LiteralOverLines(
    lx: Lexis, a: string, p: string, d: string, start: string, inside: seq<string>, end: string, rest: string,
    after: seq<string>, first: string, last: string)
    requires IsPrefix(p) && IsDelimiter(d)
    requires first == a + (p + "\"" + d + "(") + start && IsFirst(lx, a, first)
    requires last == end + (")" + d + "\"") + rest && EndsAt(end, ")" + d + "\"")
    requires !Occurs(start, ")" + d + "\"")
    requires forall i :: 0 <= i < |inside| ==> !Occurs(inside[i], ")" + d + "\"")
    ensures CleanseFrom(lx, [first] + inside + [last] + after, None)
         == [a + "\"\""] + seq(|inside|, i => "\"\"")
            + CleanseFrom(lx, [Indent(end) + "\"\"" + rest] + after, None)
  {
    var closer := Closing(d);
    OpensHere(lx, a, p, d, start, first);
    NotFound(start, closer);
    assert CleanseLine(lx, first, None) == Rest(a + EMPTY, Some(closer));
    forall i | 0 <= i < |inside|
      ensures Find(inside[i], closer, 0) == None
    {
      NotFound(inside[i], closer);
    }
    LastIs(d, end, rest, last);
    RawStringOverLines(lx, first, a + EMPTY, closer, inside, last, after);
  }

  lemma LastIs(d: string, end: string, rest: string, last: string)
    requires last == end + Closing(d) + rest && EndsAt(end, Closing(d))
    ensures Find(last, Closing(d), 0).Some?
    ensures Resume(last, Closing(d)) == Rest(Indent(end) + EMPTY + rest, None)
  {
    FoundAtEnd(end, Closing(d), rest);
    IndentGoesNoFurther(end, Closing(d) + rest);
    Regroup(end, Closing(d), rest);
  }

  /** White space before a character that is none. */
  lemma IndentGoesNoFurther(s: string, t: string)
    requires t != [] && !IsSpace(t[0])
    ensures Indent(s + t) == Indent(s)
  {
    IndentIsIndent(s);
    IndentIsIndent(s + t);
    var n, m := |Indent(s)|, |Indent(s + t)|;
    assert forall i :: 0 <= i < |s| ==> (s + t)[i] == s[i];
    assert (s + t)[|s|] == t[0];
    assert n == m;
    assert (s + t)[..n] == s[..n];
  }

  // ------------------------------------------------------------- what starts a raw string

  /** Do a prefix, a quote, the delimiter and a parenthesis stand at i, with no word character before them? */
  predicate OpensAt(lx: Lexis, line: string, i: nat, p: string, d: string) {
    && IsPrefix(p) && IsDelimiter(d) && (i > 0 && i <= |line| ==> !lx.word(line[i - 1]))
    && OccursAt(line, Opening(p, d), i)
  }

  lemma PrefixOf(line: string, i: nat, n: nat) returns (p: string)
    requires i <= |line| && n == PrefixLength(line, i) && n > 0
    ensures IsPrefix(p) && |p| == n && forall k :: 0 <= k < n ==> line[i + k] == p[k]
  {
    p := line[i..i + n];
    if n == 1 {
      assert p == [line[i]];
    } else if n == 2 {
      assert p == [line[i], line[i + 1]];
    } else {
      assert p == [line[i], line[i + 1], line[i + 2]];
    }
  }

  lemma OpeningOccurs(line: string, i: nat, p: string, d: string, n: nat)
    requires n == |p| && i + n + 1 + |d| < |line|
    requires forall k :: 0 <= k < n ==> line[i + k] == p[k]
    requires line[i + n] == '"' && line[i + n + 1..i + n + 1 + |d|] == d && line[i + n + 1 + |d|] == '('
    ensures OccursAt(line, Opening(p, d), i)
  {
    var part := line[i..i + n + 1 + |d| + 1];
    assert part == line[i..i + n] + [line[i + n]] + line[i + n + 1..i + n + 1 + |d|] + [line[i + n + 1 + |d|]];
    assert line[i..i + n] == p;
  }

  lemma OpeningHolds(line: string, i: nat, p: string, d: string)
    requires OccursAt(line, Opening(p, d), i)
    ensures i + |p| + 1 + |d| < |line|
    ensures forall k :: 0 <= k < |p| ==> line[i + k] == p[k]
    ensures line[i + |p|] == '"'
    ensures line[i + |p| + 1..i + |p| + 1 + |d|] == d
    ensures line[i + |p| + 1 + |d|] == '('
  {
    var o := Opening(p, d);
    assert line == line[..i] + o + line[i + |o|..];
    CharsOf(line[..i], p, d, line[i + |o|..], line);
  }

  lemma OpensIfRaw(lx: Lexis, line: string, i: nat)
    requires i <= |line| && RawAt(lx, line, i).Some?
    ensures exists p, d :: OpensAt(lx, line, i, p, d)
  {
    var r := RawAt(lx, line, i).value;
    var n := PrefixLength(line, i);
    var p := PrefixOf(line, i, n);
    var d := line[r.delimiter..r.paren];
    assert IsDelimiter(d);
    OpeningOccurs(line, i, p, d, n);
    assert OpensAt(lx, line, i, p, d);
  }

  /**
   * A raw string starts at a position if and only if one of the five prefixes, a quote, a delimiter without white
   * space, backslashes and parentheses, and an opening parenthesis stand there, behind no word character.
   */
  lemma RawStartMeans(lx: Lexis, line: string, i: nat)
    requires i <= |line|
    ensures RawAt(lx, line, i).Some? <==> exists p, d :: OpensAt(lx, line, i, p, d)
  {
    if RawAt(lx, line, i).Some? {
      OpensIfRaw(lx, line, i);
    }
    if p, d :| OpensAt(lx, line, i, p, d) {
      OpeningHolds(line, i, p, d);
      StartsHere(lx, line, i, p, d);
    }
  }
}
