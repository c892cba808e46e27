// Lines and indentation in the comment converter: symmetric line splitting, removal of
// the common indent, and the prefix of a Rust doc comment.
module CommentText {
  import opened Words
  import opened Wrappers

  // ------------------------------------------------------------------ characters

  /** Unicode white space, as in char::is_whitespace. */
  predicate IsWhitespace(c: char) {
    || '\t' <= c <= '\r'
    || c == ' ' || c == '\U{85}' || c == '\U{A0}' || c == '\U{1680}' || c == '\U{2028}' || c == '\U{2029}'
    || c == '\U{202F}' || c == '\U{205F}' || c == '\U{3000}'
    || '\U{2000}' <= c <= '\U{200A}'
  }

  /** Is the line empty once trimmed? */
  predicate IsBlank(line: string) {
    forall c :: c in line ==> IsWhitespace(c)
  }

  /** The last k bytes of a character's encoding, six bits in each. */
  function Continuation(n: nat, k: nat): seq<Byte> {
    if k == 0 then [] else Continuation(n / 0x40, k - 1) + [0x80 + n % 0x40]
  }

  function Utf8(c: char): (bytes: seq<Byte>)
    ensures bytes != []
    ensures c < '\U{80}' ==> bytes == [c as int]
    ensures c >= '\U{80}' ==> bytes[0] >= 0x80
  {
    var n := c as int;
    if n < 0x80 then [n]
    else if n < 0x800 then [0xC0 + n / 0x40] + Continuation(n, 1)
    else if n < 0x1_0000 then [0xE0 + n / 0x1000] + Continuation(n, 2)
    else [0xF0 + n / 0x4_0000] + Continuation(n, 3)
  }

  function Bytes(s: string): seq<Byte> {
    if s == [] then [] else Utf8(s[0]) + Bytes(s[1..])
  }

  // ----------------------------------------------------------------------- lines

  /** The position of the first newline, or the length. */
  function Newline(s: string): (i: nat)
    ensures i <= |s|
    ensures i < |s| ==> s[i] == '\n'
  {
    if s == [] || s[0] == '\n' then 0 else 1 + Newline(s[1..])
  }

  lemma {:induction false} NewlineIsFirst(s: string)
    ensures OneLine(s[..Newline(s)])
  {
    if s != [] && s[0] != '\n' {
      NewlineIsFirst(s[1..]);
      assert s[..Newline(s)] == [s[0]] + s[1..][..Newline(s[1..])];
    }
  }

  predicate OneLine(s: string) {
    forall i :: 0 <= i < |s| ==> s[i] != '\n'
  }

  function WithoutReturn(line: string): string {
    if line != [] && line[|line| - 1] == '\r' then line[..|line| - 1] else line
  }

  /** The lines of a text as str::lines gives them: no line for an empty rest, and `\r\n` ends a line as well. */
  function StrLines(s: string): seq<string>
    decreases |s|
  {
    if s == [] then []
    else if Newline(s) == |s| then [s]
    else [WithoutReturn(s[..Newline(s)])] + StrLines(s[Newline(s) + 1..])
  }

  function Lines(s: string): seq<string> {
    if EndsInNewline(s) then StrLines(s) + [""] else StrLines(s)
  }

  function Join(lines: seq<string>): string {
    if lines == [] then ""
    else if |lines| == 1 then lines[0]
    else lines[0] + "\n" + Join(lines[1..])
  }

  /** The text without the carriage returns that stand before a newline, one for each newline. */
  function WithoutReturns(s: string): (r: string)
    ensures |r| <= |s|
  {
    if s == [] then []
    else if |s| > 1 && s[0] == '\r' && s[1] == '\n' then WithoutReturns(s[1..])
    else [s[0]] + WithoutReturns(s[1..])
  }

  predicate HasReturn(s: string) {
    exists i :: 0 <= i < |s| - 1 && s[i] == '\r' && s[i + 1] == '\n'
  }

  lemma {:induction false} WithoutReturnsSplits(a: string, b: string)
    requires OneLine(a)
    ensures WithoutReturns(a + "\n" + b) == WithoutReturn(a) + "\n" + WithoutReturns(b)
  {
    var s := a + "\n" + b;
    if a == [] {
      assert s[1..] == b;
    } else {
      var c, rest := a[0], a[1..];
      assert s[0] == c && s[1..] == rest + "\n" + b;
      WithoutReturnsSplits(rest, b);
      if c == '\r' && rest == [] {
        assert s[1] == '\n';
      } else {
        assert s[1] == if rest == [] then '\n' else a[1];
        assert WithoutReturn(a) == [c] + WithoutReturn(rest);
        Regroup([c], WithoutReturn(rest), "\n");
        Regroup([c], WithoutReturn(rest) + "\n", WithoutReturns(b));
      }
    }
  }

  lemma {:induction false} WithoutReturnsOfLine(a: string)
    requires OneLine(a)
    ensures WithoutReturns(a) == a
  {
    if a != [] {
      WithoutReturnsOfLine(a[1..]);
    }
  }

  lemma {:induction false} ReturnsMatter(s: string)
    ensures WithoutReturns(s) == s <==> !HasReturn(s)
    ensures HasReturn(s) ==> |WithoutReturns(s)| < |s|
  {
    if s != [] {
      var rest := s[1..];
      ReturnsMatter(rest);
      if HasReturn(rest) {
        var i :| 0 <= i < |rest| - 1 && rest[i] == '\r' && rest[i + 1] == '\n';
        assert s[i + 1] == '\r' && s[i + 2] == '\n';
      }
      if HasReturn(s) && !(|s| > 1 && s[0] == '\r' && s[1] == '\n') {
        var i :| 0 <= i < |s| - 1 && s[i] == '\r' && s[i + 1] == '\n';
        assert rest[i - 1] == '\r' && rest[i] == '\n';
      }
    }
  }

  /** Splitting and joining is the identity but for the carriage returns that stand before a newline. */
  lemma {:induction false} JoinOfLines(s: string)
    ensures Join(Lines(s)) == WithoutReturns(s)
    decreases |s|
  {
    if s != [] {
      var i := Newline(s);
      if i == |s| {
        assert s[..i] == s;
        NewlineIsFirst(s);
        WithoutReturnsOfLine(s);
      } else {
        var first, rest := s[..i], s[i + 1..];
        assert s == first + "\n" + rest;
        NewlineIsFirst(s);
        WithoutReturnsSplits(first, rest);
        JoinOfLines(rest);
        LinesSplit(s);
      }
    }
  }

  predicate EndsInNewline(s: string) {
    s != [] && s[|s| - 1] == '\n'
  }

  lemma LinesSplitInto(s: string, first: string, rest: string)
    requires StrLines(s) == [first] + StrLines(rest)
    requires EndsInNewline(s) <==> rest == [] || EndsInNewline(rest)
    ensures Lines(s) == [first] + if rest == [] then [""] else Lines(rest)
  {
    Regroup([first], StrLines(rest), [""]);
    if rest == [] {
      assert StrLines(rest) == [];
    }
  }

  lemma LinesSplit(s: string)
    requires Newline(s) < |s|
    ensures var rest := s[Newline(s) + 1..];
            Lines(s) == [WithoutReturn(s[..Newline(s)])] + if rest == [] then [""] else Lines(rest)
    ensures |Lines(s)| > 1
  {
    var rest := s[Newline(s) + 1..];
    assert rest != [] ==> rest[|rest| - 1] == s[|s| - 1];
    LinesSplitInto(s, WithoutReturn(s[..Newline(s)]), rest);
    LinesAreSome(rest);
  }

  lemma LinesAreSome(s: string)
    ensures s != [] ==> Lines(s) != []
  {
  }

  /** The round trip is exact if and only if the text has no `\r\n`. */
  lemma LinesRoundTrip(s: string)
    ensures Join(Lines(s)) == s <==> !HasReturn(s)
  {
    JoinOfLines(s);
    ReturnsMatter(s);
  }

  /** A text that does not come back: the carriage return is lost. */
  lemma ReturnIsLost()
    ensures Join(Lines("a\r\n")) == "a\n"
  {
    var s := "a\r\n";
    JoinOfLines(s);
    assert s[1..] == "\r\n" && s[1..][1..] == "\n" && s[1..][1..][1..] == "";
    assert WithoutReturns("\n") == "\n";
    assert WithoutReturns("\r\n") == "\n";
  }

  lemma {:induction false} OneLineHasNoNewline(s: string)
    requires OneLine(s)
    ensures Newline(s) == |s|
  {
    if s != [] {
      OneLineHasNoNewline(s[1..]);
    }
  }

  predicate AreLines(lines: seq<string>) {
    forall i :: 0 <= i < |lines| ==> OneLine(lines[i])
  }

  lemma LinesOfOneLine(s: string)
    requires s != [] && Newline(s) == |s|
    ensures Lines(s) == [s] && OneLine(s)
  {
    NewlineIsFirst(s);
    assert s[..|s|] == s;
  }

  lemma AreLinesCons(first: string, rest: seq<string>)
    requires OneLine(first) && AreLines(rest)
    ensures AreLines([first] + rest)
  {
  }

  lemma {:induction false} LinesAreLines(s: string)
    ensures AreLines(Lines(s)) && Lines(s) != [""]
    decreases |s|
  {
    if s != [] {
      var i := Newline(s);
      if i == |s| {
        LinesOfOneLine(s);
      } else {
        var first, rest := WithoutReturn(s[..i]), s[i + 1..];
        LinesSplit(s);
        NewlineIsFirst(s);
        LinesAreLines(rest);
        AreLinesCons(first, if rest == [] then [""] else Lines(rest));
      }
    }
  }

  /** Every line but the last without a carriage return at its end. */
  function WithoutEndReturns(lines: seq<string>): (r: seq<string>)
    ensures |r| == |lines|
  {
    seq(|lines|, i requires 0 <= i < |lines| => if i < |lines| - 1 then WithoutReturn(lines[i]) else lines[i])
  }

  lemma EndReturnsSplit(lines: seq<string>)
    requires |lines| > 1
    ensures WithoutEndReturns(lines) == [WithoutReturn(lines[0])] + WithoutEndReturns(lines[1..])
  {
  }

  lemma {:induction false} NewlineIs(a: string, b: string)
    requires OneLine(a)
    ensures Newline(a + "\n" + b) == |a|
  {
    if a != [] {
      var s := a + "\n" + b;
      assert s[1..] == a[1..] + "\n" + b;
      NewlineIs(a[1..], b);
    }
  }

  /** Joined lines split again into the same lines, but for carriage returns at their ends. */
  lemma {:induction false} LinesOfJoin(lines: seq<string>)
    requires AreLines(lines) && lines != [""]
    ensures Lines(Join(lines)) == WithoutEndReturns(lines)
    decreases |lines|
  {
    if |lines| == 1 {
      OneLineHasNoNewline(lines[0]);
    } else if |lines| > 1 {
      var first, rest := lines[0], Join(lines[1..]);
      var s := Join(lines);
      NewlineIs(first, rest);
      assert s[..|first|] == first && s[|first| + 1..] == rest;
      LinesSplit(s);
      EndReturnsSplit(lines);
      if lines[1..] == [""] {
        assert rest == [];
        assert WithoutEndReturns([""]) == [""];
      } else {
        LinesOfJoin(lines[1..]);
        JoinIsEmpty(lines[1..]);
      }
    }
  }

  lemma JoinIsEmpty(lines: seq<string>)
    requires lines != [] && lines != [""]
    ensures Join(lines) != []
  {
  }

  // ----------------------------------------------------------------------- indent

  /** The number of leading bytes that are indent, unless all bytes are. */
  function IndentSize(line: string, isIndent: Byte -> bool): Option<nat> {
    IndentIn(Bytes(line), isIndent)
  }

  function IndentIn(bytes: seq<Byte>, isIndent: Byte -> bool): Option<nat> {
    SizeOf(LeadingIndent(bytes, isIndent), |bytes|)
  }

  function SizeOf(n: nat, total: nat): Option<nat> {
    if n == total then None else Some(n)
  }

  function LeadingIndent(bytes: seq<Byte>, isIndent: Byte -> bool): (n: nat)
    ensures n <= |bytes|
  {
    if bytes == [] || !isIndent(bytes[0]) then 0 else 1 + LeadingIndent(bytes[1..], isIndent)
  }

  /** The smallest indent of the lines that have more than indent; 0 if there is no such line. */
  function MinIndent(lines: seq<string>, isIndent: Byte -> bool): nat {
    match SmallestIndent(lines, isIndent) case None => 0 case Some(n) => n
  }

  function SmallestIndent(lines: seq<string>, isIndent: Byte -> bool): (r: Option<nat>)
    ensures forall i :: 0 <= i < |lines| && IndentSize(lines[i], isIndent).Some? ==>
              r.Some? && r.value <= IndentSize(lines[i], isIndent).value
    ensures r.Some? ==> exists i :: 0 <= i < |lines| && IndentSize(lines[i], isIndent) == r
  {
    if lines == [] then None
    else
      var first, rest := IndentSize(lines[0], isIndent), SmallestIndent(lines[1..], isIndent);
      assert forall i :: 1 <= i < |lines| ==> lines[i] == lines[1..][i - 1];
      if first == None then rest
      else if rest == None || first.value <= rest.value then first
      else rest
  }

  /** Only ASCII bytes count as indent, and no line end does. */
  predicate IndentTest(isIndent: Byte -> bool) {
    (forall b: Byte :: isIndent(b) ==> b < 0x80) && !isIndent(10) && !isIndent(13)
  }

  /** The bytes of the line behind the first k. */
  function SkipBytes(line: string, k: nat): seq<Byte> {
    Behind(Bytes(line), k)
  }

  function Behind(bytes: seq<Byte>, k: nat): seq<Byte> {
    if k <= |bytes| then bytes[k..] else []
  }

  function Skip(line: string, k: nat): string {
    if k <= |line| then line[k..] else ""
  }

  /** May k bytes of indent be taken from the line? A line of indent only has enough for every k. */
  predicate Reaches(line: string, k: nat, isIndent: Byte -> bool) {
    var n := LeadingIndent(Bytes(line), isIndent);
    k <= n || n == |Bytes(line)|
  }

  lemma BytesOfAscii(line: string)
    requires line != [] && line[0] < '\U{80}'
    ensures Bytes(line) == [line[0] as int] + Bytes(line[1..])
  {
  }

  lemma LeadingIndentOfFirst(b: Byte, rest: seq<Byte>, isIndent: Byte -> bool)
    requires isIndent(b)
    ensures LeadingIndent([b] + rest, isIndent) == 1 + LeadingIndent(rest, isIndent)
  {
    assert ([b] + rest)[1..] == rest;
  }

  lemma {:induction false} LeadingIndentOfRest(bytes: seq<Byte>, k: nat, isIndent: Byte -> bool)
    requires k <= LeadingIndent(bytes, isIndent)
    ensures LeadingIndent(bytes[k..], isIndent) == LeadingIndent(bytes, isIndent) - k
  {
    if k == 0 {
      assert bytes[0..] == bytes;
    } else {
      LeadingIndentOfRest(bytes[1..], k - 1, isIndent);
      assert bytes[1..][k - 1..] == bytes[k..];
    }
  }

  lemma FirstIsIndent(line: string, k: nat, isIndent: Byte -> bool)
    requires IndentTest(isIndent) && Reaches(line, k, isIndent) && k > 0 && line != []
    ensures line[0] < '\U{80}' && isIndent(line[0] as int)
  {
    assert Bytes(line)[0] == Utf8(line[0])[0];
  }

  /** Taking bytes of indent takes as many whole characters, and indent only. */
  lemma {:induction false} SkippingIndent(line: string, k: nat, isIndent: Byte -> bool)
    requires IndentTest(isIndent) && Reaches(line, k, isIndent)
    ensures Bytes(Skip(line, k)) == SkipBytes(line, k)
    ensures forall i :: 0 <= i < k && i < |line| ==> line[i] < '\U{80}' && isIndent(line[i] as int)
    decreases k
  {
    if k > 0 && line != [] {
      var rest := line[1..];
      FirstIsIndent(line, k, isIndent);
      BytesOfAscii(line);
      LeadingIndentOfFirst(line[0] as int, Bytes(rest), isIndent);
      SkippingIndent(rest, k - 1, isIndent);
      assert Skip(line, k) == Skip(rest, k - 1);
      assert SkipBytes(line, k) == SkipBytes(rest, k - 1);
      assert forall i :: 0 < i < |line| ==> line[i] == rest[i - 1];
    }
  }

  /** What is left of the indent when k bytes of it are taken. */
  function Less(size: Option<nat>, k: nat): Option<nat> {
    if size.Some? && k <= size.value then Some(size.value - k) else None
  }

  lemma LessIs(m: nat, length: nat, n: nat, total: nat, k: nat)
    requires m <= length && n <= total && k <= n && m == n - k && length == total - k
    ensures SizeOf(m, length) == Less(SizeOf(n, total), k)
  {
  }

  lemma IndentBehind(bytes: seq<Byte>, k: nat, isIndent: Byte -> bool)
    requires k <= LeadingIndent(bytes, isIndent) || LeadingIndent(bytes, isIndent) == |bytes|
    ensures IndentIn(Behind(bytes, k), isIndent) == Less(IndentIn(bytes, isIndent), k)
  {
    var n := LeadingIndent(bytes, isIndent);
    if k <= n {
      LeadingIndentOfRest(bytes, k, isIndent);
      LessIs(LeadingIndent(bytes[k..], isIndent), |bytes[k..]|, n, |bytes|, k);
    }
  }

  lemma SkippingLessens(line: string, k: nat, isIndent: Byte -> bool)
    requires IndentTest(isIndent) && Reaches(line, k, isIndent)
    ensures IndentSize(Skip(line, k), isIndent) == Less(IndentSize(line, isIndent), k)
  {
    SkippingIndent(line, k, isIndent);
    IndentBehind(Bytes(line), k, isIndent);
  }

  function Skips(lines: seq<string>, k: nat): (r: seq<string>)
    ensures |r| == |lines|
  {
    seq(|lines|, i requires 0 <= i < |lines| => Skip(lines[i], k))
  }

  function TrimCommonIndent(source: string, isIndent: Byte -> bool): string {
    Join(Skips(Lines(source), MinIndent(StrLines(source), isIndent)))
  }

  lemma {:induction false} EmptyLineHasNoIndent(lines: seq<string>, isIndent: Byte -> bool)
    ensures SmallestIndent(lines + [""], isIndent) == SmallestIndent(lines, isIndent)
  {
    if lines == [] {
      assert lines + [""] == [""];
      assert SmallestIndent([""][1..], isIndent) == None;
    } else {
      assert (lines + [""])[1..] == lines[1..] + [""];
      EmptyLineHasNoIndent(lines[1..], isIndent);
    }
  }

  lemma MinIndentOfLines(s: string, isIndent: Byte -> bool)
    ensures MinIndent(Lines(s), isIndent) == MinIndent(StrLines(s), isIndent)
  {
    EmptyLineHasNoIndent(StrLines(s), isIndent);
  }

  lemma MinIndentReaches(lines: seq<string>, isIndent: Byte -> bool, i: nat)
    requires i < |lines|
    ensures Reaches(lines[i], MinIndent(lines, isIndent), isIndent)
  {
  }

  /** Of every line only indent is taken, from all lines the same amount, and whole characters. */
  lemma TrimTakesIndentOnly(s: string, isIndent: Byte -> bool, i: nat)
    requires IndentTest(isIndent) && i < |Lines(s)|
    ensures var k := MinIndent(Lines(s), isIndent);
            var line := Lines(s)[i];
            && TrimCommonIndent(s, isIndent) == Join(Skips(Lines(s), k))
            && Bytes(Skip(line, k)) == SkipBytes(line, k)
            && (forall j :: 0 <= j < k && j < |line| ==> line[j] < '\U{80}' && isIndent(line[j] as int))
            && IndentSize(Skip(line, k), isIndent) == Less(IndentSize(line, isIndent), k)
            && (IndentSize(line, isIndent).Some? ==> k <= IndentSize(line, isIndent).value)
  {
    MinIndentOfLines(s, isIndent);
    MinIndentReaches(Lines(s), isIndent, i);
    SkippingIndent(Lines(s)[i], MinIndent(Lines(s), isIndent), isIndent);
    SkippingLessens(Lines(s)[i], MinIndent(Lines(s), isIndent), isIndent);
  }

  /** After trimming, no common indent is left. */
  lemma NoIndentLeft(lines: seq<string>, isIndent: Byte -> bool)
    requires IndentTest(isIndent)
    ensures MinIndent(Skips(lines, MinIndent(lines, isIndent)), isIndent) == 0
  {
    var k := MinIndent(lines, isIndent);
    var trimmed := Skips(lines, k);
    if SmallestIndent(lines, isIndent) == None {
      assert trimmed == lines;
    } else {
      var i :| 0 <= i < |lines| && IndentSize(lines[i], isIndent) == SmallestIndent(lines, isIndent);
      MinIndentReaches(lines, isIndent, i);
      SkippingLessens(lines[i], k, isIndent);
      assert IndentSize(trimmed[i], isIndent) == Some(0);
    }
  }

  lemma SkipsAreLines(lines: seq<string>, isIndent: Byte -> bool)
    requires IndentTest(isIndent) && AreLines(lines) && lines != [""]
    ensures var trimmed := Skips(lines, MinIndent(lines, isIndent));
            AreLines(trimmed) && trimmed != [""]
  {
    var trimmed := Skips(lines, MinIndent(lines, isIndent));
    assert Bytes("") == [];
    assert IndentSize("", isIndent) == None;
    if |lines| == 1 {
      SkippingLessens(lines[0], MinIndent(lines, isIndent), isIndent);
      assert SmallestIndent(lines, isIndent) == IndentSize(lines[0], isIndent);
    }
  }

  predicate EndsInReturn(line: string) {
    line != [] && line[|line| - 1] == '\r'
  }

  /** No line but the last ends in a carriage return. */
  predicate Clean(lines: seq<string>) {
    forall i :: 0 <= i < |lines| - 1 ==> !EndsInReturn(lines[i])
  }

  lemma CleanLinesStay(lines: seq<string>)
    ensures Clean(lines) <==> WithoutEndReturns(lines) == lines
  {
    if !Clean(lines) {
      var i :| 0 <= i < |lines| - 1 && EndsInReturn(lines[i]);
      assert |WithoutEndReturns(lines)[i]| < |lines[i]|;
    }
  }

  lemma {:induction false} JoinShrinks(a: seq<string>, b: seq<string>)
    requires |a| == |b| && forall i :: 0 <= i < |a| ==> |a[i]| <= |b[i]|
    ensures |Join(a)| <= |Join(b)|
    ensures (exists i :: 0 <= i < |a| && |a[i]| < |b[i]|) ==> |Join(a)| < |Join(b)|
  {
    if |a| > 1 {
      JoinShrinks(a[1..], b[1..]);
      if exists i :: 0 <= i < |a| && |a[i]| < |b[i]| {
        var i :| 0 <= i < |a| && |a[i]| < |b[i]|;
        assert i > 0 ==> |a[1..][i - 1]| < |b[1..][i - 1]|;
      }
    }
  }

  /** Joined lines lose something when they are split and joined again exactly if they are not clean. */
  lemma UncleanJoinShrinks(lines: seq<string>)
    ensures Clean(lines) <==> Join(WithoutEndReturns(lines)) == Join(lines)
    ensures !Clean(lines) ==> |Join(WithoutEndReturns(lines))| < |Join(lines)|
  {
    CleanLinesStay(lines);
    if !Clean(lines) {
      var i :| 0 <= i < |lines| - 1 && EndsInReturn(lines[i]);
      assert |WithoutEndReturns(lines)[i]| < |lines[i]|;
      JoinShrinks(WithoutEndReturns(lines), lines);
    }
  }

  lemma TrimKeepsClean(lines: seq<string>, isIndent: Byte -> bool)
    requires IndentTest(isIndent)
    ensures Clean(Skips(lines, MinIndent(lines, isIndent))) <==> Clean(lines)
  {
    var k := MinIndent(lines, isIndent);
    forall i | 0 <= i < |lines|
      ensures EndsInReturn(Skip(lines[i], k)) <==> EndsInReturn(lines[i])
    {
      MinIndentReaches(lines, isIndent, i);
      SkippingIndent(lines[i], k, isIndent);
      if EndsInReturn(lines[i]) {
        assert !isIndent(lines[i][|lines[i]| - 1] as int);
      }
    }
    assert forall i :: 0 <= i < |lines| ==> Skips(lines, k)[i] == Skip(lines[i], k);
  }

  lemma TrimIsOnLines(s: string, isIndent: Byte -> bool)
    ensures TrimCommonIndent(s, isIndent) == Join(Skips(Lines(s), MinIndent(Lines(s), isIndent)))
  {
    MinIndentOfLines(s, isIndent);
  }

  lemma LinesOfTrim(s: string, isIndent: Byte -> bool)
    requires IndentTest(isIndent)
    ensures Lines(TrimCommonIndent(s, isIndent))
         == WithoutEndReturns(Skips(Lines(s), MinIndent(Lines(s), isIndent)))
  {
    TrimIsOnLines(s, isIndent);
    LinesAreLines(s);
    SkipsAreLines(Lines(s), isIndent);
    LinesOfJoin(Skips(Lines(s), MinIndent(Lines(s), isIndent)));
  }

  lemma TrimmingCleanLines(trimmed: seq<string>, isIndent: Byte -> bool)
    requires Clean(trimmed) && MinIndent(trimmed, isIndent) == 0
    ensures var again := WithoutEndReturns(trimmed); Skips(again, MinIndent(again, isIndent)) == trimmed
  {
    CleanLinesStay(trimmed);
    assert Skips(trimmed, 0) == trimmed;
  }

  lemma TrimmingUncleanLines(trimmed: seq<string>, k: nat)
    requires !Clean(trimmed)
    ensures |Join(Skips(WithoutEndReturns(trimmed), k))| < |Join(trimmed)|
  {
    UncleanJoinShrinks(trimmed);
    JoinShrinks(Skips(WithoutEndReturns(trimmed), k), WithoutEndReturns(trimmed));
  }

  /** Trimming again changes nothing, if and only if no line but the last ends in a carriage return. */
  lemma TrimIsIdempotent(s: string, isIndent: Byte -> bool)
    requires IndentTest(isIndent)
    ensures var t := TrimCommonIndent(s, isIndent);
            TrimCommonIndent(t, isIndent) == t <==> Clean(Lines(s))
  {
    var lines := Lines(s);
    var trimmed := Skips(lines, MinIndent(lines, isIndent));
    var again := WithoutEndReturns(trimmed);
    TrimIsOnLines(s, isIndent);
    LinesOfTrim(s, isIndent);
    TrimIsOnLines(TrimCommonIndent(s, isIndent), isIndent);
    TrimKeepsClean(lines, isIndent);
    if Clean(lines) {
      NoIndentLeft(lines, isIndent);
      TrimmingCleanLines(trimmed, isIndent);
    } else {
      TrimmingUncleanLines(trimmed, MinIndent(again, isIndent));
    }
  }

  /** Is there a second carriage return before a newline? */
  predicate HasDoubleReturn(s: string) {
    exists i :: 0 <= i < |s| - 2 && IsDoubleReturn(s, i)
  }

  predicate IsDoubleReturn(s: string, i: nat)
    requires i + 2 < |s|
  {
    s[i] == '\r' && s[i + 1] == '\r' && s[i + 2] == '\n'
  }

  predicate EndsInTwoReturns(line: string) {
    |line| >= 2 && line[|line| - 2] == '\r' && line[|line| - 1] == '\r'
  }

  lemma TwoReturnsLeaveOne(line: string)
    ensures EndsInReturn(WithoutReturn(line)) <==> EndsInTwoReturns(line)
  {
  }

  lemma DoubleReturnOfFirst(first: string, rest: string)
    requires OneLine(first)
    ensures HasDoubleReturn(first + "\n" + rest) <==> EndsInTwoReturns(first) || HasDoubleReturn(rest)
  {
    var s, n := first + "\n" + rest, |first|;
    assert forall k :: 0 <= k < n ==> s[k] == first[k];
    if HasDoubleReturn(s) {
      var i :| 0 <= i < |s| - 2 && IsDoubleReturn(s, i);
      if i > n {
        assert IsDoubleReturn(rest, i - n - 1);
      }
    }
    if HasDoubleReturn(rest) {
      var i :| 0 <= i < |rest| - 2 && IsDoubleReturn(rest, i);
      assert IsDoubleReturn(s, n + 1 + i);
    }
    if EndsInTwoReturns(first) {
      assert IsDoubleReturn(s, n - 2);
    }
  }

  lemma CleanCons(first: string, rest: seq<string>)
    requires rest != []
    ensures Clean([first] + rest) <==> !EndsInReturn(first) && Clean(rest)
  {
    var lines := [first] + rest;
    if Clean(lines) {
      forall i | 0 <= i < |rest| - 1
        ensures !EndsInReturn(rest[i])
      {
        assert lines[i + 1] == rest[i];
      }
      assert lines[0] == first;
    }
  }

  /** No line but the last ends in a carriage return if and only if the text has no `\r\r\n`. */
  lemma {:induction false} CleanIsNoDoubleReturn(s: string)
    ensures Clean(Lines(s)) <==> !HasDoubleReturn(s)
    decreases |s|
  {
    if s != [] {
      var i := Newline(s);
      if i == |s| {
        LinesOfOneLine(s);
      } else {
        var first, rest := s[..i], s[i + 1..];
        assert s == first + "\n" + rest;
        NewlineIsFirst(s);
        LinesSplit(s);
        TwoReturnsLeaveOne(first);
        DoubleReturnOfFirst(first, rest);
        CleanIsNoDoubleReturn(rest);
        CleanCons(WithoutReturn(first), if rest == [] then [""] else Lines(rest));
      }
    }
  }

  const TWO_RETURNS := "a\r\r\n"

  lemma TwoReturnsAreUnclean()
    ensures !Clean(Lines(TWO_RETURNS))
  {
    assert IsDoubleReturn(TWO_RETURNS, 1);
    CleanIsNoDoubleReturn(TWO_RETURNS);
  }

  /** A text of which trimming takes something each time. */
  lemma TrimTakesMore(isIndent: Byte -> bool)
    requires IndentTest(isIndent)
    ensures var t := TrimCommonIndent(TWO_RETURNS, isIndent); TrimCommonIndent(t, isIndent) != t
  {
    TwoReturnsAreUnclean();
    TrimIsIdempotent(TWO_RETURNS, isIndent);
  }

  // --------------------------------------------------------------------- comments

  function CommentLine(line: string, isLast: bool): string {
    if (isLast && IsBlank(line)) || "///" <= line then line
    else if IsBlank(line) then "///"
    else "/// " + line
  }

  function CommentLines(lines: seq<string>): (r: seq<string>)
    ensures |r| == |lines|
  {
    seq(|lines|, i requires 0 <= i < |lines| => CommentLine(lines[i], i == |lines| - 1))
  }

  /** The loop over the lines, which are changed in place. */
  method Comment(text: string) returns (r: string)
    ensures r == Join(CommentLines(Lines(text)))
  {
    var lines := Lines(text);
    for i := 0 to |lines|
      invariant |lines| == |Lines(text)|
      invariant forall j :: 0 <= j < |lines| ==>
                  lines[j] == if j < i then CommentLines(Lines(text))[j] else Lines(text)[j]
    {
      var isLast := i == |lines| - 1;
      var line := lines[i];
      var convert := !((isLast && IsBlank(line)) || "///" <= line);
      if convert {
        lines := lines[i := if IsBlank(line) then "///" else "/// " + line];
      }
    }
    assert lines == CommentLines(Lines(text));
    r := Join(lines);
  }

  /** Is the line a doc comment line, or blank at the very end? */
  predicate Commented(lines: seq<string>, i: nat)
    requires i < |lines|
  {
    "///" <= lines[i] || (i == |lines| - 1 && IsBlank(lines[i]))
  }

  lemma CommentLinesAreCommented(lines: seq<string>)
    requires AreLines(lines) && lines != [""]
    ensures var r := CommentLines(lines);
            && AreLines(r) && r != [""]
            && forall i :: 0 <= i < |r| ==> Commented(r, i)
  {
  }

  /** Commented lines stay as they are, also without a carriage return at their end. */
  lemma CommentedStays(lines: seq<string>)
    requires forall i :: 0 <= i < |lines| ==> Commented(lines, i)
    ensures CommentLines(WithoutEndReturns(lines)) == WithoutEndReturns(lines)
  {
    var r := WithoutEndReturns(lines);
    forall i | 0 <= i < |r|
      ensures CommentLine(r[i], i == |r| - 1) == r[i]
    {
      assert Commented(lines, i);
      assert "///" <= lines[i] && i < |r| - 1 ==> "///" <= r[i];
    }
  }

  function Commentary(text: string): string {
    Join(CommentLines(Lines(text)))
  }

  /** A line that is not blank keeps the carriage return at its end. */
  lemma CommentedEndsInReturn(line: string)
    ensures EndsInReturn(CommentLine(line, false)) <==> EndsInReturn(line) && !IsBlank(line)
  {
    if "///" <= line {
      assert line[0] == '/' && line[0] in line;
    }
  }

  lemma CommentedStaysCommented(lines: seq<string>)
    requires forall i :: 0 <= i < |lines| ==> Commented(lines, i)
    ensures forall i :: 0 <= i < |lines| ==> Commented(WithoutEndReturns(lines), i)
  {
    forall i | 0 <= i < |lines|
      ensures Commented(WithoutEndReturns(lines), i)
    {
      assert Commented(lines, i);
    }
  }

  lemma CommentedAreClean(lines: seq<string>)
    ensures Clean(CommentLines(lines)) <==>
              forall i :: 0 <= i < |lines| - 1 && EndsInReturn(lines[i]) ==> IsBlank(lines[i])
  {
    forall i | 0 <= i < |lines| - 1
      ensures EndsInReturn(CommentLines(lines)[i]) <==> EndsInReturn(lines[i]) && !IsBlank(lines[i])
    {
      CommentedEndsInReturn(lines[i]);
    }
  }

  /**
   * Commenting keeps the number of lines and makes every line a doc comment, but for a blank
   * last one; doing it again changes nothing, if and only if no line that it keeps, other
   * than the last, ends in a carriage return.
   */
  lemma CommentIsIdempotent(text: string)
    ensures var t := Commentary(text);
            && |Lines(t)| == |Lines(text)|
            && (forall i :: 0 <= i < |Lines(t)| ==> Commented(Lines(t), i))
            && (Commentary(t) == t <==>
                  forall i :: 0 <= i < |Lines(text)| - 1 && EndsInReturn(Lines(text)[i]) ==> IsBlank(Lines(text)[i]))
  {
    var lines := Lines(text);
    var commented := CommentLines(lines);
    LinesAreLines(text);
    CommentLinesAreCommented(lines);
    LinesOfJoin(commented);
    CommentedStays(commented);
    UncleanJoinShrinks(commented);
    CommentedAreClean(lines);
    CommentedStaysCommented(commented);
  }

  /** The same text, which commenting changes each time. */
  lemma CommentTakesMore()
    ensures Commentary(Commentary(TWO_RETURNS)) != Commentary(TWO_RETURNS)
  {
    CommentIsIdempotent(TWO_RETURNS);
    TwoReturnsLines();
  }

  lemma TwoReturnsLines()
    ensures Lines(TWO_RETURNS) == ["a\r", ""] && EndsInReturn("a\r") && !IsBlank("a\r")
  {
    var s := TWO_RETURNS;
    assert s[1..] == "\r\r\n" && s[1..][1..] == "\r\n" && s[1..][1..][1..] == "\n";
    assert Newline("\n") == 0;
    assert Newline("\r\n") == 1;
    assert Newline("\r\r\n") == 2;
    assert Newline(s) == 3;
    assert s[..3] == "a\r\r" && s[4..] == "";
    LinesSplit(s);
    assert "a\r\r"[..2] == "a\r";
    var line := "a\r";
    assert line[0] in line && !IsWhitespace(line[0]);
  }
}
