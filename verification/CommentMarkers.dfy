// Which lines open and which close a comment over several lines, said of the characters of the line.
module CommentMarkers {
  import opened CommentRemoval
  import opened PyText
  import opened Wrappers

  /** Is there nothing but white space from a up to b? */
  predicate SpaceIn(s: string, a: nat, b: nat)
    requires b <= |s|
  {
    forall i :: a <= i < b ==> IsSpace(s[i])
  }

  lemma {:induction false} LeftIs(s: string)
    ensures SpaceIn(s, 0, |s| - |StripLeft(s)|)
  {
    if s != [] && IsSpace(s[0]) {
      LeftIs(s[1..]);
      assert forall i :: 0 < i < |s| ==> s[i] == s[1..][i - 1];
    }
  }

  lemma {:induction false} RightIs(s: string)
    ensures StripRight(s) == [] || !IsSpace(StripRight(s)[|StripRight(s)| - 1])
  {
    if s != [] && IsSpace(s[|s| - 1]) {
      RightIs(s[..|s| - 1]);
    }
  }

  /** The end of a text from its right half. */
  lemma SpaceInHalf(s: string, t: string, n: nat, m: nat)
    requires n <= m <= |s| && t == s[n..] && SpaceIn(t, m - n, |t|)
    ensures SpaceIn(s, m, |s|)
  {
    forall i | m <= i < |s|
      ensures IsSpace(s[i])
    {
      assert s[i] == t[i - n];
    }
  }

  lemma InBoth(s: string, t: string, u: string, n: nat, m: nat)
    requires n <= |s| && t == s[n..] && u <= t && m == n + |u|
    ensures m <= |s| && u == s[n..m]
  {
  }

  /** Stripping takes the white space from both ends and nothing else. */
  lemma StripIs(s: string) returns (n: nat, m: nat)
    ensures n <= m <= |s| && Strip(s) == s[n..m]
    ensures SpaceIn(s, 0, n) && SpaceIn(s, m, |s|)
    ensures n < m ==> !IsSpace(s[n]) && !IsSpace(s[m - 1])
  {
    var t := StripLeft(s);
    var u := StripRight(t);
    LeftIs(s);
    RightIs(t);
    n := |s| - |t|;
    m := n + |u|;
    InBoth(s, t, u, n, m);
    SpaceInHalf(s, t, n, m);
    assert n < m ==> u[0] == s[n] && u[|u| - 1] == s[m - 1];
  }

  /** Do these two characters, neither of them white space, stand at i? */
  predicate Pair(s: string, a: char, b: char, i: nat) {
    i + 2 <= |s| && s[i] == a && s[i + 1] == b
  }

  lemma PairOccurs(s: string, sub: string, a: char, b: char, i: nat)
    requires sub == [a, b]
    ensures OccursAt(s, sub, i) <==> Pair(s, a, b, i)
  {
    if OccursAt(s, sub, i) {
      assert s[i] == s[i..i + 2][0] && s[i + 1] == s[i..i + 2][1];
    }
    if Pair(s, a, b, i) {
      assert s[i..i + 2] == sub;
    }
  }

  lemma PairFirst(t: string, sub: string, a: char, b: char)
    requires sub == [a, b]
    ensures sub <= t <==> Pair(t, a, b, 0)
  {
  }

  lemma PairLast(t: string, sub: string, a: char, b: char)
    requires sub == [a, b]
    ensures EndsWith(t, sub) <==> |t| >= 2 && Pair(t, a, b, |t| - 2)
  {
    if |t| >= 2 {
      assert t[|t| - 2..] == [t[|t| - 2], t[|t| - 1]];
    }
  }

  /** A pair lies within the line once stripped. */
  lemma PairInside(s: string, n: nat, m: nat, a: char, b: char, i: nat)
    requires n <= m <= |s| && SpaceIn(s, 0, n) && SpaceIn(s, m, |s|) && !IsSpace(a) && !IsSpace(b)
    ensures Pair(s, a, b, i) ==> n <= i && i + 2 <= m && Pair(s[n..m], a, b, i - n)
  {
  }

  lemma PairOutside(s: string, n: nat, m: nat, a: char, b: char, i: nat)
    requires n <= m <= |s|
    ensures Pair(s[n..m], a, b, i) ==> Pair(s, a, b, n + i)
  {
  }

  /** Does the line, after white space, open a comment at n that it does not close again? */
  predicate OpensAt(line: string, n: nat) {
    && Pair(line, '/', '*', n) && SpaceIn(line, 0, n)
    && forall j :: n + 2 <= j <= |line| ==> !Pair(line, '*', '/', j)
  }

  /** Does the line close a comment at n, with nothing but white space behind it? */
  predicate ClosesAt(line: string, n: nat) {
    Pair(line, '*', '/', n) && SpaceIn(line, n + 2, |line|)
  }

  lemma StaysOpen(line: string, n: nat, m: nat, t: string, j: nat)
    requires n <= m <= |line| && t == line[n..m] && SpaceIn(line, 0, n) && SpaceIn(line, m, |line|)
    requires Find(t, "*/", 2) == None && n + 2 <= j
    ensures !Pair(line, '*', '/', j)
  {
    PairInside(line, n, m, '*', '/', j);
    PairOccurs(t, "*/", '*', '/', j - n);
  }

  lemma OpensIfStart(line: string)
    requires IsStart(line)
    ensures exists n :: 0 <= n <= |line| && OpensAt(line, n)
  {
    var n, m := StripIs(line);
    var t := line[n..m];
    PairFirst(t, "/*", '/', '*');
    PairOutside(line, n, m, '/', '*', 0);
    forall j | n + 2 <= j <= |line|
      ensures !Pair(line, '*', '/', j)
    {
      StaysOpen(line, n, m, t, j);
    }
    assert OpensAt(line, n);
  }

  lemma StartIfOpens(line: string, k: nat)
    requires OpensAt(line, k)
    ensures IsStart(line)
  {
    var n, m := StripIs(line);
    var t := line[n..m];
    PairInside(line, n, m, '/', '*', k);
    assert n == k;
    PairFirst(t, "/*", '/', '*');
    var r := Find(t, "*/", 2);
    if r.Some? {
      PairOccurs(t, "*/", '*', '/', r.value);
      PairOutside(line, n, m, '*', '/', r.value);
    }
  }

  /** A line opens a comment if and only if the first thing on it is the opening sign and no closing sign comes behind. */
  lemma StartMeans(line: string)
    ensures IsStart(line) <==> exists n :: 0 <= n <= |line| && OpensAt(line, n)
  {
    if IsStart(line) {
      OpensIfStart(line);
    }
    if n :| 0 <= n <= |line| && OpensAt(line, n) {
      StartIfOpens(line, n);
    }
  }

  lemma ClosesIfEnd(line: string)
    requires IsEnd(line)
    ensures exists n :: 0 <= n <= |line| && ClosesAt(line, n)
  {
    var n, m := StripIs(line);
    var t := line[n..m];
    PairLast(t, "*/", '*', '/');
    PairOutside(line, n, m, '*', '/', |t| - 2);
    assert ClosesAt(line, m - 2);
  }

  lemma EndIfCloses(line: string, k: nat)
    requires ClosesAt(line, k)
    ensures IsEnd(line)
  {
    var n, m := StripIs(line);
    PairInside(line, n, m, '*', '/', k);
    assert m == k + 2;
    PairLast(line[n..m], "*/", '*', '/');
  }

  /** A line closes one if and only if the last thing on it is the closing sign. */
  lemma EndMeans(line: string)
    ensures IsEnd(line) <==> exists n :: 0 <= n <= |line| && ClosesAt(line, n)
  {
    if IsEnd(line) {
      ClosesIfEnd(line);
    }
    if n :| 0 <= n <= |line| && ClosesAt(line, n) {
      EndIfCloses(line, n);
    }
  }
}
