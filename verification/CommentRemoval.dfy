// cpplint's removal of multi-line comments, in place on the array of lines.
module CommentRemoval {
  import opened PyText
  import opened Wrappers

  const BLANK := "/**/"

  /** Tests for the line that opens a comment and the line that closes one; the loops do not depend on them. */
  datatype Markers = Markers(starts: string -> bool, ends: string -> bool)

  const MULTI_LINE := Markers(IsStart, IsEnd)

  /** A line whose comment goes beyond the line. */
  predicate IsStart(line: string) {
    var t := Strip(line);
    "/*" <= t && Find(t, "*/", 2) == None
  }

  predicate IsEnd(line: string) {
    EndsWith(Strip(line), "*/")
  }

  lemma BlankIsNoStart()
    ensures !IsStart(BLANK)
  {
    var s := ['/', '*', '*', '/'];
    assert !IsSpace(s[0]) && !IsSpace(s[3]);
    assert Strip(s) == s;
    assert s[2..4] == ['*', '/'];
    assert OccursAt(s, "*/", 2);
  }

  // -------------------------------------------------------------- the reference

  /**
   * One pass with one bit of memory, starting outside a comment at line k: is a comment
   * open just before line i?
   */
  predicate OpenBefore(m: Markers, lines: seq<string>, k: nat, i: nat)
    requires k <= i <= |lines|
    decreases i, 0
  {
    i > k && Covered(m, lines, k, i - 1) && !m.ends(lines[i - 1])
  }

  /** Line i belongs to a comment. */
  predicate Covered(m: Markers, lines: seq<string>, k: nat, i: nat)
    requires k <= i < |lines|
    decreases i, 1
  {
    OpenBefore(m, lines, k, i) || m.starts(lines[i])
  }

  predicate EndsLater(m: Markers, lines: seq<string>, i: nat) {
    exists j :: i <= j < |lines| && m.ends(lines[j])
  }

  /** What becomes of line i: it is blanked exactly if it lies in a comment that is closed. */
  function Cleared(m: Markers, lines: seq<string>, k: nat, i: nat): string
    requires k <= i < |lines|
  {
    if Covered(m, lines, k, i) && EndsLater(m, lines, i) then BLANK else lines[i]
  }

  // ------------------------------------------------------------ the two-step search

  function First(lines: seq<string>, p: string -> bool, k: nat): (i: nat)
    requires k <= |lines|
    ensures k <= i <= |lines|
    decreases |lines| - k
  {
    if k == |lines| || p(lines[k]) then k else First(lines, p, k + 1)
  }

  lemma {:induction false} FirstHolds(lines: seq<string>, p: string -> bool, k: nat)
    requires k <= |lines|
    ensures forall j :: k <= j < First(lines, p, k) ==> !p(lines[j])
    ensures First(lines, p, k) < |lines| ==> p(lines[First(lines, p, k)])
    decreases |lines| - k
  {
    if k < |lines| && !p(lines[k]) {
      FirstHolds(lines, p, k + 1);
    }
  }

  /** lines with positions b to e blanked. */
  function Blanked(lines: seq<string>, b: nat, e: nat): (r: seq<string>)
    requires b <= e <= |lines|
    ensures |r| == |lines|
  {
    seq(|lines|, i requires 0 <= i < |lines| => if b <= i < e then BLANK else lines[i])
  }

  /** The lines after the search from line k, and the line number reported for an unclosed comment. */
  function RemovedFrom(m: Markers, lines: seq<string>, k: nat): (r: (seq<string>, Option<nat>))
    requires k <= |lines|
    ensures |r.0| == |lines|
    decreases |lines| - k
  {
    var b := First(lines, m.starts, k);
    if b == |lines| then (lines, None)
    else
      var e := First(lines, m.ends, b);
      if e == |lines| then (lines, Some(b + 1)) else RemovedFrom(m, Blanked(lines, b, e + 1), e + 1)
  }

  function Removed(lines: seq<string>): (seq<string>, Option<nat>) {
    RemovedFrom(MULTI_LINE, lines, 0)
  }

  // ------------------------------------------------------------------ in place

  method FindNextMultiLineCommentStart(m: Markers, lines: array<string>, lineix: nat) returns (i: nat)
    requires lineix <= lines.Length
    ensures i == First(lines[..], m.starts, lineix)
  {
    i := lineix;
    while i < lines.Length
      invariant i <= lines.Length
      invariant First(lines[..], m.starts, lineix) == First(lines[..], m.starts, i)
    {
      if m.starts(lines[i]) {
        return;
      }
      i := i + 1;
    }
  }

  method FindNextMultiLineCommentEnd(m: Markers, lines: array<string>, lineix: nat) returns (i: nat)
    requires lineix <= lines.Length
    ensures i == First(lines[..], m.ends, lineix)
  {
    i := lineix;
    while i < lines.Length
      invariant i <= lines.Length
      invariant First(lines[..], m.ends, lineix) == First(lines[..], m.ends, i)
    {
      if m.ends(lines[i]) {
        return;
      }
      i := i + 1;
    }
  }

  method RemoveMultiLineCommentsFromRange(lines: array<string>, begin: nat, end: nat)
    requires begin <= end <= lines.Length
    modifies lines
    ensures lines[..] == Blanked(old(lines[..]), begin, end)
  {
    for i := begin to end
      invariant lines[..] == Blanked(old(lines[..]), begin, i)
    {
      lines[i] := BLANK;
    }
  }

  lemma OneRound(m: Markers, lines: seq<string>, k: nat, b: nat, e: nat)
    requires k <= |lines| && b == First(lines, m.starts, k)
    requires b < |lines| ==> e == First(lines, m.ends, b)
    ensures RemovedFrom(m, lines, k) == if b == |lines| then (lines, None)
                                        else if e == |lines| then (lines, Some(b + 1))
                                        else RemovedFrom(m, Blanked(lines, b, e + 1), e + 1)
  {
  }

  lemma RemovedAtEnd(m: Markers, lines: seq<string>)
    ensures RemovedFrom(m, lines, |lines|) == (lines, None)
  {
  }

  /** The loop, for any tests; the error is the number of the line that opens the unclosed comment. */
  method RemoveMarked(m: Markers, lines: array<string>) returns (error: Option<nat>)
    modifies lines
    ensures (lines[..], error) == RemovedFrom(m, old(lines[..]), 0)
  {
    var lineix := 0;
    ghost var now, result := lines[..], RemovedFrom(m, lines[..], 0);
    while lineix < lines.Length
      invariant lineix <= lines.Length && now == lines[..]
      invariant RemovedFrom(m, now, lineix) == result
    {
      var begin := FindNextMultiLineCommentStart(m, lines, lineix);
      if begin >= lines.Length {
        OneRound(m, now, lineix, begin, 0);
        return None;
      }
      var end := FindNextMultiLineCommentEnd(m, lines, begin);
      OneRound(m, now, lineix, begin, end);
      if end >= lines.Length {
        return Some(begin + 1);
      }
      RemoveMultiLineCommentsFromRange(lines, begin, end + 1);
      now := Blanked(now, begin, end + 1);
      lineix := end + 1;
    }
    RemovedAtEnd(m, now);
    error := None;
  }

  method RemoveMultiLineComments(lines: array<string>) returns (error: Option<nat>)
    modifies lines
    ensures (lines[..], error) == Removed(old(lines[..]))
  {
    error := RemoveMarked(MULTI_LINE, lines);
  }

  // ------------------------------------------------------------------- results

  /** The pass depends only on the lines it has read. */
  lemma {:induction false} OpenBeforeReads(m: Markers, a: seq<string>, b: seq<string>, k: nat, i: nat)
    requires k <= i <= |a| == |b|
    requires forall j :: k <= j < i ==> a[j] == b[j]
    ensures OpenBefore(m, a, k, i) == OpenBefore(m, b, k, i)
    decreases i
  {
    if i > k {
      OpenBeforeReads(m, a, b, k, i - 1);
    }
  }

  /** Restarting the pass where it is outside a comment changes nothing. */
  lemma {:induction false} OpenBeforeRestarts(m: Markers, lines: seq<string>, k: nat, j: nat, i: nat)
    requires k <= j <= i <= |lines| && !OpenBefore(m, lines, k, j)
    ensures OpenBefore(m, lines, k, i) == OpenBefore(m, lines, j, i)
    decreases i
  {
    if i > j {
      OpenBeforeRestarts(m, lines, k, j, i - 1);
    }
  }

  lemma {:induction false} NothingStarted(m: Markers, lines: seq<string>, k: nat, i: nat)
    requires k <= i <= |lines| && forall j :: k <= j < i ==> !m.starts(lines[j])
    ensures !OpenBefore(m, lines, k, i)
    decreases i
  {
    if i > k {
      NothingStarted(m, lines, k, i - 1);
    }
  }

  lemma {:induction false} NothingEnded(m: Markers, lines: seq<string>, k: nat, b: nat, i: nat)
    requires k <= b < i <= |lines| && m.starts(lines[b])
    requires forall j :: b <= j < i ==> !m.ends(lines[j])
    ensures OpenBefore(m, lines, k, i)
    decreases i
  {
    if i > b + 1 {
      NothingEnded(m, lines, k, b, i - 1);
    }
  }

  /** One round: up to the end marker, exactly the lines from the start marker on are blanked. */
  lemma RoundIsCleared(m: Markers, lines: seq<string>, k: nat, b: nat, e: nat)
    requires k <= b <= e < |lines|
    requires forall j :: k <= j < b ==> !m.starts(lines[j])
    requires m.starts(lines[b])
    requires forall j :: b <= j < e ==> !m.ends(lines[j])
    requires m.ends(lines[e])
    ensures forall i :: k <= i <= e ==> Cleared(m, lines, k, i) == if b <= i then BLANK else lines[i]
    ensures !OpenBefore(m, lines, k, e + 1)
  {
    forall i | k <= i <= e
      ensures Cleared(m, lines, k, i) == if b <= i then BLANK else lines[i]
    {
      if i <= b {
        NothingStarted(m, lines, k, i);
      } else {
        NothingEnded(m, lines, k, b, i);
      }
    }
  }

  /** Blanking lines before k2, where no comment is open, does not change how the rest is read. */
  lemma RestIsCleared(m: Markers, lines: seq<string>, next: seq<string>, k: nat, k2: nat, i: nat)
    requires k <= k2 <= i <= |lines| == |next|
    requires forall j :: k2 <= j < |lines| ==> next[j] == lines[j]
    requires !OpenBefore(m, lines, k, k2)
    ensures OpenBefore(m, next, k2, i) == OpenBefore(m, lines, k, i)
    ensures i < |lines| ==> Cleared(m, next, k2, i) == Cleared(m, lines, k, i)
  {
    OpenBeforeReads(m, next, lines, k2, i);
    OpenBeforeRestarts(m, lines, k, k2, i);
  }

  lemma NeverEnded(m: Markers, lines: seq<string>, k: nat, b: nat, i: nat)
    requires k <= b < |lines| && k <= i < |lines|
    requires forall j :: k <= j < b ==> !m.starts(lines[j])
    requires forall j :: b <= j < |lines| ==> !m.ends(lines[j])
    ensures Cleared(m, lines, k, i) == lines[i]
  {
    if i < b {
      NothingStarted(m, lines, k, i);
    }
  }

  /** A search that ends at once, without a start or without an end marker, leaves the lines as they are. */
  lemma LastRoundIsCleared(m: Markers, lines: seq<string>, k: nat, b: nat, i: nat)
    requires k <= i < |lines| && b == First(lines, m.starts, k)
    requires b < |lines| ==> First(lines, m.ends, b) == |lines|
    ensures Cleared(m, lines, k, i) == lines[i]
  {
    FirstHolds(lines, m.starts, k);
    if b == |lines| {
      NothingStarted(m, lines, k, i);
    } else {
      FirstHolds(lines, m.ends, b);
      NeverEnded(m, lines, k, b, i);
    }
  }

  /** What is cleared after a round and the rest is what is cleared in one go. */
  lemma NextRoundIsCleared(m: Markers, lines: seq<string>, k: nat, b: nat, e: nat, i: nat)
    requires k <= i < |lines| && b == First(lines, m.starts, k) < |lines| && e == First(lines, m.ends, b) < |lines|
    ensures var next := Blanked(lines, b, e + 1);
            Cleared(m, lines, k, i) == if i <= e then next[i] else Cleared(m, next, e + 1, i)
  {
    FirstHolds(lines, m.starts, k);
    FirstHolds(lines, m.ends, b);
    RoundIsCleared(m, lines, k, b, e);
    if e < i {
      RestIsCleared(m, lines, Blanked(lines, b, e + 1), k, e + 1, i);
    }
  }

  lemma {:induction false} RemovedFromIsCleared(m: Markers, lines: seq<string>, k: nat, i: nat)
    requires k <= |lines| && i < |lines|
    ensures RemovedFrom(m, lines, k).0[i] == if i < k then lines[i] else Cleared(m, lines, k, i)
    decreases |lines| - k
  {
    var b := First(lines, m.starts, k);
    var e := if b < |lines| then First(lines, m.ends, b) else b;
    OneRound(m, lines, k, b, e);
    if e == |lines| {
      if k <= i {
        LastRoundIsCleared(m, lines, k, b, i);
      }
    } else {
      RemovedFromIsCleared(m, Blanked(lines, b, e + 1), e + 1, i);
      if k <= i {
        NextRoundIsCleared(m, lines, k, b, e, i);
      }
    }
  }

  lemma {:induction false} ErrorIsOpenAtEnd(m: Markers, lines: seq<string>, k: nat)
    requires k <= |lines|
    ensures RemovedFrom(m, lines, k).1.Some? <==> OpenBefore(m, lines, k, |lines|)
    decreases |lines| - k
  {
    var b := First(lines, m.starts, k);
    FirstHolds(lines, m.starts, k);
    if b == |lines| {
      NothingStarted(m, lines, k, b);
    } else {
      var e := First(lines, m.ends, b);
      FirstHolds(lines, m.ends, b);
      if e == |lines| {
        NothingEnded(m, lines, k, b, e);
      } else {
        var next := Blanked(lines, b, e + 1);
        RoundIsCleared(m, lines, k, b, e);
        ErrorIsOpenAtEnd(m, next, e + 1);
        RestIsCleared(m, lines, next, k, e + 1, |lines|);
      }
    }
  }

  /**
   * Searching ahead for both markers is the one-pass reading: the number of lines stays, a
   * line is blanked exactly if it lies in a comment that is closed, and an error is reported
   * exactly if a comment is still open at the end.
   */
  lemma RemovalIsOnePass(lines: seq<string>)
    ensures var (r, error) := Removed(lines);
            && |r| == |lines|
            && (forall i :: 0 <= i < |lines| ==> r[i] == Cleared(MULTI_LINE, lines, 0, i))
            && (error.Some? <==> OpenBefore(MULTI_LINE, lines, 0, |lines|))
  {
    forall i | 0 <= i < |lines|
      ensures Removed(lines).0[i] == Cleared(MULTI_LINE, lines, 0, i)
    {
      RemovedFromIsCleared(MULTI_LINE, lines, 0, i);
    }
    ErrorIsOpenAtEnd(MULTI_LINE, lines, 0);
  }

  /** What is left over: no start marker at all, or one that is reported and has no end marker after it. */
  predicate Left(m: Markers, r: seq<string>, error: Option<nat>, k: nat) {
    match error
    case None => forall i :: k <= i < |r| ==> !m.starts(r[i])
    case Some(number) =>
      && k < number <= |r| && m.starts(r[number - 1])
      && (forall i :: k <= i < number - 1 ==> !m.starts(r[i]))
      && (forall i :: number - 1 <= i < |r| ==> !m.ends(r[i]))
  }

  lemma LeftBefore(m: Markers, r: seq<string>, error: Option<nat>, k: nat, k2: nat)
    requires k <= k2 <= |r| && Left(m, r, error, k2)
    requires forall i :: k <= i < k2 ==> !m.starts(r[i])
    ensures Left(m, r, error, k)
  {
  }

  lemma LeftAtEnd(m: Markers, lines: seq<string>, k: nat, b: nat)
    requires k <= |lines| && b == First(lines, m.starts, k)
    requires b < |lines| ==> First(lines, m.ends, b) == |lines|
    ensures Left(m, lines, if b == |lines| then None else Some(b + 1), k)
  {
    FirstHolds(lines, m.starts, k);
    if b < |lines| {
      FirstHolds(lines, m.ends, b);
    }
  }

  lemma LeftByRound(m: Markers, lines: seq<string>, k: nat, b: nat, e: nat, r: seq<string>, error: Option<nat>)
    requires k <= |lines| && !m.starts(BLANK)
    requires b == First(lines, m.starts, k) <= e < |lines| == |r|
    requires Left(m, r, error, e + 1) && forall i :: 0 <= i <= e ==> r[i] == Blanked(lines, b, e + 1)[i]
    ensures Left(m, r, error, k) && forall i :: 0 <= i < k ==> r[i] == lines[i]
  {
    FirstHolds(lines, m.starts, k);
    LeftBefore(m, r, error, k, e + 1);
  }

  lemma {:induction false} WhatIsLeft(m: Markers, lines: seq<string>, k: nat)
    requires k <= |lines| && !m.starts(BLANK)
    ensures var (r, error) := RemovedFrom(m, lines, k);
            Left(m, r, error, k) && forall i :: 0 <= i < k ==> r[i] == lines[i]
    decreases |lines| - k
  {
    var b := First(lines, m.starts, k);
    var e := if b < |lines| then First(lines, m.ends, b) else b;
    OneRound(m, lines, k, b, e);
    if e == |lines| {
      LeftAtEnd(m, lines, k, b);
    } else {
      WhatIsLeft(m, Blanked(lines, b, e + 1), e + 1);
      var (r, error) := RemovedFrom(m, lines, k);
      LeftByRound(m, lines, k, b, e, r, error);
    }
  }

  lemma {:induction false} FirstIs(lines: seq<string>, p: string -> bool, k: nat, i: nat)
    requires k <= i <= |lines|
    requires forall j :: k <= j < i ==> !p(lines[j])
    requires i < |lines| ==> p(lines[i])
    ensures First(lines, p, k) == i
    decreases i - k
  {
    if k < i {
      FirstIs(lines, p, k + 1, i);
    }
  }

  lemma NothingMoreToRemove(m: Markers, lines: seq<string>)
    requires !m.starts(BLANK)
    ensures var r := RemovedFrom(m, lines, 0);
            RemovedFrom(m, r.0, 0) == r
  {
    WhatIsLeft(m, lines, 0);
    var (r, error) := RemovedFrom(m, lines, 0);
    if error == None {
      FirstIs(r, m.starts, 0, |r|);
    } else {
      FirstIs(r, m.starts, 0, error.value - 1);
      FirstIs(r, m.ends, error.value - 1, |r|);
    }
  }

  /** A second run changes nothing and reports the same. */
  lemma RemovalIsIdempotent(lines: seq<string>)
    ensures Removed(Removed(lines).0) == Removed(lines)
  {
    BlankIsNoStart();
    NothingMoreToRemove(MULTI_LINE, lines);
  }

  /** Without an error no start marker is left. */
  lemma NoStartIsLeft(lines: seq<string>)
    requires Removed(lines).1 == None
    ensures forall i :: 0 <= i < |lines| ==> !IsStart(Removed(lines).0[i])
  {
    BlankIsNoStart();
    WhatIsLeft(MULTI_LINE, lines, 0);
    var r := Removed(lines).0;
    forall i | 0 <= i < |lines|
      ensures !IsStart(r[i])
    {
      assert !MULTI_LINE.starts(r[i]);
    }
  }
}
