// Template argument lists, where cpplint reads the angles alike in both directions: a plain matcher for four kinds
// of brackets finds the same `>`, and the two matchers undo each other.
module TemplateLists {
  import opened AngleMatching
  import opened BracketMatching
  import opened MirrorMatching
  import opened PyText
  import opened Wrappers

  /** Is the character no `;`, no part of a shift, and if it is an angle, not part of an arrow, ` >= ` or operator name? */
  predicate Plain(word: WordClass, line: string, i: nat)
    requires i < |line|
  {
    && line[i] != ';'
    && (line[i] == '<' ==>
          && !(i > 0 && line[i - 1] == '<') && !(i + 1 < |line| && line[i + 1] == '<')
          && !EndsInOperator(word, line[..i]))
    && (line[i] == '>' && i > 0 ==>
          && line[i - 1] != '-' && !SpacedGreaterEqual(line, i - 1)
          && !EndsInOperator(word, line[..i]) && !EndsInOperator(word, line[..i - 1]))
  }

  /** Is every character from the first place to the second plain? */
  ghost predicate PlainBetween(word: WordClass, lines: seq<string>, from: nat, to: nat) {
    forall l, i :: 0 <= l < |lines| && 0 <= i < |lines[l]| && from <= At(lines, l, i) <= to ==> Plain(word, lines[l], i)
  }

  // -------------------------------------------------------------- the two marks of a place

  /** What a mark is for a reader from the other side. */
  function Swapped(m: Mark): Mark {
    match m
    case OpensAngle => ClosesAngle
    case ClosesAngle => OpensAngle
    case _ => m
  }

  /** Between the positions, do angles count as brackets in both directions, with no shift and no end of a statement? */
  predicate ReadAlike(text: string, marks: seq<Mark>, backMarks: seq<Mark>, from: nat, to: nat) {
    && |text| == |marks| == |backMarks|
    && forall k, j :: from <= k <= to && 0 <= j < |text| && k + j + 1 == |text| ==> AlikeAt(text[k], marks[k], backMarks[j])
  }

  predicate AlikeAt(c: char, m: Mark, back: Mark) {
    && back == Swapped(m)
    && (c == '<' <==> m == OpensAngle)
    && (c == '>' <==> m == ClosesAngle)
    && m != EndsShift && m != EndsStatement
  }

  lemma PlainIsAlike(word: WordClass, line: string, i: nat)
    requires i < |line| && Plain(word, line, i)
    ensures AlikeAt(line[i], LineMark(word, line, i), BackMark(word, line, i))
  {
    NothingIsNoOperator(word);
    assert line[..0] == "";
    if line[i] == '<' {
      assert RunOfAngles(line, i + 1) == 0;
      assert RunOfAngles(line, i) == 1;
    }
  }

  lemma MarksAt(word: WordClass, lines: seq<string>, l: nat, p: nat)
    requires l < |lines| && p <= |lines[l]|
    ensures At(lines, l, p) < |Marks(word, lines)|
    ensures Marks(word, lines)[At(lines, l, p)] == LineMark(word, lines[l], p)
  {
    var rows := MarkRows(word, lines);
    SameOffsets(TextRows(lines), rows, l);
    FlattenAt(rows, l, p);
  }

  /** Every position of the text is that of a place. */
  lemma {:induction false} PlaceAt(rows: seq<string>, k: nat) returns (l: nat, p: nat)
    requires k < |Flatten(rows)|
    ensures l < |rows| && p < |rows[l]| && k == Offset(rows, l) + p
  {
    if k < |rows[0]| {
      l, p := 0, k;
    } else {
      l, p := PlaceAt(rows[1..], k - |rows[0]|);
      assert Offset(rows, l + 1) == |rows[0]| + Offset(rows[1..], l);
      l := l + 1;
    }
  }

  lemma AlikeAtPlace(word: WordClass, lines: seq<string>, from: nat, to: nat, l: nat, p: nat)
    requires PlainBetween(word, lines, from, to)
    requires l < |lines| && p <= |lines[l]| && from <= At(lines, l, p) <= to
    ensures |BackMarks(word, lines)| == |Text(lines)| && At(lines, l, p) < |Text(lines)|
    ensures At(lines, l, p) < |Marks(word, lines)|
    ensures var k := At(lines, l, p);
            AlikeAt(Text(lines)[k], Marks(word, lines)[k], BackMarks(word, lines)[|Text(lines)| - 1 - k])
  {
    TextAt(lines, l, p);
    MarksAt(word, lines, l, p);
    BackAt(word, lines, l, p);
    if p < |lines[l]| {
      PlainIsAlike(word, lines[l], p);
    }
  }

  lemma PlainIsReadAlike(word: WordClass, lines: seq<string>, from: nat, to: nat)
    requires PlainBetween(word, lines, from, to)
    ensures ReadAlike(Text(lines), Marks(word, lines), BackMarks(word, lines), from, to)
  {
    TextSays(word, lines);
    MarkForEach(word, lines);
    forall k, j | from <= k <= to && 0 <= j < |Text(lines)| && k + j + 1 == |Text(lines)|
      ensures AlikeAt(Text(lines)[k], Marks(word, lines)[k], BackMarks(word, lines)[j])
    {
      var l, p := PlaceAt(TextRows(lines), k);
      AlikeAtPlace(word, lines, from, to, l, p);
    }
  }

  // ------------------------------------------------------------------ undoing

  /** A position for a reader from the other side of a text of the size. */
  function Across(at: Option<nat>, size: nat): Option<nat>
    requires at.Some? ==> at.value < size
  {
    match at case None => None case Some(p) => Some(size - 1 - p)
  }

  lemma PopPartner(pending: seq<char>, c: char)
    requires IsOpen(c)
    ensures |PartnerEach(pending)| == |pending|
    ensures pending != [] ==>
              && PartnerEach(pending)[|pending| - 1] == Partner(pending[|pending| - 1])
              && (Partner(pending[|pending| - 1]) == c <==> pending[|pending| - 1] == Partner(c))
              && PartnerEach(pending)[..|pending| - 1] == PartnerEach(pending[..|pending| - 1])
  {
  }

  /** One character of the mirrored text, for the brackets pending in the text itself. */
  lemma MirrorStep(back: string, k: nat, pending: seq<char>, c: char)
    requires k < |back| && back[k] == Mirror(c)
    ensures FindClose(back, k, PartnerEach(pending))
         == if IsClose(c) then FindClose(back, k + 1, PartnerEach(pending + [c]))
            else if !IsOpen(c) then FindClose(back, k + 1, PartnerEach(pending))
            else if pending == [] || pending[|pending| - 1] != Partner(c) then None
            else if |pending| == 1 then Some(k)
            else FindClose(back, k + 1, PartnerEach(pending[..|pending| - 1]))
  {
    if IsClose(c) {
      PartnersPush(pending, c);
    } else if IsOpen(c) {
      PopPartner(pending, c);
    }
  }

  /** The plain matcher backwards is the plain matcher on the mirrored text. */
  lemma {:induction false} FindOpenInMirror(text: string, back: string, n: nat, pending: seq<char>, k: nat)
    requires Mirrors(text, back) && n <= |text| && k + n == |text|
    ensures FindClose(back, k, PartnerEach(pending)) == Across(FindOpen(text, n, pending), |text|)
    decreases n
  {
    if n > 0 {
      var c := text[n - 1];
      assert back[|text| - 1 - (n - 1)] == Mirror(c);
      MirrorStep(back, k, pending, c);
      if IsClose(c) {
        FindOpenInMirror(text, back, n - 1, pending + [c], k + 1);
      } else if !IsOpen(c) {
        FindOpenInMirror(text, back, n - 1, pending, k + 1);
      } else if pending != [] {
        FindOpenInMirror(text, back, n - 1, pending[..|pending| - 1], k + 1);
      }
    }
  }

  /** A pair of brackets is passed over in the mirror as well. */
  lemma PairInMirror(text: string, back: string, k: nat, q: nat)
    requires Mirrors(text, back) && k < |text| && IsOpen(text[k]) && FindClose(text, k, []) == Some(q)
    ensures k < q && FindClose(back, |text| - 1 - q, []) == Some(|text| - 1 - k)
    ensures IsOpen(back[|text| - 1 - q])
  {
    ClosedThenOpened(text, k, q);
    FindOpenInMirror(text, back, q + 1, [], |text| - 1 - q);
    assert PartnerEach([]) == [];
    FindCloseStarts(text, k);
  }

  /** The walk back over what a walk has closed arrives where it started, with as many angles open. */
  lemma {:induction false} WalkRetraces(
    text: string, marks: seq<Mark>, back: string, backMarks: seq<Mark>, k: nat, angles: nat, q: nat)
    requires Mirrors(text, back) && k <= |text| && angles > 0
    requires ReadAlike(text, marks, backMarks, k, q)
    requires CloseAngle(text, marks, k, angles) == Some(q)
    ensures CloseAngle(back, backMarks, |text| - 1 - q, 0) == CloseAngle(back, backMarks, |text| - k, angles)
    decreases |text| - k
  {
    var n := |text|;
    assert back[n - 1 - k] == Mirror(text[k]);
    assert AlikeAt(text[k], marks[k], backMarks[n - 1 - k]);
    if IsOpen(text[k]) {
      var r := FindClose(text, k, []).value;
      PairInMirror(text, back, k, r);
      WalkRetraces(text, marks, back, backMarks, r + 1, angles, q);
    } else {
      var next := NextAngles(marks[k], angles);
      if next.Some? {
        WalkRetraces(text, marks, back, backMarks, k + 1, next.value, q);
      }
    }
  }

  /** Positions across from each other. */
  predicate Facing(n: nat, i: nat, j: nat) {
    i + j + 1 == n
  }

  lemma AngleUndone(
    text: string, marks: seq<Mark>, back: string, backMarks: seq<Mark>, p: nat, q: nat, p': nat, q': nat)
    requires Mirrors(text, back) && Facing(|text|, p, p') && Facing(|text|, q, q') && text[p] == '<'
    requires ReadAlike(text, marks, backMarks, p, q)
    requires CloseAngle(text, marks, p, 0) == Some(q)
    ensures CloseAngle(back, backMarks, q', 0) == Some(p')
  {
    assert AlikeAt(text[p], marks[p], backMarks[|text| - 1 - p]);
    assert back[|text| - 1 - p] == Mirror(text[p]);
    WalkRetraces(text, marks, back, backMarks, p + 1, 1, q);
  }

  lemma AlikeAcross(c: char, m: Mark, b: char, back: Mark)
    requires AlikeAt(c, m, back) && b == Mirror(c)
    ensures AlikeAt(b, back, m)
  {
  }

  lemma AlikeBack(
    text: string, marks: seq<Mark>, back: string, backMarks: seq<Mark>, p: nat, q: nat, p': nat, q': nat)
    requires Mirrors(text, back) && Facing(|text|, p, p') && Facing(|text|, q, q')
    requires ReadAlike(text, marks, backMarks, p, q)
    ensures ReadAlike(back, backMarks, marks, q', p')
  {
    forall k, j | q' <= k <= p' && 0 <= j && k + j + 1 == |text|
      ensures AlikeAt(back[k], backMarks[k], marks[j])
    {
      AlikeAcross(text[j], marks[j], back[k], backMarks[k]);
    }
  }

  lemma AngleRedone(
    text: string, marks: seq<Mark>, back: string, backMarks: seq<Mark>, p: nat, q: nat, p': nat, q': nat)
    requires Mirrors(text, back) && Facing(|text|, p, p') && Facing(|text|, q, q') && p < q && text[q] == '>'
    requires ReadAlike(text, marks, backMarks, p, q)
    requires CloseAngle(back, backMarks, q', 0) == Some(p')
    ensures CloseAngle(text, marks, p, 0) == Some(q)
  {
    MirrorsBack(text, back);
    AlikeBack(text, marks, back, backMarks, p, q, p', q');
    assert back[q'] == '<';
    AngleUndone(back, backMarks, text, marks, q', p', q, p);
  }

  /** Where the angles are read alike, a walk leads from one to the other if and only if the walk in the mirror leads back. */
  lemma AnglesInvert(
    text: string, marks: seq<Mark>, back: string, backMarks: seq<Mark>, p: nat, q: nat, p': nat, q': nat)
    requires Mirrors(text, back) && Facing(|text|, p, p') && Facing(|text|, q, q')
    requires p < q && text[p] == '<' && text[q] == '>'
    requires ReadAlike(text, marks, backMarks, p, q)
    ensures CloseAngle(text, marks, p, 0) == Some(q) <==> CloseAngle(back, backMarks, q', 0) == Some(p')
  {
    if CloseAngle(text, marks, p, 0) == Some(q) {
      AngleUndone(text, marks, back, backMarks, p, q, p', q');
    }
    if CloseAngle(back, backMarks, q', 0) == Some(p') {
      AngleRedone(text, marks, back, backMarks, p, q, p', q');
    }
  }

  lemma EndIsPlace(lines: seq<string>, place: Option<Place>, whole: Option<nat>, m: nat, q: nat)
    requires SameEnd(lines, place, whole) && m < |lines| && q < |lines[m]|
    ensures place == Some(Place(m, q + 1)) <==> whole == Some(At(lines, m, q))
  {
    if place.Some? && At(lines, place.value.line, place.value.pos - 1) == At(lines, m, q) {
      PlacesAreDistinct(lines, place.value.line, place.value.pos - 1, m, q);
    }
  }

  lemma StartIsPlace(lines: seq<string>, place: Option<Place>, whole: Option<nat>, l: nat, p: nat)
    requires SameInMirror(lines, place, whole) && l < |lines| && p < |lines[l]| && At(lines, l, p) < |Text(lines)|
    ensures place == Some(Place(l, p)) <==> whole == Some(|Text(lines)| - 1 - At(lines, l, p))
  {
    if place.Some? && At(lines, place.value.line, place.value.pos) == At(lines, l, p) {
      PlacesAreDistinct(lines, place.value.line, place.value.pos, l, p);
    }
  }

  lemma BothWalks(
    word: WordClass, lines: seq<string>, l: nat, p: nat, m: nat, q: nat, from: nat, to: nat,
    text: string, marks: seq<Mark>, back: string, backMarks: seq<Mark>)
    requires l < |lines| && p < |lines[l]| && lines[l][p] == '<' && Starts(lines[l], p)
    requires m < |lines| && q < |lines[m]| && lines[m][q] == '>'
    requires from == At(lines, l, p) && to == At(lines, m, q)
    requires text == Text(lines) && marks == Marks(word, lines)
    requires back == BackText(lines) && backMarks == BackMarks(word, lines)
    ensures |text| == |marks| == |back| == |backMarks| && from < |text| && to < |text|
    ensures text[from] == '<' && text[to] == '>'
    ensures Closing(word, lines, l, p) == Some(Place(m, q + 1)) <==> CloseAngle(text, marks, from, 0) == Some(to)
    ensures Opening(word, lines, m, q) == Some(Place(l, p))
            <==> CloseAngle(back, backMarks, |text| - 1 - to, 0) == Some(|text| - 1 - from)
  {
    TextAt(lines, l, p);
    TextAt(lines, m, q);
    CloseExpressionIsWalk(word, lines, l, p);
    ReverseCloseExpressionIsWalk(word, lines, m, q);
    EndIsPlace(lines, Closing(word, lines, l, p), CloseAngle(text, marks, from, 0), m, q);
    StartIsPlace(lines, Opening(word, lines, m, q), CloseAngle(back, backMarks, |text| - 1 - to, 0), l, p);
  }

  /**
   * With no `;`, shift, arrow, ` >= ` or operator name between a `<` and a `>`, CloseExpression leads from
   * the one to just behind the other if and only if ReverseCloseExpression leads back.
   */
  lemma AnglesUndoEachOther(word: WordClass, lines: seq<string>, l: nat, p: nat, m: nat, q: nat)
    requires l < |lines| && p < |lines[l]| && lines[l][p] == '<' && Starts(lines[l], p)
    requires m < |lines| && q < |lines[m]| && lines[m][q] == '>'
    requires At(lines, l, p) < At(lines, m, q)
    requires PlainBetween(word, lines, At(lines, l, p), At(lines, m, q))
    ensures Closing(word, lines, l, p) == Some(Place(m, q + 1)) <==> Opening(word, lines, m, q) == Some(Place(l, p))
  {
    var text, marks, back, backMarks := Text(lines), Marks(word, lines), BackText(lines), BackMarks(word, lines);
    var from, to := At(lines, l, p), At(lines, m, q);
    BothWalks(word, lines, l, p, m, q, from, to, text, marks, back, backMarks);
    PlainIsReadAlike(word, lines, from, to);
    AnglesInvert(text, marks, back, backMarks, from, to, |text| - 1 - from, |text| - 1 - to);
  }

  // --------------------------------------------------------- four kinds of brackets

  predicate IsOpener(c: char) {
    IsOpen(c) || c == '<'
  }

  predicate IsCloser(c: char) {
    IsClose(c) || c == '>'
  }

  /** The plain matcher for four kinds of brackets. */
  function CloseFour(text: string, k: nat, pending: seq<char>): (r: Option<nat>)
    requires k <= |text|
    ensures r.Some? ==> k <= r.value < |text| && IsCloser(text[r.value])
    decreases |text| - k
  {
    if k == |text| then None
    else if IsOpener(text[k]) then CloseFour(text, k + 1, pending + [text[k]])
    else if IsCloser(text[k]) then
      if pending == [] || pending[|pending| - 1] != Mirror(text[k]) then None
      else if |pending| == 1 then Some(k)
      else CloseFour(text, k + 1, pending[..|pending| - 1])
    else CloseFour(text, k + 1, pending)
  }

  lemma FourStep(t: Token, c: char, m: Mark, back: Mark, pending: seq<char>, at: nat)
    requires Says(t, c, m) && AlikeAt(c, m, back) && (pending != [] || IsOpener(c))
    requires IsCloser(c) ==> pending[|pending| - 1] == Mirror(c)
    ensures ForwardStep(pending, t, at)
         == if IsOpener(c) then Pending(pending + [c])
            else if !IsCloser(c) then Pending(pending)
            else if |pending| == 1 then Found(at)
            else Pending(pending[..|pending| - 1])
  {
  }

  /** What the plain matcher closes, the scan closes at the same position. */
  lemma {:induction false} ScanIsFour(
    tokens: seq<Token>, text: string, marks: seq<Mark>, backMarks: seq<Mark>, k: nat, pending: seq<char>, q: nat)
    requires k < |text| && AllSay(tokens, text, marks) && ReadAlike(text, marks, backMarks, k, q)
    requires pending != [] || IsOpener(text[k])
    requires CloseFour(text, k, pending) == Some(q)
    ensures Scan(tokens, k, pending) == Some(q)
    decreases |text| - k
  {
    var c := text[k];
    assert Says(tokens[k], c, marks[k]);
    FourStep(tokens[k], c, marks[k], backMarks[|text| - 1 - k], pending, k);
    var v := ForwardStep(pending, tokens[k], k);
    if v.Pending? {
      ScanIsFour(tokens, text, marks, backMarks, k + 1, v.stack, q);
    }
  }

  /**
   * If the plain matcher for four kinds of brackets closes an opener, on a stretch without `;`, shifts,
   * arrows, ` >= ` and operator names, then CloseExpression leads just behind the same place.
   */
  lemma FourBracketsClose(word: WordClass, lines: seq<string>, l: nat, p: nat, m: nat, q: nat)
    requires l < |lines| && p < |lines[l]| && Starts(lines[l], p) && m < |lines| && q < |lines[m]|
    requires At(lines, l, p) < |Text(lines)|
    requires CloseFour(Text(lines), At(lines, l, p), []) == Some(At(lines, m, q))
    requires PlainBetween(word, lines, At(lines, l, p), At(lines, m, q))
    ensures Closing(word, lines, l, p) == Some(Place(m, q + 1))
  {
    var from, to := At(lines, l, p), At(lines, m, q);
    TextAt(lines, l, p);
    PlainIsReadAlike(word, lines, from, to);
    TextSays(word, lines);
    ClosingIsOneScan(word, lines, l, p);
    ScanIsFour(Tokens(word, lines), Text(lines), Marks(word, lines), BackMarks(word, lines), from, [], to);
    EndIsPlace(lines, Closing(word, lines, l, p), Scan(Tokens(word, lines), from, []), m, q);
  }

  /** And from the `>` of such a list, ReverseCloseExpression leads back to its `<`. */
  lemma FourBracketsReopen(word: WordClass, lines: seq<string>, l: nat, p: nat, m: nat, q: nat)
    requires l < |lines| && p < |lines[l]| && lines[l][p] == '<' && Starts(lines[l], p)
    requires m < |lines| && q < |lines[m]| && lines[m][q] == '>'
    requires At(lines, l, p) < |Text(lines)|
    requires CloseFour(Text(lines), At(lines, l, p), []) == Some(At(lines, m, q))
    requires PlainBetween(word, lines, At(lines, l, p), At(lines, m, q))
    ensures Opening(word, lines, m, q) == Some(Place(l, p))
  {
    TextAt(lines, l, p);
    FourBracketsClose(word, lines, l, p, m, q);
    AnglesUndoEachOther(word, lines, l, p, m, q);
  }

  /** The list of `A<B>` ends behind its last character. */
  lemma ListExample(word: WordClass)
    ensures Closing(word, ["A<B>"], 0, 1) == Some(Place(0, 4))
  {
    var line := "A<B>";
    assert line[..1] == "A" && line[..2] == "A<";
    assert ForwardLine(word, line, 3, ['<']) == Found(4);
    assert ForwardLine(word, line, 2, ['<']) == Found(4);
    assert [] + ['<'] == ['<'];
    assert ForwardLine(word, line, 1, []) == Found(4);
  }
}
