// The line of a ninja file that the definitions come from.
module NinjaFiles {
  import opened CommentText
  import opened NinjaDefinitions
  import opened Wrappers

  predicate NoneDefines(lines: seq<string>) {
    forall i :: 0 <= i < |lines| ==> !(DEFINES <= lines[i])
  }

  lemma {:induction false} FirstDefines(before: seq<string>, d: string, after: seq<string>)
    requires NoneDefines(before)
    ensures DefinesLine(before + [DEFINES + d] + after) == Ok(d)
  {
    var lines := before + [DEFINES + d] + after;
    if before == [] {
      assert lines[0] == DEFINES + d && (DEFINES + d)[|DEFINES|..] == d;
    } else {
      assert lines[0] == before[0] && lines[1..] == before[1..] + [DEFINES + d] + after;
      FirstDefines(before[1..], d, after);
    }
  }

  lemma {:induction false} NothingDefined(lines: seq<string>)
    requires NoneDefines(lines)
    ensures DefinesLine(lines) == Err(MissingDefines)
  {
    if lines != [] {
      NothingDefined(lines[1..]);
    }
  }

  /** An empty line at the end makes no difference. */
  lemma {:induction false} EmptyDefinesNothing(lines: seq<string>)
    ensures DefinesLine(lines + [""]) == DefinesLine(lines)
  {
    if lines == [] {
      assert (lines + [""])[1..] == [];
    } else {
      assert (lines + [""])[1..] == lines[1..] + [""];
      EmptyDefinesNothing(lines[1..]);
    }
  }

  lemma DefinesOfText(s: string)
    ensures DefinesLine(StrLines(s)) == DefinesLine(Lines(s))
  {
    EmptyDefinesNothing(StrLines(s));
  }

  lemma LinesOfFile(before: seq<string>, line: string, after: seq<string>)
    requires AreLines(before + [line] + after) && line != "" && WithoutReturn(line) == line
    ensures var lines := before + [line] + after;
            Lines(Join(lines))
            == WithoutEndReturns(lines)[..|before|] + [line] + WithoutEndReturns(lines)[|before| + 1..]
  {
    var lines := before + [line] + after;
    assert lines != [""] by {
      assert |lines| == 1 ==> lines[0] == line;
    }
    LinesOfJoin(lines);
    assert lines[|before|] == line;
  }

  lemma NoneDefinesShort(before: seq<string>, lines: seq<string>)
    requires NoneDefines(before) && before <= lines
    ensures NoneDefines(WithoutEndReturns(lines)[..|before|])
  {
    var cut := WithoutEndReturns(lines)[..|before|];
    forall i | 0 <= i < |cut|
      ensures !(DEFINES <= cut[i])
    {
      assert cut[i] <= before[i];
    }
  }

  /** The definitions of a file are those of its first line with the prefix, wherever it stands. */
  lemma FileIsItsDefines(before: seq<string>, d: string, after: seq<string>)
    requires AreLines(before + [DEFINES + d] + after) && NoneDefines(before) && WithoutReturn(DEFINES + d) == DEFINES + d
    ensures FromNinjaFileContent(Join(before + [DEFINES + d] + after)) == FromDefinesStr(d)
  {
    var lines := before + [DEFINES + d] + after;
    var ends := WithoutEndReturns(lines);
    LinesOfFile(before, DEFINES + d, after);
    assert before <= lines;
    NoneDefinesShort(before, lines);
    FirstDefines(ends[..|before|], d, ends[|before| + 1..]);
    DefinesOfText(Join(lines));
  }

  /** A file without such a line is refused. */
  lemma FileWithoutDefines(s: string)
    requires NoneDefines(Lines(s))
    ensures FromNinjaFileContent(s) == Err(MissingDefines)
  {
    DefinesOfText(s);
    NothingDefined(Lines(s));
  }
}
