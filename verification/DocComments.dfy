// Commenting loses no text: taking the marks of a doc comment off again gives the lines back.
module DocComments {
  import opened CommentText
  import opened Wrappers

  /** The text of a doc comment line; any other line as it is. */
  function Uncommented(line: string): string {
    if "/// " <= line then line[4..] else if line == "///" then "" else line
  }

  predicate IsDoc(line: string) {
    "///" <= line
  }

  /** What can be told from a commented line: a blank one is left empty, unless it is the last. */
  function Kept(line: string, isLast: bool): string {
    if isLast then line else if IsBlank(line) then "" else WithoutReturn(line)
  }

  lemma ReturnStaysBehind(line: string)
    requires !IsDoc(line) && !IsBlank(line)
    ensures Uncommented(WithoutReturn(CommentLine(line, false))) == WithoutReturn(line)
    ensures CommentLine(line, true) == CommentLine(line, false) && Uncommented(CommentLine(line, true)) == line
  {
    var commented := "/// " + line;
    assert commented[4..] == line;
    assert line != [];
    assert commented[|commented| - 1] == line[|line| - 1];
    if line[|line| - 1] == '\r' {
      assert commented[..|commented| - 1] == "/// " + line[..|line| - 1];
      assert ("/// " + line[..|line| - 1])[4..] == line[..|line| - 1];
    }
  }

  lemma BlankLine(line: string, isLast: bool)
    requires IsBlank(line)
    ensures !IsDoc(line)
    ensures isLast ==> Uncommented(CommentLine(line, isLast)) == line
    ensures !isLast ==> Uncommented(WithoutReturn(CommentLine(line, isLast))) == ""
  {
    if line != [] {
      assert line[0] in line;
    }
  }

  lemma DocLine(line: string, isLast: bool)
    requires IsDoc(line)
    ensures CommentLine(line, isLast) == line
  {
  }

  /**
   * Every line of the commented text is the line of the text behind the mark; a line that was a doc comment
   * before is left as it is.
   */
  lemma CommentingKeepsText(text: string, i: nat)
    requires i < |Lines(text)|
    ensures var line, isLast := Lines(text)[i], i == |Lines(text)| - 1;
            && |Lines(Commentary(text))| == |Lines(text)|
            && var commented := Lines(Commentary(text))[i];
               if IsDoc(line) then commented == (if isLast then line else WithoutReturn(line))
               else Uncommented(commented) == Kept(line, isLast)
  {
    var lines := Lines(text);
    var commented := CommentLines(lines);
    LinesAreLines(text);
    CommentLinesAreCommented(lines);
    LinesOfJoin(commented);
    var line, isLast := lines[i], i == |lines| - 1;
    if IsDoc(line) {
      DocLine(line, isLast);
    } else if IsBlank(line) {
      BlankLine(line, isLast);
    } else {
      ReturnStaysBehind(line);
    }
  }
}
