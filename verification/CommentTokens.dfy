// The tokens of the comment converter, and the rewriting that consumes them from the front.
module CommentTokens {
  import opened CommentText
  import opened Wrappers

  // ------------------------------------------------------------------ tokenizing

  datatype TokenClass = WordClass | WhitespaceClass | SeparatorClass

  datatype Token = Word(text: string) | Whitespace(text: string) | Separator(text: string)

  predicate IsSeparator(c: char) {
    c == '.' || c == ';' || c == ',' || c == '(' || c == ')'
  }

  function Classify(c: char): TokenClass {
    if IsSeparator(c) then SeparatorClass
    else if IsWhitespace(c) then WhitespaceClass
    else WordClass
  }

  function ToToken(class_: TokenClass, str: string): Token
    requires str != []
  {
    match class_
    case WordClass => Word(str)
    case WhitespaceClass => Whitespace(str)
    case SeparatorClass => Separator(str)
  }

  function ClassOf(t: Token): TokenClass {
    match t
    case Word(_) => WordClass
    case Whitespace(_) => WhitespaceClass
    case Separator(_) => SeparatorClass
  }

  /** Nothing below depends on which characters are in which class. */
  type Classes = char -> TokenClass

  /** Is the token a non-empty run of characters of its class? */
  predicate IsRun(t: Token, classify: Classes) {
    t.text != [] && forall i :: 0 <= i < |t.text| ==> classify(t.text[i]) == ClassOf(t)
  }

  /** A list of runs in which no two neighbours could be one run. */
  ghost predicate Proper(tokens: seq<Token>, classify: Classes) {
    && (forall i :: 0 <= i < |tokens| ==> IsRun(tokens[i], classify))
    && (forall i, j :: 0 <= i < j < |tokens| && j == i + 1 ==> ClassOf(tokens[i]) != ClassOf(tokens[j]))
  }

  function Flat(tokens: seq<Token>): string {
    if tokens == [] then "" else tokens[0].text + Flat(tokens[1..])
  }

  lemma {:induction false} FlatSplits(a: seq<Token>, b: seq<Token>)
    ensures Flat(a + b) == Flat(a) + Flat(b)
  {
    if a == [] {
      assert a + b == b;
    } else {
      assert (a + b)[1..] == a[1..] + b;
      FlatSplits(a[1..], b);
    }
  }

  lemma FlatOfOne(t: Token)
    ensures Flat([t]) == t.text
  {
    assert Flat([t][1..]) == "";
  }

  lemma FlatSnoc(tokens: seq<Token>, t: Token)
    ensures Flat(tokens + [t]) == Flat(tokens) + t.text
  {
    FlatSplits(tokens, [t]);
    FlatOfOne(t);
  }

  /** The length of the run at the start of a text. */
  function RunLength(s: string, classify: Classes): (n: nat)
    requires s != []
    ensures 1 <= n <= |s|
    ensures forall i :: 0 <= i < n ==> classify(s[i]) == classify(s[0])
    ensures n < |s| ==> classify(s[n]) != classify(s[0])
  {
    if |s| == 1 || classify(s[1]) != classify(s[0]) then 1
    else
      assert s[1..][0] == s[1];
      1 + RunLength(s[1..], classify)
  }

  lemma ProperJoin(a: seq<Token>, b: seq<Token>, classify: Classes)
    requires Proper(a, classify) && Proper(b, classify)
    requires a != [] && b != [] ==> ClassOf(a[|a| - 1]) != ClassOf(b[0])
    ensures Proper(a + b, classify)
  {
  }

  function FirstToken(s: string, classify: Classes): (t: Token)
    requires s != []
    ensures IsRun(t, classify) && t.text == s[..RunLength(s, classify)] && ClassOf(t) == classify(s[0])
  {
    ToToken(classify(s[0]), s[..RunLength(s, classify)])
  }

  /** The runs of a text, from its start. */
  function Tokens(s: string, classify: Classes): seq<Token> {
    if s == [] then [] else [FirstToken(s, classify)] + Tokens(s[RunLength(s, classify)..], classify)
  }

  lemma {:induction false} TokensAreFlat(s: string, classify: Classes)
    ensures Flat(Tokens(s, classify)) == s
    decreases |s|
  {
    if s != [] {
      var n := RunLength(s, classify);
      TokensAreFlat(s[n..], classify);
      FlatCons(FirstToken(s, classify), Tokens(s[n..], classify));
      Halves(s, n);
    }
  }

  lemma Halves(s: string, n: nat)
    requires n <= |s|
    ensures s[..n] + s[n..] == s
  {
  }

  lemma FlatCons(t: Token, rest: seq<Token>)
    ensures Flat([t] + rest) == t.text + Flat(rest)
  {
    assert ([t] + rest)[1..] == rest;
  }

  lemma {:induction false} TokensAreProper(s: string, classify: Classes)
    ensures Proper(Tokens(s, classify), classify)
    ensures s != [] ==> Tokens(s, classify) != [] && ClassOf(Tokens(s, classify)[0]) == classify(s[0])
    decreases |s|
  {
    if s != [] {
      var n := RunLength(s, classify);
      var rest := s[n..];
      TokensAreProper(rest, classify);
      assert rest != [] ==> rest[0] == s[n];
      ProperJoin([FirstToken(s, classify)], Tokens(rest, classify), classify);
    }
  }

  lemma {:induction false} FirstIsRun(tokens: seq<Token>, classify: Classes)
    requires Proper(tokens, classify) && tokens != []
    ensures Flat(tokens) != []
    ensures |tokens[0].text| == RunLength(Flat(tokens), classify)
    ensures tokens[0] == FirstToken(Flat(tokens), classify)
  {
    var s, n := Flat(tokens), |tokens[0].text|;
    assert s[..n] == tokens[0].text && s[0] == tokens[0].text[0];
    assert forall i :: 0 <= i < n ==> s[i] == tokens[0].text[i];
    if |tokens| > 1 {
      assert Flat(tokens[1..])[0] == tokens[1].text[0] && s[n] == tokens[1].text[0];
    }
  }

  /** There is one way only to write a text as a proper list of tokens. */
  lemma {:induction false} ProperIsUnique(tokens: seq<Token>, classify: Classes)
    requires Proper(tokens, classify)
    ensures tokens == Tokens(Flat(tokens), classify)
  {
    if tokens != [] {
      var s := Flat(tokens);
      FirstIsRun(tokens, classify);
      ProperIsUnique(tokens[1..], classify);
      assert s[..RunLength(s, classify)] == tokens[0].text && s[RunLength(s, classify)..] == Flat(tokens[1..]);
    }
  }

  lemma RunGrows(tokens: seq<Token>, class_: TokenClass, str: string, c: char, classify: Classes)
    requires str != [] && Proper(tokens + [ToToken(class_, str)], classify) && classify(c) == class_
    ensures Proper(tokens + [ToToken(class_, str + [c])], classify)
  {
    var a, b := tokens + [ToToken(class_, str)], tokens + [ToToken(class_, str + [c])];
    assert IsRun(a[|tokens|], classify);
    assert forall i :: 0 <= i < |tokens| ==> b[i] == a[i];
  }

  lemma RunStarts(tokens: seq<Token>, c: char, classify: Classes)
    requires Proper(tokens, classify) && (tokens != [] ==> ClassOf(tokens[|tokens| - 1]) != classify(c))
    ensures Proper(tokens + [ToToken(classify(c), [c])], classify)
  {
    ProperJoin(tokens, [ToToken(classify(c), [c])], classify);
  }

  /** The loop over the characters, with the class and the text of the token being built. */
  method Tokenize(source: string) returns (r: seq<Token>)
    ensures Proper(r, Classify) && Flat(r) == source
    ensures r == Tokens(source, Classify)
  {
    var current: Option<TokenClass> := None;
    var str := "";
    r := [];
    for i := 0 to |source|
      invariant current == None ==> i == 0 && r == []
      invariant current.Some? ==> str != []
      invariant current.Some? ==> Proper(r + [ToToken(current.value, str)], Classify)
      invariant current.Some? ==> Flat(r + [ToToken(current.value, str)]) == source[..i]
    {
      var c := source[i];
      var class_ := Classify(c);
      assert source[..i + 1] == source[..i] + [c];
      if current != Some(class_) {
        if current.Some? {
          r := r + [ToToken(current.value, str)];
        }
        RunStarts(r, c, Classify);
        FlatSnoc(r, ToToken(class_, [c]));
        current := Some(class_);
        str := [c];
      } else {
        RunGrows(r, class_, str, c, Classify);
        FlatSnoc(r, ToToken(class_, str));
        FlatSnoc(r, ToToken(class_, str + [c]));
        str := str + [c];
      }
    }
    assert source[..|source|] == source;
    if current.Some? {
      r := r + [ToToken(current.value, str)];
    }
    ProperIsUnique(r, Classify);
  }

  // ------------------------------------------------------------------- rewriting

  /** Case conversion and Unicode classes, which live in libraries. */
  datatype Cases = Cases(
    snake: string -> string, upperCamel: string -> string, lowerCamel: string -> string,
    isUpper: char -> bool, isLower: char -> bool, isAlphanumeric: char -> bool)

  /** The word behind the prefix, if it goes on with an upper case letter. */
  function BehindPrefix(prefix: string, word: string, cases: Cases): Option<string> {
    if prefix < word && cases.isUpper(word[|prefix|]) then Some(word[|prefix|..]) else None
  }

  function Reference(word: string, cases: Cases): Option<string> {
    var sk := BehindPrefix("Sk", word, cases);
    if sk.Some? then sk else BehindPrefix("Gr", word, cases)
  }

  /** The first occurrence of a text, or the length. */
  function PositionOf(s: string, part: string): (i: nat)
    requires part != []
    ensures i <= |s|
    ensures i < |s| ==> i + |part| <= |s|
  {
    if part <= s || s == [] then 0 else 1 + PositionOf(s[1..], part)
  }

  function KCaseTy(word: string): Option<string> {
    if "k" <= word then
      var k := word[1..];
      var i := PositionOf(k, "_");
      if i == |k| then None
      else
        var ty := k[i + 1..];
        Some((if "Sk" <= ty then ty[2..] else ty) + "::" + k[..i])
    else None
  }

  predicate IsMultiWordIdentifier(word: string, cases: Cases)
    requires word != []
  {
    && (forall c :: c in word ==> cases.isAlphanumeric(c))
    && cases.isLower(word[0])
    && (exists i :: 1 <= i < |word| && cases.isUpper(word[i]))
  }

  function ConvertReference(reference: string, cases: Cases): string {
    var i := PositionOf(reference, "::");
    if i == |reference| then reference
    else
      var typeName, subName := reference[..i], reference[i + 2..];
      if cases.upperCamel(subName) == subName then cases.snake(typeName) + "::" + subName
      else if cases.lowerCamel(subName) == subName then typeName + "::" + cases.snake(subName)
      else reference
  }

  function ProcessFunction(word: string, cases: Cases): string {
    var reference := Reference(word, cases);
    if reference.Some? then "[`" + ConvertReference(reference.value, cases) + "()`]"
    else "`" + cases.snake(word) + "()`"
  }

  /** The position of the first white space token, or the number of tokens. */
  function LinkEnd(tokens: seq<Token>): (n: nat)
    ensures n <= |tokens|
    ensures n < |tokens| ==> tokens[n].Whitespace?
    ensures forall i :: 0 <= i < n ==> !tokens[i].Whitespace?
  {
    if tokens == [] || tokens[0].Whitespace? then 0 else 1 + LinkEnd(tokens[1..])
  }

  method ConsumeUntilWs(tokens: seq<Token>) returns (consumed: nat, r: string)
    ensures consumed <= |tokens|
    ensures consumed < |tokens| ==> tokens[consumed].Whitespace?
    ensures forall i :: 0 <= i < consumed ==> !tokens[i].Whitespace?
    ensures consumed == LinkEnd(tokens) && r == Flat(tokens[..consumed])
  {
    r := "";
    for i := 0 to |tokens|
      invariant forall j :: 0 <= j < i ==> !tokens[j].Whitespace?
      invariant r == Flat(tokens[..i])
    {
      if tokens[i].Whitespace? {
        return i, r;
      }
      assert tokens[..i + 1] == tokens[..i] + [tokens[i]];
      FlatSnoc(tokens[..i], tokens[i]);
      r := r + tokens[i].text;
    }
    consumed := |tokens|;
  }

  /** What a single word becomes, in the order in which the rules are tried; links aside. */
  function ProcessWord(word: string, cases: Cases): string
    requires word != []
  {
    var reference := Reference(word, cases);
    if reference.Some? then "[`" + ConvertReference(reference.value, cases) + "`]"
    else if KCaseTy(word).Some? then "[`" + KCaseTy(word).value + "`]"
    else if word == "true" || word == "false" then "`" + word + "`"
    else if word == "nullptr" then "`None`"
    else if IsMultiWordIdentifier(word, cases) then "`" + cases.snake(word) + "`"
    else word
  }

  predicate IsLink(word: string, cases: Cases) {
    "https://" <= word && Reference(word, cases) == None && KCaseTy(word) == None
  }

  predicate IsParam(tokens: seq<Token>) {
    && |tokens| >= 4 && tokens[0] == Word("@param") && tokens[1] == Whitespace(" ")
    && tokens[2].Word? && tokens[3].Whitespace?
  }

  predicate IsNote(tokens: seq<Token>) {
    |tokens| >= 2 && tokens[0] == Word("@note") && tokens[1] == Whitespace(" ")
  }

  predicate IsReturn(tokens: seq<Token>) {
    |tokens| >= 3 && tokens[0] == Word("@return") && tokens[1].Whitespace? && tokens[2].Word?
  }

  predicate IsMemberCall(tokens: seq<Token>) {
    && |tokens| >= 4 && tokens[0].Word? && tokens[1] == Separator(".")
    && tokens[2].Word? && tokens[3] == Separator("()")
  }

  predicate IsCall(tokens: seq<Token>) {
    |tokens| >= 2 && tokens[0].Word? && tokens[1] == Separator("()")
  }

  predicate NonEmptyTexts(tokens: seq<Token>) {
    forall i :: 0 <= i < |tokens| ==> tokens[i].text != []
  }

  /** How many tokens are taken from the front, and what they become. */
  function ConsumeTokens(tokens: seq<Token>, cases: Cases): (r: (nat, string))
    requires tokens != [] && NonEmptyTexts(tokens)
    ensures 1 <= r.0 <= |tokens|
  {
    if IsParam(tokens) then (4, "* `" + cases.snake(tokens[2].text) + "` - ")
    else if IsNote(tokens) then (2, "Note: ")
    else if IsReturn(tokens) then (2, "Returns: ")
    else if IsMemberCall(tokens) then (4, ProcessFunction(tokens[0].text + "." + tokens[2].text, cases))
    else if IsCall(tokens) then (2, ProcessFunction(tokens[0].text, cases))
    else if tokens[0].Word? then
      if IsLink(tokens[0].text, cases) then (LinkEnd(tokens), "<" + Flat(tokens[..LinkEnd(tokens)]) + ">")
      else (1, ProcessWord(tokens[0].text, cases))
    else (1, tokens[0].text)
  }

  /** The text the tokens become, one group of consumed tokens at a time. */
  function Processed(tokens: seq<Token>, cases: Cases): string
    requires NonEmptyTexts(tokens)
    decreases |tokens|
  {
    if tokens == [] then ""
    else
      var (consumed, text) := ConsumeTokens(tokens, cases);
      text + Processed(tokens[consumed..], cases)
  }

  /** The first group of the tokens from the current one on. */
  method ConsumeNext(tokens: seq<Token>, current: nat, cases: Cases) returns (consumed: nat, str: string)
    requires NonEmptyTexts(tokens) && current < |tokens|
    ensures (consumed, str) == ConsumeTokens(tokens[current..], cases)
    ensures 1 <= consumed && current + consumed <= |tokens|
    ensures Processed(tokens[current..], cases) == str + Processed(tokens[current + consumed..], cases)
  {
    var group := ConsumeTokens(tokens[current..], cases);
    consumed, str := group.0, group.1;
    assert tokens[current..][consumed..] == tokens[current + consumed..];
  }

  /** The loop never runs past the last token, and asks for the next group only while tokens are left. */
  method ProcessTokens(tokens: seq<Token>, cases: Cases) returns (r: string)
    requires NonEmptyTexts(tokens)
    ensures r == Processed(tokens, cases)
  {
    r := "";
    var current := 0;
    ghost var rest := Processed(tokens, cases);
    while current != |tokens|
      invariant current <= |tokens|
      invariant rest == Processed(tokens[current..], cases)
      invariant r + rest == Processed(tokens, cases)
      decreases |tokens| - current
    {
      var consumed, str := ConsumeNext(tokens, current, cases);
      current := current + consumed;
      assert current <= |tokens|;
      ghost var next := Processed(tokens[current..], cases);
      Regroup(r, str, next);
      rest := next;
      r := r + str;
    }
  }

  // ------------------------------------------------------------ what is left alone

  /** Does no rule speak about the word? */
  predicate IsOrdinary(word: string, cases: Cases)
    requires word != []
  {
    && word != "@param" && word != "@note" && word != "@return"
    && word != "true" && word != "false" && word != "nullptr" && !("https://" <= word)
    && Reference(word, cases) == None && KCaseTy(word) == None
    && !IsMultiWordIdentifier(word, cases)
  }

  predicate AllOrdinary(tokens: seq<Token>, cases: Cases)
    requires NonEmptyTexts(tokens)
  {
    forall i :: 0 <= i < |tokens| ==>
      tokens[i] != Separator("()") && (tokens[i].Word? ==> IsOrdinary(tokens[i].text, cases))
  }

  lemma {:induction false} OrdinaryTokensStay(tokens: seq<Token>, cases: Cases)
    requires NonEmptyTexts(tokens) && AllOrdinary(tokens, cases)
    ensures Processed(tokens, cases) == Flat(tokens)
  {
    if tokens != [] {
      OrdinaryTokensStay(tokens[1..], cases);
      assert ConsumeTokens(tokens, cases) == (1, tokens[0].text);
    }
  }

  lemma ProperTextsAreNonEmpty(tokens: seq<Token>)
    requires Proper(tokens, Classify)
    ensures NonEmptyTexts(tokens)
  {
    forall i | 0 <= i < |tokens|
      ensures tokens[i].text != []
    {
      assert IsRun(tokens[i], Classify);
    }
  }

  function Rewritten(s: string, cases: Cases): string {
    TokensAreProper(s, Classify);
    ProperTextsAreNonEmpty(Tokens(s, Classify));
    Processed(Tokens(s, Classify), cases)
  }

  /** A text without calls and without a word that some rule speaks about is not changed. */
  lemma OrdinaryTextStays(s: string, cases: Cases)
    requires NonEmptyTexts(Tokens(s, Classify)) && AllOrdinary(Tokens(s, Classify), cases)
    ensures Rewritten(s, cases) == s
  {
    TokensAreFlat(s, Classify);
    OrdinaryTokensStay(Tokens(s, Classify), cases);
  }

  // ---------------------------------------------------------------- what happens to lines

  function Newlines(s: string): nat {
    if s == [] then 0 else (if s[0] == '\n' then 1 else 0) + Newlines(s[1..])
  }

  lemma {:induction false} NewlinesSplit(a: string, b: string)
    ensures Newlines(a + b) == Newlines(a) + Newlines(b)
  {
    if a == [] {
      assert a + b == b;
    } else {
      assert (a + b)[1..] == a[1..] + b;
      NewlinesSplit(a[1..], b);
    }
  }

  lemma {:induction false} NoNewlines(s: string)
    ensures OneLine(s) <==> Newlines(s) == 0
  {
    if s != [] {
      NoNewlines(s[1..]);
      assert OneLine(s) ==> OneLine(s[1..]) by {
        assert forall i :: 0 <= i < |s| - 1 ==> s[1..][i] == s[i + 1];
      }
      assert forall i :: 0 < i < |s| ==> s[i] == s[1..][i - 1];
    }
  }

  /** Case conversion does not make up line breaks. */
  ghost predicate SnakeKeepsLines(cases: Cases) {
    forall s :: OneLine(s) ==> OneLine(cases.snake(s))
  }

  /** Line breaks are white space. */
  predicate BreaksInSpace(tokens: seq<Token>) {
    forall i :: 0 <= i < |tokens| ==> tokens[i].Whitespace? || OneLine(tokens[i].text)
  }

  lemma ProperBreaksInSpace(tokens: seq<Token>)
    requires Proper(tokens, Classify)
    ensures BreaksInSpace(tokens)
  {
    forall i | 0 <= i < |tokens| && !tokens[i].Whitespace?
      ensures OneLine(tokens[i].text)
    {
      assert IsRun(tokens[i], Classify);
      assert Classify('\n') == WhitespaceClass;
    }
  }

  lemma ConvertedReferenceIsOneLine(reference: string, cases: Cases)
    requires SnakeKeepsLines(cases) && OneLine(reference)
    ensures OneLine(ConvertReference(reference, cases))
  {
    var i := PositionOf(reference, "::");
    if i < |reference| {
      assert OneLine(reference[..i]) && OneLine(reference[i + 2..]);
    }
  }

  lemma ProcessedFunctionIsOneLine(word: string, cases: Cases)
    requires SnakeKeepsLines(cases) && OneLine(word)
    ensures OneLine(ProcessFunction(word, cases))
  {
    var reference := Reference(word, cases);
    if reference.Some? {
      ConvertedReferenceIsOneLine(reference.value, cases);
    }
  }

  lemma KCaseTyIsOneLine(word: string)
    requires OneLine(word) && KCaseTy(word).Some?
    ensures OneLine(KCaseTy(word).value)
  {
  }

  lemma ProcessedWordIsOneLine(word: string, cases: Cases)
    requires SnakeKeepsLines(cases) && word != [] && OneLine(word)
    ensures OneLine(ProcessWord(word, cases))
  {
    var reference := Reference(word, cases);
    if reference.Some? {
      ConvertedReferenceIsOneLine(reference.value, cases);
    } else if KCaseTy(word).Some? {
      KCaseTyIsOneLine(word);
    }
  }

  lemma {:induction false} FlatIsOneLine(tokens: seq<Token>)
    requires forall i :: 0 <= i < |tokens| ==> OneLine(tokens[i].text)
    ensures OneLine(Flat(tokens))
  {
    if tokens != [] {
      FlatIsOneLine(tokens[1..]);
    }
  }

  /** The number of line breaks that the first group of tokens loses. */
  function LostAtFirst(tokens: seq<Token>): nat {
    if IsParam(tokens) then Newlines(tokens[3].text)
    else if IsReturn(tokens) then Newlines(tokens[1].text)
    else 0
  }

  function Lost(tokens: seq<Token>, cases: Cases): nat
    requires NonEmptyTexts(tokens)
    decreases |tokens|
  {
    if tokens == [] then 0
    else LostAtFirst(tokens) + Lost(tokens[ConsumeTokens(tokens, cases).0..], cases)
  }

  lemma WordBecomesOneLine(tokens: seq<Token>, cases: Cases)
    requires SnakeKeepsLines(cases) && NonEmptyTexts(tokens) && BreaksInSpace(tokens)
    requires tokens != [] && tokens[0].Word?
    ensures OneLine(ConsumeTokens(tokens, cases).1)
  {
    var word := tokens[0].text;
    if IsParam(tokens) || IsNote(tokens) || IsReturn(tokens) {
    } else if IsMemberCall(tokens) {
      ProcessedFunctionIsOneLine(word + "." + tokens[2].text, cases);
    } else if IsCall(tokens) {
      ProcessedFunctionIsOneLine(word, cases);
    } else if IsLink(word, cases) {
      FlatIsOneLine(tokens[..LinkEnd(tokens)]);
    } else {
      ProcessedWordIsOneLine(word, cases);
    }
  }

  lemma {:induction false} OnlyLastBreaks(taken: seq<Token>)
    requires taken != [] && forall i :: 0 <= i < |taken| - 1 ==> OneLine(taken[i].text)
    ensures Newlines(Flat(taken)) == Newlines(taken[|taken| - 1].text)
  {
    var n := |taken| - 1;
    assert taken == taken[..n] + [taken[n]];
    FlatSnoc(taken[..n], taken[n]);
    FlatIsOneLine(taken[..n]);
    NoNewlines(Flat(taken[..n]));
    NewlinesSplit(Flat(taken[..n]), taken[n].text);
  }

  lemma NoBreaksTaken(tokens: seq<Token>, cases: Cases)
    requires NonEmptyTexts(tokens) && BreaksInSpace(tokens)
    requires tokens != [] && tokens[0].Word? && !IsParam(tokens) && !IsReturn(tokens)
    ensures forall i :: 0 <= i < ConsumeTokens(tokens, cases).0 ==> OneLine(tokens[i].text)
  {
    assert OneLine(" ");
  }

  /** The line breaks of the tokens that a word takes with it are the ones that are lost. */
  lemma WordLoses(tokens: seq<Token>, cases: Cases)
    requires NonEmptyTexts(tokens) && BreaksInSpace(tokens)
    requires tokens != [] && tokens[0].Word?
    ensures Newlines(Flat(tokens[..ConsumeTokens(tokens, cases).0])) == LostAtFirst(tokens)
  {
    var taken := tokens[..ConsumeTokens(tokens, cases).0];
    if IsParam(tokens) || IsReturn(tokens) {
      assert OneLine(" ");
      OnlyLastBreaks(taken);
    } else {
      NoBreaksTaken(tokens, cases);
      FlatIsOneLine(taken);
      NoNewlines(Flat(taken));
    }
  }

  /** One group keeps its line breaks, but for the ones that are lost. */
  lemma GroupConservesLines(tokens: seq<Token>, cases: Cases)
    requires SnakeKeepsLines(cases) && NonEmptyTexts(tokens) && BreaksInSpace(tokens) && tokens != []
    ensures var (n, text) := ConsumeTokens(tokens, cases);
            Newlines(text) + LostAtFirst(tokens) == Newlines(Flat(tokens[..n]))
  {
    if tokens[0].Word? {
      WordBecomesOneLine(tokens, cases);
      NoNewlines(ConsumeTokens(tokens, cases).1);
      WordLoses(tokens, cases);
    } else {
      assert tokens[..1] == [tokens[0]];
      FlatOfOne(tokens[0]);
    }
  }

  lemma {:induction false} ProcessingConservesLines(tokens: seq<Token>, cases: Cases)
    requires SnakeKeepsLines(cases) && NonEmptyTexts(tokens) && BreaksInSpace(tokens)
    ensures Newlines(Processed(tokens, cases)) + Lost(tokens, cases) == Newlines(Flat(tokens))
    decreases |tokens|
  {
    if tokens != [] {
      var (n, text) := ConsumeTokens(tokens, cases);
      var rest := tokens[n..];
      GroupConservesLines(tokens, cases);
      ProcessingConservesLines(rest, cases);
      assert tokens == tokens[..n] + rest;
      FlatSplits(tokens[..n], rest);
      NewlinesSplit(Flat(tokens[..n]), Flat(rest));
      NewlinesSplit(text, Processed(rest, cases));
    }
  }

  /**
   * Rewriting keeps the number of line breaks, except for those in the white space that
   * `@param name` and `@return` take with them.
   */
  lemma RewritingConservesLines(s: string, cases: Cases)
    requires SnakeKeepsLines(cases) && NonEmptyTexts(Tokens(s, Classify))
    ensures Newlines(Rewritten(s, cases)) + Lost(Tokens(s, Classify), cases) == Newlines(s)
  {
    TokensAreProper(s, Classify);
    TokensAreFlat(s, Classify);
    ProperBreaksInSpace(Tokens(s, Classify));
    ProcessingConservesLines(Tokens(s, Classify), cases);
  }
}
