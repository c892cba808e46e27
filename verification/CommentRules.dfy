// What the comment converter makes of the phrases it knows, said of texts: a phrase in front of any
// text becomes its replacement in front of what that text becomes.
module CommentRules {
  import opened CommentText
  import opened CommentTokens
  import opened Wrappers

  // ------------------------------------------------------------------------- texts and tokens

  predicate IsWordText(s: string) {
    s != [] && forall i :: 0 <= i < |s| ==> Classify(s[i]) == WordClass
  }

  predicate IsSpaceText(s: string) {
    s != [] && forall i :: 0 <= i < |s| ==> Classify(s[i]) == WhitespaceClass
  }

  /** Does the text go on with white space, or end? */
  predicate Pauses(s: string) {
    s == [] || Classify(s[0]) == WhitespaceClass
  }

  /** Are the tokens the end of a call of the word before them? */
  predicate StartsCall(tokens: seq<Token>) {
    || (tokens != [] && tokens[0] == Separator("()"))
    || (|tokens| >= 3 && tokens[0] == Separator(".") && tokens[1].Word? && tokens[2] == Separator("()"))
  }

  /** Does a word in front of the text end there, and is it not called? */
  predicate StandsAlone(rest: string) {
    (rest == [] || Classify(rest[0]) != WordClass) && !StartsCall(Tokens(rest, Classify))
  }

  predicate StartsWord(s: string) {
    s != [] && Classify(s[0]) == WordClass
  }

  /** The tokens of a text in which a token is followed by a text of another class. */
  lemma TokensOfTwo(t: Token, rest: string, s: string)
    requires s == t.text + rest
    requires IsRun(t, Classify) && (rest != [] ==> Classify(rest[0]) != ClassOf(t))
    ensures Tokens(s, Classify) == [t] + Tokens(rest, Classify)
    ensures s != [] && Classify(s[0]) == ClassOf(t)
  {
    var tokens := Tokens(rest, Classify);
    TokensAreProper(rest, Classify);
    TokensAreFlat(rest, Classify);
    ProperJoin([t], tokens, Classify);
    FlatCons(t, tokens);
    ProperIsUnique([t] + tokens, Classify);
  }

  lemma LiteralIsRun(t: Token)
    requires t == Separator("()") || t == Separator(".") || t == Whitespace(" ")
    ensures IsRun(t, Classify)
  {
  }

  lemma TagIsRun(word: string)
    requires IsTag(word)
    ensures IsRun(Word(word), Classify)
  {
    assert word[0] == '@';
  }

  lemma FourMore<T>(a: T, b: T, c: T, d: T, rest: seq<T>)
    ensures [a] + ([b] + ([c] + ([d] + rest))) == [a, b, c, d] + rest
  {
  }

  lemma TwoMore<T>(a: T, b: T, rest: seq<T>)
    ensures [a] + ([b] + rest) == [a, b] + rest
  {
  }

  lemma TokensAreNonEmpty(s: string)
    ensures NonEmptyTexts(Tokens(s, Classify))
  {
    TokensAreProper(s, Classify);
    ProperTextsAreNonEmpty(Tokens(s, Classify));
  }

  /** The first group of a text's tokens, and what comes behind it. */
  lemma GroupOf(taken: seq<Token>, s: string, rest: string, cases: Cases, becomes: string)
    requires Tokens(s, Classify) == taken + Tokens(rest, Classify) && taken != []
    requires NonEmptyTexts(Tokens(s, Classify))
    requires ConsumeTokens(Tokens(s, Classify), cases) == (|taken|, becomes)
    ensures Rewritten(s, cases) == becomes + Rewritten(rest, cases)
  {
    TokensAreNonEmpty(rest);
    assert Tokens(s, Classify)[|taken|..] == Tokens(rest, Classify);
  }

  // ---------------------------------------------------------------------------- documentation tags

  lemma ParamTokens(name: string, ws: string, rest: string)
    requires IsWordText(name) && IsSpaceText(ws) && (rest != [] ==> Classify(rest[0]) != WhitespaceClass)
    ensures Tokens("@param" + (" " + (name + (ws + rest))), Classify)
         == [Word("@param"), Whitespace(" "), Word(name), Whitespace(ws)] + Tokens(rest, Classify)
  {
    var behindName, behindSpace, behindTag := ws + rest, name + (ws + rest), " " + (name + (ws + rest));
    TagIsRun("@param");
    LiteralIsRun(Whitespace(" "));
    TokensOfTwo(Whitespace(ws), rest, behindName);
    TokensOfTwo(Word(name), behindName, behindSpace);
    TokensOfTwo(Whitespace(" "), behindSpace, behindTag);
    TokensOfTwo(Word("@param"), behindTag, "@param" + behindTag);
    FourMore(Word("@param"), Whitespace(" "), Word(name), Whitespace(ws), Tokens(rest, Classify));
  }

  /** `@param name` becomes a list item, and takes the white space behind it along. */
  lemma ParamBecomesItem(name: string, ws: string, rest: string, cases: Cases)
    requires IsWordText(name) && IsSpaceText(ws) && (rest != [] ==> Classify(rest[0]) != WhitespaceClass)
    ensures Rewritten("@param" + (" " + (name + (ws + rest))), cases)
         == "* `" + cases.snake(name) + "` - " + Rewritten(rest, cases)
  {
    var s := "@param" + (" " + (name + (ws + rest)));
    ParamTokens(name, ws, rest);
    TokensAreNonEmpty(s);
    ParamIs(Tokens(s, Classify), name, cases);
    GroupOf([Word("@param"), Whitespace(" "), Word(name), Whitespace(ws)], s, rest, cases, "* `" + cases.snake(name) + "` - ");
  }

  lemma ParamIs(tokens: seq<Token>, name: string, cases: Cases)
    requires |tokens| >= 4 && NonEmptyTexts(tokens)
    requires tokens[0] == Word("@param") && tokens[1] == Whitespace(" ") && tokens[2] == Word(name) && tokens[3].Whitespace?
    ensures ConsumeTokens(tokens, cases) == (4, "* `" + cases.snake(name) + "` - ")
  {
  }

  lemma NoteTokens(rest: string)
    requires rest != [] ==> Classify(rest[0]) != WhitespaceClass
    ensures Tokens("@note" + (" " + rest), Classify) == [Word("@note"), Whitespace(" ")] + Tokens(rest, Classify)
  {
    var behindTag := " " + rest;
    TagIsRun("@note");
    LiteralIsRun(Whitespace(" "));
    TokensOfTwo(Whitespace(" "), rest, behindTag);
    TokensOfTwo(Word("@note"), behindTag, "@note" + behindTag);
    TwoMore(Word("@note"), Whitespace(" "), Tokens(rest, Classify));
  }

  lemma NoteBecomesWord(rest: string, cases: Cases)
    requires rest != [] ==> Classify(rest[0]) != WhitespaceClass
    ensures Rewritten("@note" + (" " + rest), cases) == "Note: " + Rewritten(rest, cases)
  {
    NoteTokens(rest);
    TokensAreNonEmpty("@note" + (" " + rest));
    GroupOf([Word("@note"), Whitespace(" ")], "@note" + (" " + rest), rest, cases, "Note: ");
  }

  lemma ReturnTokens(ws: string, rest: string)
    requires IsSpaceText(ws) && StartsWord(rest)
    ensures Tokens("@return" + (ws + rest), Classify) == [Word("@return"), Whitespace(ws)] + Tokens(rest, Classify)
    ensures Tokens(rest, Classify) != [] && Tokens(rest, Classify)[0].Word?
  {
    var behindTag := ws + rest;
    TagIsRun("@return");
    TokensOfTwo(Whitespace(ws), rest, behindTag);
    TokensOfTwo(Word("@return"), behindTag, "@return" + behindTag);
    TwoMore(Word("@return"), Whitespace(ws), Tokens(rest, Classify));
    TokensAreProper(rest, Classify);
  }

  lemma ReturnBecomesWord(ws: string, rest: string, cases: Cases)
    requires IsSpaceText(ws) && StartsWord(rest)
    ensures Rewritten("@return" + (ws + rest), cases) == "Returns: " + Rewritten(rest, cases)
  {
    ReturnTokens(ws, rest);
    TokensAreNonEmpty("@return" + (ws + rest));
    GroupOf([Word("@return"), Whitespace(ws)], "@return" + (ws + rest), rest, cases, "Returns: ");
  }

  // ------------------------------------------------------------------------------------ calls

  /** Does the text not start with a separator, so that `()` before it is a token of its own? */
  predicate EndsCall(rest: string) {
    rest == [] || Classify(rest[0]) != SeparatorClass
  }

  lemma CallTokens(name: string, rest: string)
    requires IsWordText(name) && EndsCall(rest)
    ensures Tokens(name + ("()" + rest), Classify) == [Word(name), Separator("()")] + Tokens(rest, Classify)
    ensures Classify((name + ("()" + rest))[0]) == WordClass
  {
    var behindName := "()" + rest;
    LiteralIsRun(Separator("()"));
    TokensOfTwo(Separator("()"), rest, behindName);
    TokensOfTwo(Word(name), behindName, name + behindName);
    TwoMore(Word(name), Separator("()"), Tokens(rest, Classify));
  }

  /** A call of a function that is no reference into the library. */
  lemma CallBecomesCode(name: string, rest: string, cases: Cases)
    requires IsWordText(name) && EndsCall(rest) && !IsReference(name, cases)
    ensures Rewritten(name + ("()" + rest), cases) == "`" + cases.snake(name) + "()`" + Rewritten(rest, cases)
  {
    CallTokens(name, rest);
    TokensAreNonEmpty(name + ("()" + rest));
    CallIs(Tokens(name + ("()" + rest), Classify), name, cases);
    GroupOf([Word(name), Separator("()")], name + ("()" + rest), rest, cases, "`" + cases.snake(name) + "()`");
  }

  lemma MemberCallTokens(a: string, b: string, rest: string)
    requires IsWordText(a) && IsWordText(b) && EndsCall(rest)
    ensures Tokens(a + ("." + (b + ("()" + rest))), Classify)
         == [Word(a), Separator("."), Word(b), Separator("()")] + Tokens(rest, Classify)
  {
    var call := b + ("()" + rest);
    var behindName := "." + call;
    CallTokens(b, rest);
    TwoMore(Word(b), Separator("()"), Tokens(rest, Classify));
    LiteralIsRun(Separator("."));
    TokensOfTwo(Separator("."), call, behindName);
    TokensOfTwo(Word(a), behindName, a + behindName);
    FourMore(Word(a), Separator("."), Word(b), Separator("()"), Tokens(rest, Classify));
  }

  lemma MemberCallBecomesCode(a: string, b: string, rest: string, cases: Cases)
    requires IsWordText(a) && IsWordText(b) && EndsCall(rest) && !IsReference(a + "." + b, cases)
    ensures Rewritten(a + ("." + (b + ("()" + rest))), cases)
         == "`" + cases.snake(a + "." + b) + "()`" + Rewritten(rest, cases)
  {
    var s := a + ("." + (b + ("()" + rest)));
    MemberCallTokens(a, b, rest);
    TokensAreNonEmpty(s);
    MemberCallIs(Tokens(s, Classify), a, b, cases);
    GroupOf([Word(a), Separator("."), Word(b), Separator("()")], s, rest, cases, "`" + cases.snake(a + "." + b) + "()`");
  }

  lemma MemberCallIs(tokens: seq<Token>, a: string, b: string, cases: Cases)
    requires |tokens| >= 4 && NonEmptyTexts(tokens) && !IsReference(a + "." + b, cases)
    requires tokens[0] == Word(a) && tokens[1] == Separator(".") && tokens[2] == Word(b) && tokens[3] == Separator("()")
    ensures ConsumeTokens(tokens, cases) == (4, "`" + cases.snake(a + "." + b) + "()`")
  {
    ReferenceIs(a + "." + b, cases);
  }

  lemma CallIs(tokens: seq<Token>, name: string, cases: Cases)
    requires |tokens| >= 2 && NonEmptyTexts(tokens) && !IsReference(name, cases)
    requires tokens[0] == Word(name) && tokens[1] == Separator("()")
    ensures ConsumeTokens(tokens, cases) == (2, "`" + cases.snake(name) + "()`")
  {
    ReferenceIs(name, cases);
  }

  // -------------------------------------------------------------------------------- references

  /** `Sk` or `Gr` and an upper case letter. */
  predicate IsReference(word: string, cases: Cases) {
    |word| > 2 && (word[..2] == "Sk" || word[..2] == "Gr") && cases.isUpper(word[2])
  }

  lemma ReferenceIs(word: string, cases: Cases)
    ensures Reference(word, cases) == if IsReference(word, cases) then Some(word[2..]) else None
  {
  }

  /** A name of the library stands for the name behind the prefix, if it has no parts. */
  lemma ReferenceBecomesLink(prefix: string, name: string, rest: string, cases: Cases)
    requires prefix == "Sk" || prefix == "Gr"
    requires IsWordText(name) && cases.isUpper(name[0]) && StandsAlone(rest) && ':' !in name
    ensures Rewritten(prefix + name + rest, cases) == "[`" + name + "`]" + Rewritten(rest, cases)
  {
    LibraryWord(prefix, name, cases);
    NoParts(name);
    WordBecomes(prefix + name, rest, cases, "[`" + name + "`]");
  }

  lemma LibraryWord(prefix: string, name: string, cases: Cases)
    requires prefix == "Sk" || prefix == "Gr"
    requires IsWordText(name) && cases.isUpper(name[0])
    ensures IsWordText(prefix + name) && Reference(prefix + name, cases) == Some(name)
    ensures prefix + name != "@param" && prefix + name != "@note" && prefix + name != "@return"
  {
    var word := prefix + name;
    assert word[..2] == prefix && word[2..] == name && word[2] == name[0];
    ReferenceIs(word, cases);
    assert word[0] == prefix[0];
  }

  lemma {:induction false} NoParts(name: string)
    requires ':' !in name
    ensures PositionOf(name, "::") == |name|
  {
    if name != [] {
      assert name[0] in name;
      assert "::"[0] == ':';
      NoParts(name[1..]);
    }
  }

  lemma {:induction false} FirstPart(name: string, rest: string, mark: string, c: char)
    requires mark != [] && mark[0] == c && c !in name && mark <= rest
    ensures PositionOf(name + rest, mark) == |name|
  {
    if name == [] {
      assert name + rest == rest;
    } else {
      assert name[0] in name;
      assert (name + rest)[0] == name[0] && (name + rest)[1..] == name[1..] + rest;
      FirstPart(name[1..], rest, mark, c);
    }
  }

  lemma PartsOf(typeName: string, subName: string)
    requires ':' !in typeName
    ensures var r := typeName + "::" + subName;
            PositionOf(r, "::") == |typeName| && r[..|typeName|] == typeName && r[|typeName| + 2..] == subName
  {
    var r := typeName + "::" + subName;
    assert typeName + ("::" + subName) == r;
    FirstPart(typeName, "::" + subName, "::", ':');
  }

  lemma JoinedWords(a: string, b: string)
    requires IsWordText(a) && IsWordText(b)
    ensures IsWordText(a + "::" + b)
  {
    assert Classify(':') == WordClass;
  }

  /** A nested type is found in the module of its outer type; a member function keeps its type. */
  lemma NestedBecomesLink(prefix: string, typeName: string, subName: string, rest: string, cases: Cases)
    requires prefix == "Sk" || prefix == "Gr"
    requires IsWordText(typeName) && ':' !in typeName && cases.isUpper(typeName[0])
    requires IsWordText(subName) && StandsAlone(rest)
    ensures Rewritten(prefix + (typeName + "::" + subName) + rest, cases)
         == (if cases.upperCamel(subName) == subName then "[`" + (cases.snake(typeName) + "::" + subName) + "`]"
             else if cases.lowerCamel(subName) == subName then "[`" + (typeName + "::" + cases.snake(subName)) + "`]"
             else "[`" + (typeName + "::" + subName) + "`]")
            + Rewritten(rest, cases)
  {
    var name := typeName + "::" + subName;
    JoinedWords(typeName, subName);
    assert name[0] == typeName[0];
    LibraryWord(prefix, name, cases);
    PartsOf(typeName, subName);
    WordBecomes(prefix + name, rest, cases, "[`" + ConvertReference(name, cases) + "`]");
  }

  lemma BracketsOf(a: string, b: string)
    ensures "[`" + (a + "::" + b) + "`]" == "[`" + a + "::" + b + "`]"
  {
  }

  /** A constant `kCase_Type` or `kCase_SkType` belongs to its type. */
  lemma ConstantBecomesLink(case_: string, full: string, ty: string, word: string, rest: string, cases: Cases)
    requires word == "k" + (case_ + ("_" + full)) && IsWordText(word) && '_' !in case_ && StandsAlone(rest)
    requires full == "Sk" + ty || (full == ty && !("Sk" <= ty))
    ensures Rewritten(word + rest, cases) == "[`" + ty + "::" + case_ + "`]" + Rewritten(rest, cases)
  {
    ConstantIs(case_, full, ty, word);
    ConstantIsNoReference(word, cases);
    WordBecomes(word, rest, cases, "[`" + (ty + "::" + case_) + "`]");
    BracketsOf(ty, case_);
  }

  lemma ConstantIsNoReference(word: string, cases: Cases)
    requires "k" <= word && KCaseTy(word).Some?
    ensures !IsTag(word) && !IsLink(word, cases) && Reference(word, cases) == None
  {
    assert word[0] == 'k';
    ReferenceIs(word, cases);
  }

  lemma ConstantIs(case_: string, full: string, ty: string, word: string)
    requires '_' !in case_ && word == "k" + (case_ + ("_" + full))
    requires full == "Sk" + ty || (full == ty && !("Sk" <= ty))
    ensures KCaseTy(word) == Some(ty + "::" + case_) && "k" <= word
  {
    var k := case_ + ("_" + full);
    assert word[1..] == k;
    FirstPart(case_, "_" + full, "_", '_');
    assert k[..|case_|] == case_ && k[|case_| + 1..] == full;
    assert full == "Sk" + ty ==> full[2..] == ty;
  }

  // ------------------------------------------------------------------------------ single words

  lemma WordTokens(word: string, rest: string)
    requires IsWordText(word) && (rest == [] || Classify(rest[0]) != WordClass)
    ensures Tokens(word + rest, Classify) == [Word(word)] + Tokens(rest, Classify)
  {
    TokensOfTwo(Word(word), rest, word + rest);
  }

  predicate IsTag(word: string) {
    word == "@param" || word == "@note" || word == "@return"
  }

  lemma SingleWordIs(tokens: seq<Token>, word: string, cases: Cases)
    requires tokens != [] && NonEmptyTexts(tokens) && tokens[0] == Word(word)
    requires !StartsCall(tokens[1..])
    requires !IsTag(word) && !IsLink(word, cases)
    ensures ConsumeTokens(tokens, cases) == (1, ProcessWord(word, cases))
  {
    assert !IsMemberCall(tokens) && !IsCall(tokens);
  }

  /** A word that stands alone becomes what the rules for words say. */
  lemma WordBecomes(word: string, rest: string, cases: Cases, becomes: string)
    requires IsWordText(word) && StandsAlone(rest) && !IsTag(word) && !IsLink(word, cases)
    requires ProcessWord(word, cases) == becomes
    ensures Rewritten(word + rest, cases) == becomes + Rewritten(rest, cases)
  {
    WordTokens(word, rest);
    TokensAreNonEmpty(word + rest);
    assert Tokens(word + rest, Classify)[1..] == Tokens(rest, Classify);
    SingleWordIs(Tokens(word + rest, Classify), word, cases);
    GroupOf([Word(word)], word + rest, rest, cases, becomes);
  }

  lemma LiteralIsWord(word: string)
    requires word == "true" || word == "false" || word == "nullptr"
    ensures IsWordText(word) && word[0] in "tfn"
  {
  }

  lemma LiteralHasNoOtherRule(word: string, cases: Cases)
    requires word != [] && word[0] in "tfn"
    ensures Reference(word, cases) == None && KCaseTy(word) == None && !IsTag(word) && !IsLink(word, cases)
  {
    assert word[0] != '@' && word[0] != 'h' && word[0] != 'k' && word[0] != 'S' && word[0] != 'G';
    ReferenceIs(word, cases);
  }

  /** The literals of C++ become those of Rust. */
  lemma LiteralBecomesCode(word: string, rest: string, cases: Cases)
    requires (word == "true" || word == "false" || word == "nullptr") && StandsAlone(rest)
    ensures Rewritten(word + rest, cases) == "`" + (if word == "nullptr" then "None" else word) + "`" + Rewritten(rest, cases)
  {
    LiteralIsWord(word);
    LiteralHasNoOtherRule(word, cases);
    WordBecomes(word, rest, cases, "`" + (if word == "nullptr" then "None" else word) + "`");
  }

  lemma SeveralWords(word: string, cases: Cases)
    requires word != [] && cases.isLower(word[0]) && (forall i :: 0 <= i < |word| ==> cases.isAlphanumeric(word[i]))
    requires exists i :: 0 < i < |word| && cases.isUpper(word[i])
    ensures IsMultiWordIdentifier(word, cases)
  {
    var i :| 0 < i < |word| && cases.isUpper(word[i]);
    assert 1 <= i && cases.isUpper(word[i]);
    forall c | c in word
      ensures cases.isAlphanumeric(c)
    {
      var j :| 0 <= j < |word| && word[j] == c;
    }
  }

  /** A name in camel case becomes code in snake case. */
  lemma IdentifierBecomesCode(word: string, rest: string, cases: Cases)
    requires IsWordText(word) && StandsAlone(rest) && !IsReference(word, cases) && word[0] != 'k' && word[0] != '@'
    requires word != "true" && word != "false" && word != "nullptr" && !("https://" <= word)
    requires cases.isLower(word[0]) && (forall i :: 0 <= i < |word| ==> cases.isAlphanumeric(word[i]))
    requires exists i :: 0 < i < |word| && cases.isUpper(word[i])
    ensures Rewritten(word + rest, cases) == "`" + cases.snake(word) + "`" + Rewritten(rest, cases)
  {
    ReferenceIs(word, cases);
    SeveralWords(word, cases);
    WordBecomes(word, rest, cases, "`" + cases.snake(word) + "`");
  }

  // ---------------------------------------------------------------------------------- links

  /** The tokens of an address, which has no white space in it. */
  lemma {:induction false} AddressEnds(link: string, rest: string)
    requires Pauses(rest) && forall i :: 0 <= i < |link| ==> Classify(link[i]) != WhitespaceClass
    ensures var n := LinkEnd(Tokens(link + rest, Classify));
            && Tokens(link + rest, Classify) == Tokens(link + rest, Classify)[..n] + Tokens(rest, Classify)
            && Flat(Tokens(link + rest, Classify)[..n]) == link
    decreases |link|
  {
    if link == [] {
      TokensAreProper(rest, Classify);
      assert link + rest == rest;
    } else {
      var n := AddressStep(link, rest);
      AddressEnds(link[n..], rest);
      var first, others := FirstToken(link + rest, Classify), Tokens(link[n..] + rest, Classify);
      LinkGrows(first, others, LinkEnd(others), Tokens(rest, Classify), link, n);
    }
  }

  /** The first token of an address that is not empty. */
  lemma AddressStep(link: string, rest: string) returns (n: nat)
    requires Pauses(rest) && link != [] && forall i :: 0 <= i < |link| ==> Classify(link[i]) != WhitespaceClass
    ensures 0 < n <= |link| && FirstToken(link + rest, Classify).text == link[..n]
    ensures !FirstToken(link + rest, Classify).Whitespace?
    ensures Tokens(link + rest, Classify) == [FirstToken(link + rest, Classify)] + Tokens(link[n..] + rest, Classify)
  {
    RunStaysInLink(link, rest);
    n := RunLength(link + rest, Classify);
    assert (link + rest)[n..] == link[n..] + rest;
  }

  lemma LinkGrows(first: Token, others: seq<Token>, m: nat, behind: seq<Token>, link: string, n: nat)
    requires n <= |link| && first.text == link[..n] && !first.Whitespace?
    requires m == LinkEnd(others) && others == others[..m] + behind && Flat(others[..m]) == link[n..]
    ensures var tokens := [first] + others;
            && LinkEnd(tokens) == m + 1
            && tokens == tokens[..m + 1] + behind
            && Flat(tokens[..m + 1]) == link
  {
    LinkEndCons(first, others);
    FlatCons(first, others[..m]);
    assert link == link[..n] + link[n..];
    Regroup([first], others[..m], behind);
  }

  lemma RunStaysInLink(link: string, rest: string)
    requires Pauses(rest) && link != [] && forall i :: 0 <= i < |link| ==> Classify(link[i]) != WhitespaceClass
    ensures var first := FirstToken(link + rest, Classify);
            && 0 < |first.text| <= |link| && first.text == link[..|first.text|] && !first.Whitespace?
            && |first.text| == RunLength(link + rest, Classify)
  {
    var s := link + rest;
    var n := RunLength(s, Classify);
    assert s[0] == link[0];
    assert rest != [] ==> s[|link|] == rest[0];
    assert n <= |link|;
    assert s[..n] == link[..n];
  }

  lemma LinkEndCons(t: Token, tokens: seq<Token>)
    requires !t.Whitespace?
    ensures LinkEnd([t] + tokens) == 1 + LinkEnd(tokens)
    ensures ([t] + tokens)[..1 + LinkEnd(tokens)] == [t] + tokens[..LinkEnd(tokens)]
  {
    assert ([t] + tokens)[1..] == tokens;
  }

  /** An address starts with a word that has its prefix. */
  lemma AddressIsWord(link: string, rest: string)
    requires "https://" <= link && Pauses(rest)
    requires forall i :: 0 <= i < |link| ==> Classify(link[i]) != WhitespaceClass
    ensures var first := FirstToken(link + rest, Classify); first.Word? && "https://" <= first.text
  {
    var s := link + rest;
    var n := RunLength(s, Classify);
    assert forall i :: 0 <= i < 8 ==> s[i] == "https://"[i];
    assert forall i :: 0 <= i < 8 ==> Classify(s[i]) == WordClass;
    assert n >= 8 by {
      assert n < |s| ==> Classify(s[n]) != WordClass;
    }
    assert s[..n][..8] == "https://";
  }

  lemma {:induction false} FlatHas(tokens: seq<Token>, i: nat, c: char)
    requires i < |tokens| && c in tokens[i].text
    ensures c in Flat(tokens)
  {
    if i > 0 {
      FlatHas(tokens[1..], i - 1, c);
    }
  }

  /** Up to the white space there is no `()`. */
  lemma NoCallBefore(tokens: seq<Token>, n: nat)
    requires n == LinkEnd(tokens) && '(' !in Flat(tokens[..n])
    ensures forall i :: 0 <= i < |tokens| && tokens[i] == Separator("()") ==> i > n
  {
    forall i | 0 <= i < |tokens| && tokens[i] == Separator("()")
      ensures i > n
    {
      assert "()"[0] == '(';
      assert '(' in tokens[i].text;
      if i < n {
        FlatHas(tokens[..n], i, '(');
      }
    }
  }

  /** No other rule speaks about the start of an address. */
  lemma AddressStarts(tokens: seq<Token>, cases: Cases)
    requires tokens != [] && NonEmptyTexts(tokens) && tokens[0].Word? && "https://" <= tokens[0].text
    requires '(' !in Flat(tokens[..LinkEnd(tokens)])
    ensures ConsumeTokens(tokens, cases) == (LinkEnd(tokens), "<" + Flat(tokens[..LinkEnd(tokens)]) + ">")
  {
    var word := tokens[0].text;
    assert word[0] == 'h';
    ReferenceIs(word, cases);
    NoCallBefore(tokens, LinkEnd(tokens));
    assert !IsCall(tokens) && !IsMemberCall(tokens);
    assert IsLink(word, cases);
  }

  /** An address, with whatever dots and commas are in it, is put in angle brackets up to the next white space. */
  lemma AddressBecomesLink(link: string, rest: string, cases: Cases)
    requires "https://" <= link && Pauses(rest)
    requires forall i :: 0 <= i < |link| ==> Classify(link[i]) != WhitespaceClass
    requires '(' !in link
    ensures Rewritten(link + rest, cases) == "<" + link + ">" + Rewritten(rest, cases)
  {
    var s := link + rest;
    var tokens := Tokens(s, Classify);
    TokensAreNonEmpty(s);
    AddressEnds(link, rest);
    AddressIsWord(link, rest);
    AddressStarts(tokens, cases);
    assert tokens[..LinkEnd(tokens)] != [];
    GroupOf(tokens[..LinkEnd(tokens)], s, rest, cases, "<" + link + ">");
  }

  // ------------------------------------------------------------------- what stands between

  /** White space and separators stay, and so does a word that no rule speaks about. */
  lemma GapStays(t: Token, rest: string, cases: Cases)
    requires IsRun(t, Classify) && !t.Word? && (rest != [] ==> Classify(rest[0]) != ClassOf(t))
    ensures Rewritten(t.text + rest, cases) == t.text + Rewritten(rest, cases)
  {
    TokensOfTwo(t, rest, t.text + rest);
    TokensAreNonEmpty(t.text + rest);
    GapIs(Tokens(t.text + rest, Classify), t, cases);
    GroupOf([t], t.text + rest, rest, cases, t.text);
  }

  lemma GapIs(tokens: seq<Token>, t: Token, cases: Cases)
    requires tokens != [] && NonEmptyTexts(tokens) && tokens[0] == t && !t.Word?
    ensures ConsumeTokens(tokens, cases) == (1, t.text)
  {
  }

  /** Do the rules leave the word alone? */
  predicate IsOther(word: string, cases: Cases)
    requires word != []
  {
    && !IsTag(word) && !IsReference(word, cases) && !("k" <= word && '_' in word)
    && word != "true" && word != "false" && word != "nullptr" && !("https://" <= word)
    && ((exists i :: 0 <= i < |word| && !cases.isAlphanumeric(word[i]))
        || !cases.isLower(word[0]) || (forall i :: 0 < i < |word| ==> !cases.isUpper(word[i])))
  }

  lemma {:induction false} NoUnderscore(s: string)
    requires '_' !in s
    ensures PositionOf(s, "_") == |s|
  {
    if s != [] {
      assert s[0] in s;
      NoUnderscore(s[1..]);
    }
  }

  lemma NoConstant(word: string)
    requires !("k" <= word && '_' in word)
    ensures KCaseTy(word) == None
  {
    if "k" <= word {
      assert '_' !in word[1..];
      NoUnderscore(word[1..]);
    }
  }

  lemma NoIdentifier(word: string, cases: Cases)
    requires word != []
    requires (exists i :: 0 <= i < |word| && !cases.isAlphanumeric(word[i]))
             || !cases.isLower(word[0]) || (forall i :: 0 < i < |word| ==> !cases.isUpper(word[i]))
    ensures !IsMultiWordIdentifier(word, cases)
  {
    if i :| 0 <= i < |word| && !cases.isAlphanumeric(word[i]) {
      assert word[i] in word;
    }
  }

  /** Any other word stays. */
  lemma OtherWordStays(word: string, rest: string, cases: Cases)
    requires IsWordText(word) && StandsAlone(rest) && IsOther(word, cases)
    ensures Rewritten(word + rest, cases) == word + Rewritten(rest, cases)
  {
    ReferenceIs(word, cases);
    NoConstant(word);
    NoIdentifier(word, cases);
    WordBecomes(word, rest, cases, word);
  }

  /** Is the tag followed by what its rule asks for? */
  predicate StartsPhrase(tag: string, behind: seq<Token>) {
    if tag == "@note" then behind != [] && behind[0] == Whitespace(" ")
    else if tag == "@return" then |behind| >= 2 && behind[0].Whitespace? && behind[1].Word?
    else |behind| >= 3 && behind[0] == Whitespace(" ") && behind[1].Word? && behind[2].Whitespace?
  }

  lemma TagAloneIs(tokens: seq<Token>, tag: string, cases: Cases)
    requires tokens != [] && NonEmptyTexts(tokens) && tokens[0] == Word(tag) && IsTag(tag)
    requires !StartsPhrase(tag, tokens[1..]) && !StartsCall(tokens[1..]) && !cases.isAlphanumeric('@')
    ensures ConsumeTokens(tokens, cases) == (1, tag)
  {
    assert tag[0] == '@' && tag[0] in tag;
    ReferenceIs(tag, cases);
    NoConstant(tag);
    assert !IsParam(tokens) && !IsNote(tokens) && !IsReturn(tokens);
    assert !IsMemberCall(tokens) && !IsCall(tokens);
  }

  /** A tag stays if what its rule asks for does not follow, such as two blanks behind `@param`. */
  lemma TagStays(tag: string, rest: string, cases: Cases)
    requires IsTag(tag) && StandsAlone(rest) && !StartsPhrase(tag, Tokens(rest, Classify))
    requires !cases.isAlphanumeric('@')
    ensures Rewritten(tag + rest, cases) == tag + Rewritten(rest, cases)
  {
    TagIsRun(tag);
    WordTokens(tag, rest);
    TokensAreNonEmpty(tag + rest);
    assert Tokens(tag + rest, Classify)[1..] == Tokens(rest, Classify);
    TagAloneIs(Tokens(tag + rest, Classify), tag, cases);
    GroupOf([Word(tag)], tag + rest, rest, cases, tag);
  }

  lemma LibraryCallIs(tokens: seq<Token>, word: string, name: string, cases: Cases)
    requires |tokens| >= 2 && NonEmptyTexts(tokens) && !IsTag(word) && Reference(word, cases) == Some(name)
    requires tokens[0] == Word(word) && tokens[1] == Separator("()")
    ensures ConsumeTokens(tokens, cases) == (2, "[`" + ConvertReference(name, cases) + "()`]")
  {
  }

  lemma LibraryCallBecomes(prefix: string, name: string, rest: string, cases: Cases, converted: string)
    requires prefix == "Sk" || prefix == "Gr"
    requires IsWordText(name) && cases.isUpper(name[0]) && EndsCall(rest)
    requires converted == ConvertReference(name, cases)
    ensures Rewritten((prefix + name) + ("()" + rest), cases) == "[`" + converted + "()`]" + Rewritten(rest, cases)
  {
    var word := prefix + name;
    var s := word + ("()" + rest);
    LibraryWord(prefix, name, cases);
    CallTokens(word, rest);
    TokensAreNonEmpty(s);
    LibraryCallIs(Tokens(s, Classify), word, name, cases);
    GroupOf([Word(word), Separator("()")], s, rest, cases, "[`" + converted + "()`]");
  }

  /** A call of a function of the library is a link, which goes by the same rules for nested names. */
  lemma LibraryCallBecomesLink(prefix: string, name: string, rest: string, cases: Cases)
    requires prefix == "Sk" || prefix == "Gr"
    requires IsWordText(name) && cases.isUpper(name[0]) && EndsCall(rest) && ':' !in name
    ensures Rewritten((prefix + name) + ("()" + rest), cases) == "[`" + name + "()`]" + Rewritten(rest, cases)
  {
    NoParts(name);
    LibraryCallBecomes(prefix, name, rest, cases, name);
  }

  lemma NestedCallBecomesLink(prefix: string, typeName: string, subName: string, rest: string, cases: Cases)
    requires prefix == "Sk" || prefix == "Gr"
    requires IsWordText(typeName) && ':' !in typeName && cases.isUpper(typeName[0])
    requires IsWordText(subName) && EndsCall(rest)
    ensures var converted := if cases.upperCamel(subName) == subName then cases.snake(typeName) + "::" + subName
                             else if cases.lowerCamel(subName) == subName then typeName + "::" + cases.snake(subName)
                             else typeName + "::" + subName;
            Rewritten((prefix + (typeName + "::" + subName)) + ("()" + rest), cases)
            == "[`" + converted + "()`]" + Rewritten(rest, cases)
  {
    var name := typeName + "::" + subName;
    JoinedWords(typeName, subName);
    assert name[0] == typeName[0];
    PartsOf(typeName, subName);
    LibraryCallBecomes(prefix, name, rest, cases, ConvertReference(name, cases));
  }

  // -------------------------------------------------------------------------------- punctuation

  predicate IsPunctuation(c: char) {
    c == '.' || c == ';' || c == ',' || c == '(' || c == ')'
  }

  lemma OneSeparator(c: char)
    requires IsPunctuation(c)
    ensures IsRun(Separator([c]), Classify) && StandsAlone([c])
    ensures Tokens([c], Classify) == [Separator([c])]
  {
    TokensOfTwo(Separator([c]), "", [c]);
    assert Separator([c]) != Separator("()");
  }

  lemma SignStays(c: char, cases: Cases)
    requires IsPunctuation(c)
    ensures Rewritten([c], cases) == [c]
  {
    OneSeparator(c);
    assert [c] + "" == [c];
    GapStays(Separator([c]), "", cases);
    assert Rewritten("", cases) == "";
  }

  /** Each of the five signs ends a word, and any other visible character is part of one. */
  lemma PunctuationEndsWords(c: char, cases: Cases)
    ensures IsPunctuation(c) ==> Rewritten("nullptr" + [c], cases) == "`None`" + [c]
    ensures IsWordText([c]) <==> !IsPunctuation(c) && !IsWhitespace(c)
  {
    assert [c][0] == c;
    if IsPunctuation(c) {
      OneSeparator(c);
      LiteralBecomesCode("nullptr", [c], cases);
      SignStays(c, cases);
      assert "`" + "None" + "`" == "`None`";
    }
  }
}
