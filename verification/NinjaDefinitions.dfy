// Preprocessor definitions: read from ninja files, merged, and saved as text.
module NinjaDefinitions {
  import opened CommentText
  import opened Wrappers

  datatype Definition = Definition(name: string, value: Option<string>)

  datatype Panic = MissingPrefix | MissingDefines

  // ------------------------------------------------------------------- unescaping

  /** Every escape character gives way to the character behind it; one at the end is dropped. */
  function Unescape(input: string, e: char): string
    decreases |input|
  {
    if input == [] then []
    else if input[0] != e then [input[0]] + Unescape(input[1..], e)
    else if |input| == 1 then []
    else [input[1]] + Unescape(input[2..], e)
  }

  /** What becomes of the first character of the rest, and how many characters it takes. */
  lemma UnescapeNext(input: string, i: nat, e: char)
    requires i < |input|
    ensures Unescape(input[i..], e)
         == if input[i] != e then [input[i]] + Unescape(input[i + 1..], e)
            else if i + 1 == |input| then []
            else [input[i + 1]] + Unescape(input[i + 2..], e)
  {
    var rest := input[i..];
    assert rest[1..] == input[i + 1..];
    if i + 1 < |input| {
      assert rest[2..] == input[i + 2..];
    }
  }

  /** The loop over the characters, with a look at the next one. */
  method UnescapeLoop(input: string, escapeCharacter: char) returns (result: string)
    ensures result == Unescape(input, escapeCharacter)
  {
    result := "";
    var i := 0;
    ghost var rest := Unescape(input, escapeCharacter);
    while i < |input|
      invariant i <= |input|
      invariant rest == Unescape(input[i..], escapeCharacter)
      invariant result + rest == Unescape(input, escapeCharacter)
    {
      UnescapeNext(input, i, escapeCharacter);
      var ch := input[i];
      ghost var before := result;
      i := i + 1;
      if ch == escapeCharacter {
        if i < |input| {
          ch := input[i];
          result := result + [ch];
          i := i + 1;
        }
      } else {
        result := result + [ch];
      }
      rest := Unescape(input[i..], escapeCharacter);
      Regroup(before, [ch], rest);
    }
  }

  function UnescapeNinja(input: string): string {
    Unescape(Unescape(input, '$'), '\\')
  }

  /** Put the escape character before every special character. */
  function Escape(s: string, e: char, special: char -> bool): string {
    if s == [] then []
    else (if special(s[0]) then [e, s[0]] else [s[0]]) + Escape(s[1..], e, special)
  }

  lemma {:induction false} UnescapeInvertsEscape(s: string, e: char, special: char -> bool)
    requires special(e)
    ensures Unescape(Escape(s, e, special), e) == s
  {
    if s != [] {
      var rest := Escape(s[1..], e, special);
      UnescapeInvertsEscape(s[1..], e, special);
      if special(s[0]) {
        assert ([e, s[0]] + rest)[2..] == rest;
      } else {
        assert ([s[0]] + rest)[1..] == rest;
      }
    }
  }

  /** Any text comes back that is escaped for the shell and then for ninja, whatever else they escape. */
  lemma NinjaRoundTrip(s: string, shell: char -> bool, ninja: char -> bool)
    requires shell('\\') && ninja('$')
    ensures UnescapeNinja(Escape(Escape(s, '\\', shell), '$', ninja)) == s
  {
    UnescapeInvertsEscape(Escape(s, '\\', shell), '$', ninja);
    UnescapeInvertsEscape(s, '\\', shell);
  }

  lemma {:induction false} UnescapeKeeps(s: string, e: char)
    ensures |Unescape(s, e)| <= |s|
    ensures Unescape(s, e) == s <==> e !in s
    ensures e in s ==> |Unescape(s, e)| < |s|
    ensures forall c :: c in Unescape(s, e) ==> c in s
    decreases |s|
  {
    if s != [] {
      UnescapeKeeps(s[1..], e);
      if |s| > 1 {
        UnescapeKeeps(s[2..], e);
      }
    }
  }

  /** A text is its own escaped form exactly if it has neither escape character. */
  lemma UnescapeNinjaKeeps(s: string)
    ensures UnescapeNinja(s) == s <==> '$' !in s && '\\' !in s
    ensures forall c :: c in UnescapeNinja(s) ==> c in s
  {
    UnescapeKeeps(s, '$');
    UnescapeKeeps(Unescape(s, '$'), '\\');
  }

  // ---------------------------------------------------------------------- parsing

  /** The length of the word at the start of a text. */
  function WordEnd(s: string): (n: nat)
    ensures n <= |s|
    ensures forall i :: 0 <= i < n ==> !IsWhitespace(s[i])
    ensures n < |s| ==> IsWhitespace(s[n])
  {
    if s == [] || IsWhitespace(s[0]) then 0 else 1 + WordEnd(s[1..])
  }

  /** The text split at its white space. */
  function SplitWhitespace(s: string): seq<string>
    decreases |s|
  {
    if s == [] then []
    else if IsWhitespace(s[0]) then SplitWhitespace(s[1..])
    else [s[..WordEnd(s)]] + SplitWhitespace(s[WordEnd(s)..])
  }

  /** The position of the first equals sign, or the length. */
  function EqualsSign(s: string): (i: nat)
    ensures i <= |s|
    ensures forall j :: 0 <= j < i ==> s[j] != '='
    ensures i < |s| ==> s[i] == '='
  {
    if s == [] || s[0] == '=' then 0 else 1 + EqualsSign(s[1..])
  }

  function ParseDefine(stripped: string): Definition {
    var i := EqualsSign(stripped);
    if i == |stripped| then Definition(stripped, None)
    else Definition(stripped[..i], Some(UnescapeNinja(stripped[i + 1..])))
  }

  /** A word that does not start with `-D` ends the program. */
  function ParseWords(words: seq<string>): Result<seq<Definition>, Panic> {
    if words == [] then Ok([])
    else if !("-D" <= words[0]) then Err(MissingPrefix)
    else match ParseWords(words[1..])
         case Err(e) => Err(e)
         case Ok(rest) => Ok([ParseDefine(words[0][2..])] + rest)
  }

  function FromDefinesStr(defines: string): Result<seq<Definition>, Panic> {
    ParseWords(SplitWhitespace(defines))
  }

  // ------------------------------------------------------------- writing and reading back

  function Written(d: Definition, encode: string -> string): string {
    match d.value
    case None => "-D" + d.name
    case Some(value) => "-D" + d.name + "=" + encode(value)
  }

  function AllWritten(definitions: seq<Definition>, encode: string -> string, separator: char): string {
    if definitions == [] then ""
    else Written(definitions[0], encode) + [separator] + AllWritten(definitions[1..], encode, separator)
  }

  function AsIs(value: string): string {
    value
  }

  /** The text of the file: one definition a line, and an empty line. */
  function Saved(definitions: seq<Definition>): string {
    AllWritten(definitions, AsIs, '\n') + "\n"
  }

  lemma {:induction false} AllWrittenSnoc(ds: seq<Definition>, i: nat, encode: string -> string, separator: char)
    requires i < |ds|
    ensures AllWritten(ds[..i + 1], encode, separator)
         == AllWritten(ds[..i], encode, separator) + (Written(ds[i], encode) + [separator])
  {
    AllWrittenSplits(ds[..i], [ds[i]], encode, separator);
    OneMore(ds, i);
    OneWritten(ds[i], encode, separator);
  }

  lemma OneMore(ds: seq<Definition>, i: nat)
    requires i < |ds|
    ensures ds[..i + 1] == ds[..i] + [ds[i]]
  {
  }

  lemma OneWritten(d: Definition, encode: string -> string, separator: char)
    ensures AllWritten([d], encode, separator) == Written(d, encode) + [separator]
  {
    assert AllWritten([d][1..], encode, separator) == "";
  }

  lemma {:induction false} AllWrittenSplits(
    a: seq<Definition>, b: seq<Definition>, encode: string -> string, separator: char)
    ensures AllWritten(a + b, encode, separator) == AllWritten(a, encode, separator) + AllWritten(b, encode, separator)
  {
    if a == [] {
      assert a + b == b;
    } else {
      var first := Written(a[0], encode) + [separator];
      assert (a + b)[1..] == a[1..] + b;
      AllWrittenSplits(a[1..], b, encode, separator);
      Regroup(first, AllWritten(a[1..], encode, separator), AllWritten(b, encode, separator));
    }
  }

  lemma WrittenPlainly(d: Definition)
    ensures Written(d, AsIs) + ['\n']
         == match d.value case None => "-D" + d.name + "\n" case Some(value) => "-D" + d.name + "=" + value + "\n"
  {
  }

  /** The loop that writes the file, with the file's text as the result. */
  method SaveDefinitions(definitions: seq<Definition>) returns (file: string)
    ensures file == Saved(definitions)
  {
    file := "";
    for i := 0 to |definitions|
      invariant file == AllWritten(definitions[..i], AsIs, '\n')
    {
      var name, value := definitions[i].name, definitions[i].value;
      AllWrittenSnoc(definitions, i, AsIs, '\n');
      WrittenPlainly(definitions[i]);
      if value.Some? {
        file := file + ("-D" + name + "=" + value.value + "\n");
      } else {
        file := file + ("-D" + name + "\n");
      }
    }
    assert definitions[..|definitions|] == definitions;
    file := file + "\n";
  }

  predicate HasNoSpace(s: string) {
    forall i :: 0 <= i < |s| ==> !IsWhitespace(s[i])
  }

  predicate IsName(name: string) {
    HasNoSpace(name) && '=' !in name
  }

  predicate IsWritable(d: Definition, encode: string -> string) {
    IsName(d.name) && (d.value.Some? ==> HasNoSpace(encode(d.value.value)))
  }

  /** The definition with what its written value stands for. */
  function Decoded(d: Definition, encode: string -> string): Definition {
    match d.value
    case None => d
    case Some(value) => d.(value := Some(UnescapeNinja(encode(value))))
  }

  function AllDecoded(ds: seq<Definition>, encode: string -> string): (r: seq<Definition>)
    ensures |r| == |ds|
  {
    seq(|ds|, i requires 0 <= i < |ds| => Decoded(ds[i], encode))
  }

  lemma {:induction false} WordEndIs(word: string, rest: string)
    requires HasNoSpace(word) && (rest != [] ==> IsWhitespace(rest[0]))
    ensures WordEnd(word + rest) == |word|
  {
    if word != [] {
      assert (word + rest)[1..] == word[1..] + rest;
      WordEndIs(word[1..], rest);
    } else {
      assert word + rest == rest;
    }
  }

  lemma SplitAtSpace(word: string, space: char, rest: string)
    requires HasNoSpace(word) && word != [] && IsWhitespace(space)
    ensures SplitWhitespace(word + [space] + rest) == [word] + SplitWhitespace(rest)
  {
    var s := word + [space] + rest;
    assert s == word + ([space] + rest);
    WordEndIs(word, [space] + rest);
    assert s[..|word|] == word && s[|word|..] == [space] + rest;
    assert ([space] + rest)[1..] == rest;
  }

  lemma ParseOfWritten(d: Definition, encode: string -> string)
    requires IsWritable(d, encode)
    ensures "-D" <= Written(d, encode) && HasNoSpace(Written(d, encode))
    ensures ParseDefine(Written(d, encode)[2..]) == Decoded(d, encode)
  {
    var w := Written(d, encode)[2..];
    if d.value.Some? {
      assert w == d.name + "=" + encode(d.value.value);
      assert w[|d.name|] == '=' && forall j :: 0 <= j < |d.name| ==> w[j] == d.name[j];
      assert EqualsSign(w) == |d.name|;
      assert w[..|d.name|] == d.name && w[|d.name| + 1..] == encode(d.value.value);
    } else {
      assert w == d.name;
    }
  }

  lemma FirstWrittenIsRead(d: Definition, encode: string -> string, separator: char, rest: string)
    requires IsWritable(d, encode) && IsWhitespace(separator) && FromDefinesStr(rest).Ok?
    ensures FromDefinesStr(Written(d, encode) + [separator] + rest)
         == Ok([Decoded(d, encode)] + FromDefinesStr(rest).value)
  {
    ParseOfWritten(d, encode);
    SplitAtSpace(Written(d, encode), separator, rest);
  }

  /** Written definitions are read as what they stand for, whatever the white space between them. */
  lemma {:induction false} WrittenComesBack(ds: seq<Definition>, encode: string -> string, separator: char, tail: string)
    requires IsWhitespace(separator) && SplitWhitespace(tail) == []
    requires forall i :: 0 <= i < |ds| ==> IsWritable(ds[i], encode)
    ensures FromDefinesStr(AllWritten(ds, encode, separator) + tail) == Ok(AllDecoded(ds, encode))
    decreases |ds|
  {
    if ds == [] {
      assert "" + tail == tail;
    } else {
      var w, others := Written(ds[0], encode), AllWritten(ds[1..], encode, separator);
      WrittenComesBack(ds[1..], encode, separator, tail);
      FirstWrittenIsRead(ds[0], encode, separator, others + tail);
      Regroup(w + [separator], others, tail);
      AllDecodedSplits(ds, encode);
    }
  }

  lemma AllDecodedSplits(ds: seq<Definition>, encode: string -> string)
    requires ds != []
    ensures AllDecoded(ds, encode) == [Decoded(ds[0], encode)] + AllDecoded(ds[1..], encode)
  {
  }

  lemma EscapedIsWritable(d: Definition, shell: char -> bool, ninja: char -> bool, encode: string -> string)
    requires shell('\\') && ninja('$') && IsReadBack(d)
    requires forall v :: encode(v) == Escape(Escape(v, '\\', shell), '$', ninja)
    ensures IsWritable(d, encode) && Decoded(d, encode) == d
  {
    if d.value.Some? {
      var v := d.value.value;
      NinjaRoundTrip(v, shell, ninja);
      EscapeAddsNoSpace(v, '\\', shell);
      EscapeAddsNoSpace(Escape(v, '\\', shell), '$', ninja);
    }
  }

  /** Definitions that are escaped for the shell and then for ninja come back. */
  lemma EscapedComesBack(ds: seq<Definition>, shell: char -> bool, ninja: char -> bool, separator: char)
    requires shell('\\') && ninja('$') && IsWhitespace(separator)
    requires forall i :: 0 <= i < |ds| ==> IsReadBack(ds[i])
    ensures FromDefinesStr(AllWritten(ds, v => Escape(Escape(v, '\\', shell), '$', ninja), separator)) == Ok(ds)
  {
    var encode := v => Escape(Escape(v, '\\', shell), '$', ninja);
    forall i | 0 <= i < |ds|
      ensures IsWritable(ds[i], encode) && Decoded(ds[i], encode) == ds[i]
    {
      EscapedIsWritable(ds[i], shell, ninja, encode);
    }
    assert AllDecoded(ds, encode) == ds;
    WrittenComesBack(ds, encode, separator, "");
    var written := AllWritten(ds, encode, separator);
    assert written + "" == written;
  }

  lemma {:induction false} EscapeAddsNoSpace(s: string, e: char, special: char -> bool)
    requires HasNoSpace(s) && !IsWhitespace(e)
    ensures HasNoSpace(Escape(s, e, special))
  {
    if s != [] {
      EscapeAddsNoSpace(s[1..], e, special);
    }
  }

  /** What has been read has names without white space and `=`, and values without white space. */
  predicate IsReadBack(d: Definition) {
    IsName(d.name) && (d.value.Some? ==> HasNoSpace(d.value.value))
  }

  lemma ParseDefineIsReadBack(stripped: string)
    requires HasNoSpace(stripped)
    ensures IsReadBack(ParseDefine(stripped))
  {
    var i := EqualsSign(stripped);
    if i < |stripped| {
      var escaped := stripped[i + 1..];
      UnescapeNinjaKeeps(escaped);
      forall k | 0 <= k < |UnescapeNinja(escaped)|
        ensures !IsWhitespace(UnescapeNinja(escaped)[k])
      {
        assert UnescapeNinja(escaped)[k] in escaped;
      }
    }
  }

  lemma {:induction false} WordsHaveNoSpace(s: string)
    ensures forall i :: 0 <= i < |SplitWhitespace(s)| ==> HasNoSpace(SplitWhitespace(s)[i])
    decreases |s|
  {
    if s != [] {
      if IsWhitespace(s[0]) {
        WordsHaveNoSpace(s[1..]);
      } else {
        WordsHaveNoSpace(s[WordEnd(s)..]);
      }
    }
  }

  lemma {:induction false} ParsedAreReadBack(words: seq<string>)
    requires forall i :: 0 <= i < |words| ==> HasNoSpace(words[i])
    requires ParseWords(words).Ok?
    ensures forall i :: 0 <= i < |ParseWords(words).value| ==> IsReadBack(ParseWords(words).value[i])
  {
    if words != [] {
      ParsedAreReadBack(words[1..]);
      assert forall i :: 0 <= i < |words[0]| - 2 ==> words[0][2..][i] == words[0][i + 2];
      ParseDefineIsReadBack(words[0][2..]);
    }
  }

  /** Does the definition survive being saved and read? */
  predicate IsPlain(d: Definition) {
    IsName(d.name) && (d.value.Some? ==> HasNoSpace(d.value.value) && '$' !in d.value.value && '\\' !in d.value.value)
  }

  /**
   * What is saved is what is read back, if and only if no name has white space or `=`, and no
   * value has white space, `$` or `\`.
   */
  lemma SavedComesBack(ds: seq<Definition>)
    ensures FromDefinesStr(Saved(ds)) == Ok(ds) <==> forall i :: 0 <= i < |ds| ==> IsPlain(ds[i])
  {
    if forall i :: 0 <= i < |ds| ==> IsReadBack(ds[i]) {
      assert SplitWhitespace("\n") == [] by { assert "\n"[1..] == []; }
      assert forall i :: 0 <= i < |ds| ==> IsReadBack(ds[i]) ==> IsWritable(ds[i], AsIs);
      WrittenComesBack(ds, AsIs, '\n', "\n");
      PlainIsDecoded(ds);
    } else if FromDefinesStr(Saved(ds)) == Ok(ds) {
      WordsHaveNoSpace(Saved(ds));
      ParsedAreReadBack(SplitWhitespace(Saved(ds)));
      assert false;
    }
  }

  /** A value that is not read back: `$` is taken for an escape character. */
  lemma DollarIsLost()
    ensures FromDefinesStr(Saved([Definition("N", Some("$x"))])) == Ok([Definition("N", Some("x"))])
  {
    var ds := [Definition("N", Some("$x"))];
    assert "$x"[2..] == "" && "x"[1..] == "";
    assert UnescapeNinja("$x") == "x";
    assert SplitWhitespace("\n") == [] by { assert "\n"[1..] == []; }
    assert IsWritable(ds[0], AsIs);
    WrittenComesBack(ds, AsIs, '\n', "\n");
    assert AllDecoded(ds, AsIs) == [Definition("N", Some("x"))];
  }

  lemma PlainIsDecoded(ds: seq<Definition>)
    requires forall i :: 0 <= i < |ds| ==> IsReadBack(ds[i])
    ensures AllDecoded(ds, AsIs) == ds <==> forall i :: 0 <= i < |ds| ==> IsPlain(ds[i])
  {
    forall i | 0 <= i < |ds|
      ensures Decoded(ds[i], AsIs) == ds[i] <==> IsPlain(ds[i])
    {
      assert IsReadBack(ds[i]);
      if ds[i].value.Some? {
        UnescapeNinjaKeeps(ds[i].value.value);
      }
    }
    assert forall i :: 0 <= i < |ds| ==> AllDecoded(ds, AsIs)[i] == Decoded(ds[i], AsIs);
  }

  // ---------------------------------------------------------------------- merging

  predicate Has(ds: seq<Definition>, name: string) {
    exists i :: 0 <= i < |ds| && ds[i].name == name
  }

  /** The definitions that are the first of their name, in their order. */
  function FirstWins(ds: seq<Definition>): seq<Definition> {
    if ds == [] then []
    else
      var n := |ds| - 1;
      FirstWins(ds[..n]) + if Has(ds[..n], ds[n].name) then [] else [ds[n]]
  }

  /** Filtering in place, with a set of the names seen. */
  method RemoveDuplicates(definitions: seq<Definition>) returns (r: seq<Definition>)
    ensures r == FirstWins(definitions)
  {
    var uniques: set<string> := {};
    r := [];
    for i := 0 to |definitions|
      invariant r == FirstWins(definitions[..i])
      invariant forall name :: name in uniques <==> Has(definitions[..i], name)
    {
      var e := definitions[i];
      HasSnoc(definitions, i);
      assert definitions[..i + 1][..i] == definitions[..i];
      if e.name !in uniques {
        uniques := uniques + {e.name};
        r := r + [e];
      }
    }
    assert definitions[..|definitions|] == definitions;
  }

  lemma HasSnoc(ds: seq<Definition>, i: nat)
    requires i < |ds|
    ensures forall name :: Has(ds[..i + 1], name) <==> Has(ds[..i], name) || ds[i].name == name
  {
    forall name
      ensures Has(ds[..i + 1], name) <==> Has(ds[..i], name) || ds[i].name == name
    {
      HasEither(ds[..i], [ds[i]], name);
      assert ds[..i + 1] == ds[..i] + [ds[i]];
      assert [ds[i]][0].name == ds[i].name;
    }
  }

  lemma HasEither(a: seq<Definition>, b: seq<Definition>, name: string)
    ensures Has(a + b, name) <==> Has(a, name) || Has(b, name)
  {
    if Has(a, name) {
      var i :| 0 <= i < |a| && a[i].name == name;
      assert (a + b)[i].name == name;
    }
    if Has(b, name) {
      var i :| 0 <= i < |b| && b[i].name == name;
      assert (a + b)[|a| + i].name == name;
    }
  }

  predicate NamesAreUnique(ds: seq<Definition>) {
    forall i, j :: 0 <= i < j < |ds| ==> ds[i].name != ds[j].name
  }

  lemma {:induction false} FirstWinsKeepsNames(ds: seq<Definition>, name: string)
    ensures Has(FirstWins(ds), name) <==> Has(ds, name)
  {
    if ds != [] {
      var n := |ds| - 1;
      FirstWinsKeepsNames(ds[..n], name);
      assert ds == ds[..n] + [ds[n]];
      HasEither(ds[..n], [ds[n]], name);
      HasEither(FirstWins(ds[..n]), if Has(ds[..n], ds[n].name) then [] else [ds[n]], name);
    }
  }

  lemma {:induction false} FirstWinsIsUnique(ds: seq<Definition>)
    ensures NamesAreUnique(FirstWins(ds))
  {
    if ds != [] {
      var n := |ds| - 1;
      FirstWinsIsUnique(ds[..n]);
      FirstWinsKeepsNames(ds[..n], ds[n].name);
    }
  }

  lemma {:induction false} UniqueStays(ds: seq<Definition>)
    requires NamesAreUnique(ds)
    ensures FirstWins(ds) == ds
  {
    if ds != [] {
      var n := |ds| - 1;
      UniqueStays(ds[..n]);
      LastApart(ds);
    }
  }

  lemma LastApart(ds: seq<Definition>)
    requires ds != []
    ensures ds == ds[..|ds| - 1] + [ds[|ds| - 1]]
  {
  }

  /** The value of the first definition of the name. */
  function Lookup(ds: seq<Definition>, name: string): Option<Definition> {
    if ds == [] then None
    else if ds[0].name == name then Some(ds[0])
    else Lookup(ds[1..], name)
  }

  lemma {:induction false} LookupSplits(a: seq<Definition>, b: seq<Definition>, name: string)
    ensures Lookup(a + b, name) == if Has(a, name) then Lookup(a, name) else Lookup(b, name)
    ensures Lookup(a, name) == None <==> !Has(a, name)
  {
    if a == [] {
      assert a + b == b;
    } else {
      assert (a + b)[1..] == a[1..] + b;
      LookupSplits(a[1..], b, name);
      assert a == [a[0]] + a[1..];
      HasEither([a[0]], a[1..], name);
      assert [a[0]][0].name == a[0].name;
    }
  }

  /** The first definition of every name wins. */
  lemma {:induction false} FirstWinsKeepsFirst(ds: seq<Definition>, name: string)
    ensures Lookup(FirstWins(ds), name) == Lookup(ds, name)
  {
    if ds != [] {
      var n := |ds| - 1;
      var last := if Has(ds[..n], ds[n].name) then [] else [ds[n]];
      assert ds == ds[..n] + [ds[n]];
      FirstWinsKeepsFirst(ds[..n], name);
      FirstWinsKeepsNames(ds[..n], name);
      LookupSplits(ds[..n], [ds[n]], name);
      LookupSplits(FirstWins(ds[..n]), last, name);
    }
  }

  /** Are the positions increasing, and do they pick the part from the whole? */
  predicate Picks(positions: seq<nat>, part: seq<Definition>, whole: seq<Definition>) {
    && |positions| == |part|
    && (forall i :: 0 <= i < |positions| ==> positions[i] < |whole| && whole[positions[i]] == part[i])
    && (forall i, j :: 0 <= i < j < |positions| ==> positions[i] < positions[j])
  }

  lemma PicksFromMore(positions: seq<nat>, part: seq<Definition>, ds: seq<Definition>, n: nat)
    requires n <= |ds| && Picks(positions, part, ds[..n])
    ensures Picks(positions, part, ds)
  {
  }

  lemma PicksOneMore(positions: seq<nat>, part: seq<Definition>, ds: seq<Definition>, n: nat)
    requires n < |ds| && Picks(positions, part, ds[..n])
    ensures Picks(positions + [n], part + [ds[n]], ds)
  {
  }

  /** The definitions that are kept stay in their order. */
  lemma {:induction false} FirstWinsKeepsOrder(ds: seq<Definition>) returns (positions: seq<nat>)
    ensures Picks(positions, FirstWins(ds), ds)
  {
    if ds == [] {
      positions := [];
    } else {
      var n := |ds| - 1;
      positions := FirstWinsKeepsOrder(ds[..n]);
      PicksFromMore(positions, FirstWins(ds[..n]), ds, n);
      if !Has(ds[..n], ds[n].name) {
        PicksOneMore(positions, FirstWins(ds[..n]), ds, n);
        positions := positions + [n];
      }
    }
  }

  /** It makes no difference whether what comes first has been filtered already. */
  lemma {:induction false} FilteringFirstPart(a: seq<Definition>, b: seq<Definition>)
    ensures FirstWins(FirstWins(a) + b) == FirstWins(a + b)
  {
    if b == [] {
      assert a + b == a && FirstWins(a) + b == FirstWins(a);
      FirstWinsIsUnique(a);
      UniqueStays(FirstWins(a));
    } else {
      var n := |b| - 1;
      var name := b[n].name;
      FilteringFirstPart(a, b[..n]);
      assert (a + b)[..|a| + n] == a + b[..n];
      assert (FirstWins(a) + b)[..|FirstWins(a)| + n] == FirstWins(a) + b[..n];
      HasEither(a, b[..n], name);
      HasEither(FirstWins(a), b[..n], name);
      FirstWinsKeepsNames(a, name);
    }
  }

  lemma FilteringAgain(ds: seq<Definition>)
    ensures FirstWins(FirstWins(ds)) == FirstWins(ds)
  {
    FirstWinsIsUnique(ds);
    UniqueStays(FirstWins(ds));
  }

  method Combine(a: seq<Definition>, b: seq<Definition>) returns (r: seq<Definition>)
    ensures r == FirstWins(a + b)
  {
    r := RemoveDuplicates(a + b);
  }

  // -------------------------------------------------------------------- ninja files

  const DEFINES := "defines = "

  /** The rest of the first line that starts with the prefix. */
  function DefinesLine(lines: seq<string>): Result<string, Panic> {
    if lines == [] then Err(MissingDefines)
    else if DEFINES <= lines[0] then Ok(lines[0][|DEFINES|..])
    else DefinesLine(lines[1..])
  }

  function FromNinjaFileContent(contents: string): Result<seq<Definition>, Panic> {
    match DefinesLine(StrLines(contents))
    case Err(e) => Err(e)
    case Ok(defines) => FromDefinesStr(defines)
  }

  /** The definitions of all files, one file after the other, up to the first file that cannot be read. */
  function AllDefinitions(files: seq<string>): Result<seq<Definition>, Panic> {
    if files == [] then Ok([])
    else
      var n := |files| - 1;
      match AllDefinitions(files[..n])
      case Err(e) => Err(e)
      case Ok(ds) => match FromNinjaFileContent(files[n])
                     case Err(e) => Err(e)
                     case Ok(more) => Ok(ds + more)
  }

  lemma {:induction false} FailureStays(files: seq<string>, n: nat)
    requires n <= |files| && AllDefinitions(files[..n]).Err?
    ensures AllDefinitions(files) == AllDefinitions(files[..n])
  {
    if n == |files| {
      assert files[..n] == files;
    } else {
      var m := |files| - 1;
      assert files[..m][..n] == files[..n];
      FailureStays(files[..m], n);
    }
  }

  /** Merging file by file is one filtering of the definitions of all files together. */
  method FromNinjaFiles(files: seq<string>) returns (r: Result<seq<Definition>, Panic>)
    ensures AllDefinitions(files).Ok? ==> r == Ok(FirstWins(AllDefinitions(files).value))
    ensures AllDefinitions(files).Err? ==> r == AllDefinitions(files)
  {
    var definitions: seq<Definition> := [];
    for i := 0 to |files|
      invariant AllDefinitions(files[..i]).Ok?
      invariant definitions == FirstWins(AllDefinitions(files[..i]).value)
    {
      assert files[..i + 1][..i] == files[..i];
      var more := FromNinjaFileContent(files[i]);
      if more.Err? {
        FailureStays(files, i + 1);
        return more;
      }
      FilteringFirstPart(AllDefinitions(files[..i]).value, more.value);
      definitions := Combine(definitions, more.value);
    }
    assert files[..|files|] == files;
    r := Ok(definitions);
  }
}
