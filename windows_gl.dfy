/**
 * The extension-list helpers of WindowsCommon/WindowsGL.cpp: a tokenizer that splits a
 * string at any of a set of delimiter characters, and the sorted list of OpenGL
 * extension names built with it.
 */
module WindowsGL {
  import opened Wrappers

  // ---------------------------------------------------------------------------
  // Tokenizing.

  /** `std::find_first_of(begin, end, ...)`: the first index from `from` on holding a delimiter, or |s|. */
  function FirstDelimiter(s: string, from: nat, delimiters: string): (i: nat)
    requires from <= |s|
    decreases |s| - from
    ensures from <= i <= |s|
  {
    if from == |s| || s[from] in delimiters then from else FirstDelimiter(s, from + 1, delimiters)
  }

  /** The index found is a delimiter, or the end, and nothing before it from `from` on is one. */
  lemma {:induction false} FirstDelimiterFinds(s: string, from: nat, delimiters: string)
    requires from <= |s|
    decreases |s| - from
    ensures var i := FirstDelimiter(s, from, delimiters);
      && (forall j :: from <= j < i ==> s[j] !in delimiters)
      && (i < |s| ==> s[i] in delimiters)
  {
    if from < |s| && s[from] !in delimiters {
      FirstDelimiterFinds(s, from + 1, delimiters);
    }
  }

  /**
   * The tokens of s[begin..]: each delimiter closes the token before it, empty or not,
   * and what follows the last delimiter is a token only when it is not empty.
   */
  function TokensFrom(s: string, delimiters: string, begin: nat): seq<string>
    requires begin <= |s|
    decreases |s| - begin
  {
    var i := FirstDelimiter(s, begin, delimiters);
    if i == |s| then (if begin == |s| then [] else [s[begin..]])
    else [s[begin..i]] + TokensFrom(s, delimiters, i + 1)
  }

  function Tokens(s: string, delimiters: string): seq<string>
  {
    TokensFrom(s, delimiters, 0)
  }

  /**
   * `tokenize_string`: while a delimiter lies ahead of `begin`, push the text before it
   * and step past it; then push the rest if it is not empty.
   */
  method TokenizeString(str: string, delimiters: string) returns (tokens: seq<string>)
    ensures tokens == Tokens(str, delimiters)
  {
    tokens := [];
    var begin := 0;
    var end := |str|;
    var iter := FirstDelimiter(str, begin, delimiters);
    while iter != end
      invariant begin <= iter <= end == |str|
      invariant iter == FirstDelimiter(str, begin, delimiters)
      invariant tokens + TokensFrom(str, delimiters, begin) == Tokens(str, delimiters)
      decreases end - begin
    {
      TokenThenRest(str, delimiters, begin);
      AppendToken(tokens, str[begin..iter], TokensFrom(str, delimiters, iter + 1));
      tokens := tokens + [str[begin..iter]];
      begin := iter + 1;
      iter := FirstDelimiter(str, begin, delimiters);
    }
    TokensAtEnd(str, delimiters, begin);
    if begin < end {
      tokens := tokens + [str[begin..]];
    } else {
      assert tokens + [] == tokens;
    }
  }

  /** Before a delimiter: the token up to it, then the tokens after it. */
  lemma TokenThenRest(s: string, delimiters: string, begin: nat)
    requires begin <= |s| && FirstDelimiter(s, begin, delimiters) < |s|
    ensures var i := FirstDelimiter(s, begin, delimiters);
      TokensFrom(s, delimiters, begin) == [s[begin..i]] + TokensFrom(s, delimiters, i + 1)
  {
  }

  /** With no delimiter ahead: the rest is one token, or none when it is empty. */
  lemma TokensAtEnd(s: string, delimiters: string, begin: nat)
    requires begin <= |s| && FirstDelimiter(s, begin, delimiters) == |s|
    ensures TokensFrom(s, delimiters, begin) == if begin == |s| then [] else [s[begin..]]
  {
  }

  lemma AppendToken(tokens: seq<string>, token: string, rest: seq<string>)
    ensures tokens + ([token] + rest) == (tokens + [token]) + rest
  {
  }

  /** No token holds a delimiter character. */
  lemma {:induction false} NoTokenHasDelimiter(s: string, delimiters: string, begin: nat)
    requires begin <= |s|
    decreases |s| - begin
    ensures forall t, c :: t in TokensFrom(s, delimiters, begin) && c in t ==> c !in delimiters
  {
    var i := FirstDelimiter(s, begin, delimiters);
    FirstDelimiterFinds(s, begin, delimiters);
    if i < |s| {
      NoTokenHasDelimiter(s, delimiters, i + 1);
    }
  }

  /** The delimiter characters of `s`, in order. */
  function DelimitersIn(s: string, delimiters: string): string
  {
    if s == [] then []
    else (if s[0] in delimiters then [s[0]] else []) + DelimitersIn(s[1..], delimiters)
  }

  /** The tokens and the delimiters between them, laid end to end. */
  function Interleave(tokens: seq<string>, separators: string): string
    requires |separators| <= |tokens| <= |separators| + 1
    decreases |tokens|
  {
    if separators == [] then (if tokens == [] then [] else tokens[0])
    else tokens[0] + [separators[0]] + Interleave(tokens[1..], separators[1..])
  }

  /** Text without delimiters holds none. */
  lemma {:induction false} NoDelimitersIn(s: string, delimiters: string)
    requires forall j :: 0 <= j < |s| ==> s[j] !in delimiters
    ensures DelimitersIn(s, delimiters) == []
  {
    if s != [] {
      NoDelimitersIn(s[1..], delimiters);
    }
  }

  lemma {:induction false} DelimitersInAppend(a: string, b: string, delimiters: string)
    decreases |a|
    ensures DelimitersIn(a + b, delimiters) == DelimitersIn(a, delimiters) + DelimitersIn(b, delimiters)
  {
    if a == [] {
      assert a + b == b;
    } else {
      var ab := a + b;
      assert ab[0] == a[0] && ab[1..] == a[1..] + b;
      DelimitersInAppend(a[1..], b, delimiters);
      var head := if a[0] in delimiters then [a[0]] else [];
      assert DelimitersIn(ab, delimiters) == head + DelimitersIn(a[1..] + b, delimiters);
      assert DelimitersIn(a, delimiters) == head + DelimitersIn(a[1..], delimiters);
    }
  }

  /** The delimiters of s[begin..] are the first one found and those after it. */
  lemma DelimitersSplit(s: string, delimiters: string, begin: nat)
    requires begin <= |s| && FirstDelimiter(s, begin, delimiters) < |s|
    ensures var i := FirstDelimiter(s, begin, delimiters);
      DelimitersIn(s[begin..], delimiters) == [s[i]] + DelimitersIn(s[i + 1..], delimiters)
  {
    var i := FirstDelimiter(s, begin, delimiters);
    FirstDelimiterFinds(s, begin, delimiters);
    var token, rest := s[begin..i], s[i + 1..];
    assert s[begin..] == token + ([s[i]] + rest);
    DelimitersInAppend(token, [s[i]] + rest, delimiters);
    NoDelimitersIn(token, delimiters);
    assert ([s[i]] + rest)[1..] == rest;
  }

  /** With no delimiter from `begin` on, s[begin..] holds none. */
  lemma DelimitersAtEnd(s: string, delimiters: string, begin: nat)
    requires begin <= |s| && FirstDelimiter(s, begin, delimiters) == |s|
    ensures DelimitersIn(s[begin..], delimiters) == []
    ensures begin < |s| ==> s[|s| - 1] !in delimiters
  {
    FirstDelimiterFinds(s, begin, delimiters);
    NoDelimitersIn(s[begin..], delimiters);
  }

  /**
   * There is one token per delimiter, plus one unless the text is empty or ends with a
   * delimiter: a trailing delimiter adds no token and an empty string has none.
   */
  lemma {:induction false} TokenCount(s: string, delimiters: string, begin: nat)
    requires begin <= |s|
    decreases |s| - begin
    ensures |TokensFrom(s, delimiters, begin)|
            == |DelimitersIn(s[begin..], delimiters)| + (if begin == |s| || s[|s| - 1] in delimiters then 0 else 1)
  {
    var i := FirstDelimiter(s, begin, delimiters);
    if i == |s| {
      DelimitersAtEnd(s, delimiters, begin);
    } else {
      FirstDelimiterFinds(s, begin, delimiters);
      TokenCount(s, delimiters, i + 1);
      DelimitersSplit(s, delimiters, begin);
    }
  }

  /** Laying the tokens and the delimiters they were split at end to end gives back the text. */
  lemma {:induction false} TokensReassemble(s: string, delimiters: string, begin: nat)
    requires begin <= |s|
    decreases |s| - begin
    ensures |DelimitersIn(s[begin..], delimiters)| <= |TokensFrom(s, delimiters, begin)| <= |DelimitersIn(s[begin..], delimiters)| + 1
    ensures Interleave(TokensFrom(s, delimiters, begin), DelimitersIn(s[begin..], delimiters)) == s[begin..]
  {
    TokenCount(s, delimiters, begin);
    var i := FirstDelimiter(s, begin, delimiters);
    if i == |s| {
      DelimitersAtEnd(s, delimiters, begin);
      TokensAtEnd(s, delimiters, begin);
    } else {
      TokensReassemble(s, delimiters, i + 1);
      ReassembleAtDelimiter(s, delimiters, begin);
    }
  }

  /** The step of the reassembly at the first delimiter from `begin` on. */
  lemma ReassembleAtDelimiter(s: string, delimiters: string, begin: nat)
    requires begin <= |s|
    requires FirstDelimiter(s, begin, delimiters) < |s|
    requires var i := FirstDelimiter(s, begin, delimiters);
      && |DelimitersIn(s[i + 1..], delimiters)| <= |TokensFrom(s, delimiters, i + 1)| <= |DelimitersIn(s[i + 1..], delimiters)| + 1
      && Interleave(TokensFrom(s, delimiters, i + 1), DelimitersIn(s[i + 1..], delimiters)) == s[i + 1..]
    ensures |DelimitersIn(s[begin..], delimiters)| <= |TokensFrom(s, delimiters, begin)| <= |DelimitersIn(s[begin..], delimiters)| + 1
    ensures Interleave(TokensFrom(s, delimiters, begin), DelimitersIn(s[begin..], delimiters)) == s[begin..]
  {
    var i := FirstDelimiter(s, begin, delimiters);
    DelimitersSplit(s, delimiters, begin);
    TokenThenRest(s, delimiters, begin);
    SliceAround(s, begin, i);
    ReassembleStep(s[begin..], s[begin..i], s[i], s[i + 1..],
      TokensFrom(s, delimiters, i + 1), DelimitersIn(s[i + 1..], delimiters));
  }

  /** s[begin..] is the text before index i, the character at i, and the text after it. */
  lemma SliceAround(s: string, begin: nat, i: nat)
    requires begin <= i < |s|
    ensures s[begin..] == s[begin..i] + [s[i]] + s[i + 1..]
  {
  }

  /** One more token and the delimiter after it, in front of a reassembled text. */
  lemma ReassembleStep(whole: string, token: string, separator: char, rest: string, tokens: seq<string>, separators: string)
    requires |separators| <= |tokens| <= |separators| + 1
    requires Interleave(tokens, separators) == rest
    requires whole == token + [separator] + rest
    ensures |[separator] + separators| <= |[token] + tokens| <= |[separator] + separators| + 1
    ensures Interleave([token] + tokens, [separator] + separators) == whole
  {
    assert ([token] + tokens)[1..] == tokens;
    assert ([separator] + separators)[1..] == separators;
  }

  /**
   * For the whole text: one token per delimiter, plus one unless the text is empty or
   * ends with a delimiter; tokens and delimiters laid end to end give back the text; no
   * token holds a delimiter.
   */
  lemma TokensOfText(s: string, delimiters: string)
    ensures |Tokens(s, delimiters)| == |DelimitersIn(s, delimiters)| + (if s == [] || s[|s| - 1] in delimiters then 0 else 1)
    ensures Interleave(Tokens(s, delimiters), DelimitersIn(s, delimiters)) == s
    ensures forall t, c :: t in Tokens(s, delimiters) && c in t ==> c !in delimiters
  {
    assert s[0..] == s;
    TokenCount(s, delimiters, 0);
    TokensReassemble(s, delimiters, 0);
    NoTokenHasDelimiter(s, delimiters, 0);
  }

  /** A leading delimiter gives an empty first token. */
  lemma LeadingDelimiterExample()
    ensures Tokens(" a", " ") == ["", "a"]
  {
    assert FirstDelimiter(" a", 0, " ") == 0 && " a"[..0] == "";
    assert FirstDelimiter(" a", 1, " ") == 2 && " a"[1..] == "a";
  }

  /** Two delimiters in a row give an empty token between them. */
  lemma AdjacentDelimitersExample()
    ensures Tokens("a  b", " ") == ["a", "", "b"]
  {
    assert FirstDelimiter("a  b", 0, " ") == 1 && "a  b"[0..1] == "a";
    assert FirstDelimiter("a  b", 2, " ") == 2 && "a  b"[2..2] == "";
    assert FirstDelimiter("a  b", 3, " ") == 4 && "a  b"[3..] == "b";
  }

  /** A trailing delimiter adds no token, and the empty string has none. */
  lemma TrailingDelimiterExample()
    ensures Tokens("a ", " ") == ["a"]
    ensures Tokens("", " ") == []
  {
    assert FirstDelimiter("a ", 0, " ") == 1 && "a "[0..1] == "a";
    assert FirstDelimiter("a ", 2, " ") == 2;
  }

  // ---------------------------------------------------------------------------
  // The sorted extension list.

  /** `std::string`'s `<=`: character by character, a proper prefix first. */
  predicate LexLe(a: string, b: string)
    decreases |a|
  {
    a == [] || (b != [] && (a[0] < b[0] || (a[0] == b[0] && LexLe(a[1..], b[1..]))))
  }

  lemma {:induction false} LexLeTotal(a: string, b: string)
    decreases |a|
    ensures LexLe(a, b) || LexLe(b, a)
  {
    if a != [] && b != [] && a[0] == b[0] {
      LexLeTotal(a[1..], b[1..]);
    }
  }

  /** Each name no greater than the next. */
  predicate SortedNames(names: seq<string>)
  {
    forall i :: 0 <= i < |names| - 1 ==> LexLe(names[i], names[i + 1])
  }

  /** `name` placed before the first element it does not follow. */
  function Insert(name: string, names: seq<string>): (r: seq<string>)
    requires SortedNames(names)
    ensures SortedNames(r)
    ensures multiset(r) == multiset(names) + multiset{name}
    ensures r[0] == name || (names != [] && r[0] == names[0])
  {
    if names == [] then [name]
    else if LexLe(name, names[0]) then [name] + names
    else
      LexLeTotal(name, names[0]);
      assert names == [names[0]] + names[1..];
      [names[0]] + Insert(name, names[1..])
  }

  /** `std::sort` of the names by `<`. */
  method SortNames(names: seq<string>) returns (sorted: seq<string>)
    ensures SortedNames(sorted)
    ensures multiset(sorted) == multiset(names)
  {
    sorted := [];
    var i := 0;
    while i < |names|
      invariant i <= |names|
      invariant SortedNames(sorted)
      invariant multiset(sorted) == multiset(names[..i])
    {
      assert names[..i + 1] == names[..i] + [names[i]];
      sorted := Insert(names[i], sorted);
      i := i + 1;
    }
    assert names[..i] == names;
  }

  /**
   * `get_opengl_extensions`: no list when the driver returns no string, otherwise the
   * space-separated names in ascending order, each as often as the string lists it.
   */
  method GetOpenGLExtensions(extensionsString: Option<string>) returns (extensions: seq<string>)
    ensures extensionsString.None? ==> extensions == []
    ensures extensionsString.Some? ==>
      SortedNames(extensions) && multiset(extensions) == multiset(Tokens(extensionsString.value, " "))
    ensures forall e, c :: e in extensions && c in e ==> c != ' '
  {
    extensions := [];
    if extensionsString.Some? {
      var tokens := TokenizeString(extensionsString.value, " ");
      TokensOfText(extensionsString.value, " ");
      extensions := SortNames(tokens);
      assert forall e :: e in extensions ==> e in multiset(tokens);
    }
  }
}
