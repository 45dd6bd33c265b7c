/** Single tokens on literal text (src/sql/parser.ts): the characters are written out here. */
module SqlTokens {
  import opened Text
  import opened SqlLexer

  const LOWER_CASE: set<char> := {
    'a', 'b', 'c', 'd', 'e', 'f', 'g', 'h', 'i', 'j', 'k', 'l', 'm', 'n', 'o', 'p', 'q', 'r', 's', 't', 'u',
    'v', 'w', 'x', 'y', 'z'
  }

  const UPPER_CASE: set<char> := {
    'A', 'B', 'C', 'D', 'E', 'F', 'G', 'H', 'I', 'J', 'K', 'L', 'M', 'N', 'O', 'P', 'Q', 'R', 'S', 'T', 'U',
    'V', 'W', 'X', 'Y', 'Z'
  }

  const DIGITS: set<char> := { '0', '1', '2', '3', '4', '5', '6', '7', '8', '9' }

  const NAME_CHARACTERS: set<char> := LOWER_CASE + UPPER_CASE + DIGITS + {'_'}

  const SPECIAL_CHARACTERS: set<char> := { ':', '?', '\'', '\"', '[', '-', '/', '`' }

  lemma LowerCase(c: char)
    ensures 'a' <= c <= 'z' <==> c in LOWER_CASE
  {
    if 'a' <= c <= 'z' {
      var n := c as int;
      assert n == 97 || n == 98 || n == 99 || n == 100 || n == 101 || n == 102 || n == 103 || n == 104 || n == 105
             || n == 106 || n == 107 || n == 108 || n == 109 || n == 110 || n == 111 || n == 112 || n == 113
             || n == 114 || n == 115 || n == 116 || n == 117 || n == 118 || n == 119 || n == 120 || n == 121
             || n == 122;
    }
  }

  lemma UpperCase(c: char)
    ensures 'A' <= c <= 'Z' <==> c in UPPER_CASE
  {
    if 'A' <= c <= 'Z' {
      var n := c as int;
      assert n == 65 || n == 66 || n == 67 || n == 68 || n == 69 || n == 70 || n == 71 || n == 72 || n == 73
             || n == 74 || n == 75 || n == 76 || n == 77 || n == 78 || n == 79 || n == 80 || n == 81 || n == 82
             || n == 83 || n == 84 || n == 85 || n == 86 || n == 87 || n == 88 || n == 89 || n == 90;
    }
  }

  lemma Digits(c: char)
    ensures '0' <= c <= '9' <==> c in DIGITS
  {
    if '0' <= c <= '9' {
      var n := c as int;
      assert n == 48 || n == 49 || n == 50 || n == 51 || n == 52 || n == 53 || n == 54 || n == 55 || n == 56
             || n == 57;
    }
  }

  lemma NameCharacters(c: char)
    ensures IsWord(c) <==> c in NAME_CHARACTERS
  {
    LowerCase(c);
    UpperCase(c);
    Digits(c);
  }

  lemma SpecialCharacters(c: char)
    ensures IsSpecial(c) <==> c in SPECIAL_CHARACTERS
  {
  }

  /** The text does not go on with one of the characters. */
  predicate EndsBefore(rest: string, characters: set<char>) { rest == "" || rest[0] !in characters }

  lemma {:induction false} WordRunIs(w: string, rest: string)
    requires (forall k | 0 <= k < |w| :: IsWord(w[k])) && (rest == "" || !IsWord(rest[0]))
    ensures WordRun(w + rest) == |w|
  {
    if w == "" {
      assert w + rest == rest;
    } else {
      assert (w + rest)[1..] == w[1..] + rest;
      WordRunIs(w[1..], rest);
    }
  }

  lemma {:induction false} ColonRunIs(w: string, rest: string)
    requires (forall k | 0 <= k < |w| :: w[k] == ':') && (rest == "" || rest[0] != ':')
    ensures ColonRun(w + rest) == |w|
  {
    if w == "" {
      assert w + rest == rest;
    } else {
      assert (w + rest)[1..] == w[1..] + rest;
      ColonRunIs(w[1..], rest);
    }
  }

  lemma {:induction false} OtherRunIs(w: string, rest: string)
    requires (forall k | 0 <= k < |w| :: !IsSpecial(w[k])) && (rest == "" || IsSpecial(rest[0]))
    ensures OtherRun(w + rest) == |w|
  {
    if w == "" {
      assert w + rest == rest;
    } else {
      assert (w + rest)[1..] == w[1..] + rest;
      OtherRunIs(w[1..], rest);
    }
  }

  lemma OneToken(mode: Mode, pre: string, t: Token, rest: string)
    requires t.text != "" && First(mode, pre, t.text + rest) == t
    ensures Lex(mode, pre, t.text + rest) == [t] + Lex(mode, pre + t.text, rest)
  {
    LexNext(mode, pre, t.text + rest);
    assert (t.text + rest)[|t.text|..] == rest;
  }

  /** A colon and a name, as long as it goes, are one named parameter. */
  lemma NamedParameterIsLexed(mode: Mode, pre: string, name: string, rest: string)
    requires name != "" && (forall k | 0 <= k < |name| :: name[k] in NAME_CHARACTERS)
    requires EndsBefore(rest, NAME_CHARACTERS)
    ensures Lex(mode, pre, ":" + name + rest) == [Token(Named, ":" + name)] + Lex(mode, pre + (":" + name), rest)
  {
    forall c
      ensures IsWord(c) <==> c in NAME_CHARACTERS
    {
      NameCharacters(c);
    }
    var s := ":" + name + rest;
    assert s[1..] == name + rest && s[..1 + |name|] == ":" + name;
    WordRunIs(name, rest);
    OneToken(mode, pre, Token(Named, ":" + name), rest);
  }

  /** A colon before anything else is text: alone, or with the colons after it. */
  lemma OtherColonIsLexed(mode: Mode, pre: string, colons: string, rest: string)
    requires colons != "" && (forall k | 0 <= k < |colons| :: colons[k] == ':')
    requires rest == "" || rest[0] != ':'
    requires |colons| == 1 ==> EndsBefore(rest, NAME_CHARACTERS)
    ensures Lex(mode, pre, colons + rest) == [Token(Other, colons)] + Lex(mode, pre + colons, rest)
  {
    if rest != "" {
      NameCharacters(rest[0]);
    }
    NameCharacters(':');
    var s := colons + rest;
    ColonRunIs(colons, rest);
    assert |colons| > 1 ==> s[1] == ':';
    assert |colons| == 1 && rest != "" ==> s[1] == rest[0];
    assert s[..|colons|] == colons;
    OneToken(mode, pre, Token(Other, colons), rest);
  }

  /** Text without special characters, as long as it goes, is one token. */
  lemma PlainTextIsLexed(mode: Mode, pre: string, w: string, rest: string)
    requires w != "" && (forall k | 0 <= k < |w| :: w[k] !in SPECIAL_CHARACTERS)
    requires rest == "" || rest[0] in SPECIAL_CHARACTERS
    ensures Lex(mode, pre, w + rest) == [Token(Other, w)] + Lex(mode, pre + w, rest)
  {
    forall c
      ensures IsSpecial(c) <==> c in SPECIAL_CHARACTERS
    {
      SpecialCharacters(c);
    }
    OtherRunIs(w, rest);
    assert (w + rest)[0] == w[0] && (w + rest)[..|w|] == w;
    OneToken(mode, pre, Token(Other, w), rest);
  }

  /** The text ends with the word ARRAY, whatever its case: no name character stands before it. */
  predicate EndsWithArray(pre: string) {
    var n := |pre|;
    && n >= 5
    && pre[n - 5] in {'A', 'a'} && pre[n - 4] in {'R', 'r'} && pre[n - 3] in {'R', 'r'}
    && pre[n - 2] in {'A', 'a'} && pre[n - 1] in {'Y', 'y'}
    && (n > 5 ==> pre[n - 6] !in NAME_CHARACTERS)
  }

  /** A bracket after the word ARRAY is text by itself; elsewhere it begins an identifier. */
  lemma BracketIsLexed(mode: Mode, pre: string, body: string, rest: string)
    requires forall k | 0 <= k < |body| :: body[k] != ']'
    ensures EndsWithArray(pre) ==>
              Lex(mode, pre, "[" + (body + "]" + rest)) == [Token(Other, "[")] + Lex(mode, pre + "[", body + "]" + rest)
    ensures var region := "[" + body + "]";
            !EndsWithArray(pre) ==>
              Lex(mode, pre, region + rest) == [Token(Other, region)] + Lex(mode, pre + region, rest)
  {
    if |pre| > 5 {
      NameCharacters(pre[|pre| - 6]);
    }
    if EndsWithArray(pre) {
      var s := "[" + (body + "]" + rest);
      assert RegionLength(mode, pre, s) == 0 && s[..1] == "[";
      OneToken(mode, pre, Token(Other, "["), body + "]" + rest);
    } else {
      var region := "[" + body + "]";
      BracketRegion(mode, pre, body, rest);
      RegionIsToken(mode, pre, region + rest, |region|);
      assert (region + rest)[..|region|] == region;
      OneToken(mode, pre, Token(Other, region), rest);
    }
  }

  lemma BracketRegion(mode: Mode, pre: string, body: string, rest: string)
    requires !AfterArray(pre) && forall k | 0 <= k < |body| :: body[k] != ']'
    ensures IsClosedRegionAt(mode, pre, "[" + body + "]" + rest, |body| + 2)
  {
    var region := "[" + body + "]";
    assert (region + rest)[..|body| + 2] == region && region[1..|region| - 1] == body;
  }

  /** A line comment goes to the end of its line. */
  lemma LineCommentIsLexed(mode: Mode, pre: string, body: string, rest: string)
    requires forall k | 0 <= k < |body| :: body[k] != '\r' && body[k] != '\n'
    requires rest == "" || rest[0] == '\r' || rest[0] == '\n'
    ensures var comment := "--" + body;
            Lex(mode, pre, comment + rest) == [Token(Other, comment)] + Lex(mode, pre + comment, rest)
  {
    var comment := "--" + body;
    assert (comment + rest)[..|comment|] == comment;
    RegionIsToken(mode, pre, comment + rest, |comment|);
    OneToken(mode, pre, Token(Other, comment), rest);
  }

  /** A question mark alone is a placeholder, two are an escape, and one that is left over is text. */
  lemma QuestionIsLexed(mode: Mode, pre: string, rest: string)
    ensures var t := Token(if pre != "" && pre[|pre| - 1] == '?' then Other else Positional, "?");
            rest == "" || rest[0] != '?' ==> Lex(mode, pre, "?" + rest) == [t] + Lex(mode, pre + "?", rest)
    ensures Lex(mode, pre, "??" + rest) == [Token(EscapedQuestion, "??")] + Lex(mode, pre + "??", rest)
  {
    assert ("?" + rest)[..1] == "?" && ("??" + rest)[..2] == "??";
    if rest == "" || rest[0] != '?' {
      OneToken(mode, pre, Token(if pre != "" && pre[|pre| - 1] == '?' then Other else Positional, "?"), rest);
    }
    OneToken(mode, pre, Token(EscapedQuestion, "??"), rest);
  }
}
