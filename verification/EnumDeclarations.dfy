/**
  * ENUM declarations of MySQL (src/platforms/abstract-mysql-platform.ts) and the scanner that
  * reads them back from column metadata (src/platforms/_internal/metadata-provider-utils.ts).
  */
module EnumDeclarations {
  import opened Quoting
  import opened Text

  // ---------------------------------------------------------------------------------------
  // Printing
  // ---------------------------------------------------------------------------------------

  /** The literals with a comma and the gap between them. */
  function Literals(values: seq<string>, gap: string): string {
    if values == [] then ""
    else if |values| == 1 then QuoteMySqlLiteral(values[0])
    else QuoteMySqlLiteral(values[0]) + "," + gap + Literals(values[1..], gap)
  }

  datatype Error = ColumnValuesRequired

  function GetEnumDeclarationSql(values: seq<string>): Result<string, Error> {
    if values == [] then Err(ColumnValuesRequired) else Ok("ENUM(" + Literals(values, " ") + ")")
  }

  // ---------------------------------------------------------------------------------------
  // Scanning
  // ---------------------------------------------------------------------------------------

  /** One value up to its closing quote, and the text after it. */
  function ScanValue(s: string, quote: char): (r: (string, string))
    ensures |r.1| <= |s|
    decreases |s|
  {
    if s == [] then ([], [])
    else if s[0] == '\\' then
      if |s| > 1 then var r := ScanValue(s[2..], quote); ([s[1]] + r.0, r.1) else ("\\", [])
    else if s[0] == quote && |s| > 1 && s[1] == quote then var r := ScanValue(s[2..], quote); ([quote] + r.0, r.1)
    else if s[0] == quote then ([], s[1..])
    else var r := ScanValue(s[1..], quote); ([s[0]] + r.0, r.1)
  }

  function SkipSpacesAndCommas(s: string): (r: string)
    ensures |r| <= |s|
  {
    if s != [] && (IsSpace(s[0]) || s[0] == ',') then SkipSpacesAndCommas(s[1..]) else s
  }

  /** The quoted values of the body; None where something else stands. */
  function ScanValues(s: string): Option<seq<string>>
    decreases |s|
  {
    var start := SkipSpacesAndCommas(s);
    if start == [] then Some([])
    else if start[0] != '\'' && start[0] != '"' then None
    else
      var (value, after) := ScanValue(start[1..], start[0]);
      var rest := TrimStart(after);
      if rest == [] then Some([value])
      else if rest[0] != ',' then None
      else
        var more := ScanValues(rest[1..]);
        if more.None? then None else Some([value] + more.value)
  }

  predicate IsLetter(c: char, lower: char, upper: char) { c == lower || c == upper }

  /** The text after the opening parenthesis of `enum (`. */
  function AfterEnum(s: string): (r: Option<string>)
    ensures r.Some? ==> |r.value| <= |s| - 5
  {
    if |s| < 4 || !IsLetter(s[0], 'e', 'E') || !IsLetter(s[1], 'n', 'N') || !IsLetter(s[2], 'u', 'U')
        || !IsLetter(s[3], 'm', 'M')
    then None
    else
      var rest := TrimStart(s[4..]);
      if rest == [] || rest[0] != '(' then None else Some(rest[1..])
  }

  function EnumValues(columnType: string): Option<seq<string>> {
    var trimmed := Trim(columnType);
    if AfterEnum(trimmed).None? || trimmed[|trimmed| - 1] != ')' then None
    else
      var body := AfterEnum(trimmed).value;
      ScanValues(if body == [] then [] else body[..|body| - 1])
  }

  /** The scanning loops. */
  method ParseEnumColumnValues(columnType: Option<string>) returns (r: Option<seq<string>>)
    ensures r == if columnType.None? then None else EnumValues(columnType.value)
  {
    if columnType.None? {
      return None;
    }
    var trimmed := Trim(columnType.value);
    if AfterEnum(trimmed).None? || trimmed[|trimmed| - 1] != ')' {
      return None;
    }
    var after := AfterEnum(trimmed).value;
    var body := if after == [] then [] else after[..|after| - 1];
    r := ScanBody(body);
  }

  method SkipSeparators(body: string, from: nat) returns (i: nat)
    requires from <= |body|
    ensures from <= i <= |body| && body[i..] == SkipSpacesAndCommas(body[from..])
  {
    i := from;
    while i < |body| && (IsSpace(body[i]) || body[i] == ',')
      invariant from <= i <= |body|
      invariant SkipSpacesAndCommas(body[i..]) == SkipSpacesAndCommas(body[from..])
    {
      assert body[i..][1..] == body[i + 1..];
      i := i + 1;
    }
  }

  method SkipSpaces(body: string, from: nat) returns (i: nat)
    requires from <= |body|
    ensures from <= i <= |body| && body[i..] == TrimStart(body[from..])
  {
    i := from;
    while i < |body| && IsSpace(body[i])
      invariant from <= i <= |body|
      invariant TrimStart(body[i..]) == TrimStart(body[from..])
    {
      assert body[i..][1..] == body[i + 1..];
      i := i + 1;
    }
  }

  /** The values of a body behind those read before. */
  function Values(before: seq<string>, r: Option<seq<string>>): Option<seq<string>> {
    if r.None? then None else Some(before + r.value)
  }

  lemma ValuesNext(before: seq<string>, value: string, r: Option<seq<string>>)
    ensures Values(before + [value], r) == Values(before, Values([value], r))
    ensures Values([], r) == r
  {
    if r.Some? {
      assert before + [value] + r.value == before + ([value] + r.value);
      assert [] + r.value == r.value;
    }
  }

  datatype Scanned = Nothing | Malformed | Last(value: string) | More(value: string, next: nat)

  /** What ScanValues makes of text whose separators are skipped. */
  lemma ScanUnfold(s: string, start: string)
    requires start == SkipSpacesAndCommas(s)
    ensures start == [] ==> ScanValues(s) == Some([])
    ensures start != [] && start[0] != '\'' && start[0] != '"' ==> ScanValues(s) == None
    ensures start != [] && (start[0] == '\'' || start[0] == '"') ==>
              var (value, after) := ScanValue(start[1..], start[0]);
              var rest := TrimStart(after);
              ScanValues(s) == if rest == [] then Some([value])
                               else if rest[0] != ',' then None else Values([value], ScanValues(rest[1..]))
  {
    hide SkipSpacesAndCommas, ScanValue, TrimStart;
  }

  /** One round of the scanning loop. */
  method ScanNext(body: string, from: nat) returns (r: Scanned)
    requires from <= |body|
    ensures match r
            case Nothing => ScanValues(body[from..]) == Some([])
            case Malformed => ScanValues(body[from..]) == None
            case Last(value) => ScanValues(body[from..]) == Some([value])
            case More(value, next) =>
              from < next <= |body| && ScanValues(body[from..]) == Values([value], ScanValues(body[next..]))
  {
    hide SkipSpacesAndCommas, ScanValue, TrimStart;
    var i := SkipSeparators(body, from);
    ScanUnfold(body[from..], body[i..]);
    hide ScanValues;
    if i >= |body| {
      return Nothing;
    }
    var quote := body[i];
    if quote != '\'' && quote != '"' {
      return Malformed;
    }
    assert body[i..][1..] == body[i + 1..];
    var value;
    value, i := ScanQuoted(body, i + 1, quote);
    i := SkipSpaces(body, i);
    if i >= |body| {
      return Last(value);
    }
    if body[i] != ',' {
      return Malformed;
    }
    assert body[i..][1..] == body[i + 1..];
    r := More(value, i + 1);
  }

  method ScanBody(body: string) returns (r: Option<seq<string>>)
    ensures r == ScanValues(body)
  {
    var values: seq<string>, i := [], 0;
    assert body[0..] == body;
    ValuesNext([], "", ScanValues(body));
    NoValues();
    hide ScanValues;
    while i < |body|
      invariant 0 <= i <= |body|
      invariant Values(values, ScanValues(body[i..])) == ScanValues(body)
      decreases |body| - i
    {
      var scanned := ScanNext(body, i);
      match scanned {
        case Nothing =>
          return Some(values);
        case Malformed =>
          return None;
        case Last(value) =>
          return Some(values + [value]);
        case More(value, next) =>
          ValuesNext(values, value, ScanValues(body[next..]));
          values, i := values + [value], next;
      }
    }
    assert body[|body|..] == [];
    r := Some(values);
  }

  lemma NoValues()
    ensures ScanValues([]) == Some([]) && forall values :: Values(values, Some([])) == Some(values)
  {
    forall values: seq<string>
      ensures values + [] == values
    {
    }
  }

  method ScanQuoted(body: string, from: nat, quote: char) returns (value: string, i: nat)
    requires from <= |body|
    ensures from <= i <= |body| && ScanValue(body[from..], quote) == (value, body[i..])
  {
    value, i := "", from;
    assert "" + ScanValue(body[from..], quote).0 == ScanValue(body[from..], quote).0;
    while i < |body|
      invariant from <= i <= |body|
      invariant Read(value, ScanValue(body[i..], quote)) == ScanValue(body[from..], quote)
      decreases |body| - i
    {
      assert body[i..][1..] == body[i + 1..];
      if body[i] == '\\' {
        if i + 1 < |body| {
          assert body[i..][2..] == body[i + 2..];
          ReadOne(value, body[i + 1], ScanValue(body[i + 2..], quote));
          value, i := value + [body[i + 1]], i + 2;
          continue;
        }
        assert body[i + 1..] == [] && ScanValue([], quote) == ([], []) && "\\" + [] == "\\";
        ReadOne(value, '\\', ScanValue(body[i + 1..], quote));
        value, i := value + "\\", i + 1;
        continue;
      }
      if body[i] == quote && i + 1 < |body| && body[i + 1] == quote {
        assert body[i..][2..] == body[i + 2..];
        ReadOne(value, quote, ScanValue(body[i + 2..], quote));
        value, i := value + [quote], i + 2;
        continue;
      }
      if body[i] == quote {
        i := i + 1;
        assert value + [] == value;
        return;
      }
      ReadOne(value, body[i], ScanValue(body[i + 1..], quote));
      value, i := value + [body[i]], i + 1;
    }
    assert value + [] == value;
  }

  /** A reading behind what was read before. */
  function Read(before: string, r: (string, string)): (string, string) { (before + r.0, r.1) }

  lemma ReadOne(before: string, c: char, r: (string, string))
    ensures Read(before + [c], r) == Read(before, ([c] + r.0, r.1))
  {
    assert before + [c] + r.0 == before + ([c] + r.0);
  }

  // ---------------------------------------------------------------------------------------
  // Round trip
  // ---------------------------------------------------------------------------------------

  function Escaped(s: string): string {
    if s == [] then [] else EscapedChar(s[0]) + Escaped(s[1..])
  }

  function EscapedChar(c: char): string {
    if c == '\\' then "\\\\" else if c == '\'' then "''" else [c]
  }

  lemma {:induction false} QuotedIsEscaped(s: string)
    ensures ReplaceAll(ReplaceAll(s, '\\', "\\\\"), '\'', "''") == Escaped(s)
  {
    if s != [] {
      var one := if s[0] == '\\' then "\\\\" else [s[0]];
      ReplaceAllAppend(one, ReplaceAll(s[1..], '\\', "\\\\"), '\'', "''");
      assert ReplaceAll(one, '\'', "''") == EscapedChar(s[0]) by {
        assert one[1..] == if s[0] == '\\' then "\\" else "";
      }
      QuotedIsEscaped(s[1..]);
    }
  }

  /** What was escaped is read back, up to a quote that no other quote follows. */
  lemma {:induction false} ScanUndoesEscape(s: string, rest: string)
    requires rest == [] || rest[0] != '\''
    ensures ScanValue(Escaped(s) + ['\''] + rest, '\'') == (s, rest)
    decreases |s|
  {
    var text := Escaped(s) + ['\''] + rest;
    if s == [] {
      assert text[1..] == rest;
    } else {
      var head, tail := EscapedChar(s[0]), Escaped(s[1..]) + ['\''] + rest;
      assert text == head + tail;
      assert text[|head|..] == tail;
      ScanUndoesEscape(s[1..], rest);
      assert [s[0]] + s[1..] == s;
    }
  }

  lemma QuotedText(v: string)
    ensures QuoteMySqlLiteral(v) == ['\''] + Escaped(v) + ['\'']
  {
    QuotedIsEscaped(v);
  }

  lemma ScanFirst(v: string, rest: string)
    requires rest == [] || rest[0] != '\''
    ensures var text := QuoteMySqlLiteral(v) + rest;
            && SkipSpacesAndCommas(text) == text && text[0] == '\''
            && ScanValue(text[1..], '\'') == (v, rest)
  {
    QuotedText(v);
    ScanUndoesEscape(v, rest);
    assert (QuoteMySqlLiteral(v) + rest)[1..] == Escaped(v) + ['\''] + rest;
  }

  predicate IsBlank(s: string) { forall k | 0 <= k < |s| :: IsSpace(s[k]) }

  lemma {:induction false} LiteralsReadBack(values: seq<string>, gap: string)
    requires values != [] && IsBlank(gap)
    ensures ScanValues(gap + Literals(values, gap)) == Some(values)
  {
    LeadingGap(gap, Literals(values, gap));
    if |values| == 1 {
      OneLiteralReadsBack(values[0], gap);
      assert values == [values[0]];
    } else {
      LiteralsReadBack(values[1..], gap);
      MoreLiteralsReadBack(values, gap);
    }
  }

  lemma {:induction false} LeadingGap(gap: string, text: string)
    requires IsBlank(gap)
    ensures ScanValues(gap + text) == ScanValues(text)
    ensures SkipSpacesAndCommas(gap + text) == SkipSpacesAndCommas(text)
    ensures TrimStart(gap + text) == TrimStart(text)
  {
    if gap == [] {
      assert gap + text == text;
    } else {
      assert (gap + text)[1..] == gap[1..] + text;
      LeadingGap(gap[1..], text);
    }
  }

  lemma OneLiteralReadsBack(v: string, gap: string)
    ensures ScanValues(Literals([v], gap)) == Some([v])
  {
    var text := QuoteMySqlLiteral(v);
    ScanFirst(v, []);
    hide QuoteMySqlLiteral, ScanValue, SkipSpacesAndCommas;
    assert text + [] == text;
    ScanUnfold(text, text);
    assert TrimStart([]) == [];
  }

  lemma MoreLiteralsReadBack(values: seq<string>, gap: string)
    requires |values| > 1 && ScanValues(gap + Literals(values[1..], gap)) == Some(values[1..])
    ensures ScanValues(Literals(values, gap)) == Some(values)
  {
    hide ScanValues, Literals, QuoteMySqlLiteral;
    LiteralsNext(values, gap);
    LiteralThenMore(values[0], gap + Literals(values[1..], gap), values[1..]);
    assert [values[0]] + values[1..] == values;
  }

  lemma LiteralsNext(values: seq<string>, gap: string)
    requires |values| > 1
    ensures Literals(values, gap) == QuoteMySqlLiteral(values[0]) + ("," + (gap + Literals(values[1..], gap)))
  {
    hide QuoteMySqlLiteral;
    assert QuoteMySqlLiteral(values[0]) + "," + gap + Literals(values[1..], gap)
           == QuoteMySqlLiteral(values[0]) + ("," + (gap + Literals(values[1..], gap)));
  }

  lemma LiteralThenMore(v: string, more: string, vs: seq<string>)
    requires ScanValues(more) == Some(vs)
    ensures ScanValues(QuoteMySqlLiteral(v) + ("," + more)) == Some([v] + vs)
  {
    hide QuoteMySqlLiteral, ScanValue, SkipSpacesAndCommas, ScanValues, TrimStart;
    var rest := "," + more;
    var text := QuoteMySqlLiteral(v) + rest;
    ScanFirst(v, rest);
    CommaStays(more);
    ScanUnfold(text, text);
  }

  lemma CommaStays(more: string)
    ensures TrimStart("," + more) == "," + more && ("," + more)[1..] == more
  {
  }

  /** The word enum, in any case. */
  predicate SpellsEnum(w: string) {
    |w| == 4 && w[0] in {'E', 'e'} && w[1] in {'N', 'n'} && w[2] in {'U', 'u'} && w[3] in {'M', 'm'}
  }

  /**
    * Every non-empty list comes back from a declaration in any case and with any white space,
    * whatever backslashes, quotes, commas or parentheses its values hold.
    */
  lemma AnyEnumReadsBack(word: string, space: string, values: seq<string>, gap: string)
    requires SpellsEnum(word) && IsBlank(space) && IsBlank(gap) && values != []
    ensures EnumValues(word + space + "(" + Literals(values, gap) + ")") == Some(values)
  {
    var body := Literals(values, gap);
    LiteralsReadBack(values, gap);
    LeadingGap(gap, body);
    hide Literals, ScanValues, AfterEnum, Trim, SpellsEnum;
    BodyOfEnum(word, space, body);
    var inner := body + ")";
    assert inner[..|inner| - 1] == body;
  }

  lemma BodyOfEnum(word: string, space: string, body: string)
    requires SpellsEnum(word) && IsBlank(space)
    ensures var text := word + space + "(" + body + ")";
            Trim(text) == text && text[|text| - 1] == ')' && AfterEnum(text) == Some(body + ")")
  {
    var tail := "(" + (body + ")");
    var text := word + space + "(" + body + ")";
    assert text == word + (space + tail);
    NoSpaceAround(text);
    hide Trim;
    assert text[4..] == space + tail && text[0] == word[0] && text[1] == word[1] && text[2] == word[2]
           && text[3] == word[3];
    LeadingGap(space, tail);
    OpensAtOnce(tail);
    assert tail[1..] == body + ")";
  }

  lemma NoSpaceAround(text: string)
    requires text != [] && !IsSpace(text[0]) && !IsSpace(text[|text| - 1])
    ensures Trim(text) == text
  {
  }

  lemma OpensAtOnce(tail: string)
    requires tail != [] && tail[0] == '('
    ensures TrimStart(tail) == tail
  {
  }

  /** What the platform prints is read back. */
  lemma EnumRoundTrip(values: seq<string>)
    requires values != []
    ensures GetEnumDeclarationSql(values).Ok?
    ensures EnumValues(GetEnumDeclarationSql(values).value) == Some(values)
  {
    hide EnumValues, Literals;
    AnyEnumReadsBack("ENUM", "", values, " ");
    assert "ENUM" + "" + "(" == "ENUM(";
  }

  /** Text that does not begin with the word and a parenthesis, or does not end with one, is no declaration. */
  lemma OtherTypesAreNoEnums(text: string)
    requires var t := Trim(text);
             || |t| < 4 || !SpellsEnum(t[..4]) || t[|t| - 1] != ')'
             || TrimStart(t[4..]) == [] || TrimStart(t[4..])[0] != '('
    ensures EnumValues(text) == None
  {
    var t := Trim(text);
    assert |t| >= 4 ==> t[..4][0] == t[0] && t[..4][1] == t[1] && t[..4][2] == t[2] && t[..4][3] == t[3];
  }

  /**
    * A value without its closing quote goes to the end. A backslash there stands for itself, a
    * backslash before the last character for that character, and two quotes there for one.
    */
  lemma {:induction false} UnclosedValueIsKept(v: string, quote: char, c: char)
    requires forall k | 0 <= k < |v| :: v[k] != quote && v[k] != '\\'
    requires quote != '\\'
    ensures ScanValue(v, quote) == (v, []) && ScanValue(v + "\\", quote) == (v + "\\", [])
    ensures ScanValue(v + ['\\', c], quote) == (v + [c], [])
    ensures ScanValue(v + [quote, quote], quote) == (v + [quote], [])
  {
    if v != [] {
      UnclosedValueIsKept(v[1..], quote, c);
      OneMore(v, "\\");
      OneMore(v, ['\\', c]);
      OneMore(v, [quote, quote]);
      OneMore(v, [c]);
      OneMore(v, [quote]);
      assert [v[0]] + v[1..] == v;
    } else {
      assert [] + "\\" == "\\" && [] + ['\\', c] == ['\\', c] && [] + [quote, quote] == [quote, quote];
      assert ['\\', c][2..] == [] && [quote, quote][2..] == [] && "\\"[1..] == [];
      assert ScanValue([], quote) == ([], []);
      assert [] + [c] == [c] + [] == [c] && [] + [quote] == [quote] + [] == [quote];
    }
  }

  lemma OneMore(v: string, end: string)
    requires v != []
    ensures (v + end)[0] == v[0] && (v + end)[1..] == v[1..] + end && [v[0]] + (v[1..] + end) == v + end
  {
  }

  /** What begins with neither kind of quote makes the declaration malformed. */
  lemma UnquotedIsMalformed(text: string)
    requires text != [] && text[0] !in {'\'', '"', ','} && !IsSpace(text[0])
    ensures ScanValues(text) == None
  {
  }
}
