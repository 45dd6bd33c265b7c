/**
  * Default values as column metadata shows them (src/platforms/_internal/metadata-provider-utils.ts)
  * and the string literals the platforms write (src/platforms/abstract-platform.ts,
  * src/platforms/abstract-mysql-platform.ts).
  */
module DefaultLiterals {
  import opened Quoting
  import opened Text

  datatype Vendor = MariaDb | MySql | Other

  /** Whether the row names the value dflt_value, column_default or default_value. */
  datatype SourceKey = DfltValue | ColumnDefault | DefaultValue

  datatype Value = Null | Str(text: string)

  // ---------------------------------------------------------------------------------------
  // The scanners
  // ---------------------------------------------------------------------------------------

  /**
    * The scan for enclosing parentheses from here on: outside string literals the depth comes
    * back to zero at the last character and not before.
    */
  predicate Encloses(s: string, depth: nat, inString: bool)
    decreases |s|
  {
    if s == [] then depth == 0 && !inString
    else if inString then
      if s[0] == '\'' && |s| > 1 && s[1] == '\'' then Encloses(s[2..], depth, true)
      else Encloses(s[1..], depth, s[0] != '\'')
    else if s[0] == '\'' then Encloses(s[1..], depth, true)
    else if s[0] == '(' then Encloses(s[1..], depth + 1, false)
    else if s[0] == ')' then
      depth > 0 && (depth > 1 || |s| == 1) && Encloses(s[1..], depth - 1, false)
    else Encloses(s[1..], depth, false)
  }

  predicate Enclosed(s: string) { |s| >= 2 && s[0] == '(' && s[|s| - 1] == ')' && Encloses(s, 0, false) }

  function Unwrapped(s: string): string
    decreases |s|
  {
    if Enclosed(s) then
      var inner := s[1..|s| - 1];
      TrimShortens(inner);
      Unwrapped(Trim(inner))
    else s
  }

  lemma TrimShortens(s: string)
    ensures |Trim(s)| <= |s|
  {
  }

  /** Where the first `::` outside string literals is, counted from here. */
  function FindCast(s: string, inString: bool): (r: Option<nat>)
    ensures r.Some? ==> r.value + 1 < |s|
    decreases |s|
  {
    if |s| < 2 then None
    else if inString then
      if s[0] == '\'' && s[1] == '\'' then Later(FindCast(s[2..], true), 2)
      else Later(FindCast(s[1..], s[0] != '\''), 1)
    else if s[0] == '\'' then Later(FindCast(s[1..], true), 1)
    else if s[0] == ':' && s[1] == ':' then Some(0)
    else Later(FindCast(s[1..], false), 1)
  }

  function Later(r: Option<nat>, n: nat): Option<nat> { if r.None? then None else Some(r.value + n) }

  /** Without the cast and its type, unless one side of it is blank. */
  function StripCast(s: string): string {
    var i := FindCast(s, false);
    if i.None? then s
    else
      var lhs, rhs := Trim(s[..i.value]), Trim(s[i.value + 2..]);
      if lhs == [] || rhs == [] then s else lhs
  }

  /** replaceAll of two quotes by one. */
  function Unquoted(s: string): string
    decreases |s|
  {
    if s == [] then []
    else if |s| > 1 && s[0] == '\'' && s[1] == '\'' then ['\''] + Unquoted(s[2..])
    else [s[0]] + Unquoted(s[1..])
  }

  function DecodePg(s: string): string
    decreases |s|
  {
    if s == [] then []
    else if s[0] != '\\' || |s| == 1 then [s[0]] + DecodePg(s[1..])
    else [PgEscape(s[1])] + DecodePg(s[2..])
  }

  function PgEscape(c: char): char {
    if c == 'b' then '\U{08}' else if c == 'f' then '\U{0C}' else if c == 'n' then '\n'
    else if c == 'r' then '\r' else if c == 't' then '\t' else c
  }

  function ParseSqlStringLiteral(s: string): Option<string> {
    var prefixed := |s| >= 3 && s[1] == '\'' && (s[0] == 'N' || s[0] == 'n' || s[0] == 'E' || s[0] == 'e');
    var offset := if prefixed then 1 else 0;
    if |s| <= offset || s[offset] != '\'' || s[|s| - 1] != '\'' then None
    else
      var unquoted := Unquoted(if offset + 1 < |s| - 1 then s[offset + 1..|s| - 1] else []);
      Some(if prefixed && (s[0] == 'E' || s[0] == 'e') then DecodePg(unquoted) else unquoted)
  }

  predicate KnownEscape(c: char) {
    c == '0' || c == 'b' || c == 'n' || c == 'r' || c == 't' || c == 'Z' || c == '\\' || c == '\'' || c == '"'
  }

  function MySqlEscape(c: char): char
    requires KnownEscape(c)
  {
    if c == '0' then '\0' else if c == 'b' then '\U{08}' else if c == 'n' then '\n' else if c == 'r' then '\r'
    else if c == 't' then '\t' else if c == 'Z' then '\U{1A}' else c
  }

  /** Unknown sequences keep their backslash. */
  function DecodeMySqlLike(s: string): string
    decreases |s|
  {
    if s == [] then []
    else if s[0] != '\\' || |s| == 1 then [s[0]] + DecodeMySqlLike(s[1..])
    else (if KnownEscape(s[1]) then [MySqlEscape(s[1])] else s[..2]) + DecodeMySqlLike(s[2..])
  }

  predicate IsNullWord(s: string) {
    && |s| == 4 && (s[0] == 'N' || s[0] == 'n') && (s[1] == 'U' || s[1] == 'u')
    && (s[2] == 'L' || s[2] == 'l') && (s[3] == 'L' || s[3] == 'l')
  }

  function NormalizeDefaultValue(vendor: Vendor, value: string, key: SourceKey): Value {
    var trimmed := Trim(value);
    if trimmed == [] then Str(trimmed)
    else
      var normalized := StripCast(Unwrapped(trimmed));
      var literal := ParseSqlStringLiteral(normalized);
      if literal.Some? then Str(if vendor == MariaDb then DecodeMySqlLike(literal.value) else literal.value)
      else if IsNullWord(normalized) && (key == DfltValue || (vendor != MySql && key == ColumnDefault)) then Null
      else if vendor == MariaDb && key == ColumnDefault then Str(DecodeMySqlLike(normalized))
      else Str(normalized)
  }

  // ---------------------------------------------------------------------------------------
  // The loops
  // ---------------------------------------------------------------------------------------

  method ScanEnclosing(current: string) returns (valid: bool)
    ensures valid == Encloses(current, 0, false)
  {
    var depth, inString, i := 0, false, 0;
    assert current[0..] == current;
    while i < |current|
      invariant 0 <= i <= |current| && depth >= 0
      invariant Encloses(current[i..], depth, inString) == Encloses(current, 0, false)
      decreases |current| - i
    {
      assert current[i..][1..] == current[i + 1..];
      if inString {
        if current[i] == '\'' && i + 1 < |current| && current[i + 1] == '\'' {
          assert current[i..][2..] == current[i + 2..];
          i := i + 2;
          continue;
        }
        if current[i] == '\'' {
          inString := false;
        }
        i := i + 1;
        continue;
      }
      if current[i] == '\'' {
        inString := true;
        i := i + 1;
        continue;
      }
      if current[i] == '(' {
        depth := depth + 1;
      } else if current[i] == ')' {
        depth := depth - 1;
        if depth < 0 {
          return false;
        }
        if depth == 0 && i != |current| - 1 {
          return false;
        }
      }
      i := i + 1;
    }
    assert current[i..] == [];
    valid := depth == 0 && !inString;
  }

  method UnwrapDefaultExpressionParentheses(value: string) returns (r: Option<string>)
    ensures (if r.Some? then r.value else value) == Unwrapped(value)
    ensures r.Some? <==> Enclosed(value)
  {
    var current, changed := value, false;
    while |current| >= 2 && current[0] == '(' && current[|current| - 1] == ')'
      invariant Unwrapped(current) == Unwrapped(value)
      invariant changed ==> Enclosed(value)
      invariant !changed ==> current == value
      decreases |current|
    {
      var valid := ScanEnclosing(current);
      if !valid {
        break;
      }
      TrimShortens(current[1..|current| - 1]);
      current := Trim(current[1..|current| - 1]);
      changed := true;
    }
    r := if changed then Some(current) else None;
  }

  /** The scan of stripPostgreSqlCastSuffix. */
  method ScanCast(value: string) returns (r: Option<nat>)
    ensures r == FindCast(value, false)
  {
    var inString, i := false, 0;
    assert value[0..] == value;
    while i < |value| - 1
      invariant 0 <= i <= |value|
      invariant FindCast(value, false) == Later(FindCast(value[i..], inString), i)
      decreases |value| - i
    {
      assert value[i..][1..] == value[i + 1..];
      if inString {
        if value[i] == '\'' && value[i + 1] == '\'' {
          assert value[i..][2..] == value[i + 2..];
          i := i + 2;
          continue;
        }
        if value[i] == '\'' {
          inString := false;
        }
        i := i + 1;
        continue;
      }
      if value[i] == '\'' {
        inString := true;
        i := i + 1;
        continue;
      }
      if value[i] == ':' && value[i + 1] == ':' {
        return Some(i);
      }
      i := i + 1;
    }
    r := None;
  }

  method StripPostgreSqlCastSuffix(value: string) returns (r: Option<string>)
    ensures (if r.Some? then r.value else value) == StripCast(value)
  {
    var i := ScanCast(value);
    if i.None? {
      return None;
    }
    var lhs, rhs := Trim(value[..i.value]), Trim(value[i.value + 2..]);
    if lhs == [] || rhs == [] {
      return None;
    }
    r := Some(lhs);
  }

  method Normalize(vendor: Vendor, value: string, key: SourceKey) returns (r: Value)
    ensures r == NormalizeDefaultValue(vendor, value, key)
  {
    var normalized := Trim(value);
    if normalized == "" {
      return Str(normalized);
    }
    var unwrapped := UnwrapDefaultExpressionParentheses(normalized);
    if unwrapped.Some? {
      normalized := unwrapped.value;
    }
    var castStripped := StripPostgreSqlCastSuffix(normalized);
    if castStripped.Some? {
      normalized := castStripped.value;
    }
    var literal := ParseSqlStringLiteral(normalized);
    if literal.Some? {
      return Str(if vendor == MariaDb then DecodeMySqlLike(literal.value) else literal.value);
    }
    if IsNullWord(normalized) {
      if key == DfltValue {
        return Null;
      }
      if (vendor == MariaDb || vendor != MySql) && key == ColumnDefault {
        return Null;
      }
    }
    if vendor == MariaDb && key == ColumnDefault {
      return Str(DecodeMySqlLike(normalized));
    }
    r := Str(normalized);
  }

  // ---------------------------------------------------------------------------------------
  // Literals are recovered
  // ---------------------------------------------------------------------------------------

  /** Inside a literal, whatever it holds, the scan for parentheses goes on to its closing quote. */
  lemma {:induction false} EnclosesLiteral(s: string, rest: string, depth: nat)
    requires rest == [] || rest[0] != '\''
    ensures Encloses(ReplaceAll(s, '\'', "''") + ['\''] + rest, depth, true) == Encloses(rest, depth, false)
    decreases |s|
  {
    var text := ReplaceAll(s, '\'', "''") + ['\''] + rest;
    if s == [] {
      assert text[1..] == rest;
    } else {
      var tail := ReplaceAll(s[1..], '\'', "''") + ['\''] + rest;
      EnclosesLiteral(s[1..], rest, depth);
      if s[0] == '\'' {
        assert text == "''" + tail && text[2..] == tail;
      } else {
        assert text == [s[0]] + tail && text[1..] == tail;
      }
    }
  }

  lemma {:induction false} FindCastInLiteral(s: string, rest: string)
    requires rest == [] || rest[0] != '\''
    ensures var n := |ReplaceAll(s, '\'', "''")| + 1;
            FindCast(ReplaceAll(s, '\'', "''") + ['\''] + rest, true) == Later(FindCast(rest, false), n)
    decreases |s|
  {
    var text := ReplaceAll(s, '\'', "''") + ['\''] + rest;
    if s == [] {
      assert text[1..] == rest;
    } else {
      var tail := ReplaceAll(s[1..], '\'', "''") + ['\''] + rest;
      FindCastInLiteral(s[1..], rest);
      assert tail != [];
      if s[0] == '\'' {
        assert text == "''" + tail && text[2..] == tail;
      } else {
        assert text == [s[0]] + tail && text[1..] == tail;
      }
      hide FindCast, ReplaceAll;
      CastStep(s[0], tail);
    }
  }

  /** One character of a literal, a quote doubled, does not end the scan for a cast. */
  lemma CastStep(c: char, tail: string)
    requires tail != []
    ensures c == '\'' ==> FindCast("''" + tail, true) == Later(FindCast(tail, true), 2)
    ensures c != '\'' ==> FindCast([c] + tail, true) == Later(FindCast(tail, true), 1)
  {
    assert ("''" + tail)[2..] == tail && ([c] + tail)[1..] == tail;
  }

  lemma {:induction false} UnquotedUndoes(s: string)
    ensures Unquoted(ReplaceAll(s, '\'', "''")) == s
  {
    if s != [] {
      var text, tail := ReplaceAll(s, '\'', "''"), ReplaceAll(s[1..], '\'', "''");
      UnquotedUndoes(s[1..]);
      if s[0] == '\'' {
        assert text[2..] == tail;
      } else {
        assert text[1..] == tail;
      }
    }
  }

  /** A type name: no quotes, some ink, and parentheses that close what they open. */
  predicate IsTypeName(t: string) {
    (forall i | 0 <= i < |t| :: t[i] != '\'') && Trim(t) != [] && Closes(t, 0)
  }

  predicate Closes(t: string, depth: nat)
    decreases |t|
  {
    if t == [] then depth == 0
    else if t[0] == '(' then Closes(t[1..], depth + 1)
    else if t[0] == ')' then depth > 0 && Closes(t[1..], depth - 1)
    else Closes(t[1..], depth)
  }

  lemma {:induction false} EnclosesType(t: string, e: nat, rest: string, depth: nat)
    requires (forall i | 0 <= i < |t| :: t[i] != '\'') && Closes(t, e) && depth > 0
    ensures Encloses(t + rest, depth + e, false) == Encloses(rest, depth, false)
    decreases |t|
  {
    if t == [] {
      assert t + rest == rest;
    } else {
      assert (t + rest)[0] == t[0] && (t + rest)[1..] == t[1..] + rest;
      EnclosesType(t[1..], if t[0] == '(' then e + 1 else if t[0] == ')' then e - 1 else e, rest, depth);
    }
  }

  function Repeat(c: char, n: nat): (r: string)
    ensures |r| == n && forall i | 0 <= i < n :: r[i] == c
  {
    seq(n, i => c)
  }

  lemma {:induction false} EnclosesClosing(n: nat)
    requires n > 0
    ensures Encloses(Repeat(')', n), n, false)
  {
    if n == 1 {
      assert Encloses([], 0, false);
      assert Repeat(')', 1)[1..] == [];
    } else {
      EnclosesClosing(n - 1);
      assert Repeat(')', n)[1..] == Repeat(')', n - 1);
    }
  }

  lemma {:induction false} EnclosesOpening(n: nat, rest: string, depth: nat)
    ensures Encloses(Repeat('(', n) + rest, depth, false) == Encloses(rest, depth + n, false)
    decreases n
  {
    if n == 0 {
      assert Repeat('(', 0) + rest == rest;
    } else {
      var text := Repeat('(', n) + rest;
      assert text[0] == '(' && text[1..] == Repeat('(', n - 1) + rest;
      EnclosesOpening(n - 1, rest, depth + 1);
    }
  }

  /** The literal, with `::type` behind it where there is a type, in n pairs of parentheses. */
  function Shown(s: string, cast: Option<string>, n: nat): string {
    Repeat('(', n) + Core(s, cast) + Repeat(')', n)
  }

  function Core(s: string, cast: Option<string>): string {
    QuoteStringLiteral(s) + if cast.None? then "" else "::" + cast.value
  }

  predicate IsCast(cast: Option<string>) { cast.Some? ==> IsTypeName(cast.value) }

  lemma EnclosesCast(t: string, n: nat)
    requires IsTypeName(t) && n > 0
    ensures Encloses("::" + t + Repeat(')', n), n, false)
  {
    var close := Repeat(')', n);
    var text := "::" + t + close;
    assert text[0] == ':' && text[1..][0] == ':' && text[1..][1..] == t + close;
    EnclosesClosing(n);
    EnclosesType(t, 0, close, n);
  }

  lemma EnclosesCore(s: string, cast: Option<string>, n: nat)
    requires IsCast(cast) && n > 0
    ensures Encloses(Core(s, cast) + Repeat(')', n), n, false)
  {
    var close, literal := Repeat(')', n), ReplaceAll(s, '\'', "''") + ['\''];
    var suffix := if cast.None? then "" else "::" + cast.value;
    EnclosesLiteral(s, suffix + close, n);
    assert (Core(s, cast) + close)[1..] == literal + (suffix + close);
    EnclosesClosing(n);
    if cast.None? {
      assert suffix + close == close;
    } else {
      EnclosesCast(cast.value, n);
    }
  }

  lemma InkOnBothEnds(s: string)
    requires s != [] && !IsSpace(s[0]) && !IsSpace(s[|s| - 1])
    ensures Trim(s) == s
  {
  }

  lemma ShownIsEnclosed(s: string, cast: Option<string>, n: nat)
    requires IsCast(cast) && n > 0
    ensures Enclosed(Shown(s, cast, n)) && Trim(Shown(s, cast, n)) == Shown(s, cast, n) && |Shown(s, cast, n)| >= 2
    ensures Shown(s, cast, n)[1..|Shown(s, cast, n)| - 1] == Shown(s, cast, n - 1)
  {
    hide Encloses, Core, TrimStart, TrimEnd;
    var text := Shown(s, cast, n);
    EnclosesCore(s, cast, n);
    EnclosesOpening(n, Core(s, cast) + Repeat(')', n), 0);
    assert text == Repeat('(', n) + (Core(s, cast) + Repeat(')', n));
    InkOnBothEnds(text);
    Peel(Core(s, cast), n);
  }

  /** The outermost pair of parentheses. */
  lemma Peel(core: string, n: nat)
    requires n > 0
    ensures var text := Repeat('(', n) + core + Repeat(')', n);
            && |text| >= 2 && text[0] == '(' && text[|text| - 1] == ')'
            && text[1..|text| - 1] == Repeat('(', n - 1) + core + Repeat(')', n - 1)
  {
    assert Repeat('(', n) == ['('] + Repeat('(', n - 1) && Repeat(')', n) == Repeat(')', n - 1) + [')'];
    hide Repeat;
    var inner := Repeat('(', n - 1) + core + Repeat(')', n - 1);
    assert Repeat('(', n) + core + Repeat(')', n) == ['('] + inner + [')'];
  }

  lemma {:induction false} UnwrapShown(s: string, cast: Option<string>, n: nat)
    requires IsCast(cast)
    ensures Unwrapped(Trim(Shown(s, cast, n))) == Trim(Core(s, cast))
    decreases n
  {
    if n == 0 {
      assert Shown(s, cast, 0) == Core(s, cast);
      CoreTrims(s, cast);
    } else {
      hide Trim, Core, Shown, Unwrapped, Enclosed;
      ShownIsEnclosed(s, cast, n);
      UnwrapsOnce(Shown(s, cast, n));
      UnwrapShown(s, cast, n - 1);
    }
  }

  lemma UnwrapsOnce(text: string)
    requires Enclosed(text) && |text| >= 2
    ensures Unwrapped(text) == Unwrapped(Trim(text[1..|text| - 1]))
  {
    hide Enclosed, Trim;
  }

  predicate HasInk(t: string) { exists i | 0 <= i < |t| :: !IsSpace(t[i]) }

  lemma {:induction false} TrimStartInk(t: string)
    ensures TrimStart(t) != [] <==> HasInk(t)
    ensures HasInk(TrimStart(t)) <==> HasInk(t)
  {
    if t != [] && IsSpace(t[0]) {
      TrimStartInk(t[1..]);
      if HasInk(t) {
        var i :| 0 <= i < |t| && !IsSpace(t[i]);
        assert t[1..][i - 1] == t[i];
      }
      if HasInk(t[1..]) {
        var i :| 0 <= i < |t[1..]| && !IsSpace(t[1..][i]);
        assert t[i + 1] == t[1..][i];
      }
    }
  }

  lemma {:induction false} TrimEndInk(t: string)
    ensures TrimEnd(t) != [] <==> HasInk(t)
    ensures HasInk(TrimEnd(t)) <==> HasInk(t)
  {
    if t != [] && IsSpace(t[|t| - 1]) {
      TrimEndInk(t[..|t| - 1]);
      if HasInk(t) {
        var i :| 0 <= i < |t| && !IsSpace(t[i]);
        assert t[..|t| - 1][i] == t[i];
      }
      if HasInk(t[..|t| - 1]) {
        var i :| 0 <= i < |t| - 1 && !IsSpace(t[..|t| - 1][i]);
        assert t[i] == t[..|t| - 1][i];
      }
    }
  }

  lemma {:induction false} TrimEndAppend(a: string, b: string)
    requires HasInk(b)
    ensures TrimEnd(a + b) == a + TrimEnd(b)
    decreases |b|
  {
    if IsSpace(b[|b| - 1]) {
      var c := a + b;
      assert c[..|c| - 1] == a + b[..|b| - 1];
      TrimEndInk(b);
      TrimEndInk(b[..|b| - 1]);
      TrimEndAppend(a, b[..|b| - 1]);
    }
  }

  /** Trimming touches at most the end of the type. */
  lemma CoreTrims(s: string, cast: Option<string>)
    requires IsCast(cast)
    ensures cast.None? ==> Trim(Core(s, cast)) == QuoteStringLiteral(s)
    ensures cast.Some? ==>
              Trim(Core(s, cast)) == QuoteStringLiteral(s) + "::" + TrimEnd(cast.value) && HasInk(TrimEnd(cast.value))
    ensures Trim(Core(s, cast))[0] == '\''
  {
    var literal := QuoteStringLiteral(s);
    assert literal[0] == '\'' && literal[|literal| - 1] == '\'';
    if cast.None? {
      assert Core(s, cast) == literal;
    } else {
      TrimStartInk(cast.value);
      TrimEndInk(TrimStart(cast.value));
      TrimEndInk(cast.value);
      TrimEndAppend(literal + "::", cast.value);
      assert Core(s, cast) == literal + "::" + cast.value;
    }
  }

  /** The scan for a cast runs over the literal. */
  lemma CastAfterLiteral(s: string, rest: string)
    requires rest == [] || rest[0] != '\''
    ensures FindCast(QuoteStringLiteral(s) + rest, false) == Later(FindCast(rest, false), |QuoteStringLiteral(s)|)
  {
    hide FindCast;
    var escaped := ReplaceAll(s, '\'', "''");
    FindCastInLiteral(s, rest);
    hide ReplaceAll;
    var text, inner := QuoteStringLiteral(s) + rest, escaped + ['\''] + rest;
    assert text[0] == '\'' && |text| >= 2 && text[1..] == inner;
    assert |QuoteStringLiteral(s)| == |escaped| + 2;
    CastOpens(text);
  }

  lemma CastOpens(text: string)
    requires |text| >= 2 && text[0] == '\''
    ensures FindCast(text, false) == Later(FindCast(text[1..], true), 1)
  {
  }

  lemma StripTyped(s: string, t: string)
    requires HasInk(t)
    ensures StripCast(QuoteStringLiteral(s) + "::" + t) == QuoteStringLiteral(s)
  {
    var literal, rest := QuoteStringLiteral(s), "::" + t;
    LiteralIsTrimmed(s);
    TypeIsNotBlank(t);
    CastAfterLiteral(s, rest);
    assert FindCast(rest, false) == Some(0);
    hide FindCast, Trim, QuoteStringLiteral;
    var text := literal + "::" + t;
    assert text == literal + rest;
    assert FindCast(text, false) == Some(|literal|);
    assert text[..|literal|] == literal && text[|literal| + 2..] == t;
  }

  lemma LiteralIsTrimmed(s: string)
    ensures Trim(QuoteStringLiteral(s)) == QuoteStringLiteral(s)
  {
    var literal := QuoteStringLiteral(s);
    assert literal[0] == '\'' && literal[|literal| - 1] == '\'';
    hide QuoteStringLiteral;
  }

  lemma TypeIsNotBlank(t: string)
    requires HasInk(t)
    ensures Trim(t) != []
  {
    TrimStartInk(t);
    TrimEndInk(TrimStart(t));
  }

  lemma StripCore(s: string, cast: Option<string>)
    requires IsCast(cast)
    ensures StripCast(Trim(Core(s, cast))) == QuoteStringLiteral(s)
  {
    CoreTrims(s, cast);
    if cast.None? {
      CastAfterLiteral(s, []);
      assert QuoteStringLiteral(s) + [] == QuoteStringLiteral(s);
    } else {
      StripTyped(s, TrimEnd(cast.value));
    }
  }

  lemma ParseLiteral(s: string)
    ensures ParseSqlStringLiteral(QuoteStringLiteral(s)) == Some(s)
  {
    var literal := QuoteStringLiteral(s);
    UnquotedUndoes(s);
    assert literal[1..|literal| - 1] == ReplaceAll(s, '\'', "''");
  }

  /** What the parsers make of a shown literal, before MariaDB decodes it. */
  lemma ShownIsParsed(s: string, cast: Option<string>, n: nat)
    requires IsCast(cast)
    ensures Trim(Shown(s, cast, n)) != []
    ensures ParseSqlStringLiteral(StripCast(Unwrapped(Trim(Shown(s, cast, n))))) == Some(s)
  {
    UnwrapShown(s, cast, n);
    StripCore(s, cast);
    ParseLiteral(s);
    CoreTrims(s, cast);
    if n == 0 {
      assert Shown(s, cast, 0) == Core(s, cast);
    } else {
      ShownIsEnclosed(s, cast, n);
    }
  }

  /**
    * Every string is recovered from its literal of the base platform, with any number of
    * parentheses and a cast around it, on every platform but MariaDB.
    */
  lemma LiteralIsRecovered(vendor: Vendor, key: SourceKey, s: string, cast: Option<string>, n: nat)
    requires IsCast(cast) && vendor != MariaDb
    ensures NormalizeDefaultValue(vendor, Shown(s, cast, n), key) == Str(s)
  {
    ShownIsParsed(s, cast, n);
  }

  // ---------------------------------------------------------------------------------------
  // MariaDB
  // ---------------------------------------------------------------------------------------

  predicate HasKnownEscape(s: string) { exists i | 0 <= i < |s| - 1 :: s[i] == '\\' && KnownEscape(s[i + 1]) }

  lemma HasKnownEscapeLater(s: string, k: nat)
    requires k <= |s| && HasKnownEscape(s[k..])
    ensures HasKnownEscape(s)
  {
    var i :| 0 <= i < |s[k..]| - 1 && s[k..][i] == '\\' && KnownEscape(s[k..][i + 1]);
    assert s[k + i] == '\\' && KnownEscape(s[k + i + 1]);
  }

  lemma {:induction false} DecodingShortens(s: string)
    ensures |DecodeMySqlLike(s)| <= |s|
    ensures HasKnownEscape(s) <==> |DecodeMySqlLike(s)| < |s|
    ensures !HasKnownEscape(s) ==> DecodeMySqlLike(s) == s
    decreases |s|
  {
    if s != [] {
      if s[0] != '\\' || |s| == 1 {
        DecodingShortens(s[1..]);
        if HasKnownEscape(s[1..]) {
          HasKnownEscapeLater(s, 1);
        }
        if HasKnownEscape(s) {
          var i :| 0 <= i < |s| - 1 && s[i] == '\\' && KnownEscape(s[i + 1]);
          assert s[1..][i - 1] == '\\' && KnownEscape(s[1..][i]);
        }
        assert [s[0]] + s[1..] == s;
      } else {
        DecodingShortens(s[2..]);
        if HasKnownEscape(s[2..]) {
          HasKnownEscapeLater(s, 2);
        }
        if KnownEscape(s[1]) {
          assert s[0] == '\\' && KnownEscape(s[0 + 1]);
        } else if HasKnownEscape(s) {
          var i :| 0 <= i < |s| - 1 && s[i] == '\\' && KnownEscape(s[i + 1]);
          assert s[2..][i - 2] == '\\' && KnownEscape(s[2..][i - 1]);
        }
        assert s[..2] + s[2..] == s;
      }
    }
  }

  /** On MariaDB exactly the strings without an escape sequence come back from the base literal. */
  lemma MariaDbRecoversBaseLiteral(key: SourceKey, s: string, cast: Option<string>, n: nat)
    requires IsCast(cast)
    ensures NormalizeDefaultValue(MariaDb, Shown(s, cast, n), key) == Str(s) <==> !HasKnownEscape(s)
  {
    ShownIsParsed(s, cast, n);
    DecodingShortens(s);
  }

  lemma {:induction false} DecodingUndoesDoubling(s: string)
    ensures DecodeMySqlLike(ReplaceAll(s, '\\', "\\\\")) == s
  {
    if s != [] {
      var text, tail := ReplaceAll(s, '\\', "\\\\"), ReplaceAll(s[1..], '\\', "\\\\");
      DecodingUndoesDoubling(s[1..]);
      if s[0] == '\\' {
        assert text[2..] == tail;
      } else {
        assert text[1..] == tail;
      }
    }
  }

  /** From the literal that MariaDB's platform writes, which doubles backslashes, every string comes back. */
  lemma MariaDbRecoversItsOwnLiteral(key: SourceKey, s: string, cast: Option<string>, n: nat)
    requires IsCast(cast)
    ensures QuoteMySqlLiteral(s) == Core(ReplaceAll(s, '\\', "\\\\"), None)
    ensures NormalizeDefaultValue(MariaDb, Shown(ReplaceAll(s, '\\', "\\\\"), cast, n), key) == Str(s)
  {
    ShownIsParsed(ReplaceAll(s, '\\', "\\\\"), cast, n);
    DecodingUndoesDoubling(s);
    assert Core(ReplaceAll(s, '\\', "\\\\"), None) == QuoteStringLiteral(ReplaceAll(s, '\\', "\\\\")) + "";
  }

  // ---------------------------------------------------------------------------------------
  // The other platforms, from the literal of MySQL's platform
  // ---------------------------------------------------------------------------------------

  lemma {:induction false} DoublingLengthens(s: string)
    ensures ReplaceAll(s, '\\', "\\\\") == s <==> '\\' !in s
    ensures |ReplaceAll(s, '\\', "\\\\")| >= |s|
    ensures '\\' in s ==> |ReplaceAll(s, '\\', "\\\\")| > |s|
  {
    if s != [] {
      DoublingLengthens(s[1..]);
      assert s == [s[0]] + s[1..];
    }
  }

  /**
    * From the literal that MySQL's platform writes, MySQL metadata gives back exactly the strings
    * without a backslash: the doubled ones are not decoded.
    */
  lemma MySqlRecoversItsOwnLiteral(vendor: Vendor, key: SourceKey, s: string, cast: Option<string>, n: nat)
    requires IsCast(cast) && vendor != MariaDb
    ensures QuoteMySqlLiteral(s) == Core(ReplaceAll(s, '\\', "\\\\"), None)
    ensures NormalizeDefaultValue(vendor, Shown(ReplaceAll(s, '\\', "\\\\"), cast, n), key) == Str(s) <==> '\\' !in s
  {
    LiteralIsRecovered(vendor, key, ReplaceAll(s, '\\', "\\\\"), cast, n);
    DoublingLengthens(s);
    assert Core(ReplaceAll(s, '\\', "\\\\"), None) == QuoteStringLiteral(ReplaceAll(s, '\\', "\\\\")) + "";
  }

  // ---------------------------------------------------------------------------------------
  // Values that are no literals
  // ---------------------------------------------------------------------------------------

  /** A number, a word or a call without literals: no quotes, no cast, no space and no parenthesis around it. */
  predicate IsBare(v: string) {
    && v != [] && !IsSpace(v[0]) && !IsSpace(v[|v| - 1]) && v[0] != '('
    && (forall i | 0 <= i < |v| :: v[i] != '\'')
    && (forall i | 0 <= i < |v| - 1 :: !(v[i] == ':' && v[i + 1] == ':'))
    && v[|v| - 1] != ':' && Closes(v, 0)
  }

  /** The value, with `::type` behind it where there is a type. */
  function Typed(v: string, cast: Option<string>): string {
    v + if cast.None? then "" else "::" + cast.value
  }

  /** A type name that does not end in a space. */
  predicate IsTrimmedCast(cast: Option<string>) {
    cast.Some? ==> IsTypeName(cast.value) && !IsSpace(cast.value[|cast.value| - 1])
  }

  lemma {:induction false} ClosesAppend(a: string, b: string, depth: nat)
    requires Closes(a, depth) && Closes(b, 0)
    ensures Closes(a + b, depth)
    decreases |a|
  {
    if a == [] {
      assert a + b == b;
    } else {
      assert (a + b)[0] == a[0] && (a + b)[1..] == a[1..] + b;
      ClosesAppend(a[1..], b, if a[0] == '(' then depth + 1 else if a[0] == ')' then depth - 1 else depth);
    }
  }

  /** Text that closes what it opens, has ink on both ends and is not in parentheses itself. */
  predicate IsUnwrapped(w: string) {
    && w != [] && !IsSpace(w[0]) && !IsSpace(w[|w| - 1]) && w[0] != '('
    && (forall i | 0 <= i < |w| :: w[i] != '\'') && Closes(w, 0)
  }

  lemma TypedIsUnwrapped(v: string, cast: Option<string>)
    requires IsBare(v) && IsTrimmedCast(cast)
    ensures IsUnwrapped(Typed(v, cast))
  {
    var w := Typed(v, cast);
    if cast.None? {
      assert w == v;
    } else {
      var t := cast.value;
      assert w == v + "::" + t && w[0] == v[0] && w[|w| - 1] == t[|t| - 1];
      assert "::"[1..] == ":" && ":"[1..] == [];
      ClosesAppend("::", t, 0);
      ClosesAppend(v, "::" + t, 0);
      assert v + ("::" + t) == w;
    }
  }

  lemma WrappedIsEnclosed(w: string, n: nat)
    requires IsUnwrapped(w) && n > 0
    ensures var text := Repeat('(', n) + w + Repeat(')', n);
            && Enclosed(text) && Trim(text) == text
            && text[1..|text| - 1] == Repeat('(', n - 1) + w + Repeat(')', n - 1)
  {
    hide Encloses, TrimStart, TrimEnd;
    var close := Repeat(')', n);
    var text := Repeat('(', n) + w + close;
    assert text == Repeat('(', n) + (w + close);
    EnclosesOpening(n, w + close, 0);
    EnclosesType(w, 0, close, n);
    EnclosesClosing(n);
    Peel(w, n);
    InkOnBothEnds(text);
  }

  lemma {:induction false} UnwrapBare(w: string, n: nat)
    requires IsUnwrapped(w)
    ensures var text := Repeat('(', n) + w + Repeat(')', n); Trim(text) == text && Unwrapped(text) == w
    decreases n
  {
    if n == 0 {
      assert Repeat('(', 0) + w + Repeat(')', 0) == w;
      InkOnBothEnds(w);
    } else {
      WrappedIsEnclosed(w, n);
      UnwrapBare(w, n - 1);
    }
  }

  lemma {:induction false} NoCast(v: string)
    requires forall i | 0 <= i < |v| :: v[i] != '\''
    requires forall i | 0 <= i < |v| - 1 :: !(v[i] == ':' && v[i + 1] == ':')
    ensures FindCast(v, false).None?
  {
    if |v| >= 2 {
      NoCast(v[1..]);
    }
  }

  lemma {:induction false} CastAfterBare(v: string, t: string)
    requires forall i | 0 <= i < |v| :: v[i] != '\''
    requires forall i | 0 <= i < |v| - 1 :: !(v[i] == ':' && v[i + 1] == ':')
    requires v == [] || v[|v| - 1] != ':'
    ensures FindCast(v + "::" + t, false) == Some(|v|)
  {
    var w := v + "::" + t;
    if v == [] {
      assert w[0] == ':' && w[1] == ':';
    } else {
      assert w[0] == v[0] && w[1..] == v[1..] + "::" + t && |w| >= 2;
      assert |v| > 1 ==> w[1] == v[1];
      CastAfterBare(v[1..], t);
    }
  }

  lemma StripTypedBare(v: string, cast: Option<string>)
    requires IsBare(v) && IsTrimmedCast(cast)
    ensures StripCast(Typed(v, cast)) == v
  {
    InkOnBothEnds(v);
    if cast.None? {
      assert Typed(v, cast) == v;
      NoCast(v);
    } else {
      var t := cast.value;
      CastAfterBare(v, t);
      hide FindCast, Trim;
      var w := v + "::" + t;
      assert Typed(v, cast) == v + ("::" + t) == w;
      assert w[..|v|] == v && w[|v| + 2..] == t;
    }
  }

  lemma BareIsNoLiteral(v: string)
    requires IsBare(v)
    ensures ParseSqlStringLiteral(v).None?
  {
  }

  /** The word NULL, in any case. */
  predicate SpellsNull(v: string) {
    |v| == 4 && v[0] in {'N', 'n'} && v[1] in {'U', 'u'} && v[2] in {'L', 'l'} && v[3] in {'L', 'l'}
  }

  /**
    * A value that is no literal comes back without parentheses and cast. The word NULL is no value
    * under dflt_value, nor under column_default but on MySQL, and a word under any other name.
    */
  lemma BareIsKept(vendor: Vendor, key: SourceKey, v: string, cast: Option<string>, n: nat)
    requires IsBare(v) && IsTrimmedCast(cast)
    ensures var shown := Repeat('(', n) + Typed(v, cast) + Repeat(')', n);
            var r := NormalizeDefaultValue(vendor, shown, key);
            && (r == Null <==> SpellsNull(v) && (key == DfltValue || (key == ColumnDefault && vendor != MySql)))
            && (r != Null ==> r == Str(if vendor == MariaDb && key == ColumnDefault then DecodeMySqlLike(v) else v))
            && (r != Null && '\\' !in v ==> r == Str(v))
  {
    hide IsBare, IsTrimmedCast, Trim, Unwrapped, StripCast, ParseSqlStringLiteral, SpellsNull, DecodeMySqlLike,
         NormalizeDefaultValue, Repeat, Typed;
    TypedIsUnwrapped(v, cast);
    UnwrapBare(Typed(v, cast), n);
    StripTypedBare(v, cast);
    BareIsNoLiteral(v);
    NoLiteralNormalizes(vendor, key, Repeat('(', n) + Typed(v, cast) + Repeat(')', n), v);
    if '\\' !in v {
      NothingToDecode(v);
    }
  }

  lemma NoLiteralNormalizes(vendor: Vendor, key: SourceKey, shown: string, v: string)
    requires Trim(shown) == shown && StripCast(Unwrapped(shown)) == v && ParseSqlStringLiteral(v).None? && shown != []
    ensures NormalizeDefaultValue(vendor, shown, key)
         == if SpellsNull(v) && (key == DfltValue || (key == ColumnDefault && vendor != MySql)) then Null
            else if vendor == MariaDb && key == ColumnDefault then Str(DecodeMySqlLike(v))
            else Str(v)
  {
    hide Trim, Unwrapped, StripCast, ParseSqlStringLiteral, DecodeMySqlLike;
    assert SpellsNull(v) <==> IsNullWord(v);
  }

  lemma {:induction false} NothingToDecode(v: string)
    requires '\\' !in v
    ensures DecodeMySqlLike(v) == v
  {
    if v != [] {
      NothingToDecode(v[1..]);
    }
  }

  /** A blank value is the empty string. */
  lemma BlankIsEmpty(vendor: Vendor, key: SourceKey, v: string)
    requires !HasInk(v)
    ensures NormalizeDefaultValue(vendor, v, key) == Str("")
  {
    TrimStartInk(v);
    TrimEndInk(TrimStart(v));
  }

  // ---------------------------------------------------------------------------------------
  // What is taken for a literal, and what for a cast or for parentheses
  // ---------------------------------------------------------------------------------------

  /** Text that does not begin with a quote, with or without a prefix, or does not end with one is no literal. */
  lemma OtherTextIsNoLiteral(s: string)
    requires s == [] || s[|s| - 1] != '\''
             || (s[0] != '\'' && (|s| < 3 || s[1] != '\'' || s[0] !in {'N', 'n', 'E', 'e'}))
    ensures ParseSqlStringLiteral(s).None?
  {
  }

  /** A quote that is not doubled stays. */
  lemma {:induction false} LoneQuotesStay(s: string)
    requires forall i | 0 <= i < |s| - 1 :: !(s[i] == '\'' && s[i + 1] == '\'')
    ensures Unquoted(s) == s
  {
    if s != [] {
      LoneQuotesStay(s[1..]);
      assert [s[0]] + s[1..] == s;
    }
  }

  /** A group that closes before the end is not around the whole text, whatever follows. */
  lemma TwoGroupsStay(a: string, rest: string)
    requires (forall i | 0 <= i < |a| :: a[i] != '\'') && Closes(a, 0) && rest != []
    ensures Unwrapped("(" + a + ")" + rest) == "(" + a + ")" + rest
  {
    var tail := ")" + rest;
    var text := "(" + a + ")" + rest;
    assert text[0] == '(' && text[1..] == a + tail;
    EnclosesType(a, 0, tail, 1);
    assert tail[0] == ')' && |tail| > 1;
    assert !Encloses(tail, 1, false);
  }

  /** Parentheses around a literal that does not close stay. */
  lemma OpenLiteralStays(v: string)
    requires forall i | 0 <= i < |v| :: v[i] != '\''
    ensures var text := "(" + ("'" + (v + ")")); Unwrapped(text) == text
  {
    hide Encloses, Unwrapped, Trim;
    NothingCloses(v + ")", 1);
    QuoteOpens(v + ")", 1);
    ParenthesisOpens("'" + (v + ")"), 0);
    NothingUnwraps("(" + ("'" + (v + ")")));
  }

  lemma NothingUnwraps(text: string)
    requires !Encloses(text, 0, false)
    ensures Unwrapped(text) == text
  {
  }

  lemma QuoteOpens(rest: string, depth: nat)
    ensures Encloses("'" + rest, depth, false) == Encloses(rest, depth, true)
  {
    assert ("'" + rest)[1..] == rest;
  }

  lemma ParenthesisOpens(rest: string, depth: nat)
    ensures Encloses("(" + rest, depth, false) == Encloses(rest, depth + 1, false)
  {
    assert ("(" + rest)[1..] == rest;
  }

  lemma {:induction false} NothingCloses(s: string, depth: nat)
    requires forall i | 0 <= i < |s| :: s[i] != '\''
    ensures !Encloses(s, depth, true)
  {
    if s != [] {
      NothingCloses(s[1..], depth);
    }
  }

  /** A cast with nothing on one side is no cast. */
  lemma HalfCastStays(v: string, blank: string)
    requires IsBare(v) && !HasInk(blank) && (forall i | 0 <= i < |blank| :: blank[i] != '\'')
    ensures StripCast("::" + v) == "::" + v && StripCast(v + "::" + blank) == v + "::" + blank
  {
    CastAfterBare([], v);
    assert [] + "::" + v == "::" + v;
    CastAfterBare(v, blank);
    hide FindCast;
    BlankTrims(blank);
    BlankTrims([]);
    var right := v + "::" + blank;
    assert ("::" + v)[..0] == [] && right[|v| + 2..] == blank;
  }

  lemma BlankTrims(s: string)
    requires !HasInk(s)
    ensures Trim(s) == []
  {
    TrimStartInk(s);
    TrimEndInk(TrimStart(s));
  }

  // ---------------------------------------------------------------------------------------
  // Prefixed literals
  // ---------------------------------------------------------------------------------------

  /** The text of an E literal: backslashes and control characters are escaped. */
  function PgEncoded(s: string): string {
    if s == [] then [] else PgEncodedChar(s[0]) + PgEncoded(s[1..])
  }

  function PgEncodedChar(c: char): string {
    match c
    case '\\' => "\\\\"
    case '\U{08}' => "\\b"
    case '\U{0C}' => "\\f"
    case '\n' => "\\n"
    case '\r' => "\\r"
    case '\t' => "\\t"
    case _ => [c]
  }

  lemma {:induction false} PgDecodes(s: string)
    ensures DecodePg(PgEncoded(s)) == s
  {
    if s != [] {
      var head, tail := PgEncodedChar(s[0]), PgEncoded(s[1..]);
      PgDecodes(s[1..]);
      assert (head + tail)[|head|..] == tail;
      assert [s[0]] + s[1..] == s;
      PgDecodesChar(s[0], tail);
    }
  }

  lemma PgDecodesChar(c: char, tail: string)
    ensures DecodePg(PgEncodedChar(c) + tail) == [c] + DecodePg(tail)
  {
    var text := PgEncodedChar(c) + tail;
    if |PgEncodedChar(c)| == 1 {
      assert text[0] == c && text[1..] == tail;
    } else {
      assert text[0] == '\\' && text[1] == PgEncodedChar(c)[1] && text[2..] == tail;
    }
  }

  /** Any other character after a backslash stands for itself, and so does a backslash at the end. */
  lemma OtherPgEscapes(c: char)
    requires c !in {'b', 'f', 'n', 'r', 't'}
    ensures DecodePg(['\\', c]) == [c] && DecodePg("\\") == "\\"
  {
    assert ['\\', c][2..] == [] && "\\"[1..] == [];
  }

  /**
    * A string is recovered from its literal behind N, and from its escaped literal behind E, in
    * either case of the letter and with a cast.
    */
  lemma PrefixedLiteralIsRecovered(vendor: Vendor, key: SourceKey, s: string, prefix: char, cast: Option<string>)
    requires vendor != MariaDb && prefix in {'N', 'n', 'E', 'e'} && IsTrimmedCast(cast)
    ensures var text := if prefix in {'E', 'e'} then PgEncoded(s) else s;
            NormalizeDefaultValue(vendor, [prefix] + Core(text, cast), key) == Str(s)
  {
    var text := if prefix in {'E', 'e'} then PgEncoded(s) else s;
    var shown := [prefix] + Core(text, cast);
    PrefixedTrims(prefix, text, cast);
    PrefixedStrips(prefix, text, cast);
    PrefixedParses(prefix, text);
    PgDecodes(s);
    hide DecodePg, PgEncoded, StripCast, ParseSqlStringLiteral, Trim;
    assert Unwrapped(shown) == shown;
  }

  lemma PrefixedTrims(prefix: char, s: string, cast: Option<string>)
    requires prefix in {'N', 'n', 'E', 'e'} && IsTrimmedCast(cast)
    ensures Trim([prefix] + Core(s, cast)) == [prefix] + Core(s, cast)
  {
    var shown := [prefix] + Core(s, cast);
    if cast.Some? {
      assert shown[|shown| - 1] == cast.value[|cast.value| - 1];
    } else {
      assert Core(s, cast) == QuoteStringLiteral(s);
      assert shown[|shown| - 1] == '\'';
    }
    hide Core;
    InkOnBothEnds(shown);
  }

  lemma CastAfterPrefix(prefix: char, text: string)
    requires prefix in {'N', 'n', 'E', 'e'} && text != []
    ensures FindCast([prefix] + text, false) == Later(FindCast(text, false), 1)
  {
    assert ([prefix] + text)[1..] == text;
  }

  lemma PrefixedStrips(prefix: char, s: string, cast: Option<string>)
    requires prefix in {'N', 'n', 'E', 'e'} && IsTrimmedCast(cast)
    ensures StripCast([prefix] + Core(s, cast)) == [prefix] + QuoteStringLiteral(s)
  {
    var literal := QuoteStringLiteral(s);
    var head := [prefix] + literal;
    assert literal != [];
    PrefixedTrims(prefix, s, None);
    assert Core(s, None) == literal + "" == literal;
    if cast.None? {
      CastAfterLiteral(s, []);
      assert literal + [] == literal;
      CastAfterPrefix(prefix, literal);
    } else {
      CastOfPrefixed(prefix, s, cast.value);
      hide FindCast, Trim, QuoteStringLiteral, StripCast;
      assert Core(s, cast) == literal + "::" + cast.value;
      assert [prefix] + (literal + "::" + cast.value) == head + ("::" + cast.value);
      StripsAt(head, cast.value);
    }
  }

  lemma StripsAt(head: string, t: string)
    requires FindCast(head + ("::" + t), false) == Some(|head|) && Trim(head) == head && head != [] && Trim(t) != []
    ensures StripCast(head + ("::" + t)) == head
  {
    hide FindCast, Trim;
    var text, rest := head + ("::" + t), "::" + t;
    assert text[..|head|] == head && text[|head| + 2..] == rest[2..] == t;
  }

  lemma CastOfPrefixed(prefix: char, s: string, t: string)
    requires prefix in {'N', 'n', 'E', 'e'} && IsTypeName(t)
    ensures FindCast([prefix] + (QuoteStringLiteral(s) + "::" + t), false) == Some(1 + |QuoteStringLiteral(s)|)
    ensures Trim(t) != []
  {
    var literal, rest := QuoteStringLiteral(s), "::" + t;
    CastAfterLiteral(s, rest);
    assert FindCast(rest, false) == Some(0);
    hide FindCast, QuoteStringLiteral;
    assert literal + "::" + t == literal + rest;
    CastAfterPrefix(prefix, literal + rest);
  }

  lemma PrefixedParses(prefix: char, s: string)
    requires prefix in {'N', 'n', 'E', 'e'}
    ensures ParseSqlStringLiteral([prefix] + QuoteStringLiteral(s))
         == Some(if prefix in {'E', 'e'} then DecodePg(s) else s)
  {
    var text := [prefix] + QuoteStringLiteral(s);
    UnquotedUndoes(s);
    assert text[2..|text| - 1] == ReplaceAll(s, '\'', "''");
    hide ReplaceAll, DecodePg, Unquoted;
  }

  // ---------------------------------------------------------------------------------------
  // The escapes of MariaDB
  // ---------------------------------------------------------------------------------------

  /** The escapes that MariaDB's metadata may show, one for each special character. */
  function MySqlEncoded(s: string): string {
    if s == [] then [] else MySqlEncodedChar(s[0]) + MySqlEncoded(s[1..])
  }

  function MySqlEncodedChar(c: char): string {
    match c
    case '\\' => "\\\\"
    case '\'' => "\\'"
    case '"' => "\\\""
    case '\0' => "\\0"
    case '\U{08}' => "\\b"
    case '\n' => "\\n"
    case '\r' => "\\r"
    case '\t' => "\\t"
    case '\U{1A}' => "\\Z"
    case _ => [c]
  }

  lemma MySqlDecodesChar(c: char, tail: string)
    ensures DecodeMySqlLike(MySqlEncodedChar(c) + tail) == [c] + DecodeMySqlLike(tail)
  {
    var text := MySqlEncodedChar(c) + tail;
    if |MySqlEncodedChar(c)| == 1 {
      assert text[0] == c && text[1..] == tail;
    } else {
      assert text[0] == '\\' && text[1] == MySqlEncodedChar(c)[1] && text[2..] == tail;
    }
  }

  lemma {:induction false} MySqlDecodes(s: string)
    ensures DecodeMySqlLike(MySqlEncoded(s)) == s
  {
    if s != [] {
      MySqlDecodes(s[1..]);
      MySqlDecodesChar(s[0], MySqlEncoded(s[1..]));
      assert [s[0]] + s[1..] == s;
    }
  }

  /** From a literal that escapes every special character MariaDB metadata gives back any string. */
  lemma MariaDbRecoversEscapes(key: SourceKey, s: string, cast: Option<string>, n: nat)
    requires IsCast(cast)
    ensures NormalizeDefaultValue(MariaDb, Shown(MySqlEncoded(s), cast, n), key) == Str(s)
  {
    ShownIsParsed(MySqlEncoded(s), cast, n);
    MySqlDecodes(s);
  }

  /** Any other character keeps its backslash, and so does the end. */
  lemma OtherMySqlEscapes(c: char)
    requires c !in {'0', 'b', 'n', 'r', 't', 'Z', '\\', '\'', '"'}
    ensures DecodeMySqlLike(['\\', c]) == ['\\', c] && DecodeMySqlLike("\\") == "\\"
  {
    assert ['\\', c][2..] == [] && ['\\', c][..2] == ['\\', c] && "\\"[1..] == [];
  }
}
