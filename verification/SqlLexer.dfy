/**
  * The SQL lexer that looks for prepared-statement parameters (src/sql/parser.ts).
  *
  * The source is one sticky regular expression with three alternatives, tried at growing
  * offsets. Here every pattern is an explicit scanner over the text that is left (`s`); the
  * text already consumed (`pre`) is what the two lookbehinds inspect.
  */
module SqlLexer {
  import opened Text

  /** Whether a backslash escapes the next character inside a quoted string. */
  datatype Mode = MySql | Ansi

  datatype Kind = Named | Positional | EscapedQuestion | Other

  /** One call of the visitor: the callback chosen and its text. */
  datatype Token = Token(kind: Kind, text: string)

  predicate IsSpecial(c: char) {
    c == ':' || c == '?' || c == '\'' || c == '"' || c == '[' || c == '-' || c == '/' || c == '`'
  }

  predicate IsNewline(c: char) { c == '\r' || c == '\n' }

  // ---------------------------------------------------------------------------------------
  // Closed regions: literals, quoted identifiers and comments
  // ---------------------------------------------------------------------------------------

  /** How a region ends: a delimiter (perhaps with backslash escapes) or the end of a comment. */
  datatype Closer = Delimiter(d: char, escapes: bool) | StarSlash

  datatype Scan = Closed | Open(armed: bool)

  function Step(k: Closer, armed: bool, c: char): Scan {
    match k
    case Delimiter(d, escapes) =>
      if armed then Open(false)
      else if escapes && c == '\\' then Open(true)
      else if c == d then Closed
      else Open(false)
    case StarSlash =>
      if armed && c == '/' then Closed else Open(c == '*')
  }

  /** How many characters of s the region needs up to and including its end; 0 if it never ends. */
  function CloseAt(k: Closer, s: string, armed: bool): (n: nat)
    ensures n <= |s|
  {
    if s == "" then 0
    else match Step(k, armed, s[0])
      case Closed => 1
      case Open(a) => var n := CloseAt(k, s[1..], a); if n == 0 then 0 else n + 1
  }

  /** The lookbehind of the bracket pattern: the text ends with the word ARRAY in any case. */
  predicate AfterArray(pre: string) {
    var n := |pre|;
    && n >= 5
    && (pre[n - 5] == 'A' || pre[n - 5] == 'a') && (pre[n - 4] == 'R' || pre[n - 4] == 'r')
    && (pre[n - 3] == 'R' || pre[n - 3] == 'r') && (pre[n - 2] == 'A' || pre[n - 2] == 'a')
    && (pre[n - 1] == 'Y' || pre[n - 1] == 'y')
    && (n == 5 || !IsWord(pre[n - 6]))
  }

  /** The opening text of a region and the way it closes. */
  datatype Opening = NoRegion | LineComment | Region(opener: nat, closer: Closer)

  function Opens(mode: Mode, pre: string, s: string): (o: Opening)
    ensures o.LineComment? ==> |s| >= 2
    ensures o.Region? ==> 1 <= o.opener <= |s|
  {
    if s == "" then NoRegion
    else if s[0] == '\'' || s[0] == '"' then Region(1, Delimiter(s[0], mode == MySql))
    else if s[0] == '`' then Region(1, Delimiter('`', false))
    else if s[0] == '[' && !AfterArray(pre) then Region(1, Delimiter(']', false))
    else if s[0] == '-' && |s| >= 2 && s[1] == '-' then LineComment
    else if s[0] == '/' && |s| >= 2 && s[1] == '*' then Region(2, StarSlash)
    else NoRegion
  }

  /** Length of the run of characters that are not line ends. */
  function LineRun(s: string): (n: nat)
    ensures n <= |s| && (forall k | 0 <= k < n :: !IsNewline(s[k]))
    ensures n < |s| ==> IsNewline(s[n])
  {
    if s == "" || IsNewline(s[0]) then 0 else 1 + LineRun(s[1..])
  }

  /** Length of the closed region at the start of s, 0 when there is none. */
  function RegionLength(mode: Mode, pre: string, s: string): (n: nat)
    ensures n <= |s|
  {
    match Opens(mode, pre, s)
    case NoRegion => 0
    case LineComment => 2 + LineRun(s[2..])
    case Region(opener, closer) =>
      var n := CloseAt(closer, s[opener..], false);
      if n == 0 then 0 else opener + n
  }

  // ---------------------------------------------------------------------------------------
  // Tokens
  // ---------------------------------------------------------------------------------------

  function WordRun(s: string): (n: nat)
    ensures n <= |s| && (forall k | 0 <= k < n :: IsWord(s[k]))
    ensures n < |s| ==> !IsWord(s[n])
  {
    if s == "" || !IsWord(s[0]) then 0 else 1 + WordRun(s[1..])
  }

  function ColonRun(s: string): (n: nat)
    ensures n <= |s| && (forall k | 0 <= k < n :: s[k] == ':')
    ensures n < |s| ==> s[n] != ':'
  {
    if s == "" || s[0] != ':' then 0 else 1 + ColonRun(s[1..])
  }

  function OtherRun(s: string): (n: nat)
    ensures n <= |s| && (forall k | 0 <= k < n :: !IsSpecial(s[k]))
    ensures n < |s| ==> IsSpecial(s[n])
  {
    if s == "" || IsSpecial(s[0]) then 0 else 1 + OtherRun(s[1..])
  }

  predicate EndsWithQuestion(pre: string) { pre != "" && pre[|pre| - 1] == '?' }

  predicate StartsWith(s: string, k: nat, c: char) { k < |s| && s[k] == c }

  // The alternatives of the token expression that can match are decided by the first character.

  /** Named parameter, run of colons, or a lone colon. */
  function FirstAtColon(s: string): (t: Token)
    requires s != "" && s[0] == ':'
    ensures t.text != "" && t.text <= s
  {
    if |s| >= 2 && IsWord(s[1]) then Token(Named, s[..1 + WordRun(s[1..])])
    else if StartsWith(s, 1, ':') then Token(Other, s[..ColonRun(s)])
    else Token(Other, s[..1])
  }

  /** Positional parameter (no question mark on either side), escaped, or a lone question mark. */
  function FirstAtQuestion(pre: string, s: string): (t: Token)
    requires s != "" && s[0] == '?'
    ensures t.text != "" && t.text <= s
  {
    if !EndsWithQuestion(pre) && !StartsWith(s, 1, '?') then Token(Positional, s[..1])
    else if StartsWith(s, 1, '?') then Token(EscapedQuestion, s[..2])
    else Token(Other, s[..1])
  }

  /** Closed region, run of text without special characters, or a lone special character. */
  function FirstElsewhere(mode: Mode, pre: string, s: string): (t: Token)
    requires s != "" && s[0] != ':' && s[0] != '?'
    ensures t.text != "" && t.text <= s
  {
    var region := RegionLength(mode, pre, s);
    if region > 0 then Token(Other, s[..region])
    else if !IsSpecial(s[0]) then Token(Other, s[..OtherRun(s)])
    else Token(Other, s[..1])
  }

  /** The match of the token expression at the start of s. */
  function First(mode: Mode, pre: string, s: string): (t: Token)
    requires s != ""
    ensures t.text != "" && t.text <= s
  {
    if s[0] == ':' then FirstAtColon(s)
    else if s[0] == '?' then FirstAtQuestion(pre, s)
    else FirstElsewhere(mode, pre, s)
  }

  /** The visitor calls made for s when pre has been consumed. */
  function Lex(mode: Mode, pre: string, s: string): seq<Token>
    decreases |s|
  {
    if s == "" then []
    else
      var t := First(mode, pre, s);
      [t] + Lex(mode, pre + t.text, s[|t.text|..])
  }

  function Texts(ts: seq<Token>): (r: seq<string>)
    ensures |r| == |ts| && forall i | 0 <= i < |ts| :: r[i] == ts[i].text
  {
    seq(|ts|, i requires 0 <= i < |ts| => ts[i].text)
  }

  function Source(ts: seq<Token>): string { Concat(Texts(ts)) }

  predicate IsParameter(t: Token) { t.kind == Named || t.kind == Positional }

  /** Where token i begins. */
  function Offset(ts: seq<Token>, i: nat): nat
    requires i <= |ts|
  {
    |Source(ts[..i])|
  }

  class Parser {
    const mode: Mode

    constructor (mySqlStringEscaping: bool)
      ensures mode == if mySqlStringEscaping then MySql else Ansi
    {
      mode := if mySqlStringEscaping then MySql else Ansi;
    }

    /** The parse loop; the visitor is what walks over the returned calls. */
    method Parse(sql: string) returns (calls: seq<Token>)
      ensures calls == Lex(mode, "", sql)
      ensures Source(calls) == sql
    {
      hide First;
      var offset := 0;
      calls := [];
      ghost var rest := Lex(mode, "", sql);
      assert sql[..0] == "" && sql[0..] == sql;
      while offset < |sql|
        invariant 0 <= offset <= |sql|
        invariant rest == Lex(mode, sql[..offset], sql[offset..])
        invariant calls + rest == Lex(mode, "", sql)
      {
        var token := First(mode, sql[..offset], sql[offset..]);
        LexUnfold(mode, sql, offset);
        calls, rest := calls + [token], rest[1..];
        offset := offset + |token.text|;
      }
      assert rest == [];
      LexIsLossless(mode, "", sql);
    }
  }

  lemma LexNext(mode: Mode, pre: string, s: string)
    requires s != ""
    ensures var t := First(mode, pre, s); Lex(mode, pre, s) == [t] + Lex(mode, pre + t.text, s[|t.text|..])
  {
    hide First;
  }

  lemma LexUnfold(mode: Mode, sql: string, offset: nat)
    requires offset < |sql|
    ensures var t := First(mode, sql[..offset], sql[offset..]);
            var next := offset + |t.text|;
            next <= |sql|
            && Lex(mode, sql[..offset], sql[offset..]) == [t] + Lex(mode, sql[..next], sql[next..])
  {
    hide First, Lex;
    var t := First(mode, sql[..offset], sql[offset..]);
    LexNext(mode, sql[..offset], sql[offset..]);
    assert sql[..offset] + t.text == sql[..offset + |t.text|];
    assert sql[offset..][|t.text|..] == sql[offset + |t.text|..];
  }

  // ---------------------------------------------------------------------------------------
  // Lossless: the tokens are a partition of the input
  // ---------------------------------------------------------------------------------------

  lemma {:induction false} SourceCons(t: Token, ts: seq<Token>)
    ensures Source([t] + ts) == t.text + Source(ts)
  {
    assert Texts([t] + ts)[1..] == Texts(ts);
  }

  lemma {:induction false} LexIsLossless(mode: Mode, pre: string, s: string)
    ensures Source(Lex(mode, pre, s)) == s
    decreases |s|
  {
    if s != "" {
      var t := First(mode, pre, s);
      LexIsLossless(mode, pre + t.text, s[|t.text|..]);
      SourceCons(t, Lex(mode, pre + t.text, s[|t.text|..]));
    }
  }

  /** Token i is the match at its own offset, with the text before it as lookbehind. */
  lemma {:induction false} LexAt(mode: Mode, pre: string, s: string, i: nat)
    requires i < |Lex(mode, pre, s)|
    ensures var ts := Lex(mode, pre, s);
            var o := Offset(ts, i);
            o < |s| && ts[i] == First(mode, pre + s[..o], s[o..])
    decreases |s|
  {
    hide First;
    var t := First(mode, pre, s);
    var rest := s[|t.text|..];
    var ts := Lex(mode, pre, s);
    var us := Lex(mode, pre + t.text, rest);
    if i == 0 {
      assert ts[..0] == [];
      assert s[..0] == "" && s[0..] == s && pre + "" == pre;
    } else {
      LexAt(mode, pre + t.text, rest, i - 1);
      var o := Offset(us, i - 1);
      assert ts[..i] == [t] + us[..i - 1];
      SourceCons(t, us[..i - 1]);
      assert Offset(ts, i) == |t.text| + o;
      assert s[|t.text| + o..] == rest[o..];
      assert s[..|t.text| + o] == t.text + rest[..o];
      assert pre + s[..|t.text| + o] == pre + t.text + rest[..o];
    }
  }

  // ---------------------------------------------------------------------------------------
  // Closed regions as the regular expressions state them
  // ---------------------------------------------------------------------------------------

  /** The language of the repeated group between two string delimiters. */
  ghost predicate LiteralBody(escapes: bool, body: string, d: char) {
    if body == "" then true
    else if escapes && body[0] == '\\' then |body| >= 2 && LiteralBody(escapes, body[2..], d)
    else body[0] != d && LiteralBody(escapes, body[1..], d)
  }

  /** s[k] is the slash of a comment end; `armed` says that s continues a text ending in a star. */
  ghost predicate CommentEndAt(s: string, armed: bool, k: nat)
    requires k < |s|
  {
    s[k] == '/' && if k == 0 then armed else s[k - 1] == '*'
  }

  /** The comment text after its opener: it holds one comment end, its last two characters. */
  ghost predicate CommentBody(s: string, armed: bool) {
    && s != ""
    && CommentEndAt(s, armed, |s| - 1)
    && forall k | 0 <= k < |s| - 1 :: !CommentEndAt(s, armed, k)
  }

  /** t is a complete match of one of the six region patterns. */
  ghost predicate IsRegion(mode: Mode, pre: string, t: string) {
    && |t| >= 2
    && var last := t[|t| - 1];
       var body := t[1..|t| - 1];
       || ((t[0] == '\'' || t[0] == '"') && last == t[0] && LiteralBody(mode == MySql, body, t[0]))
       || (t[0] == '`' && last == '`' && '`' !in body)
       || (t[0] == '[' && last == ']' && ']' !in body && !AfterArray(pre))
       || (t[0] == '-' && t[1] == '-' && forall k | 0 <= k < |t| :: !IsNewline(t[k]))
       || (t[0] == '/' && t[1] == '*' && CommentBody(t[2..], false))
  }

  /** A region ends where its pattern says; a line comment also has to be maximal. */
  ghost predicate IsClosedRegionAt(mode: Mode, pre: string, s: string, n: nat) {
    && n <= |s|
    && IsRegion(mode, pre, s[..n])
    && (s[0] == '-' ==> n == |s| || IsNewline(s[n]))
  }

  lemma {:induction false} CloseAtDelimiter(d: char, escapes: bool, s: string, n: nat)
    requires 1 <= n <= |s| && !(escapes && d == '\\')
    ensures CloseAt(Delimiter(d, escapes), s, false) == n <==> s[n - 1] == d && LiteralBody(escapes, s[..n - 1], d)
    decreases |s|
  {
    var k := Delimiter(d, escapes);
    var body := s[..n - 1];
    if escapes && s[0] == '\\' {
      assert CloseAt(k, s, false) == if CloseAt(k, s[1..], true) == 0 then 0 else 1 + CloseAt(k, s[1..], true);
      if |s| >= 2 {
        assert s[1..][1..] == s[2..];
        if n >= 3 {
          CloseAtDelimiter(d, escapes, s[2..], n - 2);
          assert body[2..] == s[2..][..n - 3];
        } else if n == 2 {
          assert body == "\\";
        }
      }
    } else if s[0] != d {
      if n >= 2 {
        CloseAtDelimiter(d, escapes, s[1..], n - 1);
        assert body[1..] == s[1..][..n - 2];
      }
    } else if n >= 2 {
      assert body[0] == d;
    }
  }

  lemma {:induction false} LiteralBodyPlain(body: string, d: char)
    ensures LiteralBody(false, body, d) <==> d !in body
  {
    if body != "" {
      LiteralBodyPlain(body[1..], d);
      assert body == [body[0]] + body[1..];
    }
  }

  lemma {:induction false} CloseAtComment(s: string, n: nat, armed: bool)
    requires 1 <= n <= |s|
    ensures CloseAt(StarSlash, s, armed) == n <==> CommentBody(s[..n], armed)
    decreases |s|
  {
    var t := s[..n];
    if armed && s[0] == '/' {
      assert CommentEndAt(t, armed, 0);
    } else if n >= 2 {
      CloseAtComment(s[1..], n - 1, s[0] == '*');
      assert s[1..][..n - 1] == t[1..];
      CommentBodyShift(t, armed);
    }
  }

  lemma CommentBodyShift(t: string, armed: bool)
    requires |t| >= 2 && !(armed && t[0] == '/')
    ensures CommentBody(t, armed) <==> CommentBody(t[1..], t[0] == '*')
  {
    var u, a := t[1..], t[0] == '*';
    assert forall k | 0 <= k < |u| :: CommentEndAt(u, a, k) == CommentEndAt(t, armed, k + 1);
    assert forall k | 1 <= k < |t| :: CommentEndAt(t, armed, k) == CommentEndAt(u, a, k - 1);
  }

  lemma LineCommentIsExact(s: string, n: nat)
    requires 2 <= n <= |s| && s[0] == '-' && s[1] == '-'
    ensures 2 + LineRun(s[2..]) == n <==>
            (forall k | 0 <= k < n :: !IsNewline(s[k])) && (n == |s| || IsNewline(s[n]))
  {
    var m := LineRun(s[2..]);
    assert forall k | 2 <= k < |s| :: s[k] == s[2..][k - 2];
  }

  lemma LineCommentRegion(mode: Mode, pre: string, s: string, n: nat)
    requires 0 < n <= |s| && Opens(mode, pre, s).LineComment?
    ensures RegionLength(mode, pre, s) == n <==> IsClosedRegionAt(mode, pre, s, n)
  {
    if n >= 2 {
      LineCommentIsExact(s, n);
      var t := s[..n];
      assert forall k | 0 <= k < n :: t[k] == s[k];
      assert IsClosedRegionAt(mode, pre, s, n) <==>
          (forall k | 0 <= k < n :: !IsNewline(s[k])) && (n == |s| || IsNewline(s[n]));
    }
  }

  lemma BlockCommentRegion(mode: Mode, pre: string, s: string, n: nat)
    requires 0 < n <= |s| && |s| >= 2 && s[0] == '/' && s[1] == '*'
    ensures RegionLength(mode, pre, s) == n <==> IsClosedRegionAt(mode, pre, s, n)
  {
    hide AfterArray, CommentBody, CloseAt;
    if n >= 3 {
      CloseAtComment(s[2..], n - 2, false);
      assert s[2..][..n - 2] == s[..n][2..];
    } else if n == 2 {
      assert s[..n][2..] == [];
      assert !CommentBody([], false) by { NoEmptyComment(); }
    }
  }

  lemma NoEmptyComment()
    ensures !CommentBody([], false)
  {
  }

  lemma DelimitedRegion(mode: Mode, pre: string, s: string, n: nat)
    requires 0 < n <= |s| && Opens(mode, pre, s).Region? && Opens(mode, pre, s).closer.Delimiter?
    ensures RegionLength(mode, pre, s) == n <==> IsClosedRegionAt(mode, pre, s, n)
  {
    hide AfterArray, LiteralBody, CloseAt;
    if n >= 2 {
      var closer := Opens(mode, pre, s).closer;
      CloseAtDelimiter(closer.d, closer.escapes, s[1..], n - 1);
      var body := s[..n][1..n - 1];
      assert s[1..][..n - 2] == body;
      LiteralBodyPlain(body, closer.d);
    }
  }

  /** The scanner finds a closed region exactly where the patterns match one. */
  lemma RegionLengthIsExact(mode: Mode, pre: string, s: string, n: nat)
    requires 0 < n <= |s|
    ensures RegionLength(mode, pre, s) == n <==> IsClosedRegionAt(mode, pre, s, n)
  {
    match Opens(mode, pre, s)
    case LineComment => LineCommentRegion(mode, pre, s, n);
    case Region(_, closer) =>
      if closer.StarSlash? {
        BlockCommentRegion(mode, pre, s, n);
      } else {
        DelimitedRegion(mode, pre, s, n);
      }
    case NoRegion =>
      assert n >= 2 ==> s[..n][0] == s[0] && s[..n][1] == s[1];
  }

  lemma RegionIsToken(mode: Mode, pre: string, s: string, n: nat)
    requires n <= |s| && IsClosedRegionAt(mode, pre, s, n)
    ensures s != "" && First(mode, pre, s) == Token(Other, s[..n])
  {
    RegionLengthIsExact(mode, pre, s, n);
    assert s[0] == s[..n][0];
  }

  /** Text inside a closed region that starts at a token is never reported as a parameter. */
  lemma NoParameterInsideRegion(mode: Mode, sql: string, i: nat, n: nat)
    requires i < |Lex(mode, "", sql)|
    requires var o := Offset(Lex(mode, "", sql), i);
             o <= |sql| && n <= |sql| - o && IsClosedRegionAt(mode, sql[..o], sql[o..], n)
    ensures var ts := Lex(mode, "", sql);
            var o := Offset(ts, i);
            && ts[i] == Token(Other, sql[o..o + n])
            && forall j | 0 <= j < |ts| && IsParameter(ts[j]) ::
                 Offset(ts, j) + |ts[j].text| <= o || o + n <= Offset(ts, j)
  {
    var ts := Lex(mode, "", sql);
    var o := Offset(ts, i);
    hide Lex, First, IsClosedRegionAt, Offset;
    LexAt(mode, "", sql, i);
    assert "" + sql[..o] == sql[..o];
    RegionIsToken(mode, sql[..o], sql[o..], n);
    assert sql[o..][..n] == sql[o..o + n];
    TokensAreApart(ts, i);
  }

  lemma TokensAreApart(ts: seq<Token>, i: nat)
    requires i < |ts|
    ensures forall j | 0 <= j < |ts| && j != i ::
              Offset(ts, j) + |ts[j].text| <= Offset(ts, i) || Offset(ts, i) + |ts[i].text| <= Offset(ts, j)
  {
    forall j | 0 <= j < |ts| && j != i
      ensures Offset(ts, j) + |ts[j].text| <= Offset(ts, i) || Offset(ts, i) + |ts[i].text| <= Offset(ts, j)
    {
      OffsetNext(ts, if j < i then j else i, if j < i then i else j);
    }
  }

  lemma {:induction false} OffsetNext(ts: seq<Token>, i: nat, j: nat)
    requires i < j <= |ts|
    ensures Offset(ts, i) + |ts[i].text| <= Offset(ts, j)
  {
    assert ts[..j] == ts[..i] + ts[i..j];
    assert Texts(ts[..j]) == Texts(ts[..i]) + Texts(ts[i..j]);
    ConcatAppend(Texts(ts[..i]), Texts(ts[i..j]));
    assert ts[i..j] == [ts[i]] + ts[i + 1..j];
    SourceCons(ts[i], ts[i + 1..j]);
  }

  /** Without backslashes the two escaping modes read the text alike. */
  lemma {:induction false} ModesAgree(pre: string, s: string)
    requires '\\' !in s
    ensures Lex(MySql, pre, s) == Lex(Ansi, pre, s)
    decreases |s|
  {
    if s != "" {
      RegionModesAgree(pre, s);
      var t := First(MySql, pre, s);
      assert t == First(Ansi, pre, s);
      ModesAgree(pre + t.text, s[|t.text|..]);
    }
  }

  lemma RegionModesAgree(pre: string, s: string)
    requires '\\' !in s
    ensures RegionLength(MySql, pre, s) == RegionLength(Ansi, pre, s)
  {
    if s != "" && (s[0] == '\'' || s[0] == '"') {
      EscapesUnused(s[0], s[1..]);
    }
  }

  lemma {:induction false} EscapesUnused(d: char, s: string)
    requires '\\' !in s
    ensures CloseAt(Delimiter(d, true), s, false) == CloseAt(Delimiter(d, false), s, false)
  {
    if s != "" {
      EscapesUnused(d, s[1..]);
    }
  }
}
