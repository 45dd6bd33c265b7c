/**
  * What the drivers send: a query without bound values goes out as it was compiled, any other one
  * through the driver's own lexing pass (src/connection.ts, executeDriverQuery).
  *
  * For SQL without backslashes, where binds stand apart and unclaimed, the text sent to pg means
  * the query exactly when a value is bound or there is no `??`; the text sent to mssql when no
  * value is bound or there is no `??`.
  */
module QueryDrivers {
  import opened Text
  import opened SqlLexer
  import opened SqlRewriting
  import opened QueryCompiler
  import opened QueryMeaning
  import opened QueryPasses
  import opened QueryCorrectness
  import opened QueryReadback
  import opened QueryTheorems

  // ---------------------------------------------------------------------------------------
  // Sending
  // ---------------------------------------------------------------------------------------

  /** The text and the values that reach pg. */
  function SentToPg(sql: string, params: Params, types: Types): Result<(string, seq<Slot>), Error> {
    match ExpandedQuery(sql, params, types)
    case Err(e) => Err(e)
    case Ok(mid) =>
      if mid.values == [] then Ok((mid.sql, []))
      else match ConvertPg(Lex(Ansi, "", mid.sql), "", 0)
        case Err(e) => Err(e)
        case Ok(text) => Ok((text, SlotsOf(mid.values, mid.types)))
  }

  /** The text and the binds that reach mssql. */
  function SentToMssql(sql: string, params: Params, types: Types): Result<CompiledNamed, Error> {
    match CompiledNamedQuery(sql, params, types)
    case Err(e) => Err(e)
    case Ok(c) =>
      if c.binds == map[] then Ok(c) else Ok(CompiledNamed(ConvertMssql(Lex(Ansi, "", c.sql), "", 0), c.binds))
  }

  /** executeDriverQuery for a driver with positional bindings. */
  method SendToPg(sql: string, params: Params, types: Types) returns (r: Result<(string, seq<Slot>), Error>)
    ensures r == SentToPg(sql, params, types)
  {
    var mid := ExpandQuery(sql, params, types);
    if mid.Err? {
      return Err(mid.error);
    }
    if mid.value.values == [] {
      return Ok((mid.value.sql, []));
    }
    var text := ConvertPositionalPlaceholders(mid.value.sql);
    r := if text.Err? then Err(text.error) else Ok((text.value, SlotsOf(mid.value.values, mid.value.types)));
  }

  /** executeDriverQuery for a driver with named bindings. */
  method SendToMssql(sql: string, params: Params, types: Types) returns (r: Result<CompiledNamed, Error>)
    ensures r == SentToMssql(sql, params, types)
  {
    r := CompileNamedQuery(sql, params, types);
    if r.Ok? && r.value.binds != map[] {
      var text := ConvertPlaceholders(r.value.sql);
      r := Ok(r.value.(sql := text));
    }
  }

  // ---------------------------------------------------------------------------------------
  // The pg pass
  // ---------------------------------------------------------------------------------------

  lemma ItemsModesAgree(sql: string)
    requires '\\' !in sql
    ensures Items(MySql, sql) == Items(Ansi, sql)
  {
    ItemsAreTokens(MySql, sql);
    ItemsAreTokens(Ansi, sql);
    ModesAgree("", sql);
  }

  lemma {:induction false} RenderedHasNoNames(items: seq<Item>, ws: seq<string>)
    requires |ws| == Arity(items)
    ensures NoNames(RenderedItems(items, ws))
    decreases |items|
  {
    if items != [] {
      var vs := if IsHole(items[0]) then ws[1..] else ws;
      RenderedHasNoNames(items[1..], vs);
    }
  }

  lemma NamedTokenShows(ts: seq<Token>)
    requires ts != [] && ts[0].kind == Named && ts[0].text != ""
    ensures !NoNames(FlattenAll(ts))
  {
    assert FlattenAll(ts)[0].Name?;
  }

  lemma {:induction false} NoNamedTokens(ts: seq<Token>)
    requires NoNames(FlattenAll(ts)) && forall i | 0 <= i < |ts| :: ts[i].text != ""
    ensures forall i | 0 <= i < |ts| :: ts[i].kind != Named
  {
    if ts != [] {
      var a, b := Flatten(ts[0]), FlattenAll(ts[1..]);
      assert FlattenAll(ts) == a + b;
      NoNamesAfter(a, b);
      NoNamedTokens(ts[1..]);
      if ts[0].kind == Named {
        NamedTokenShows(ts);
      }
      hide Flatten, FlattenAll, NoNames;
      assert forall i | 0 < i < |ts| :: ts[i] == ts[1..][i - 1];
    }
  }

  lemma NoNamesAfter(a: seq<Item>, b: seq<Item>)
    requires NoNames(a + b)
    ensures NoNames(b)
  {
    assert forall k | 0 <= k < |b| :: b[k] == (a + b)[|a| + k];
  }

  lemma PgSecondPass(sql: string)
    requires NoNames(Items(Ansi, sql))
    ensures var items := Items(Ansi, sql);
            ConvertPg(Lex(Ansi, "", sql), "", 0) == Ok(Render(items, BindWords(PG, 0, Arity(items)), true))
  {
    ItemsAreTokens(Ansi, sql);
    TokensAreNonempty(Ansi, "", sql);
    hide Lex, Shape, Marks, Items, Render, FlattenAll;
    NoNamedTokens(Lex(Ansi, "", sql));
    PgPassBinds(Lex(Ansi, "", sql), "", 0);
    var items := Items(Ansi, sql);
    assert "" + Render(items, BindWords(PG, 0, Arity(items)), true)
           == Render(items, BindWords(PG, 0, Arity(items)), true);
  }

  // ---------------------------------------------------------------------------------------
  // Question marks, as text and as output
  // ---------------------------------------------------------------------------------------

  function Questions(w: string): nat {
    if w == "" then 0 else (if w[0] == '?' then 1 else 0) + Questions(w[1..])
  }

  function CountQuestions(out: seq<Out>): nat {
    if out == [] then 0 else (if out[0] == Chr('?') then 1 else 0) + CountQuestions(out[1..])
  }

  lemma {:induction false} QuestionsAppend(a: string, b: string)
    ensures Questions(a + b) == Questions(a) + Questions(b)
  {
    if a == "" {
      assert a + b == b;
    } else {
      assert (a + b)[1..] == a[1..] + b;
      QuestionsAppend(a[1..], b);
    }
  }

  lemma {:induction false} CountQuestionsAppend(a: seq<Out>, b: seq<Out>)
    ensures CountQuestions(a + b) == CountQuestions(a) + CountQuestions(b)
  {
    if a == [] {
      assert a + b == b;
    } else {
      assert (a + b)[1..] == a[1..] + b;
      CountQuestionsAppend(a[1..], b);
    }
  }

  lemma {:induction false} CountQuestionsOfText(w: string)
    ensures CountQuestions(Chrs(w)) == Questions(w)
  {
    if w != "" {
      CountQuestionsOfText(w[1..]);
      assert Chrs(w)[1..] == Chrs(w[1..]);
    }
  }

  lemma {:induction false} NoQuestions(w: string)
    requires Lacks(w, '?')
    ensures Questions(w) == 0
  {
    if w != "" {
      NoQuestions(w[1..]);
    }
  }

  lemma {:induction false} CountQuestionsOfList(g: seq<Slot>)
    requires g != []
    ensures CountQuestions(Commas(g)) == 0
    decreases |g|
  {
    if |g| > 1 {
      CountQuestionsOfList(g[1..]);
      NoQuestions(", ");
      CountQuestionsOfText(", ");
      var head := [Val(g[0])] + Chrs(", ");
      assert head[1..] == Chrs(", ");
      assert Commas(g) == head + Commas(g[1..]);
      CountQuestionsAppend(head, Commas(g[1..]));
    } else {
      assert Commas(g)[1..] == [];
    }
  }

  /** Reading turns no question mark into anything else. */
  lemma {:induction false} ReadKeepsQuestions(style: Style, joined: bool, ps: seq<Piece>, binds: map<string, Slot>)
    requires IsStyle(style)
    ensures CountQuestions(Read(style, joined, ps, binds)) == Questions(TextOf(ps))
    decreases |ps|
  {
    hide Front, WordRun, InName, CountQuestions, Questions;
    if ps == [] {
      CountQuestionsOfText("");
      assert Chrs("") == [] && TextOf(ps) == "";
    } else if ps[0].Solid? {
      ReadKeepsQuestions(style, false, ps[1..], binds);
      CountQuestionsOfText(ps[0].text);
      CountQuestionsAppend(Chrs(ps[0].text), Read(style, false, ps[1..], binds));
      QuestionsAppend(ps[0].text, TextOf(ps[1..]));
    } else {
      var c, f := ps[0].c, Front(ps);
      FrontOfChar(ps);
      var n := 1 + WordRun(f[1..]);
      if c == style.sigil && !joined && f[1..n] in binds {
        ReadKeepsQuestions(style, true, ps[n..], binds);
        BindHasNoQuestion(style, f, n);
        assert ps == Chs(f[..n]) + ps[n..];
        TextOfChs(f[..n], ps[n..]);
        QuestionsAppend(f[..n], TextOf(ps[n..]));
        OneValue(binds[f[1..n]], Read(style, true, ps[n..], binds));
      } else {
        ReadKeepsQuestions(style, InName(c), ps[1..], binds);
        CountQuestionsOfText([c]);
        assert Chrs([c]) == [Chr(c)];
        CountQuestionsAppend([Chr(c)], Read(style, InName(c), ps[1..], binds));
        QuestionsAppend([c], TextOf(ps[1..]));
      }
    }
  }

  lemma FrontOfChar(ps: seq<Piece>)
    requires ps != [] && ps[0].Ch?
    ensures Front(ps) != "" && Front(ps)[0] == ps[0].c
  {
  }

  lemma BindHasNoQuestion(style: Style, f: string, n: nat)
    requires IsStyle(style) && f != "" && f[0] == style.sigil && n == 1 + WordRun(f[1..])
    ensures n <= |f| && Questions(f[..n]) == 0
  {
    assert forall k | 1 <= k < n :: f[k] == f[1..][k - 1];
    NoQuestions(f[..n]);
  }

  lemma OneValue(slot: Slot, out: seq<Out>)
    ensures CountQuestions([Val(slot)] + out) == CountQuestions(out)
  {
    assert ([Val(slot)] + out)[1..] == out;
  }

  ghost predicate AllLackQuestions(ws: seq<string>) { forall i | 0 <= i < |ws| :: Lacks(ws[i], '?') }

  /** The query with its values in place has the question marks of its rendering. */
  lemma {:induction false} SubstituteKeepsQuestions(items: seq<Item>, gs: seq<seq<Slot>>, ws: seq<string>)
    requires |gs| == |ws| == Arity(items) && AllLackQuestions(ws)
    ensures CountQuestions(Substitute(items, gs)) == Questions(Render(items, ws, true))
    decreases |items|
  {
    hide CountQuestions, Questions;
    if items == [] {
      CountQuestionsOfText("");
      assert Chrs("") == [];
    } else if IsHole(items[0]) {
      SubstituteKeepsQuestions(items[1..], gs[1..], ws[1..]);
      NoQuestions(ws[0]);
      QuestionsAppend(ws[0], Render(items[1..], ws[1..], true));
      CountQuestionsAppend(Listed(gs[0]), Substitute(items[1..], gs[1..]));
      if gs[0] == [] {
        NoQuestions("NULL");
        CountQuestionsOfText("NULL");
      } else {
        CountQuestionsOfList(gs[0]);
      }
    } else {
      var i, rest := items[0], items[1..];
      assert items == [i] + rest;
      SubstituteText(i, rest, gs);
      SubstituteKeepsQuestions(rest, gs, ws);
      var w := NewWord(i, "", true);
      assert Render(items, ws, true) == w + Render(rest, ws, true);
      CountQuestionsOfText(w);
      CountQuestionsAppend(Chrs(w), Substitute(rest, gs));
      QuestionsAppend(w, Render(rest, ws, true));
    }
  }

  // ---------------------------------------------------------------------------------------
  // The mssql pass removes a question mark for each question mark it reports
  // ---------------------------------------------------------------------------------------

  predicate IsQuestionToken(t: Token) { t.kind == Positional || t.kind == EscapedQuestion }

  function CountQuestionTokens(ts: seq<Token>): nat {
    if ts == [] then 0 else (if IsQuestionToken(ts[0]) then 1 else 0) + CountQuestionTokens(ts[1..])
  }

  predicate IsTokenText(t: Token) {
    match t.kind
    case Positional => t.text == "?"
    case EscapedQuestion => t.text == "??"
    case Named => t.text != "" && Lacks(t.text, '?')
    case Other => true
  }

  lemma FirstIsTokenText(mode: Mode, pre: string, s: string)
    requires s != ""
    ensures IsTokenText(First(mode, pre, s))
  {
    if s[0] == ':' {
      var n := 1 + WordRun(s[1..]);
      assert forall k | 1 <= k < n :: s[k] == s[1..][k - 1];
    } else if s[0] == '?' {
      assert s[..1] == "?" && (|s| >= 2 && s[1] == '?' ==> s[..2] == "??");
    }
  }

  lemma {:induction false} LexIsTokenText(mode: Mode, pre: string, s: string)
    ensures forall i | 0 <= i < |Lex(mode, pre, s)| :: IsTokenText(Lex(mode, pre, s)[i])
    decreases |s|
  {
    if s != "" {
      var t := First(mode, pre, s);
      FirstIsTokenText(mode, pre, s);
      LexNext(mode, pre, s);
      hide First, Lex, IsTokenText;
      LexIsTokenText(mode, pre + t.text, s[|t.text|..]);
    }
  }

  /** What the mssql pass writes for one token. */
  function MssqlWord(t: Token, position: nat): string {
    match t.kind
    case Other => t.text
    case EscapedQuestion => "?"
    case Positional => "@p" + Decimal(position + 1)
    case Named => "@" + (if t.text == "" then "" else t.text[1..])
  }

  lemma MssqlWordQuestions(t: Token, position: nat)
    requires IsTokenText(t)
    ensures Questions(MssqlWord(t, position)) + (if IsQuestionToken(t) then 1 else 0) == Questions(t.text)
  {
    match t.kind
    case Other =>
    case EscapedQuestion => assert "??"[1..] == "?" && "?"[1..] == "";
    case Positional =>
      var d := Decimal(position + 1);
      assert forall i | 0 <= i < |d| :: IsDigit(d[i]);
      NoQuestions("@p" + d);
      assert "?"[1..] == "";
    case Named =>
      NoQuestions(t.text);
      NoQuestions("@" + t.text[1..]);
  }

  lemma MssqlNext(ts: seq<Token>, text: string, position: nat)
    requires ts != []
    ensures ConvertMssql(ts, text, position)
         == ConvertMssql(ts[1..], text + MssqlWord(ts[0], position), if ts[0].kind == Positional then position + 1
                         else position)
  {
    if ts[0].kind == Positional {
      assert text + ("@p" + Decimal(position + 1)) == text + "@p" + Decimal(position + 1);
    } else if ts[0].kind == Named {
      var w := if ts[0].text == "" then "" else ts[0].text[1..];
      assert text + ("@" + w) == text + "@" + w;
    }
  }

  lemma {:induction false} MssqlPassQuestions(ts: seq<Token>, text: string, position: nat)
    requires forall i | 0 <= i < |ts| :: IsTokenText(ts[i])
    ensures Questions(ConvertMssql(ts, text, position)) + CountQuestionTokens(ts)
            == Questions(text) + Questions(Source(ts))
    decreases |ts|
  {
    if ts == [] {
      assert Source(ts) == "";
      return;
    }
    MssqlNext(ts, text, position);
    assert ts == [ts[0]] + ts[1..];
    SourceCons(ts[0], ts[1..]);
    hide ConvertMssql, Questions, Source, IsTokenText;
    var w := MssqlWord(ts[0], position);
    MssqlWordQuestions(ts[0], position);
    MssqlPassQuestions(ts[1..], text + w, if ts[0].kind == Positional then position + 1 else position);
    QuestionsAppend(text, w);
    QuestionsAppend(ts[0].text, Source(ts[1..]));
  }

  predicate HasQuestion(items: seq<Item>) { exists i | 0 <= i < |items| :: items[i].Question? || items[i].Escape? }

  lemma {:induction false} QuestionItemsAreTokens(ts: seq<Token>)
    requires HasQuestion(FlattenAll(ts))
    ensures CountQuestionTokens(ts) > 0
  {
    var a, b := Flatten(ts[0]), FlattenAll(ts[1..]);
    var items := FlattenAll(ts);
    assert items == a + b;
    hide FlattenAll;
    var i :| 0 <= i < |items| && (items[i].Question? || items[i].Escape?);
    if i >= |a| {
      hide Flatten;
      assert b[i - |a|] == items[i];
      QuestionItemsAreTokens(ts[1..]);
    }
  }

  // ---------------------------------------------------------------------------------------
  // A question mark outside regions is reported
  // ---------------------------------------------------------------------------------------

  /** A region that ends in a question mark is a comment, and a line end follows it. */
  ghost predicate CommentsEndLines(ps: seq<Piece>) {
    forall i | 0 <= i < |ps| - 1 && ps[i].Solid? && EndsWithQuestion(ps[i].text) :: ps[i + 1] != Ch('?')
  }

  lemma {:induction false} CloserIsLast(k: Closer, s: string, armed: bool)
    requires CloseAt(k, s, armed) > 0
    ensures var c := s[CloseAt(k, s, armed) - 1]; c == (if k.Delimiter? then k.d else '/')
  {
    if Step(k, armed, s[0]).Open? {
      CloserIsLast(k, s[1..], Step(k, armed, s[0]).armed);
    }
  }

  lemma RegionEnd(mode: Mode, pre: string, s: string)
    requires RegionLength(mode, pre, s) > 0
    ensures var n := RegionLength(mode, pre, s); s[n - 1] == '?' && n < |s| ==> s[n] != '?'
  {
    match Opens(mode, pre, s)
    case NoRegion =>
    case LineComment =>
      var n := LineRun(s[2..]);
      assert 2 + n < |s| ==> s[2..][n] == s[2 + n];
    case Region(opener, closer) =>
      CloserIsLast(closer, s[opener..], false);
  }

  lemma FirstPiece(mode: Mode, pre: string, s: string)
    requires s != ""
    ensures Shape(mode, pre, s) != [] && PieceText(Shape(mode, pre, s)[0]) <= s
            && PieceText(Shape(mode, pre, s)[0]) != ""
  {
  }

  lemma {:induction false} ShapeEndsLines(mode: Mode, pre: string, s: string)
    ensures CommentsEndLines(Shape(mode, pre, s))
    decreases |s|
  {
    if s == "" {
      return;
    }
    var n := RegionLength(mode, pre, s);
    if n > 0 {
      RegionEnd(mode, pre, s);
    }
    hide RegionLength, CommentsEndLines;
    var t := if n > 0 then s[..n] else s[..1];
    var p, rest := if n > 0 then Solid(t) else Ch(s[0]), Shape(mode, pre + t, s[|t|..]);
    assert Shape(mode, pre, s) == [p] + rest;
    ShapeEndsLines(mode, pre + t, s[|t|..]);
    if s[|t|..] != "" {
      FirstPiece(mode, pre + t, s[|t|..]);
    }
    hide Shape;
    EndsLinesCons(p, rest);
  }

  lemma EndsLinesCons(p: Piece, ps: seq<Piece>)
    requires CommentsEndLines(ps)
    requires p.Solid? && EndsWithQuestion(p.text) && ps != [] ==> ps[0] != Ch('?')
    ensures CommentsEndLines([p] + ps)
  {
    forall i | 0 <= i < |ps| && ([p] + ps)[i].Solid? && EndsWithQuestion(([p] + ps)[i].text)
      ensures ([p] + ps)[i + 1] != Ch('?')
    {
      assert i > 0 ==> ([p] + ps)[i] == ps[i - 1];
    }
  }

  /** Only a question mark follows a question mark that is not reported. */
  lemma MarkWithoutQuestion(f: string, q: bool)
    requires f != "" && (f[0] == '?' ==> !q)
    requires !Mark(f, q).0.Question? && !Mark(f, q).0.Escape?
    ensures Lacks(f[..Mark(f, q).1], '?')
  {
    var n := WordRun(f[1..]);
    assert forall k | 1 <= k < 1 + n :: f[k] == f[1..][k - 1];
  }

  lemma {:induction false} QuestionIsReported(ps: seq<Piece>, q: bool)
    requires Ch('?') in ps && CommentsEndLines(ps) && (q ==> !Next(ps, '?'))
    ensures HasQuestion(Marks(ps, q))
    decreases |ps|
  {
    if ps[0].Solid? {
      SolidOmitted(ps, q);
      hide Marks;
      QuestionIsReported(ps[1..], EndsWithQuestion(ps[0].text));
      HasQuestionCons(Verbatim(ps[0].text), Marks(ps[1..], EndsWithQuestion(ps[0].text)));
    } else {
      FrontOfChar(ps);
      MarksText(ps, q);
      var f := Front(ps);
      var (item, n) := Mark(f, q);
      assert f[..n] <= f;
      if !item.Question? && !item.Escape? {
        MarkWithoutQuestion(f, q);
        hide Marks, Mark, Front, CommentsEndLines;
        CharsOmitted(ps, f[..n]);
        assert f[n - 1] == f[..n][n - 1];
        QuestionIsReported(ps[n..], f[n - 1] == '?');
        HasQuestionCons(item, Marks(ps[n..], f[n - 1] == '?'));
      } else {
        assert Marks(ps, q)[0] == item;
      }
    }
  }

  lemma SolidOmitted(ps: seq<Piece>, q: bool)
    requires ps != [] && ps[0].Solid? && Ch('?') in ps && CommentsEndLines(ps)
    ensures Ch('?') in ps[1..] && CommentsEndLines(ps[1..])
    ensures EndsWithQuestion(ps[0].text) ==> !Next(ps[1..], '?')
    ensures Marks(ps, q) == [Verbatim(ps[0].text)] + Marks(ps[1..], EndsWithQuestion(ps[0].text))
  {
    var rest := ps[1..];
    forall i | 0 <= i < |rest| - 1 && rest[i].Solid? && EndsWithQuestion(rest[i].text)
      ensures rest[i + 1] != Ch('?')
    {
      assert ps[i + 1] == rest[i] && ps[i + 1 + 1] == rest[i + 1];
    }
  }

  lemma CharsOmitted(ps: seq<Piece>, w: string)
    requires Ch('?') in ps && CommentsEndLines(ps) && |w| <= |ps| && Lacks(w, '?')
    requires forall k | 0 <= k < |w| :: ps[k] == Ch(w[k])
    ensures Ch('?') in ps[|w|..] && CommentsEndLines(ps[|w|..])
  {
    var rest := ps[|w|..];
    var i :| 0 <= i < |ps| && ps[i] == Ch('?');
    assert i >= |w| && rest[i - |w|] == ps[i];
    forall i | 0 <= i < |rest| - 1 && rest[i].Solid? && EndsWithQuestion(rest[i].text)
      ensures rest[i + 1] != Ch('?')
    {
      assert ps[|w| + i] == rest[i] && ps[|w| + i + 1] == rest[i + 1];
    }
  }

  lemma HasQuestionCons(i: Item, items: seq<Item>)
    requires HasQuestion(items)
    ensures HasQuestion([i] + items)
  {
    var k :| 0 <= k < |items| && (items[k].Question? || items[k].Escape?);
    assert ([i] + items)[k + 1] == items[k];
  }

  /** An escape is compiled to a question mark outside regions. */
  lemma {:induction false} EscapeLeavesQuestion(items: seq<Item>, ws: seq<string>)
    requires |ws| == Arity(items) && !NoEscapes(items)
    ensures Ch('?') in NewPieces(Edits(items, ws, true))
    decreases |items|
  {
    var i, rest := items[0], items[1..];
    assert items == [i] + rest;
    EditsCons(i, rest, ws, true);
    hide Edits;
    if i.Escape? {
      ItemEditsTexts(i, "", true);
      assert Chs("?")[0] == Ch('?');
    } else {
      assert !NoEscapes(rest) by {
        var k :| 0 <= k < |items| && items[k].Escape?;
        assert rest[k - 1] == items[k];
      }
      EscapeLeavesQuestion(rest, if IsHole(i) then ws[1..] else ws);
    }
  }

  // ---------------------------------------------------------------------------------------
  // Compiled text without question marks passes the mssql driver unchanged
  // ---------------------------------------------------------------------------------------

  lemma {:induction false} DriverKeepsText(ts: seq<Token>, text: string, position: nat)
    requires forall i | 0 <= i < |ts| :: ts[i].kind == Other
    ensures ConvertMssql(ts, text, position) == text + Source(ts)
    decreases |ts|
  {
    if ts != [] {
      DriverKeepsText(ts[1..], text + ts[0].text, position);
      assert ts == [ts[0]] + ts[1..];
      SourceCons(ts[0], ts[1..]);
      Assoc3(text, ts[0].text, Source(ts[1..]));
    }
  }

  predicate TextOnly(items: seq<Item>) {
    forall i | 0 <= i < |items| :: items[i].Plain? || items[i].Verbatim?
  }

  lemma {:induction false} TextOnlyTokens(ts: seq<Token>)
    requires TextOnly(FlattenAll(ts)) && forall i | 0 <= i < |ts| :: ts[i].text != ""
    ensures forall i | 0 <= i < |ts| :: ts[i].kind == Other
  {
    if ts != [] {
      var a, b := Flatten(ts[0]), FlattenAll(ts[1..]);
      assert FlattenAll(ts) == a + b;
      TextOnlyAfter(a, b);
      TextOnlyTokens(ts[1..]);
      if ts[0].kind != Other {
        PlaceholderTokenShows(ts);
      }
      hide Flatten, FlattenAll, TextOnly;
      assert forall i | 0 < i < |ts| :: ts[i] == ts[1..][i - 1];
    }
  }

  lemma TextOnlyAfter(a: seq<Item>, b: seq<Item>)
    requires TextOnly(a + b)
    ensures TextOnly(b)
  {
    assert forall k | 0 <= k < |b| :: b[k] == (a + b)[|a| + k];
  }

  lemma PlaceholderTokenShows(ts: seq<Token>)
    requires ts != [] && ts[0].kind != Other && ts[0].text != ""
    ensures !TextOnly(FlattenAll(ts))
  {
    var i := FlattenAll(ts)[0];
    assert !i.Plain? && !i.Verbatim?;
  }

  lemma {:induction false} RenderedTextOnly(items: seq<Item>, ws: seq<string>)
    requires |ws| == Arity(items) && NoEscapes(items)
    requires forall i | 0 <= i < |ws| :: Lacks(ws[i], '?')
    ensures TextOnly(RenderedItems(items, ws))
    ensures Render(items, ws, true) == Render(items, ws, false)
    decreases |items|
  {
    if items != [] {
      var vs := if IsHole(items[0]) then ws[1..] else ws;
      assert forall k | 0 <= k < |items[1..]| :: items[1..][k] == items[k + 1];
      RenderedTextOnly(items[1..], vs);
    }
  }

  lemma BindIsPlain(k: nat)
    ensures var w := Bind(MSSQL, k);
            forall i | 0 <= i < |w| :: !IsSpecial(w[i])
  {
    var d := Decimal(k);
    assert Bind(MSSQL, k) == "@p" + d;
    assert forall i | 0 <= i < |d| :: IsDigit(d[i]);
  }

  lemma {:induction false} BindListIsPlain(j: nat, n: nat)
    requires n > 0
    ensures var w := BindList(MSSQL, j, n);
            w != "" && forall i | 0 <= i < |w| :: !IsSpecial(w[i])
    decreases n
  {
    BindIsPlain(j + 1);
    if n > 1 {
      BindListIsPlain(j + 1, n - 1);
      hide Bind;
      var a, b := Bind(MSSQL, j + 1) + ", ", BindList(MSSQL, j + 1, n - 1);
      assert forall i | 0 <= i < |a| :: !IsSpecial(a[i]);
      assert forall i | 0 <= i < |a + b| :: (a + b)[i] == if i < |a| then a[i] else b[i - |a|];
    }
  }

  lemma {:induction false} FinalWordsArePlain(j: nat, gs: seq<seq<Slot>>)
    ensures AllWellSpaced(FinalWords(MSSQL, j, gs))
    ensures forall i | 0 <= i < |gs| :: Lacks(FinalWords(MSSQL, j, gs)[i], '?')
    decreases gs
  {
    if gs != [] {
      FinalWordsArePlain(j + |gs[0]|, gs[1..]);
      var tail := FinalWords(MSSQL, j + |gs[0]|, gs[1..]);
      if gs[0] != [] {
        BindListIsPlain(j, |gs[0]|);
      }
      hide AllWellSpaced, Lacks, BindList, WellSpaced;
      assert FinalWords(MSSQL, j, gs)[1..] == tail;
      hide FinalWords;
    }
  }

  lemma TextIsKept(text: string)
    requires TextOnly(Items(Ansi, text))
    ensures ConvertMssql(Lex(Ansi, "", text), "", 0) == text
  {
    var ts := Lex(Ansi, "", text);
    ItemsAreTokens(Ansi, text);
    TokensAreNonempty(Ansi, "", text);
    LexIsLossless(Ansi, "", text);
    hide Lex, Items, Shape, Marks, FlattenAll;
    TextOnlyTokens(ts);
    DriverKeepsText(ts, "", 0);
    assert "" + Source(ts) == Source(ts);
  }

  // ---------------------------------------------------------------------------------------
  // Main results
  // ---------------------------------------------------------------------------------------

  predicate AllEmpty(gs: seq<seq<Slot>>) { forall i | 0 <= i < |gs| :: gs[i] == [] }

  lemma {:induction false} FlatOfNothing(gs: seq<seq<Slot>>)
    ensures Flat(gs) == [] <==> AllEmpty(gs)
  {
    if gs != [] {
      FlatOfNothing(gs[1..]);
      assert AllEmpty(gs) <==> gs[0] == [] && AllEmpty(gs[1..]);
    }
  }

  lemma {:induction false} EmptyIsApart(joined: bool, items: seq<Item>, gs: seq<seq<Slot>>)
    requires |gs| == Arity(items) && AllEmpty(gs)
    ensures Apart(joined, items, gs)
    decreases |items|
  {
    if items != [] {
      if IsHole(items[0]) {
        EmptyIsApart(true, items[1..], gs[1..]);
      } else {
        EmptyIsApart(EndsInName(items[0]), items[1..], gs);
      }
    }
  }

  lemma {:induction false} ReadWithoutBinds(style: Style, joined: bool, ps: seq<Piece>)
    ensures Read(style, joined, ps, map[]) == Chrs(TextOf(ps))
    decreases |ps|
  {
    if ps != [] {
      ReadWithoutBinds(style, if ps[0].Solid? then false else InName(ps[0].c), ps[1..]);
      assert Chrs(TextOf(ps)) == Chrs(PieceText(ps[0])) + Chrs(TextOf(ps[1..]));
      assert ps[0].Ch? ==> Chrs([ps[0].c]) == [Chr(ps[0].c)];
    }
  }

  function CountEscapes(items: seq<Item>): nat {
    if items == [] then 0 else (if items[0].Escape? then 1 else 0) + CountEscapes(items[1..])
  }

  lemma {:induction false} NoneCounted(items: seq<Item>)
    ensures CountEscapes(items) == 0 <==> NoEscapes(items)
  {
    if items != [] {
      NoneCounted(items[1..]);
      assert NoEscapes(items) <==> !items[0].Escape? && NoEscapes(items[1..]) by {
        assert forall k | 0 <= k < |items[1..]| :: items[1..][k] == items[k + 1];
        assert forall k | 0 < k < |items| :: items[k] == items[1..][k - 1];
      }
    }
  }

  lemma ChrsAppend(a: string, b: string)
    ensures Chrs(a + b) == Chrs(a) + Chrs(b)
  {
  }

  /** A query without values is its own text, but for the escapes. */
  lemma {:induction false} SubstituteNothing(items: seq<Item>, gs: seq<seq<Slot>>)
    requires |gs| == Arity(items) && AllEmpty(gs)
    ensures var text := Render(items, ExpandedWords(gs), false);
            && |Substitute(items, gs)| + CountEscapes(items) == |text|
            && (CountEscapes(items) == 0 ==> Substitute(items, gs) == Chrs(text))
    decreases |items|
  {
    if items == [] {
      return;
    }
    var i, rest := items[0], items[1..];
    assert items == [i] + rest;
    var hs := if IsHole(i) then gs[1..] else gs;
    SubstituteNothing(rest, hs);
    RenderCons(items, gs);
    if IsHole(i) {
      assert ExpandedWord(gs[0]) == "NULL" && Substitute(items, gs) == Chrs("NULL") + Substitute(rest, hs);
    } else {
      SubstituteText(i, rest, gs);
    }
    hide Render, Substitute, Listed, ExpandedWords;
    var w := NewWord(i, if IsHole(i) then "NULL" else "", false);
    ChrsAppend(w, Render(rest, ExpandedWords(hs), false));
  }

  /** Text sent unconverted means its query exactly when it has no `??`. */
  lemma RawTextKeepsMeaning(mode: Mode, style: Style, items: seq<Item>, gs: seq<seq<Slot>>)
    requires |gs| == Arity(items) && AllEmpty(gs)
    ensures var text := Render(items, ExpandedWords(gs), false);
            Read(style, false, Shape(mode, "", text), map[]) == Substitute(items, gs) <==> NoEscapes(items)
  {
    hide Shape, Substitute, Render, Read, CountEscapes, NoEscapes, TextOf;
    var text := Render(items, ExpandedWords(gs), false);
    ShapeSolids(mode, "", text);
    ReadWithoutBinds(style, false, Shape(mode, "", text));
    SubstituteNothing(items, gs);
    NoneCounted(items);
  }

  lemma {:induction false} NothingClaimed(style: Style, joined: bool, items: seq<Item>, gs: seq<seq<Slot>>)
    requires |gs| == Arity(items)
    ensures Unclaimed(style, 0, joined, items, gs)
    decreases |items|
  {
    if items != [] {
      if IsHole(items[0]) {
        NothingClaimed(style, true, items[1..], gs[1..]);
      } else {
        NothingClaimed(style, EndsInName(items[0]), items[1..], gs);
      }
    }
  }

  lemma {:induction false} PgRefusesNames(ts: seq<Token>, text: string, index: nat)
    requires !NoNames(FlattenAll(ts))
    ensures ConvertPg(ts, text, index) == Err(NamedNotExpected)
    decreases |ts|
  {
    var a, b := Flatten(ts[0]), FlattenAll(ts[1..]);
    if ts[0].kind != Named {
      NamesBelow(a, b);
      match ts[0].kind
      case Other => PgRefusesNames(ts[1..], text + ts[0].text, index);
      case EscapedQuestion => PgRefusesNames(ts[1..], text + "?", index);
      case Positional => PgRefusesNames(ts[1..], text + "$" + Decimal(index + 1), index + 1);
      case Named =>
    }
  }

  lemma NamesBelow(a: seq<Item>, b: seq<Item>)
    requires !NoNames(a + b) && NoNames(a)
    ensures !NoNames(b)
  {
    var i :| 0 <= i < |a + b| && (a + b)[i].Name?;
    assert b[i - |a|].Name?;
  }

  /** What pg gets when the first pass expands: the rewritten text and all values. */
  lemma PgExpanded(sql: string, params: Params, types: Types, gs: seq<seq<Slot>>)
    requires '\\' !in sql && NeedsExpansion(params, types) && Clear(Items(MySql, sql), params, types)
    requires BoundGroups(Items(MySql, sql), params, types) == Ok(gs)
    ensures var items := Items(MySql, sql);
            var r := SentToPg(sql, params, types);
            && |gs| == Arity(items) && r.Ok? && r.value.1 == Flat(gs)
            && r.value.0 == if Flat(gs) == [] then Render(items, ExpandedWords(gs), false)
                            else Render(items, FinalWords(PG, 0, gs), true)
  {
    FullExpansionIsRender(sql, params, types);
    ItemsModesAgree(sql);
    hide Lex, Shape, Marks, Items, Groups, Render, Arity, Flat, BindWords, FinalWords, FullExpansion, Delimited,
         ExpandedWords, FlattenAll, ColonsFit, NeedsExpansion, RenderedItems, ConvertPg;
    var items, mid := Items(MySql, sql), FullExpansion(sql, params, types).value;
    SecondPassSeesTheFirst(Ansi, sql, gs);
    RenderedHasNoNames(items, ExpandedWords(gs));
    RenderTwice(PG, 0, items, gs);
    PgSecondPass(mid.sql);
  }

  /** What pg gets from a positional list: names are refused where any value is bound. */
  lemma PgDirect(sql: string, params: Params, types: Types)
    requires '\\' !in sql && !NeedsExpansion(params, types)
    ensures var items := Items(MySql, sql);
            var n, vs, r := Arity(items), params.values, SentToPg(sql, params, types);
            if vs == [] then r == Ok((sql, []))
            else if !NoNames(items) then r == Err(NamedNotExpected)
            else r == Ok((Render(items, BindWords(PG, 0, n), true), SlotsOf(vs, NormalizePositionalTypes(|vs|, types))))
  {
    ItemsModesAgree(sql);
    ItemsAreTokens(Ansi, sql);
    hide Lex, Shape, Marks, Items, Render, Arity, BindWords, FlattenAll, NeedsExpansion, ConvertPg, SlotsOf, NoNames;
    if params.values != [] {
      if NoNames(Items(MySql, sql)) {
        PgSecondPass(sql);
      } else {
        PgRefusesNames(Lex(Ansi, "", sql), "", 0);
      }
    }
  }

  /** A placeholder of a query without values has none. */
  lemma NoValuesNoHoles(sql: string, types: Types)
    requires Arity(Items(MySql, sql)) == 0
    ensures Render(Items(MySql, sql), [], false) == sql
  {
    hide Shape, Marks;
    ShapeSolids(MySql, "", sql);
    PiecesOfMarks(Shape(MySql, "", sql), false);
    RenderKept(Items(MySql, sql));
  }

  lemma {:induction false} RenderKept(items: seq<Item>)
    requires Arity(items) == 0
    ensures Render(items, [], false) == TextOf(PiecesOf(items))
    decreases |items|
  {
    if items != [] {
      RenderKept(items[1..]);
      TextOfItem(items[0], PiecesOf(items[1..]));
    }
  }

  /** The values bound by pg: those of the placeholders, or the whole list where nothing is expanded. */
  function ValuesForPg(params: Params, types: Types, gs: seq<seq<Slot>>): seq<Slot> {
    if NeedsExpansion(params, types) then Flat(gs)
    else SlotsOf(params.values, NormalizePositionalTypes(|params.values|, types))
  }

  lemma PgIsFinal(sql: string, params: Params, types: Types, gs: seq<seq<Slot>>)
    requires '\\' !in sql && Clear(Items(MySql, sql), params, types)
    requires BoundGroups(Items(MySql, sql), params, types) == Ok(gs)
    requires NeedsExpansion(params, types) || NoNames(Items(MySql, sql))
    ensures var items := Items(MySql, sql);
            var r, slots := SentToPg(sql, params, types), ValuesForPg(params, types, gs);
            && |gs| == Arity(items) && |Flat(gs)| <= |slots| && slots[..|Flat(gs)|] == Flat(gs)
            && r.Ok? && r.value.1 == slots
            && r.value.0 == if slots == [] then Render(items, ExpandedWords(gs), false)
                            else Render(items, FinalWords(PG, 0, gs), true)
  {
    if NeedsExpansion(params, types) {
      PgExpanded(sql, params, types, gs);
      assert Flat(gs)[..|Flat(gs)|] == Flat(gs);
    } else {
      PgDirect(sql, params, types);
      assert params.ListParams?;
      hide Items, Render, Flat, BindWords, FinalWords, ExpandedWords, NeedsExpansion, NoNames, SentToPg, Arity,
           ColonsFit, Delimited;
      var items, vs := Items(MySql, sql), params.values;
      var n, slots := Arity(items), SlotsOf(vs, NormalizePositionalTypes(|vs|, types));
      assert gs == Singles(vs, types)[0..n];
      FlatSingles(vs, types, 0, n);
      FlatOfSingles(gs);
      SinglesAreBinds(PG, 0, gs);
      assert slots[0..n] == slots[..n];
      if vs == [] {
        NoValuesNoHoles(sql, types);
        assert ExpandedWords(gs) == [];
      }
    }
  }

  /**
    * For SQL without backslashes what is sent to pg means the query with the bound values in place
    * exactly when no bind is written into a name, the query's own text names no bind and, unless a
    * value is bound, there is no `??`. A positional list beside names is refused.
    */
  lemma PgCompilationKeepsMeaning(sql: string, params: Params, types: Types)
    requires '\\' !in sql && Clear(Items(MySql, sql), params, types)
    ensures var items := Items(MySql, sql);
            var r, expands := SentToPg(sql, params, types), NeedsExpansion(params, types);
            match BoundGroups(items, params, types)
            case Err(x) =>
              if expands then r == Err(x)
              else if params.values != [] && !NoNames(items) then r == Err(NamedNotExpected)
              else r.Ok? && |r.value.1| == |params.values| < Arity(items)
            case Ok(gs) =>
              && |gs| == Arity(items)
              && (if !expands && !NoNames(items) then r == Err(NamedNotExpected)
                  else
                    && r.Ok?
                    && (r.value.1 != [] <==> if expands then Flat(gs) != [] else params.values != [])
                    && (Read(PG, false, Shape(Ansi, "", r.value.0), Binds(PG, r.value.1, |r.value.1|))
                        == Substitute(items, gs)
                        <==> && Apart(false, items, gs) && Unclaimed(PG, |r.value.1|, false, items, gs)
                             && (r.value.1 != [] || NoEscapes(items))))
  {
    var items := Items(MySql, sql);
    BoundPerHole(items, params, types);
    hide Shape, Marks, Groups, Render, Flat, FinalWords, Read, Binds, Substitute, Delimited, ExpandedWords, NoEscapes,
         Apart, Unclaimed, AllEmpty, ColonsFit, Items, SlotsOf;
    match BoundGroups(items, params, types)
    case Err(_) =>
      if NeedsExpansion(params, types) {
        FullExpansionIsRender(sql, params, types);
      } else {
        PgDirect(sql, params, types);
      }
    case Ok(gs) =>
      if !NeedsExpansion(params, types) && !NoNames(items) {
        PgDirect(sql, params, types);
        SomeName(items);
      } else {
        PgIsFinal(sql, params, types, gs);
        PgReads(sql, gs, ValuesForPg(params, types, gs));
      }
  }

  lemma {:induction false} SomeName(items: seq<Item>)
    requires !NoNames(items)
    ensures Arity(items) > 0
  {
    if !IsHole(items[0]) {
      assert items == [items[0]] + items[1..];
      NamesBelow([items[0]], items[1..]);
      SomeName(items[1..]);
    }
  }

  lemma PgReads(sql: string, gs: seq<seq<Slot>>, slots: seq<Slot>)
    requires '\\' !in sql && Delimited(None, Items(MySql, sql)) && |gs| == Arity(Items(MySql, sql))
    requires |Flat(gs)| <= |slots| && slots[..|Flat(gs)|] == Flat(gs)
    ensures var items := Items(MySql, sql);
            var text := if slots == [] then Render(items, ExpandedWords(gs), false)
                        else Render(items, FinalWords(PG, 0, gs), true);
            Read(PG, false, Shape(Ansi, "", text), Binds(PG, slots, |slots|)) == Substitute(items, gs)
            <==> && Apart(false, items, gs) && Unclaimed(PG, |slots|, false, items, gs)
                 && (slots != [] || NoEscapes(items))
  {
    ItemsModesAgree(sql);
    hide Shape, Marks, Items, Render, Arity, Flat, FinalWords, Read, Substitute, Delimited, ExpandedWords, NoEscapes,
         Apart, Unclaimed, AllEmpty;
    var items := Items(MySql, sql);
    if slots == [] {
      FlatOfNothing(gs);
      EmptyIsApart(false, items, gs);
      NothingClaimed(PG, false, items, gs);
      RawTextKeepsMeaning(Ansi, PG, items, gs);
      assert Binds(PG, slots, 0) == map[];
    } else {
      FinalTextReadsBack(Ansi, PG, sql, gs, slots);
    }
  }

  /** The driver's own pass keeps a compiled text exactly when the query has no `??`. */
  lemma MssqlDriverPass(sql: string, gs: seq<seq<Slot>>)
    requires Delimited(None, Items(Ansi, sql))
    requires |gs| == Arity(Items(Ansi, sql)) && ColonsFit(Items(Ansi, sql), gs)
    ensures var items := Items(Ansi, sql);
            var fin := Render(items, FinalWords(MSSQL, 0, gs), true);
            var sent := ConvertMssql(Lex(Ansi, "", fin), "", 0);
            if NoEscapes(items) then sent == fin else Questions(sent) < Questions(fin)
  {
    hide Lex, Shape, Marks, Items, Render, Arity, FinalWords, Delimited, FlattenAll, RenderedItems, NoEscapes, TextOnly,
         Questions, ConvertMssql, Edits, CountQuestionTokens, HasQuestion, Source, ColonsFit, ColonsFree;
    var items, ws := Items(Ansi, sql), FinalWords(MSSQL, 0, gs);
    var fin := Render(items, ws, true);
    FinalWordsArePlain(0, gs);
    FinalWordsAreHarmless(MSSQL, 0, gs);
    FinalAreFree(MSSQL, 0, items, gs);
    if NoEscapes(items) {
      RenderedTextOnly(items, ws);
      RenderingItems(Ansi, sql, ws);
      TextIsKept(fin);
    } else {
      RenderKeepsShape(Ansi, sql, items, ws, true);
      EscapeLeavesQuestion(items, ws);
      ShapeEndsLines(Ansi, "", fin);
      QuestionIsReported(Shape(Ansi, "", fin), false);
      ItemsAreTokens(Ansi, fin);
      ItemsOfShape(fin);
      QuestionItemsAreTokens(Lex(Ansi, "", fin));
      LexIsTokenText(Ansi, "", fin);
      LexIsLossless(Ansi, "", fin);
      MssqlPassQuestions(Lex(Ansi, "", fin), "", 0);
      NoQuestions("");
    }
  }

  lemma ItemsOfShape(text: string)
    ensures Items(Ansi, text) == Marks(Shape(Ansi, "", text), false)
  {
  }

  lemma {:induction false} BindsAreCounted(style: Style, slots: seq<Slot>, n: nat)
    requires n <= |slots|
    ensures Binds(style, slots, n) == map[] <==> n == 0
  {
    if n > 0 {
      assert BindName(style, n) in Binds(style, slots, n);
    }
  }

  /**
    * For SQL without backslashes what is sent to mssql means the query with the bound values in
    * place exactly when no bind is written into a name, the query's own text names no bind and no
    * value is bound beside a `??`.
    */
  lemma MssqlCompilationKeepsMeaning(sql: string, params: Params, types: Types)
    requires '\\' !in sql && Clear(Items(MySql, sql), params, types)
    ensures var items := Items(MySql, sql);
            var r := SentToMssql(sql, params, types);
            match BoundGroups(items, params, types)
            case Err(x) => r == Err(x)
            case Ok(gs) =>
              && |gs| == Arity(items)
              && r.Ok? && (r.value.binds == map[] <==> Flat(gs) == [])
              && (Read(MSSQL, false, Shape(Ansi, "", r.value.sql), r.value.binds) == Substitute(items, gs)
                  <==> && Apart(false, items, gs) && Unclaimed(MSSQL, |Flat(gs)|, false, items, gs)
                       && (r.value.binds == map[] || NoEscapes(items)))
  {
    CompiledIsFinal(sql, params, types);
    ItemsModesAgree(sql);
    hide Lex, Shape, Marks, Items, Groups, Render, Arity, Flat, FinalWords, CompiledNamedQuery, Read, Binds,
         BoundGroups, Substitute, Delimited, Apart, Unclaimed, NoEscapes, ConvertMssql, Questions, CountQuestions,
         TextOf, ColonsFit;
    var items, c := Items(MySql, sql), CompiledNamedQuery(sql, params, types);
    match BoundGroups(items, params, types)
    case Err(_) =>
    case Ok(gs) =>
      assert Flat(gs)[..|Flat(gs)|] == Flat(gs);
      FinalTextReadsBack(Ansi, MSSQL, sql, gs, Flat(gs));
      BindsAreCounted(MSSQL, Flat(gs), |Flat(gs)|);
      MssqlDriverPass(sql, gs);
      if c.value.binds != map[] && !NoEscapes(items) {
        var sent := ConvertMssql(Lex(Ansi, "", c.value.sql), "", 0);
        FinalWordsArePlain(0, gs);
        SubstituteKeepsQuestions(items, gs, FinalWords(MSSQL, 0, gs));
        ReadKeepsQuestions(MSSQL, false, Shape(Ansi, "", sent), c.value.binds);
        ShapeSolids(Ansi, "", sent);
      }
  }
}
