/**
  * What the code does where the theorems about compilation do not apply: each case is a query
  * whose compiled form no longer means what the query means.
  */
module QueryEdgeCases {
  import opened Text
  import opened SqlLexer
  import opened SqlRewriting
  import opened QueryCompiler
  import opened QueryMeaning
  import opened QueryPasses
  import opened QueryReadback
  import opened QueryTheorems
  import opened QueryDrivers

  lemma LexStep(mode: Mode, pre: string, t: Token, rest: string)
    requires t.text != "" && First(mode, pre, t.text + rest) == t
    ensures Lex(mode, pre, t.text + rest) == [t] + Lex(mode, pre + t.text, rest)
  {
    hide First;
    assert (t.text + rest)[|t.text|..] == rest;
  }

  /** A named placeholder is read up to the next character that is no word character. */
  lemma NamedFirst(mode: Mode, pre: string, name: string, rest: string)
    requires name != "" && AllWord(name) && (rest != "" ==> !IsWord(rest[0]))
    ensures First(mode, pre, ":" + name + rest) == Token(Named, ":" + name)
  {
    var s := ":" + name + rest;
    assert s[1..] == name + rest && s[0] == ':' && s[1] == name[0];
    var n := WordRun(s[1..]);
    assert forall k | 0 <= k < |name| :: s[1..][k] == name[k];
    assert rest != "" ==> s[1..][|name|] == rest[0];
    assert s[..1 + |name|] == ":" + name;
  }

  lemma QuestionFirst(mode: Mode, pre: string)
    requires !EndsWithQuestion(pre)
    ensures First(mode, pre, "?") == Token(Positional, "?")
    ensures First(mode, pre, "??") == Token(EscapedQuestion, "??")
  {
    assert "?"[..1] == "?" && "??"[..2] == "??";
  }

  lemma LexEnd(mode: Mode, pre: string)
    ensures Lex(mode, pre, "") == []
  {
  }

  lemma OneCall(t: Token, values: seq<Value>)
    ensures t.kind == EscapedQuestion ==>
              ConvertNamed([t], values, map[], Conversion("", map[], 0)) == Ok(Conversion("?", map[], 0))
    ensures IsParameter(t) && values == [] ==>
              ConvertNamed([t], values, map[], Conversion("", map[], 0)) == Err(MissingPositional(0))
  {
    assert [t][1..] == [];
    assert "" + "?" == "?";
  }

  /** Two placeholders side by side become an escaped question mark: both values are lost. */
  lemma AdjacentPlaceholdersMerge(x: Value, y: Value)
    ensures var params := NamedParams(map["a" := x, "b" := y]);
            && FullExpansion(":a:b", params, ListTypes([])) == Ok(CompiledPositional("??", [x, y], map[]))
            && CompiledNamedQuery(":a:b", params, ListTypes([])) == Ok(CompiledNamed("?", map[]))
  {
    var params := NamedParams(map["a" := x, "b" := y]);
    LexNamedPair();
    LexDoubleQuestion();
    hide First, Lex;
    var a, b := Token(Named, ":a"), Token(Named, ":b");
    var e0, e1, e2 := Expansion(0, "", [], map[]), Expansion(0, "?", [x], map[]), Expansion(0, "??", [x, y], map[]);
    assert a.text[1..] == "a" && b.text[1..] == "b";
    assert "" + "?" == "?" && "?" + "?" == "??" && [] + [x] == [x] && [x] + [y] == [x, y];
    assert e0.Accept(a, params, ListTypes([])) == Ok(e1);
    assert e1.Accept(b, params, ListTypes([])) == Ok(e2);
    assert [a, b][1..] == [b] && [b][1..] == [];
    assert e0.AcceptAll([a, b], params, ListTypes([])) == e1.AcceptAll([b], params, ListTypes([])) == Ok(e2);
    OneCall(Token(EscapedQuestion, "??"), [x, y]);
  }

  lemma LexNamedPair()
    ensures Lex(MySql, "", ":a:b") == [Token(Named, ":a"), Token(Named, ":b")]
  {
    var a, b := Token(Named, ":a"), Token(Named, ":b");
    NamedFirst(MySql, "", "a", ":b");
    assert ":" + "a" + ":b" == ":a" + ":b" == ":a:b";
    LexStep(MySql, "", a, ":b");
    NamedFirst(MySql, "" + ":a", "b", "");
    assert ":" + "b" + "" == ":b" + "" == ":b";
    LexStep(MySql, "" + ":a", b, "");
    LexEnd(MySql, "" + ":a" + ":b");
  }

  lemma LexDoubleQuestion()
    ensures Lex(MySql, "", "??") == [Token(EscapedQuestion, "??")]
  {
    QuestionFirst(MySql, "");
    assert "??" + "" == "??";
    LexStep(MySql, "", Token(EscapedQuestion, "??"), "");
    LexEnd(MySql, "" + "??");
  }

  /** An empty array right after a colon turns into a named placeholder without a value. */
  lemma EmptyArrayAfterColon()
    ensures var params, types := ListParams([Array([])]), ListTypes([Some(Many(IntegerArray))]);
            && FullExpansion(":?", params, types) == Ok(CompiledPositional(":NULL", [], map[]))
            && CompiledNamedQuery(":?", params, types) == Err(MissingPositional(0))
  {
    hide First, Lex;
    ColonThenEmptyArray();
    LexColonNull();
    OneCall(Token(Named, ":NULL"), []);
  }

  lemma ColonThenEmptyArray()
    ensures var params, types := ListParams([Array([])]), ListTypes([Some(Many(IntegerArray))]);
            FullExpansion(":?", params, types) == Ok(CompiledPositional(":NULL", [], map[]))
  {
    var params, types := ListParams([Array([])]), ListTypes([Some(Many(IntegerArray))]);
    assert types.types[0].value.Many?;
    LexColonQuestion();
    hide First, Lex;
    var c, q := Token(Other, ":"), Token(Positional, "?");
    var e0, e1, e2 := Expansion(0, "", [], map[]), Expansion(0, ":", [], map[]), Expansion(1, ":NULL", [], map[]);
    assert "" + ":" == ":" && ":" + "NULL" == ":NULL";
    assert e0.Accept(c, params, types) == Ok(e1) && e1.Accept(q, params, types) == Ok(e2);
    assert [c, q][1..] == [q] && [q][1..] == [];
    assert e0.AcceptAll([c, q], params, types) == e1.AcceptAll([q], params, types) == Ok(e2);
  }

  lemma LexColonNull()
    ensures Lex(MySql, "", ":NULL") == [Token(Named, ":NULL")]
  {
    NamedFirst(MySql, "", "NULL", "");
    assert ":" + "NULL" + "" == ":NULL" + "" == ":NULL";
    LexStep(MySql, "", Token(Named, ":NULL"), "");
    LexEnd(MySql, "" + ":NULL");
  }

  lemma LexColonQuestion()
    ensures Lex(MySql, "", ":?") == [Token(Other, ":"), Token(Positional, "?")]
  {
    var s := ":" + "?";
    assert s == ":?" && s[..1] == ":";
    assert First(MySql, "", s) == Token(Other, ":");
    LexStep(MySql, "", Token(Other, ":"), "?");
    QuestionFirst(MySql, "" + ":");
    assert "?" + "" == "?";
    LexStep(MySql, "" + ":", Token(Positional, "?"), "");
    LexEnd(MySql, "" + ":" + "?");
  }

  /** An empty array in front of ARRAY[ hides the word from the bracket lookbehind: the next value is lost. */
  lemma EmptyArrayBeforeArray(x: Value)
    ensures var params, types := ListParams([Array([]), x]), ListTypes([Some(Many(IntegerArray))]);
            && FullExpansion("?ARRAY[?]", params, types) == Ok(CompiledPositional("NULLARRAY[?]", [x], map[]))
            && CompiledNamedQuery("?ARRAY[?]", params, types) == Ok(CompiledNamed("NULLARRAY[?]", map[]))
  {
    var params, types := ListParams([Array([]), x]), ListTypes([Some(Many(IntegerArray))]);
    assert types.types[0].value.Many?;
    assert NeedsExpansion(params, types);
    hide First, Lex, FullExpansion, ConvertNamed, NeedsExpansion;
    ExpandArrayBrackets(x);
    ConvertNullArray(x);
  }

  lemma ConvertNullArray(x: Value)
    ensures ConvertNamed(Lex(MySql, "", "NULLARRAY[?]"), [x], map[], Conversion("", map[], 0))
         == Ok(Conversion("NULLARRAY[?]", map[], 0))
  {
    hide First, Lex, ConvertNamed;
    LexNullArray();
    OtherCalls("NULLARRAY", "[?]", [x]);
    assert "NULLARRAY" + "[?]" == "NULLARRAY[?]";
  }

  lemma AcceptNext(e: Expansion, t: Token, next: Expansion, ts: seq<Token>, params: Params, types: Types)
    requires e.Accept(t, params, types) == Ok(next)
    ensures e.AcceptAll([t] + ts, params, types) == next.AcceptAll(ts, params, types)
  {
    assert ([t] + ts)[1..] == ts;
  }

  /** Text, an escape or a placeholder in the second pass, where the values have their default type. */
  lemma ConvertNext(t: Token, ts: seq<Token>, values: seq<Value>, types: map<nat, ScalarType>, c: Conversion,
                    next: Conversion)
    requires t.kind == Other ==> next == c.(sql := c.sql + t.text)
    requires t.kind == EscapedQuestion ==> next == c.(sql := c.sql + "?")
    requires IsParameter(t) ==>
               && c.index < |values| && TypeAt(types, c.index) == String
               && var name := "p" + Decimal(c.index + 1);
                  next == Conversion(c.sql + "@" + name, c.binds[name := (values[c.index], String)], c.index + 1)
    ensures ConvertNamed([t] + ts, values, types, c) == ConvertNamed(ts, values, types, next)
  {
    assert ([t] + ts)[1..] == ts;
  }

  lemma ConvertEnd(values: seq<Value>, types: map<nat, ScalarType>, c: Conversion)
    ensures ConvertNamed([], values, types, c) == Ok(c)
  {
  }

  lemma OtherCalls(a: string, b: string, values: seq<Value>)
    ensures ConvertNamed([Token(Other, a), Token(Other, b)], values, map[], Conversion("", map[], 0))
         == Ok(Conversion(a + b, map[], 0))
  {
    var s, t := Token(Other, a), Token(Other, b);
    assert "" + a == a && [s] + [t] == [s, t] && [t] + [] == [t];
    hide ConvertNamed;
    ConvertNext(s, [t], values, map[], Conversion("", map[], 0), Conversion(a, map[], 0));
    ConvertNext(t, [], values, map[], Conversion(a, map[], 0), Conversion(a + b, map[], 0));
    ConvertEnd(values, map[], Conversion(a + b, map[], 0));
  }

  /** A placeholder, text, a bracket, a placeholder, a bracket; the first value is an empty array. */
  lemma ExpandFive(q: Token, a: Token, l: Token, r: Token, x: Value)
    requires q.kind == Positional && a.kind == l.kind == r.kind == Other
    ensures var params, types := ListParams([Array([]), x]), ListTypes([Some(Many(IntegerArray))]);
            Expansion(0, "", [], map[]).AcceptAll([q, a, l, q, r], params, types)
            == Ok(Expansion(2, "" + "NULL" + a.text + l.text + "?" + r.text, [] + [x], map[]))
  {
    var params, types := ListParams([Array([]), x]), ListTypes([Some(Many(IntegerArray))]);
    var s1, s2, s3 := "" + "NULL", "" + "NULL" + a.text, "" + "NULL" + a.text + l.text;
    assert [q] + [a, l, q, r] == [q, a, l, q, r] && [a] + [l, q, r] == [a, l, q, r];
    assert [l] + [q, r] == [l, q, r] && [q] + [r] == [q, r] && [r] + [] == [r];
    var e0, e1, e2, e3 := Expansion(0, "", [], map[]), Expansion(1, s1, [], map[]), Expansion(1, s2, [], map[]),
        Expansion(1, s3, [], map[]);
    var e4, e5 := Expansion(2, s3 + "?", [] + [x], map[]), Expansion(2, s3 + "?" + r.text, [] + [x], map[]);
    assert types.types[0].value.Many?;
    assert e0.Accept(q, params, types) == Ok(e1);
    assert e3.Accept(q, params, types) == Ok(e4);
    AcceptNext(e0, q, e1, [a, l, q, r], params, types);
    AcceptNext(e1, a, e2, [l, q, r], params, types);
    AcceptNext(e2, l, e3, [q, r], params, types);
    AcceptNext(e3, q, e4, [r], params, types);
    AcceptNext(e4, r, e5, [], params, types);
  }

  lemma ExpandArrayBrackets(x: Value)
    ensures var params, types := ListParams([Array([]), x]), ListTypes([Some(Many(IntegerArray))]);
            FullExpansion("?ARRAY[?]", params, types) == Ok(CompiledPositional("NULLARRAY[?]", [x], map[]))
  {
    LexArrayBrackets();
    hide First, Lex, Expansion.AcceptAll;
    ExpandFive(Token(Positional, "?"), Token(Other, "ARRAY"), Token(Other, "["), Token(Other, "]"), x);
    assert "" + "NULL" + "ARRAY" + "[" + "?" + "]" == "NULLARRAY[?]" && [] + [x] == [x];
  }

  /** A run of ordinary characters is one token. */
  lemma OtherFirst(mode: Mode, pre: string, w: string, rest: string)
    requires w != "" && (forall k | 0 <= k < |w| :: !IsSpecial(w[k])) && (rest != "" ==> IsSpecial(rest[0]))
    ensures First(mode, pre, w + rest) == Token(Other, w)
  {
    var s := w + rest;
    assert forall k | 0 <= k < |w| :: s[k] == w[k];
    assert rest != "" ==> s[|w|] == rest[0];
    assert s[..|w|] == w;
  }

  lemma LexOther(mode: Mode, pre: string, w: string, rest: string)
    requires w != "" && (forall k | 0 <= k < |w| :: !IsSpecial(w[k])) && (rest != "" ==> IsSpecial(rest[0]))
    ensures Lex(mode, pre, w + rest) == [Token(Other, w)] + Lex(mode, pre + w, rest)
  {
    OtherFirst(mode, pre, w, rest);
    LexStep(mode, pre, Token(Other, w), rest);
  }

  lemma LexPositional(mode: Mode, pre: string, rest: string)
    requires !EndsWithQuestion(pre) && !StartsWith(rest, 0, '?')
    ensures Lex(mode, pre, "?" + rest) == [Token(Positional, "?")] + Lex(mode, pre + "?", rest)
  {
    var s := "?" + rest;
    assert s[..1] == "?" && (|s| >= 2 ==> s[1] == rest[0]);
    LexStep(mode, pre, Token(Positional, "?"), rest);
  }

  lemma LexArrayBrackets()
    ensures Lex(MySql, "", "?ARRAY[?]")
         == [Token(Positional, "?"), Token(Other, "ARRAY"), Token(Other, "["), Token(Positional, "?"),
             Token(Other, "]")]
  {
    hide Lex, First;
    assert "?" + "ARRAY[?]" == "?ARRAY[?]" && "ARRAY" + "[?]" == "ARRAY[?]" && "[" + "?]" == "[?]";
    assert "?" + "]" == "?]" && "]" + "" == "]";
    var p := "" + "?" + "ARRAY";
    LexPositional(MySql, "", "ARRAY[?]");
    LexOther(MySql, "" + "?", "ARRAY", "[?]");
    BracketAfterArray(p);
    LexStep(MySql, p, Token(Other, "["), "?]");
    LexPositional(MySql, p + "[", "]");
    LexOther(MySql, p + "[" + "?", "]", "");
    LexEnd(MySql, p + "[" + "?" + "]");
  }

  lemma BracketAfterArray(p: string)
    requires p == "?ARRAY"
    ensures First(MySql, p, "[" + "?]") == Token(Other, "[")
  {
    assert p[|p| - 5..] == "ARRAY";
    var s := "[" + "?]";
    assert s[..1] == "[";
  }

  lemma LexNullArray()
    ensures Lex(MySql, "", "NULLARRAY[?]") == [Token(Other, "NULLARRAY"), Token(Other, "[?]")]
  {
    hide Lex, First;
    assert "NULLARRAY" + "[?]" == "NULLARRAY[?]" && "[?]" + "" == "[?]";
    LexOther(MySql, "", "NULLARRAY", "[?]");
    BracketAfterNull("" + "NULLARRAY");
    LexStep(MySql, "" + "NULLARRAY", Token(Other, "[?]"), "");
    LexEnd(MySql, "" + "NULLARRAY" + "[?]");
  }

  lemma BracketAfterNull(p: string)
    requires p == "NULLARRAY"
    ensures First(MySql, p, "[?]") == Token(Other, "[?]")
  {
    assert p[|p| - 5..] == "ARRAY" && p[|p| - 6] == 'L';
    var s := "[?]";
    assert s[1..] == "?]" && "?]"[1..] == "]" && s[..3] == s;
  }

  /** A digit right after a placeholder joins the number of its bind. */
  lemma DigitAfterPlaceholder(slot: Slot)
    ensures Lex(MySql, "", "?1") == [Token(Positional, "?"), Token(Other, "1")]
    ensures ConvertNamed([Token(Positional, "?"), Token(Other, "1")], [slot.0], map[0 := slot.1],
                         Conversion("", map[], 0))
         == Ok(Conversion("@p11", Binds(MSSQL, [slot], 1), 1))
    ensures Read(MSSQL, false, Chs("@p11"), Binds(MSSQL, [slot], 1)) == Chrs("@p11")
  {
    LexQuestionOne();
    OneBind(slot);
    ConvertQuestionOne(slot);
    hide Lex, First, Read, Binds;
    ReadDigits(Binds(MSSQL, [slot], 1));
  }

  lemma OneBind(slot: Slot)
    ensures Binds(MSSQL, [slot], 1) == map["p1" := slot]
  {
    assert Decimal(1) == "1" && BindName(MSSQL, 1) == "p1";
    assert Binds(MSSQL, [slot], 0) == map[];
  }

  lemma ConvertQuestionOne(slot: Slot)
    ensures ConvertNamed([Token(Positional, "?"), Token(Other, "1")], [slot.0], map[0 := slot.1],
                         Conversion("", map[], 0))
         == Ok(Conversion("@p11", map["p1" := slot], 1))
  {
    var q, o := Token(Positional, "?"), Token(Other, "1");
    assert Decimal(1) == "1" && "p" + "1" == "p1";
    assert [q, o][1..] == [o] && [o][1..] == [];
    assert "" + "@" + "p1" == "@p1" && "@p1" + "1" == "@p11";
    var m: map<string, Slot> := map[];
    assert m["p1" := slot] == map["p1" := slot];
  }

  lemma LexQuestionOne()
    ensures Lex(MySql, "", "?1") == [Token(Positional, "?"), Token(Other, "1")]
  {
    var s := "?" + "1";
    assert s == "?1" && s[..1] == "?";
    LexStep(MySql, "", Token(Positional, "?"), "1");
    assert "1" + "" == "1" && "1"[1..] == "" && "1"[..1] == "1";
    assert First(MySql, "" + "?", "1") == Token(Other, "1");
    LexStep(MySql, "" + "?", Token(Other, "1"), "");
    LexEnd(MySql, "" + "?" + "1");
  }

  lemma ReadDigits(binds: map<string, Slot>)
    requires "p11" !in binds
    ensures Read(MSSQL, false, Chs("@p11"), binds) == Chrs("@p11")
  {
    var ps := Chs("@p11");
    FrontAppend("@p11", []);
    assert ps + [] == ps;
    var f := "@p11";
    assert Front(ps) == f;
    hide Front;
    assert f[1..] == "p11" && f[1..4] == "p11";
    WordRunAll("p11");
    ReadPlain(true, "p11", binds);
    assert ps[1..] == Chs("p11");
    assert Chrs("@p11") == [Chr('@')] + Chrs("p11");
  }

  lemma {:induction false} WordRunAll(w: string)
    requires AllWord(w)
    ensures WordRun(w) == |w|
  {
    if w != "" {
      WordRunAll(w[1..]);
    }
  }

  lemma ReadPlain(joined: bool, w: string, binds: map<string, Slot>)
    requires w != "" && Lacks(w, '@')
    ensures Read(MSSQL, joined, Chs(w), binds) == Chrs(w)
  {
    ReadText(MSSQL, joined, w, [], binds);
    hide Chs, Chrs, InName;
    assert Chs(w) + [] == Chs(w);
    assert Read(MSSQL, InName(w[|w| - 1]), [], binds) == [];
    assert Chrs(w) + [] == Chrs(w);
  }

  /** A placeholder right after a word joins it: the bind is part of the name and is not read. */
  lemma PlaceholderAfterWord(x: Value)
    ensures CompiledNamedQuery("IN?", ListParams([x]), ListTypes([]))
            == Ok(CompiledNamed("IN@p1", map["p1" := (x, String)]))
    ensures Read(MSSQL, false, Chs("IN@p1"), map["p1" := (x, String)]) == Chrs("IN@p1")
  {
    LexOtherAndPlaceholder(MySql, "IN");
    assert "IN" + "?" == "IN?";
    OneNamedBind(x);
    hide Lex, First, ConvertNamed, Read;
    ConvertTwo(Token(Other, "IN"), Token(Positional, "?"), x, NormalizePositionalTypes(1, ListTypes([])));
    assert "" + "IN" + "@" + "p1" == "IN@p1";
    ReadJoinedBind(map["p1" := (x, String)]);
  }

  /** Text and a placeholder in the second pass. */
  lemma ConvertTwo(a: Token, q: Token, x: Value, types: map<nat, ScalarType>)
    requires a.kind == Other && q.kind == Positional && TypeAt(types, 0) == String
    ensures ConvertNamed([a, q], [x], types, Conversion("", map[], 0))
         == Ok(Conversion("" + a.text + "@" + "p1", map["p1" := (x, String)], 1))
  {
    OneNamedBind(x);
    hide ConvertNamed;
    assert [a] + [q] == [a, q] && [q] + [] == [q];
    var c0, c1 := Conversion("", map[], 0), Conversion("" + a.text, map[], 0);
    var c2 := Conversion("" + a.text + "@" + "p1", map["p1" := (x, String)], 1);
    ConvertNext(a, [q], [x], types, c0, c1);
    ConvertNext(q, [], [x], types, c1, c2);
    ConvertEnd([x], types, c2);
  }

  lemma OneNamedBind(x: Value)
    ensures Decimal(1) == "1" && "p" + "1" == "p1"
    ensures var none: map<string, Slot> := map[]; none["p1" := (x, String)] == map["p1" := (x, String)]
    ensures TypeAt(NormalizePositionalTypes(1, ListTypes([])), 0) == String
  {
  }

  lemma ReadJoinedBind(binds: map<string, Slot>)
    ensures Read(MSSQL, false, Chs("IN@p1"), binds) == Chrs("IN@p1")
  {
    hide Read, Front, WordRun;
    assert Chs("IN@p1") == Chs("IN") + Chs("@p1") && Chs("@p1") == [Ch('@')] + Chs("p1") && Chs("p1") + [] == Chs("p1");
    ReadText(MSSQL, false, "IN", Chs("@p1"), binds);
    ReadPlainChar(MSSQL, true, '@', Chs("p1"), binds);
    ReadPlain(true, "p1", binds);
    assert Chrs("IN") + ([Chr('@')] + Chrs("p1")) == Chrs("IN@p1");
  }

  /**
    * The mssql driver takes the question mark that `??` was compiled to for a placeholder: it
    * becomes the first bind.
    */
  lemma MssqlRewritesEscape(x: Value)
    ensures var params, types := ListParams([x]), ListTypes([]);
            && CompiledNamedQuery("a ?? b = ?", params, types)
               == Ok(CompiledNamed("a ? b = @p1", map["p1" := (x, String)]))
            && SentToMssql("a ?? b = ?", params, types) == Ok(CompiledNamed("a @p1 b = @p1", map["p1" := (x, String)]))
  {
    CompileEscape(x);
    LexCompiledEscape();
    hide Lex, First, CompiledNamedQuery, ConvertMssql;
    assert map["p1" := (x, String)] != map[] by { assert "p1" in map["p1" := (x, String)]; }
    ConvertCompiledEscape();
  }

  lemma ConvertCompiledEscape()
    ensures ConvertMssql([Token(Other, "a "), Token(Positional, "?"), Token(Other, " b = @p1")], "", 0)
            == "a @p1 b = @p1"
  {
    var a, q, b := Token(Other, "a "), Token(Positional, "?"), Token(Other, " b = @p1");
    assert [a, q, b][1..] == [q, b] && [q, b][1..] == [b] && [b][1..] == [] && Decimal(1) == "1" && "@p" + "1" == "@p1";
    assert "" + "a " == "a " && "a " + "@p1" == "a @p1" && "a @p1" + " b = @p1" == "a @p1 b = @p1";
    MssqlNext([a, q, b], "", 0);
    MssqlNext([q, b], "a ", 0);
    MssqlNext([b], "a @p1", 1);
  }

  /** Text, an escape, text and a placeholder in the second pass. */
  lemma ConvertFour(a: Token, e: Token, b: Token, q: Token, x: Value, types: map<nat, ScalarType>)
    requires a.kind == b.kind == Other && e.kind == EscapedQuestion && q.kind == Positional
             && TypeAt(types, 0) == String
    ensures ConvertNamed([a, e, b, q], [x], types, Conversion("", map[], 0))
         == Ok(Conversion("" + a.text + "?" + b.text + "@" + "p1", map["p1" := (x, String)], 1))
  {
    OneNamedBind(x);
    hide ConvertNamed;
    assert [a] + [e, b, q] == [a, e, b, q] && [e] + [b, q] == [e, b, q] && [b] + [q] == [b, q] && [q] + [] == [q];
    var s := "" + a.text + "?" + b.text;
    var c0, c1, c2 := Conversion("", map[], 0), Conversion("" + a.text, map[], 0),
        Conversion("" + a.text + "?", map[], 0);
    var c3, c4 := Conversion(s, map[], 0), Conversion(s + "@" + "p1", map["p1" := (x, String)], 1);
    ConvertNext(a, [e, b, q], [x], types, c0, c1);
    ConvertNext(e, [b, q], [x], types, c1, c2);
    ConvertNext(b, [q], [x], types, c2, c3);
    ConvertNext(q, [], [x], types, c3, c4);
    ConvertEnd([x], types, c4);
  }

  lemma CompileEscape(x: Value)
    ensures CompiledNamedQuery("a ?? b = ?", ListParams([x]), ListTypes([]))
         == Ok(CompiledNamed("a ? b = @p1", map["p1" := (x, String)]))
  {
    LexEscapeAndPlaceholder();
    OneNamedBind(x);
    hide Lex, First, ConvertNamed;
    ConvertFour(Token(Other, "a "), Token(EscapedQuestion, "??"), Token(Other, " b = "), Token(Positional, "?"), x,
                NormalizePositionalTypes(1, ListTypes([])));
    assert "" + "a " + "?" + " b = " + "@" + "p1" == "a ? b = @p1";
  }

  lemma LexEscapeAndPlaceholder()
    ensures Lex(MySql, "", "a ?? b = ?")
         == [Token(Other, "a "), Token(EscapedQuestion, "??"), Token(Other, " b = "), Token(Positional, "?")]
  {
    hide Lex, First;
    assert "a " + "?? b = ?" == "a ?? b = ?" && "??" + " b = ?" == "?? b = ?" && " b = " + "?" == " b = ?"
           && "?" + "" == "?";
    LexOther(MySql, "", "a ", "?? b = ?");
    EscapedFirst(MySql, "" + "a ", " b = ?");
    LexStep(MySql, "" + "a ", Token(EscapedQuestion, "??"), " b = ?");
    LexOther(MySql, "" + "a " + "??", " b = ", "?");
    LexPositional(MySql, "" + "a " + "??" + " b = ", "");
    LexEnd(MySql, "" + "a " + "??" + " b = " + "?");
  }

  lemma EscapedFirst(mode: Mode, pre: string, rest: string)
    ensures First(mode, pre, "??" + rest) == Token(EscapedQuestion, "??")
  {
    var s := "??" + rest;
    assert s[0] == '?' && s[1] == '?' && s[..2] == "??";
  }

  lemma LexCompiledEscape()
    ensures Lex(Ansi, "", "a ? b = @p1") == [Token(Other, "a "), Token(Positional, "?"), Token(Other, " b = @p1")]
  {
    hide Lex, First;
    assert "a " + "? b = @p1" == "a ? b = @p1" && "?" + " b = @p1" == "? b = @p1" && " b = @p1" + "" == " b = @p1";
    LexOther(Ansi, "", "a ", "? b = @p1");
    LexPositional(Ansi, "" + "a ", " b = @p1");
    LexOther(Ansi, "" + "a " + "?", " b = @p1", "");
    LexEnd(Ansi, "" + "a " + "?" + " b = @p1");
  }

  /** Without values pg gets `??` as it is written. */
  lemma PgKeepsEscapeWithoutValues()
    ensures SentToPg("??", ListParams([]), ListTypes([])) == Ok(("??", []))
  {
  }

  /** A record of types beside a positional list is not looked at: every value is bound as STRING. */
  lemma RecordTypesAreIgnored(sql: string, vs: seq<Value>, m: map<string, ParamType>)
    ensures var r := ExpandedQuery(sql, ListParams(vs), NamedTypes(m));
            r.Ok? && forall i | 0 <= i < |vs| :: TypeAt(r.value.types, i) == String
  {
  }

  // ---------------------------------------------------------------------------------------
  // Text that names a bind, and names beside a list
  // ---------------------------------------------------------------------------------------

  lemma ReadTwice(style: Style, slot: Slot)
    requires IsStyle(style)
    ensures Read(style, false, Chs(Bind(style, 1) + " " + Bind(style, 1)), map[BindName(style, 1) := slot])
         == [Val(slot), Chr(' '), Val(slot)]
  {
    hide Bind, BindName, Read, Front, WordRun;
    var b, binds := Bind(style, 1), map[BindName(style, 1) := slot];
    var tail := Chs(b) + [];
    assert Chs(b + " " + b) == Chs(b) + (Chs(" ") + tail);
    FrontAppend(" ", tail);
    assert (" " + Front(tail))[0] == ' ';
    assert Front([]) == "" by { NoFront(); }
    ReadBind(style, 1, Chs(" ") + tail, binds);
    ReadText(style, true, " ", tail, binds);
    ReadBind(style, 1, [], binds);
    ReadNothing(style, binds);
    assert Chrs(" ") == [Chr(' ')];
  }

  lemma NoFront()
    ensures Front([]) == ""
  {
  }

  lemma ReadNothing(style: Style, binds: map<string, Slot>)
    ensures Read(style, true, [], binds) == []
  {
  }

  /** Text of the query that is the name of a bind reads as its value. */
  lemma OwnTextNamesBind(x: Value)
    ensures CompiledNamedQuery("@p1 ?", ListParams([x]), ListTypes([]))
            == Ok(CompiledNamed("@p1 @p1", map["p1" := (x, String)]))
    ensures Read(MSSQL, false, Chs("@p1 @p1"), map["p1" := (x, String)])
            == [Val((x, String)), Chr(' '), Val((x, String))]
  {
    LexOtherAndPlaceholder(MySql, "@p1 ");
    OneNamedBind(x);
    hide Lex, First, ConvertNamed, Read;
    assert "@p1 " + "?" == "@p1 ?";
    ConvertTwo(Token(Other, "@p1 "), Token(Positional, "?"), x, NormalizePositionalTypes(1, ListTypes([])));
    assert "" + "@p1 " + "@" + "p1" == "@p1 @p1";
    FirstBinds();
    ReadTwice(MSSQL, (x, String));
  }

  /** The same on pg. */
  lemma OwnTextNamesPgBind(x: Value)
    ensures SentToPg("$1 ?", ListParams([x]), ListTypes([])) == Ok(("$1 $1", [(x, String)]))
    ensures Read(PG, false, Chs("$1 $1"), Binds(PG, [(x, String)], 1)) == [Val((x, String)), Chr(' '), Val((x, String))]
  {
    OwnTextSentToPg(x);
    hide SentToPg, Read;
    FirstBinds();
    ReadTwice(PG, (x, String));
    PgBind((x, String));
  }

  lemma OwnTextSentToPg(x: Value)
    ensures SentToPg("$1 ?", ListParams([x]), ListTypes([])) == Ok(("$1 $1", [(x, String)]))
  {
    LexOtherAndPlaceholder(Ansi, "$1 ");
    OneNamedBind(x);
    hide Lex, First, ConvertPg;
    assert "$1 " + "?" == "$1 ?";
    ConvertPgTwo(Token(Other, "$1 "), Token(Positional, "?"));
    assert "" + "$1 " + "$" + "1" == "$1 $1";
    assert SlotsOf([x], NormalizePositionalTypes(1, ListTypes([]))) == [(x, String)];
  }

  lemma ConvertPgTwo(a: Token, q: Token)
    requires a.kind == Other && q.kind == Positional
    ensures ConvertPg([a, q], "", 0) == Ok("" + a.text + "$" + "1")
  {
    assert [a, q][1..] == [q] && [q][1..] == [] && Decimal(1) == "1";
    assert ConvertPg([a, q], "", 0) == ConvertPg([q], "" + a.text, 0);
  }

  lemma PgBind(slot: Slot)
    ensures Binds(PG, [slot], 1) == map[BindName(PG, 1) := slot]
  {
    assert Binds(PG, [slot], 0) == map[];
  }

  lemma FirstBinds()
    ensures Bind(MSSQL, 1) + " " + Bind(MSSQL, 1) == "@p1 @p1" && BindName(MSSQL, 1) == "p1"
    ensures Bind(PG, 1) + " " + Bind(PG, 1) == "$1 $1"
  {
    assert Decimal(1) == "1";
  }

  lemma LexOtherAndPlaceholder(mode: Mode, w: string)
    requires w != "" && forall k | 0 <= k < |w| :: !IsSpecial(w[k])
    ensures Lex(mode, "", w + "?") == [Token(Other, w), Token(Positional, "?")]
  {
    hide Lex, First;
    LexOther(mode, "", w, "?");
    assert "?" + "" == "?";
    LexPositional(mode, "" + w, "");
    LexEnd(mode, "" + w + "?");
  }

  /** Beside a list of values that needs no expansion a name takes the next value of the list. */
  lemma NameTakesNextValue(x: Value)
    ensures CompiledNamedQuery(":a", ListParams([x]), ListTypes([]))
            == Ok(CompiledNamed("@p1", map["p1" := (x, String)]))
    ensures Groups(Items(MySql, ":a"), 0, ListParams([x]), ListTypes([])) == Err(MissingNamed("a"))
  {
    LexOneName();
    OneNamedBind(x);
    ItemsAreTokens(MySql, ":a");
    hide Lex, First, Items;
    var n, types := Token(Named, ":a"), NormalizePositionalTypes(1, ListTypes([]));
    assert ":a"[1..] == "a";
    assert FlattenAll([n]) == [Name("a")];
    assert "" + "@" + "p1" == "@p1" && [n] + [] == [n];
    ConvertNext(n, [], [x], types, Conversion("", map[], 0), Conversion("@p1", map["p1" := (x, String)], 1));
    ConvertEnd([x], types, Conversion("@p1", map["p1" := (x, String)], 1));
    NoSuchName(x);
  }

  lemma NoSuchName(x: Value)
    ensures Given(Name("a"), 0, ListParams([x])).None?
  {
    assert Decimal(0) == "0" && "a"[0] != "0"[0];
    assert [x][..|[x]| - 1] == [] && Numbered([], "a").None?;
    assert Numbered([x], "a").None?;
  }

  lemma LexOneName()
    ensures Lex(MySql, "", ":a") == [Token(Named, ":a")]
  {
    NamedFirst(MySql, "", "a", "");
    assert ":" + "a" + "" == ":a" + "" == ":a";
    LexStep(MySql, "", Token(Named, ":a"), "");
    LexEnd(MySql, "" + ":a");
  }
}
