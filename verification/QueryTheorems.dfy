/**
  * Main results about query compilation.
  *
  * A query is compiled by up to three lexing passes. The passes agree for every query whose
  * placeholders touch no question mark or other placeholder and are not followed by a word or a
  * bracket (`Delimited`), and whose empty arrays follow no colon (`ColonsFit`); QueryEdgeCases
  * shows what goes wrong next to each of these. Then the meaning is kept exactly when no bind is
  * written into a name (`Apart`) and the query's own text names no bind (`Unclaimed`).
  */
module QueryTheorems {
  import opened Text
  import opened SqlLexer
  import opened SqlRewriting
  import opened QueryCompiler
  import opened QueryMeaning
  import opened QueryPasses
  import opened QueryCorrectness
  import opened QueryReadback

  // ---------------------------------------------------------------------------------------
  // The words written by the passes
  // ---------------------------------------------------------------------------------------

  lemma {:induction false} PlaceholdersAreTame(n: nat)
    requires n > 0
    ensures Harmless(Placeholders(n)) && WellSpaced(Placeholders(n)) && Placeholders(n)[0] == '?'
  {
    if n > 1 {
      PlaceholdersAreTame(n - 1);
      var p := Placeholders(n - 1);
      assert Placeholders(n) == ['?', ',', ' '] + p;
    }
  }

  lemma ExpandedWordsAreTame(gs: seq<seq<Slot>>)
    ensures AllHarmless(ExpandedWords(gs)) && AllWellSpaced(ExpandedWords(gs))
  {
    forall i | 0 <= i < |gs|
      ensures Harmless(ExpandedWords(gs)[i]) && WellSpaced(ExpandedWords(gs)[i])
    {
      if gs[i] != [] {
        PlaceholdersAreTame(|gs[i]|);
      }
    }
  }

  lemma HarmlessAppend(a: string, b: string)
    requires Harmless(a) && Harmless(b)
    ensures Harmless(a + b)
  {
  }

  lemma BindIsHarmless(style: Style, k: nat)
    requires IsStyle(style)
    ensures Harmless(Bind(style, k))
  {
    var d := Decimal(k);
    assert Bind(style, k) == [style.sigil] + (style.prefix + d);
    assert forall i | 0 <= i < |d| :: IsHarmless(d[i]);
  }

  lemma {:induction false} BindListIsHarmless(style: Style, j: nat, n: nat)
    requires IsStyle(style) && n > 0
    ensures Harmless(BindList(style, j, n))
    decreases n
  {
    BindIsHarmless(style, j + 1);
    if n > 1 {
      BindListIsHarmless(style, j + 1, n - 1);
      hide Bind;
      HarmlessAppend(Bind(style, j + 1), ", ");
      HarmlessAppend(Bind(style, j + 1) + ", ", BindList(style, j + 1, n - 1));
    }
  }

  lemma {:induction false} FinalWordsAreHarmless(style: Style, j: nat, gs: seq<seq<Slot>>)
    requires IsStyle(style)
    ensures AllHarmless(FinalWords(style, j, gs))
    decreases gs
  {
    if gs != [] {
      FinalWordsAreHarmless(style, j + |gs[0]|, gs[1..]);
      if gs[0] != [] {
        BindListIsHarmless(style, j, |gs[0]|);
      }
      assert FinalWords(style, j, gs)[1..] == FinalWords(style, j + |gs[0]|, gs[1..]);
    }
  }

  // ---------------------------------------------------------------------------------------
  // Items of source and of intermediate text
  // ---------------------------------------------------------------------------------------

  lemma ItemsAreTokens(mode: Mode, sql: string)
    ensures Items(mode, sql) == FlattenAll(Lex(mode, "", sql))
  {
    MarksOfShape(mode, "", sql);
  }

  /** Lexing a rendering with tame words finds its items. */
  lemma RenderingItems(mode: Mode, sql: string, ws: seq<string>)
    requires Delimited(None, Items(mode, sql)) && |ws| == Arity(Items(mode, sql))
    requires AllHarmless(ws) && AllWellSpaced(ws) && ColonsFree(Items(mode, sql), ws)
    ensures Items(mode, Render(Items(mode, sql), ws, false)) == RenderedItems(Items(mode, sql), ws)
  {
    hide Shape, Marks, Edits, Delimited, Render, RenderedItems;
    var items := Items(mode, sql);
    RenderKeepsShape(mode, sql, items, ws, false);
    ShapeSolids(mode, "", sql);
    PiecesOfMarks(Shape(mode, "", sql), false);
    RenderingReadsAlike(None, items, ws, false, false);
  }

  lemma {:induction false} ExpandedAreFree(items: seq<Item>, gs: seq<seq<Slot>>)
    requires |gs| == Arity(items) && ColonsFit(items, gs)
    ensures ColonsFree(items, ExpandedWords(gs))
    decreases |items|
  {
    if items != [] {
      var hs := if IsHole(items[0]) then gs[1..] else gs;
      ExpandedAreFree(items[1..], hs);
      assert IsHole(items[0]) ==> ExpandedWords(gs)[1..] == ExpandedWords(hs);
      assert gs != [] && gs[0] != [] ==> Placeholders(|gs[0]|)[0] == '?';
    }
  }

  lemma {:induction false} FinalAreFree(style: Style, j: nat, items: seq<Item>, gs: seq<seq<Slot>>)
    requires IsStyle(style) && |gs| == Arity(items) && ColonsFit(items, gs)
    ensures ColonsFree(items, FinalWords(style, j, gs))
    decreases |items|
  {
    if items != [] {
      if IsHole(items[0]) {
        FinalAreFree(style, j + |gs[0]|, items[1..], gs[1..]);
        assert FinalWords(style, j, gs)[1..] == FinalWords(style, j + |gs[0]|, gs[1..]);
      } else {
        FinalAreFree(style, j, items[1..], gs);
        assert gs != [] && gs[0] != [] ==> BindList(style, j, |gs[0]|)[0] == style.sigil;
      }
    }
  }

  /** The second lexing pass finds exactly the placeholders that the first pass wrote. */
  lemma SecondPassSeesTheFirst(mode: Mode, sql: string, gs: seq<seq<Slot>>)
    requires Delimited(None, Items(mode, sql))
    requires |gs| == Arity(Items(mode, sql)) && ColonsFit(Items(mode, sql), gs)
    ensures var items := Items(mode, sql);
            Items(mode, Render(items, ExpandedWords(gs), false)) == RenderedItems(items, ExpandedWords(gs))
  {
    ExpandedWordsAreTame(gs);
    ExpandedAreFree(Items(mode, sql), gs);
    RenderingItems(mode, sql, ExpandedWords(gs));
  }

  predicate ColonsStayTogether(i: Item) {
    i.Verbatim? && i.text != "" && i.text[0] == ':' ==> forall k | 0 <= k < |i.text| :: i.text[k] == ':'
  }

  lemma FirstIsSolid(ps: seq<Piece>, q: bool)
    requires ps != [] && ps[0].Solid? && SolidsAreRegions(ps)
    ensures ColonsStayTogether(Verbatim(ps[0].text)) && SolidsAreRegions(ps[1..])
    ensures Marks(ps, q) == [Verbatim(ps[0].text)] + Marks(ps[1..], EndsWithQuestion(ps[0].text))
  {
    hide Mark, EndsWithQuestion;
    assert [ps[0]] + ps[1..] == ps;
    SolidsOfTail([ps[0]], ps[1..]);
  }

  lemma FirstIsText(ps: seq<Piece>, q: bool)
    requires ps != [] && ps[0].Ch? && SolidsAreRegions(ps)
    ensures var f := Front(ps);
            && f != ""
            && var (item, n) := Mark(f, q);
               && ColonsStayTogether(item) && SolidsAreRegions(ps[n..])
               && Marks(ps, q) == [item] + Marks(ps[n..], f[n - 1] == '?')
  {
    hide Mark, SolidsAreRegions;
    MarksText(ps, q);
    var f := Front(ps);
    ColonsOfMark(f, q);
    var n := Mark(f, q).1;
    assert ps[..n] + ps[n..] == ps;
    SolidsOfTail(ps[..n], ps[n..]);
  }

  lemma {:induction false} ColonRunsOfMarks(ps: seq<Piece>, q: bool)
    requires SolidsAreRegions(ps)
    ensures ColonRunsOnly(Marks(ps, q))
    decreases |ps|
  {
    if ps == [] {
      return;
    }
    hide *;
    if ps[0].Solid? {
      var q' := EndsWithQuestion(ps[0].text);
      FirstIsSolid(ps, q);
      ColonRunsOfMarks(ps[1..], q');
      ColonRunsCons(Verbatim(ps[0].text), Marks(ps[1..], q'));
    } else {
      var f := Front(ps);
      FirstIsText(ps, q);
      var (item, n) := Mark(f, q);
      ColonRunsOfMarks(ps[n..], f[n - 1] == '?');
      ColonRunsCons(item, Marks(ps[n..], f[n - 1] == '?'));
    }
  }

  lemma ColonsOfMark(f: string, q: bool)
    requires f != ""
    ensures ColonsStayTogether(Mark(f, q).0)
  {
  }

  lemma ColonRunsCons(i: Item, items: seq<Item>)
    requires ColonRunsOnly(items) && ColonsStayTogether(i)
    ensures ColonRunsOnly([i] + items)
  {
    var all := [i] + items;
    forall j | 0 <= j < |all|
      ensures ColonsStayTogether(all[j])
    {
      if j > 0 {
        assert all[j] == items[j - 1];
      }
    }
  }

  /** What the database reads in the final text is the query exactly where its binds stand apart and unclaimed. */
  lemma FinalTextReadsBack(mode: Mode, style: Style, sql: string, gs: seq<seq<Slot>>, slots: seq<Slot>)
    requires IsStyle(style) && Delimited(None, Items(mode, sql))
    requires |gs| == Arity(Items(mode, sql)) && |Flat(gs)| <= |slots| && slots[..|Flat(gs)|] == Flat(gs)
    ensures var items := Items(mode, sql);
            var fin := Render(items, FinalWords(style, 0, gs), true);
            Read(style, false, Shape(mode, "", fin), Binds(style, slots, |slots|)) == Substitute(items, gs)
            <==> Apart(false, items, gs) && Unclaimed(style, |slots|, false, items, gs)
  {
    hide Shape, Marks, Edits, Delimited, Render, RenderedItems, Read, Binds, FinalWords, Flat, ColonRunsOnly,
         Substitute, Apart, Unclaimed;
    var items := Items(mode, sql);
    FinalWordsAreHarmless(style, 0, gs);
    RenderKeepsShape(mode, sql, items, FinalWords(style, 0, gs), true);
    ShapeSolids(mode, "", sql);
    ColonRunsOfMarks(Shape(mode, "", sql), false);
    assert slots[0..0 + |Flat(gs)|] == slots[..|Flat(gs)|];
    ReadBack(style, 0, false, None, items, gs, slots);
  }

  /** Expansion, second pass, and reading the result: the query with its values in place. */
  lemma CompiledTextReadsBack(mode: Mode, style: Style, sql: string, gs: seq<seq<Slot>>, slots: seq<Slot>)
    requires IsStyle(style) && Delimited(None, Items(mode, sql))
    requires |gs| == Arity(Items(mode, sql)) && |Flat(gs)| <= |slots| && slots[..|Flat(gs)|] == Flat(gs)
    requires ColonsFit(Items(mode, sql), gs)
    ensures var items := Items(mode, sql);
            var mid := Items(mode, Render(items, ExpandedWords(gs), false));
            && Arity(mid) == |Flat(gs)|
            && var fin := Render(mid, BindWords(style, 0, |Flat(gs)|), true);
            && fin == Render(items, FinalWords(style, 0, gs), true)
            && (Read(style, false, Shape(mode, "", fin), Binds(style, slots, |slots|)) == Substitute(items, gs)
                <==> Apart(false, items, gs) && Unclaimed(style, |slots|, false, items, gs))
  {
    hide Shape, Marks, Delimited, Render, RenderedItems, Read, Binds, BindWords, FinalWords, Flat, Substitute, Apart,
         Unclaimed, ColonsFit;
    SecondPassSeesTheFirst(mode, sql, gs);
    RenderTwice(style, 0, Items(mode, sql), gs);
    FinalTextReadsBack(mode, style, sql, gs, slots);
  }

  // ---------------------------------------------------------------------------------------
  // The shortcut for plain positional lists
  // ---------------------------------------------------------------------------------------

  predicate NoNames(items: seq<Item>) { forall i | 0 <= i < |items| :: !items[i].Name? }

  /** Positional parameters whose list of types names no array type. */
  predicate TakesShortcut(params: Params, types: Types) {
    params.ListParams? && types.ListTypes? && !NeedsExpansion(params, types)
  }

  function Singles(vs: seq<Value>, types: Types): (gs: seq<seq<Slot>>)
    ensures |gs| == |vs| && forall i | 0 <= i < |vs| :: gs[i] == [(vs[i], NormalizedType(types, i))]
  {
    seq(|vs|, i requires 0 <= i < |vs| => [(vs[i], NormalizedType(types, i))])
  }

  lemma {:induction false} SingleGroups(items: seq<Item>, k: nat, vs: seq<Value>, types: Types)
    requires NoNames(items) && TakesShortcut(ListParams(vs), types) && k <= |vs|
    ensures Groups(items, k, ListParams(vs), types) ==
            if k + Arity(items) <= |vs| then Ok(Singles(vs, types)[k..k + Arity(items)])
            else Err(MissingPositional(|vs|))
    decreases |items|
  {
    if items == [] {
      assert Singles(vs, types)[k..k] == [];
      return;
    }
    assert forall i | 0 <= i < |items[1..]| :: items[1..][i] == items[i + 1];
    if !IsHole(items[0]) {
      SingleGroups(items[1..], k, vs, types);
    } else if k < |vs| {
      SingleGroups(items[1..], k + 1, vs, types);
      var t := types.AtIndex(k);
      assert t.Some? ==> t in types.types;
      assert HoleGroup(items[0], k, ListParams(vs), types) == Ok(Singles(vs, types)[k]);
      hide Groups, HoleGroup;
      var n := Arity(items[1..]);
      if k + 1 + n <= |vs| {
        assert [Singles(vs, types)[k]] + Singles(vs, types)[k + 1..k + 1 + n] == Singles(vs, types)[k..k + 1 + n];
      }
    }
  }

  lemma {:induction false} FlatSingles(vs: seq<Value>, types: Types, k: nat, n: nat)
    requires k + n <= |vs|
    ensures Flat(Singles(vs, types)[k..k + n])
         == SlotsOf(vs, NormalizePositionalTypes(|vs|, types))[k..k + n]
    decreases n
  {
    var gs := Singles(vs, types)[k..k + n];
    if n > 0 {
      FlatSingles(vs, types, k + 1, n - 1);
      assert gs[1..] == Singles(vs, types)[k + 1..k + 1 + (n - 1)];
      var slots := SlotsOf(vs, NormalizePositionalTypes(|vs|, types));
      assert [slots[k]] + slots[k + 1..k + n] == slots[k..k + n];
    }
  }

  ghost predicate AllSingle(gs: seq<seq<Slot>>) { forall i | 0 <= i < |gs| :: |gs[i]| == 1 }

  lemma {:induction false} RenderSingles(items: seq<Item>, gs: seq<seq<Slot>>)
    requires |gs| == Arity(items) && NoNames(items) && AllSingle(gs)
    ensures Render(items, ExpandedWords(gs), false) == TextOf(PiecesOf(items))
    ensures RenderedItems(items, ExpandedWords(gs)) == items
    decreases |items|
  {
    if items == [] {
      return;
    }
    var i, rest := items[0], items[1..];
    hide Render, RenderedItems, TextOf, ItemPieces;
    assert NoNames(rest) by { assert forall k | 0 <= k < |rest| :: rest[k] == items[k + 1]; }
    var hs := if IsHole(i) then gs[1..] else gs;
    assert IsHole(i) ==> ExpandedWord(gs[0]) == "?";
    assert WordItems("?") == [Question];
    assert PiecesOf(items) == ItemPieces(i) + PiecesOf(rest);
    hide WordItems, ExpandedWord, ExpandedWords, PiecesOf;
    RenderSingles(rest, hs);
    TextOfItem(i, PiecesOf(rest));
    RenderCons(items, gs);
  }

  lemma RenderCons(items: seq<Item>, gs: seq<seq<Slot>>)
    requires items != [] && |gs| == Arity(items)
    ensures var hs := if IsHole(items[0]) then gs[1..] else gs;
            var w := if IsHole(items[0]) then ExpandedWord(gs[0]) else "";
            && Render(items, ExpandedWords(gs), false)
               == NewWord(items[0], w, false) + Render(items[1..], ExpandedWords(hs), false)
            && RenderedItems(items, ExpandedWords(gs))
               == (if IsHole(items[0]) then WordItems(w) else [items[0]]) + RenderedItems(items[1..], ExpandedWords(hs))
  {
    if IsHole(items[0]) {
      assert ExpandedWords(gs)[1..] == ExpandedWords(gs[1..]);
    }
  }

  lemma TextOfItem(i: Item, ps: seq<Piece>)
    requires !i.Name?
    ensures TextOf(ItemPieces(i) + ps) == NewWord(i, "?", false) + TextOf(ps)
  {
    match i
    case Plain(c) => TextOfChs([c], ps); assert Chs([c]) == [Ch(c)];
    case Question => TextOfChs("?", ps); assert Chs("?") == [Ch('?')];
    case Escape => TextOfChs("??", ps); assert Chs("??") == [Ch('?'), Ch('?')];
    case Verbatim(t) =>
      if t != "" && t[0] == ':' {
        TextOfChs(t, ps);
      } else {
        assert ([Solid(t)] + ps)[1..] == ps;
      }
  }

  /** The text of a query without names, with single values, is unchanged by expansion. */
  lemma SinglesKeepText(sql: string, gs: seq<seq<Slot>>)
    requires |gs| == Arity(Items(MySql, sql)) && NoNames(Items(MySql, sql)) && AllSingle(gs)
    ensures Render(Items(MySql, sql), ExpandedWords(gs), false) == sql
  {
    hide Shape, Marks;
    ShapeSolids(MySql, "", sql);
    PiecesOfMarks(Shape(MySql, "", sql), false);
    RenderSingles(Items(MySql, sql), gs);
  }

  /** Full expansion, in terms of the groups of the query. */
  lemma FullExpansionIsRender(sql: string, params: Params, types: Types)
    ensures var items := Items(MySql, sql);
            match Groups(items, 0, params, types)
            case Err(x) => FullExpansion(sql, params, types) == Err(x)
            case Ok(gs) =>
              var r := FullExpansion(sql, params, types);
              && |gs| == Arity(items)
              && r.Ok? && r.value.sql == Render(items, ExpandedWords(gs), false)
              && SlotsOf(r.value.values, r.value.types) == Flat(gs)
  {
    ItemsAreTokens(MySql, sql);
    TokensAreNonempty(MySql, "", sql);
    hide Lex, Shape, Marks;
    var e := Expansion(0, "", [], map[]);
    FirstPassRenders(e, Lex(MySql, "", sql), params, types);
    assert SlotsOf([], map[]) == [];
  }

  lemma {:induction false} ShortcutGroupsAreSingle(items: seq<Item>, k: nat, vs: seq<Value>, types: Types)
    requires TakesShortcut(ListParams(vs), types)
    ensures var g := Groups(items, k, ListParams(vs), types); g.Ok? ==> |g.value| == Arity(items) && AllSingle(g.value)
    decreases |items|
  {
    if items != [] {
      ShortcutGroupsAreSingle(items[1..], k, vs, types);
      ShortcutGroupsAreSingle(items[1..], k + 1, vs, types);
      var t := types.AtIndex(k);
      assert t.Some? ==> t in types.types;
    }
  }

  function NameLength(items: seq<Item>): nat {
    if items == [] then 0 else (if items[0].Name? then |items[0].name| else 0) + NameLength(items[1..])
  }

  lemma {:induction false} NoLength(items: seq<Item>)
    requires NamesAreWords(items)
    ensures NameLength(items) == 0 <==> NoNames(items)
  {
    if items != [] {
      var rest := items[1..];
      assert forall i | 0 <= i < |rest| :: rest[i] == items[i + 1];
      NoLength(rest);
      assert NoNames(items) <==> !items[0].Name? && NoNames(rest) by {
        assert forall i | 0 < i < |items| :: items[i] == rest[i - 1];
      }
    }
  }

  /** A placeholder with one value is one character: every name makes the text shorter. */
  lemma {:induction false} NamesShorten(items: seq<Item>, gs: seq<seq<Slot>>)
    requires |gs| == Arity(items) && AllSingle(gs)
    ensures |Render(items, ExpandedWords(gs), false)| + NameLength(items) == |TextOf(PiecesOf(items))|
    decreases |items|
  {
    if items == [] {
      return;
    }
    var i, rest := items[0], items[1..];
    var hs := if IsHole(i) then gs[1..] else gs;
    NamesShorten(rest, hs);
    RenderCons(items, gs);
    hide Render, ExpandedWords;
    if i.Name? {
      TextOfChs(":" + i.name, PiecesOf(rest));
    } else {
      TextOfItem(i, PiecesOf(rest));
    }
  }

  /**
    * The shortcut gives what full expansion gives exactly when there are no names and every value
    * has its placeholder.
    */
  lemma ShortcutRefinesExpansion(sql: string, vs: seq<Value>, types: Types)
    requires TakesShortcut(ListParams(vs), types)
    ensures var short := ExpandedQuery(sql, ListParams(vs), types);
            var full := FullExpansion(sql, ListParams(vs), types);
            && short.Ok?
            && (&& full.Ok?
                && full.value.sql == short.value.sql
                && full.value.values == short.value.values
                && (forall i | 0 <= i < |vs| :: TypeAt(full.value.types, i) == TypeAt(short.value.types, i))
                <==> NoNames(Items(MySql, sql)) && Arity(Items(MySql, sql)) == |vs|)
  {
    if NoNames(Items(MySql, sql)) {
      ShortcutWithoutNames(sql, vs, types);
    } else {
      hide Items, Groups, Render, Arity, FullExpansion, NoNames, Lex;
      FullExpansionIsRender(sql, ListParams(vs), types);
      ShortcutGroupsAreSingle(Items(MySql, sql), 0, vs, types);
      var g := Groups(Items(MySql, sql), 0, ListParams(vs), types);
      if g.Ok? {
        NamesChangeText(sql, g.value);
      }
    }
  }

  lemma NamesChangeText(sql: string, gs: seq<seq<Slot>>)
    requires |gs| == Arity(Items(MySql, sql)) && AllSingle(gs) && !NoNames(Items(MySql, sql))
    ensures Render(Items(MySql, sql), ExpandedWords(gs), false) != sql
  {
    hide Shape, Marks, Render, NoNames;
    ShapeSolids(MySql, "", sql);
    PiecesOfMarks(Shape(MySql, "", sql), false);
    NamesOfMarks(Shape(MySql, "", sql), false);
    NamesShorten(Items(MySql, sql), gs);
    NoLength(Items(MySql, sql));
  }

  lemma ShortcutWithoutNames(sql: string, vs: seq<Value>, types: Types)
    requires TakesShortcut(ListParams(vs), types) && NoNames(Items(MySql, sql))
    ensures var short := ExpandedQuery(sql, ListParams(vs), types);
            var full := FullExpansion(sql, ListParams(vs), types);
            && (&& full.Ok?
                && full.value.sql == short.value.sql
                && full.value.values == short.value.values
                && (forall i | 0 <= i < |vs| :: TypeAt(full.value.types, i) == TypeAt(short.value.types, i))
                <==> Arity(Items(MySql, sql)) == |vs|)
  {
    hide Items, Groups, Render, Arity, Flat, FullExpansion, NoNames, Lex;
    var items := Items(MySql, sql);
    var n := Arity(items);
    SingleGroups(items, 0, vs, types);
    FullExpansionIsRender(sql, ListParams(vs), types);
    if n <= |vs| {
      var gs := Singles(vs, types)[0..n];
      SinglesKeepText(sql, gs);
      FlatSingles(vs, types, 0, n);
      var full := FullExpansion(sql, ListParams(vs), types).value;
      var slots := SlotsOf(vs, NormalizePositionalTypes(|vs|, types));
      assert SlotsOf(full.values, full.types) == slots[0..n];
      assert |full.values| == n;
      if n == |vs| {
        assert forall i | 0 <= i < |vs| :: SlotsOf(full.values, full.types)[i] == slots[i];
      }
    }
  }

  // ---------------------------------------------------------------------------------------
  // Meaning is kept
  // ---------------------------------------------------------------------------------------

  /**
    * The values each placeholder gets. Without expansion all placeholders, named ones too, take
    * the values of the list by position, and a record of types is not looked at.
    */
  function BoundGroups(items: seq<Item>, params: Params, types: Types): Result<seq<seq<Slot>>, Error> {
    if NeedsExpansion(params, types) then Groups(items, 0, params, types)
    else if Arity(items) <= |params.values| then Ok(Singles(params.values, types)[..Arity(items)])
    else Err(MissingPositional(|params.values|))
  }

  /** Without names and with a list of types these are the values the query asks for. */
  lemma BoundAsWritten(items: seq<Item>, params: Params, types: Types)
    requires NeedsExpansion(params, types) || (TakesShortcut(params, types) && NoNames(items))
    ensures BoundGroups(items, params, types) == Groups(items, 0, params, types)
  {
    if !NeedsExpansion(params, types) {
      SingleGroups(items, 0, params.values, types);
    }
  }

  lemma BoundPerHole(items: seq<Item>, params: Params, types: Types)
    ensures var g := BoundGroups(items, params, types); g.Ok? ==> |g.value| == Arity(items)
  {
    GroupPerHole(items, 0, params, types);
  }

  lemma {:induction false} SinglesAreBinds(style: Style, j: nat, gs: seq<seq<Slot>>)
    requires AllSingle(gs)
    ensures FinalWords(style, j, gs) == BindWords(style, j, |gs|)
    decreases |gs|
  {
    if gs != [] {
      SinglesAreBinds(style, j + 1, gs[1..]);
    }
  }

  lemma {:induction false} SinglesFit(items: seq<Item>, gs: seq<seq<Slot>>)
    requires |gs| == Arity(items) && AllSingle(gs)
    ensures ColonsFit(items, gs)
    decreases |items|
  {
    if items != [] {
      SinglesFit(items[1..], if IsHole(items[0]) then gs[1..] else gs);
    }
  }

  lemma {:induction false} BindsOfPrefix(style: Style, slots: seq<Slot>, n: nat, m: nat)
    requires m <= n <= |slots|
    ensures Binds(style, slots, m) == Binds(style, slots[..n], m)
    decreases m
  {
    if m > 0 {
      BindsOfPrefix(style, slots, n, m - 1);
    }
  }

  /** Too few values make the second pass fail where the first would have. */
  lemma {:induction false} SecondPassMisses(calls: seq<Token>, values: seq<Value>, types: map<nat, ScalarType>,
                                            c: Conversion)
    requires forall i | 0 <= i < |calls| :: calls[i].text != ""
    requires c.index <= |values| < c.index + Arity(FlattenAll(calls))
    ensures ConvertNamed(calls, values, types, c) == Err(MissingPositional(|values|))
    decreases |calls|
  {
    var items := FlattenAll(calls[1..]);
    match calls[0].kind
    case Other =>
      OtherIsText(calls[0], items, BindWords(MSSQL, 0, Arity(items)), true);
      SecondPassMisses(calls[1..], values, types, c.(sql := c.sql + calls[0].text));
    case EscapedQuestion =>
      EscapeRender(items, BindWords(MSSQL, 0, Arity(items)));
      assert FlattenAll(calls) == [Escape] + items;
      SecondPassMisses(calls[1..], values, types, c.(sql := c.sql + "?"));
    case _ =>
      var hole := HoleToken(calls[0]);
      BindWordsRender(MSSQL, hole, items, 0);
      if c.index < |values| {
        var name := "p" + Decimal(c.index + 1);
        SecondPassMisses(calls[1..], values, types,
                         Conversion(c.sql + "@" + name, c.binds[name := (values[c.index], TypeAt(types, c.index))],
                                    c.index + 1));
      }
  }

  /** The second pass of a named-binding driver over any text with enough values. */
  lemma NamedSecondPass(sql: string, values: seq<Value>, types: map<nat, ScalarType>, slots: seq<Slot>)
    requires |slots| == Arity(Items(MySql, sql)) <= |values| && SlotsOf(values, types)[..|slots|] == slots
    ensures var r := ConvertNamed(Lex(MySql, "", sql), values, types, Conversion("", map[], 0));
            && r.Ok?
            && r.value.sql == Render(Items(MySql, sql), BindWords(MSSQL, 0, |slots|), true)
            && r.value.binds == Binds(MSSQL, slots, |slots|)
  {
    ItemsAreTokens(MySql, sql);
    TokensAreNonempty(MySql, "", sql);
    hide Lex, Shape, Marks, Items, Render, BindWords, FlattenAll;
    SecondPassBinds(Lex(MySql, "", sql), values, types, Conversion("", map[], 0));
    BindsOfPrefix(MSSQL, SlotsOf(values, types), |slots|, |slots|);
  }

  /** Where the passes agree: placeholders stand clear, and empty arrays follow no colon. */
  predicate Clear(items: seq<Item>, params: Params, types: Types) {
    && Delimited(None, items)
    && var g := BoundGroups(items, params, types);
       g.Ok? && |g.value| == Arity(items) ==> ColonsFit(items, g.value)
  }

  /** With a value for every placeholder, the second pass over the query itself binds the first of them. */
  lemma DirectlyBound(sql: string, vs: seq<Value>, types: Types)
    requires Arity(Items(MySql, sql)) <= |vs|
    ensures var n := Arity(Items(MySql, sql));
            var gs := Singles(vs, types)[..n];
            var r := ConvertNamed(Lex(MySql, "", sql), vs, NormalizePositionalTypes(|vs|, types),
                                  Conversion("", map[], 0));
            && |gs| == n && r.Ok?
            && r.value.sql == Render(Items(MySql, sql), FinalWords(MSSQL, 0, gs), true)
            && r.value.binds == Binds(MSSQL, Flat(gs), |Flat(gs)|)
  {
    hide Lex, Shape, Marks, Items, Render, Arity, Flat, BindWords, FinalWords, Binds, SlotsOf, ConvertNamed;
    var n, ts := Arity(Items(MySql, sql)), NormalizePositionalTypes(|vs|, types);
    var gs := Singles(vs, types)[..n];
    assert gs == Singles(vs, types)[0..n];
    FlatSingles(vs, types, 0, n);
    SinglesAreBinds(MSSQL, 0, gs);
    FlatOfSingles(gs);
    assert SlotsOf(vs, ts)[0..n] == SlotsOf(vs, ts)[..n];
    NamedSecondPass(sql, vs, ts, Flat(gs));
  }

  /** With too few values the second pass misses the first one it does not find. */
  lemma DirectlyMissed(sql: string, vs: seq<Value>, types: map<nat, ScalarType>)
    requires |vs| < Arity(Items(MySql, sql))
    ensures ConvertNamed(Lex(MySql, "", sql), vs, types, Conversion("", map[], 0)) == Err(MissingPositional(|vs|))
  {
    ItemsAreTokens(MySql, sql);
    TokensAreNonempty(MySql, "", sql);
    hide Lex, Items, Arity, FlattenAll, ConvertNamed;
    SecondPassMisses(Lex(MySql, "", sql), vs, types, Conversion("", map[], 0));
  }

  /** Without expansion the second pass numbers the placeholders of the query itself. */
  lemma CompiledDirectly(sql: string, params: Params, types: Types)
    requires !NeedsExpansion(params, types)
    ensures var items := Items(MySql, sql);
            var r := CompiledNamedQuery(sql, params, types);
            match BoundGroups(items, params, types)
            case Err(x) => r == Err(x)
            case Ok(gs) =>
              && |gs| == Arity(items) && r.Ok?
              && r.value.sql == Render(items, FinalWords(MSSQL, 0, gs), true)
              && r.value.binds == Binds(MSSQL, Flat(gs), |Flat(gs)|)
  {
    hide Lex, Items, Render, Arity, Flat, FinalWords, Binds, ConvertNamed, Singles, NormalizePositionalTypes;
    var vs := params.values;
    if Arity(Items(MySql, sql)) <= |vs| {
      DirectlyBound(sql, vs, types);
    } else {
      DirectlyMissed(sql, vs, NormalizePositionalTypes(|vs|, types));
    }
  }

  lemma {:induction false} FlatOfSingles(gs: seq<seq<Slot>>)
    requires AllSingle(gs)
    ensures |Flat(gs)| == |gs|
  {
    if gs != [] {
      FlatOfSingles(gs[1..]);
    }
  }

  /** The compiled text and its binds, whichever way the first pass went. */
  lemma CompiledIsFinal(sql: string, params: Params, types: Types)
    requires Clear(Items(MySql, sql), params, types)
    ensures var items := Items(MySql, sql);
            var r := CompiledNamedQuery(sql, params, types);
            match BoundGroups(items, params, types)
            case Err(x) => r == Err(x)
            case Ok(gs) =>
              && |gs| == Arity(items) && r.Ok?
              && r.value.sql == Render(items, FinalWords(MSSQL, 0, gs), true)
              && r.value.binds == Binds(MSSQL, Flat(gs), |Flat(gs)|)
  {
    if !NeedsExpansion(params, types) {
      CompiledDirectly(sql, params, types);
    } else {
      FullExpansionIsRender(sql, params, types);
      hide Lex, Shape, Marks, Items, Groups, Render, Arity, Flat, BindWords, FinalWords, FullExpansion, Binds,
           Delimited, ExpandedWords, FlattenAll, ColonsFit, NeedsExpansion, RenderedItems;
      var items, mid := Items(MySql, sql), FullExpansion(sql, params, types);
      var g := Groups(items, 0, params, types);
      if g.Ok? {
        SecondPassSeesTheFirst(MySql, sql, g.value);
        RenderTwice(MSSQL, 0, items, g.value);
        var slots := SlotsOf(mid.value.values, mid.value.types);
        assert slots[..|slots|] == slots;
        NamedSecondPass(mid.value.sql, mid.value.values, mid.value.types, Flat(g.value));
      }
    }
  }

  /**
    * A compiled query with named bindings means the query with the bound values in place exactly
    * when no bind is written into a name and the query's own text names no bind. Errors are the
    * same too.
    */
  lemma NamedCompilationKeepsMeaning(sql: string, params: Params, types: Types)
    requires Clear(Items(MySql, sql), params, types)
    ensures var items := Items(MySql, sql);
            var r := CompiledNamedQuery(sql, params, types);
            match BoundGroups(items, params, types)
            case Err(x) => r == Err(x)
            case Ok(gs) =>
              && |gs| == Arity(items)
              && r.Ok?
              && (Read(MSSQL, false, Shape(MySql, "", r.value.sql), r.value.binds) == Substitute(items, gs)
                  <==> Apart(false, items, gs) && Unclaimed(MSSQL, |Flat(gs)|, false, items, gs))
  {
    CompiledIsFinal(sql, params, types);
    hide Lex, Shape, Marks, Items, Groups, Render, Arity, Flat, FinalWords, Read, Binds, Substitute, Delimited, Apart,
         Unclaimed, CompiledNamedQuery, BoundGroups, ColonsFit;
    var items := Items(MySql, sql);
    var g := BoundGroups(items, params, types);
    if g.Ok? {
      assert Flat(g.value)[..|Flat(g.value)|] == Flat(g.value);
      FinalTextReadsBack(MySql, MSSQL, sql, g.value, Flat(g.value));
    }
  }

  // ---------------------------------------------------------------------------------------
  // The types of array elements
  // ---------------------------------------------------------------------------------------

  function Positionals(items: seq<Item>): nat {
    if items == [] then 0 else (if items[0].Question? then 1 else 0) + Positionals(items[1..])
  }

  /** The values of the placeholder at i. */
  lemma {:induction false} GroupAt(items: seq<Item>, k: nat, params: Params, types: Types, i: nat)
    requires i < |items| && IsHole(items[i]) && Groups(items, k, params, types).Ok?
    ensures var gs, h := Groups(items, k, params, types).value, Arity(items[..i]);
            h < |gs| && HoleGroup(items[i], k + Positionals(items[..i]), params, types) == Ok(gs[h])
    decreases |items|
  {
    hide HoleGroup;
    if i > 0 {
      assert items[..i][0] == items[0] && items[..i][1..] == items[1..][..i - 1];
      GroupAt(items[1..], if items[0].Question? then k + 1 else k, params, types, i - 1);
    } else {
      assert items[..0] == [];
    }
  }

  lemma {:induction false} FlatAt(gs: seq<seq<Slot>>, h: nat, j: nat)
    requires h < |gs| && j < |gs[h]|
    ensures |Flat(gs[..h])| + j < |Flat(gs)| && Flat(gs)[|Flat(gs[..h])| + j] == gs[h][j]
    decreases h
  {
    if h > 0 {
      assert gs[..h][0] == gs[0] && gs[..h][1..] == gs[1..][..h - 1];
      FlatAt(gs[1..], h - 1, j);
    } else {
      assert gs[..0] == [];
    }
  }

  /** The number of values bound before the placeholder at i. */
  function BoundBefore(items: seq<Item>, gs: seq<seq<Slot>>, i: nat): nat
    requires i <= |items|
  {
    var h := Arity(items[..i]);
    if h <= |gs| then |Flat(gs[..h])| else 0
  }

  lemma SlotIsBound(slots: seq<Slot>, n: nat)
    requires n < |slots|
    ensures ("p" + Decimal(n + 1)) in Binds(MSSQL, slots, |slots|)
    ensures Binds(MSSQL, slots, |slots|)["p" + Decimal(n + 1)] == slots[n]
  {
    BindsHold(MSSQL, slots, |slots|);
    assert BindName(MSSQL, n + 1) == "p" + Decimal(n + 1);
  }

  /** The caller gives an array of the type for the placeholder at i. */
  predicate GivesArray(items: seq<Item>, params: Params, types: Types, i: nat, vs: seq<Value>, a: ArrayType) {
    && i < |items| && IsHole(items[i])
    && Given(items[i], Positionals(items[..i]), params) == Some(Array(vs))
    && GivenType(items[i], Positionals(items[..i]), types) == Some(Many(a))
  }

  /** The value with the scalar type that belongs to the array type. */
  predicate IsElement(a: ArrayType, v: Value, slot: Slot) {
    && (a == IntegerArray ==> slot == (v, Integer))
    && (a == StringArray ==> slot == (v, String))
    && (a == AsciiArray ==> slot == (v, Ascii))
    && (a == BinaryArray ==> slot == (v, Binary))
  }

  lemma ElementAt(items: seq<Item>, params: Params, types: Types, i: nat, vs: seq<Value>, a: ArrayType, j: nat)
    requires GivesArray(items, params, types, i, vs, a) && j < |vs| && Groups(items, 0, params, types).Ok?
    ensures var gs := Groups(items, 0, params, types).value;
            var n := BoundBefore(items, gs, i) + j;
            n < |Flat(gs)| && IsElement(a, vs[j], Flat(gs)[n])
  {
    GroupAt(items, 0, params, types, i);
    hide Groups, Given, GivenType, Flat, Arity;
    var gs, h := Groups(items, 0, params, types).value, Arity(items[..i]);
    FlatAt(gs, h, j);
  }

  /** Every element of an array is expanded to a value of its own, with the type that belongs to the array's. */
  lemma ArrayElementsAreExpanded(sql: string, params: Params, types: Types, i: nat, vs: seq<Value>, a: ArrayType,
                                 j: nat)
    requires Groups(Items(MySql, sql), 0, params, types).Ok? && NeedsExpansion(params, types)
    requires GivesArray(Items(MySql, sql), params, types, i, vs, a) && j < |vs|
    ensures var items, expanded := Items(MySql, sql), ExpandedQuery(sql, params, types);
            var n := BoundBefore(items, Groups(items, 0, params, types).value, i) + j;
            && expanded.Ok? && n < |expanded.value.values|
            && IsElement(a, vs[j], (expanded.value.values[n], TypeAt(expanded.value.types, n)))
  {
    FullExpansionIsRender(sql, params, types);
    hide Lex, Items, Groups, Render, FullExpansion, GivesArray, Flat, IsElement, BoundBefore, ExpandedWords, Arity,
         TypeAt;
    ElementAt(Items(MySql, sql), params, types, i, vs, a, j);
  }

  /** And it is bound under a name of its own. */
  lemma ArrayElementsAreBound(sql: string, params: Params, types: Types, i: nat, vs: seq<Value>, a: ArrayType, j: nat)
    requires Groups(Items(MySql, sql), 0, params, types).Ok? && NeedsExpansion(params, types)
    requires GivesArray(Items(MySql, sql), params, types, i, vs, a) && j < |vs|
    requires Clear(Items(MySql, sql), params, types)
    ensures var items, compiled := Items(MySql, sql), CompiledNamedQuery(sql, params, types);
            var name := "p" + Decimal(BoundBefore(items, Groups(items, 0, params, types).value, i) + j + 1);
            && compiled.Ok? && name in compiled.value.binds
            && IsElement(a, vs[j], compiled.value.binds[name])
  {
    var items := Items(MySql, sql);
    CompiledBinds(sql, params, types);
    hide *;
    var gs := Groups(items, 0, params, types).value;
    ElementAt(items, params, types, i, vs, a, j);
    SlotIsBound(Flat(gs), BoundBefore(items, gs, i) + j);
  }

  /** Behind a full expansion every value is bound. */
  lemma CompiledBinds(sql: string, params: Params, types: Types)
    requires Groups(Items(MySql, sql), 0, params, types).Ok? && NeedsExpansion(params, types)
    requires Clear(Items(MySql, sql), params, types)
    ensures var slots := Flat(Groups(Items(MySql, sql), 0, params, types).value);
            var compiled := CompiledNamedQuery(sql, params, types);
            compiled.Ok? && compiled.value.binds == Binds(MSSQL, slots, |slots|)
  {
    hide Lex, Items, Groups, Render, FinalWords, CompiledNamedQuery, Clear, Flat, Binds, Arity, NeedsExpansion;
    CompiledIsFinal(sql, params, types);
  }
}
