/** Each compiler pass renders the items of its input with one word per placeholder. */
module QueryPasses {
  import opened Text
  import opened SqlLexer
  import opened SqlRewriting
  import opened QueryCompiler
  import opened QueryMeaning

  function SlotsOf(values: seq<Value>, types: map<nat, ScalarType>): (r: seq<Slot>)
    ensures |r| == |values| && forall i | 0 <= i < |values| :: r[i] == (values[i], TypeAt(types, i))
  {
    seq(|values|, i requires 0 <= i < |values| => (values[i], TypeAt(types, i)))
  }

  // ---------------------------------------------------------------------------------------
  // Text that is no placeholder
  // ---------------------------------------------------------------------------------------

  lemma {:induction false} PlainsAreText(w: string, items: seq<Item>)
    ensures Arity(Plains(w) + items) == Arity(items)
    decreases |w|
  {
    if w == "" {
      assert Plains(w) + items == items;
    } else {
      assert (Plains(w) + items)[1..] == Plains(w[1..]) + items;
      PlainsAreText(w[1..], items);
    }
  }

  lemma RenderPlain(c: char, items: seq<Item>, ws: seq<string>, unescape: bool)
    requires |ws| == Arity(items)
    ensures Arity([Plain(c)] + items) == |ws|
    ensures Render([Plain(c)] + items, ws, unescape) == [c] + Render(items, ws, unescape)
  {
    assert ([Plain(c)] + items)[1..] == items;
  }

  lemma {:induction false} RenderPlains(w: string, items: seq<Item>, ws: seq<string>, unescape: bool)
    requires Arity(Plains(w) + items) == Arity(items) == |ws|
    ensures Render(Plains(w) + items, ws, unescape) == w + Render(items, ws, unescape)
    decreases |w|
  {
    hide Render, Arity;
    if w == "" {
      assert Plains(w) + items == items;
    } else {
      var rest := Plains(w[1..]) + items;
      assert Plains(w) + items == [Plain(w[0])] + rest;
      PlainsAreText(w[1..], items);
      RenderPlain(w[0], rest, ws, unescape);
      RenderPlains(w[1..], items, ws, unescape);
      assert w == [w[0]] + w[1..];
    }
  }

  lemma {:induction false} GroupsPlains(w: string, items: seq<Item>, k: nat, params: Params, types: Types)
    ensures Groups(Plains(w) + items, k, params, types) == Groups(items, k, params, types)
    decreases |w|
  {
    if w == "" {
      assert Plains(w) + items == items;
    } else {
      var all := Plains(w) + items;
      assert all[0] == Plain(w[0]) && all[1..] == Plains(w[1..]) + items;
      GroupsPlains(w[1..], items, k, params, types);
    }
  }

  /** An Other token is its text. */
  lemma OtherIsText(t: Token, items: seq<Item>, ws: seq<string>, unescape: bool)
    requires t.kind == Other && |ws| == Arity(items)
    ensures var all := Flatten(t) + items;
            && Arity(all) == |ws|
            && Render(all, ws, unescape) == t.text + Render(items, ws, unescape)
  {
    if |t.text| >= 2 && IsSpecial(t.text[0]) {
      assert ([Verbatim(t.text)] + items)[1..] == items;
    } else {
      PlainsAreText(t.text, items);
      RenderPlains(t.text, items, ws, unescape);
    }
  }

  lemma OtherHasNoGroup(t: Token, items: seq<Item>, k: nat, params: Params, types: Types)
    requires t.kind == Other
    ensures Groups(Flatten(t) + items, k, params, types) == Groups(items, k, params, types)
  {
    if |t.text| >= 2 && IsSpecial(t.text[0]) {
      assert ([Verbatim(t.text)] + items)[1..] == items;
    } else {
      GroupsPlains(t.text, items, k, params, types);
    }
  }

  lemma {:induction false} GroupPerHole(items: seq<Item>, k: nat, params: Params, types: Types)
    ensures var r := Groups(items, k, params, types); r.Ok? ==> |r.value| == Arity(items)
    decreases |items|
  {
    if items != [] {
      GroupPerHole(items[1..], k, params, types);
      GroupPerHole(items[1..], k + 1, params, types);
    }
  }

  // ---------------------------------------------------------------------------------------
  // First pass
  // ---------------------------------------------------------------------------------------

  lemma AppendTypedSlots(e: Expansion, vs: seq<Value>, t: ScalarType)
    requires e.Valid() && vs != []
    ensures var r := e.AppendTyped(vs, t);
            && r.Valid()
            && SlotsOf(r.values, r.types)
               == SlotsOf(e.values, e.types) + seq(|vs|, i requires 0 <= i < |vs| => (vs[i], t))
  {
    var r := e.AppendTyped(vs, t);
    var was, now := SlotsOf(e.values, e.types), SlotsOf(r.values, r.types);
    forall i | 0 <= i < |now|
      ensures now[i] == if i < |was| then was[i] else (vs[i - |was|], t)
    {
    }
  }

  lemma AcceptParameterIsGroup(e: Expansion, value: Value, t: Option<ParamType>)
    requires e.Valid()
    ensures match Group(value, t)
            case Err(x) => e.AcceptParameter(value, t) == Err(x)
            case Ok(g) =>
              var r := e.AcceptParameter(value, t);
              && r.Ok? && r.value.Valid() && r.value.index == e.index
              && r.value.sql == e.sql + ExpandedWord(g)
              && SlotsOf(r.value.values, r.value.types) == SlotsOf(e.values, e.types) + g
  {
    match t
    case None =>
      assert SlotsOf(e.values + [value], e.types) == SlotsOf(e.values, e.types) + [(value, String)];
    case Some(One(scalar)) =>
      AppendTypedSlots(e, [value], scalar);
      assert seq(1, i requires 0 <= i < 1 => ([value][i], scalar)) == [(value, scalar)];
    case Some(Many(a)) =>
      var vs, g := value.Elements(), Group(value, t);
      if vs.Some? {
        assert forall v :: Element(a, v) == (v, ToElementParameterType(a));
        assert g.value == seq(|vs.value|, i requires 0 <= i < |vs.value| => (vs.value[i], ToElementParameterType(a)));
        if vs.value != [] {
          AppendTypedSlots(e, vs.value, ToElementParameterType(a));
        }
      }
  }

  lemma {:induction false} NumberedAt(vs: seq<Value>, name: string, i: nat, j: nat)
    requires i <= j <= |vs| && forall k | i <= k < j :: Decimal(k) != name
    ensures Params.AtNumeral(vs[..j], name, i).None?
    ensures j < |vs| && Decimal(j) == name ==> Params.AtNumeral(vs, name, i) == Some(vs[j])
    ensures j == |vs| ==> Params.AtNumeral(vs, name, i).None?
    decreases j - i
  {
    assert j == |vs| ==> vs[..j] == vs;
    if i < j {
      NumberedAt(vs, name, i + 1, j);
    }
  }

  lemma {:induction false} NumberedIs(vs: seq<Value>, name: string, n: nat)
    requires n <= |vs|
    ensures var r := Numbered(vs[..n], name);
            if r.None? then forall k | 0 <= k < n :: Decimal(k) != name
            else exists k | 0 <= k < n :: Decimal(k) == name && r == Some(vs[k])
  {
    if n > 0 {
      assert vs[..n][..n - 1] == vs[..n - 1];
      NumberedIs(vs, name, n - 1);
    }
  }

  /** Looking a name up in a list, from the first index or from the last. */
  lemma NumberedIsAtNumeral(vs: seq<Value>, name: string)
    ensures Numbered(vs, name) == Params.AtNumeral(vs, name, 0)
  {
    assert vs[..|vs|] == vs;
    NumberedIs(vs, name, |vs|);
    if Numbered(vs, name).None? {
      NumberedAt(vs, name, 0, |vs|);
    } else {
      var k :| 0 <= k < |vs| && Decimal(k) == name && Numbered(vs, name) == Some(vs[k]);
      forall j | 0 <= j < k
        ensures Decimal(j) != name
      {
        if Decimal(j) == name {
          DecimalInjective(j, k);
        }
      }
      NumberedAt(vs, name, 0, k);
    }
  }

  lemma GivenIsAt(item: Item, k: nat, params: Params, types: Types)
    requires IsHole(item)
    ensures Given(item, k, params)
         == match item case Question => params.AtIndex(k) case Name(name) => params.AtName(name)
    ensures GivenType(item, k, types)
         == match item case Question => types.AtIndex(k) case Name(name) => types.AtName(name)
  {
    if params.ListParams? && item.Name? {
      NumberedIsAtNumeral(params.values, item.name);
    }
  }

  /** Walking the calls from state e renders their items and appends their groups. */
  ghost predicate Renders(e: Expansion, ts: seq<Token>, params: Params, types: Types) {
    var r := e.AcceptAll(ts, params, types);
    var items := FlattenAll(ts);
    match Groups(items, e.index, params, types)
    case Err(x) => r == Err(x)
    case Ok(gs) =>
      && |gs| == Arity(items)
      && r.Ok?
      && r.value.sql == e.sql + Render(items, ExpandedWords(gs), false)
      && SlotsOf(r.value.values, r.value.types) == SlotsOf(e.values, e.types) + Flat(gs)
  }

  lemma AcceptText(e: Expansion, ts: seq<Token>, params: Params, types: Types)
    requires ts != [] && ts[0].kind == Other
    requires Renders(e.(sql := e.sql + ts[0].text), ts[1..], params, types)
    ensures Renders(e, ts, params, types)
  {
    var items := FlattenAll(ts[1..]);
    assert FlattenAll(ts) == Flatten(ts[0]) + items;
    hide FlattenAll, Flatten, Groups, Render;
    OtherHasNoGroup(ts[0], items, e.index, params, types);
    GroupPerHole(items, e.index, params, types);
    var g := Groups(items, e.index, params, types);
    if g.Ok? {
      OtherIsText(ts[0], items, ExpandedWords(g.value), false);
      Assoc3(e.sql, ts[0].text, Render(items, ExpandedWords(g.value), false));
    }
  }

  lemma AcceptEscape(e: Expansion, ts: seq<Token>, params: Params, types: Types)
    requires ts != [] && ts[0].kind == EscapedQuestion
    requires Renders(e.(sql := e.sql + "??"), ts[1..], params, types)
    ensures Renders(e, ts, params, types)
  {
    var items := FlattenAll(ts[1..]);
    assert FlattenAll(ts) == [Escape] + items;
    GroupsOfEscape(items, e.index, params, types);
    GroupPerHole(items, e.index, params, types);
    hide Groups, FlattenAll;
    var g := Groups(items, e.index, params, types);
    if g.Ok? {
      EscapeKept(items, ExpandedWords(g.value));
      Assoc3(e.sql, "??", Render(items, ExpandedWords(g.value), false));
    }
  }

  lemma GroupsOfEscape(items: seq<Item>, k: nat, params: Params, types: Types)
    ensures Groups([Escape] + items, k, params, types) == Groups(items, k, params, types)
  {
    assert ([Escape] + items)[1..] == items;
  }

  lemma EscapeKept(items: seq<Item>, ws: seq<string>)
    requires |ws| == Arity(items)
    ensures Arity([Escape] + items) == |ws|
    ensures Render([Escape] + items, ws, false) == "??" + Render(items, ws, false)
  {
    assert ([Escape] + items)[1..] == items;
  }

  lemma HoleStep(e: Expansion, ts: seq<Token>, params: Params, types: Types) returns (hole: Item)
    requires e.Valid() && ts != [] && IsParameter(ts[0]) && ts[0].text != ""
    ensures IsHole(hole) && FlattenAll(ts) == [hole] + FlattenAll(ts[1..])
    ensures var r := e.Accept(ts[0], params, types);
            && e.AcceptAll(ts, params, types)
               == (if r.Err? then Err(r.error) else r.value.AcceptAll(ts[1..], params, types))
            && match HoleGroup(hole, e.index, params, types)
               case Err(x) => r == Err(x)
               case Ok(g) =>
                 && r.Ok?
                 && r.value.index == (if hole.Question? then e.index + 1 else e.index)
                 && r.value.sql == e.sql + ExpandedWord(g)
                 && SlotsOf(r.value.values, r.value.types) == SlotsOf(e.values, e.types) + g
  {
    hole := Flatten(ts[0])[0];
    HoleIsGroup(e, ts[0], params, types);
  }

  lemma AcceptHole(e: Expansion, ts: seq<Token>, params: Params, types: Types)
    requires e.Valid() && ts != [] && IsParameter(ts[0]) && ts[0].text != ""
    requires e.Accept(ts[0], params, types).Ok? ==>
               Renders(e.Accept(ts[0], params, types).value, ts[1..], params, types)
    ensures Renders(e, ts, params, types)
  {
    hide HoleGroup, Flatten, FlattenAll, Groups, Arity, Render, Flat, ExpandedWords, SlotsOf, ExpandedWord;
    hide Expansion.AcceptAll, Expansion.Accept, Expansion.AcceptParameter;
    var hole := HoleStep(e, ts, params, types);
    var items := FlattenAll(ts[1..]);
    GroupsCons(hole, items, e.index, params, types);
    var g := HoleGroup(hole, e.index, params, types);
    if g.Ok? {
      var r := e.Accept(ts[0], params, types);
      var rest := Groups(items, r.value.index, params, types);
      if rest.Ok? {
        RenderHole(hole, items, g.value, rest.value, e.sql);
        var was := SlotsOf(e.values, e.types);
        assert was + g.value + Flat(rest.value) == was + (g.value + Flat(rest.value));
      }
    }
  }

  lemma GroupsCons(hole: Item, items: seq<Item>, k: nat, params: Params, types: Types)
    requires IsHole(hole)
    ensures var g := HoleGroup(hole, k, params, types);
            var rest := Groups(items, if hole.Question? then k + 1 else k, params, types);
            Groups([hole] + items, k, params, types) ==
            if g.Err? then Err(g.error) else if rest.Err? then Err(rest.error) else Ok([g.value] + rest.value)
  {
    assert ([hole] + items)[1..] == items;
  }

  lemma RenderHole(hole: Item, items: seq<Item>, g: seq<Slot>, gs: seq<seq<Slot>>, text: string)
    requires IsHole(hole) && |gs| == Arity(items)
    ensures Arity([hole] + items) == |[g] + gs|
    ensures text + Render([hole] + items, ExpandedWords([g] + gs), false)
         == text + ExpandedWord(g) + Render(items, ExpandedWords(gs), false)
    ensures Flat([g] + gs) == g + Flat(gs)
  {
    assert ([hole] + items)[1..] == items && ([g] + gs)[1..] == gs;
    assert ExpandedWords([g] + gs)[1..] == ExpandedWords(gs);
  }

  lemma HoleIsGroup(e: Expansion, t: Token, params: Params, types: Types)
    requires e.Valid() && IsParameter(t) && t.text != ""
    ensures Flatten(t) == [Flatten(t)[0]] && IsHole(Flatten(t)[0])
    ensures var hole := Flatten(t)[0];
            match HoleGroup(hole, e.index, params, types)
            case Err(x) => e.Accept(t, params, types) == Err(x)
            case Ok(g) =>
              var r := e.Accept(t, params, types);
              && r.Ok? && r.value.Valid()
              && r.value.index == (if hole.Question? then e.index + 1 else e.index)
              && r.value.sql == e.sql + ExpandedWord(g)
              && SlotsOf(r.value.values, r.value.types) == SlotsOf(e.values, e.types) + g
  {
    GivenIsAt(Flatten(t)[0], e.index, params, types);
    hide Given, GivenType, Group;
    if t.kind == Positional {
      var v := params.AtIndex(e.index);
      if v.Some? {
        AcceptParameterIsGroup(e, v.value, types.AtIndex(e.index));
      }
    } else {
      var v := params.AtName(t.text[1..]);
      if v.Some? {
        AcceptParameterIsGroup(e, v.value, types.AtName(t.text[1..]));
      }
    }
  }

  /** The whole first pass: its text and its typed values are those of the groups. */
  lemma {:induction false} FirstPassRenders(e: Expansion, ts: seq<Token>, params: Params, types: Types)
    requires e.Valid() && forall i | 0 <= i < |ts| :: ts[i].text != ""
    ensures Renders(e, ts, params, types)
    decreases |ts|
  {
    if ts == [] {
      return;
    }
    hide Renders;
    match ts[0].kind
    case Other =>
      FirstPassRenders(e.(sql := e.sql + ts[0].text), ts[1..], params, types);
      AcceptText(e, ts, params, types);
    case EscapedQuestion =>
      FirstPassRenders(e.(sql := e.sql + "??"), ts[1..], params, types);
      AcceptEscape(e, ts, params, types);
    case _ =>
      HoleIsGroup(e, ts[0], params, types);
      var r := e.Accept(ts[0], params, types);
      if r.Ok? {
        FirstPassRenders(r.value, ts[1..], params, types);
      }
      AcceptHole(e, ts, params, types);
  }

  // ---------------------------------------------------------------------------------------
  // Second pass
  // ---------------------------------------------------------------------------------------

  ghost predicate BindsNamed(calls: seq<Token>, values: seq<Value>, types: map<nat, ScalarType>, c: Conversion) {
    var items := FlattenAll(calls);
    var slots := SlotsOf(values, types);
    var n := Arity(items);
    c.index + n <= |values| && c.binds == Binds(MSSQL, slots, c.index) ==>
      ConvertNamed(calls, values, types, c)
      == Ok(Conversion(c.sql + Render(items, BindWords(MSSQL, c.index, n), true),
                       Binds(MSSQL, slots, c.index + n), c.index + n))
  }

  lemma NamedText(calls: seq<Token>, values: seq<Value>, types: map<nat, ScalarType>, c: Conversion)
    requires calls != [] && calls[0].kind == Other
    requires BindsNamed(calls[1..], values, types, c.(sql := c.sql + calls[0].text))
    ensures BindsNamed(calls, values, types, c)
  {
    var items := FlattenAll(calls[1..]);
    var ws := BindWords(MSSQL, c.index, Arity(items));
    OtherIsText(calls[0], items, ws, true);
    assert FlattenAll(calls) == Flatten(calls[0]) + items;
    hide Arity, Render, BindWords, FlattenAll, Flatten, SlotsOf, Binds;
    Assoc3(c.sql, calls[0].text, Render(items, ws, true));
  }

  lemma NamedEscape(calls: seq<Token>, values: seq<Value>, types: map<nat, ScalarType>, c: Conversion)
    requires calls != [] && calls[0].kind == EscapedQuestion
    requires BindsNamed(calls[1..], values, types, c.(sql := c.sql + "?"))
    ensures BindsNamed(calls, values, types, c)
  {
    var items := FlattenAll(calls[1..]);
    var ws := BindWords(MSSQL, c.index, Arity(items));
    EscapeRender(items, ws);
    assert FlattenAll(calls) == [Escape] + items;
    hide Arity, Render, BindWords, FlattenAll, SlotsOf, Binds;
    Assoc3(c.sql, "?", Render(items, ws, true));
  }

  lemma EscapeRender(items: seq<Item>, ws: seq<string>)
    requires |ws| == Arity(items)
    ensures Arity([Escape] + items) == |ws|
    ensures Render([Escape] + items, ws, true) == "?" + Render(items, ws, true)
  {
    assert ([Escape] + items)[1..] == items;
  }

  lemma NamedHole(calls: seq<Token>, values: seq<Value>, types: map<nat, ScalarType>, c: Conversion)
    requires calls != [] && IsParameter(calls[0]) && calls[0].text != ""
    requires c.index < |values| ==>
               var name := "p" + Decimal(c.index + 1);
               BindsNamed(calls[1..], values, types,
                          Conversion(c.sql + "@" + name, c.binds[name := (values[c.index], TypeAt(types, c.index))],
                                     c.index + 1))
    ensures BindsNamed(calls, values, types, c)
  {
    hide Arity, Render, BindWords, Flatten;
    var items := FlattenAll(calls[1..]);
    var hole := HoleToken(calls[0]);
    assert FlattenAll(calls) == [hole] + items;
    BindWordsRender(MSSQL, hole, items, c.index);
    hide FlattenAll;
    var n := Arity(items);
    Assoc(c.sql, "@", BindName(MSSQL, c.index + 1), Render(items, BindWords(MSSQL, c.index + 1, n), true));
  }

  lemma HoleToken(t: Token) returns (hole: Item)
    requires IsParameter(t) && t.text != ""
    ensures IsHole(hole) && Flatten(t) == [hole]
  {
    hole := Flatten(t)[0];
  }

  lemma {:induction false} SecondPassBinds(calls: seq<Token>, values: seq<Value>, types: map<nat, ScalarType>,
                                           c: Conversion)
    requires forall i | 0 <= i < |calls| :: calls[i].text != ""
    ensures BindsNamed(calls, values, types, c)
    decreases |calls|
  {
    if calls == [] {
      assert c.sql + "" == c.sql;
      return;
    }
    hide BindsNamed;
    match calls[0].kind
    case Other =>
      SecondPassBinds(calls[1..], values, types, c.(sql := c.sql + calls[0].text));
      NamedText(calls, values, types, c);
    case EscapedQuestion =>
      SecondPassBinds(calls[1..], values, types, c.(sql := c.sql + "?"));
      NamedEscape(calls, values, types, c);
    case _ =>
      if c.index < |values| {
        var name := "p" + Decimal(c.index + 1);
        SecondPassBinds(calls[1..], values, types,
                        Conversion(c.sql + "@" + name, c.binds[name := (values[c.index], TypeAt(types, c.index))],
                                   c.index + 1));
      }
      NamedHole(calls, values, types, c);
  }

  lemma Assoc(a: string, b: string, c: string, d: string)
    ensures a + b + c + d == a + ((b + c) + d)
  {
  }

  lemma Assoc3(a: string, b: string, c: string)
    ensures a + b + c == a + (b + c)
  {
  }

  lemma BindWordsRender(style: Style, hole: Item, items: seq<Item>, j: nat)
    requires IsHole(hole)
    ensures Arity([hole] + items) == 1 + Arity(items)
    ensures Render([hole] + items, BindWords(style, j, 1 + Arity(items)), true)
         == Bind(style, j + 1) + Render(items, BindWords(style, j + 1, Arity(items)), true)
  {
    assert ([hole] + items)[1..] == items;
    var ws := BindWords(style, j, 1 + Arity(items));
    assert ws[1..] == BindWords(style, j + 1, Arity(items));
  }

  lemma {:induction false} PgPassBinds(calls: seq<Token>, text: string, j: nat)
    requires forall i | 0 <= i < |calls| :: calls[i].text != "" && calls[i].kind != Named
    ensures var items := FlattenAll(calls);
            ConvertPg(calls, text, j) == Ok(text + Render(items, BindWords(PG, j, Arity(items)), true))
    decreases |calls|
  {
    if calls != [] {
      var items := FlattenAll(calls[1..]);
      match calls[0].kind
      case Other =>
        PgPassBinds(calls[1..], text + calls[0].text, j);
        OtherIsText(calls[0], items, BindWords(PG, j, Arity(items)), true);
        Assoc3(text, calls[0].text, Render(items, BindWords(PG, j, Arity(items)), true));
      case EscapedQuestion =>
        PgPassBinds(calls[1..], text + "?", j);
        EscapeRender(items, BindWords(PG, j, Arity(items)));
        assert FlattenAll(calls) == [Escape] + items;
        Assoc3(text, "?", Render(items, BindWords(PG, j, Arity(items)), true));
      case Positional =>
        PgPassBinds(calls[1..], text + "$" + Decimal(j + 1), j + 1);
        BindWordsRender(PG, Question, items, j);
        assert BindName(PG, j + 1) == Decimal(j + 1);
        Assoc(text, "$", Decimal(j + 1), Render(items, BindWords(PG, j + 1, Arity(items)), true));
    } else {
      assert text + "" == text;
    }
  }
}
