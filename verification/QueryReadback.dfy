/** Reading the binds back out of the compiled text gives the values of the query. */
module QueryReadback {
  import opened Text
  import opened SqlLexer
  import opened SqlRewriting
  import opened QueryCompiler
  import opened QueryMeaning
  import opened QueryPasses
  import opened QueryCorrectness

  // ---------------------------------------------------------------------------------------
  // Two renderings in a row are one
  // ---------------------------------------------------------------------------------------

  lemma PlaceholdersAreItems(n: nat)
    requires n > 1
    ensures WordItems(Placeholders(n)) == [Question] + ([Plain(',')] + ([Plain(' ')] + WordItems(Placeholders(n - 1))))
  {
    var p := Placeholders(n - 1);
    assert Placeholders(n) == ['?', ',', ' '] + p;
  }

  ghost predicate RendersList(style: Style, j: nat, n: nat, items: seq<Item>)
    requires n > 0
  {
    var all := WordItems(Placeholders(n)) + items;
    && Arity(all) == n + Arity(items)
    && Render(all, BindWords(style, j, n + Arity(items)), true)
       == BindList(style, j, n) + Render(items, BindWords(style, j + n, Arity(items)), true)
  }

  lemma RenderNext(style: Style, j: nat, n: nat, items: seq<Item>)
    requires n > 1 && RendersList(style, j + 1, n - 1, items)
    ensures RendersList(style, j, n, items)
  {
    hide Render, Arity, BindWords, Placeholders, WordItems;
    var m := Arity(items);
    var tail := WordItems(Placeholders(n - 1)) + items;
    var a := [Plain(' ')] + tail;
    var b := [Plain(',')] + a;
    var ws := BindWords(style, j + 1, n - 1 + m);
    RenderPlain(' ', tail, ws, true);
    RenderPlain(',', a, ws, true);
    BindWordsRender(style, Question, b, j);
    PlaceholdersAreItems(n);
    assert WordItems(Placeholders(n)) + items == [Question] + b;
    ListText(Bind(style, j + 1), BindList(style, j + 1, n - 1), Render(items, BindWords(style, j + n, m), true));
  }

  lemma ListText(a: string, l: string, r: string)
    ensures a + ([','] + ([' '] + (l + r))) == a + ", " + l + r
  {
  }

  lemma {:induction false} RenderPlaceholders(style: Style, j: nat, n: nat, items: seq<Item>)
    requires n > 0
    ensures RendersList(style, j, n, items)
    decreases n
  {
    if n == 1 {
      assert WordItems(Placeholders(1)) == [Question];
      BindWordsRender(style, Question, items, j);
    } else {
      RenderPlaceholders(style, j + 1, n - 1, items);
      RenderNext(style, j, n, items);
    }
  }

  lemma RenderWord(style: Style, j: nat, g: seq<Slot>, items: seq<Item>)
    ensures var all := WordItems(ExpandedWord(g)) + items;
            && Arity(all) == |g| + Arity(items)
            && Render(all, BindWords(style, j, |g| + Arity(items)), true)
               == FinalWord(style, j, |g|) + Render(items, BindWords(style, j + |g|, Arity(items)), true)
  {
    if g == [] {
      assert WordItems("NULL") == Plains("NULL");
      PlainsAreText("NULL", items);
      RenderPlains("NULL", items, BindWords(style, j, Arity(items)), true);
    } else {
      RenderPlaceholders(style, j, |g|, items);
    }
  }

  ghost predicate RendersTwice(style: Style, j: nat, items: seq<Item>, gs: seq<seq<Slot>>)
    requires |gs| == Arity(items)
  {
    var mid := RenderedItems(items, ExpandedWords(gs));
    && Arity(mid) == |Flat(gs)|
    && Render(mid, BindWords(style, j, |Flat(gs)|), true) == Render(items, FinalWords(style, j, gs), true)
  }

  lemma TwiceHole(style: Style, j: nat, i: Item, items: seq<Item>, g: seq<Slot>, gs: seq<seq<Slot>>)
    requires IsHole(i) && |gs| == Arity(items) && Arity([i] + items) == |gs| + 1
    requires RendersTwice(style, j + |g|, items, gs)
    ensures RendersTwice(style, j, [i] + items, [g] + gs)
  {
    hide ExpandedWord, WordItems, FinalWord;
    var all, groups := [i] + items, [g] + gs;
    var mid := RenderedItems(items, ExpandedWords(gs));
    assert all[1..] == items && groups[1..] == gs;
    assert ExpandedWords(groups)[1..] == ExpandedWords(gs);
    assert RenderedItems(all, ExpandedWords(groups)) == WordItems(ExpandedWord(g)) + mid;
    RenderWord(style, j, g, mid);
    assert FinalWords(style, j, groups)[1..] == FinalWords(style, j + |g|, gs);
  }

  lemma TwiceText(style: Style, j: nat, i: Item, items: seq<Item>, gs: seq<seq<Slot>>)
    requires !IsHole(i) && |gs| == Arity(items) == Arity([i] + items)
    requires RendersTwice(style, j, items, gs)
    ensures RendersTwice(style, j, [i] + items, gs)
  {
    var all := [i] + items;
    var mid := RenderedItems(items, ExpandedWords(gs));
    assert all[1..] == items;
    assert RenderedItems(all, ExpandedWords(gs)) == [i] + mid && ([i] + mid)[1..] == mid;
  }

  lemma {:induction false} RenderTwice(style: Style, j: nat, items: seq<Item>, gs: seq<seq<Slot>>)
    requires |gs| == Arity(items)
    ensures RendersTwice(style, j, items, gs)
    decreases |items|
  {
    if items != [] {
      var i, rest := items[0], items[1..];
      assert items == [i] + rest;
      if IsHole(i) {
        RenderTwice(style, j + |gs[0]|, rest, gs[1..]);
        assert gs == [gs[0]] + gs[1..];
        TwiceHole(style, j, i, rest, gs[0], gs[1..]);
      } else {
        RenderTwice(style, j, rest, gs);
        TwiceText(style, j, i, rest, gs);
      }
    }
  }

  // ---------------------------------------------------------------------------------------
  // Binds
  // ---------------------------------------------------------------------------------------

  lemma BindNameInjective(style: Style, m: nat, n: nat)
    requires BindName(style, m) == BindName(style, n)
    ensures m == n
  {
    assert BindName(style, m)[|style.prefix|..] == Decimal(m);
    assert BindName(style, n)[|style.prefix|..] == Decimal(n);
    DecimalInjective(m, n);
  }

  lemma {:induction false} BindsHold(style: Style, slots: seq<Slot>, n: nat)
    requires n <= |slots|
    ensures forall k: nat | 0 < k <= n ::
              BindName(style, k) in Binds(style, slots, n) && Binds(style, slots, n)[BindName(style, k)] == slots[k - 1]
    ensures forall w :: w in Binds(style, slots, n) <==> Claims(style, n, w)
  {
    if n > 0 {
      hide BindName;
      BindsHold(style, slots, n - 1);
      forall k: nat | 0 < k <= n
        ensures BindName(style, k) in Binds(style, slots, n)
        ensures Binds(style, slots, n)[BindName(style, k)] == slots[k - 1]
      {
        if BindName(style, k) == BindName(style, n) {
          BindNameInjective(style, k, n);
        }
      }
      ClaimsNext(style, n);
    }
  }

  lemma ClaimsNext(style: Style, n: nat)
    requires n > 0
    ensures forall w :: Claims(style, n, w) <==> Claims(style, n - 1, w) || w == BindName(style, n)
  {
    hide BindName;
    forall w | Claims(style, n, w)
      ensures Claims(style, n - 1, w) || w == BindName(style, n)
    {
      var k :| 0 < k <= n && BindName(style, k) == w;
      assert k < n ==> 0 < k <= n - 1;
    }
  }

  // ---------------------------------------------------------------------------------------
  // Reading
  // ---------------------------------------------------------------------------------------

  lemma ReadPlainChar(style: Style, joined: bool, c: char, ps: seq<Piece>, binds: map<string, Slot>)
    requires c == style.sigil && !joined ==> Front(ps)[..WordRun(Front(ps))] !in binds
    ensures Read(style, joined, [Ch(c)] + ps, binds) == [Chr(c)] + Read(style, InName(c), ps, binds)
  {
    hide Front, WordRun, InName;
    var all := [Ch(c)] + ps;
    assert all[1..] == ps;
    FrontNext(c, ps);
    var f := Front(all);
    assert f[1..] == Front(ps);
    var n := WordRun(Front(ps));
    assert f[1..1 + n] == Front(ps)[..n];
  }

  predicate Lacks(w: string, c: char) { forall k | 0 <= k < |w| :: w[k] != c }

  lemma ChrsCons(w: string, out: seq<Out>)
    requires w != ""
    ensures Chrs(w) + out == [Chr(w[0])] + (Chrs(w[1..]) + out)
  {
  }

  lemma {:induction false} ReadText(style: Style, joined: bool, w: string, ps: seq<Piece>, binds: map<string, Slot>)
    requires w != "" && Lacks(w, style.sigil)
    ensures Read(style, joined, Chs(w) + ps, binds) == Chrs(w) + Read(style, InName(w[|w| - 1]), ps, binds)
    decreases |w|
  {
    hide Read, Front, WordRun, InName;
    ChsCons(w, ps);
    var rest := Chs(w[1..]) + ps;
    ReadPlainChar(style, joined, w[0], rest, binds);
    if |w| == 1 {
      assert rest == ps && Chrs(w) == [Chr(w[0])];
    } else {
      ReadText(style, InName(w[0]), w[1..], ps, binds);
      ChrsCons(w, Read(style, InName(w[|w| - 1]), ps, binds));
    }
  }

  lemma WordRunOfBind(w: string, r: string)
    requires AllWord(w) && (r != "" ==> !IsWord(r[0]))
    ensures WordRun(w + r) == |w|
  {
    var f := w + r;
    assert r != "" ==> f[|w|] == r[0];
    assert forall i | 0 <= i < |w| :: f[i] == w[i];
  }

  /** A bind is read whole when no word character follows it. */
  lemma ReadBind(style: Style, k: nat, ps: seq<Piece>, binds: map<string, Slot>)
    requires IsStyle(style) && BindName(style, k) in binds
    requires Front(ps) != "" ==> !IsWord(Front(ps)[0])
    ensures Read(style, false, Chs(Bind(style, k)) + ps, binds)
         == [Val(binds[BindName(style, k)])] + Read(style, true, ps, binds)
  {
    hide Front, WordRun, Decimal;
    var w := BindName(style, k);
    assert AllWord(w);
    FrontAppend(Bind(style, k), ps);
    WordRunOfBind(w, Front(ps));
    var all := Chs(Bind(style, k)) + ps;
    var f := Front(all);
    assert f[1..] == w + Front(ps);
    assert f[1..1 + |w|] == w;
    assert all[0] == Ch(style.sigil) && all[1 + |w|..] == ps;
  }

  // ---------------------------------------------------------------------------------------
  // Reading a final rendering
  // ---------------------------------------------------------------------------------------

  lemma ReadSeparator(style: Style, w: string, ps: seq<Piece>, binds: map<string, Slot>)
    requires IsStyle(style)
    ensures Read(style, true, Chs(", " + w) + ps, binds)
         == [Chr(','), Chr(' ')] + Read(style, false, Chs(w) + ps, binds)
  {
    hide Front, WordRun, Read;
    assert Chs(", " + w) + ps == Chs(", ") + (Chs(w) + ps);
    ReadText(style, true, ", ", Chs(w) + ps, binds);
    assert Chrs(", ") == [Chr(','), Chr(' ')];
  }

  lemma NoWordNext(w: string, ps: seq<Piece>)
    ensures Front(Chs(", " + w) + ps)[0] == ','
  {
    FrontAppend(", " + w, ps);
  }

  lemma {:induction false} ReadList(style: Style, j: nat, g: seq<Slot>, ps: seq<Piece>, slots: seq<Slot>)
    requires IsStyle(style) && g != [] && j + |g| <= |slots| && slots[j..j + |g|] == g
    requires Front(ps) != "" ==> !IsWord(Front(ps)[0])
    ensures var binds := Binds(style, slots, |slots|);
            Read(style, false, Chs(BindList(style, j, |g|)) + ps, binds) == Commas(g) + Read(style, true, ps, binds)
    decreases |g|
  {
    hide Binds, Read, Front, BindName, Bind;
    var binds := Binds(style, slots, |slots|);
    assert BindName(style, j + 1) in binds && binds[BindName(style, j + 1)] == g[0] by {
      BindsHold(style, slots, |slots|);
      assert slots[j] == slots[j..j + |g|][0];
    }
    if |g| == 1 {
      ReadBind(style, j + 1, ps, binds);
    } else {
      assert slots[j + 1..j + 1 + |g[1..]|] == g[1..];
      ReadList(style, j + 1, g[1..], ps, slots);
      var b, l := Bind(style, j + 1), BindList(style, j + 1, |g| - 1);
      assert Chs(b + ", " + l) + ps == Chs(b) + (Chs(", " + l) + ps);
      NoWordNext(l, ps);
      ReadBind(style, j + 1, Chs(", " + l) + ps, binds);
      ReadSeparator(style, l, ps, binds);
      hide BindList;
      var r := Read(style, true, ps, binds);
      assert [Val(g[0])] + ([Chr(','), Chr(' ')] + (Commas(g[1..]) + r)) == Commas(g) + r;
    }
  }

  /** A placeholder outside a name, or NULL, reads as its values. */
  lemma ReadGroup(style: Style, j: nat, joined: bool, g: seq<Slot>, ps: seq<Piece>, slots: seq<Slot>)
    requires IsStyle(style) && j + |g| <= |slots| && slots[j..j + |g|] == g
    requires Front(ps) != "" ==> !IsWord(Front(ps)[0])
    requires joined ==> g == []
    ensures var binds := Binds(style, slots, |slots|);
            Read(style, joined, Chs(FinalWord(style, j, |g|)) + ps, binds) == Listed(g) + Read(style, true, ps, binds)
  {
    hide Read, Front, Binds;
    if g == [] {
      ReadText(style, joined, "NULL", ps, Binds(style, slots, |slots|));
    } else {
      ReadList(style, j, g, ps, slots);
    }
  }

  /** Inside a name the first bind of a list is text. */
  lemma ReadHidden(style: Style, j: nat, n: nat, ps: seq<Piece>, binds: map<string, Slot>)
    requires IsStyle(style) && n > 0
    ensures var r := Read(style, true, Chs(FinalWord(style, j, n)) + ps, binds); r != [] && r[0] == Chr(style.sigil)
  {
    var w := FinalWord(style, j, n);
    assert w[0] == style.sigil;
    hide FinalWord, Read, Front, WordRun, InName;
    ChsCons(w, ps);
    ReadPlainChar(style, true, w[0], Chs(w[1..]) + ps, binds);
  }

  // ---------------------------------------------------------------------------------------
  // The word at the start of the final text
  // ---------------------------------------------------------------------------------------

  ghost predicate StartsWithWord(style: Style, j: nat, items: seq<Item>, gs: seq<seq<Slot>>)
    requires |gs| == Arity(items)
  {
    var f := Front(NewPieces(Edits(items, FinalWords(style, j, gs), true)));
    f[..WordRun(f)] == WholeWord(items, gs)
  }

  lemma WordOfList(style: Style, j: nat, n: nat, ps: seq<Piece>)
    requires IsStyle(style) && n > 0
    ensures var f := Front(Chs(BindList(style, j, n)) + ps); f[..WordRun(f)] == ""
  {
    var w := BindList(style, j, n);
    assert w[0] == style.sigil;
    FrontAppend(w, ps);
  }

  lemma WordOfNull(ps: seq<Piece>)
    requires Front(ps) != "" ==> !IsWord(Front(ps)[0])
    ensures var f := Front(Chs("NULL") + ps); f[..WordRun(f)] == "NULL"
  {
    FrontAppend("NULL", ps);
    WordRunOfBind("NULL", Front(ps));
    assert ("NULL" + Front(ps))[..4] == "NULL";
  }

  lemma WordOfHole(style: Style, j: nat, i: Item, items: seq<Item>, g: seq<Slot>, gs: seq<seq<Slot>>)
    requires IsStyle(style) && IsHole(i) && |gs| == Arity(items) && Arity([i] + items) == |gs| + 1
    requires items != [] ==> RightNeighbour(items[0])
    ensures StartsWithWord(style, j, [i] + items, [g] + gs)
  {
    hide Edits, BindList, Front, WordRun, FinalWords;
    var w, ws := FinalWord(style, j, |g|), FinalWords(style, j + |g|, gs);
    FinalWordsCons(style, j, g, gs);
    assert ([w] + ws)[1..] == ws;
    EditsCons(i, items, [w] + ws, true);
    ItemEditsTexts(i, w, true);
    var r := NewPieces(Edits(items, ws, true));
    NoWordAfterHole(items, ws);
    if g == [] {
      WordOfNull(r);
    } else {
      WordOfList(style, j, |g|, r);
    }
  }

  lemma FinalWordsCons(style: Style, j: nat, g: seq<Slot>, gs: seq<seq<Slot>>)
    ensures FinalWords(style, j, [g] + gs) == [FinalWord(style, j, |g|)] + FinalWords(style, j + |g|, gs)
  {
    assert ([g] + gs)[1..] == gs;
  }

  lemma NoWordAfterHole(items: seq<Item>, ws: seq<string>)
    requires |ws| == Arity(items) && (items != [] ==> RightNeighbour(items[0]))
    ensures var f := Front(NewPieces(Edits(items, ws, true))); f != "" ==> !IsWord(f[0])
  {
    SameFirstPiece(items, ws, true);
  }

  /** New pieces of an item that is no placeholder. */
  lemma PiecesCons(i: Item, items: seq<Item>, ws: seq<string>)
    requires !IsHole(i) && |ws| == Arity(items) == Arity([i] + items)
    ensures NewPieces(Edits([i] + items, ws, true))
         == (if i.Verbatim? then ItemPieces(i) else Chs(NewWord(i, "", true))) + NewPieces(Edits(items, ws, true))
  {
    hide Edits, NewPieces, ItemEdits, RenderedItems, Arity, ItemPieces, NewWord;
    EditsCons(i, items, ws, true);
    ItemEditsTexts(i, "", true);
  }

  lemma WholeWordCons(i: Item, items: seq<Item>, gs: seq<seq<Slot>>)
    requires !IsHole(i) && |gs| == Arity(items) == Arity([i] + items)
    ensures WholeWord([i] + items, gs) == if i.Plain? && IsWord(i.c) then [i.c] + WholeWord(items, gs) else ""
  {
    assert ([i] + items)[1..] == items;
  }

  lemma WordOfText(style: Style, j: nat, i: Item, items: seq<Item>, gs: seq<seq<Slot>>)
    requires !IsHole(i) && |gs| == Arity(items) == Arity([i] + items)
    requires StartsWithWord(style, j, items, gs)
    ensures StartsWithWord(style, j, [i] + items, gs)
  {
    hide Edits, FinalWords, Front, WordRun, WholeWord, Arity;
    var ws := FinalWords(style, j, gs);
    PiecesCons(i, items, ws);
    WholeWordCons(i, items, gs);
    var r := NewPieces(Edits(items, ws, true));
    if i.Plain? {
      assert Chs([i.c]) == [Ch(i.c)];
      FrontOfOne(i.c, r);
    } else {
      FrontOfOther(i, r);
    }
  }

  lemma {:induction false} FrontWord(style: Style, j: nat, before: Option<Item>, items: seq<Item>, gs: seq<seq<Slot>>)
    requires IsStyle(style) && |gs| == Arity(items) && Delimited(before, items)
    ensures StartsWithWord(style, j, items, gs)
    decreases |items|
  {
    if items == [] {
      return;
    }
    var i, rest := items[0], items[1..];
    assert items == [i] + rest;
    DelimitedTail(before, items);
    hide StartsWithWord, Delimited, RightNeighbour;
    if IsHole(i) {
      assert gs == [gs[0]] + gs[1..];
      WordOfHole(style, j, i, rest, gs[0], gs[1..]);
    } else {
      FrontWord(style, j, Some(i), rest, gs);
      WordOfText(style, j, i, rest, gs);
    }
  }

  lemma FrontOfOne(c: char, r: seq<Piece>)
    ensures var f := Front([Ch(c)] + r);
            f[..WordRun(f)] == if IsWord(c) then [c] + Front(r)[..WordRun(Front(r))] else ""
  {
    assert ([Ch(c)] + r)[1..] == r;
    var f := Front([Ch(c)] + r);
    assert f == [c] + Front(r) && f[1..] == Front(r);
  }

  lemma FrontOfOther(i: Item, r: seq<Piece>)
    requires i.Verbatim? || i.Escape?
    ensures var ps := if i.Verbatim? then ItemPieces(i) else Chs("?");
            var f := Front(ps + r);
            f[..WordRun(f)] == ""
  {
    if i.Escape? {
      FrontAppend("?", r);
    } else if i.text != "" && i.text[0] == ':' {
      FrontAppend(i.text, r);
    }
  }

  // ---------------------------------------------------------------------------------------
  // The final text reads as the query exactly when no bind is hidden and none is claimed
  // ---------------------------------------------------------------------------------------

  ghost predicate ColonRunsOnly(items: seq<Item>) {
    forall i | 0 <= i < |items| && items[i].Verbatim? && items[i].text != "" && items[i].text[0] == ':' ::
      forall k | 0 <= k < |items[i].text| :: items[i].text[k] == ':'
  }

  ghost predicate ReadsExactly(style: Style, j: nat, joined: bool, items: seq<Item>, gs: seq<seq<Slot>>,
                               slots: seq<Slot>)
    requires |gs| == Arity(items)
  {
    Read(style, joined, NewPieces(Edits(items, FinalWords(style, j, gs), true)), Binds(style, slots, |slots|))
    == Substitute(items, gs)
    <==> Apart(joined, items, gs) && Unclaimed(style, |slots|, joined, items, gs)
  }

  lemma SameTail(a: seq<Out>, x: seq<Out>, y: seq<Out>)
    ensures a + x == a + y <==> x == y
  {
    if a + x == a + y {
      assert x == (a + x)[|a|..] && y == (a + y)[|a|..];
    }
  }

  lemma SubstituteText(i: Item, items: seq<Item>, gs: seq<seq<Slot>>)
    requires !IsHole(i) && |gs| == Arity(items) == Arity([i] + items)
    ensures Substitute([i] + items, gs) == Chrs(NewWord(i, "", true)) + Substitute(items, gs)
  {
    assert ([i] + items)[1..] == items;
    assert i.Plain? ==> Chrs([i.c]) == [Chr(i.c)];
    assert Chrs("?") == [Chr('?')];
  }

  lemma ReadItem(style: Style, joined: bool, i: Item, r: seq<Piece>, binds: map<string, Slot>)
    requires IsStyle(style) && !IsHole(i)
    requires i == Plain(style.sigil) && !joined ==> Front(r)[..WordRun(Front(r))] !in binds
    requires i.Verbatim? && i.text != "" && i.text[0] == ':' ==> forall k | 0 <= k < |i.text| :: i.text[k] == ':'
    ensures var ps := if i.Verbatim? then ItemPieces(i) else Chs(NewWord(i, "", true));
            Read(style, joined, ps + r, binds) == Chrs(NewWord(i, "", true)) + Read(style, EndsInName(i), r, binds)
  {
    hide Read, Front, WordRun;
    match i
    case Plain(c) =>
      assert Chs([c]) == [Ch(c)] && Chrs([c]) == [Chr(c)];
      ReadPlainChar(style, joined, c, r, binds);
    case Escape =>
      ReadText(style, joined, "?", r, binds);
    case Verbatim(t) =>
      if t != "" && t[0] == ':' {
        ReadText(style, joined, t, r, binds);
      } else {
        ReadSolid(style, joined, t, r, binds);
      }
    case _ =>
  }

  lemma ReadSolid(style: Style, joined: bool, t: string, r: seq<Piece>, binds: map<string, Slot>)
    ensures Read(style, joined, [Solid(t)] + r, binds) == Chrs(t) + Read(style, false, r, binds)
  {
    assert ([Solid(t)] + r)[1..] == r;
  }

  /** A sigil of the query's own text with the name of a bind after it reads as that bind. */
  lemma ReadClaimed(style: Style, r: seq<Piece>, binds: map<string, Slot>)
    requires Front(r)[..WordRun(Front(r))] in binds
    ensures var out := Read(style, false, Chs([style.sigil]) + r, binds); out != [] && out[0].Val?
  {
    var all := Chs([style.sigil]) + r;
    assert all == [Ch(style.sigil)] + r && all[1..] == r;
    FrontNext(style.sigil, r);
    var f := Front(all);
    hide Front, WordRun;
    assert f[1..] == Front(r);
    var n := WordRun(Front(r));
    assert f[1..1 + n] == Front(r)[..n];
  }

  /** What the two conditions say of the first item. */
  lemma ConditionsCons(style: Style, n: nat, joined: bool, i: Item, items: seq<Item>, gs: seq<seq<Slot>>)
    requires |gs| == Arity([i] + items)
    ensures IsHole(i) ==>
              && |gs| == 1 + Arity(items)
              && (Apart(joined, [i] + items, gs) <==> (joined ==> gs[0] == []) && Apart(true, items, gs[1..]))
              && (Unclaimed(style, n, joined, [i] + items, gs) <==> Unclaimed(style, n, true, items, gs[1..]))
    ensures !IsHole(i) ==>
              && |gs| == Arity(items)
              && (Apart(joined, [i] + items, gs) <==> Apart(EndsInName(i), items, gs))
              && (Unclaimed(style, n, joined, [i] + items, gs) <==>
                  && (i == Plain(style.sigil) && !joined ==> !Claims(style, n, WholeWord(items, gs)))
                  && Unclaimed(style, n, EndsInName(i), items, gs))
  {
    hide EndsInName, Claims, WholeWord;
    assert ([i] + items)[1..] == items;
  }

  lemma TextReadsExactly(style: Style, j: nat, joined: bool, i: Item, items: seq<Item>, gs: seq<seq<Slot>>,
                         slots: seq<Slot>)
    requires IsStyle(style) && !IsHole(i) && |gs| == Arity(items) == Arity([i] + items)
    requires ReadsExactly(style, j, EndsInName(i), items, gs, slots)
    requires Delimited(Some(i), items) && ColonRunsOnly([i] + items)
    ensures ReadsExactly(style, j, joined, [i] + items, gs, slots)
  {
    assert ([i] + items)[0] == i;
    hide Edits, FinalWords, Binds, Read, Front, WordRun, Delimited, Arity, NewWord, ItemPieces, IsStyle, Substitute,
         Apart, Unclaimed, Claims, WholeWord;
    var ws, binds := FinalWords(style, j, gs), Binds(style, slots, |slots|);
    var r := NewPieces(Edits(items, ws, true));
    PiecesCons(i, items, ws);
    SubstituteText(i, items, gs);
    ConditionsCons(style, |slots|, joined, i, items, gs);
    FrontWord(style, j, Some(i), items, gs);
    BindsHold(style, slots, |slots|);
    if i == Plain(style.sigil) && !joined && Claims(style, |slots|, WholeWord(items, gs)) {
      ReadClaimed(style, r, binds);
      SigilIsText(style, Substitute(items, gs));
    } else {
      ReadItem(style, joined, i, r, binds);
      SameTail(Chrs(NewWord(i, "", true)), Read(style, EndsInName(i), r, binds), Substitute(items, gs));
    }
  }

  lemma SigilIsText(style: Style, out: seq<Out>)
    ensures NewWord(Plain(style.sigil), "", true) == [style.sigil]
    ensures (Chrs([style.sigil]) + out)[0] == Chr(style.sigil)
  {
  }

  lemma SubstituteHole(i: Item, items: seq<Item>, g: seq<Slot>, gs: seq<seq<Slot>>)
    requires IsHole(i) && |gs| == Arity(items) && Arity([i] + items) == |gs| + 1
    ensures Substitute([i] + items, [g] + gs) == Listed(g) + Substitute(items, gs)
    ensures g != [] ==> (Listed(g) + Substitute(items, gs))[0] == Val(g[0])
  {
    assert ([i] + items)[1..] == items && ([g] + gs)[1..] == gs;
  }

  lemma HoleReadsExactly(style: Style, j: nat, joined: bool, i: Item, items: seq<Item>,
                         g: seq<Slot>, gs: seq<seq<Slot>>, slots: seq<Slot>)
    requires IsStyle(style) && IsHole(i) && |gs| == Arity(items) && Arity([i] + items) == |gs| + 1
    requires j + |g| <= |slots| && slots[j..j + |g|] == g
    requires items != [] ==> RightNeighbour(items[0])
    requires ReadsExactly(style, j + |g|, true, items, gs, slots)
    ensures ReadsExactly(style, j, joined, [i] + items, [g] + gs, slots)
  {
    hide Read, Binds, Edits, FinalWord, FinalWords, Front, Substitute, Apart, Unclaimed, Listed;
    var w, ws := FinalWord(style, j, |g|), FinalWords(style, j + |g|, gs);
    FinalWordsCons(style, j, g, gs);
    assert ([w] + ws)[1..] == ws && ([g] + gs)[1..] == gs;
    SubstituteHole(i, items, g, gs);
    ConditionsCons(style, |slots|, joined, i, items, [g] + gs);
    EditsCons(i, items, [w] + ws, true);
    ItemEditsTexts(i, w, true);
    NoWordAfterHole(items, ws);
    hide Arity, RightNeighbour;
    var r, binds := NewPieces(Edits(items, ws, true)), Binds(style, slots, |slots|);
    if joined && g != [] {
      ReadHidden(style, j, |g|, r, binds);
    } else {
      ReadGroup(style, j, joined, g, r, slots);
      SameTail(Listed(g), Read(style, true, r, binds), Substitute(items, gs));
    }
  }

  /**
    * Reading the final text gives the query with its values in place exactly when no bind is
    * written into a name and the query's own text names no bind.
    */
  lemma {:induction false} ReadBack(style: Style, j: nat, joined: bool, before: Option<Item>, items: seq<Item>,
                                    gs: seq<seq<Slot>>, slots: seq<Slot>)
    requires IsStyle(style) && |gs| == Arity(items)
    requires Delimited(before, items) && ColonRunsOnly(items)
    requires j + |Flat(gs)| <= |slots| && slots[j..j + |Flat(gs)|] == Flat(gs)
    ensures ReadsExactly(style, j, joined, items, gs, slots)
    decreases |items|
  {
    if items == [] {
      return;
    }
    var i, rest := items[0], items[1..];
    assert items == [i] + rest;
    DelimitedTail(before, items);
    ColonRunsTail(items);
    if IsHole(i) {
      var g, hs := gs[0], gs[1..];
      assert gs == [g] + hs && Flat(gs) == g + Flat(hs);
      assert slots[j..j + |g|] == slots[j..j + |Flat(gs)|][..|g|];
      assert slots[j + |g|..j + |g| + |Flat(hs)|] == slots[j..j + |Flat(gs)|][|g|..];
      hide ReadsExactly, Delimited, ColonRunsOnly, RightNeighbour;
      ReadBack(style, j + |g|, true, Some(i), rest, hs, slots);
      HoleReadsExactly(style, j, joined, i, rest, g, hs, slots);
    } else {
      hide ReadsExactly, Delimited, ColonRunsOnly, RightNeighbour;
      ReadBack(style, j, EndsInName(i), Some(i), rest, gs, slots);
      TextReadsExactly(style, j, joined, i, rest, gs, slots);
    }
  }

  lemma ColonRunsTail(items: seq<Item>)
    requires items != [] && ColonRunsOnly(items)
    ensures ColonRunsOnly(items[1..])
  {
    assert forall i | 0 <= i < |items[1..]| :: items[1..][i] == items[i + 1];
  }
}
