/** Compilation keeps the meaning of a query. */
module QueryCorrectness {
  import opened Text
  import opened SqlLexer
  import opened SqlRewriting
  import opened QueryCompiler
  import opened QueryMeaning
  import opened QueryPasses

  // ---------------------------------------------------------------------------------------
  // The second pass sees exactly the placeholders the first one wrote
  // ---------------------------------------------------------------------------------------

  /** A word without special characters other than separated question marks. */
  predicate WellSpaced(w: string) {
    && w != ""
    && (forall k | 0 <= k < |w| :: w[k] == '?' || !IsSpecial(w[k]))
    && (forall k | 0 <= k < |w| - 1 :: !(w[k] == '?' && w[k + 1] == '?'))
  }

  ghost predicate AllWellSpaced(ws: seq<string>) {
    forall i | 0 <= i < |ws| :: WellSpaced(ws[i])
  }

  /** The next piece is the character c. */
  predicate Next(ps: seq<Piece>, c: char) { ps != [] && ps[0] == Ch(c) }

  function WordItem(c: char): Item { if c == '?' then Question else Plain(c) }

  /** Marks read one character when Mark does. */
  lemma MarksOneStep(c: char, ps: seq<Piece>, q: bool, item: Item)
    requires Mark([c] + Front(ps), q) == (item, 1)
    ensures Marks([Ch(c)] + ps, q) == [item] + Marks(ps, c == '?')
  {
    hide Mark;
    assert ([Ch(c)] + ps)[1..] == ps;
    assert Front([Ch(c)] + ps) == [c] + Front(ps);
    MarksText([Ch(c)] + ps, q);
  }

  lemma FrontStarts(ps: seq<Piece>, c: char)
    ensures Next(ps, c) <==> Front(ps) != "" && Front(ps)[0] == c
  {
  }

  lemma MarksOneChar(c: char, ps: seq<Piece>, q: bool)
    requires c == '?' || !IsSpecial(c)
    requires c == '?' ==> !q && !Next(ps, '?')
    ensures Marks([Ch(c)] + ps, q) == [WordItem(c)] + Marks(ps, c == '?')
  {
    FrontStarts(ps, '?');
    hide Front, Marks;
    var f := [c] + Front(ps);
    assert f[0] == c && (StartsWith(f, 1, '?') ==> Front(ps)[0] == '?');
    assert c != ':';
    MarksOneStep(c, ps, q, WordItem(c));
  }

  lemma WellSpacedTail(w: string)
    requires WellSpaced(w) && |w| > 1
    ensures WellSpaced(w[1..]) && (w[0] == '?' ==> w[1] != '?')
  {
    assert forall k | 0 <= k < |w| - 1 :: w[1..][k] == w[k + 1];
  }

  lemma {:induction false} MarksOfWord(w: string, ps: seq<Piece>, q: bool)
    requires WellSpaced(w)
    requires w[0] == '?' ==> !q
    requires w[|w| - 1] == '?' ==> !Next(ps, '?')
    ensures Marks(Chs(w) + ps, q) == WordItems(w) + Marks(ps, w[|w| - 1] == '?')
    decreases |w|
  {
    hide Marks;
    var rest := Chs(w[1..]) + ps;
    ChsCons(w, ps);
    if |w| == 1 {
      assert rest == ps;
      assert w == [w[0]];
      MarksOneChar(w[0], ps, q);
    } else {
      WellSpacedTail(w);
      assert rest[0] == Ch(w[1]);
      MarksOneChar(w[0], rest, q);
      MarksOfWord(w[1..], ps, w[0] == '?');
    }
  }

  lemma ChsCons(w: string, ps: seq<Piece>)
    requires w != ""
    ensures Chs(w) + ps == [Ch(w[0])] + (Chs(w[1..]) + ps)
    ensures WordItems(w) == [WordItem(w[0])] + WordItems(w[1..])
  {
  }

  /** The last character of an item is a question mark. */
  predicate LastIsQuestion(i: Item) {
    match i
    case Plain(c) => c == '?'
    case Verbatim(t) => EndsWithQuestion(t)
    case Name(_) => false
    case _ => true
  }

  /** The first piece of a rendering is that of its first item unless that is a placeholder. */
  lemma SameFirstPiece(items: seq<Item>, ws: seq<string>, unescape: bool)
    requires |ws| == Arity(items)
    requires items != [] ==> !IsHole(items[0])
    ensures var r, n := PiecesOf(items), NewPieces(Edits(items, ws, unescape));
            (r == [] <==> n == []) && (r != [] ==> r[0] == n[0])
  {
    if items != [] {
      ItemEditsTexts(items[0], "", unescape);
      EditsAppend(ItemEdits(items[0], "", unescape), Edits(items[1..], ws, unescape));
    }
  }

  /** One item of the old text is one item of the new text. */
  lemma PlainStays(c: char, r: seq<Piece>, r': seq<Piece>, q: bool, q': bool)
    requires Mark(Front([Ch(c)] + r), q).0 == Plain(c)
    requires c == '?' ==> q == q'
    requires c == ':' || c == '?' ==> (r == [] <==> r' == []) && (r != [] ==> r[0] == r'[0])
    ensures Marks([Ch(c)] + r', q') == [Plain(c)] + Marks(r', c == '?')
  {
    hide Marks;
    assert Front([Ch(c)] + r) == [c] + Front(r) by { assert ([Ch(c)] + r)[1..] == r; }
    var f, f' := [c] + Front(r), [c] + Front(r');
    assert Front(r) != "" && Front(r') != "" ==> f[1] == Front(r)[0] && f'[1] == Front(r')[0];
    assert Mark(f', q') == (Plain(c), 1);
    MarksOneStep(c, r', q', Plain(c));
  }

  /** A colon stays where no name follows it. */
  lemma ColonStays(r': seq<Piece>, q': bool)
    requires Front(r') != "" && !IsWord(Front(r')[0]) && Front(r')[0] != ':'
    ensures Marks([Ch(':')] + r', q') == [Plain(':')] + Marks(r', false)
  {
    var f' := [':'] + Front(r');
    assert f'[1] == Front(r')[0];
    assert Mark(f', q') == (Plain(':'), 1);
    hide Marks, Mark, Front;
    MarksOneStep(':', r', q', Plain(':'));
  }

  lemma ColonsStay(t: string, r: seq<Piece>, r': seq<Piece>, q: bool, q': bool)
    requires t != "" && t[0] == ':' && Mark(Front(Chs(t) + r), q).0 == Verbatim(t)
    requires Front(r') == "" || Front(r')[0] != ':'
    ensures Marks(Chs(t) + r', q') == [Verbatim(t)] + Marks(r', EndsWithQuestion(t))
  {
    hide Marks, Mark, Front;
    FrontAppend(t, r);
    FrontAppend(t, r');
    ColonsOfFront(t, Front(r), Front(r'), q, q');
    var ps := Chs(t) + r';
    assert ps[|t|..] == r' && ps[0].Ch?;
    MarksText(ps, q');
    assert (t + Front(r'))[|t| - 1] == t[|t| - 1];
  }

  /** No colon follows a run of colons. */
  lemma RunEnds(t: string, r: seq<Piece>, r': seq<Piece>, q: bool)
    requires t != "" && t[0] == ':' && Mark(Front(Chs(t) + r), q).0 == Verbatim(t)
    requires (r == [] <==> r' == []) && (r != [] ==> r[0] == r'[0])
    ensures Front(r') == "" || Front(r')[0] != ':'
  {
    FrontsAlike(r, r');
    FrontAppend(t, r);
    hide Front, Mark;
    var f := t + Front(r);
    ColonsAreRun(f, q, t);
    assert Front(r) != "" ==> f[|t|] == Front(r)[0];
  }

  lemma ColonsAreRun(f: string, q: bool, t: string)
    requires f != "" && f[0] == ':' && Mark(f, q).0 == Verbatim(t)
    ensures f[..ColonRun(f)] == t
  {
  }

  lemma FrontsAlike(r: seq<Piece>, r': seq<Piece>)
    requires (r == [] <==> r' == []) && (r != [] ==> r[0] == r'[0])
    ensures var u, u' := Front(r), Front(r');
            (u == "" <==> u' == "") && (u != "" ==> u[0] == u'[0])
  {
  }

  lemma ColonsOfFront(t: string, u: string, u': string, q: bool, q': bool)
    requires t != "" && t[0] == ':' && Mark(t + u, q).0 == Verbatim(t)
    requires u' == "" || u'[0] != ':'
    ensures Mark(t + u', q') == (Verbatim(t), |t|)
  {
    var f, f' := t + u, t + u';
    var n := ColonRun(f);
    assert f[0] == ':' && f[..n] == t;
    assert |t| == n;
    assert forall k | 0 <= k < n :: f'[k] == f[k];
    assert u' != "" ==> f'[n] == u'[0];
    assert n >= 2 && f[1] == ':' && f'[1] == ':';
    assert ColonRun(f') == n;
    assert f'[..n] == t;
  }

  // Marks of an edited text, item by item.

  ghost predicate ReadsAlike(items: seq<Item>, ws: seq<string>, q: bool)
    requires |ws| == Arity(items)
  {
    Marks(NewPieces(Edits(items, ws, false)), q) == RenderedItems(items, ws)
  }

  lemma EditsCons(i: Item, items: seq<Item>, ws: seq<string>, unescape: bool)
    requires |ws| == Arity([i] + items)
    ensures var vs := if IsHole(i) then ws[1..] else ws;
            var w := if IsHole(i) then ws[0] else "";
            && |vs| == Arity(items)
            && NewPieces(Edits([i] + items, ws, unescape))
               == NewPieces(ItemEdits(i, w, unescape)) + NewPieces(Edits(items, vs, unescape))
            && RenderedItems([i] + items, ws) == (if IsHole(i) then WordItems(w) else [i]) + RenderedItems(items, vs)
  {
    assert ([i] + items)[1..] == items;
    var w, vs := if IsHole(i) then ws[0] else "", if IsHole(i) then ws[1..] else ws;
    EditsAppend(ItemEdits(i, w, unescape), Edits(items, vs, unescape));
  }

  /** No word in place of a placeholder right after a colon begins like a name. */
  predicate ColonsFree(items: seq<Item>, ws: seq<string>)
    requires |ws| == Arity(items)
    decreases |items|
  {
    items == []
    || if IsHole(items[0]) then ColonsFree(items[1..], ws[1..])
       else ColonIsFree(items[0], items[1..], ws) && ColonsFree(items[1..], ws)
  }

  predicate ColonIsFree(i: Item, items: seq<Item>, ws: seq<string>)
    requires |ws| == Arity(items)
  {
    i == Plain(':') && items != [] && IsHole(items[0]) ==> ws[0] != "" && !IsWord(ws[0][0])
  }

  lemma HoleStarts(items: seq<Item>, ws: seq<string>)
    requires |ws| == Arity(items) && items != [] && IsHole(items[0]) && WellSpaced(ws[0])
    ensures var f := Front(NewPieces(Edits(items, ws, false))); f != "" && f[0] == ws[0][0] && f[0] != ':'
  {
    var rest := items[1..];
    assert items == [items[0]] + rest;
    EditsCons(items[0], rest, ws, false);
    ItemEditsTexts(items[0], ws[0], false);
    hide Edits;
    FrontAppend(ws[0], NewPieces(Edits(rest, ws[1..], false)));
  }

  lemma TextStays(i: Item, items: seq<Item>, ws: seq<string>, q: bool, q': bool)
    requires |ws| == Arity(items) == Arity([i] + items) && AllWellSpaced(ws)
    requires Marks(PiecesOf([i] + items), q) == [i] + items
    requires i.Plain? || i.Verbatim?
    requires Delimited(Some(i), items) && ColonIsFree(i, items, ws)
    requires q == q' || RightNeighbour(i)
    requires i.Verbatim? ==> i.text != ""
    requires ReadsAlike(items, ws, LastIsQuestion(i))
    ensures ReadsAlike([i] + items, ws, q')
  {
    var r, r' := PiecesOf(items), NewPieces(Edits(items, ws, false));
    assert ([i] + items)[1..] == items;
    assert PiecesOf([i] + items) == ItemPieces(i) + r;
    EditsCons(i, items, ws, false);
    ItemEditsTexts(i, "", false);
    var hole := items != [] && IsHole(items[0]);
    if hole {
      HoleStarts(items, ws);
    } else {
      SameFirstPiece(items, ws, false);
    }
    hide Edits, RenderedItems, PiecesOf, Delimited, Arity, Front, Marks;
    match i
    case Plain(c) =>
      assert Chs([c]) == [Ch(c)];
      FirstMark(c, r, q, i, items);
      if hole && c == ':' {
        ColonStays(r', q');
      } else {
        PlainStays(c, r, r', q, q');
      }
    case Verbatim(t) =>
      if t[0] == ':' {
        FirstMarks(t, r, q, i, items);
        if !hole {
          RunEnds(t, r, r', q);
        }
        ColonsStay(t, r, r', q, q');
      } else {
        SolidStays(t, r', q');
      }
    case _ =>
  }

  lemma SolidStays(t: string, r: seq<Piece>, q: bool)
    ensures Marks([Solid(t)] + r, q) == [Verbatim(t)] + Marks(r, EndsWithQuestion(t))
  {
    assert ([Solid(t)] + r)[1..] == r;
  }

  lemma FirstMark(c: char, r: seq<Piece>, q: bool, i: Item, items: seq<Item>)
    requires Marks([Ch(c)] + r, q) == [i] + items
    ensures Mark(Front([Ch(c)] + r), q).0 == i
  {
    hide Mark, Front, Marks;
    MarksText([Ch(c)] + r, q);
    assert ([i] + items)[0] == i;
  }

  lemma FirstMarks(t: string, r: seq<Piece>, q: bool, i: Item, items: seq<Item>)
    requires t != "" && Marks(Chs(t) + r, q) == [i] + items
    ensures Mark(Front(Chs(t) + r), q).0 == i
  {
    hide Mark, Front, Marks;
    MarksText(Chs(t) + r, q);
    assert ([i] + items)[0] == i;
  }

  lemma EscapeStays(items: seq<Item>, ws: seq<string>, q: bool)
    requires |ws| == Arity(items) == Arity([Escape] + items)
    requires ReadsAlike(items, ws, true)
    ensures ReadsAlike([Escape] + items, ws, q)
  {
    hide Front, Marks;
    EditsCons(Escape, items, ws, false);
    ItemEditsTexts(Escape, "", false);
    var r := NewPieces(Edits(items, ws, false));
    hide Edits, RenderedItems, Arity;
    var ps := Chs("??") + r;
    FrontAppend("??", r);
    var f := "??" + Front(r);
    assert f[0] == '?' && f[1] == '?';
    assert ps[2..] == r && ps[0].Ch?;
    MarksText(ps, q);
  }

  lemma HoleStays(hole: Item, items: seq<Item>, ws: seq<string>, q: bool)
    requires IsHole(hole) && |ws| == Arity([hole] + items) && WellSpaced(ws[0])
    requires ws[0][0] == '?' ==> !q
    requires Arity([hole] + items) == 1 + Arity(items)
    requires items != [] ==> RightNeighbour(items[0])
    requires ReadsAlike(items, ws[1..], ws[0][|ws[0]| - 1] == '?')
    ensures ReadsAlike([hole] + items, ws, q)
  {
    hide Marks, WellSpaced, Edits, RenderedItems, Arity, NewPieces;
    var r := NewPieces(Edits(items, ws[1..], false));
    NoQuestionNext(items, ws[1..]);
    hide RightNeighbour;
    HoleEdits(hole, items, ws);
    MarksOfWord(ws[0], r, q);
  }

  lemma HoleEdits(hole: Item, items: seq<Item>, ws: seq<string>)
    requires IsHole(hole) && |ws| == Arity([hole] + items)
    ensures |ws| == 1 + Arity(items)
    ensures NewPieces(Edits([hole] + items, ws, false)) == Chs(ws[0]) + NewPieces(Edits(items, ws[1..], false))
    ensures RenderedItems([hole] + items, ws) == WordItems(ws[0]) + RenderedItems(items, ws[1..])
  {
    assert ([hole] + items)[1..] == items;
    hide Edits, RenderedItems;
    EditsCons(hole, items, ws, false);
    ItemEditsTexts(hole, ws[0], false);
  }

  lemma NoQuestionNext(items: seq<Item>, ws: seq<string>)
    requires |ws| == Arity(items) && (items != [] ==> RightNeighbour(items[0]))
    ensures !Next(NewPieces(Edits(items, ws, false)), '?')
  {
    SameFirstPiece(items, ws, false);
  }

  /** Relexing a rendering finds its items again. */
  lemma {:induction false} RenderingReadsAlike(before: Option<Item>, items: seq<Item>, ws: seq<string>, q: bool,
                                               q': bool)
    requires |ws| == Arity(items) && AllWellSpaced(ws) && Delimited(before, items) && ColonsFree(items, ws)
    requires Marks(PiecesOf(items), q) == items && SolidsAreRegions(PiecesOf(items))
    requires q == q' || (items != [] ==> RightNeighbour(items[0]))
    requires items != [] && IsHole(items[0]) ==> !q'
    ensures ReadsAlike(items, ws, q')
    decreases |items|
  {
    if items == [] {
      return;
    }
    hide Marks, PiecesOf, Delimited, SolidsAreRegions, RightNeighbour, LeftNeighbour, ReadsAlike, Arity, AllWellSpaced,
         WellSpaced, LastIsQuestion, ColonIsFree;
    var i, rest := items[0], items[1..];
    DelimitedTail(before, items);
    assert items == [i] + rest;
    WordsTail(i, rest, ws);
    TailOfMarks(i, rest, q);
    if IsHole(i) {
      var last := ws[0][|ws[0]| - 1] == '?';
      RenderingReadsAlike(Some(i), rest, ws[1..], LastIsQuestion(i), last);
      HoleStays(i, rest, ws, q');
    } else {
      RenderingReadsAlike(Some(i), rest, ws, LastIsQuestion(i), LastIsQuestion(i));
      if i.Escape? {
        EscapeStays(rest, ws, q');
      } else {
        TextStays(i, rest, ws, q, q');
      }
    }
  }

  lemma WordsTail(i: Item, items: seq<Item>, ws: seq<string>)
    requires |ws| == Arity([i] + items) && AllWellSpaced(ws)
    ensures IsHole(i) ==> |ws| == 1 + Arity(items) && AllWellSpaced(ws[1..]) && WellSpaced(ws[0]) && ws[0] != ""
    ensures !IsHole(i) ==> |ws| == Arity(items)
  {
    assert ([i] + items)[1..] == items;
  }

  lemma DelimitedTail(before: Option<Item>, items: seq<Item>)
    requires items != [] && Delimited(before, items)
    ensures Delimited(Some(items[0]), items[1..])
    ensures items[1..] != [] && IsHole(items[0]) ==> RightNeighbour(items[1]) && !IsHole(items[1])
    ensures items[1..] != [] && IsHole(items[1]) ==> LeftNeighbour(items[0]) && !LastIsQuestion(items[0])
  {
    assert items[1..] != [] ==> items[1..][0] == items[1];
  }

  lemma LastPiece(i: Item)
    requires i.Name? ==> AllWord(i.name)
    requires i.Verbatim? ==> i.text != ""
    ensures ItemPieces(i) != []
    ensures EndsWithQuestion(PieceText(ItemPieces(i)[|ItemPieces(i)| - 1])) == LastIsQuestion(i)
  {
    if i.Name? {
      var w := ":" + i.name;
      assert i.name != "" ==> w[|w| - 1] == i.name[|i.name| - 1];
    }
  }

  lemma TailOfMarks(i: Item, items: seq<Item>, q: bool)
    requires SolidsAreRegions(PiecesOf([i] + items))
    requires Marks(PiecesOf([i] + items), q) == [i] + items
    ensures SolidsAreRegions(PiecesOf(items)) && Marks(PiecesOf(items), LastIsQuestion(i)) == items
    ensures i.Verbatim? ==> i.text != ""
  {
    var ps := PiecesOf([i] + items);
    assert ([i] + items)[1..] == items && ([i] + items)[0] == i;
    assert ps == ItemPieces(i) + PiecesOf(items);
    NamesOfMarks(ps, q);
    SolidsOfTail(ItemPieces(i), PiecesOf(items));
    hide Marks, PiecesOf, SolidsAreRegions, Mark, Front;
    MarksOfNothing(q);
    assert ps != [];
    MarksUnfold(ps, q);
    assert ps[..|ItemPieces(i)|] == ItemPieces(i) && ps[|ItemPieces(i)|..] == PiecesOf(items);
    if i.Verbatim? {
      VerbatimHasText(ps, q, i);
    }
    LastPiece(i);
  }

  lemma MarksOfNothing(q: bool)
    ensures Marks([], q) == []
  {
  }

  lemma SolidsOfTail(a: seq<Piece>, b: seq<Piece>)
    requires SolidsAreRegions(a + b)
    ensures SolidsAreRegions(b)
  {
    assert forall i | 0 <= i < |b| :: b[i] == (a + b)[|a| + i];
  }

  lemma VerbatimHasText(ps: seq<Piece>, q: bool, i: Item)
    requires ps != [] && SolidsAreRegions(ps) && Marks(ps, q) != [] && Marks(ps, q)[0] == i && i.Verbatim?
    ensures i.text != ""
  {
    if ps[0].Ch? {
      MarksText(ps, q);
      hide Marks;
      var f := Front(ps);
      assert Mark(f, q).0 == i;
    }
  }
}
