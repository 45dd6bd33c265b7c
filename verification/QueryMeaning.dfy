/**
  * What a query means before and after compilation: the text with every value substituted.
  *
  * The compiled text goes through two or three lexing passes and a join into one string; the
  * theorems say that reading the values back out of that string gives the original query.
  */
module QueryMeaning {
  import opened Text
  import opened SqlLexer
  import opened SqlRewriting
  import opened QueryCompiler

  predicate IsHole(i: Item) { i.Question? || i.Name? }

  function Arity(items: seq<Item>): nat {
    if items == [] then 0 else (if IsHole(items[0]) then 1 else 0) + Arity(items[1..])
  }

  /** The placeholders and the text of a query, as the lexer sees them. */
  function Items(mode: Mode, sql: string): seq<Item> { Marks(Shape(mode, "", sql), false) }

  // ---------------------------------------------------------------------------------------
  // The values of each placeholder
  // ---------------------------------------------------------------------------------------

  /** The value of the list whose index is written so. */
  function Numbered(vs: seq<Value>, name: string): Option<Value> {
    if vs == [] then None
    else if name == Decimal(|vs| - 1) then Some(vs[|vs| - 1])
    else Numbered(vs[..|vs| - 1], name)
  }

  /**
    * The value given for a placeholder; k counts the positional ones before it. A list also owns
    * its indices and its length as names, and a record may have numerals for names.
    */
  function Given(item: Item, k: nat, params: Params): Option<Value>
    requires IsHole(item)
  {
    match params
    case ListParams(vs) =>
      (match item
       case Question => if k < |vs| then Some(vs[k]) else None
       case Name(name) => if name == "length" then Some(Atom(|vs|)) else Numbered(vs, name))
    case NamedParams(entries) =>
      var name := match item case Question => Decimal(k) case Name(name) => name;
      if name in entries then Some(entries[name]) else None
  }

  /** The type given for a placeholder: a list of types has none for names. */
  function GivenType(item: Item, k: nat, types: Types): Option<ParamType>
    requires IsHole(item)
  {
    match types
    case ListTypes(ts) => if item.Question? && k < |ts| then ts[k] else None
    case NamedTypes(entries) =>
      var name := match item case Question => Decimal(k) case Name(name) => name;
      if name in entries then Some(entries[name]) else None
  }

  /** An element of a value under an array type. */
  function Element(a: ArrayType, v: Value): Slot {
    match a
    case IntegerArray => (v, Integer)
    case StringArray => (v, String)
    case AsciiArray => (v, Ascii)
    case BinaryArray => (v, Binary)
  }

  /** The values one placeholder stands for; a missing type reads as STRING. */
  function Group(value: Value, t: Option<ParamType>): Result<seq<Slot>, Error> {
    match t
    case None => Ok([(value, String)])
    case Some(One(scalar)) => Ok([(value, scalar)])
    case Some(Many(a)) =>
      match value
      case Atom(_) => Err(NotIterable)
      case Array(vs) => Ok(seq(|vs|, i requires 0 <= i < |vs| => Element(a, vs[i])))
      case Characters(s) => Ok(seq(|s|, i requires 0 <= i < |s| => Element(a, Characters([s[i]]))))
  }

  function HoleGroup(item: Item, k: nat, params: Params, types: Types): Result<seq<Slot>, Error>
    requires IsHole(item)
  {
    match Given(item, k, params)
    case Some(v) => Group(v, GivenType(item, k, types))
    case None => Err(match item case Question => MissingPositional(k) case Name(name) => MissingNamed(name))
  }

  /** One group per placeholder; k: the number of positional placeholders seen before. */
  function Groups(items: seq<Item>, k: nat, params: Params, types: Types): Result<seq<seq<Slot>>, Error>
    decreases |items|
  {
    if items == [] then Ok([])
    else if !IsHole(items[0]) then Groups(items[1..], k, params, types)
    else match HoleGroup(items[0], k, params, types)
      case Err(e) => Err(e)
      case Ok(g) =>
        match Groups(items[1..], if items[0].Question? then k + 1 else k, params, types)
        case Err(e) => Err(e)
        case Ok(gs) => Ok([g] + gs)
  }

  function Flat(gs: seq<seq<Slot>>): seq<Slot> {
    if gs == [] then [] else gs[0] + Flat(gs[1..])
  }

  // ---------------------------------------------------------------------------------------
  // Meaning
  // ---------------------------------------------------------------------------------------

  datatype Out = Chr(c: char) | Val(slot: Slot)

  function Chrs(s: string): (r: seq<Out>)
    ensures |r| == |s| && forall k | 0 <= k < |s| :: r[k] == Chr(s[k])
  {
    seq(|s|, k requires 0 <= k < |s| => Chr(s[k]))
  }

  /** Values joined by a comma and a space; NULL when there are none. */
  function Listed(g: seq<Slot>): seq<Out> {
    if g == [] then Chrs("NULL") else Commas(g)
  }

  function Commas(g: seq<Slot>): seq<Out>
    requires g != []
  {
    if |g| == 1 then [Val(g[0])] else [Val(g[0]), Chr(','), Chr(' ')] + Commas(g[1..])
  }

  /** The query with its values in place and `??` read as a question mark. */
  function Substitute(items: seq<Item>, gs: seq<seq<Slot>>): seq<Out>
    requires |gs| == Arity(items)
    decreases |items|
  {
    if items == [] then []
    else match items[0]
      case Plain(c) => [Chr(c)] + Substitute(items[1..], gs)
      case Verbatim(t) => Chrs(t) + Substitute(items[1..], gs)
      case Escape => [Chr('?')] + Substitute(items[1..], gs)
      case _ => Listed(gs[0]) + Substitute(items[1..], gs[1..])
  }

  /** How a driver writes its binds: @p1, @p2, ... or $1, $2, ... */
  datatype Style = Style(sigil: char, prefix: string)

  const MSSQL := Style('@', "p")
  const PG := Style('$', "")

  predicate IsStyle(style: Style) {
    style == MSSQL || style == PG
  }

  function BindName(style: Style, k: nat): string { style.prefix + Decimal(k) }

  function Bind(style: Style, k: nat): string { [style.sigil] + BindName(style, k) }

  /** The binds of the first n slots. */
  function Binds(style: Style, slots: seq<Slot>, n: nat): map<string, Slot>
    requires n <= |slots|
  {
    if n == 0 then map[] else Binds(style, slots, n - 1)[BindName(style, n) := slots[n - 1]]
  }

  /** A character that a name goes on with: a sigil right after it starts no bind. */
  predicate InName(c: char) { IsWord(c) || c == '@' || c == '$' }

  /**
    * How the database reads the final text: outside closed regions and names, the sigil and the
    * longest word after it are a bind when there is one of that name. `joined`: the text so far
    * ends inside a name, as in IN@p1, IN$1 or @@p1.
    */
  function Read(style: Style, joined: bool, ps: seq<Piece>, binds: map<string, Slot>): seq<Out>
    decreases |ps|
  {
    if ps == [] then []
    else match ps[0]
      case Solid(t) => Chrs(t) + Read(style, false, ps[1..], binds)
      case Ch(c) =>
        var f := Front(ps);
        var n := 1 + WordRun(f[1..]);
        if c == style.sigil && !joined && f[1..n] in binds then
          [Val(binds[f[1..n]])] + Read(style, true, ps[n..], binds)
        else [Chr(c)] + Read(style, InName(c), ps[1..], binds)
  }

  // ---------------------------------------------------------------------------------------
  // Where a placeholder may stand
  // ---------------------------------------------------------------------------------------

  /** The item before a placeholder. */
  predicate LeftNeighbour(i: Item) {
    match i
    case Plain(c) => c != '?'
    case Verbatim(t) => t != "" && t[|t| - 1] != '?'
    case _ => false
  }

  /** The item after a placeholder. */
  predicate RightNeighbour(i: Item) {
    match i
    case Plain(c) => !IsWord(c) && c != '?' && c != '['
    case Verbatim(t) => t != "" && t[0] != '['
    case _ => false
  }

  /** No placeholder touches a question mark or another placeholder, or is followed by a word or a bracket. */
  predicate Delimited(before: Option<Item>, items: seq<Item>)
    decreases |items|
  {
    items == []
    || (&& (IsHole(items[0]) ==>
              (before.Some? ==> LeftNeighbour(before.value)) && (|items| >= 2 ==> RightNeighbour(items[1])))
        && Delimited(Some(items[0]), items[1..]))
  }

  /** A placeholder right after a colon has values: NULL there would be a name. */
  predicate ColonsFit(items: seq<Item>, gs: seq<seq<Slot>>)
    requires |gs| == Arity(items)
    decreases |items|
  {
    items == []
    || if IsHole(items[0]) then ColonsFit(items[1..], gs[1..])
       else
         var rest := items[1..];
         assert Arity(rest) == |gs|;
         (items[0] == Plain(':') && rest != [] && IsHole(rest[0]) ==> gs[0] != []) && ColonsFit(rest, gs)
  }

  /** The word that stands in front of the final text, with an empty list that runs on from it. */
  function WholeWord(items: seq<Item>, gs: seq<seq<Slot>>): string
    requires |gs| == Arity(items)
    decreases |items|
  {
    if items == [] then ""
    else if IsHole(items[0]) then (if gs[0] == [] then "NULL" else "")
    else if items[0].Plain? && IsWord(items[0].c) then [items[0].c] + WholeWord(items[1..], gs)
    else ""
  }

  /** The word is the name of one of n binds. */
  predicate Claims(style: Style, n: nat, w: string) {
    exists k | 0 < k <= n :: BindName(style, k) == w
  }

  /** The text of an item, or the values in its place, end inside a name. */
  predicate EndsInName(i: Item) {
    match i
    case Plain(c) => InName(c)
    case Verbatim(_) => false
    case Escape => false
    case _ => true
  }

  /** The query's own text holds nothing that reads as one of n binds. */
  predicate Unclaimed(style: Style, n: nat, joined: bool, items: seq<Item>, gs: seq<seq<Slot>>)
    requires |gs| == Arity(items)
    decreases |items|
  {
    items == []
    || if IsHole(items[0]) then Unclaimed(style, n, true, items[1..], gs[1..])
       else
         && (items[0] == Plain(style.sigil) && !joined ==> !Claims(style, n, WholeWord(items[1..], gs)))
         && Unclaimed(style, n, EndsInName(items[0]), items[1..], gs)
  }

  /** No placeholder with values stands right after a name. */
  predicate Apart(joined: bool, items: seq<Item>, gs: seq<seq<Slot>>)
    requires |gs| == Arity(items)
    decreases |items|
  {
    items == []
    || if IsHole(items[0]) then (joined ==> gs[0] == []) && Apart(true, items[1..], gs[1..])
       else Apart(EndsInName(items[0]), items[1..], gs)
  }

  predicate NoEscapes(items: seq<Item>) { forall i | 0 <= i < |items| :: !items[i].Escape? }

  // ---------------------------------------------------------------------------------------
  // Rendering items to text, with a word for every placeholder
  // ---------------------------------------------------------------------------------------

  function Render(items: seq<Item>, ws: seq<string>, unescape: bool): string
    requires |ws| == Arity(items)
    decreases |items|
  {
    if items == [] then ""
    else match items[0]
      case Plain(c) => [c] + Render(items[1..], ws, unescape)
      case Verbatim(t) => t + Render(items[1..], ws, unescape)
      case Escape => (if unescape then "?" else "??") + Render(items[1..], ws, unescape)
      case _ => ws[0] + Render(items[1..], ws[1..], unescape)
  }

  /** The first pass: as many placeholders as values. */
  function ExpandedWord(g: seq<Slot>): string { if g == [] then "NULL" else Placeholders(|g|) }

  function ExpandedWords(gs: seq<seq<Slot>>): (ws: seq<string>)
    ensures |ws| == |gs| && forall i | 0 <= i < |gs| :: ws[i] == ExpandedWord(gs[i])
  {
    seq(|gs|, i requires 0 <= i < |gs| => ExpandedWord(gs[i]))
  }

  /** The second pass: binds j + 1, j + 2, ... */
  function BindWords(style: Style, j: nat, n: nat): (ws: seq<string>)
    ensures |ws| == n
    decreases n
  {
    if n == 0 then [] else [Bind(style, j + 1)] + BindWords(style, j + 1, n - 1)
  }

  function BindList(style: Style, j: nat, n: nat): string
    requires n > 0
    decreases n
  {
    if n == 1 then Bind(style, j + 1) else Bind(style, j + 1) + ", " + BindList(style, j + 1, n - 1)
  }

  /** Both passes: n values starting at bind j + 1. */
  function FinalWord(style: Style, j: nat, n: nat): string { if n == 0 then "NULL" else BindList(style, j, n) }

  function FinalWords(style: Style, j: nat, gs: seq<seq<Slot>>): (ws: seq<string>)
    ensures |ws| == |gs|
    decreases gs
  {
    if gs == [] then [] else [FinalWord(style, j, |gs[0]|)] + FinalWords(style, j + |gs[0]|, gs[1..])
  }

  /** A word as items: its question marks are placeholders. */
  function WordItems(w: string): (r: seq<Item>)
    ensures |r| == |w| && forall k | 0 <= k < |w| :: r[k] == if w[k] == '?' then Question else Plain(w[k])
  {
    seq(|w|, k requires 0 <= k < |w| => if w[k] == '?' then Question else Plain(w[k]))
  }

  /** The items of a rendering that keeps escapes, or turns them into question marks. */
  function RenderedItems(items: seq<Item>, ws: seq<string>): seq<Item>
    requires |ws| == Arity(items)
    decreases |items|
  {
    if items == [] then []
    else if IsHole(items[0]) then WordItems(ws[0]) + RenderedItems(items[1..], ws[1..])
    else [items[0]] + RenderedItems(items[1..], ws)
  }

  // ---------------------------------------------------------------------------------------
  // Items and pieces
  // ---------------------------------------------------------------------------------------

  function ItemPieces(i: Item): seq<Piece> {
    match i
    case Plain(c) => [Ch(c)]
    case Verbatim(t) => if t != "" && t[0] == ':' then Chs(t) else [Solid(t)]
    case Question => [Ch('?')]
    case Name(n) => Chs(":" + n)
    case Escape => [Ch('?'), Ch('?')]
  }

  function PiecesOf(items: seq<Item>): seq<Piece> {
    if items == [] then [] else ItemPieces(items[0]) + PiecesOf(items[1..])
  }

  ghost predicate SolidsAreRegions(ps: seq<Piece>) {
    forall i | 0 <= i < |ps| && ps[i].Solid? :: ps[i].text != "" && MayOpen(ps[i].text[0])
  }

  lemma ShapeUnfold(mode: Mode, pre: string, s: string) returns (p: Piece, tail: string)
    requires s != ""
    ensures s == PieceText(p) + tail && PieceText(p) != ""
    ensures Shape(mode, pre, s) == [p] + Shape(mode, pre + PieceText(p), tail)
    ensures p.Solid? ==> MayOpen(p.text[0])
  {
    var n := RegionLength(mode, pre, s);
    assert n > 0 ==> MayOpen(s[0]);
    hide RegionLength;
    assert s[..1] == [s[0]];
    p, tail := if n > 0 then Solid(s[..n]) else Ch(s[0]), s[if n > 0 then n else 1..];
  }

  lemma SolidsCons(p: Piece, ps: seq<Piece>)
    requires SolidsAreRegions(ps) && (p.Solid? ==> p.text != "" && MayOpen(p.text[0]))
    ensures SolidsAreRegions([p] + ps)
  {
  }

  lemma {:induction false} ShapeSolids(mode: Mode, pre: string, s: string)
    ensures SolidsAreRegions(Shape(mode, pre, s))
    ensures TextOf(Shape(mode, pre, s)) == s
    decreases |s|
  {
    if s != "" {
      var p, tail := ShapeUnfold(mode, pre, s);
      hide Shape, MayOpen, SolidsAreRegions;
      var rest := Shape(mode, pre + PieceText(p), tail);
      ShapeSolids(mode, pre + PieceText(p), tail);
      SolidsCons(p, rest);
      assert ([p] + rest)[1..] == rest;
    }
  }

  lemma MarkPieces(f: string, q: bool)
    requires f != ""
    ensures ItemPieces(Mark(f, q).0) == Chs(f[..Mark(f, q).1])
  {
    var (item, n) := Mark(f, q);
    if item.Name? {
      assert ":" + f[1..n] == f[..n];
    } else if item.Verbatim? {
      assert f[..n][0] == ':';
    }
  }

  lemma MarksUnfold(ps: seq<Piece>, q: bool)
    requires ps != [] && SolidsAreRegions(ps)
    ensures var n := if ps[0].Solid? then 1 else Mark(Front(ps), q).1;
            && 0 < n <= |ps|
            && var tail := Marks(ps[n..], EndsWithQuestion(PieceText(ps[n - 1])));
            && Marks(ps, q) != []
            && Marks(ps, q)[1..] == tail
            && ItemPieces(Marks(ps, q)[0]) == ps[..n]
  {
    if ps[0].Solid? {
      assert ps[..1] == [ps[0]];
    } else {
      var f := Front(ps);
      MarkPieces(f, q);
      hide Mark, Marks;
      var n := Mark(f, q).1;
      assert Chs(f[..n]) == ps[..n];
      assert PieceText(ps[n - 1]) == [f[n - 1]];
      MarksText(ps, q);
    }
  }

  lemma MarksStep(ps: seq<Piece>, q: bool) returns (n: nat)
    requires ps != [] && SolidsAreRegions(ps)
    ensures 0 < n <= |ps| && Marks(ps, q) != []
    ensures Marks(ps, q)[1..] == Marks(ps[n..], EndsWithQuestion(PieceText(ps[n - 1])))
    ensures ItemPieces(Marks(ps, q)[0]) == ps[..n]
  {
    MarksUnfold(ps, q);
    n := if ps[0].Solid? then 1 else Mark(Front(ps), q).1;
  }

  lemma MarksText(ps: seq<Piece>, q: bool)
    requires ps != [] && ps[0].Ch?
    ensures var f := Front(ps);
            var (item, n) := Mark(f, q);
            Marks(ps, q) == [item] + Marks(ps[n..], f[n - 1] == '?')
  {
    hide Mark, Front;
  }

  lemma {:induction false} PiecesOfMarks(ps: seq<Piece>, q: bool)
    requires SolidsAreRegions(ps)
    ensures PiecesOf(Marks(ps, q)) == ps
    decreases |ps|
  {
    if ps != [] {
      hide Mark, Marks, Front, SolidsAreRegions, PiecesOf, ItemPieces, EndsWithQuestion;
      var n := MarksStep(ps, q);
      RegionsAfter(ps, n);
      PiecesOfMarks(ps[n..], EndsWithQuestion(PieceText(ps[n - 1])));
      PiecesNext(Marks(ps, q));
      assert ps == ps[..n] + ps[n..];
    } else {
      assert Marks(ps, q) == [];
    }
  }

  lemma PiecesNext(items: seq<Item>)
    requires items != []
    ensures PiecesOf(items) == ItemPieces(items[0]) + PiecesOf(items[1..])
  {
  }

  lemma RegionsAfter(ps: seq<Piece>, n: nat)
    requires n <= |ps| && SolidsAreRegions(ps)
    ensures SolidsAreRegions(ps[n..])
  {
  }

  // ---------------------------------------------------------------------------------------
  // A rendering is an edit of the source text
  // ---------------------------------------------------------------------------------------

  function KeepAll(ps: seq<Piece>): seq<Edit> {
    if ps == [] then [] else [Keep(ps[0])] + KeepAll(ps[1..])
  }

  function ItemEdits(i: Item, w: string, unescape: bool): seq<Edit> {
    match i
    case Question => [Swap("?", w)]
    case Name(n) => [Swap(":" + n, w)]
    case Escape => if unescape then [Swap("??", "?")] else [Keep(Ch('?')), Keep(Ch('?'))]
    case Plain(c) => [Keep(Ch(c))]
    case Verbatim(t) => if t != "" && t[0] == ':' then KeepAll(Chs(t)) else [Keep(Solid(t))]
  }

  function Edits(items: seq<Item>, ws: seq<string>, unescape: bool): seq<Edit>
    requires |ws| == Arity(items)
    decreases |items|
  {
    if items == [] then []
    else if IsHole(items[0]) then ItemEdits(items[0], ws[0], unescape) + Edits(items[1..], ws[1..], unescape)
    else ItemEdits(items[0], "", unescape) + Edits(items[1..], ws, unescape)
  }

  lemma TextAssoc(a: string, b: string, c: string)
    ensures a + (b + c) == (a + b) + c
  {
  }

  lemma {:induction false} EditTextsAppend(a: seq<Edit>, b: seq<Edit>)
    ensures OldText(a + b) == OldText(a) + OldText(b) && NewText(a + b) == NewText(a) + NewText(b)
  {
    if a == [] {
      assert a + b == b;
    } else {
      assert (a + b)[0] == a[0] && (a + b)[1..] == a[1..] + b;
      EditTextsAppend(a[1..], b);
      var was := match a[0] case Keep(p) => PieceText(p) case Swap(o, _) => o;
      var now := match a[0] case Keep(p) => PieceText(p) case Swap(_, n) => n;
      TextAssoc(was, OldText(a[1..]), OldText(b));
      TextAssoc(now, NewText(a[1..]), NewText(b));
    }
  }

  lemma {:induction false} OldPiecesAppend(a: seq<Edit>, b: seq<Edit>)
    ensures OldPieces(a + b) == OldPieces(a) + OldPieces(b)
  {
    if a == [] {
      assert a + b == b;
    } else {
      assert (a + b)[0] == a[0] && (a + b)[1..] == a[1..] + b;
      OldPiecesAppend(a[1..], b);
    }
  }

  lemma {:induction false} NewPiecesAppend(a: seq<Edit>, b: seq<Edit>)
    ensures NewPieces(a + b) == NewPieces(a) + NewPieces(b)
  {
    if a == [] {
      assert a + b == b;
    } else {
      assert (a + b)[0] == a[0] && (a + b)[1..] == a[1..] + b;
      NewPiecesAppend(a[1..], b);
    }
  }

  lemma EditsAppend(a: seq<Edit>, b: seq<Edit>)
    ensures OldText(a + b) == OldText(a) + OldText(b) && NewText(a + b) == NewText(a) + NewText(b)
    ensures OldPieces(a + b) == OldPieces(a) + OldPieces(b) && NewPieces(a + b) == NewPieces(a) + NewPieces(b)
  {
    EditTextsAppend(a, b);
    OldPiecesAppend(a, b);
    NewPiecesAppend(a, b);
  }

  lemma {:induction false} KeepAllChs(t: string)
    ensures var es := KeepAll(Chs(t));
            OldText(es) == NewText(es) == t && OldPieces(es) == NewPieces(es) == Chs(t)
  {
    if t != "" {
      assert Chs(t)[1..] == Chs(t[1..]);
      KeepAllChs(t[1..]);
      assert t == [t[0]] + t[1..];
    }
  }

  lemma OneSwap(was: string, now: string)
    ensures OldText([Swap(was, now)]) == was && NewText([Swap(was, now)]) == now
    ensures OldPieces([Swap(was, now)]) == Chs(was) && NewPieces([Swap(was, now)]) == Chs(now)
  {
    assert [Swap(was, now)][1..] == [];
  }

  lemma OneKeep(p: Piece)
    ensures OldText([Keep(p)]) == NewText([Keep(p)]) == PieceText(p)
    ensures OldPieces([Keep(p)]) == NewPieces([Keep(p)]) == [p]
  {
    assert [Keep(p)][1..] == [];
  }

  /** The new text and pieces of one item. */
  function NewWord(i: Item, w: string, unescape: bool): string {
    match i
    case Plain(c) => [c]
    case Verbatim(t) => t
    case Escape => if unescape then "?" else "??"
    case _ => w
  }

  lemma ItemEditsTexts(i: Item, w: string, unescape: bool)
    ensures var es := ItemEdits(i, w, unescape);
            && OldPieces(es) == ItemPieces(i)
            && NewText(es) == NewWord(i, w, unescape)
            && NewPieces(es) == if i.Verbatim? then ItemPieces(i) else Chs(NewWord(i, w, unescape))
  {
    match i
    case Question => OneSwap("?", w); assert Chs("?") == [Ch('?')];
    case Name(n) => OneSwap(":" + n, w);
    case Plain(c) => OneKeep(Ch(c)); assert Chs([c]) == [Ch(c)];
    case Escape =>
      assert Chs("??") == [Ch('?'), Ch('?')];
      if unescape {
        OneSwap("??", "?");
      } else {
        OneKeep(Ch('?'));
        EditsAppend([Keep(Ch('?'))], [Keep(Ch('?'))]);
        assert [Keep(Ch('?'))] + [Keep(Ch('?'))] == [Keep(Ch('?')), Keep(Ch('?'))];
      }
    case Verbatim(t) =>
      KeepAllChs(t);
      OneKeep(Solid(t));
  }

  lemma {:induction false} EditsTexts(items: seq<Item>, ws: seq<string>, unescape: bool)
    requires |ws| == Arity(items)
    ensures var es := Edits(items, ws, unescape);
            OldPieces(es) == PiecesOf(items) && NewText(es) == Render(items, ws, unescape)
    decreases |items|
  {
    if items != [] {
      var i := items[0];
      var w, vs := if IsHole(i) then ws[0] else "", if IsHole(i) then ws[1..] else ws;
      EditsTexts(items[1..], vs, unescape);
      EditsAppend(ItemEdits(i, w, unescape), Edits(items[1..], vs, unescape));
      ItemEditsTexts(i, w, unescape);
      hide ItemEdits;
      assert Edits(items, ws, unescape) == ItemEdits(i, w, unescape) + Edits(items[1..], vs, unescape);
      assert Render(items, ws, unescape) == NewWord(i, w, unescape) + Render(items[1..], vs, unescape);
    }
  }

  lemma {:induction false} OldTextOfPieces(es: seq<Edit>)
    ensures OldText(es) == TextOf(OldPieces(es))
  {
    if es != [] {
      OldTextOfPieces(es[1..]);
      match es[0]
      case Keep(p) => assert ([p] + OldPieces(es[1..]))[1..] == OldPieces(es[1..]);
      case Swap(o, _) => TextOfChs(o, OldPieces(es[1..]));
    }
  }

  lemma {:induction false} TextOfChs(w: string, ps: seq<Piece>)
    ensures TextOf(Chs(w) + ps) == w + TextOf(ps)
  {
    if w == "" {
      assert Chs(w) + ps == ps;
    } else {
      var rest := Chs(w[1..]) + ps;
      assert Chs(w) + ps == [Ch(w[0])] + rest;
      TextOfChs(w[1..], ps);
      hide Chs;
      assert ([Ch(w[0])] + rest)[1..] == rest;
      assert w + TextOf(ps) == [w[0]] + (w[1..] + TextOf(ps));
    }
  }

  ghost predicate AllHarmless(ws: seq<string>) {
    forall i | 0 <= i < |ws| :: Harmless(ws[i])
  }

  predicate NamesAreWords(items: seq<Item>) {
    forall i | 0 <= i < |items| && items[i].Name? :: items[i].name != "" && AllWord(items[i].name)
  }

  lemma HarmlessName(n: string)
    requires AllWord(n)
    ensures Harmless(":" + n)
  {
    var w := ":" + n;
    forall k | 0 <= k < |w|
      ensures IsHarmless(w[k])
    {
      assert k > 0 ==> IsWord(w[k]);
    }
  }

  lemma SwapsAppend(a: seq<Edit>, b: seq<Edit>)
    requires SwapsAreHarmless(b)
    requires |a| == 1 || (forall i | 0 <= i < |a| :: a[i].Keep?)
    requires |a| == 1 && a[0].Swap? ==>
               && Harmless(a[0].was) && Harmless(a[0].now)
               && (EndsInWord(a[0].was) || EndsInWord(a[0].now) ==> Breaks(b))
    ensures SwapsAreHarmless(a + b)
  {
    var es := a + b;
    forall i | 0 <= i < |es| && es[i].Swap?
      ensures Harmless(es[i].was) && Harmless(es[i].now)
      ensures EndsInWord(es[i].was) || EndsInWord(es[i].now) ==> Breaks(es[i + 1..])
    {
      if i < |a| {
        assert es[1..] == b;
      } else {
        assert es[i] == b[i - |a|] && es[i + 1..] == b[i - |a| + 1..];
      }
    }
  }

  lemma KeepAllKeeps(ps: seq<Piece>)
    ensures |KeepAll(ps)| == |ps|
    ensures forall i | 0 <= i < |ps| :: KeepAll(ps)[i] == Keep(ps[i])
  {
  }

  lemma RightNeighbourBreaks(items: seq<Item>, ws: seq<string>, unescape: bool)
    requires |ws| == Arity(items) && (items != [] ==> RightNeighbour(items[0]))
    ensures Breaks(Edits(items, ws, unescape))
  {
    if items != [] && items[0].Verbatim? {
      KeepAllKeeps(Chs(items[0].text));
    }
  }

  lemma {:induction false} EditsAreHarmless(before: Option<Item>, items: seq<Item>, ws: seq<string>, unescape: bool)
    requires |ws| == Arity(items) && AllHarmless(ws) && Delimited(before, items) && NamesAreWords(items)
    ensures SwapsAreHarmless(Edits(items, ws, unescape))
    decreases |items|
  {
    if items != [] {
      var i := items[0];
      var w, vs := if IsHole(i) then ws[0] else "", if IsHole(i) then ws[1..] else ws;
      EditsAreHarmless(Some(i), items[1..], vs, unescape);
      var a, b := ItemEdits(i, w, unescape), Edits(items[1..], vs, unescape);
      ItemEditsAreHarmless(i, w, unescape, items[1..], vs);
      SwapsAppend(a, b);
    }
  }

  lemma ItemEditsAreHarmless(i: Item, w: string, unescape: bool, items: seq<Item>, ws: seq<string>)
    requires |ws| == Arity(items)
    requires IsHole(i) ==> Harmless(w) && (items != [] ==> RightNeighbour(items[0]))
    requires i.Name? ==> AllWord(i.name)
    ensures var a, b := ItemEdits(i, w, unescape), Edits(items, ws, unescape);
            && (|a| == 1 || forall j | 0 <= j < |a| :: a[j].Keep?)
            && (|a| == 1 && a[0].Swap? ==>
                  && Harmless(a[0].was) && Harmless(a[0].now)
                  && (EndsInWord(a[0].was) || EndsInWord(a[0].now) ==> Breaks(b)))
  {
    if IsHole(i) {
      RightNeighbourBreaks(items, ws, unescape);
      if i.Name? {
        HarmlessName(i.name);
      }
    } else if i.Verbatim? {
      KeepAllKeeps(Chs(i.text));
    }
  }

  /** Rendering a delimited query with harmless words keeps all its regions. */
  lemma RenderKeepsShape(mode: Mode, sql: string, items: seq<Item>, ws: seq<string>, unescape: bool)
    requires items == Items(mode, sql)
    requires |ws| == Arity(items) && AllHarmless(ws) && Delimited(None, items)
    ensures Shape(mode, "", Render(items, ws, unescape)) == NewPieces(Edits(items, ws, unescape))
  {
    hide Shape, Marks, Edits, Delimited;
    var es := Edits(items, ws, unescape);
    ShapeSolids(mode, "", sql);
    PiecesOfMarks(Shape(mode, "", sql), false);
    EditsTexts(items, ws, unescape);
    OldTextOfPieces(es);
    NamesOfMarks(Shape(mode, "", sql), false);
    EditsAreHarmless(None, items, ws, unescape);
    assert "" + "" == "";
    Reshape(mode, "", "", "", es);
  }

  lemma NameOfMark(f: string, q: bool)
    requires f != ""
    ensures Mark(f, q).0.Name? ==> Mark(f, q).0.name != "" && AllWord(Mark(f, q).0.name)
  {
    var n := WordRun(f[1..]);
    assert forall k | 0 <= k < n :: f[1..1 + n][k] == f[1..][k];
  }

  lemma NamesCons(i: Item, items: seq<Item>)
    requires NamesAreWords(items) && (i.Name? ==> i.name != "" && AllWord(i.name))
    ensures NamesAreWords([i] + items)
  {
  }

  lemma {:induction false} NamesOfMarks(ps: seq<Piece>, q: bool)
    ensures NamesAreWords(Marks(ps, q))
    decreases |ps|
  {
    if ps != [] && ps[0].Solid? {
      var tail := Marks(ps[1..], EndsWithQuestion(ps[0].text));
      assert Marks(ps, q) == [Verbatim(ps[0].text)] + tail;
      hide Marks;
      NamesOfMarks(ps[1..], EndsWithQuestion(ps[0].text));
      NamesCons(Verbatim(ps[0].text), tail);
    } else if ps != [] {
      hide Marks, Mark, Front, NamesAreWords;
      var f := Front(ps);
      var (item, n) := Mark(f, q);
      MarksText(ps, q);
      NamesOfMarks(ps[n..], f[n - 1] == '?');
      NameOfMark(f, q);
      NamesCons(item, Marks(ps[n..], f[n - 1] == '?'));
    }
  }
}
