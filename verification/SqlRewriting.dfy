/**
  * Why a second lexing pass reads the output of the first one as intended.
  *
  * The query compiler lexes the SQL, swaps placeholders for other text, and lexes the result
  * again. Here the lexer is split in two: `Shape` cuts out the closed regions (the only part
  * that looks arbitrarily far ahead), `Marks` finds the placeholders in what is left. Their
  * composition is the lexer itself (`MarksOfShape`), and `Reshape` says when swapping text
  * leaves every region where it was.
  */
module SqlRewriting {
  import opened Text
  import opened SqlLexer

  datatype Piece = Ch(c: char) | Solid(text: string)

  predicate MayOpen(c: char) {
    c == '\'' || c == '"' || c == '`' || c == '[' || c == '-' || c == '/'
  }

  predicate IsDelimiter(c: char) { c == '\'' || c == '"' || c == '`' || c == ']' }

  predicate IsHarmless(c: char) {
    !MayOpen(c) && !IsDelimiter(c) && c != '*' && c != '\\' && !IsNewline(c)
  }

  function Shape(mode: Mode, pre: string, s: string): seq<Piece>
    decreases |s|
  {
    if s == "" then []
    else
      var n := RegionLength(mode, pre, s);
      if n > 0 then [Solid(s[..n])] + Shape(mode, pre + s[..n], s[n..])
      else [Ch(s[0])] + Shape(mode, pre + s[..1], s[1..])
  }

  function Chs(s: string): (ps: seq<Piece>)
    ensures |ps| == |s| && forall k | 0 <= k < |s| :: ps[k] == Ch(s[k])
  {
    seq(|s|, k requires 0 <= k < |s| => Ch(s[k]))
  }

  function PieceText(p: Piece): string {
    match p
    case Ch(c) => [c]
    case Solid(t) => t
  }

  function TextOf(ps: seq<Piece>): string {
    if ps == [] then "" else PieceText(ps[0]) + TextOf(ps[1..])
  }

  /** The text up to the first region. */
  function Front(ps: seq<Piece>): (s: string)
    ensures |s| <= |ps| && forall k | 0 <= k < |s| :: ps[k] == Ch(s[k])
  {
    if ps == [] || ps[0].Solid? then "" else [ps[0].c] + Front(ps[1..])
  }

  lemma ShapePlain(mode: Mode, pre: string, s: string)
    requires s != "" && !MayOpen(s[0])
    ensures Shape(mode, pre, s) == [Ch(s[0])] + Shape(mode, pre + s[..1], s[1..])
  {
  }

  lemma {:induction false} ShapeRun(mode: Mode, pre: string, s: string, n: nat)
    requires n <= |s| && forall k | 0 <= k < n :: !MayOpen(s[k])
    ensures Shape(mode, pre, s) == Chs(s[..n]) + Shape(mode, pre + s[..n], s[n..])
    decreases n
  {
    hide Shape;
    if n == 0 {
      assert pre + s[..0] == pre && s[0..] == s;
      assert Chs(s[..0]) == [];
    } else {
      ShapePlain(mode, pre, s);
      ShapeRun(mode, pre + s[..1], s[1..], n - 1);
      assert s[1..][n - 1..] == s[n..];
      assert pre + s[..1] + s[1..][..n - 1] == pre + s[..n];
      assert Chs(s[..n]) == [Ch(s[0])] + Chs(s[1..][..n - 1]);
    }
  }

  lemma {:induction false} FrontOfShape(mode: Mode, pre: string, s: string)
    ensures var f := Front(Shape(mode, pre, s));
            f <= s && (|f| < |s| ==> MayOpen(s[|f|]))
    decreases |s|
  {
    if s != "" && RegionLength(mode, pre, s) == 0 {
      FrontOfShape(mode, pre + s[..1], s[1..]);
      assert Shape(mode, pre, s)[1..] == Shape(mode, pre + s[..1], s[1..]);
    }
  }

  lemma FrontNext(c: char, ps: seq<Piece>)
    ensures Front([Ch(c)] + ps) == [c] + Front(ps)
  {
    assert ([Ch(c)] + ps)[1..] == ps;
  }

  lemma {:induction false} FrontAppend(w: string, ps: seq<Piece>)
    ensures Front(Chs(w) + ps) == w + Front(ps)
  {
    hide Front;
    if w == "" {
      assert Chs(w) + ps == ps;
    } else {
      assert Chs(w) + ps == [Ch(w[0])] + (Chs(w[1..]) + ps);
      FrontNext(w[0], Chs(w[1..]) + ps);
      FrontAppend(w[1..], ps);
      assert w == [w[0]] + w[1..];
    }
  }

  // ---------------------------------------------------------------------------------------
  // Placeholders
  // ---------------------------------------------------------------------------------------

  /** What the visitors see, with plain text taken apart into characters. */
  datatype Item = Plain(c: char) | Verbatim(text: string) | Question | Name(name: string) | Escape

  function Plains(s: string): (r: seq<Item>)
    ensures |r| == |s| && forall k | 0 <= k < |s| :: r[k] == Plain(s[k])
  {
    seq(|s|, k requires 0 <= k < |s| => Plain(s[k]))
  }

  /** The placeholder, or else the plain text, at the start of f; q: a question mark precedes it. */
  function Mark(f: string, q: bool): (r: (Item, nat))
    requires f != ""
    ensures 0 < r.1 <= |f|
  {
    if f[0] == ':' && |f| >= 2 && IsWord(f[1]) then
      var n := 1 + WordRun(f[1..]);
      (Name(f[1..n]), n)
    else if f[0] == '?' && !q && !StartsWith(f, 1, '?') then (Question, 1)
    else if f[0] == ':' && StartsWith(f, 1, ':') then (Verbatim(f[..ColonRun(f)]), ColonRun(f))
    else if f[0] == '?' && StartsWith(f, 1, '?') then (Escape, 2)
    else (Plain(f[0]), 1)
  }

  /** All placeholders of pieced text. */
  function Marks(ps: seq<Piece>, q: bool): seq<Item>
    decreases |ps|
  {
    if ps == [] then []
    else if ps[0].Solid? then [Verbatim(ps[0].text)] + Marks(ps[1..], EndsWithQuestion(ps[0].text))
    else
      var f := Front(ps);
      var (item, n) := Mark(f, q);
      [item] + Marks(ps[n..], f[n - 1] == '?')
  }

  function Flatten(t: Token): seq<Item> {
    match t.kind
    case Named => if t.text == "" then [] else [Name(t.text[1..])]
    case Positional => [Question]
    case EscapedQuestion => [Escape]
    case Other => if |t.text| >= 2 && IsSpecial(t.text[0]) then [Verbatim(t.text)] else Plains(t.text)
  }

  function FlattenAll(ts: seq<Token>): seq<Item> {
    if ts == [] then [] else Flatten(ts[0]) + FlattenAll(ts[1..])
  }

  lemma MarksPlain(c: char, ps: seq<Piece>, q: bool)
    requires !IsSpecial(c)
    ensures Marks([Ch(c)] + ps, q) == [Plain(c)] + Marks(ps, false)
  {
    assert ([Ch(c)] + ps)[1..] == ps;
    assert Mark(Front([Ch(c)] + ps), q) == (Plain(c), 1);
  }

  lemma {:induction false} MarksOfPlainRun(w: string, ps: seq<Piece>, q: bool)
    requires forall k | 0 <= k < |w| :: !IsSpecial(w[k])
    ensures Marks(Chs(w) + ps, q) == Plains(w) + Marks(ps, if w == "" then q else false)
    decreases |w|
  {
    hide Marks;
    if w == "" {
      assert Chs(w) + ps == ps;
      assert Plains(w) == [];
    } else {
      assert Chs(w) + ps == [Ch(w[0])] + (Chs(w[1..]) + ps);
      MarksPlain(w[0], Chs(w[1..]) + ps, q);
      MarksOfPlainRun(w[1..], ps, false);
      assert Plains(w) == [Plain(w[0])] + Plains(w[1..]);
    }
  }

  /** A run is not cut short by the start of a region, which is no word character and no colon. */
  lemma RunsOfFront(s: string, f: string)
    requires f <= s && (|f| < |s| ==> MayOpen(s[|f|]))
    requires |f| >= 1
    ensures 1 + WordRun(s[1..]) == 1 + WordRun(f[1..]) <= |f|
    ensures ColonRun(s) == ColonRun(f)
    ensures |s| >= 2 && (IsWord(s[1]) || s[1] == '?' || s[1] == ':') ==> |f| >= 2
  {
    var a, b := WordRun(s[1..]), WordRun(f[1..]);
    assert forall k | 0 <= k < |f| - 1 :: f[1..][k] == s[1..][k];
    assert |f| < |s| ==> s[1..][|f| - 1] == s[|f|];
  }

  ghost predicate OneStep(mode: Mode, pre: string, s: string)
    requires s != ""
  {
    var t := First(mode, pre, s);
    Marks(Shape(mode, pre, s), EndsWithQuestion(pre))
    == Flatten(t) + Marks(Shape(mode, pre + t.text, s[|t.text|..]), EndsWithQuestion(pre + t.text))
  }

  lemma RegionStep(mode: Mode, pre: string, s: string)
    requires s != "" && RegionLength(mode, pre, s) > 0
    ensures OneStep(mode, pre, s)
  {
    var n := RegionLength(mode, pre, s);
    var t := First(mode, pre, s);
    RegionLengthIsExact(mode, pre, s, n);
    assert t == Token(Other, s[..n]) && n >= 2 && IsSpecial(s[0]);
    hide First, RegionLength, IsClosedRegionAt, MayOpen;
    var rest := Shape(mode, pre + t.text, s[n..]);
    assert Shape(mode, pre, s) == [Solid(t.text)] + rest;
    assert ([Solid(t.text)] + rest)[1..] == rest;
    assert EndsWithQuestion(pre + t.text) == EndsWithQuestion(t.text);
  }

  lemma PlainRunStep(mode: Mode, pre: string, s: string)
    requires s != "" && !IsSpecial(s[0])
    ensures OneStep(mode, pre, s)
  {
    var t := First(mode, pre, s);
    var n := OtherRun(s);
    assert t == Token(Other, s[..n]);
    assert Flatten(t) == Plains(t.text);
    assert !EndsWithQuestion(pre + t.text);
    hide First, RegionLength, Marks, Shape, Flatten, OtherRun, EndsWithQuestion;
    ShapeRun(mode, pre, s, n);
    MarksOfPlainRun(t.text, Shape(mode, pre + t.text, s[n..]), EndsWithQuestion(pre));
  }

  lemma LoneSpecialStep(mode: Mode, pre: string, s: string)
    requires s != "" && IsSpecial(s[0]) && s[0] != ':' && s[0] != '?' && RegionLength(mode, pre, s) == 0
    ensures OneStep(mode, pre, s)
  {
    var t := First(mode, pre, s);
    assert t == Token(Other, s[..1]);
    assert Shape(mode, pre, s) == [Ch(s[0])] + Shape(mode, pre + s[..1], s[1..]);
    hide First, RegionLength, Shape;
    assert Plains(s[..1]) == [Plain(s[0])];
    var rest := Shape(mode, pre + s[..1], s[1..]);
    assert ([Ch(s[0])] + rest)[1..] == rest;
    assert Mark(Front([Ch(s[0])] + rest), EndsWithQuestion(pre)) == (Plain(s[0]), 1);
  }

  /** One token is one step of Shape followed by Marks. */
  lemma FirstIsMarks(mode: Mode, pre: string, s: string)
    requires s != ""
    ensures OneStep(mode, pre, s)
  {
    hide OneStep;
    if s[0] == ':' || s[0] == '?' {
      PlaceholderStep(mode, pre, s);
    } else if RegionLength(mode, pre, s) > 0 {
      RegionStep(mode, pre, s);
    } else if IsSpecial(s[0]) {
      LoneSpecialStep(mode, pre, s);
    } else {
      PlainRunStep(mode, pre, s);
    }
  }

  lemma QuestionIsMark(pre: string, s: string, f: string)
    requires s != "" && s[0] == '?'
    requires f != "" && f <= s && (|f| < |s| ==> MayOpen(s[|f|]))
    ensures var t := FirstAtQuestion(pre, s);
            Flatten(t) == [Mark(f, EndsWithQuestion(pre)).0] && |t.text| == Mark(f, EndsWithQuestion(pre)).1
  {
    hide WordRun, ColonRun;
    assert s[0] == f[0] && (|s| >= 2 && |f| >= 2 ==> s[1] == f[1]);
    assert StartsWith(s, 1, '?') == StartsWith(f, 1, '?');
    assert Plains([s[0]]) == [Plain(s[0])] && s[..1] == [s[0]];
  }

  lemma ColonIsMark(s: string, f: string, q: bool)
    requires s != "" && s[0] == ':'
    requires f != "" && f <= s && (|f| < |s| ==> MayOpen(s[|f|]))
    ensures var t := FirstAtColon(s); Flatten(t) == [Mark(f, q).0] && |t.text| == Mark(f, q).1
  {
    RunsOfFront(s, f);
    hide WordRun, ColonRun;
    assert s[0] == f[0] && (|s| >= 2 && |f| >= 2 ==> s[1] == f[1]);
    if |s| >= 2 && IsWord(s[1]) {
      var n := 1 + WordRun(s[1..]);
      assert s[..n][1..] == f[1..n];
    } else if StartsWith(s, 1, ':') {
      var n := ColonRun(s);
      assert s[..n] == f[..n];
    } else {
      assert Plains([s[0]]) == [Plain(s[0])] && s[..1] == [s[0]];
    }
  }

  lemma FirstIsMark(mode: Mode, pre: string, s: string, f: string)
    requires s != "" && (s[0] == ':' || s[0] == '?')
    requires f != "" && f <= s && (|f| < |s| ==> MayOpen(s[|f|]))
    ensures var t := First(mode, pre, s);
            Flatten(t) == [Mark(f, EndsWithQuestion(pre)).0] && |t.text| == Mark(f, EndsWithQuestion(pre)).1
  {
    hide Flatten, Mark, FirstAtColon, FirstAtQuestion, FirstElsewhere;
    if s[0] == '?' {
      QuestionIsMark(pre, s, f);
    } else {
      ColonIsMark(s, f, EndsWithQuestion(pre));
    }
  }

  lemma RunFirst(text: string, rest: seq<Piece>)
    requires text != ""
    ensures var ps, n := Chs(text) + rest, |text|;
            && ps != [] && ps[0] == Ch(text[0]) && ps[n..] == rest
            && n <= |Front(ps)| && Front(ps)[n - 1] == text[n - 1]
  {
    hide Front;
    FrontAppend(text, rest);
    assert (Chs(text) + rest)[|text|..] == rest;
  }

  lemma PlaceholderStep(mode: Mode, pre: string, s: string)
    requires s != "" && (s[0] == ':' || s[0] == '?')
    ensures OneStep(mode, pre, s)
  {
    hide First, RegionLength, Mark, Flatten, MayOpen, Shape, Front, Marks;
    var t, ps := First(mode, pre, s), Shape(mode, pre, s);
    var n := |t.text|;
    var rest, q := Shape(mode, pre + t.text, s[n..]), EndsWithQuestion(pre);
    FirstNeverOpens(mode, pre, s);
    ShapeRun(mode, pre, s, n);
    assert s[..n] == t.text;
    RunFirst(t.text, rest);
    FrontOfShape(mode, pre, s);
    var f := Front(ps);
    FirstIsMark(mode, pre, s, f);
    MarksNext(ps, q);
    assert EndsWithQuestion(pre + t.text) == (f[n - 1] == '?');
  }

  lemma MarksNext(ps: seq<Piece>, q: bool)
    requires ps != [] && ps[0].Ch?
    ensures Front(ps) != ""
            && Marks(ps, q) == [Mark(Front(ps), q).0]
               + Marks(ps[Mark(Front(ps), q).1..], Front(ps)[Mark(Front(ps), q).1 - 1] == '?')
  {
    hide Mark;
  }

  lemma FirstNeverOpens(mode: Mode, pre: string, s: string)
    requires s != "" && (s[0] == ':' || s[0] == '?')
    ensures forall k | 0 <= k < |First(mode, pre, s).text| :: !MayOpen(s[k])
  {
    var t := First(mode, pre, s);
    assert RegionLength(mode, pre, s) == 0;
    if t.kind == Named {
      assert forall k | 1 <= k < |t.text| :: s[k] == s[1..][k - 1];
    }
  }

  lemma {:induction false} MarksOfShape(mode: Mode, pre: string, s: string)
    ensures Marks(Shape(mode, pre, s), EndsWithQuestion(pre)) == FlattenAll(Lex(mode, pre, s))
    decreases |s|
  {
    if s != "" {
      var t := First(mode, pre, s);
      FirstIsMarks(mode, pre, s);
      MarksOfShape(mode, pre + t.text, s[|t.text|..]);
      assert Lex(mode, pre, s)[1..] == Lex(mode, pre + t.text, s[|t.text|..]);
    }
  }

  // ---------------------------------------------------------------------------------------
  // Edits
  // ---------------------------------------------------------------------------------------

  /** One step of a rewriting: a piece that stays, or text swapped for other text. */
  datatype Edit = Keep(p: Piece) | Swap(was: string, now: string)

  function OldText(es: seq<Edit>): string {
    if es == [] then ""
    else (match es[0] case Keep(p) => PieceText(p) case Swap(o, _) => o) + OldText(es[1..])
  }

  function NewText(es: seq<Edit>): string {
    if es == [] then ""
    else (match es[0] case Keep(p) => PieceText(p) case Swap(_, n) => n) + NewText(es[1..])
  }

  function OldPieces(es: seq<Edit>): seq<Piece> {
    if es == [] then []
    else (match es[0] case Keep(p) => [p] case Swap(o, _) => Chs(o)) + OldPieces(es[1..])
  }

  function NewPieces(es: seq<Edit>): seq<Piece> {
    if es == [] then []
    else (match es[0] case Keep(p) => [p] case Swap(_, n) => Chs(n)) + NewPieces(es[1..])
  }

  /** Text that neither opens nor closes a region, nor helps to. */
  predicate Harmless(w: string) {
    w != "" && forall k | 0 <= k < |w| :: IsHarmless(w[k])
  }

  predicate EndsInWord(w: string) { w != "" && IsWord(w[|w| - 1]) }

  /** What may follow a swap whose old or new text ends in a word character. */
  predicate Breaks(es: seq<Edit>) {
    es == [] || es[0].Swap?
    || match es[0].p
       case Ch(c) => !IsWord(c) && c != '['
       case Solid(t) => t != "" && t[0] != '['
  }

  predicate SwapsAreHarmless(es: seq<Edit>) {
    forall i | 0 <= i < |es| && es[i].Swap? ::
      && Harmless(es[i].was) && Harmless(es[i].now)
      && (EndsInWord(es[i].was) || EndsInWord(es[i].now) ==> Breaks(es[i + 1..]))
  }

  /** The bracket lookbehind sees the same after a + u as after b + u. */
  predicate Linked(a: string, b: string, u: string) {
    || a == b
    || (a != "" && b != "" && ((!EndsInWord(a) && !EndsInWord(b)) || (u != "" && !IsWord(u[0]))))
  }

  lemma LinkedAfterArray(a: string, b: string, u: string)
    requires Linked(a, b, u)
    ensures AfterArray(a + u) == AfterArray(b + u)
  {
    if a != b {
      AfterArrayLocal(a, u);
      AfterArrayLocal(b, u);
    }
  }

  /** With a break between a and u, only u counts. */
  lemma AfterArrayLocal(a: string, u: string)
    requires a != "" && (!EndsInWord(a) || (u != "" && !IsWord(u[0])))
    ensures AfterArray(a + u) == AfterArray(u)
  {
    var s := a + u;
    assert forall k | 0 <= k < |u| :: s[|a| + k] == u[k];
    assert s[|s| - |u| - 1] == a[|a| - 1];
  }

  /** Harmless text passes through every scanner without closing it or arming it. */
  lemma {:induction false} CloseAtHarmless(k: Closer, w: string, r: string, armed: bool)
    requires Harmless(w)
    requires k.Delimiter? ==> IsDelimiter(k.d)
    ensures CloseAt(k, w + r, armed) == 0 <==> CloseAt(k, r, false) == 0
    decreases |w|
  {
    assert (w + r)[1..] == w[1..] + r;
    assert Step(k, armed, w[0]) == Open(false);
    if |w| > 1 {
      CloseAtHarmless(k, w[1..], r, false);
    } else {
      assert w[1..] + r == r;
    }
  }

  lemma {:induction false} CloseAtSameTail(k: Closer, t: string, r: string, r': string, armed: bool)
    requires forall a :: CloseAt(k, r, a) == 0 <==> CloseAt(k, r', a) == 0
    ensures CloseAt(k, t + r, armed) == 0 <==> CloseAt(k, t + r', armed) == 0
    decreases |t|
  {
    if t == "" {
      assert t + r == r && t + r' == r';
    } else {
      assert (t + r)[1..] == t[1..] + r && (t + r')[1..] == t[1..] + r';
      CloseAtSameTail(k, t[1..], r, r', true);
      CloseAtSameTail(k, t[1..], r, r', false);
    }
  }

  /** A region that stays open in the old text stays open in the new text, and conversely. */
  lemma {:induction false} OpenStaysOpen(k: Closer, es: seq<Edit>, armed: bool)
    requires SwapsAreHarmless(es)
    requires k.Delimiter? ==> IsDelimiter(k.d)
    ensures CloseAt(k, OldText(es), armed) == 0 <==> CloseAt(k, NewText(es), armed) == 0
    decreases |es|
  {
    if es != [] {
      var o, n := OldText(es[1..]), NewText(es[1..]);
      SwapsOfTail(es);
      OpenStaysOpen(k, es[1..], true);
      OpenStaysOpen(k, es[1..], false);
      match es[0]
      case Keep(p) => CloseAtSameTail(k, PieceText(p), o, n, armed);
      case Swap(was, now) =>
        CloseAtHarmless(k, was, o, armed);
        CloseAtHarmless(k, now, n, armed);
    }
  }

  lemma SwapsOfTail(es: seq<Edit>)
    requires es != [] && SwapsAreHarmless(es)
    ensures SwapsAreHarmless(es[1..])
  {
    forall i | 0 <= i < |es[1..]| && es[1..][i].Swap?
      ensures Harmless(es[1..][i].was) && Harmless(es[1..][i].now)
      ensures EndsInWord(es[1..][i].was) || EndsInWord(es[1..][i].now) ==> Breaks(es[1..][i + 1..])
    {
      assert es[1..][i] == es[i + 1];
      assert es[1..][i + 1..] == es[i + 2..];
    }
  }

  /** First characters after an edit point: the same, or harmless on both sides. */
  ghost predicate SameHead(r: string, r': string) {
    && (r == "" <==> r' == "")
    && (r != "" ==> r[0] == r'[0] || (Harmless(r[..1]) && Harmless(r'[..1])))
  }

  lemma HeadsOfEdits(mode: Mode, pre: string, es: seq<Edit>)
    requires SwapsAreHarmless(es) && Shape(mode, pre, OldText(es)) == OldPieces(es)
    ensures SameHead(OldText(es), NewText(es))
    ensures es != [] && es[0].Keep? ==> PieceText(es[0].p) != ""
  {
    hide RegionLength;
    if es != [] && es[0].Keep? {
      assert OldPieces(es)[0] == es[0].p;
      assert PieceText(es[0].p) != "";
    }
  }

  lemma SolidStays(mode: Mode, p: string, p': string, t: string, r: string, r': string)
    requires t != "" && RegionLength(mode, p, t + r) == |t|
    requires SameHead(r, r') && (t[0] == '[' ==> AfterArray(p) == AfterArray(p'))
    ensures RegionLength(mode, p', t + r') == |t|
  {
    RegionLengthIsExact(mode, p, t + r, |t|);
    RegionLengthIsExact(mode, p', t + r', |t|);
    hide RegionLength;
    assert (t + r)[..|t|] == t && (t + r')[..|t|] == t;
    assert r != "" ==> (t + r)[|t|] == r[0] && (t + r')[|t|] == r'[0];
  }

  lemma CharStays(mode: Mode, p: string, p': string, c: char, es: seq<Edit>)
    requires SwapsAreHarmless(es) && SameHead(OldText(es), NewText(es))
    requires es != [] && es[0].Keep? ==> PieceText(es[0].p) != ""
    requires RegionLength(mode, p, [c] + OldText(es)) == 0
    requires c == '[' ==> AfterArray(p) == AfterArray(p')
    ensures RegionLength(mode, p', [c] + NewText(es)) == 0
  {
    var s, s' := [c] + OldText(es), [c] + NewText(es);
    assert s[1..] == OldText(es) && s'[1..] == NewText(es);
    var o := Opens(mode, p, s);
    assert Opens(mode, p', s') == o;
    if o.Region? && o.opener == 1 {
      OpenStaysOpen(o.closer, es, false);
    } else if o.Region? {
      CommentStaysOpen(es);
      assert s[2..] == OldText(es)[1..] && s'[2..] == NewText(es)[1..];
    }
  }

  lemma TextsAfterFirst(es: seq<Edit>)
    requires es != [] && es[0].Keep? && PieceText(es[0].p) != ""
    ensures var t := PieceText(es[0].p)[1..];
            && OldText(es) != "" && OldText(es)[1..] == t + OldText(es[1..])
            && NewText(es) != "" && NewText(es)[1..] == t + NewText(es[1..])
  {
  }

  lemma CommentStaysOpen(es: seq<Edit>)
    requires SwapsAreHarmless(es) && es != [] && es[0].Keep? && PieceText(es[0].p) != ""
    ensures OldText(es) != "" && NewText(es) != ""
    ensures CloseAt(StarSlash, OldText(es)[1..], false) == 0 <==> CloseAt(StarSlash, NewText(es)[1..], false) == 0
  {
    hide CloseAt, OldText, NewText;
    var t := PieceText(es[0].p)[1..];
    SwapsOfTail(es);
    OpenStaysOpen(StarSlash, es[1..], false);
    OpenStaysOpen(StarSlash, es[1..], true);
    CloseAtSameTail(StarSlash, t, OldText(es[1..]), NewText(es[1..]), false);
    TextsAfterFirst(es);
  }

  lemma {:induction false} HarmlessRun(mode: Mode, pre: string, w: string, r: string)
    requires Harmless(w)
    ensures Shape(mode, pre, w + r) == Chs(w) + Shape(mode, pre + w, r)
  {
    ShapeRun(mode, pre, w + r, |w|);
    assert (w + r)[..|w|] == w && (w + r)[|w|..] == r;
  }

  /** Swapping harmless text for harmless text leaves every region in place. */
  lemma {:induction false} Reshape(mode: Mode, a: string, b: string, u: string, es: seq<Edit>)
    requires SwapsAreHarmless(es)
    requires Linked(a, b, u) || (u == "" && a != "" && b != "" && Breaks(es))
    requires Shape(mode, a + u, OldText(es)) == OldPieces(es)
    ensures Shape(mode, b + u, NewText(es)) == NewPieces(es)
    decreases |es|, 1
  {
    if es != [] {
      SwapsOfTail(es);
      match es[0]
      case Swap(was, now) => ReshapeSwap(mode, a, b, u, es);
      case Keep(p) =>
        if Linked(a, b, u) {
          LinkedAfterArray(a, b, u);
        }
        match p
        case Solid(t) => ReshapeSolid(mode, a, b, u, es);
        case Ch(c) => ReshapeChar(mode, a, b, u, es);
    }
  }

  lemma ReshapeSwap(mode: Mode, a: string, b: string, u: string, es: seq<Edit>)
    requires es != [] && es[0].Swap? && SwapsAreHarmless(es) && SwapsAreHarmless(es[1..])
    requires Shape(mode, a + u, OldText(es)) == OldPieces(es)
    ensures Shape(mode, b + u, NewText(es)) == NewPieces(es)
    decreases |es|, 0
  {
    var was, now := es[0].was, es[0].now;
    HarmlessRun(mode, a + u, was, OldText(es[1..]));
    HarmlessRun(mode, b + u, now, NewText(es[1..]));
    hide Shape;
    assert OldPieces(es)[|was|..] == OldPieces(es[1..]);
    var a', b' := a + u + was, b + u + now;
    assert a' + "" == a' && b' + "" == b';
    Reshape(mode, a', b', "", es[1..]);
  }

  lemma ShapeSolid(mode: Mode, pre: string, t: string, r: string)
    requires t != "" && RegionLength(mode, pre, t + r) == |t|
    ensures Shape(mode, pre, t + r) == [Solid(t)] + Shape(mode, pre + t, r)
  {
    assert (t + r)[..|t|] == t && (t + r)[|t|..] == r;
  }

  lemma ShapeChar(mode: Mode, pre: string, c: char, r: string)
    requires RegionLength(mode, pre, [c] + r) == 0
    ensures Shape(mode, pre, [c] + r) == [Ch(c)] + Shape(mode, pre + [c], r)
  {
    assert ([c] + r)[..1] == [c] && ([c] + r)[1..] == r;
  }

  lemma SolidAtFront(mode: Mode, pre: string, t: string, r: string)
    requires t + r != "" && Shape(mode, pre, t + r)[0] == Solid(t)
    ensures t != "" && RegionLength(mode, pre, t + r) == |t| && !IsWord(t[0])
  {
    assert RegionLength(mode, pre, t + r) > 0;
  }

  lemma SolidEdit(mode: Mode, p: string, p': string, t: string, es: seq<Edit>)
    requires SwapsAreHarmless(es)
    requires Shape(mode, p, t + OldText(es)) == [Solid(t)] + OldPieces(es)
    requires t != "" && t[0] == '[' ==> AfterArray(p) == AfterArray(p')
    ensures t != "" && !IsWord(t[0])
    ensures Shape(mode, p + t, OldText(es)) == OldPieces(es)
    ensures Shape(mode, p', t + NewText(es)) == [Solid(t)] + Shape(mode, p' + t, NewText(es))
  {
    hide RegionLength, AfterArray;
    SolidAtFront(mode, p, t, OldText(es));
    ShapeSolid(mode, p, t, OldText(es));
    hide Shape;
    assert ([Solid(t)] + OldPieces(es))[1..] == OldPieces(es);
    assert ([Solid(t)] + Shape(mode, p + t, OldText(es)))[1..] == Shape(mode, p + t, OldText(es));
    HeadsOfEdits(mode, p + t, es);
    SolidStays(mode, p, p', t, OldText(es), NewText(es));
    ShapeSolid(mode, p', t, NewText(es));
  }

  lemma ReshapeSolid(mode: Mode, a: string, b: string, u: string, es: seq<Edit>)
    requires es != [] && es[0].Keep? && es[0].p.Solid? && SwapsAreHarmless(es) && SwapsAreHarmless(es[1..])
    requires Linked(a, b, u) || (u == "" && a != "" && b != "" && Breaks(es))
    requires Linked(a, b, u) ==> AfterArray(a + u) == AfterArray(b + u)
    requires Shape(mode, a + u, OldText(es)) == OldPieces(es)
    ensures Shape(mode, b + u, NewText(es)) == NewPieces(es)
    decreases |es|, 0
  {
    hide RegionLength, AfterArray, Shape;
    var t, rest := es[0].p.text, es[1..];
    SolidEdit(mode, a + u, b + u, t, rest);
    assert a + u + t == a + (u + t) && b + u + t == b + (u + t);
    Reshape(mode, a, b, u + t, rest);
  }

  lemma CharAtFront(mode: Mode, pre: string, c: char, r: string)
    requires Shape(mode, pre, [c] + r)[0] == Ch(c)
    ensures RegionLength(mode, pre, [c] + r) == 0
  {
  }

  lemma CharEdit(mode: Mode, p: string, p': string, c: char, es: seq<Edit>)
    requires SwapsAreHarmless(es)
    requires Shape(mode, p, [c] + OldText(es)) == [Ch(c)] + OldPieces(es)
    requires c == '[' ==> AfterArray(p) == AfterArray(p')
    ensures Shape(mode, p + [c], OldText(es)) == OldPieces(es)
    ensures Shape(mode, p', [c] + NewText(es)) == [Ch(c)] + Shape(mode, p' + [c], NewText(es))
  {
    hide RegionLength, AfterArray;
    CharAtFront(mode, p, c, OldText(es));
    ShapeChar(mode, p, c, OldText(es));
    hide Shape;
    assert ([Ch(c)] + OldPieces(es))[1..] == OldPieces(es);
    assert ([Ch(c)] + Shape(mode, p + [c], OldText(es)))[1..] == Shape(mode, p + [c], OldText(es));
    HeadsOfEdits(mode, p + [c], es);
    CharStays(mode, p, p', c, es);
    ShapeChar(mode, p', c, NewText(es));
  }

  lemma ReshapeChar(mode: Mode, a: string, b: string, u: string, es: seq<Edit>)
    requires es != [] && es[0].Keep? && es[0].p.Ch? && SwapsAreHarmless(es) && SwapsAreHarmless(es[1..])
    requires Linked(a, b, u) || (u == "" && a != "" && b != "" && Breaks(es))
    requires Linked(a, b, u) ==> AfterArray(a + u) == AfterArray(b + u)
    requires Shape(mode, a + u, OldText(es)) == OldPieces(es)
    ensures Shape(mode, b + u, NewText(es)) == NewPieces(es)
    decreases |es|, 0
  {
    hide RegionLength, AfterArray, Shape;
    var c, rest := es[0].p.c, es[1..];
    CharEdit(mode, a + u, b + u, c, rest);
    assert a + u + [c] == a + (u + [c]) && b + u + [c] == b + (u + [c]);
    Reshape(mode, a, b, u + [c], rest);
  }
}
