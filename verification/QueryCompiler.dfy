/**
  * Query compilation: array expansion (src/expand-array-parameters.ts), conversion to named
  * bindings (src/connection.ts) and the drivers' own rewriters (src/driver/pg/connection.ts,
  * src/driver/mssql/connection.ts).
  */
module QueryCompiler {
  import opened Text
  import opened SqlLexer

  datatype Value = Atom(id: int) | Characters(text: string) | Array(elements: seq<Value>) {

    /** What an array type goes through: the elements, or the characters of a string. */
    function Elements(): Option<seq<Value>> {
      match this
      case Atom(_) => None
      case Characters(s) => Some(seq(|s|, i requires 0 <= i < |s| => Characters([s[i]])))
      case Array(vs) => Some(vs)
    }
  }

  datatype ScalarType =
    | NullType | Integer | String | LargeObject | Boolean | Binary | Ascii
    | Custom(name: string)

  datatype ArrayType = IntegerArray | StringArray | AsciiArray | BinaryArray

  datatype ParamType = One(scalar: ScalarType) | Many(elementType: ArrayType)

  function ToElementParameterType(a: ArrayType): ScalarType {
    match a
    case IntegerArray => Integer
    case StringArray => String
    case AsciiArray => Ascii
    case BinaryArray => Binary
  }

  /** A list or a record; a list also owns its indices and "length" as names. */
  datatype Params = ListParams(values: seq<Value>) | NamedParams(entries: map<string, Value>) {

    function AtIndex(i: nat): Option<Value> {
      match this
      case ListParams(vs) => if i < |vs| then Some(vs[i]) else None
      case NamedParams(m) => if Decimal(i) in m then Some(m[Decimal(i)]) else None
    }

    function AtName(name: string): Option<Value> {
      match this
      case ListParams(vs) => if name == "length" then Some(Atom(|vs|)) else AtNumeral(vs, name, 0)
      case NamedParams(m) => if name in m then Some(m[name]) else None
    }

    static function AtNumeral(vs: seq<Value>, name: string, i: nat): Option<Value>
      decreases |vs| - i
    {
      if i >= |vs| then None else if Decimal(i) == name then Some(vs[i]) else AtNumeral(vs, name, i + 1)
    }
  }

  /** A list (with holes) or a record. */
  datatype Types = ListTypes(types: seq<Option<ParamType>>) | NamedTypes(entries: map<string, ParamType>) {

    function AtIndex(i: nat): Option<ParamType> {
      match this
      case ListTypes(ts) => if i < |ts| then ts[i] else None
      case NamedTypes(m) => if Decimal(i) in m then Some(m[Decimal(i)]) else None
    }

    function AtName(name: string): Option<ParamType> {
      match this
      case ListTypes(_) => None
      case NamedTypes(m) => if name in m then Some(m[name]) else None
    }
  }

  datatype Error =
    | MissingPositional(index: nat)
    | MissingNamed(name: string)
    | NotIterable
    | NamedNotExpected

  // ---------------------------------------------------------------------------------------
  // The expanding visitor
  // ---------------------------------------------------------------------------------------

  /** n placeholders joined by a comma and a space. */
  function Placeholders(n: nat): (s: string)
    requires n > 0
    ensures |s| == 3 * n - 2
  {
    if n == 1 then "?" else "?, " + Placeholders(n - 1)
  }

  /** The sparse type list with n positions from `first` on set to t. */
  function Fill(m: map<nat, ScalarType>, first: nat, n: nat, t: ScalarType): (r: map<nat, ScalarType>)
    ensures forall i: nat :: i in r <==> i in m || first <= i < first + n
    ensures forall i | i in r :: r[i] == if first <= i < first + n then t else m[i]
  {
    if n == 0 then m else Fill(m, first, n - 1, t)[first + n - 1 := t]
  }

  lemma FillNone(m: map<nat, ScalarType>, first: nat, t: ScalarType)
    ensures Fill(m, first, 0, t) == m
  {
  }

  lemma FillNext(m: map<nat, ScalarType>, first: nat, n: nat, t: ScalarType)
    ensures Fill(m, first, n + 1, t) == Fill(m, first, n, t)[first + n := t]
  {
  }

  /** The visitor's fields. */
  datatype Expansion = Expansion(index: nat, sql: string, values: seq<Value>, types: map<nat, ScalarType>) {

    ghost predicate Valid() { forall i | i in types :: i < |values| }

    function AppendTyped(vs: seq<Value>, t: ScalarType): Expansion
      requires vs != []
    {
      this.(sql := sql + Placeholders(|vs|),
            values := values + vs,
            types := Fill(types, |values|, |vs|, t))
    }

    function AcceptParameter(value: Value, t: Option<ParamType>): Result<Expansion, Error> {
      match t
      case None => Ok(this.(sql := sql + "?", values := values + [value]))
      case Some(One(scalar)) => Ok(AppendTyped([value], scalar))
      case Some(Many(a)) =>
        match value.Elements()
        case None => Err(NotIterable)
        case Some(vs) =>
          if vs == [] then Ok(this.(sql := sql + "NULL"))
          else Ok(AppendTyped(vs, ToElementParameterType(a)))
    }

    function Accept(call: Token, params: Params, ts: Types): Result<Expansion, Error> {
      match call.kind
      case Other => Ok(this.(sql := sql + call.text))
      case EscapedQuestion => Ok(this.(sql := sql + "??"))
      case Positional =>
        (match params.AtIndex(index)
         case None => Err(MissingPositional(index))
         case Some(v) =>
           match AcceptParameter(v, ts.AtIndex(index))
           case Ok(e) => Ok(e.(index := index + 1))
           case Err(e) => Err(e))
      case Named =>
        var name := if call.text == "" then "" else call.text[1..];
        match params.AtName(name)
        case None => Err(MissingNamed(name))
        case Some(v) => AcceptParameter(v, ts.AtName(name))
    }

    function AcceptAll(calls: seq<Token>, params: Params, ts: Types): Result<Expansion, Error>
      decreases |calls|
    {
      if calls == [] then Ok(this)
      else match Accept(calls[0], params, ts)
        case Ok(e) => e.AcceptAll(calls[1..], params, ts)
        case Err(e) => Err(e)
    }
  }

  class ExpandArrayParameters {
    const parameters: Params
    const types: Types
    var originalParameterIndex: nat
    var convertedSQL: string
    var convertedParameters: seq<Value>
    var convertedTypes: map<nat, ScalarType>

    constructor (parameters: Params, types: Types)
      ensures this.parameters == parameters && this.types == types
      ensures State() == Expansion(0, "", [], map[])
    {
      this.parameters, this.types := parameters, types;
      originalParameterIndex, convertedSQL, convertedParameters, convertedTypes := 0, "", [], map[];
    }

    ghost function State(): Expansion
      reads this
    {
      Expansion(originalParameterIndex, convertedSQL, convertedParameters, convertedTypes)
    }

    method AppendTypedParameter(values: seq<Value>, t: ScalarType)
      requires values != []
      modifies this
      ensures State() == old(State()).AppendTyped(values, t)
    {
      hide Fill, Placeholders;
      convertedSQL := convertedSQL + Placeholders(|values|);
      var first := |convertedParameters|;
      ghost var before := convertedTypes;
      FillNone(before, first, t);
      var k := 0;
      while k < |values|
        invariant 0 <= k <= |values|
        invariant originalParameterIndex == old(originalParameterIndex)
        invariant convertedSQL == old(convertedSQL) + Placeholders(|values|)
        invariant convertedParameters == old(convertedParameters) + values[..k]
        invariant convertedTypes == Fill(before, first, k, t)
      {
        FillNext(before, first, k, t);
        assert values[..k + 1] == values[..k] + [values[k]];
        convertedParameters := convertedParameters + [values[k]];
        convertedTypes := convertedTypes[first + k := t];
        k := k + 1;
      }
    }

    method AcceptParameter(value: Value, t: Option<ParamType>) returns (r: Result<(), Error>)
      modifies this
      ensures r.Ok? ==> old(State()).AcceptParameter(value, t) == Ok(State())
      ensures r.Err? ==> old(State()).AcceptParameter(value, t) == Err(r.error)
    {
      if t.None? {
        convertedSQL := convertedSQL + "?";
        convertedParameters := convertedParameters + [value];
      } else if t.value.One? {
        AppendTypedParameter([value], t.value.scalar);
      } else {
        var values := value.Elements();
        if values.None? {
          return Err(NotIterable);
        } else if values.value == [] {
          convertedSQL := convertedSQL + "NULL";
        } else {
          AppendTypedParameter(values.value, ToElementParameterType(t.value.elementType));
        }
      }
      r := Ok(());
    }

    method AcceptPositionalParameter() returns (r: Result<(), Error>)
      modifies this
      ensures var spec := old(State()).Accept(Token(Positional, "?"), parameters, types);
              spec == if r.Ok? then Ok(State()) else Err(r.error)
    {
      var index := originalParameterIndex;
      var value := parameters.AtIndex(index);
      if value.None? {
        return Err(MissingPositional(index));
      }
      r := AcceptParameter(value.value, types.AtIndex(index));
      if r.Ok? {
        originalParameterIndex := originalParameterIndex + 1;
      }
    }

    method AcceptNamedParameter(sql: string) returns (r: Result<(), Error>)
      requires sql != ""
      modifies this
      ensures var spec := old(State()).Accept(Token(Named, sql), parameters, types);
              spec == if r.Ok? then Ok(State()) else Err(r.error)
    {
      var name := sql[1..];
      var value := parameters.AtName(name);
      if value.None? {
        return Err(MissingNamed(name));
      }
      r := AcceptParameter(value.value, types.AtName(name));
    }

    /** What the parser does with one token. */
    method Visit(call: Token) returns (r: Result<(), Error>)
      requires call.text != ""
      modifies this
      ensures old(State()).Accept(call, parameters, types) == if r.Ok? then Ok(State()) else Err(r.error)
    {
      r := Ok(());
      match call.kind {
        case Named => r := AcceptNamedParameter(call.text);
        case Positional => r := AcceptPositionalParameter();
        case EscapedQuestion => AcceptEscapedQuestionMark();
        case Other => AcceptOther(call.text);
      }
    }

    method AcceptOther(sql: string)
      modifies this
      ensures State() == old(State()).(sql := old(convertedSQL) + sql)
    {
      convertedSQL := convertedSQL + sql;
    }

    /** Keeps the escape, so that a later pass can still tell it from a placeholder. */
    method AcceptEscapedQuestionMark()
      modifies this
      ensures State() == old(State()).(sql := old(convertedSQL) + "??")
    {
      convertedSQL := convertedSQL + "??";
    }
  }

  // ---------------------------------------------------------------------------------------
  // compileQuery
  // ---------------------------------------------------------------------------------------

  datatype CompiledPositional = CompiledPositional(sql: string, values: seq<Value>, types: map<nat, ScalarType>)

  type Slot = (Value, ScalarType)

  datatype CompiledNamed = CompiledNamed(sql: string, binds: map<string, Slot>)

  /** The type bindValue gets: a hole in the list reads as STRING. */
  function TypeAt(types: map<nat, ScalarType>, i: nat): ScalarType {
    if i in types then types[i] else String
  }

  predicate NeedsExpansion(params: Params, types: Types) {
    params.NamedParams? || (types.ListTypes? && exists t | t in types.types :: t.Some? && t.value.Many?)
  }

  /** normalizePositionalTypes */
  function NormalizedType(types: Types, i: nat): ScalarType {
    match types
    case NamedTypes(_) => String
    case ListTypes(_) =>
      match types.AtIndex(i)
      case None => String
      case Some(One(t)) => t
      case Some(Many(a)) => ToElementParameterType(a)
  }

  /** One type for every position. */
  function NormalizePositionalTypes(n: nat, types: Types): (r: map<nat, ScalarType>)
    ensures forall i: nat :: i in r <==> i < n
  {
    map i: nat | i < n :: NormalizedType(types, i)
  }

  function FullExpansion(sql: string, params: Params, types: Types): Result<CompiledPositional, Error> {
    match Expansion(0, "", [], map[]).AcceptAll(Lex(MySql, "", sql), params, types)
    case Ok(e) => Ok(CompiledPositional(e.sql, e.values, e.types))
    case Err(e) => Err(e)
  }

  function ExpandedQuery(sql: string, params: Params, types: Types): Result<CompiledPositional, Error> {
    if NeedsExpansion(params, types) then FullExpansion(sql, params, types)
    else Ok(CompiledPositional(sql, params.values, NormalizePositionalTypes(|params.values|, types)))
  }

  lemma {:induction false} TokensAreNonempty(mode: Mode, pre: string, s: string)
    ensures forall i | 0 <= i < |Lex(mode, pre, s)| :: Lex(mode, pre, s)[i].text != ""
    decreases |s|
  {
    if s != "" {
      var t := First(mode, pre, s);
      TokensAreNonempty(mode, pre + t.text, s[|t.text|..]);
    }
  }

  method ExpandQuery(sql: string, params: Params, types: Types) returns (r: Result<CompiledPositional, Error>)
    ensures r == ExpandedQuery(sql, params, types)
  {
    if !NeedsExpansion(params, types) {
      return Ok(CompiledPositional(sql, params.values, NormalizePositionalTypes(|params.values|, types)));
    }
    hide Lex, First;
    var visitor := new ExpandArrayParameters(params, types);
    var parser := new Parser(true);
    var calls := parser.Parse(sql);
    TokensAreNonempty(MySql, "", sql);
    ghost var result := visitor.State().AcceptAll(calls, params, types);
    var k := 0;
    while k < |calls|
      invariant 0 <= k <= |calls|
      invariant visitor.parameters == params && visitor.types == types
      invariant fresh(visitor)
      invariant visitor.State().AcceptAll(calls[k..], params, types) == result
      invariant forall i | 0 <= i < |calls| :: calls[i].text != ""
    {
      var call := calls[k];
      assert calls[k..][0] == call && calls[k..][1..] == calls[k + 1..];
      var step := visitor.Visit(call);
      if step.Err? {
        return Err(step.error);
      }
      k := k + 1;
    }
    r := Ok(CompiledPositional(visitor.convertedSQL, visitor.convertedParameters, visitor.convertedTypes));
  }

  /** Converted text and the number of parameters used so far. */
  datatype Conversion = Conversion(sql: string, binds: map<string, Slot>, index: nat)

  /** convertPositionalToNamedBindings: named and positional placeholders both take the next value. */
  function ConvertNamed(calls: seq<Token>, values: seq<Value>, types: map<nat, ScalarType>, c: Conversion)
    : Result<Conversion, Error>
    decreases |calls|
  {
    if calls == [] then Ok(c)
    else match calls[0].kind
      case Other => ConvertNamed(calls[1..], values, types, c.(sql := c.sql + calls[0].text))
      case EscapedQuestion => ConvertNamed(calls[1..], values, types, c.(sql := c.sql + "?"))
      case _ =>
        if c.index >= |values| then Err(MissingPositional(c.index))
        else
          var name := "p" + Decimal(c.index + 1);
          var slot := (values[c.index], TypeAt(types, c.index));
          ConvertNamed(calls[1..], values, types,
                       Conversion(c.sql + "@" + name, c.binds[name := slot], c.index + 1))
  }

  method ConvertPositionalToNamedBindings(sql: string, values: seq<Value>, types: map<nat, ScalarType>)
    returns (r: Result<CompiledNamed, Error>)
    ensures match ConvertNamed(Lex(MySql, "", sql), values, types, Conversion("", map[], 0))
            case Ok(c) => r == Ok(CompiledNamed(c.sql, c.binds))
            case Err(e) => r == Err(e)
  {
    hide Lex, First, Decimal;
    var parser := new Parser(true);
    var calls := parser.Parse(sql);
    var text, binds, index := "", map[], 0;
    ghost var result := ConvertNamed(calls, values, types, Conversion("", map[], 0));
    var k := 0;
    while k < |calls|
      invariant 0 <= k <= |calls|
      invariant ConvertNamed(calls[k..], values, types, Conversion(text, binds, index)) == result
    {
      var call := calls[k];
      assert calls[k..][0] == call && calls[k..][1..] == calls[k + 1..];
      match call.kind {
        case Other => text := text + call.text;
        case EscapedQuestion => text := text + "?";
        case Named | Positional =>
          if index >= |values| {
            return Err(MissingPositional(index));
          }
          var name := "p" + Decimal(index + 1);
          text, binds := text + "@" + name, binds[name := (values[index], TypeAt(types, index))];
          index := index + 1;
      }
      k := k + 1;
    }
    r := Ok(CompiledNamed(text, binds));
  }

  /** compileQuery for a driver with named bindings. */
  function CompiledNamedQuery(sql: string, params: Params, types: Types): Result<CompiledNamed, Error> {
    match ExpandedQuery(sql, params, types)
    case Err(e) => Err(e)
    case Ok(mid) =>
      match ConvertNamed(Lex(MySql, "", mid.sql), mid.values, mid.types, Conversion("", map[], 0))
      case Ok(c) => Ok(CompiledNamed(c.sql, c.binds))
      case Err(e) => Err(e)
  }

  method CompileNamedQuery(sql: string, params: Params, types: Types) returns (r: Result<CompiledNamed, Error>)
    ensures r == CompiledNamedQuery(sql, params, types)
  {
    var mid := ExpandQuery(sql, params, types);
    if mid.Err? {
      return Err(mid.error);
    }
    r := ConvertPositionalToNamedBindings(mid.value.sql, mid.value.values, mid.value.types);
  }

  /** The pg driver: positional placeholders become $1, $2, ... and named ones are refused. */
  function ConvertPg(calls: seq<Token>, text: string, index: nat): Result<string, Error>
    decreases |calls|
  {
    if calls == [] then Ok(text)
    else match calls[0].kind
      case Other => ConvertPg(calls[1..], text + calls[0].text, index)
      case EscapedQuestion => ConvertPg(calls[1..], text + "?", index)
      case Positional => ConvertPg(calls[1..], text + "$" + Decimal(index + 1), index + 1)
      case Named => Err(NamedNotExpected)
  }

  method ConvertPositionalPlaceholders(sql: string) returns (r: Result<string, Error>)
    ensures r == ConvertPg(Lex(Ansi, "", sql), "", 0)
  {
    var parser := new Parser(false);
    var calls := parser.Parse(sql);
    var text, index := "", 0;
    var k := 0;
    while k < |calls|
      invariant 0 <= k <= |calls|
      invariant ConvertPg(calls[k..], text, index) == ConvertPg(calls, "", 0)
    {
      var call := calls[k];
      assert calls[k..][0] == call && calls[k..][1..] == calls[k + 1..];
      match call.kind {
        case Other => text := text + call.text;
        case EscapedQuestion => text := text + "?";
        case Positional =>
          index := index + 1;
          text := text + "$" + Decimal(index);
        case Named => return Err(NamedNotExpected);
      }
      k := k + 1;
    }
    r := Ok(text);
  }

  /** The mssql driver lexes the compiled text once more, in ANSI mode. */
  function ConvertMssql(calls: seq<Token>, text: string, position: nat): string
    decreases |calls|
  {
    if calls == [] then text
    else match calls[0].kind
      case Other => ConvertMssql(calls[1..], text + calls[0].text, position)
      case EscapedQuestion => ConvertMssql(calls[1..], text + "?", position)
      case Positional => ConvertMssql(calls[1..], text + "@p" + Decimal(position + 1), position + 1)
      case Named => ConvertMssql(calls[1..], text + "@" + (if calls[0].text == "" then "" else calls[0].text[1..]),
                                 position)
  }

  method ConvertPlaceholders(sql: string) returns (r: string)
    ensures r == ConvertMssql(Lex(Ansi, "", sql), "", 0)
  {
    var parser := new Parser(false);
    var calls := parser.Parse(sql);
    TokensAreNonempty(Ansi, "", sql);
    r := "";
    var position, k := 0, 0;
    while k < |calls|
      invariant 0 <= k <= |calls|
      invariant ConvertMssql(calls[k..], r, position) == ConvertMssql(calls, "", 0)
    {
      var call := calls[k];
      assert calls[k..][0] == call && calls[k..][1..] == calls[k + 1..];
      match call.kind {
        case Other => r := r + call.text;
        case EscapedQuestion => r := r + "?";
        case Positional =>
          position := position + 1;
          r := r + "@p" + Decimal(position);
        case Named => r := r + "@" + call.text[1..];
      }
      k := k + 1;
    }
  }
}
