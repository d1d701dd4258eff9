/** The text the JSON generator makes of a tree of to_json structures. */
module MtoJson {
  import opened Numerals
  import opened Options

  datatype Scalar = Bool(b: bool) | Signed(n: int, w: Width) | Unsigned(u: nat, w: Width) | Hex(u: nat, w: Width)

  /** What the value pointer and type of a to_json structure denote. An array of structures ends
      at the first one without a value, an object at the first one without a name; the
      terminating structure after the last element is implied. */
  datatype Value =
    | Missing
    | NullType
    | Item(scalar: Scalar)
    | Text(text: string)
    | Raw(text: string)
    | Block(items: seq<Scalar>)
    | Records(members: seq<Member>, count: nat)
    | BadBlock(count: nat)
    | Array(elems: seq<Value>)
    | Object(members: seq<Member>)
    | Primitive(inner: Value)

  datatype Member = Member(name: Option<string>, value: Value)

  /** Text without NUL, as C strings are. */
  predicate CString(s: string)
  {
    forall c :: c in s ==> c != '\0'
  }

  predicate ValidScalar(s: Scalar)
  {
    match s
    case Bool(_) => true
    case Signed(n, w) => IsSigned(n, w)
    case Unsigned(u, w) => IsUnsigned(u, w)
    case Hex(u, w) => IsUnsigned(u, w)
  }

  /** Numbers are in the range of their C type, strings are C strings, C arrays lie inside their structures. */
  predicate Valid(v: Value)
    decreases v
  {
    match v
    case Missing => true
    case NullType => true
    case Item(s) => ValidScalar(s)
    case Text(s) => CString(s)
    case Raw(s) => CString(s)
    case Block(items) => forall i :: 0 <= i < |items| ==> ValidScalar(items[i])
    case Records(members, count) => count <= |members| + 1 && forall i :: 0 <= i < |members| ==> ValidMember(members[i])
    case BadBlock(_) => true
    case Array(elems) => forall i :: 0 <= i < |elems| ==> Valid(elems[i])
    case Object(members) => forall i :: 0 <= i < |members| ==> ValidMember(members[i])
    case Primitive(inner) => Valid(inner)
  }

  predicate ValidMember(m: Member)
    decreases m
  {
    (m.name.Some? ==> CString(m.name.value)) && Valid(m.value)
  }

  predicate HasElem(v: Value, i: nat)
    requires v.Array?
  {
    i < |v.elems| && !v.elems[i].Missing?
  }

  predicate HasMember(v: Value, i: nat)
    requires v.Object? || v.Records?
  {
    i < |v.members| && v.members[i].name.Some?
  }

  /** The structure types the generator accepts at the top. */
  predicate TopLevel(v: Value)
  {
    v.Array? || v.Object? || v.Primitive?
  }

  // ------------------------------------------------------------ rendering

  predicate NeedsEscape(c: char)
  {
    c == '"' || c == '\\'
  }

  function Escape(s: string): string
  {
    if s == [] then [] else (if NeedsEscape(s[0]) then ['\\', s[0]] else [s[0]]) + Escape(s[1..])
  }

  function RenderInt(n: int): string
  {
    if n < 0 then "-" + Numeral(-n, Decimal) else Numeral(n, Decimal)
  }

  /** What a decimal numeral with an optional sign stands for. */
  function IntOf(s: string): int
    requires s != [] && IsNumeral(if s[0] == '-' then s[1..] else s, Decimal)
  {
    if s[0] == '-' then -(Numerals.Value(s[1..], Decimal) as int) else Numerals.Value(s, Decimal)
  }

  lemma RenderIntValue(n: int)
    ensures IsNumeral(if RenderInt(n)[0] == '-' then RenderInt(n)[1..] else RenderInt(n), Decimal)
    ensures IntOf(RenderInt(n)) == n
  {
    NumeralValue(if n < 0 then -n else n, Decimal);
    if n < 0 {
      assert RenderInt(n)[1..] == Numeral(-n, Decimal);
    }
  }

  function RenderScalar(s: Scalar): string
  {
    match s
    case Bool(b) => if b then "true" else "false"
    case Signed(n, w) => RenderInt(n)
    case Unsigned(u, w) => Numeral(u, Decimal)
    case Hex(u, w) => "\"" + Numeral(u, Hexadecimal) + "\""
  }

  function Render(v: Value): string
    decreases v, 4, 0
  {
    match v
    case Missing => "null"
    case NullType => "null"
    case Item(s) => RenderScalar(s)
    case Text(s) => "\"" + Escape(s) + "\""
    case Raw(s) => s
    case Block(items) => "[" + RenderItems(items, 0) + "]"
    case Records(members, count) => "[" + RenderRecords(v, 0) + "]"
    case BadBlock(count) => "[]"
    case Array(elems) => "[" + RenderElems(v, 0) + "]"
    case Object(members) => Braced(v, 0)
    case Primitive(inner) => Render(inner)
  }

  /** Scalars of a C array from i on, separated by commas. */
  function RenderItems(items: seq<Scalar>, i: nat): string
    decreases |items| - i
  {
    if i >= |items| then ""
    else RenderScalar(items[i]) + if i + 1 < |items| then "," + RenderItems(items, i + 1) else ""
  }

  /** The object whose members start at structure i. */
  function Braced(v: Value, i: nat): string
    requires v.Object? || v.Records?
    decreases v, 2, 0
  {
    "{" + RenderMembers(v, i) + "}"
  }

  /** A C array of objects: each element starts at its own structure and runs to the first without a name. */
  function RenderRecords(v: Value, i: nat): string
    requires v.Records?
    decreases v, 3, v.count - i
  {
    if i >= v.count then ""
    else Braced(v, i) + if i + 1 < v.count then "," + RenderRecords(v, i + 1) else ""
  }

  function RenderElems(v: Value, i: nat): string
    requires v.Array?
    decreases v, 1, |v.elems| - i
  {
    if !HasElem(v, i) then ""
    else Render(v.elems[i]) + if HasElem(v, i + 1) then "," + RenderElems(v, i + 1) else ""
  }

  /** Names are copied as they are. */
  function Key(name: string): string
  {
    "\"" + name + "\":"
  }

  function RenderMember(v: Value, i: nat): string
    requires (v.Object? || v.Records?) && HasMember(v, i)
    decreases v, 0, 0
  {
    Key(v.members[i].name.value) + Render(v.members[i].value)
  }

  function RenderMembers(v: Value, i: nat): string
    requires v.Object? || v.Records?
    decreases v, 1, |v.members| - i
  {
    if !HasMember(v, i) then ""
    else RenderMember(v, i) + if HasMember(v, i + 1) then "," + RenderMembers(v, i + 1) else ""
  }

  /** No nonempty C array of a type the generator cannot step through. */
  predicate Renderable(v: Value)
    decreases v, 4, 0
  {
    match v
    case BadBlock(count) => count == 0
    case Records(members, count) => RenderableRecords(v, 0)
    case Array(elems) => RenderableElems(v, 0)
    case Object(members) => RenderableMembers(v, 0)
    case Primitive(inner) => Renderable(inner)
    case _ => true
  }

  predicate RenderableRecords(v: Value, i: nat)
    requires v.Records?
    decreases v, 2, v.count - i
  {
    i < v.count ==> RenderableMembers(v, i) && RenderableRecords(v, i + 1)
  }

  predicate RenderableElems(v: Value, i: nat)
    requires v.Array?
    decreases v, 1, |v.elems| - i
  {
    HasElem(v, i) ==> Renderable(v.elems[i]) && RenderableElems(v, i + 1)
  }

  predicate RenderableMembers(v: Value, i: nat)
    requires v.Object? || v.Records?
    decreases v, 1, |v.members| - i
  {
    HasMember(v, i) ==> Renderable(v.members[i].value) && RenderableMembers(v, i + 1)
  }
}
