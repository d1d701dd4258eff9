/** JSON documents: what a tree of to_json structures means, whatever structures it is made of. */
module JsonDoc {
  import opened MtoJson
  import opened Numerals
  import opened Options

  /** An unquoted value, a string, an array, or an object. */
  datatype Doc = Prim(text: string) | Str(text: string) | Arr(items: seq<Doc>) | Obj(fields: seq<Field>)
  datatype Field = Field(name: string, value: Doc)

  // -------------------------------------------------------------- meaning

  function ScalarDoc(s: Scalar): Doc
  {
    if s.Hex? then Str(Numeral(s.u, Hexadecimal)) else Prim(RenderScalar(s))
  }

  /** No raw text, and renderable. */
  predicate Structured(v: Value)
    decreases v, 4, 0
  {
    match v
    case Raw(_) => false
    case BadBlock(count) => count == 0
    case Records(members, count) => StructuredRecords(v, 0)
    case Array(elems) => StructuredElems(v, 0)
    case Object(members) => StructuredMembers(v, 0)
    case Primitive(inner) => Structured(inner)
    case _ => true
  }

  predicate StructuredRecords(v: Value, i: nat)
    requires v.Records?
    decreases v, 2, v.count - i
  {
    i < v.count ==> StructuredMembers(v, i) && StructuredRecords(v, i + 1)
  }

  predicate StructuredElems(v: Value, i: nat)
    requires v.Array?
    decreases v, 1, |v.elems| - i
  {
    HasElem(v, i) ==> Structured(v.elems[i]) && StructuredElems(v, i + 1)
  }

  predicate StructuredMembers(v: Value, i: nat)
    requires v.Object? || v.Records?
    decreases v, 1, |v.members| - i
  {
    HasMember(v, i) ==> Structured(v.members[i].value) && StructuredMembers(v, i + 1)
  }

  function ToDoc(v: Value): Doc
    decreases v, 4, 0
  {
    match v
    case Missing => Prim("null")
    case NullType => Prim("null")
    case Item(s) => ScalarDoc(s)
    case Text(s) => Str(s)
    case Raw(s) => Prim(s)
    case Block(items) => Arr(ItemDocs(items, 0))
    case Records(members, count) => Arr(RecordDocs(v, 0))
    case BadBlock(_) => Arr([])
    case Array(elems) => Arr(ElemDocs(v, 0))
    case Object(members) => Obj(FieldDocs(v, 0))
    case Primitive(inner) => ToDoc(inner)
  }

  function ItemDocs(items: seq<Scalar>, i: nat): seq<Doc>
    decreases |items| - i
  {
    if i >= |items| then [] else [ScalarDoc(items[i])] + ItemDocs(items, i + 1)
  }

  function RecordDocs(v: Value, i: nat): seq<Doc>
    requires v.Records?
    decreases v, 2, v.count - i
  {
    if i >= v.count then [] else [Obj(FieldDocs(v, i))] + RecordDocs(v, i + 1)
  }

  function ElemDocs(v: Value, i: nat): seq<Doc>
    requires v.Array?
    decreases v, 1, |v.elems| - i
  {
    if !HasElem(v, i) then [] else [ToDoc(v.elems[i])] + ElemDocs(v, i + 1)
  }

  function FieldDocs(v: Value, i: nat): seq<Field>
    requires v.Object? || v.Records?
    decreases v, 1, |v.members| - i
  {
    if !HasMember(v, i) then []
    else [Field(v.members[i].name.value, ToDoc(v.members[i].value))] + FieldDocs(v, i + 1)
  }

  // ------------------------------------------------------------- printing

  function Print(d: Doc): string
  {
    match d
    case Prim(t) => t
    case Str(t) => "\"" + Escape(t) + "\""
    case Arr(items) => "[" + PrintItems(items) + "]"
    case Obj(fields) => "{" + PrintFields(fields) + "}"
  }

  function PrintItems(items: seq<Doc>): string
  {
    if items == [] then "" else Print(items[0]) + if |items| > 1 then "," + PrintItems(items[1..]) else ""
  }

  function PrintFields(fields: seq<Field>): string
  {
    if fields == [] then "" else PrintField(fields[0]) + if |fields| > 1 then "," + PrintFields(fields[1..]) else ""
  }

  function PrintField(f: Field): string
  {
    Key(f.name) + Print(f.value)
  }

  lemma {:induction false} EscapeNothing(s: string)
    requires forall c :: c in s ==> !NeedsEscape(c)
    ensures Escape(s) == s
  {
    if s != [] {
      assert s[0] in s;
      EscapeNothing(s[1..]);
    }
  }

  lemma ScalarPrints(s: Scalar)
    ensures Print(ScalarDoc(s)) == RenderScalar(s)
  {
    if s.Hex? {
      EscapeNothing(Numeral(s.u, Hexadecimal));
    }
  }

  /** The generator's text is the printed form of the document, however the tree is built:
      terminated arrays, C arrays and nested primitives print alike. */
  lemma {:induction false} RenderPrints(v: Value)
    requires Structured(v)
    ensures Render(v) == Print(ToDoc(v))
    decreases v, 4, 0
  {
    match v
    case Item(s) => ScalarPrints(s);
    case Block(items) => ItemsPrint(items, 0);
    case Records(members, count) => RecordsPrint(v, 0);
    case Array(elems) => ElemsPrint(v, 0);
    case Object(members) => FieldsPrint(v, 0);
    case Primitive(inner) => RenderPrints(inner);
    case _ =>
  }

  lemma {:induction false} ItemsPrint(items: seq<Scalar>, i: nat)
    ensures RenderItems(items, i) == PrintItems(ItemDocs(items, i))
    decreases |items| - i
  {
    hide RenderScalar, ScalarDoc, Print;
    if i < |items| {
      ScalarPrints(items[i]);
      ItemsPrint(items, i + 1);
      assert ItemDocs(items, i)[1..] == ItemDocs(items, i + 1);
    }
  }

  lemma {:induction false} RecordsPrint(v: Value, i: nat)
    requires v.Records? && StructuredRecords(v, i)
    ensures RenderRecords(v, i) == PrintItems(RecordDocs(v, i))
    decreases v, 2, v.count - i
  {
    hide RenderMembers, FieldDocs, PrintFields, StructuredMembers;
    if i < v.count {
      FieldsPrint(v, i);
      RecordsPrint(v, i + 1);
      assert RecordDocs(v, i)[1..] == RecordDocs(v, i + 1);
    }
  }

  lemma {:induction false} ElemsPrint(v: Value, i: nat)
    requires v.Array? && StructuredElems(v, i)
    ensures RenderElems(v, i) == PrintItems(ElemDocs(v, i))
    decreases v, 1, |v.elems| - i
  {
    hide Render, ToDoc, Print, Structured;
    if HasElem(v, i) {
      RenderPrints(v.elems[i]);
      ElemsPrint(v, i + 1);
      assert ElemDocs(v, i)[1..] == ElemDocs(v, i + 1);
    }
  }

  lemma {:induction false} FieldsPrint(v: Value, i: nat)
    requires (v.Object? || v.Records?) && StructuredMembers(v, i)
    ensures RenderMembers(v, i) == PrintFields(FieldDocs(v, i))
    decreases v, 1, |v.members| - i
  {
    hide Render, ToDoc, Print, Structured, Key;
    if HasMember(v, i) {
      RenderPrints(v.members[i].value);
      FieldsPrint(v, i + 1);
      assert FieldDocs(v, i)[1..] == FieldDocs(v, i + 1);
    }
  }

  // ---------------------------------------------------------- well-formed

  /** Text of an unquoted value: no delimiter, quote or bracket, all printable. */
  predicate PrimText(s: string)
  {
    s != [] && forall c :: c in s ==> '0' <= c <= '9' || 'a' <= c <= 'z' || c == '-'
  }

  predicate Proper(d: Doc)
  {
    match d
    case Prim(t) => PrimText(t)
    case Str(t) => CString(t)
    case Arr(items) => forall i :: 0 <= i < |items| ==> Proper(items[i])
    case Obj(fields) => forall i :: 0 <= i < |fields| ==> CString(fields[i].name) && Proper(fields[i].value)
  }

  lemma ScalarProper(s: Scalar)
    ensures Proper(ScalarDoc(s))
  {
    match s
    case Bool(b) =>
    case Signed(n, w) => NumeralValue(if n < 0 then -n else n, Decimal);
    case Unsigned(u, w) => NumeralValue(u, Decimal);
    case Hex(u, w) =>
  }

  lemma {:induction false} DocProper(v: Value)
    requires Valid(v) && Structured(v)
    ensures Proper(ToDoc(v))
    decreases v, 4, 0
  {
    match v
    case Item(s) => ScalarProper(s);
    case Block(items) => ItemsProper(items, 0);
    case Records(members, count) => RecordsProper(v, 0);
    case Array(elems) => ElemsProper(v, 0);
    case Object(members) => FieldsProper(v, 0);
    case Primitive(inner) => DocProper(inner);
    case _ =>
  }

  lemma {:induction false} ItemsProper(items: seq<Scalar>, i: nat)
    ensures forall d :: d in ItemDocs(items, i) ==> Proper(d)
    decreases |items| - i
  {
    if i < |items| {
      ScalarProper(items[i]);
      ItemsProper(items, i + 1);
    }
  }

  lemma {:induction false} RecordsProper(v: Value, i: nat)
    requires v.Records? && Valid(v) && StructuredRecords(v, i)
    ensures forall d :: d in RecordDocs(v, i) ==> Proper(d)
    decreases v, 2, v.count - i
  {
    hide FieldDocs, StructuredMembers, ValidMember;
    if i < v.count {
      FieldsProper(v, i);
      RecordsProper(v, i + 1);
    }
  }

  lemma {:induction false} ElemsProper(v: Value, i: nat)
    requires v.Array? && Valid(v) && StructuredElems(v, i)
    ensures forall d :: d in ElemDocs(v, i) ==> Proper(d)
    decreases v, 1, |v.elems| - i
  {
    hide ToDoc, Structured;
    if HasElem(v, i) {
      DocProper(v.elems[i]);
      ElemsProper(v, i + 1);
    }
  }

  lemma {:induction false} FieldsProper(v: Value, i: nat)
    requires (v.Object? || v.Records?) && Valid(v) && StructuredMembers(v, i)
    ensures forall f :: f in FieldDocs(v, i) ==> CString(f.name) && Proper(f.value)
    decreases v, 1, |v.members| - i
  {
    hide ToDoc, Structured;
    if HasMember(v, i) {
      assert ValidMember(v.members[i]);
      DocProper(v.members[i].value);
      FieldsProper(v, i + 1);
    }
  }
}
