/** What the values of a tree are, as a reader of the JSON text sees them. */
module JsonMeaning {
  import opened JsonDoc
  import opened MtoJson
  import opened Numerals
  import opened Options

  // ------------------------------------------------------- reading scalars

  /** The value of an unquoted text (RFC 8259, sections 3 and 6, integers only). */
  datatype Plain = Null | Truth(b: bool) | Number(n: int) | Unknown

  function ReadPlain(text: string): Plain
  {
    if text == "null" then Null
    else if text == "true" then Truth(true)
    else if text == "false" then Truth(false)
    else if text != [] && IsNumeral(if text[0] == '-' then text[1..] else text, Decimal) then Number(IntOf(text))
    else Unknown
  }

  /** The digits in the order of their values. */
  const DIGITS := "0123456789ABCDEF"

  lemma DigitsInOrder(d: nat)
    requires d < 16
    ensures DIGITS[d] == Digit(d) && DigitValue(DIGITS[d]) == d
  {
  }

  predicate ScalarRead(d: Doc, s: Scalar)
  {
    match s
    case Bool(b) => d.Prim? && ReadPlain(d.text) == Truth(b)
    case Signed(n, _) => d.Prim? && ReadPlain(d.text) == Number(n)
    case Unsigned(u, _) => d.Prim? && ReadPlain(d.text) == Number(u)
    case Hex(u, _) => d.Str? && IsNumeral(d.text, Hexadecimal) && Numerals.Value(d.text, Hexadecimal) == u
  }

  /** The document tells every value of the tree: arrays have their elements up to the first one without a value,
      objects their members up to the first one without a name. */
  predicate Tells(d: Doc, v: Value)
    decreases v, 1
  {
    match v
    case Missing => d.Prim? && ReadPlain(d.text) == Null
    case NullType => d.Prim? && ReadPlain(d.text) == Null
    case Item(s) => ScalarRead(d, s)
    case Text(s) => d == Str(s)
    case Raw(_) => false
    case Block(items) => d.Arr? && |d.items| == |items| && forall i :: 0 <= i < |items| ==> ScalarRead(d.items[i], items[i])
    case BadBlock(_) => d == Arr([])
    case Records(members, count) => d.Arr? && |d.items| == count && forall i :: 0 <= i < count ==> TellsMembers(d.items[i], v, i)
    case Array(elems) => d.Arr? && TellsElems(d.items, v, 0)
    case Object(members) => TellsMembers(d, v, 0)
    case Primitive(inner) => Tells(d, inner)
  }

  /** The documents tell the elements from structure i on. */
  predicate TellsElems(docs: seq<Doc>, v: Value, i: nat)
    requires v.Array?
    decreases v, 0
  {
    && i + |docs| <= |v.elems| && (i + |docs| < |v.elems| ==> v.elems[i + |docs|].Missing?)
    && forall k :: 0 <= k < |docs| ==> !v.elems[i + k].Missing? && Tells(docs[k], v.elems[i + k])
  }

  /** The object tells the members from structure i on. */
  predicate TellsMembers(d: Doc, v: Value, i: nat)
    requires v.Object? || v.Records?
    decreases v, 0
  {
    && d.Obj? && (i + |d.fields| <= |v.members| || d.fields == [])
    && (i + |d.fields| < |v.members| ==> v.members[i + |d.fields|].name.None?)
    && forall k :: 0 <= k < |d.fields| ==>
      v.members[i + k].name == Some(d.fields[k].name) && Tells(d.fields[k].value, v.members[i + k].value)
  }

  // ------------------------------------------------- documents tell trees

  lemma ScalarTold(s: Scalar)
    ensures ScalarRead(ScalarDoc(s), s)
  {
    match s
    case Bool(b) =>
    case Signed(n, _) => NumberRead(n);
    case Unsigned(u, _) => NumberRead(u);
    case Hex(u, _) => NumeralValue(u, Hexadecimal);
  }

  lemma NumberRead(n: int)
    ensures ReadPlain(RenderInt(n)) == Number(n)
  {
    RenderIntValue(n);
    NumeralValue(if n < 0 then -n else n, Decimal);
    var text := RenderInt(n);
    var digits := if n < 0 then text[1..] else text;
    assert digits == Numeral(if n < 0 then -n else n, Decimal);
    assert digits[0] in digits;
  }

  lemma {:induction false} DocTells(v: Value)
    requires Valid(v) && Structured(v)
    ensures Tells(ToDoc(v), v)
    decreases v, 4, 0
  {
    hide ItemDocs, RecordDocs, ElemDocs, FieldDocs, ScalarRead, ScalarDoc;
    match v
    case Item(s) => ScalarTold(s);
    case Block(items) => ItemsTold(items, 0);
    case Records(members, count) => RecordsTold(v, 0);
    case Array(elems) => ElemsTold(v, 0);
    case Object(members) => FieldsTold(v, 0);
    case Primitive(inner) => DocTells(inner);
    case _ =>
  }

  lemma {:induction false} ItemsTold(items: seq<Scalar>, i: nat)
    requires i <= |items|
    ensures |ItemDocs(items, i)| == |items| - i
    ensures forall k :: 0 <= k < |items| - i ==> ScalarRead(ItemDocs(items, i)[k], items[i + k])
    decreases |items| - i
  {
    hide ScalarRead, ScalarDoc;
    if i < |items| {
      ScalarTold(items[i]);
      ItemsTold(items, i + 1);
      forall k | 0 <= k < |items| - i ensures ScalarRead(ItemDocs(items, i)[k], items[i + k]) {
        assert k > 0 ==> ItemDocs(items, i)[k] == ItemDocs(items, i + 1)[k - 1] && items[i + k] == items[(i + 1) + (k - 1)];
      }
    }
  }

  lemma {:induction false} RecordsTold(v: Value, i: nat)
    requires v.Records? && Valid(v) && StructuredRecords(v, i) && i <= v.count
    ensures |RecordDocs(v, i)| == v.count - i
    ensures forall k :: 0 <= k < v.count - i ==> TellsMembers(RecordDocs(v, i)[k], v, i + k)
    decreases v, 2, v.count - i
  {
    hide FieldDocs, StructuredMembers, ValidMember, TellsMembers;
    if i < v.count {
      FieldsTold(v, i);
      RecordsTold(v, i + 1);
      forall k | 0 <= k < v.count - i ensures TellsMembers(RecordDocs(v, i)[k], v, i + k) {
        assert k > 0 ==> RecordDocs(v, i)[k] == RecordDocs(v, i + 1)[k - 1] && i + k == (i + 1) + (k - 1);
      }
    }
  }

  lemma {:induction false} ElemsTold(v: Value, i: nat)
    requires v.Array? && Valid(v) && StructuredElems(v, i) && i <= |v.elems|
    ensures TellsElems(ElemDocs(v, i), v, i)
    decreases v, 1, |v.elems| - i
  {
    hide ToDoc, Structured, Tells;
    if HasElem(v, i) {
      var e, rest := ElemDocs(v, i), ElemDocs(v, i + 1);
      DocTells(v.elems[i]);
      ElemsTold(v, i + 1);
      forall k | 0 <= k < |e|
        ensures !v.elems[i + k].Missing? && Tells(e[k], v.elems[i + k])
      {
        if k == 0 {
          assert e[0] == ToDoc(v.elems[i]);
        } else {
          assert e[k] == rest[k - 1] && v.elems[i + k] == v.elems[(i + 1) + (k - 1)];
        }
      }
    }
  }

  lemma {:induction false} FieldsTold(v: Value, i: nat)
    requires (v.Object? || v.Records?) && Valid(v) && StructuredMembers(v, i)
    ensures TellsMembers(Obj(FieldDocs(v, i)), v, i)
    decreases v, 1, |v.members| - i
  {
    hide ToDoc, Structured, Tells;
    if HasMember(v, i) {
      var f, rest := FieldDocs(v, i), FieldDocs(v, i + 1);
      assert ValidMember(v.members[i]);
      DocTells(v.members[i].value);
      FieldsTold(v, i + 1);
      forall k | 0 <= k < |f|
        ensures v.members[i + k].name == Some(f[k].name) && Tells(f[k].value, v.members[i + k].value)
      {
        assert k > 0 ==> f[k] == rest[k - 1] && v.members[i + k] == v.members[(i + 1) + (k - 1)];
      }
    }
  }
}
