/** The JSON generator as it runs: text written forward into a buffer, with the space left counted down. */
module JsonGenerator {
  import opened MtoJson
  import opened Numerals
  import opened Options

  class Generator {
    const out: array<char>
    var pos: nat
    var remainingLength: nat

    ghost predicate Valid()
      reads this
    {
      pos + remainingLength <= out.Length
    }

    /** Nothing before position p or from position p + r on differs from the earlier contents. */
    ghost predicate Inside(before: seq<char>, p: nat, r: nat)
      reads this, out
      requires |before| == out.Length && p + r <= out.Length
    {
      p <= pos && forall k :: 0 <= k < p || p + r <= k < out.Length ==> out[k] == before[k]
    }

    /** Exactly the text s was written at p and paid for out of r. */
    ghost predicate Wrote(before: seq<char>, p: nat, r: nat, s: string)
      reads this, out
      requires |before| == out.Length && p + r <= out.Length
    {
      && pos == p + |s| <= out.Length && remainingLength + |s| == r
      && out[..pos] == before[..p] + s && forall k :: p + r <= k < out.Length ==> out[k] == before[k]
    }

    /** The text done was written from p on, and one more character is paid for out of r. */
    ghost predicate Building(before: seq<char>, p: nat, r: nat, done: string)
      reads this, out
    {
      remainingLength + |done| + 1 == r && Built(out[..], pos, remainingLength, before, p, r, done)
    }

    static ghost predicate Built(now: seq<char>, pos: nat, left: nat, before: seq<char>, p: nat, r: nat, done: string) {
      && |before| == |now| && p + r <= |now|
      && left + |done| + 1 == r && pos == p + |done|
      && now[..pos] == before[..p] + done && forall k :: p + r <= k < |now| ==> now[k] == before[k]
    }

    lemma More(before: seq<char>, p: nat, r: nat, done: string, s: string, was: seq<char>, q: nat, left: nat)
      requires |was| == out.Length && q + left <= |was|
      requires Built(was, q, left, before, p, r, done) && Wrote(was, q, left, s)
      ensures Building(before, p, r, done + s) && remainingLength + |s| == left
    {
    }

    /** A failed attempt to go on has not written outside. */
    lemma Failed(before: seq<char>, p: nat, r: nat, done: string, was: seq<char>, q: nat, left: nat)
      requires |was| == out.Length && q + left <= |was|
      requires Built(was, q, left, before, p, r, done) && Inside(was, q, left)
      ensures Inside(before, p, r)
    {
    }

    /** Pays for a pair of brackets and writes the first. */
    method OpenBracket(c: char) returns (ok: bool)
      requires Valid()
      modifies this`pos, this`remainingLength, out
      ensures Valid() && Inside(old(out[..]), old(pos), old(remainingLength))
      ensures ok == (2 <= old(remainingLength))
      ensures ok ==> Building(old(out[..]), old(pos), old(remainingLength), [c])
    {
      ok := ReduceRemLen(2);
      if ok {
        Put(c);
      }
    }

    method CloseBracket(c: char, ghost before: seq<char>, ghost p: nat, ghost r: nat, ghost done: string)
      requires Building(before, p, r, done)
      modifies this`pos, out
      ensures Valid() && Inside(before, p, r) && Wrote(before, p, r, done + [c])
    {
      Put(c);
    }

    /** Writes into the given buffer. */
    constructor (out: array<char>)
      ensures this.out == out && pos == 0 && remainingLength == 0
    {
      this.out := out;
      pos, remainingLength := 0, 0;
    }

    method ReduceRemLen(len: nat) returns (ok: bool)
      modifies this`remainingLength
      ensures ok == (len <= old(remainingLength))
      ensures remainingLength == if ok then old(remainingLength) - len else old(remainingLength)
    {
      if remainingLength < len {
        return false;
      }
      remainingLength := remainingLength - len;
      ok := true;
    }

    /** One character into space that is already paid for. */
    method Put(c: char)
      requires pos + remainingLength < out.Length
      modifies this`pos, out
      ensures pos == old(pos) + 1 && out[..pos] == old(out[..pos]) + [c]
      ensures forall k :: pos <= k < out.Length ==> out[k] == old(out[k])
    {
      out[pos] := c;
      pos := pos + 1;
    }

    /** Copies a text, paying for it. */
    method StrcpyVal(s: string) returns (ok: bool)
      requires Valid()
      modifies this`pos, this`remainingLength, out
      ensures Valid() && Inside(old(out[..]), old(pos), old(remainingLength)) && ok == (|s| <= old(remainingLength))
      ensures !ok ==> pos == old(pos) && remainingLength == old(remainingLength) && out[..] == old(out[..])
      ensures ok ==> Wrote(old(out[..]), old(pos), old(remainingLength), s)
    {
      ok := ReduceRemLen(|s|);
      if ok {
        Copy(s);
      }
    }

    /** Copies a text into space that is already paid for. */
    method Copy(s: string)
      requires pos + |s| + remainingLength <= out.Length
      modifies this`pos, out
      ensures pos == old(pos) + |s| && out[..pos] == old(out[..pos]) + s
      ensures forall k :: pos <= k < out.Length ==> out[k] == old(out[k])
    {
      ghost var p := pos;
      for i := 0 to |s|
        invariant pos == p + i && out[..pos] == old(out[..p]) + s[..i]
        invariant forall k :: p + |s| <= k < out.Length ==> out[k] == old(out[k])
      {
        out[pos] := s[i];
        pos := pos + 1;
        assert s[..i + 1] == s[..i] + [s[i]];
      }
      assert s[..|s|] == s;
    }

    /** Writes the numeral of n from its last digit backwards. */
    method Utoa(n: nat, base: Base) returns (ok: bool)
      requires Valid()
      modifies this`pos, this`remainingLength, out
      ensures Valid() && ok == (|Numeral(n, base)| <= old(remainingLength))
      ensures !ok ==> pos == old(pos) && remainingLength == old(remainingLength) && out[..] == old(out[..])
      ensures ok ==> Wrote(old(out[..]), old(pos), old(remainingLength), Numeral(n, base))
    {
      var s := pos;
      var m := n;
      while !Fits(m, base)
        invariant s >= pos && s - pos + |Numeral(m, base)| == |Numeral(n, base)|
        decreases m
      {
        m := Quotient(m, base);
        s := s + 1;
      }
      var e := s + 1;
      ghost var p, text := pos, Numeral(n, base);
      ok := ReduceRemLen(e - pos);
      if ok {
        WriteDigits(n, base, s);
        pos := e;
        assert out[..e] == out[..p] + out[p..e];
      }
    }

    /** Fills the digits of n from position pos to position last. */
    method WriteDigits(n: nat, base: Base, last: nat)
      requires last < out.Length && last + 1 == pos + |Numeral(n, base)|
      modifies out
      ensures out[pos..last + 1] == Numeral(n, base)
      ensures out[..pos] == old(out[..pos]) && out[last + 1..] == old(out[last + 1..])
    {
      var s: int := last;
      var m := n;
      ghost var rest: string := [];
      while s >= pos
        invariant pos - 1 <= s <= last && rest == out[s + 1..last + 1]
        invariant s >= pos ==> Numeral(m, base) + rest == Numeral(n, base)
        invariant s < pos ==> rest == Numeral(n, base)
        invariant out[..pos] == old(out[..pos]) && out[last + 1..] == old(out[last + 1..])
        decreases s
      {
        ghost var digits := Numeral(m, base);
        out[s] := Digit(Remainder(m, base));
        assert out[s..last + 1] == [out[s]] + rest;
        ghost var more := [out[s]] + rest;
        if Fits(m, base) {
          assert |digits| == 1;
        } else {
          assert digits + rest == Numeral(Quotient(m, base), base) + more;
        }
        rest := more;
        m := Quotient(m, base);
        s := s - 1;
      }
    }

    // Every generator below succeeds exactly when its text fits in the space left (and can be
    // rendered at all), and then has written exactly that text; it never writes elsewhere.

    method GenNull() returns (ok: bool)
      requires Valid()
      modifies this`pos, this`remainingLength, out
      ensures Valid() && Inside(old(out[..]), old(pos), old(remainingLength))
      ensures ok == (|Render(NullType)| <= old(remainingLength))
      ensures ok ==> Wrote(old(out[..]), old(pos), old(remainingLength), Render(NullType))
    {
      ok := StrcpyVal("null");
    }

    method GenBoolean(b: bool) returns (ok: bool)
      requires Valid()
      modifies this`pos, this`remainingLength, out
      ensures Valid() && Inside(old(out[..]), old(pos), old(remainingLength))
      ensures ok == (|RenderScalar(Bool(b))| <= old(remainingLength))
      ensures ok ==> Wrote(old(out[..]), old(pos), old(remainingLength), RenderScalar(Bool(b)))
    {
      if b {
        ok := StrcpyVal("true");
      } else {
        ok := StrcpyVal("false");
      }
    }

    method GenHex(u: nat) returns (ok: bool)
      requires Valid()
      modifies this`pos, this`remainingLength, out
      ensures Valid() && Inside(old(out[..]), old(pos), old(remainingLength))
      ensures ok == (|Numeral(u, Hexadecimal)| + 2 <= old(remainingLength))
      ensures ok ==> Wrote(old(out[..]), old(pos), old(remainingLength), "\"" + Numeral(u, Hexadecimal) + "\"")
    {
      ok := ReduceRemLen(2);
      if ok {
        Put('"');
        ok := Utoa(u, Hexadecimal);
        if ok {
          Put('"');
        }
      }
    }

    method GenInt(n: int, w: Width) returns (ok: bool)
      requires Valid() && IsSigned(n, w)
      modifies this`pos, this`remainingLength, out
      ensures Valid() && Inside(old(out[..]), old(pos), old(remainingLength))
      ensures ok == (|RenderInt(n)| <= old(remainingLength))
      ensures ok ==> Wrote(old(out[..]), old(pos), old(remainingLength), RenderInt(n))
    {
      Magnitude(n, w);
      hide ToUnsigned, Negate, Modulus, Numeral, Promoted;
      var u := ToUnsigned(n, Promoted(w));
      if n < 0 {
        ok := ReduceRemLen(1);
        if !ok {
          return false;
        }
        Put('-');
        u := Negate(u, Promoted(w));
      }
      ok := Utoa(u, Decimal);
    }

    method GenScalar(s: Scalar) returns (ok: bool)
      requires Valid() && ValidScalar(s)
      modifies this`pos, this`remainingLength, out
      ensures Valid() && Inside(old(out[..]), old(pos), old(remainingLength))
      ensures ok == (|RenderScalar(s)| <= old(remainingLength))
      ensures ok ==> Wrote(old(out[..]), old(pos), old(remainingLength), RenderScalar(s))
    {
      match s
      case Bool(b) => ok := GenBoolean(b);
      case Signed(n, w) => ok := GenInt(n, w);
      case Unsigned(u, w) => ok := Utoa(u, Decimal);
      case Hex(u, w) => ok := GenHex(u);
    }

    method GenComma() returns (ok: bool)
      requires Valid()
      modifies this`pos, this`remainingLength, out
      ensures Valid() && Inside(old(out[..]), old(pos), old(remainingLength))
      ensures ok == (1 <= old(remainingLength))
      ensures ok ==> Wrote(old(out[..]), old(pos), old(remainingLength), ",")
    {
      ok := ReduceRemLen(1);
      if ok {
        Put(',');
      }
    }

    /** Where a character next occurs. */
    method StrChr(s: string, begin: nat, c: char) returns (at: Option<nat>)
      requires begin <= |s|
      ensures at.None? ==> c !in s[begin..]
      ensures at.Some? ==> begin <= at.value < |s| && s[at.value] == c && c !in s[begin..at.value]
    {
      for i := begin to |s|
        invariant c !in s[begin..i]
      {
        if s[i] == c {
          return Some(i);
        }
      }
      at := None;
    }

    /** Where the next character to escape is. */
    method FindEscape(s: string, begin: nat) returns (esc: Option<nat>)
      requires begin <= |s|
      ensures esc.None? ==> forall k :: begin <= k < |s| ==> !NeedsEscape(s[k])
      ensures esc.Some? ==> begin <= esc.value < |s| && NeedsEscape(s[esc.value])
      ensures esc.Some? ==> forall k :: begin <= k < esc.value ==> !NeedsEscape(s[k])
    {
      var charsToEscape := "\"\\";
      assert charsToEscape[0] == '"' && charsToEscape[1] == '\\';
      esc := None;
      for i := 0 to 2
        invariant esc.Some? ==> begin <= esc.value < |s| && NeedsEscape(s[esc.value])
        invariant forall k, j :: begin <= k < (if esc.Some? then esc.value else |s|) && 0 <= j < i ==> s[k] != charsToEscape[j]
      {
        var tmp := StrChr(s, begin, charsToEscape[i]);
        if tmp.Some? {
          esc := if esc.None? then tmp else if esc.value < tmp.value then esc else tmp;
        }
        assert forall k :: begin <= k < (if esc.Some? then esc.value else |s|) ==> s[k] != charsToEscape[i];
      }
    }

    /** Copies the text up to and with the next character to escape. */
    method GenPiece(text: string, begin: nat) returns (ok: bool, next: nat, more: bool, ghost piece: string)
      requires Valid() && begin <= |text|
      modifies this`pos, this`remainingLength, out
      ensures Valid() && Inside(old(out[..]), old(pos), old(remainingLength))
      ensures begin <= next <= |text| && (if more then begin < next else next == |text|)
      ensures Escape(text[begin..]) == piece + Escape(text[next..])
      ensures ok == (|piece| <= old(remainingLength))
      ensures ok ==> Wrote(old(out[..]), old(pos), old(remainingLength), piece)
    {
      var esc := FindEscape(text, begin);
      var len := if esc.Some? then esc.value - begin else |text| - begin;
      EscapeStep(text, begin, begin + len);
      hide Escape;
      piece := text[begin..begin + len] + if esc.Some? then ['\\', text[esc.value]] else [];
      next := if esc.Some? then esc.value + 1 else |text|;
      more := esc.Some? && next < |text|;
      ok := StrcpyVal(text[begin..begin + len]);
      if ok && esc.Some? {
        ok := StrcpyVal(['\\', text[esc.value]]);
      }
    }

    method GenString(text: string) returns (ok: bool)
      requires Valid()
      modifies this`pos, this`remainingLength, out
      ensures Valid() && Inside(old(out[..]), old(pos), old(remainingLength))
      ensures ok == (|Render(Text(text))| <= old(remainingLength))
      ensures ok ==> Wrote(old(out[..]), old(pos), old(remainingLength), Render(Text(text)))
    {
      hide Built, Wrote, Inside, Escape;
      ghost var before, p, r, done := old(out[..]), old(pos), old(remainingLength), "\"";
      ok := OpenBracket('"');
      if !ok {
        return false;
      }
      var begin := 0;
      var more := true;
      assert text[0..] == text;
      while more
        invariant begin <= |text| && (!more ==> begin == |text|)
        invariant Valid() && Building(before, p, r, done)
        invariant done + Escape(text[begin..]) == "\"" + Escape(text)
        decreases |text| - begin, more
      {
        ghost var was, q, left := out[..], pos, remainingLength;
        ghost var piece;
        ok, begin, more, piece := GenPiece(text, begin);
        if !ok {
          Failed(before, p, r, done, was, q, left);
          return false;
        }
        More(before, p, r, done, piece, was, q, left);
        done := done + piece;
      }
      EscapeEnd(text);
      assert done + [] == done;
      CloseBracket('"', before, p, r, done);
    }

    lemma EscapeEnd(text: string)
      ensures Escape(text[|text|..]) == []
    {
    }

    /** A stretch without characters to escape is copied; the next character, if any, is escaped. */
    lemma {:induction false} EscapeStep(text: string, i: nat, j: nat)
      requires i <= j <= |text| && (forall k :: i <= k < j ==> !NeedsEscape(text[k])) && (j < |text| ==> NeedsEscape(text[j]))
      ensures Escape(text[i..]) == text[i..j] + Escape(text[j..])
      ensures j < |text| ==> Escape(text[j..]) == ['\\', text[j]] + Escape(text[j + 1..])
      decreases j - i
    {
      if i < j {
        EscapeStep(text, i + 1, j);
        assert text[i..][1..] == text[i + 1..];
        assert text[i..j] == [text[i]] + text[i + 1..j];
      } else if j < |text| {
        assert text[j..][1..] == text[j + 1..];
      }
    }

    /** A C array of scalars. */
    method GenBlock(items: seq<Scalar>) returns (ok: bool)
      requires Valid() && items != [] && forall i :: 0 <= i < |items| ==> ValidScalar(items[i])
      modifies this`pos, this`remainingLength, out
      ensures Valid() && Inside(old(out[..]), old(pos), old(remainingLength))
      ensures ok == (|RenderItems(items, 0)| + 2 <= old(remainingLength))
      ensures ok ==> Wrote(old(out[..]), old(pos), old(remainingLength), "[" + RenderItems(items, 0) + "]")
    {
      hide Built, Wrote, Inside, RenderScalar, ValidScalar, RenderItems;
      ghost var before, p, r, done := old(out[..]), old(pos), old(remainingLength), "[";
      ok := OpenBracket('[');
      if !ok {
        return false;
      }
      for i := 0 to |items| - 1
        invariant Valid() && Building(before, p, r, done)
        invariant done + RenderItems(items, i) == "[" + RenderItems(items, 0)
      {
        ItemsMore(items, i);
        ghost var was, q, left := out[..], pos, remainingLength;
        ok := GenScalar(items[i]);
        if !ok {
          Failed(before, p, r, done, was, q, left);
          return false;
        }
        More(before, p, r, done, RenderScalar(items[i]), was, q, left);
        done := done + RenderScalar(items[i]);
        was, q, left := out[..], pos, remainingLength;
        ok := GenComma();
        if !ok {
          Failed(before, p, r, done, was, q, left);
          return false;
        }
        More(before, p, r, done, ",", was, q, left);
        done := done + ",";
      }
      ItemsMore(items, |items| - 1);
      ghost var was, q, left := out[..], pos, remainingLength;
      ok := GenScalar(items[|items| - 1]);
      if !ok {
        Failed(before, p, r, done, was, q, left);
        return false;
      }
      More(before, p, r, done, RenderScalar(items[|items| - 1]), was, q, left);
      done := done + RenderScalar(items[|items| - 1]);
      CloseBracket(']', before, p, r, done);
    }

    lemma ItemsMore(items: seq<Scalar>, i: nat)
      requires i < |items|
      ensures RenderItems(items, i) == RenderScalar(items[i]) + (if i + 1 < |items| then "," + RenderItems(items, i + 1) else "")
      ensures i + 1 < |items| ==> RenderItems(items, i) == RenderScalar(items[i]) + "," + RenderItems(items, i + 1)
      ensures i + 1 == |items| ==> RenderItems(items, i) == RenderScalar(items[i])
    {
      hide RenderScalar;
    }

    /** A C array of objects. */
    method GenRecords(v: Value) returns (ok: bool)
      requires Valid() && MtoJson.Valid(v) && v.Records? && v.count > 0
      modifies this`pos, this`remainingLength, out
      ensures Valid() && Inside(old(out[..]), old(pos), old(remainingLength))
      ensures ok == (RenderableRecords(v, 0) && |RenderRecords(v, 0)| + 2 <= old(remainingLength))
      ensures ok ==> Wrote(old(out[..]), old(pos), old(remainingLength), "[" + RenderRecords(v, 0) + "]")
      decreases v, 2
    {
      hide Built, Wrote, Inside, RenderMembers, RenderableMembers, ValidMember, RenderRecords, RenderableRecords, Braced;
      ghost var before, p, r, done := old(out[..]), old(pos), old(remainingLength), "[";
      ok := OpenBracket('[');
      if !ok {
        return false;
      }
      for i := 0 to v.count - 1
        invariant Valid() && Building(before, p, r, done)
        invariant done + RenderRecords(v, i) == "[" + RenderRecords(v, 0)
        invariant RenderableRecords(v, i) == RenderableRecords(v, 0)
      {
        RecordsMore(v, i);
        ghost var was, q, left := out[..], pos, remainingLength;
        ok := GenObject(v, i);
        if !ok {
          Failed(before, p, r, done, was, q, left);
          return false;
        }
        More(before, p, r, done, Braced(v, i), was, q, left);
        done := done + Braced(v, i);
        was, q, left := out[..], pos, remainingLength;
        ok := GenComma();
        if !ok {
          Failed(before, p, r, done, was, q, left);
          return false;
        }
        More(before, p, r, done, ",", was, q, left);
        done := done + ",";
      }
      RecordsMore(v, v.count - 1);
      ghost var was, q, left := out[..], pos, remainingLength;
      ok := GenObject(v, v.count - 1);
      if !ok {
        Failed(before, p, r, done, was, q, left);
        return false;
      }
      More(before, p, r, done, Braced(v, v.count - 1), was, q, left);
      done := done + Braced(v, v.count - 1);
      CloseBracket(']', before, p, r, done);
    }

    lemma RecordsMore(v: Value, i: nat)
      requires v.Records? && i < v.count
      ensures RenderRecords(v, i) == Braced(v, i) + (if i + 1 < v.count then "," + RenderRecords(v, i + 1) else "")
      ensures i + 1 < v.count ==> RenderRecords(v, i) == Braced(v, i) + "," + RenderRecords(v, i + 1)
      ensures i + 1 == v.count ==> RenderRecords(v, i) == Braced(v, i)
      ensures RenderableRecords(v, i) == (RenderableMembers(v, i) && (i + 1 < v.count ==> RenderableRecords(v, i + 1)))
    {
      hide RenderMembers, RenderableMembers;
    }

    /** A C array of any type; only an empty one may have a type without known element size. */
    method GenCArray(v: Value) returns (ok: bool)
      requires Valid() && MtoJson.Valid(v) && (v.Block? || v.Records? || v.BadBlock?)
      modifies this`pos, this`remainingLength, out
      ensures Valid() && Inside(old(out[..]), old(pos), old(remainingLength))
      ensures ok == (Renderable(v) && |Render(v)| <= old(remainingLength))
      ensures ok ==> Wrote(old(out[..]), old(pos), old(remainingLength), Render(v))
      decreases v, 3
    {
      match v
      case Block(items) =>
        if items == [] {
          ok := StrcpyVal("[]");
        } else {
          ok := GenBlock(items);
        }
      case Records(members, count) =>
        if count == 0 {
          ok := StrcpyVal("[]");
        } else {
          ok := GenRecords(v);
        }
      case BadBlock(count) =>
        ok := ReduceRemLen(2);
        if ok {
          Put('[');
          ok := count == 0;
          if ok {
            Put(']');
          }
        }
    }

    method GenArray(v: Value) returns (ok: bool)
      requires Valid() && MtoJson.Valid(v) && v.Array?
      modifies this`pos, this`remainingLength, out
      ensures Valid() && Inside(old(out[..]), old(pos), old(remainingLength))
      ensures ok == (Renderable(v) && |Render(v)| <= old(remainingLength))
      ensures ok ==> Wrote(old(out[..]), old(pos), old(remainingLength), Render(v))
      decreases v, 1
    {
      hide Built, Wrote, Inside, RenderElems, RenderableElems;
      ghost var before, p, r, done := old(out[..]), old(pos), old(remainingLength), "[";
      ok := OpenBracket('[');
      if !ok {
        return false;
      }
      var i := 0;
      while HasElem(v, i)
        invariant i <= |v.elems|
        invariant Valid() && Building(before, p, r, done)
        invariant done + RenderElems(v, i) == "[" + RenderElems(v, 0)
        invariant RenderableElems(v, i) == RenderableElems(v, 0)
        decreases |v.elems| - i
      {
        ElemsMore(v, i);
        ghost var was, q, left := out[..], pos, remainingLength;
        ok := GenValue(v.elems[i]);
        if !ok {
          Failed(before, p, r, done, was, q, left);
          return false;
        }
        More(before, p, r, done, Render(v.elems[i]), was, q, left);
        done := done + Render(v.elems[i]);
        i := i + 1;
        if HasElem(v, i) {
          ghost var was, q, left := out[..], pos, remainingLength;
          ok := GenComma();
          if !ok {
            Failed(before, p, r, done, was, q, left);
            return false;
          }
          More(before, p, r, done, ",", was, q, left);
          done := done + ",";
        }
      }
      ElemsNone(v, i);
      assert done + "" == done;
      CloseBracket(']', before, p, r, done);
      ok := true;
    }

    lemma ElemsNone(v: Value, i: nat)
      requires v.Array? && !HasElem(v, i)
      ensures RenderElems(v, i) == "" && RenderableElems(v, i)
    {
    }

    lemma ElemsMore(v: Value, i: nat)
      requires v.Array? && HasElem(v, i)
      ensures RenderElems(v, i) == Render(v.elems[i]) + (if HasElem(v, i + 1) then "," + RenderElems(v, i + 1) else "")
      ensures HasElem(v, i + 1) ==> RenderElems(v, i) == Render(v.elems[i]) + "," + RenderElems(v, i + 1)
      ensures !HasElem(v, i + 1) ==> RenderElems(v, i + 1) == ""
      ensures RenderableElems(v, i) == (Renderable(v.elems[i]) && RenderableElems(v, i + 1))
    {
      hide Render, Renderable;
    }

    /** An object whose members start at structure from. */
    method GenObject(v: Value, from: nat) returns (ok: bool)
      requires Valid() && MtoJson.Valid(v) && (v.Object? || v.Records?) && from <= |v.members|
      modifies this`pos, this`remainingLength, out
      ensures Valid() && Inside(old(out[..]), old(pos), old(remainingLength))
      ensures ok == (RenderableMembers(v, from) && |Braced(v, from)| <= old(remainingLength))
      ensures ok ==> Wrote(old(out[..]), old(pos), old(remainingLength), Braced(v, from))
      decreases v, 1
    {
      hide Built, Wrote, Inside, RenderMembers, RenderableMembers, RenderMember;
      ghost var before, p, r, done := old(out[..]), old(pos), old(remainingLength), "{";
      ok := OpenBracket('{');
      if !ok {
        return false;
      }
      var i := from;
      while HasMember(v, i)
        invariant i <= |v.members|
        invariant Valid() && Building(before, p, r, done)
        invariant done + RenderMembers(v, i) == "{" + RenderMembers(v, from)
        invariant RenderableMembers(v, i) == RenderableMembers(v, from)
        decreases |v.members| - i
      {
        MembersMore(v, i);
        ghost var was, q, left := out[..], pos, remainingLength;
        ok := GenMember(v, i);
        if !ok {
          Failed(before, p, r, done, was, q, left);
          return false;
        }
        More(before, p, r, done, RenderMember(v, i), was, q, left);
        done := done + RenderMember(v, i);
        i := i + 1;
        if HasMember(v, i) {
          ghost var was, q, left := out[..], pos, remainingLength;
          ok := GenComma();
          if !ok {
            Failed(before, p, r, done, was, q, left);
            return false;
          }
          More(before, p, r, done, ",", was, q, left);
          done := done + ",";
        }
      }
      MembersNone(v, i);
      assert done + "" == done;
      CloseBracket('}', before, p, r, done);
      ok := true;
    }

    lemma MembersNone(v: Value, i: nat)
      requires (v.Object? || v.Records?) && !HasMember(v, i)
      ensures RenderMembers(v, i) == "" && RenderableMembers(v, i)
    {
    }

    lemma MembersMore(v: Value, i: nat)
      requires (v.Object? || v.Records?) && HasMember(v, i)
      ensures RenderMembers(v, i) == RenderMember(v, i) + (if HasMember(v, i + 1) then "," + RenderMembers(v, i + 1) else "")
      ensures HasMember(v, i + 1) ==> RenderMembers(v, i) == RenderMember(v, i) + "," + RenderMembers(v, i + 1)
      ensures !HasMember(v, i + 1) ==> RenderMembers(v, i + 1) == ""
      ensures RenderableMembers(v, i) == (Renderable(v.members[i].value) && RenderableMembers(v, i + 1))
    {
      hide Renderable, RenderMember;
    }

    /** A name in quotes and a colon, into space that is already paid for. */
    method CopyKey(name: string)
      requires pos + |name| + 3 + remainingLength <= out.Length
      modifies this`pos, out
      ensures pos == old(pos) + |name| + 3 && out[..pos] == old(out[..pos]) + Key(name)
      ensures forall k :: pos <= k < out.Length ==> out[k] == old(out[k])
    {
      Put('"');
      Copy(name);
      Put('"');
      Put(':');
    }

    /** A name, copied without escaping, and its value. */
    method GenMember(v: Value, i: nat) returns (ok: bool)
      requires Valid() && MtoJson.Valid(v) && (v.Object? || v.Records?) && HasMember(v, i)
      modifies this`pos, this`remainingLength, out
      ensures Valid() && Inside(old(out[..]), old(pos), old(remainingLength))
      ensures ok == (Renderable(v.members[i].value) && |RenderMember(v, i)| <= old(remainingLength))
      ensures ok ==> Wrote(old(out[..]), old(pos), old(remainingLength), RenderMember(v, i))
      decreases v, 0
    {
      hide Render, Renderable;
      assert ValidMember(v.members[i]);
      var name := v.members[i].name.value;
      ok := ReduceRemLen(|name| + 3);
      if !ok {
        return false;
      }
      CopyKey(name);
      ok := GenValue(v.members[i].value);
    }

    /** Dispatches on the type of a value. */
    method GenValue(v: Value) returns (ok: bool)
      requires Valid() && MtoJson.Valid(v)
      modifies this`pos, this`remainingLength, out
      ensures Valid() && Inside(old(out[..]), old(pos), old(remainingLength))
      ensures ok == (Renderable(v) && |Render(v)| <= old(remainingLength))
      ensures ok ==> Wrote(old(out[..]), old(pos), old(remainingLength), Render(v))
      decreases v, 4
    {
      hide Inside, Wrote, RenderMembers, RenderElems, RenderableMembers, RenderableElems, RenderScalar, Escape;
      match v
      case Missing => ok := GenNull();
      case NullType => ok := GenNull();
      case Item(s) => ok := GenScalar(s);
      case Text(s) => ok := GenString(s);
      case Raw(s) => ok := StrcpyVal(s);
      case Block(items) => ok := GenCArray(v);
      case Records(_, _) => ok := GenCArray(v);
      case BadBlock(_) => ok := GenCArray(v);
      case Array(_) => ok := GenArray(v);
      case Object(_) => ok := GenObject(v, 0);
      case Primitive(inner) => ok := GenValue(inner);
    }

    /** Generates the text of a top-level array, object or primitive into the first len characters
        of the buffer: its length, or 0 when it does not fit with its terminator or cannot be rendered. */
    method JsonGenerate(v: Value, len: nat) returns (n: nat)
      requires len <= out.Length && MtoJson.Valid(v)
      modifies this`pos, this`remainingLength, out
      ensures n == if TopLevel(v) && Renderable(v) && |Render(v)| + 1 <= len then |Render(v)| else 0
      ensures n > 0 ==> n < len && out[..n] == Render(v) && out[n] == '\0'
      ensures forall k :: len <= k < out.Length ==> out[k] == old(out[k])
    {
      hide Render, Renderable;
      pos, remainingLength := 0, len;
      var ok := ReduceRemLen(1);
      if !ok {
        return 0;
      }
      match v {
        case Array(_) => ok := GenValue(v);
        case Object(_) => ok := GenValue(v);
        case Primitive(_) => ok := GenValue(v);
        case _ => return 0;
      }
      if !ok {
        return 0;
      }
      out[pos] := '\0';
      n := pos;
    }
  }
}
