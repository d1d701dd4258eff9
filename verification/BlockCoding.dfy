/** Entropy coding of quantised blocks: what the encoder emits for a block,
    and the sequential decoding procedures of T.81, F.2.2, that undo it.
    Blocks are 64 coefficients in zig-zag order. */
module BlockCoding {
  import opened Bits
  import opened HuffmanCode
  import opened StandardTables

  // ----------------------------------------- magnitude categories and EXTEND

  function Abs(x: int): nat
  {
    if x < 0 then -x else x
  }

  /** The number of bits of n, counted by halving. */
  function BitLength(n: nat): nat
  {
    if n == 0 then 0 else 1 + BitLength(n / 2)
  }

  lemma {:induction false} BitLengthBounds(n: nat)
    ensures n < Pow2(BitLength(n))
    ensures n > 0 ==> Pow2(BitLength(n) - 1) <= n
  {
    if n == 0 {
    } else {
      BitLengthBounds(n / 2);
    }
  }

  /** A number below 2^k has at most k bits. */
  lemma BitLengthAtMost(n: nat, k: nat)
    requires n < Pow2(k)
    ensures BitLength(n) <= k
  {
    BitLengthBounds(n);
    if BitLength(n) > k { Pow2Monotone(k, BitLength(n) - 1); }
  }

  function Category(x: int): nat
  {
    BitLength(Abs(x))
  }

  /** The additional bits of a coefficient: its low bits, or for a negative one those of its predecessor. */
  function Magnitude(x: int): nat
  {
    (if x < 0 then x - 1 else x) % Pow2(Category(x))
  }

  lemma MagnitudeValue(x: int)
    ensures Magnitude(x) == if x < 0 then x - 1 + Pow2(Category(x)) else x
    ensures Magnitude(x) < Pow2(Category(x))
  {
    BitLengthBounds(Abs(x));
    var p := Pow2(Category(x));
    if x < 0 {
      DivUnique(x - 1, p, -1, x - 1 + p);
    } else {
      DivUnique(x, p, 0, x);
    }
  }

  /** EXTEND of T.81, Figure F.12. */
  function Extend(v: nat, t: nat): int
  {
    if t > 0 && v < Pow2(t - 1) then v - Pow2(t) + 1 else v
  }

  lemma ExtendMagnitude(x: int)
    ensures Extend(Magnitude(x), Category(x)) == x
  {
    MagnitudeValue(x);
    BitLengthBounds(Abs(x));
    if x != 0 {
      assert Pow2(Category(x)) == 2 * Pow2(Category(x) - 1);
    }
  }

  function MagnitudeBits(x: int): (r: seq<bool>)
    ensures |r| == Category(x)
  {
    ToBits(Magnitude(x), Category(x))
  }

  datatype Received = Received(value: int, rest: seq<bool>) | Short

  /** RECEIVE followed by EXTEND. */
  function ReceiveExtend(b: seq<bool>, t: nat): Received
  {
    if |b| < t then Short else Received(Extend(FromBits(b[..t]), t), b[t..])
  }

  lemma ReceiveMagnitude(x: int, rest: seq<bool>)
    ensures ReceiveExtend(MagnitudeBits(x) + rest, Category(x)) == Received(x, rest)
  {
    var m := MagnitudeBits(x);
    MagnitudeValue(x);
    FromToBits(Magnitude(x), Category(x));
    ExtendMagnitude(x);
    assert (m + rest)[..|m|] == m && (m + rest)[|m|..] == rest;
  }

  // ------------------------------------------------------------- one block

  function Zeros(n: nat): seq<int>
  {
    seq(n, _ => 0)
  }

  function DcBits(dc: HuffSpec, diff: int): seq<bool>
    requires dc.Valid()
  {
    SymbolBits(dc, Category(diff)) + MagnitudeBits(diff)
  }

  /** n times the symbol for sixteen zeros. */
  function ZrlBits(ac: HuffSpec, n: nat): seq<bool>
    requires ac.Valid()
  {
    if n == 0 then [] else SymbolBits(ac, 0xF0) + ZrlBits(ac, n - 1)
  }

  /** A nonzero coefficient after fewer than sixteen zeros. */
  function RunValueBits(ac: HuffSpec, run: nat, x: int): seq<bool>
    requires ac.Valid()
  {
    SymbolBits(ac, run * 16 + Category(x)) + MagnitudeBits(x)
  }

  /** The AC part from coefficient i on, after run zeros: zero runs,
      magnitudes, and an end-of-block symbol for trailing zeros. */
  function AcBits(ac: HuffSpec, zz: seq<int>, i: nat, run: nat): seq<bool>
    requires ac.Valid() && |zz| == 64 && i <= 64
    decreases 64 - i
  {
    if i == 64 then (if run > 0 then SymbolBits(ac, 0) else [])
    else if zz[i] == 0 then AcBits(ac, zz, i + 1, run + 1)
    else ZrlBits(ac, run / 16) + RunValueBits(ac, run % 16, zz[i]) + AcBits(ac, zz, i + 1, 0)
  }

  function BlockBits(dc: HuffSpec, ac: HuffSpec, pred: int, zz: seq<int>): seq<bool>
    requires dc.Valid() && ac.Valid() && |zz| == 64
  {
    DcBits(dc, zz[0] - pred) + AcBits(ac, zz, 1, 0)
  }

  datatype DecodedBlock = Block(zz: seq<int>, rest: seq<bool>) | BadBlock

  datatype AcStep = More(zz: seq<int>, rest: seq<bool>) | EndOfBlock(rest: seq<bool>) | BadStep

  /** One round of the AC procedure of T.81, Figure F.13, at coefficient |zz|. */
  function NextAc(ac: HuffSpec, b: seq<bool>, zz: seq<int>): (r: AcStep)
    requires ac.Valid() && |zz| < 64
    ensures r.More? ==> |zz| < |r.zz| <= 64
  {
    match DecodeSymbol(ac, b)
    case NoSymbol => BadStep
    case Symbol(rs, rest) => NextAcFor(rs / 16, rs % 16, rest, zz)
  }

  /** What a symbol of run r and category s asks for. */
  function NextAcFor(r: nat, s: nat, rest: seq<bool>, zz: seq<int>): (step: AcStep)
    requires |zz| < 64
    ensures step.More? ==> |zz| < |step.zz| <= 64
  {
    if s == 0 && r == 15 then (if |zz| + 16 > 63 then BadStep else More(zz + Zeros(16), rest))
    else if s == 0 then EndOfBlock(rest)
    else if |zz| + r > 63 then BadStep
    else
      match ReceiveExtend(rest, s)
      case Short => BadStep
      case Received(x, rest') => More(zz + Zeros(r) + [x], rest')
  }

  /** The rounds until the block is full or ended. */
  function DecodeAc(ac: HuffSpec, b: seq<bool>, zz: seq<int>): DecodedBlock
    requires ac.Valid() && |zz| <= 64
    decreases 64 - |zz|
  {
    if |zz| == 64 then Block(zz, b)
    else
      match NextAc(ac, b, zz)
      case BadStep => BadBlock
      case EndOfBlock(rest) => Block(zz + Zeros(64 - |zz|), rest)
      case More(zz', rest) => DecodeAc(ac, rest, zz')
  }

  /** DC and AC of one block: T.81, F.2.2.1 and F.2.2.2. */
  function DecodeBlock(dc: HuffSpec, ac: HuffSpec, pred: int, b: seq<bool>): DecodedBlock
    requires dc.Valid() && ac.Valid()
  {
    match DecodeSymbol(dc, b)
    case NoSymbol => BadBlock
    case Symbol(t, rest) =>
      match ReceiveExtend(rest, t)
      case Short => BadBlock
      case Received(diff, rest') => DecodeAc(ac, rest', [pred + diff])
  }

  /** A block every part of which has a code: 11-bit DC difference, 10-bit AC coefficients. */
  ghost predicate Codable(pred: int, zz: seq<int>)
  {
    && |zz| == 64
    && Abs(zz[0] - pred) <= 2047
    && forall i :: 1 <= i < 64 ==> Abs(zz[i]) <= 1023
  }

  lemma CategoryAtMost(x: int, k: nat)
    requires Abs(x) < Pow2(k)
    ensures Category(x) <= k && (x != 0 ==> Category(x) >= 1)
  {
    BitLengthAtMost(Abs(x), k);
  }

  lemma DecodeDcBits(dc: HuffSpec, diff: int, rest: seq<bool>)
    requires Decodable(dc) && HasCode(dc, Category(diff)) && Category(diff) <= 255
    ensures DecodeSymbol(dc, DcBits(dc, diff) + rest) == Symbol(Category(diff), MagnitudeBits(diff) + rest)
  {
    var s, m := SymbolBits(dc, Category(diff)), MagnitudeBits(diff);
    Associative(s, m, rest);
    DecodeSymbolBits(dc, Category(diff), m + rest);
  }

  /** A table symbol is read back as its run and category. */
  lemma NextAcSymbol(ac: HuffSpec, r: nat, s: nat, rest: seq<bool>, zz: seq<int>)
    requires Decodable(ac) && r < 16 && s < 16 && HasCode(ac, r * 16 + s) && |zz| < 64
    ensures NextAc(ac, SymbolBits(ac, r * 16 + s) + rest, zz) == NextAcFor(r, s, rest, zz)
  {
    hide DecodeSymbol, SymbolBits, NextAcFor;
    var rs := r * 16 + s;
    DivUnique(rs, 16, r, s);
    DecodeSymbolBits(ac, rs, rest);
  }

  lemma {:induction false} DecodeZrls(ac: HuffSpec, n: nat, b: seq<bool>, zz: seq<int>)
    requires Decodable(ac) && HasCode(ac, 0xF0) && 16 * n + |zz| <= 63
    ensures DecodeAc(ac, ZrlBits(ac, n) + b, zz) == DecodeAc(ac, b, zz + Zeros(16 * n))
  {
    hide NextAc, SymbolBits;
    if n == 0 {
      assert ZrlBits(ac, 0) + b == b && zz + Zeros(0) == zz;
    } else {
      Associative(SymbolBits(ac, 0xF0), ZrlBits(ac, n - 1), b);
      NextAcSymbol(ac, 15, 0, ZrlBits(ac, n - 1) + b, zz);
      DecodeZrls(ac, n - 1, b, zz + Zeros(16));
      assert zz + Zeros(16) + Zeros(16 * (n - 1)) == zz + Zeros(16 * n);
    }
  }

  lemma DecodeRunValue(ac: HuffSpec, run: nat, x: int, b: seq<bool>, zz: seq<int>)
    requires Decodable(ac) && run < 16 && x != 0 && Abs(x) <= 1023 && |zz| + run <= 63
    requires HasCode(ac, run * 16 + Category(x))
    ensures DecodeAc(ac, RunValueBits(ac, run, x) + b, zz) == DecodeAc(ac, b, zz + Zeros(run) + [x])
  {
    hide NextAc, SymbolBits, ReceiveExtend, MagnitudeBits, Category, Shl;
    Pow2Values();
    CategoryAtMost(x, 10);
    var rs := run * 16 + Category(x);
    Associative(SymbolBits(ac, rs), MagnitudeBits(x), b);
    NextAcSymbol(ac, run, Category(x), MagnitudeBits(x) + b, zz);
    ReceiveMagnitude(x, b);
  }

  /** From any point of a block where run zeros are outstanding, decoding completes the block. */
  lemma {:induction false} DecodeAcBits(ac: HuffSpec, zz: seq<int>, i: nat, run: nat, rest: seq<bool>)
    requires Decodable(ac) && forall v :: AcSymbol(v) ==> HasCode(ac, v)
    requires |zz| == 64 && forall k :: 1 <= k < 64 ==> Abs(zz[k]) <= 1023
    requires 1 <= i - run && i <= 64 && forall k :: i - run <= k < i ==> zz[k] == 0
    ensures DecodeAc(ac, AcBits(ac, zz, i, run) + rest, zz[..i - run]) == Block(zz, rest)
    decreases 64 - i
  {
    hide DecodeSymbol, SymbolBits, DecodeAc, ZrlBits, RunValueBits;
    if i == 64 {
      DecodeEnd(ac, zz, run, rest);
    } else if zz[i] == 0 {
      DecodeAcBits(ac, zz, i + 1, run + 1, rest);
    } else {
      DecodeAcBits(ac, zz, i + 1, 0, rest);
      DecodeNonzero(ac, zz, i, run, AcBits(ac, zz, i + 1, 0) + rest);
      Regroup(ZrlBits(ac, run / 16), RunValueBits(ac, run % 16, zz[i]), AcBits(ac, zz, i + 1, 0), rest);
    }
  }

  lemma Regroup<T>(a: seq<T>, b: seq<T>, c: seq<T>, d: seq<T>)
    ensures a + b + c + d == a + (b + (c + d))
  {
  }

  lemma DecodeEnd(ac: HuffSpec, zz: seq<int>, run: nat, rest: seq<bool>)
    requires Decodable(ac) && HasCode(ac, 0)
    requires |zz| == 64 && run < 64 && forall k :: 64 - run <= k < 64 ==> zz[k] == 0
    ensures DecodeAc(ac, AcBits(ac, zz, 64, run) + rest, zz[..64 - run]) == Block(zz, rest)
  {
    hide NextAc, SymbolBits;
    if run > 0 {
      NextAcSymbol(ac, 0, 0, rest, zz[..64 - run]);
      assert zz[..64 - run] + Zeros(run) == zz;
    } else {
      assert [] + rest == rest && zz[..64] == zz;
    }
  }

  lemma DecodeNonzero(ac: HuffSpec, zz: seq<int>, i: nat, run: nat, b: seq<bool>)
    requires Decodable(ac) && forall v :: AcSymbol(v) ==> HasCode(ac, v)
    requires |zz| == 64 && 1 <= i - run && i < 64 && forall k :: i - run <= k < i ==> zz[k] == 0
    requires zz[i] != 0 && Abs(zz[i]) <= 1023
    ensures DecodeAc(ac, ZrlBits(ac, run / 16) + (RunValueBits(ac, run % 16, zz[i]) + b), zz[..i - run])
         == DecodeAc(ac, b, zz[..i + 1])
  {
    hide DecodeSymbol, SymbolBits, DecodeAc, ZrlBits, RunValueBits;
    Pow2Values();
    CategoryAtMost(zz[i], 10);
    var n, r := run / 16, run % 16;
    var before := zz[..i - run];
    var middle := before + Zeros(16 * n);
    assert AcSymbol(0xF0) && AcSymbol(r * 16 + Category(zz[i]));
    DecodeZrls(ac, n, RunValueBits(ac, r, zz[i]) + b, before);
    DecodeRunValue(ac, r, zz[i], b, middle);
    BlockUpTo(zz, i, 16 * n, r);
  }

  /** The coefficients up to the first nonzero one after two runs of zeros. */
  lemma BlockUpTo(zz: seq<int>, i: nat, a: nat, b: nat)
    requires a + b <= i < |zz| && forall k :: i - (a + b) <= k < i ==> zz[k] == 0
    ensures zz[..i - (a + b)] + Zeros(a) + Zeros(b) + [zz[i]] == zz[..i + 1]
  {
  }

  /** Decoding undoes the coding of a block, whatever follows it. */
  lemma DecodeBlockBits(dc: HuffSpec, ac: HuffSpec, pred: int, zz: seq<int>, rest: seq<bool>)
    requires Complete(dc, ac) && Codable(pred, zz)
    ensures DecodeBlock(dc, ac, pred, BlockBits(dc, ac, pred, zz) + rest) == Block(zz, rest)
  {
    hide DecodeSymbol, SymbolBits, DecodeAc, AcBits, DcBits, ReceiveExtend;
    var diff := zz[0] - pred;
    var more := AcBits(ac, zz, 1, 0) + rest;
    Pow2Values();
    CategoryAtMost(diff, 11);
    Associative(DcBits(dc, diff), AcBits(ac, zz, 1, 0), rest);
    DecodeDcBits(dc, diff, more);
    ReceiveMagnitude(diff, more);
    DecodeAcBits(ac, zz, 1, 0, rest);
    assert zz[..1] == [pred + diff];
  }

  // ------------------------------------------------------------ whole scans

  /** A block and the component it belongs to; component 0 is luminance. */
  datatype CodedBlock = CodedBlock(comp: nat, zz: seq<int>)

  function DcTable(comp: nat): HuffSpec
  {
    if comp == 0 then DC_LUM else DC_CHROMA
  }

  function AcTable(comp: nat): HuffSpec
  {
    if comp == 0 then AC_LUM else AC_CHROMA
  }

  lemma TablesComplete(comp: nat)
    ensures Complete(DcTable(comp), AcTable(comp))
  {
    if comp == 0 { LumComplete(); } else { ChromaComplete(); }
  }

  /** Blocks in scan order, each codable against the previous DC value of its component. */
  ghost predicate CodableScan(blocks: seq<CodedBlock>, pred: seq<int>)
    requires |pred| == 3
  {
    blocks == [] ||
    var b := blocks[0];
    b.comp < 3 && Codable(pred[b.comp], b.zz) && CodableScan(blocks[1..], pred[b.comp := b.zz[0]])
  }

  function ScanBlockBits(b: CodedBlock, pred: seq<int>): seq<bool>
    requires |pred| == 3 && b.comp < 3 && |b.zz| == 64
  {
    TablesComplete(b.comp);
    BlockBits(DcTable(b.comp), AcTable(b.comp), pred[b.comp], b.zz)
  }

  /** The bits of a scan, starting from the DC predictions pred. */
  function ScanBits(blocks: seq<CodedBlock>, pred: seq<int>): seq<bool>
    requires |pred| == 3
    requires forall b :: b in blocks ==> b.comp < 3 && |b.zz| == 64
  {
    if blocks == [] then []
    else ScanBlockBits(blocks[0], pred) + ScanBits(blocks[1..], pred[blocks[0].comp := blocks[0].zz[0]])
  }

  datatype DecodedScan = Scan(blocks: seq<CodedBlock>, rest: seq<bool>) | BadScan

  /** The tables a scan uses for one component. */
  datatype TablePair = TablePair(dc: HuffSpec, ac: HuffSpec) {
    predicate Valid() {
      dc.Valid() && ac.Valid()
    }
  }

  /** Decoding of as many blocks as comps lists components. */
  function DecodeScan(comps: seq<nat>, tables: seq<TablePair>, pred: seq<int>, b: seq<bool>): DecodedScan
    requires |pred| == 3 && forall i :: 0 <= i < |comps| ==> comps[i] < 3 && comps[i] < |tables|
    requires forall i :: 0 <= i < |tables| ==> tables[i].Valid()
  {
    if comps == [] then Scan([], b)
    else
      var c := comps[0];
      assert tables[c].Valid();
      hide DecodeBlock;
      match DecodeBlock(tables[c].dc, tables[c].ac, pred[c], b)
      case BadBlock => BadScan
      case Block(zz, rest) =>
        if zz == [] then BadScan
        else
          match DecodeScan(comps[1..], tables, pred[c := zz[0]], rest)
          case BadScan => BadScan
          case Scan(more, rest') => Scan([CodedBlock(c, zz)] + more, rest')
  }

  /** The tables are the ones the encoder uses for each component. */
  ghost predicate EncoderTables(tables: seq<TablePair>, comps: nat)
  {
    |tables| == comps && forall c :: 0 <= c < comps ==> tables[c].Valid() && tables[c] == TablePair(DcTable(c), AcTable(c))
  }

  function Components(blocks: seq<CodedBlock>): (r: seq<nat>)
    ensures |r| == |blocks| && forall i :: 0 <= i < |blocks| ==> r[i] == blocks[i].comp
  {
    seq(|blocks|, i requires 0 <= i < |blocks| => blocks[i].comp)
  }

  lemma {:induction false} CodableBlocks(blocks: seq<CodedBlock>, pred: seq<int>)
    requires |pred| == 3 && CodableScan(blocks, pred)
    ensures forall b :: b in blocks ==> b.comp < 3 && |b.zz| == 64
  {
    if blocks != [] {
      CodableBlocks(blocks[1..], pred[blocks[0].comp := blocks[0].zz[0]]);
    }
  }

  lemma DecodeScanBlock(b: CodedBlock, pred: seq<int>, rest: seq<bool>)
    requires |pred| == 3 && b.comp < 3 && Codable(pred[b.comp], b.zz)
    ensures Complete(DcTable(b.comp), AcTable(b.comp))
    ensures DecodeBlock(DcTable(b.comp), AcTable(b.comp), pred[b.comp], ScanBlockBits(b, pred) + rest) == Block(b.zz, rest)
  {
    hide DecodeBlock, BlockBits;
    TablesComplete(b.comp);
    DecodeBlockBits(DcTable(b.comp), AcTable(b.comp), pred[b.comp], b.zz, rest);
  }

  /** Decoding a scan gives back exactly its blocks, and leaves what follows it. */
  lemma {:induction false} DecodeScanBits(blocks: seq<CodedBlock>, tables: seq<TablePair>, n: nat, pred: seq<int>, rest: seq<bool>)
    requires |pred| == 3 && CodableScan(blocks, pred) && EncoderTables(tables, n)
    requires forall b :: b in blocks ==> b.comp < 3 && b.comp < n && |b.zz| == 64
    ensures forall i :: 0 <= i < |blocks| ==> Components(blocks)[i] < 3 && Components(blocks)[i] < n
    ensures DecodeScan(Components(blocks), tables, pred, ScanBits(blocks, pred) + rest) == Scan(blocks, rest)
  {
    hide DecodeBlock, ScanBlockBits, Complete, DcTable, AcTable, Codable;
    if blocks == [] {
      assert [] + rest == rest;
    } else {
      var b, tail := blocks[0], blocks[1..];
      var pred' := pred[b.comp := b.zz[0]];
      var more := ScanBits(tail, pred') + rest;
      DecodeScanBits(tail, tables, n, pred', rest);
      Associative(ScanBlockBits(b, pred), ScanBits(tail, pred'), rest);
      DecodeScanBlock(b, pred, more);
      assert Components(blocks)[1..] == Components(tail);
      assert blocks == [CodedBlock(b.comp, b.zz)] + tail;
    }
  }

  /** The DC predictions after a scan. */
  function PredAfter(blocks: seq<CodedBlock>, pred: seq<int>): (r: seq<int>)
    requires |pred| == 3
    requires forall b :: b in blocks ==> b.comp < 3 && |b.zz| == 64
    ensures |r| == 3
  {
    if blocks == [] then pred else PredAfter(blocks[1..], pred[blocks[0].comp := blocks[0].zz[0]])
  }

  /** Coding one more block appends its bits, predicted from what came before. */
  lemma {:induction false} ScanBitsAppend(blocks: seq<CodedBlock>, b: CodedBlock, pred: seq<int>)
    requires |pred| == 3 && b.comp < 3 && |b.zz| == 64
    requires forall c :: c in blocks ==> c.comp < 3 && |c.zz| == 64
    ensures forall c :: c in blocks + [b] ==> c.comp < 3 && |c.zz| == 64
    ensures ScanBits(blocks + [b], pred) == ScanBits(blocks, pred) + ScanBlockBits(b, PredAfter(blocks, pred))
    ensures PredAfter(blocks + [b], pred) == PredAfter(blocks, pred)[b.comp := b.zz[0]]
  {
    hide ScanBlockBits;
    if blocks == [] {
      assert [] + [b] == [b];
    } else {
      var pred' := pred[blocks[0].comp := blocks[0].zz[0]];
      assert (blocks + [b])[1..] == blocks[1..] + [b] && (blocks + [b])[0] == blocks[0];
      ScanBitsAppend(blocks[1..], b, pred');
      Associative(ScanBlockBits(blocks[0], pred), ScanBits(blocks[1..], pred'),
        ScanBlockBits(b, PredAfter(blocks[1..], pred')));
    }
  }

  /** Blocks from 8-bit samples stay codable whatever their order. */
  lemma {:induction false} BoundedScanCodable(blocks: seq<CodedBlock>, pred: seq<int>)
    requires |pred| == 3 && forall c :: 0 <= c < 3 ==> -1024 <= pred[c] <= 1023
    requires forall b :: b in blocks ==> b.comp < 3 && |b.zz| == 64 && -1024 <= b.zz[0] <= 1023
    requires forall b, k :: b in blocks && 1 <= k < 64 ==> Abs(b.zz[k]) <= 1023
    ensures CodableScan(blocks, pred)
  {
    if blocks != [] {
      BoundedScanCodable(blocks[1..], pred[blocks[0].comp := blocks[0].zz[0]]);
    }
  }
}
