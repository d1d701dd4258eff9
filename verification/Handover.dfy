/** The chunks in which a full buffer hands a download over, from the lengths of its pieces. */
module Handover {
  import opened Bits
  import opened FlashContent

  /** What one append does: the sizes of the chunks it hands over, and how many bytes are then held. */
  datatype Fed = Fed(chunks: seq<nat>, held: nat)

  /** Appending the bytes from position on of a piece of a given size: as many as fit are taken, and the
      buffer is handed over unless the whole piece was taken at once. */
  function Feed(pool: nat, held: nat, size: nat, position: nat): (r: Fed)
    requires pool > 0 && held <= pool
    ensures r.held <= pool
    decreases if position < size then size - position else 0, if held == pool then 1 else 0
  {
    if position >= size then Fed([], held)
    else
      var n := if size - position <= pool - held then size - position else pool - held;
      if n == size then Fed([], held + n)
      else
        var rest := Feed(pool, 0, size, position + n);
        Fed([held + n] + rest.chunks, rest.held)
  }

  /** The sizes of all chunks of a download whose pieces have the given sizes, the last one included. */
  function HandedSizes(pool: nat, held: nat, sizes: seq<nat>): (r: seq<nat>)
    requires pool > 0 && held <= pool
    ensures r != []
    decreases |sizes|
  {
    if sizes == [] then [held]
    else
      var first := Feed(pool, held, sizes[0], 0);
      first.chunks + HandedSizes(pool, first.held, sizes[1..])
  }

  /** Data cut into chunks of given sizes. */
  function Cut(data: seq<byte>, sizes: seq<nat>): (r: seq<seq<byte>>)
    requires Total(sizes) == |data|
    decreases |sizes|
  {
    if sizes == [] then [] else [data[..sizes[0]]] + Cut(data[sizes[0]..], sizes[1..])
  }

  lemma {:induction false} CutFacts(data: seq<byte>, sizes: seq<nat>)
    requires Total(sizes) == |data|
    ensures SizesOf(Cut(data, sizes)) == sizes && Concat(Cut(data, sizes)) == data
    decreases |sizes|
  {
    if sizes != [] {
      var first, rest := data[..sizes[0]], data[sizes[0]..];
      CutFacts(rest, sizes[1..]);
      var c := Cut(data, sizes);
      assert c[1..] == Cut(rest, sizes[1..]);
      assert first + rest == data;
    }
  }

  /** Chunks are determined by their sizes and their bytes. */
  lemma {:induction false} CutUnique(chunks: seq<seq<byte>>)
    ensures Total(SizesOf(chunks)) == |Concat(chunks)|
    ensures Cut(Concat(chunks), SizesOf(chunks)) == chunks
  {
    ConcatTotal(chunks);
    if chunks != [] {
      CutUnique(chunks[1..]);
      var sizes := SizesOf(chunks);
      assert sizes[1..] == SizesOf(chunks[1..]);
      assert Concat(chunks)[..sizes[0]] == chunks[0];
      assert Concat(chunks)[sizes[0]..] == Concat(chunks[1..]);
      assert [chunks[0]] + chunks[1..] == chunks;
    }
  }

  lemma {:induction false} TotalAppend(a: seq<nat>, b: seq<nat>)
    ensures Total(a + b) == Total(a) + Total(b)
  {
    if a == [] {
      assert a + b == b;
    } else {
      assert (a + b)[1..] == a[1..] + b;
      TotalAppend(a[1..], b);
    }
  }

  lemma {:induction false} FeedTotal(pool: nat, held: nat, size: nat, position: nat)
    requires pool > 0 && held <= pool && position <= size
    ensures var r := Feed(pool, held, size, position); Total(r.chunks) + r.held == held + size - position
    decreases size - position, if held == pool then 1 else 0
  {
    if position < size {
      var n := if size - position <= pool - held then size - position else pool - held;
      if n != size {
        FeedTotal(pool, 0, size, position + n);
        var rest := Feed(pool, 0, size, position + n);
        assert ([held + n] + rest.chunks)[1..] == rest.chunks;
      }
    }
  }

  /** No byte is lost or made up. */
  lemma {:induction false} HandedTotal(pool: nat, held: nat, sizes: seq<nat>)
    requires pool > 0 && held <= pool
    ensures Total(HandedSizes(pool, held, sizes)) == held + Total(sizes)
    decreases |sizes|
  {
    if sizes == [] {
      assert [held][1..] == [];
    } else {
      var first := Feed(pool, held, sizes[0], 0);
      FeedTotal(pool, held, sizes[0], 0);
      HandedTotal(pool, first.held, sizes[1..]);
      TotalAppend(first.chunks, HandedSizes(pool, first.held, sizes[1..]));
    }
  }

  /** What a download that fits in the buffer hands over, and what a longer one hands over first. */
  lemma {:induction false} FirstHanded(pool: nat, held: nat, sizes: seq<nat>)
    requires pool > 0 && held <= pool
    ensures var r := HandedSizes(pool, held, sizes);
      if held + Total(sizes) <= pool then r == [held + Total(sizes)] else r[0] == pool && |r| > 1
    decreases |sizes|
  {
    if sizes != [] {
      var first := Feed(pool, held, sizes[0], 0);
      var rest := HandedSizes(pool, first.held, sizes[1..]);
      if sizes[0] <= pool - held {
        assert first == Fed([], held + sizes[0]);
        FirstHanded(pool, first.held, sizes[1..]);
        assert [] + rest == rest;
      } else {
        assert first.chunks[0] == pool;
        assert (first.chunks + rest)[0] == pool;
      }
    }
  }

  /** Pieces of a size, all but the last of them full. */
  function Slices(pool: nat, size: nat): seq<nat>
    requires pool > 0
    decreases size
  {
    if size == 0 then [] else if size <= pool then [size] else [pool] + Slices(pool, size - pool)
  }

  lemma {:induction false} FeedSlices(pool: nat, size: nat, position: nat)
    requires pool > 0 && position <= size && (position > 0 || size > pool)
    ensures Feed(pool, 0, size, position) == Fed(Slices(pool, size - position), 0)
    decreases size - position
  {
    if position < size {
      var n := if size - position <= pool then size - position else pool;
      FeedSlices(pool, size, position + n);
      assert [n] + [] == [n];
    }
  }

  /** A single piece that does not fit at once is handed over in full buffers and then its rest, which is not
      kept for the next piece; the end of the download hands over nothing more. */
  lemma SinglePiece(pool: nat, size: nat)
    requires pool > 0 && size > pool
    ensures HandedSizes(pool, 0, [size]) == Slices(pool, size) + [0]
  {
    FeedSlices(pool, size, 0);
    assert [size][1..] == [];
  }

  /** The chunks of a download. */
  function Handed(pool: nat, pieces: seq<seq<byte>>): (r: seq<seq<byte>>)
    requires pool > 0
    ensures r != []
  {
    ConcatTotal(pieces);
    HandedTotal(pool, 0, SizesOf(pieces));
    Cut(Concat(pieces), HandedSizes(pool, 0, SizesOf(pieces)))
  }

  lemma HandedFacts(pool: nat, pieces: seq<seq<byte>>)
    requires pool > 0
    ensures SizesOf(Handed(pool, pieces)) == HandedSizes(pool, 0, SizesOf(pieces)) != []
    ensures Concat(Handed(pool, pieces)) == Concat(pieces)
  {
    hide Cut;
    ConcatTotal(pieces);
    HandedTotal(pool, 0, SizesOf(pieces));
    CutFacts(Concat(pieces), HandedSizes(pool, 0, SizesOf(pieces)));
  }

  /** Chunks of the sizes that pieces of given sizes are handed over in are those of some such pieces. */
  lemma HandedOnto(pool: nat, sizes: seq<nat>, chunks: seq<seq<byte>>) returns (pieces: seq<seq<byte>>)
    requires pool > 0 && SizesOf(chunks) == HandedSizes(pool, 0, sizes)
    ensures SizesOf(pieces) == sizes && Handed(pool, pieces) == chunks && Concat(pieces) == Concat(chunks)
  {
    hide Cut, HandedSizes;
    ConcatTotal(chunks);
    HandedTotal(pool, 0, sizes);
    pieces := Cut(Concat(chunks), sizes);
    CutFacts(Concat(chunks), sizes);
    CutUnique(chunks);
  }

  /** A download that fits in the buffer is handed over in one chunk. */
  lemma HandedSmall(pool: nat, pieces: seq<seq<byte>>)
    requires pool > 0 && |Concat(pieces)| <= pool
    ensures Handed(pool, pieces) == [Concat(pieces)]
  {
    hide HandedSizes;
    var data := Concat(pieces);
    ConcatTotal(pieces);
    HandedTotal(pool, 0, SizesOf(pieces));
    FirstHanded(pool, 0, SizesOf(pieces));
    assert [|data|][1..] == [] && data[..|data|] == data;
    assert Cut(data, [|data|]) == [data[..|data|]] + Cut(data[|data|..], []);
  }

  // ------------------------------------------------------- single steps

  lemma SizesNone()
    ensures SizesOf([]) == []
  {
  }

  lemma {:induction false} SizesMore(chunks: seq<seq<byte>>, last: seq<byte>)
    ensures SizesOf(chunks + [last]) == SizesOf(chunks) + [|last|]
  {
    if chunks == [] {
      assert [last][1..] == [];
    } else {
      assert (chunks + [last])[1..] == chunks[1..] + [last];
      SizesMore(chunks[1..], last);
    }
  }

  lemma {:induction false} SizesAt(chunks: seq<seq<byte>>, i: nat)
    requires i < |chunks|
    ensures SizesOf(chunks)[i] == |chunks[i]|
  {
    if i > 0 {
      SizesAt(chunks[1..], i - 1);
    }
  }

  lemma FeedStep(pool: nat, held: nat, size: nat, position: nat, n: nat, was: seq<nat>)
    requires pool > 0 && held <= pool && position < size
    requires n == if size - position <= pool - held then size - position else pool - held
    ensures var all := Feed(pool, held, size, position);
      if n == size then all == Fed([], held + n) && Feed(pool, held + n, size, position + n) == all
      else var rest := Feed(pool, 0, size, position + n);
        all.held == rest.held && was + all.chunks == (was + [held + n]) + rest.chunks
  {
  }

  lemma FeedEnd(pool: nat, held: nat, size: nat)
    requires pool > 0 && held <= pool
    ensures Feed(pool, held, size, size) == Fed([], held)
  {
  }

  lemma HandedStep(pool: nat, held: nat, pieces: seq<seq<byte>>, i: nat, was: seq<nat>)
    requires pool > 0 && held <= pool && i < |pieces|
    ensures var sizes := SizesOf(pieces); var first := Feed(pool, held, |pieces[i]|, 0);
      was + HandedSizes(pool, held, sizes[i..]) == (was + first.chunks) + HandedSizes(pool, first.held, sizes[i + 1..])
  {
    hide Feed;
    SizesAt(pieces, i);
    assert SizesOf(pieces)[i..][1..] == SizesOf(pieces)[i + 1..];
  }

  lemma HandedEnd(pool: nat, held: nat, sizes: seq<nat>)
    requires pool > 0 && held <= pool
    ensures HandedSizes(pool, held, sizes[|sizes|..]) == [held]
  {
  }

  lemma HandedForm(pool: nat, pieces: seq<seq<byte>>)
    requires pool > 0
    ensures Total(HandedSizes(pool, 0, SizesOf(pieces))) == |Concat(pieces)|
    ensures Handed(pool, pieces) == Cut(Concat(pieces), HandedSizes(pool, 0, SizesOf(pieces)))
  {
    ConcatTotal(pieces);
    HandedTotal(pool, 0, SizesOf(pieces));
  }
}
