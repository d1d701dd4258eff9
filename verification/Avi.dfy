/** Writing video and audio chunks to an AVI file, and reading them back without an index. */
module Avi {
  import opened Bits

  const MAX_LEN := 2000000000
  const HEADER_BYTES := 2048

  /** Rounded up to an even number. */
  function PadEven(n: nat): (r: nat)
    ensures r % 2 == 0 && n <= r <= n + 1
  {
    if n % 2 == 0 then n else n + 1
  }

  // ----------------------------------------------------------------- files

  /** A file as the C library sees it: bytes, a position, and for each coming write how many bytes of it get through. */
  class File {
    var content: seq<byte>
    var position: nat
    var quotas: seq<nat>

    constructor ()
      ensures content == [] && position == 0 && quotas == []
    {
      content, position, quotas := [], 0, [];
    }

    /** Writes at the position, over what is there; at most the next quota of bytes gets through. */
    method Write(data: seq<byte>) returns (n: nat)
      requires position <= |content|
      modifies this
      ensures n <= |data| && (old(quotas) == [] ==> n == |data| && quotas == [])
      ensures position == old(position) + n <= |content|
      ensures content[..position] == old(content[..position]) + data[..n]
      ensures |content| == if position <= |old(content)| then |old(content)| else position
    {
      n := if quotas == [] || quotas[0] >= |data| then |data| else quotas[0];
      quotas := if quotas == [] then [] else quotas[1..];
      content := content[..position] + data[..n] + if position + n <= |content| then content[position + n..] else [];
      position := position + n;
    }

    method Seek(to: nat)
      modifies this`position
      ensures position == to
    {
      position := to;
    }

    /** Reads at most n bytes; beyond the end there are none. */
    method Read(n: nat) returns (data: seq<byte>)
      modifies this`position
      ensures data == Available(content, old(position), n) && position == old(position) + |data|
    {
      data := Available(content, position, n);
      position := position + |data|;
    }
  }

  function Available(content: seq<byte>, p: nat, n: nat): (r: seq<byte>)
    ensures |r| <= n
  {
    if p >= |content| then [] else if p + n <= |content| then content[p..p + n] else content[p..]
  }

  // ---------------------------------------------------------------- chunks

  const VIDEO: seq<byte> := [0x30, 0x30, 0x64, 0x62]
  const AUDIO: seq<byte> := [0x30, 0x31, 0x77, 0x62]
  const LIST: seq<byte> := [0x4C, 0x49, 0x53, 0x54]

  function LongBytes(n: nat): (r: seq<byte>)
    ensures |r| == 4
  {
    [n % 0x100, n / 0x100 % 0x100, n / 0x1_0000 % 0x100, n / 0x100_0000 % 0x100]
  }

  /** The number in four bytes, with unsigned characters. */
  function LongValue(s: seq<byte>): nat
    requires |s| == 4
  {
    s[0] as int + 0x100 * s[1] as int + 0x1_0000 * s[2] as int + 0x100_0000 * s[3] as int
  }

  lemma LongInverse(n: nat)
    requires n < 0x1_0000_0000
    ensures LongValue(LongBytes(n)) == n
  {
    var a, b, c := n / 0x100, n / 0x1_0000, n / 0x100_0000;
    assert n == 0x100 * a + n % 0x100;
    assert a == 0x100 * b + a % 0x100;
    assert b == 0x100 * c + b % 0x100;
    assert c < 0x100;
  }

  /** A chunk: its kind, its length, and its data padded to even length. */
  datatype Chunk = Chunk(audio: bool, length: nat, data: seq<byte>) {
    predicate Valid() {
      |data| == PadEven(length) && length < MAX_LEN
    }
  }

  function TagOf(audio: bool): (r: seq<byte>)
    ensures |r| == 4
  {
    if audio then AUDIO else VIDEO
  }

  /** The bytes of a text of one-byte characters. */
  function Characters(s: string): (r: seq<byte>)
    requires forall i :: 0 <= i < |s| ==> s[i] as int < 256
    ensures |r| == |s|
  {
    seq(|s|, i requires 0 <= i < |s| => s[i] as int)
  }

  /** How a chunk of five bytes starts: its tag as text, its length least significant byte first, one byte of padding. */
  lemma ChunkLayout(data: seq<byte>)
    requires |data| == 6
    ensures Chunk(false, 5, data).Valid() && Chunk(true, 5, data).Valid()
    ensures ChunkBytes(Chunk(false, 5, data)) == Characters("00db") + [5, 0, 0, 0] + data
    ensures ChunkBytes(Chunk(true, 5, data)) == Characters("01wb") + [5, 0, 0, 0] + data
    ensures LongBytes(0x0403_0201) == [1, 2, 3, 4] && LIST == Characters("LIST")
  {
  }

  /** Padding adds at most one byte. */
  lemma PaddedEven(n: nat)
    ensures n <= PadEven(n) <= n + 1 && PadEven(n) % 2 == 0
  {
  }

  function ChunkBytes(c: Chunk): (r: seq<byte>)
    ensures |r| == 8 + |c.data|
  {
    TagOf(c.audio) + LongBytes(c.length) + c.data
  }

  function MoviBytes(chunks: seq<Chunk>): seq<byte>
  {
    if chunks == [] then [] else MoviBytes(chunks[..|chunks| - 1]) + ChunkBytes(chunks[|chunks| - 1])
  }

  lemma ChunkJoins(before: seq<byte>, audio: bool, length: nat, data: seq<byte>)
    ensures (before + (TagOf(audio) + LongBytes(length))) + data == before + ChunkBytes(Chunk(audio, length, data))
  {
    hide LongBytes, TagOf;
  }

  lemma MoviMore(was: seq<byte>, p: nat, now: seq<byte>, q: nat, chunks: seq<Chunk>, c: Chunk)
    requires HEADER_BYTES <= p <= |was| && p <= q <= |now| && was[HEADER_BYTES..p] == MoviBytes(chunks)
    requires now[..q] == was[..p] + ChunkBytes(c)
    ensures now[HEADER_BYTES..q] == MoviBytes(chunks + [c])
  {
    hide ChunkBytes;
    assert (chunks + [c])[..|chunks|] == chunks;
    assert now[HEADER_BYTES..q] == now[..q][HEADER_BYTES..];
    assert was[HEADER_BYTES..p] == was[..p][HEADER_BYTES..];
  }

  /** A chunk, one more index entry and the index header stay within the limit. */
  predicate Fits(pos: nat, length: nat, nIdx: nat)
  {
    pos + 8 + length + 8 + (nIdx + 1) * 16 <= MAX_LEN
  }

  /** A padded chunk fits wherever the unpadded one does, as the limit and all positions are even. */
  lemma OddCannotMeet(pos: nat, length: nat, n: nat)
    requires pos % 2 == 0 && Fits(pos, length, n)
    ensures (pos + 8 + PadEven(length)) % 2 == 0 && pos + 8 + PadEven(length) + 8 + 16 * (n + 1) <= MAX_LEN
    ensures length < MAX_LEN
  {
  }

  lemma SameMovi(was: seq<byte>, now: seq<byte>, p: nat)
    requires HEADER_BYTES <= p <= |was| && p <= |now| && now[..p] == was[..p]
    ensures now[HEADER_BYTES..p] == was[HEADER_BYTES..p]
  {
    assert now[HEADER_BYTES..p] == now[..p][HEADER_BYTES..];
  }

  // --------------------------------------------------------------- writing

  datatype Mode = ModeWrite | ModeRead

  class Writer {
    const file: File
    const mode: Mode
    var pos: nat
    var nIdx: nat
    var videoFrames: nat
    var audioBytes: nat
    ghost var chunks: seq<Chunk>

    /** The file holds the reserved header and exactly the chunks written so far; with room for the index. */
    ghost predicate Valid()
      reads this, file
    {
      && pos % 2 == 0 && HEADER_BYTES <= pos == file.position <= |file.content|
      && file.content[HEADER_BYTES..pos] == MoviBytes(chunks)
      && (forall c :: c in chunks ==> c.Valid())
      && pos + 8 + 16 * nIdx <= MAX_LEN
    }

    /** Opens a file for writing, behind a reserved header of zeros. */
    constructor (file: File)
      requires file.content == [] && file.position == 0 && file.quotas == []
      modifies file
      ensures Valid() && chunks == [] && mode == ModeWrite && this.file == file && pos == HEADER_BYTES
      ensures nIdx == videoFrames == audioBytes == 0
    {
      this.file := file;
      mode := ModeWrite;
      pos, nIdx, videoFrames, audioBytes := HEADER_BYTES, 0, 0, 0;
      chunks := [];
      new;
      var n := file.Write(seq(HEADER_BYTES, _ => 0));
      assert file.content[HEADER_BYTES..HEADER_BYTES] == [];
    }

    /** Tag, length and data, padded with the byte that follows the data in memory; a write
        that does not get through leaves the position where it was. */
    method AddChunk(audio: bool, data: seq<byte>, length: nat) returns (ok: bool)
      requires pos == file.position <= |file.content| && PadEven(length) <= |data|
      modifies this`pos, file
      ensures pos == file.position <= |file.content|
      ensures pos == if ok then old(pos) + 8 + PadEven(length) else old(pos)
      ensures ok ==> file.content[..pos] == old(file.content[..pos]) + ChunkBytes(Chunk(audio, length, data[..PadEven(length)]))
      ensures !ok ==> file.content[..pos] == old(file.content[..pos])
      ensures old(file.quotas) == [] ==> ok && file.quotas == []
    {
      ghost var before := file.content[..pos];
      hide ChunkBytes, LongBytes, TagOf, PadEven;
      var c := TagOf(audio) + LongBytes(length);
      var padded := PadEven(length);
      var n := file.Write(c);
      assert file.content[..pos] == before;
      if n == 8 {
        assert c[..8] == c;
        ghost var header := file.content[..pos + 8];
        n := file.Write(data[..padded]);
        if n == padded {
          assert data[..padded][..n] == data[..padded];
          ChunkJoins(before, audio, length, data[..padded]);
          pos := pos + 8 + padded;
          return true;
        }
        assert header[..pos] == before;
      }
      file.Seek(pos);
      ok := false;
    }

    /** Checks the size limit, counts an index entry, and adds the chunk. */
    method WriteData(data: seq<byte>, length: nat, audio: bool) returns (ok: bool)
      requires Valid() && PadEven(length) <= |data|
      modifies this`pos, this`nIdx, this`chunks, file
      ensures Valid()
      ensures chunks == if ok then old(chunks) + [Chunk(audio, length, data[..PadEven(length)])] else old(chunks)
      ensures nIdx == old(nIdx) + if Fits(old(pos), length, old(nIdx)) then 1 else 0
      ensures ok ==> pos == old(pos) + 8 + PadEven(length)
      ensures old(file.quotas) == [] ==> file.quotas == [] && (ok <==> Fits(old(pos), length, old(nIdx)))
    {
      if !Fits(pos, length, nIdx) {
        return false;
      }
      OddCannotMeet(pos, length, nIdx);
      hide MoviBytes, ChunkBytes, PadEven, Fits;
      nIdx := nIdx + 1;
      ghost var was, p := file.content, pos;
      ok := AddChunk(audio, data, length);
      if ok {
        ghost var c := Chunk(audio, length, data[..PadEven(length)]);
        MoviMore(was, p, file.content, pos, chunks, c);
        chunks := chunks + [c];
      } else {
        SameMovi(was, file.content, pos);
      }
    }

    method WriteFrame(data: seq<byte>, bytes: nat) returns (ok: bool)
      requires Valid() && PadEven(bytes) <= |data|
      modifies this`pos, this`nIdx, this`chunks, this`videoFrames, file
      ensures Valid()
      ensures mode == ModeRead ==> !ok && chunks == old(chunks) && file.content == old(file.content)
      ensures chunks == if ok then old(chunks) + [Chunk(false, bytes, data[..PadEven(bytes)])] else old(chunks)
      ensures videoFrames == old(videoFrames) + if ok then 1 else 0
      ensures mode == ModeWrite ==> nIdx == old(nIdx) + if Fits(old(pos), bytes, old(nIdx)) then 1 else 0
      ensures mode == ModeWrite && old(file.quotas) == [] ==> file.quotas == [] && (ok <==> Fits(old(pos), bytes, old(nIdx)))
    {
      if mode == ModeRead {
        return false;
      }
      ok := WriteData(data, bytes, false);
      if ok {
        videoFrames := videoFrames + 1;
      }
    }

    method WriteAudio(data: seq<byte>, bytes: nat) returns (ok: bool)
      requires Valid() && PadEven(bytes) <= |data|
      modifies this`pos, this`nIdx, this`chunks, this`audioBytes, file
      ensures Valid()
      ensures mode == ModeRead ==> !ok && chunks == old(chunks) && file.content == old(file.content)
      ensures chunks == if ok then old(chunks) + [Chunk(true, bytes, data[..PadEven(bytes)])] else old(chunks)
      ensures audioBytes == old(audioBytes) + if ok then bytes else 0
      ensures mode == ModeWrite ==> nIdx == old(nIdx) + if Fits(old(pos), bytes, old(nIdx)) then 1 else 0
      ensures mode == ModeWrite && old(file.quotas) == [] ==> file.quotas == [] && (ok <==> Fits(old(pos), bytes, old(nIdx)))
    {
      if mode == ModeRead {
        return false;
      }
      ok := WriteData(data, bytes, true);
      if ok {
        audioBytes := audioBytes + bytes;
      }
    }

    /** The room left never becomes negative: an odd length cannot meet the even limit exactly. */
    method BytesRemain() returns (n: int)
      requires Valid()
      ensures n >= 0 && (mode == ModeRead ==> n == 0)
      ensures mode == ModeWrite ==> n == MAX_LEN - (pos + 8 + 16 * nIdx)
    {
      if mode == ModeRead {
        return 0;
      }
      n := MAX_LEN - (pos + 8 + 16 * nIdx);
    }
  }

  // --------------------------------------------------------------- reading

  function Lower(b: byte): byte
  {
    if 0x41 <= b <= 0x5A then b + 0x20 else b
  }

  /** Comparison of the first n characters without regard to case. */
  predicate SameTag(a: seq<byte>, b: seq<byte>, n: nat)
    requires n <= |a| && n <= |b|
  {
    forall i :: 0 <= i < n ==> Lower(a[i]) == Lower(b[i])
  }

  /** What a call reads: nothing more, a chunk too large for its buffer, or the data of a chunk. */
  datatype Reading = EndOfFile | VideoTooSmall(len: nat) | AudioTooSmall(len: nat) | VideoData(data: seq<byte>) | AudioData(data: seq<byte>)

  datatype Next = Next(reading: Reading, position: nat)

  const VIDEO_TAG_LENGTH := 3
  const AUDIO_TAG_LENGTH := 4

  /** The next chunk from position p on, lists entered and other chunks skipped. */
  function ReadNext(content: seq<byte>, p: nat, maxVideo: nat, maxAudio: nat): Next
    decreases |content| - p
  {
    var data := Available(content, p, 8);
    var q := p + |data|;
    if |data| != 8 then Next(EndOfFile, q)
    else if SameTag(data, LIST, 4) then ReadNext(content, q + 4, maxVideo, maxAudio)
    else
      var n := PadEven(LongValue(data[4..]));
      if SameTag(data, VIDEO, VIDEO_TAG_LENGTH) then
        if n > maxVideo then Next(VideoTooSmall(n), q + n)
        else
          var body := Available(content, q, n);
          Next(if |body| == n then VideoData(body) else EndOfFile, q + |body|)
      else if SameTag(data, AUDIO, AUDIO_TAG_LENGTH) then
        if n > maxAudio then Next(AudioTooSmall(n), q + n)
        else
          var body := Available(content, q, n);
          Next(if |body| == n then AudioData(body) else EndOfFile, q + |body|)
      else ReadNext(content, q + n, maxVideo, maxAudio)
  }

  /** A list's header of twelve bytes is passed and its chunks are read; a chunk of another kind is passed with its padding. */
  lemma OtherChunksPassed(content: seq<byte>, p: nat, size: nat, kind: seq<byte>, maxVideo: nat, maxAudio: nat)
    requires p + 8 <= |content| && |kind| == 4 && size < 0x1_0000_0000 && content[p..p + 8] == kind + LongBytes(size)
    ensures kind == Characters("LIST") ==>
      ReadNext(content, p, maxVideo, maxAudio) == ReadNext(content, p + 12, maxVideo, maxAudio)
    ensures kind == Characters("JUNK") || kind == Characters("idx1") ==>
      ReadNext(content, p, maxVideo, maxAudio) == ReadNext(content, p + 8 + PadEven(size), maxVideo, maxAudio)
  {
    hide LongBytes, LongValue;
    LongInverse(size);
    assert Characters("LIST")[0] == 0x4C && Characters("JUNK")[0] == 0x4A && Characters("idx1")[0] == 0x69;
    var data := Available(content, p, 8);
    assert data == kind + LongBytes(size) && data[4..] == LongBytes(size) && forall i :: 0 <= i < 4 ==> data[i] == kind[i];
    if kind == Characters("LIST") {
      assert SameTag(data, LIST, 4);
    } else if kind == Characters("JUNK") || kind == Characters("idx1") {
      assert kind[0] == 0x4A || kind[0] == 0x69;
      assert !SameTag(data, LIST, 4) && !SameTag(data, VIDEO, VIDEO_TAG_LENGTH) && !SameTag(data, AUDIO, AUDIO_TAG_LENGTH);
    }
  }

  class Reader {
    const file: File
    var videoPos: nat

    constructor (file: File)
      ensures this.file == file && videoPos == 0
    {
      this.file := file;
      videoPos := 0;
    }

    /** Reads the next audio or video chunk without an index. */
    method ReadData(maxVideo: nat, maxAudio: nat) returns (r: Reading)
      modifies this, file`position
      ensures Next(r, file.position) == ReadNext(file.content, old(file.position), maxVideo, maxAudio)
      ensures r.VideoData? || r.VideoTooSmall? ==> videoPos == old(videoPos) + 1
    {
      hide LongValue, SameTag, Lower, PadEven;
      ghost var start := file.position;
      while true
        invariant ReadNext(file.content, file.position, maxVideo, maxAudio) == ReadNext(file.content, start, maxVideo, maxAudio)
        invariant videoPos == old(videoPos)
        decreases |file.content| - file.position
      {
        var data := file.Read(8);
        if |data| != 8 {
          return EndOfFile;
        }
        if SameTag(data, LIST, 4) {
          file.Seek(file.position + 4);
          continue;
        }
        var n := PadEven(LongValue(data[4..]));
        if SameTag(data, VIDEO, VIDEO_TAG_LENGTH) {
          videoPos := videoPos + 1;
          if n > maxVideo {
            file.Seek(file.position + n);
            return VideoTooSmall(n);
          }
          var body := file.Read(n);
          return if |body| == n then VideoData(body) else EndOfFile;
        } else if SameTag(data, AUDIO, AUDIO_TAG_LENGTH) {
          if n > maxAudio {
            file.Seek(file.position + n);
            return AudioTooSmall(n);
          }
          var body := file.Read(n);
          return if |body| == n then AudioData(body) else EndOfFile;
        }
        file.Seek(file.position + n);
      }
    }
  }

  // ------------------------------------------------------------ round trip

  /** What reading gives for a chunk. */
  function ReadingOf(c: Chunk, maxVideo: nat, maxAudio: nat): Reading
  {
    if c.audio then (if |c.data| > maxAudio then AudioTooSmall(|c.data|) else AudioData(c.data))
    else if |c.data| > maxVideo then VideoTooSmall(|c.data|) else VideoData(c.data)
  }

  function ReadingsOf(chunks: seq<Chunk>, maxVideo: nat, maxAudio: nat): seq<Reading>
  {
    if chunks == [] then [] else [ReadingOf(chunks[0], maxVideo, maxAudio)] + ReadingsOf(chunks[1..], maxVideo, maxAudio)
  }

  /** The next k readings, and the position after them. */
  function ReadMany(content: seq<byte>, p: nat, k: nat, maxVideo: nat, maxAudio: nat): (seq<Reading>, nat)
    decreases k
  {
    if k == 0 then ([], p)
    else
      var next := ReadNext(content, p, maxVideo, maxAudio);
      var rest := ReadMany(content, next.position, k - 1, maxVideo, maxAudio);
      ([next.reading] + rest.0, rest.1)
  }

  /** A written chunk is read back, or skipped exactly when its buffer is too small. */
  lemma ReadsChunk(content: seq<byte>, p: nat, c: Chunk, maxVideo: nat, maxAudio: nat)
    requires c.Valid() && p + 8 + |c.data| <= |content| && content[p..p + 8 + |c.data|] == ChunkBytes(c)
    ensures ReadNext(content, p, maxVideo, maxAudio) == Next(ReadingOf(c, maxVideo, maxAudio), p + 8 + |c.data|)
  {
    hide LongBytes, LongValue;
    LongInverse(c.length);
    var data := Available(content, p, 8);
    assert forall i :: 0 <= i < 8 ==> data[i] == content[p..p + 8 + |c.data|][i] == ChunkBytes(c)[i];
    assert data[4..] == LongBytes(c.length);
    var body := Available(content, p + 8, |c.data|);
    assert body == content[p..p + 8 + |c.data|][8..] == c.data;
    assert Lower(data[0]) != Lower(LIST[0]);
    if c.audio {
      assert data[1] == 0x31;
    } else {
      assert SameTag(data, VIDEO, VIDEO_TAG_LENGTH);
    }
  }

  lemma {:induction false} MoviFirst(chunks: seq<Chunk>)
    requires chunks != []
    ensures MoviBytes(chunks) == ChunkBytes(chunks[0]) + MoviBytes(chunks[1..])
  {
    hide ChunkBytes;
    if |chunks| == 1 {
      assert chunks[..0] == [] && chunks[1..] == [];
    } else {
      var init := chunks[..|chunks| - 1];
      MoviFirst(init);
      assert init[1..] == chunks[1..][..|chunks| - 2];
      Associative(ChunkBytes(chunks[0]), MoviBytes(init[1..]), ChunkBytes(chunks[|chunks| - 1]));
    }
  }

  /** The chunks come back in order with the same padded bytes, from any place of the file that holds them. */
  lemma {:induction false} ReadsAll(content: seq<byte>, p: nat, chunks: seq<Chunk>, maxVideo: nat, maxAudio: nat)
    requires forall c :: c in chunks ==> c.Valid()
    requires p + |MoviBytes(chunks)| <= |content| && content[p..p + |MoviBytes(chunks)|] == MoviBytes(chunks)
    ensures ReadMany(content, p, |chunks|, maxVideo, maxAudio) == (ReadingsOf(chunks, maxVideo, maxAudio), p + |MoviBytes(chunks)|)
    decreases |chunks|
  {
    hide MoviBytes, ChunkBytes, ReadNext, ReadingOf, Chunk.Valid;
    if chunks == [] {
      NoChunks();
    } else {
      var c := chunks[0];
      MoviFirst(chunks);
      var whole := content[p..p + |MoviBytes(chunks)|];
      assert content[p..p + |ChunkBytes(c)|] == whole[..|ChunkBytes(c)|] == ChunkBytes(c);
      var q := p + |ChunkBytes(c)|;
      assert content[q..q + |MoviBytes(chunks[1..])|] == whole[|ChunkBytes(c)|..] == MoviBytes(chunks[1..]);
      ReadsChunk(content, p, c, maxVideo, maxAudio);
      ReadsAll(content, q, chunks[1..], maxVideo, maxAudio);
    }
  }

  lemma NoChunks()
    ensures MoviBytes([]) == []
  {
  }

  /** A file as the writer leaves it is read back completely, and then ends when no failed write left bytes behind it. */
  lemma WrittenIsRead(w: Writer, maxVideo: nat, maxAudio: nat)
    requires w.Valid()
    ensures var r := ReadMany(w.file.content, HEADER_BYTES, |w.chunks|, maxVideo, maxAudio);
      r == (ReadingsOf(w.chunks, maxVideo, maxAudio), w.pos) &&
      (|w.file.content| == w.pos ==> ReadNext(w.file.content, w.pos, maxVideo, maxAudio) == Next(EndOfFile, w.pos))
  {
    hide MoviBytes, ReadMany;
    ReadsAll(w.file.content, HEADER_BYTES, w.chunks, maxVideo, maxAudio);
  }
}
