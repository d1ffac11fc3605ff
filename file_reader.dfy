/**
 * The `skfile` object of the Sleuthkit binding: the content of one stream of
 * one inode, gathered once by a file walk into either a list of block
 * extents or a resident byte buffer, then read through a cursor.
 *
 * The file walk itself belongs to the parsing library; here it is the
 * sequence of reports it hands to the callback. The image is a function
 * from a block address to that block's bytes.
 */
module FileReader {

  import opened Common
  import opened BlockArith

  /** `struct block`: one extent of the non-resident case. */
  datatype Extent = Extent(addr: nat, size: int)

  /** What the library's file walk passes to the callback for one block. */
  datatype BlockReport = BlockReport(addr: nat, buf: seq<byte>, size: int, resident: bool)
  {
    /** The library hands over at least `size` bytes of resident data. */
    predicate WellFormed() { resident && size > 0 ==> size <= |buf| }
  }

  /** The image as the read path sees it: blocks of `blockSize` bytes. */
  datatype Image = Image(blockSize: nat, block: nat -> seq<byte>)
  {
    ghost predicate Valid() {
      blockSize > 0 && forall a: nat :: |block(a)| == blockSize
    }
  }

  /** The part of an skfile that the file walk fills in. */
  datatype Content = Content(resdata: Option<seq<byte>>, blocks: seq<Extent>, size: int)

  /** The state skfile_init sets up before the walk: no resident buffer,
      an empty block list and size 0. */
  const Empty := Content(None, [], 0)

  /** getblocks_walk_callback as a function of the state before the call. */
  function Report(c: Content, r: BlockReport): (c': Content)
    requires r.WellFormed()
    ensures r.size <= 0 ==> c' == c
    ensures r.size > 0 && r.resident ==>
              c'.resdata == Some(r.buf[..r.size]) && c'.size == r.size && c'.blocks == c.blocks
    ensures r.size > 0 && !r.resident ==>
              c'.blocks == c.blocks + [Extent(r.addr, r.size)] && c'.size == c.size + r.size
              && c'.resdata == c.resdata
  {
    if r.size <= 0 then c
    else if r.resident then Content(Some(r.buf[..r.size]), c.blocks, r.size)
    else Content(c.resdata, c.blocks + [Extent(r.addr, r.size)], c.size + r.size)
  }

  predicate AllWellFormed(rs: seq<BlockReport>) {
    forall k :: 0 <= k < |rs| ==> rs[k].WellFormed()
  }

  /** The state after the walk has reported `rs`, in order. */
  function Collect(rs: seq<BlockReport>): (c: Content)
    requires AllWellFormed(rs)
    ensures c.size >= 0 && |c.blocks| <= |rs|
  {
    if rs == [] then Empty else Report(Collect(rs[..|rs| - 1]), rs[|rs| - 1])
  }

  /** The extents a non-resident walk records: one per report of positive
      size, in report order. */
  function PositiveExtents(rs: seq<BlockReport>): seq<Extent>
  {
    if rs == [] then []
    else
      var last := rs[|rs| - 1];
      PositiveExtents(rs[..|rs| - 1]) + (if last.size > 0 then [Extent(last.addr, last.size)] else [])
  }

  function SumSizes(es: seq<Extent>): int
  {
    if es == [] then 0 else SumSizes(es[..|es| - 1]) + es[|es| - 1].size
  }

  /** Without resident reports the walk keeps every positive report as an
      extent, at the tail and in call order, and `size` is the sum of the
      extent sizes. */
  lemma {:induction false} CollectNonResident(rs: seq<BlockReport>)
    requires AllWellFormed(rs)
    requires forall k :: 0 <= k < |rs| ==> !rs[k].resident
    ensures Collect(rs).blocks == PositiveExtents(rs)
    ensures Collect(rs).size == SumSizes(Collect(rs).blocks)
    ensures Collect(rs).resdata == None
  {
    if rs != [] {
      var init := rs[..|rs| - 1];
      CollectNonResident(init);
      var es := Collect(init).blocks;
      var last := rs[|rs| - 1];
      if last.size > 0 {
        var es' := es + [Extent(last.addr, last.size)];
        assert es'[..|es'| - 1] == es;
      }
    }
  }

  /** A resident report replaces the buffer and sets `size` to its own
      length; reports of size <= 0 after it change nothing. */
  lemma {:induction false} CollectResidentLast(rs: seq<BlockReport>, i: nat)
    requires AllWellFormed(rs)
    requires i < |rs| && rs[i].resident && rs[i].size > 0
    requires forall k :: i < k < |rs| ==> rs[k].size <= 0
    ensures Collect(rs).resdata == Some(rs[i].buf[..rs[i].size])
    ensures Collect(rs).size == rs[i].size
  {
    if i < |rs| - 1 {
      CollectResidentLast(rs[..|rs| - 1], i);
    } else {
      assert rs[..|rs| - 1] + [rs[i]] == rs;
    }
  }

  /** When no recorded extent is larger than a block, the blocks cover the
      recorded size. */
  lemma {:induction false} SumSizesBound(es: seq<Extent>, bs: int)
    requires forall k :: 0 <= k < |es| ==> es[k].size <= bs
    ensures SumSizes(es) <= |es| * bs
  {
    if es != [] {
      SumSizesBound(es[..|es| - 1], bs);
      NextBlock(|es| - 1, bs);
    }
  }

  /** The byte at logical offset `pos` of the extent case: offset `pos mod
      block_size` in the `pos / block_size`-th recorded block; past the
      recorded blocks the read buffer holds no block data, modelled as 0. */
  function ByteAt(img: Image, blocks: seq<Extent>, pos: nat): byte
    requires img.Valid()
  {
    var i := pos / img.blockSize;
    if i < |blocks| then img.block(blocks[i].addr)[pos % img.blockSize] else 0
  }

  /** The recorded blocks' contents laid end to end. */
  function Stored(img: Image, blocks: seq<Extent>): (s: seq<byte>)
    requires img.Valid()
    ensures |s| == |blocks| * img.blockSize
  {
    if blocks == [] then []
    else Stored(img, blocks[..|blocks| - 1]) + img.block(blocks[|blocks| - 1].addr)
  }

  /** ByteAt agrees with the concatenation of the recorded blocks. */
  lemma {:induction false} StoredAt(img: Image, blocks: seq<Extent>, pos: nat)
    requires img.Valid()
    requires pos < |blocks| * img.blockSize
    ensures Stored(img, blocks)[pos] == ByteAt(img, blocks, pos)
  {
    var bs, n := img.blockSize, |blocks|;
    var init := blocks[..n - 1];
    var m := (n - 1) * bs;
    NextBlock(n - 1, bs);
    assert Stored(img, blocks) == Stored(img, init) + img.block(blocks[n - 1].addr);
    if pos < m {
      StoredAt(img, init, pos);
      PastBlocksNot(pos, bs, n - 1);
      assert init[pos / bs] == blocks[pos / bs];
    } else {
      InBlock(n - 1, bs, pos - m);
    }
  }

  /** The clamp at the top of skfile_read: a negative or over-long request
      becomes `size - readptr`. With the cursor within the file that is the
      smaller of the request and what is left; past the end it is negative. */
  function ClampLength(readptr: int, size: int, req: int): (n: int)
    ensures readptr <= size ==> 0 <= n <= size - readptr
    ensures readptr <= size && 0 <= req ==> n == if req <= size - readptr then req else size - readptr
    ensures req < 0 ==> n == size - readptr
    ensures readptr > size ==> n < 0 && n == size - readptr
  {
    if req < 0 || readptr + req > size then size - readptr else req
  }

  /**
   * The extent branch of skfile_read: blocks are read into a buffer (see
   * LoadBlocks) and `readlen` bytes are taken from offset
   * `readptr mod block_size`.
   */
  method ReadExtents(img: Image, blocks: seq<Extent>, readptr: int, readlen: int)
    returns (data: seq<byte>)
    requires img.Valid() && 0 <= readptr && 0 <= readlen
    ensures |data| == readlen
    ensures forall k :: 0 <= k < readlen ==> data[k] == ByteAt(img, blocks, readptr + k)
  {
    var bs := img.blockSize;
    var buf, written := LoadBlocks(img, blocks, readptr, readlen);
    var off := readptr % bs;
    ghost var base := readptr - off;
    data := buf[off..off + readlen];
    forall k | 0 <= k < readlen
      ensures data[k] == ByteAt(img, blocks, readptr + k)
    {
      var j := off + k;
      assert data[k] == buf[j];
      if j < written {
        assert base + j == readptr + k;
      } else {
        // no block data there: the loop ran out of blocks before that byte
        assert readptr + k >= |blocks| * bs;
        PastBlocks(readptr + k, bs, |blocks|);
      }
    }
  }

  /**
   * The block loop of skfile_read: blocks before the one holding `readptr`
   * are skipped, following blocks are read whole into a zeroed buffer of
   * `readlen + 2 * block_size` bytes until the cursor reaches
   * `readptr + readlen`. Every block write stays inside the buffer, and
   * blocks advance the cursor by the block size, not by their recorded size.
   * The buffer then holds the bytes from the start of the block holding
   * `readptr`, up to `written`, and zeros after; it stops short of the
   * window only when the blocks run out.
   */
  method LoadBlocks(img: Image, blocks: seq<Extent>, readptr: int, readlen: int)
    returns (buf: array<byte>, written: nat)
    requires img.Valid() && 0 <= readptr && 0 <= readlen
    ensures fresh(buf) && buf.Length == readlen + 2 * img.blockSize
    ensures written <= buf.Length
    ensures forall j :: 0 <= j < written ==>
              buf[j] == ByteAt(img, blocks, readptr - readptr % img.blockSize + j)
    ensures forall j :: written <= j < buf.Length ==> buf[j] == 0
    ensures readptr - readptr % img.blockSize + written >= readptr + readlen
         || readptr - readptr % img.blockSize + written >= |blocks| * img.blockSize
  {
    var bs := img.blockSize;
    buf := new byte[readlen + 2 * bs](_ => 0);
    ghost var first := readptr / bs;
    FirstBlock(readptr, bs);
    // the blocks read so far, laid end to end
    ghost var got: seq<byte> := [];
    var cur := 0;
    written := 0;
    var i := 0;
    while i < |blocks|
      invariant Loading(img, blocks, readptr, readlen, buf, i, cur, written, first, got)
    {
      var stop;
      cur, written, got, stop := LoadStep(img, blocks, readptr, readlen, buf, i, cur, written, first, got);
      i := i + 1;
      if stop {
        break;
      }
    }
    LoadedBytes(img, blocks, readptr, readlen, buf, i, written, first, got);
  }

  /** The block that holds `pos` starts at or before it. */
  lemma FirstBlock(pos: int, bs: int)
    requires 0 <= pos && bs > 0
    ensures 0 <= (pos / bs) * bs == pos - pos % bs
    ensures 0 * bs == 0
  {
    MulMono(0, pos / bs, bs);
  }

  /** What the block loop leaves, whether it stopped at the end of the window
      or ran out of blocks. */
  lemma LoadedBytes(img: Image, blocks: seq<Extent>, readptr: int, readlen: int,
                    buf: array<byte>, i: nat, written: nat, first: nat, got: seq<byte>)
    requires img.Valid() && 0 <= readptr && first == readptr / img.blockSize
    requires written == |got| <= buf.Length && Filled(buf, got)
    requires written > 0 ==> first <= i <= |blocks| && got == Stored(img, blocks[first..i])
    requires first * img.blockSize + written >= readptr + readlen
             || first * img.blockSize + written >= |blocks| * img.blockSize
    ensures forall j :: 0 <= j < written ==>
              buf[j] == ByteAt(img, blocks, readptr - readptr % img.blockSize + j)
    ensures forall j :: written <= j < buf.Length ==> buf[j] == 0
    ensures readptr - readptr % img.blockSize + written >= readptr + readlen
         || readptr - readptr % img.blockSize + written >= |blocks| * img.blockSize
  {
    FirstBlock(readptr, img.blockSize);
    if written > 0 {
      FilledBytes(img, blocks, first, i, buf, got);
    }
  }

  /** What the block loop of skfile_read keeps before block `i`: `cur` is
      where block `i` starts; nothing is read until the block that holds
      `readptr` (block `first`); from there `got`, the blocks read so far laid
      end to end, is in the buffer, followed by zeros, and the cursor has not
      yet reached the end of the window. */
  ghost predicate Loading(img: Image, blocks: seq<Extent>, readptr: int, readlen: int,
                          buf: array<byte>, i: nat, cur: int, written: nat, first: nat, got: seq<byte>)
    reads buf
    requires img.Valid()
  {
    var bs := img.blockSize;
    && 0 <= readptr && 0 <= readlen && first == readptr / bs
    && i <= |blocks| && cur == i * bs
    && buf.Length == readlen + 2 * bs && written <= readlen + bs
    && (written == 0 ==> cur <= first * bs)
    && (written > 0 ==> && first * bs + written == cur && cur < readptr + readlen
                        && first <= i && got == Stored(img, blocks[first..i]))
    && written == |got| && Filled(buf, got)
  }

  /** One pass of the block loop: a block that ends at or before `readptr`
      is skipped; any other is read into the buffer at `written`. `stop` says
      the cursor has reached the end of the window. */
  method LoadStep(img: Image, blocks: seq<Extent>, readptr: int, readlen: int,
                  buf: array<byte>, i: nat, cur: int, written: nat, ghost first: nat, ghost got: seq<byte>)
    returns (cur': int, written': nat, ghost got': seq<byte>, stop: bool)
    requires img.Valid() && i < |blocks|
    requires Loading(img, blocks, readptr, readlen, buf, i, cur, written, first, got)
    modifies buf
    ensures !stop ==> Loading(img, blocks, readptr, readlen, buf, i + 1, cur', written', first, got')
    ensures stop ==> && written' > 0 && first <= i
                     && got' == Stored(img, blocks[first..i + 1])
                     && first * img.blockSize + written' >= readptr + readlen
                     && written' == |got'| <= buf.Length && Filled(buf, got')
  {
    var bs := img.blockSize;
    NextBlock(i, bs);
    if cur + bs <= readptr {
      // not yet at the block that holds readptr
      BeforeFirst(i, first, bs, readptr);
      return cur + bs, written, got, false;
    }
    if written == 0 {
      AtFirst(i, first, bs, readptr);
    }
    got' := ReadBlock(img, blocks, i, buf, written, first, got);
    cur' := cur + bs;
    written' := written + bs;
    stop := cur' >= readptr + readlen;
  }

  /** A buffer filled with the blocks from `first` to `i` holds the image's
      bytes from the start of block `first`, then zeros. */
  lemma FilledBytes(img: Image, blocks: seq<Extent>, first: nat, i: nat, buf: array<byte>, got: seq<byte>)
    requires img.Valid() && first <= i <= |blocks|
    requires got == Stored(img, blocks[first..i]) && Filled(buf, got)
    ensures forall j :: 0 <= j < |got| ==> buf[j] == ByteAt(img, blocks, first * img.blockSize + j)
    ensures forall j :: |got| <= j < buf.Length ==> buf[j] == 0
  {
    StoredSlice(img, blocks, first, i);
  }

  /** Reads block `i` into `buf` at `written`, right after the blocks from
      `first` read so far. */
  method ReadBlock(img: Image, blocks: seq<Extent>, i: nat, buf: array<byte>, written: nat,
                   ghost first: nat, ghost got: seq<byte>)
    returns (ghost got': seq<byte>)
    requires img.Valid() && first <= i < |blocks|
    requires written + img.blockSize <= buf.Length && written == |got|
    requires got == Stored(img, blocks[first..i])
    requires Filled(buf, got)
    modifies buf
    ensures got' == Stored(img, blocks[first..i + 1]) && |got'| == written + img.blockSize
    ensures Filled(buf, got')
  {
    var b := img.block(blocks[i].addr);
    CopyBlock(buf, written, b);
    StoredExtend(img, blocks, first, i);
    got' := got + b;
  }

  /** `buf` holds `got` and zeros after it. */
  predicate Filled(buf: array<byte>, got: seq<byte>)
    reads buf
  {
    |got| <= buf.Length && forall j :: 0 <= j < buf.Length ==> buf[j] == if j < |got| then got[j] else 0
  }

  /** Copies `b` into `buf` at `at`, leaving the rest of `buf` alone. */
  method CopyBlock(buf: array<byte>, at: nat, b: seq<byte>)
    requires at + |b| <= buf.Length
    modifies buf
    ensures forall j :: 0 <= j < at ==> buf[j] == old(buf[j])
    ensures forall j :: at <= j < at + |b| ==> buf[j] == b[j - at]
    ensures forall j :: at + |b| <= j < buf.Length ==> buf[j] == old(buf[j])
  {
    forall j | at <= j < at + |b| {
      buf[j] := b[j - at];
    }
  }

  lemma StoredExtend(img: Image, blocks: seq<Extent>, lo: nat, hi: nat)
    requires img.Valid() && lo <= hi < |blocks|
    ensures Stored(img, blocks[lo..hi + 1]) == Stored(img, blocks[lo..hi]) + img.block(blocks[hi].addr)
  {
    var seg := blocks[lo..hi + 1];
    assert seg[..|seg| - 1] == blocks[lo..hi];
  }

  /** The blocks from `lo` laid end to end hold the bytes from position
      `lo * block_size` onwards. */
  lemma StoredSlice(img: Image, blocks: seq<Extent>, lo: nat, hi: nat)
    requires img.Valid() && lo <= hi <= |blocks|
    ensures forall j :: 0 <= j < |Stored(img, blocks[lo..hi])| ==>
              Stored(img, blocks[lo..hi])[j] == ByteAt(img, blocks, lo * img.blockSize + j)
  {
    forall j | 0 <= j < |Stored(img, blocks[lo..hi])|
      ensures Stored(img, blocks[lo..hi])[j] == ByteAt(img, blocks, lo * img.blockSize + j)
    {
      StoredSliceAt(img, blocks, lo, hi, j);
    }
  }

  lemma StoredSliceAt(img: Image, blocks: seq<Extent>, lo: nat, hi: nat, j: nat)
    requires img.Valid() && lo <= hi <= |blocks|
    requires j < |Stored(img, blocks[lo..hi])|
    ensures Stored(img, blocks[lo..hi])[j] == ByteAt(img, blocks, lo * img.blockSize + j)
  {
    var seg := blocks[lo..hi];
    StoredAt(img, seg, j);
    var q, r := SplitOffset(lo, hi - lo, img.blockSize, j);
    ByteAtIn(img, seg, q, r);
    assert seg[q] == blocks[lo + q];
    ByteAtIn(img, blocks, lo + q, r);
  }

  /** Offset `j` into `n` blocks that start at block `lo` is byte `r` of
      block `lo + q`. */
  lemma SplitOffset(lo: nat, n: nat, bs: nat, j: nat) returns (q: nat, r: nat)
    requires bs > 0 && j < n * bs
    ensures q < n && r < bs && j == q * bs + r && lo * bs + j == (lo + q) * bs + r
  {
    q, r := j / bs, j % bs;
    PastBlocksNot(j, bs, n);
    NextBlockBy(lo, q, bs);
  }

  /** Byte `r` of block `i` is byte `r` of that block's contents. */
  lemma ByteAtIn(img: Image, blocks: seq<Extent>, i: nat, r: nat)
    requires img.Valid() && i < |blocks| && r < img.blockSize
    ensures ByteAt(img, blocks, i * img.blockSize + r) == img.block(blocks[i].addr)[r]
  {
    InBlock(i, img.blockSize, r);
  }

  /** When the recorded blocks cover the requested window, the extent read
      returns exactly that window of the blocks laid end to end. */
  lemma WindowOfStored(img: Image, blocks: seq<Extent>, readptr: nat, readlen: nat, data: seq<byte>)
    requires img.Valid()
    requires readptr + readlen <= |blocks| * img.blockSize
    requires |data| == readlen
    requires forall k :: 0 <= k < readlen ==> data[k] == ByteAt(img, blocks, readptr + k)
    ensures data == Stored(img, blocks)[readptr..readptr + readlen]
  {
    forall k | 0 <= k < readlen
      ensures data[k] == Stored(img, blocks)[readptr + k]
    {
      StoredAt(img, blocks, readptr + k);
    }
  }

  /** What a read hands back. */
  datatype ReadResult =
    | Data(bytes: seq<byte>)
      /** The clamp produced a negative length (cursor past the end); the
          Python string constructor rejects it and the call raises. */
    | NegativeLength
      /** The read buffer could not be allocated (MemoryError). */
    | OutOfMemory

  class SkFile {
    const img: Image
    var resdata: Option<seq<byte>>
    var blocks: seq<Extent>
    var size: int
    var readptr: int

    function State(): Content
      reads this
    {
      Content(resdata, blocks, size)
    }

    /** skfile_init from the point the inode is found: fields reset, then
        the file walk reports each block to the callback in turn. */
    constructor Open(img: Image, reports: seq<BlockReport>)
      requires AllWellFormed(reports)
      ensures this.img == img
      ensures State() == Collect(reports) && readptr == 0
    {
      this.img := img;
      resdata := None;
      readptr := 0;
      size := 0;
      blocks := [];
      new;
      var i := 0;
      while i < |reports|
        invariant 0 <= i <= |reports|
        invariant State() == Collect(reports[..i]) && readptr == 0
      {
        assert reports[..i + 1][..i] == reports[..i];
        WalkCallback(reports[i]);
        i := i + 1;
      }
      assert reports[..i] == reports;
    }

    /** getblocks_walk_callback. */
    method WalkCallback(r: BlockReport)
      requires r.WellFormed()
      modifies this`resdata, this`blocks, this`size
      ensures State() == Report(old(State()), r)
    {
      if r.size <= 0 {
        return;
      }
      if r.resident {
        resdata := Some(r.buf[..r.size]);
        size := r.size;
      } else {
        blocks := blocks + [Extent(r.addr, r.size)];
        size := size + r.size;
      }
    }

    /**
     * skfile_read. The cursor must not be negative (on the resident path
     * the C code would read before its buffer) and a resident buffer must
     * hold `size` bytes (the C code would read past it). `allocOk` says
     * whether the `malloc` of the read buffer succeeds; when it fails the
     * call raises MemoryError before the cursor moves.
     */
    method Read(req: int, allocOk: bool) returns (r: ReadResult)
      requires img.Valid()
      requires readptr >= 0
      requires resdata.Some? ==> size <= |resdata.value|
      modifies this`readptr
      ensures resdata.None? && !allocOk ==> r == OutOfMemory && readptr == old(readptr)
      ensures resdata.Some? || allocOk ==>
        var n := ClampLength(old(readptr), size, req);
        && readptr == old(readptr) + n
        && (n < 0 ==> r == NegativeLength)
        && (n >= 0 && resdata.Some? ==>
              r == Data(resdata.value[old(readptr)..old(readptr) + n]))
        && (n >= 0 && resdata.None? ==>
              r.Data? && |r.bytes| == n
              && forall k :: 0 <= k < n ==> r.bytes[k] == ByteAt(img, blocks, old(readptr) + k))
    {
      var readlen := ClampLength(readptr, size, req);
      if resdata.Some? {
        r := if readlen < 0 then NegativeLength else Data(resdata.value[readptr..readptr + readlen]);
      } else if !allocOk {
        return OutOfMemory;
      } else if readlen < 0 {
        r := NegativeLength;
      } else {
        var bytes := ReadExtents(img, blocks, readptr, readlen);
        r := Data(bytes);
      }
      readptr := readptr + readlen;
    }

    /** skfile_seek: whence 0, 1 and 2 count from the start, the cursor and
        the end, without any bounds check; any other whence is an error that
        leaves the cursor alone. */
    method Seek(offset: int, whence: int) returns (ok: bool)
      modifies this`readptr
      ensures ok <==> whence == 0 || whence == 1 || whence == 2
      ensures whence == 0 ==> readptr == offset
      ensures whence == 1 ==> readptr == old(readptr) + offset
      ensures whence == 2 ==> readptr == size + offset
      ensures !ok ==> readptr == old(readptr)
    {
      if whence == 0 {
        readptr := offset;
      } else if whence == 1 {
        readptr := readptr + offset;
      } else if whence == 2 {
        readptr := size + offset;
      } else {
        return false;
      }
      return true;
    }

    /** skfile_tell. */
    method Tell() returns (pos: int)
      ensures pos == readptr
    {
      pos := readptr;
    }
  }
}
