/**
 * The OLE2 (Compound File Binary) reader of libole2.py. A file is a 512-byte
 * header followed by 512-byte big blocks. The big-block depot is an
 * allocation table: entry `i` names the block that follows block `i` in its
 * chain, and -2 ends a chain. The depot itself is spread over the blocks the
 * header's depot list names. The directory ("property sets") is the chain
 * that starts at the header's `dirent_start`; small streams live in 64-byte
 * pieces of the root property's stream.
 *
 * Python's semantics are written out: a negative list index counts from the
 * end, an index out of range raises IndexError, slices clamp their bounds,
 * and `/` on integers floors. A LONG is a little-endian signed 32-bit
 * integer and a WORD a little-endian unsigned 16-bit one.
 */
module Ole2 {

  import opened Common
  import BlockArith

  const BlockSize: nat := 0x200
  const SmallBlockSize: nat := 0x40
  const HeaderSize: nat := 0x200
  const PropertySize: nat := 0x80
  /** The number of depot entries one big block holds (blocksize / 4). */
  const DepotPerBlock: nat := 128
  /** Marks the end of a chain. */
  const EndOfChain: int := -2

  const Magic: seq<byte> := [0xD0, 0xCF, 0x11, 0xE0, 0xA1, 0xB1, 0x1A, 0xE1]

  /** The ways reading an OLE2 file can fail: the data ends inside a field,
      the magic is wrong, a list index is out of range, a chain is longer than
      the fuel allows (the Python loop would go on, perhaps forever), or a
      small stream is read before the small-block stream exists. */
  datatype Failure = Truncated | BadMagic | IndexError | ChainTooLong | NoSmallChain

  datatype Result<T> = Ok(value: T) | Err(error: Failure)

  // ---------------------------------------------------------------------
  // Python indexing and slicing

  /** `s[x]`: a negative index counts from the end; outside -|s|..|s|-1 the
      lookup raises IndexError (None). */
  function PyIndex<T>(s: seq<T>, x: int): (r: Option<T>)
    ensures r.Some? <==> -|s| <= x < |s|
    ensures 0 <= x < |s| ==> r == Some(s[x])
    ensures -|s| <= x < 0 ==> r == Some(s[x + |s|])
  {
    if 0 <= x < |s| then Some(s[x])
    else if -|s| <= x < 0 then Some(s[x + |s|])
    else None
  }

  /** A slice bound as Python normalises it for a sequence of length `n`. */
  function SliceBound(n: nat, x: int): (y: nat)
    ensures y <= n
    ensures 0 <= x <= n ==> y == x
    ensures x < 0 && 0 <= x + n ==> y == x + n
  {
    if x < 0 then (if x + n < 0 then 0 else x + n)
    else if x > n then n
    else x
  }

  /** `s[lo:hi]`. */
  function PySlice<T>(s: seq<T>, lo: int, hi: int): (r: seq<T>)
    ensures |r| <= |s|
    ensures 0 <= lo <= hi <= |s| ==> r == s[lo..hi]
    ensures var a := SliceBound(|s|, lo); a + |r| <= |s| && r == s[a..a + |r|]
  {
    var a, b := SliceBound(|s|, lo), SliceBound(|s|, hi);
    if b <= a then [] else s[a..b]
  }

  /** `s[n:]` for a non-negative `n`. */
  function Drop<T>(s: seq<T>, n: nat): (r: seq<T>)
    ensures n <= |s| ==> r == s[n..]
    ensures n > |s| ==> r == []
  {
    if n <= |s| then s[n..] else []
  }

  /** A slice of `size` elements asked for at any start gives at most `size`
      elements, whatever the signs of its bounds. */
  lemma PySliceBound<T>(s: seq<T>, lo: int, size: int)
    requires size >= 0
    ensures |PySlice(s, lo, lo + size)| <= size
  {
    var n := |s|;
    var a, b := SliceBound(n, lo), SliceBound(n, lo + size);
    if a < b {
      if lo >= 0 {
        assert a == (if lo > n then n else lo);
      } else if lo + n >= 0 {
        assert a == lo + n;
      } else {
        assert a == 0;
      }
    }
  }

  /** `s[:size]` is a prefix of `s`, of length `size` when `size` fits. */
  lemma PyPrefix<T>(s: seq<T>, size: int)
    ensures PySlice(s, 0, size) <= s
    ensures 0 <= size ==> |PySlice(s, 0, size)| == if size <= |s| then size else |s|
  {
  }

  // ---------------------------------------------------------------------
  // Fields

  /** A little-endian signed 32-bit LONG at `off`. */
  function LongAt(data: seq<byte>, off: nat): (v: int)
    requires off + 4 <= |data|
    ensures -0x8000_0000 <= v < 0x8000_0000
  {
    var u := data[off] as int + 0x100 * data[off + 1] as int
             + 0x1_0000 * data[off + 2] as int + 0x100_0000 * data[off + 3] as int;
    if u >= 0x8000_0000 then u - 0x1_0000_0000 else u
  }

  /** A little-endian unsigned 16-bit WORD at `off`. */
  function WordAt(data: seq<byte>, off: nat): (v: nat)
    requires off + 2 <= |data|
    ensures v < 0x1_0000
  {
    data[off] as nat + 0x100 * data[off + 1] as nat
  }

  /** The `k`th LONG of `data`. */
  function Long(data: seq<byte>, k: nat): int
    requires 4 * k + 4 <= |data|
  {
    LongAt(data, 4 * k)
  }

  /** LONG_ARRAY: `count` LONGs one after another from `off`. */
  function Longs(data: seq<byte>, off: nat, count: nat): (ls: seq<int>)
    requires off + 4 * count <= |data|
    ensures |ls| == count
    ensures forall k :: 0 <= k < count ==> ls[k] == LongAt(data, off + 4 * k)
  {
    seq(count, k requires 0 <= k < count => LongAt(data, off + 4 * k))
  }

  // ---------------------------------------------------------------------
  // The depot list (DepotList.read)

  /** What DepotList.read gives for `data`: the LONGs up to and including the
      first negative one. */
  predicate IsDepotList(data: seq<byte>, l: seq<int>) {
    && |l| > 0 && 4 * |l| <= |data|
    && (forall k :: 0 <= k < |l| ==> l[k] == Long(data, k))
    && l[|l| - 1] < 0
    && (forall k :: 0 <= k < |l| - 1 ==> l[k] >= 0)
  }

  /** DepotList.read: reads LONGs until one is negative. Running out of data
      first is an error. */
  method ReadDepotList(data: seq<byte>) returns (r: Result<seq<int>>)
    ensures r.Ok? ==> IsDepotList(data, r.value)
    ensures r.Err? ==> r.error == Truncated
    ensures r.Err? <==> forall k :: 0 <= k && 4 * k + 4 <= |data| ==> Long(data, k) >= 0
  {
    var result: seq<int> := [];
    var offset := 0;
    while true
      invariant offset == 4 * |result| <= |data|
      invariant forall k :: 0 <= k < |result| ==> result[k] == Long(data, k) && result[k] >= 0
      decreases |data| - offset
    {
      if offset + 4 > |data| {
        forall k | 0 <= k && 4 * k + 4 <= |data|
          ensures Long(data, k) >= 0
        {
          assert k < |result|;
        }
        return Err(Truncated);
      }
      var a := LongAt(data, offset);
      assert a == Long(data, |result|);
      offset := offset + 4;
      result := result + [a];
      if a < 0 {
        return Ok(result);
      }
    }
  }

  /** The depot list is determined by the data: only one list fits. */
  lemma DepotListUnique(data: seq<byte>, l1: seq<int>, l2: seq<int>)
    requires IsDepotList(data, l1) && IsDepotList(data, l2)
    ensures l1 == l2
  {
    var m := if |l1| < |l2| then |l1| else |l2|;
    assert l1[m - 1] == l2[m - 1];
    assert forall k :: 0 <= k < |l1| ==> l1[k] == l2[k];
  }

  // ---------------------------------------------------------------------
  // The big-block depot (read_depot)

  /** Every non-negative entry of the list names a depot block inside the
      data (the block after the header). */
  predicate DepotCovered(list: seq<int>, data: seq<byte>) {
    forall k :: 0 <= k < |list| && list[k] >= 0 ==> BlockSize * list[k] + HeaderSize + BlockSize <= |data|
  }

  /** The depot entries the listed blocks hold, in list order; negative list
      entries are skipped. */
  function DepotOf(list: seq<int>, data: seq<byte>): seq<int>
    requires DepotCovered(list, data)
  {
    if list == [] then []
    else
      var v := list[|list| - 1];
      DepotOf(list[..|list| - 1], data)
      + (if v >= 0 then Longs(data, BlockSize * v + HeaderSize, DepotPerBlock) else [])
  }

  /** read_depot: appends the 128 LONGs of each listed block. The code reads
      with the class's block size, not its `blocksize` argument, so the
      argument is not modelled. A block that is not wholly inside the data is
      an error. */
  method ReadDepot(list: seq<int>, data: seq<byte>) returns (r: Result<seq<int>>)
    ensures r.Ok? <==> DepotCovered(list, data)
    ensures r.Ok? ==> r.value == DepotOf(list, data)
    ensures r.Err? ==> r.error == Truncated
  {
    var result: seq<int> := [];
    for i := 0 to |list|
      invariant DepotCovered(list[..i], data)
      invariant result == DepotOf(list[..i], data)
    {
      var v := list[i];
      assert list[..i + 1][..i] == list[..i];
      if v >= 0 {
        if BlockSize * v + HeaderSize + BlockSize > |data| {
          assert !DepotCovered(list, data) by {
            assert list[i] == v;
          }
          return Err(Truncated);
        }
        result := result + Longs(data, BlockSize * v + HeaderSize, DepotPerBlock);
      }
    }
    assert list[..|list|] == list;
    return Ok(result);
  }

  /** The non-negative entries of a list, in order. */
  function NonNegative(list: seq<int>): (r: seq<int>)
    ensures |r| <= |list|
    ensures forall k :: 0 <= k < |r| ==> r[k] >= 0
  {
    if list == [] then []
    else NonNegative(list[..|list| - 1]) + (if list[|list| - 1] >= 0 then [list[|list| - 1]] else [])
  }

  lemma {:induction false} NonNegativeIn(list: seq<int>)
    ensures forall x :: x in NonNegative(list) ==> x in list
  {
    if list != [] {
      NonNegativeIn(list[..|list| - 1]);
      forall x | x in NonNegative(list)
        ensures x in list
      {
        if x in NonNegative(list[..|list| - 1]) {
          assert x in list[..|list| - 1];
        }
      }
    }
  }

  /** The depot of a list is the depot of its non-negative entries, and holds
      128 entries for each of them. */
  lemma {:induction false} DepotSkipsNegative(list: seq<int>, data: seq<byte>)
    requires DepotCovered(list, data)
    ensures DepotCovered(NonNegative(list), data)
    ensures DepotOf(list, data) == DepotOf(NonNegative(list), data)
    ensures |DepotOf(list, data)| == DepotPerBlock * |NonNegative(list)|
  {
    CoveredNonNegative(list, data);
    if list != [] {
      CoveredPrefix(list, data);
      DepotSkipsNegative(list[..|list| - 1], data);
      SkipStep(list, data);
    }
  }

  /** The induction step of DepotSkipsNegative: one more list entry. */
  lemma SkipStep(l: seq<int>, data: seq<byte>)
    requires l != [] && DepotCovered(l, data)
    requires DepotCovered(l[..|l| - 1], data) && DepotCovered(NonNegative(l[..|l| - 1]), data)
    requires DepotOf(l[..|l| - 1], data) == DepotOf(NonNegative(l[..|l| - 1]), data)
    requires |DepotOf(l[..|l| - 1], data)| == DepotPerBlock * |NonNegative(l[..|l| - 1])|
    ensures DepotCovered(NonNegative(l), data)
    ensures DepotOf(l, data) == DepotOf(NonNegative(l), data)
    ensures |DepotOf(l, data)| == DepotPerBlock * |NonNegative(l)|
  {
    var init, v := l[..|l| - 1], l[|l| - 1];
    CoveredNonNegative(l, data);
    var nn := NonNegative(init);
    if v >= 0 {
      assert NonNegative(l) == nn + [v];
      DepotSnoc(nn, v, data);
    } else {
      assert NonNegative(l) == nn;
    }
  }

  lemma CoveredNonNegative(list: seq<int>, data: seq<byte>)
    requires DepotCovered(list, data)
    ensures DepotCovered(NonNegative(list), data)
  {
    NonNegativeIn(list);
    var nn := NonNegative(list);
    forall k | 0 <= k < |nn| && nn[k] >= 0
      ensures BlockSize * nn[k] + HeaderSize + BlockSize <= |data|
    {
      assert nn[k] in list;
      var j :| 0 <= j < |list| && list[j] == nn[k];
    }
  }

  /** One more list entry adds its block's entries when it is not negative. */
  lemma DepotSnoc(xs: seq<int>, v: int, data: seq<byte>)
    requires DepotCovered(xs + [v], data)
    ensures DepotCovered(xs, data)
    ensures v >= 0 ==> BlockSize * v + HeaderSize + BlockSize <= |data|
    ensures DepotOf(xs + [v], data) == DepotOf(xs, data)
              + (if v >= 0 then Longs(data, BlockSize * v + HeaderSize, DepotPerBlock) else [])
  {
    var l := xs + [v];
    assert l[..|l| - 1] == xs;
    assert l[|l| - 1] == v;
    CoveredPrefix(l, data);
  }

  /** The depot of two lists one after the other is the two depots one after
      the other. */
  lemma {:induction false} DepotAppend(a: seq<int>, b: seq<int>, data: seq<byte>)
    requires DepotCovered(a, data) && DepotCovered(b, data)
    ensures DepotCovered(a + b, data)
    ensures DepotOf(a + b, data) == DepotOf(a, data) + DepotOf(b, data)
    decreases |b|
  {
    CoveredAppend(a, b, data);
    if b == [] {
      assert a + b == a;
    } else {
      var init := b[..|b| - 1];
      assert (a + b)[..|a + b| - 1] == a + init;
      assert (a + b)[|a + b| - 1] == b[|b| - 1];
      CoveredPrefix(b, data);
      DepotAppend(a, init, data);
    }
  }

  lemma CoveredAppend(a: seq<int>, b: seq<int>, data: seq<byte>)
    requires DepotCovered(a, data) && DepotCovered(b, data)
    ensures DepotCovered(a + b, data)
  {
    forall k | 0 <= k < |a + b| && (a + b)[k] >= 0
      ensures BlockSize * (a + b)[k] + HeaderSize + BlockSize <= |data|
    {
      if k < |a| {
        assert (a + b)[k] == a[k];
      } else {
        assert (a + b)[k] == b[k - |a|];
      }
    }
  }

  lemma CoveredPrefix(list: seq<int>, data: seq<byte>)
    requires list != [] && DepotCovered(list, data)
    ensures DepotCovered(list[..|list| - 1], data)
  {
    var init := list[..|list| - 1];
    forall k | 0 <= k < |init| && init[k] >= 0
      ensures BlockSize * init[k] + HeaderSize + BlockSize <= |data|
    {
      assert init[k] == list[k];
    }
  }

  // ---------------------------------------------------------------------
  // Chains (follow_chain)

  /** How following a chain ends: at the end-of-chain marker, at an index the
      depot does not have (IndexError), or with the fuel spent. */
  datatype Chain = Complete(blocks: seq<int>) | BadIndex(blocks: seq<int>) | OutOfFuel(blocks: seq<int>)

  /** Goes on from the chain `acc` for at most `fuel` more steps. */
  function ChainFrom(depot: seq<int>, acc: seq<int>, fuel: nat): (c: Chain)
    requires acc != []
    ensures acc <= c.blocks && |c.blocks| <= |acc| + fuel
    decreases fuel
  {
    var last := acc[|acc| - 1];
    if last == EndOfChain then Complete(acc)
    else if fuel == 0 then OutOfFuel(acc)
    else match PyIndex(depot, last)
      case None => BadIndex(acc)
      case Some(next) => ChainFrom(depot, acc + [next], fuel - 1)
  }

  /** The chain that starts at `start`, followed for at most `fuel` steps. */
  function ChainOf(depot: seq<int>, start: int, fuel: nat): (c: Chain)
    ensures c.blocks != [] && c.blocks[0] == start && |c.blocks| <= fuel + 1
  {
    ChainFrom(depot, [start], fuel)
  }

  /** follow_chain: appends depot[last] until the last block is -2. */
  method FollowChain(start: int, depot: seq<int>, fuel: nat) returns (c: Chain)
    ensures c == ChainOf(depot, start, fuel)
  {
    var result := [start];
    var left := fuel;
    while result[|result| - 1] != EndOfChain
      invariant result != [] && ChainFrom(depot, result, left) == ChainOf(depot, start, fuel)
      decreases left
    {
      if left == 0 {
        return OutOfFuel(result);
      }
      var next := PyIndex(depot, result[|result| - 1]);
      if next.None? {
        return BadIndex(result);
      }
      result := result + [next.value];
      left := left - 1;
    }
    return Complete(result);
  }

  /** Each block after the first is what the depot holds for the one before. */
  predicate Linked(depot: seq<int>, b: seq<int>) {
    forall k :: 1 <= k < |b| ==> PyIndex(depot, b[k - 1]) == Some(b[k])
  }

  /** No block but the last is the end-of-chain marker. */
  predicate EndOnlyLast(b: seq<int>) {
    forall k :: 0 <= k < |b| - 1 ==> b[k] != EndOfChain
  }

  lemma {:induction false} ChainFromShape(depot: seq<int>, acc: seq<int>, fuel: nat)
    requires acc != [] && Linked(depot, acc) && EndOnlyLast(acc)
    ensures var c := ChainFrom(depot, acc, fuel);
      && Linked(depot, c.blocks) && EndOnlyLast(c.blocks)
      && (c.Complete? ==> c.blocks[|c.blocks| - 1] == EndOfChain)
      && (c.BadIndex? ==> var last := c.blocks[|c.blocks| - 1];
                          last != EndOfChain && PyIndex(depot, last).None?)
      && (c.OutOfFuel? ==> c.blocks[|c.blocks| - 1] != EndOfChain && |c.blocks| == |acc| + fuel)
    decreases fuel
  {
    var last := acc[|acc| - 1];
    if last != EndOfChain && fuel > 0 && PyIndex(depot, last).Some? {
      var acc' := acc + [PyIndex(depot, last).value];
      assert forall k :: 0 <= k < |acc| ==> acc'[k] == acc[k];
      ChainFromShape(depot, acc', fuel - 1);
    }
  }

  /** The shape of a followed chain: it starts at `start`; each block after
      the first is the depot entry of the one before; -2 can only be last,
      and is last exactly when the chain is complete. */
  lemma ChainShape(depot: seq<int>, start: int, fuel: nat)
    ensures var c := ChainOf(depot, start, fuel);
      && c.blocks[0] == start
      && Linked(depot, c.blocks) && EndOnlyLast(c.blocks)
      && (c.Complete? <==> c.blocks[|c.blocks| - 1] == EndOfChain)
      && (c.BadIndex? ==> PyIndex(depot, c.blocks[|c.blocks| - 1]).None?)
      && (c.OutOfFuel? ==> |c.blocks| == fuel + 1)
  {
    ChainFromShape(depot, [start], fuel);
  }

  lemma {:induction false} ChainFromFollows(depot: seq<int>, b: seq<int>, i: nat)
    requires 1 <= i <= |b| && Linked(depot, b) && EndOnlyLast(b) && b[|b| - 1] == EndOfChain
    ensures ChainFrom(depot, b[..i], |b| - i) == Complete(b)
    decreases |b| - i
  {
    if i < |b| {
      assert b[..i][i - 1] == b[i - 1] != EndOfChain;
      assert PyIndex(depot, b[i - 1]) == Some(b[i]);
      assert b[..i] + [b[i]] == b[..i + 1];
      ChainFromFollows(depot, b, i + 1);
    } else {
      assert b[..i] == b;
    }
  }

  /** Conversely, every sequence of that shape ending in -2 is the chain
      follow_chain gives for its first block. */
  lemma CompleteChainFollowed(depot: seq<int>, b: seq<int>)
    requires |b| > 0 && Linked(depot, b) && EndOnlyLast(b) && b[|b| - 1] == EndOfChain
    ensures ChainOf(depot, b[0], |b| - 1) == Complete(b)
  {
    ChainFromFollows(depot, b, 1);
    assert b[..1] == [b[0]];
  }

  lemma {:induction false} ChainFromMoreFuel(depot: seq<int>, acc: seq<int>, fuel: nat, more: nat)
    requires acc != [] && !ChainFrom(depot, acc, fuel).OutOfFuel?
    ensures ChainFrom(depot, acc, fuel + more) == ChainFrom(depot, acc, fuel)
    decreases fuel
  {
    var last := acc[|acc| - 1];
    if last != EndOfChain && fuel > 0 && PyIndex(depot, last).Some? {
      ChainFromMoreFuel(depot, acc + [PyIndex(depot, last).value], fuel - 1, more);
    }
  }

  /** Once a chain ends within the fuel, more fuel gives the same outcome. */
  lemma ChainMoreFuel(depot: seq<int>, start: int, fuel: nat, more: nat)
    requires !ChainOf(depot, start, fuel).OutOfFuel?
    ensures ChainOf(depot, start, fuel + more) == ChainOf(depot, start, fuel)
  {
    ChainFromMoreFuel(depot, [start], fuel, more);
  }

  // ---------------------------------------------------------------------
  // Runs of blocks (read_run)

  /** data[lo : lo+len] for a non-negative `lo`. */
  function Window(data: seq<byte>, lo: nat, len: nat): (w: seq<byte>)
    ensures |w| <= len
    ensures lo + len <= |data| ==> w == data[lo..lo + len]
  {
    PySliceBound(data, lo, len);
    PySlice(data, lo, lo + len)
  }

  /** data[bs*i : bs*(i+1)]: block `i`, cut short where the data ends. */
  function Block(data: seq<byte>, bs: nat, i: nat): (b: seq<byte>)
    ensures |b| <= bs
    ensures bs * i + bs <= |data| ==> b == data[bs * i..bs * i + bs]
  {
    BlockArith.MulMono(0, i, bs);
    Window(data, bs * i, bs)
  }

  /** read_run: the concatenation of the blocks of the run, in order;
      negative entries give nothing. */
  function ReadRun(run: seq<int>, data: seq<byte>, bs: nat): (r: seq<byte>)
    ensures |r| <= |run| * bs
  {
    if run == [] then []
    else
      var i := run[|run| - 1];
      BlockArith.NextBlock(|run| - 1, bs);
      ReadRun(run[..|run| - 1], data, bs) + (if i >= 0 then Block(data, bs, i) else [])
  }

  /** Every non-negative block of the run lies wholly inside the data. */
  predicate RunCovered(run: seq<int>, data: seq<byte>, bs: nat) {
    forall k :: 0 <= k < |run| && run[k] >= 0 ==> bs * run[k] + bs <= |data|
  }

  /** A run gives at most `bs` bytes per non-negative block, and exactly that
      many when every block is inside the data. */
  lemma {:induction false} ReadRunLength(run: seq<int>, data: seq<byte>, bs: nat)
    ensures |ReadRun(run, data, bs)| <= |NonNegative(run)| * bs
    ensures RunCovered(run, data, bs) ==> |ReadRun(run, data, bs)| == |NonNegative(run)| * bs
  {
    if run != [] {
      var init, i := run[..|run| - 1], run[|run| - 1];
      assert run == init + [i];
      ReadRunLength(init, data, bs);
      ReadRunSnoc(init, i, data, bs);
      var m := |NonNegative(init)|;
      if RunCovered(run, data, bs) {
        assert RunCovered(init, data, bs) by {
          forall k | 0 <= k < |init| && init[k] >= 0
            ensures bs * init[k] + bs <= |data|
          {
            assert init[k] == run[k];
          }
        }
      }
      if i >= 0 {
        assert |NonNegative(run)| == m + 1;
        BlockArith.NextBlock(m, bs);
        assert |NonNegative(run)| * bs == m * bs + bs;
      } else {
        assert NonNegative(run) == NonNegative(init);
      }
    }
  }

  /** Negative blocks (the -2 that ends every chain among them) add nothing. */
  lemma {:induction false} ReadRunSkipsNegative(run: seq<int>, data: seq<byte>, bs: nat)
    ensures ReadRun(run, data, bs) == ReadRun(NonNegative(run), data, bs)
  {
    if run != [] {
      var init, i := run[..|run| - 1], run[|run| - 1];
      ReadRunSkipsNegative(init, data, bs);
      var nn := NonNegative(init);
      if i >= 0 {
        assert NonNegative(run) == nn + [i];
        ReadRunSnoc(nn, i, data, bs);
      } else {
        assert NonNegative(run) == nn;
      }
    }
  }

  /** One more block of the run adds its bytes when it is not negative. */
  lemma ReadRunSnoc(xs: seq<int>, i: int, data: seq<byte>, bs: nat)
    ensures ReadRun(xs + [i], data, bs) == ReadRun(xs, data, bs) + (if i >= 0 then Block(data, bs, i) else [])
  {
    var l := xs + [i];
    assert l[..|l| - 1] == xs;
    assert l[|l| - 1] == i;
  }

  /** The run of two runs one after the other is their two runs one after the
      other. */
  lemma {:induction false} ReadRunAppend(a: seq<int>, b: seq<int>, data: seq<byte>, bs: nat)
    ensures ReadRun(a + b, data, bs) == ReadRun(a, data, bs) + ReadRun(b, data, bs)
  {
    if b != [] {
      var init := b[..|b| - 1];
      assert (a + b)[..|a + b| - 1] == a + init;
      assert (a + b)[|a + b| - 1] == b[|b| - 1];
      ReadRunAppend(a, init, data, bs);
    } else {
      assert a + b == a;
    }
  }

  // ---------------------------------------------------------------------
  // Property sets

  /** The fields of one 128-byte property set record that the reader uses;
      `name` is the decoded UCS-16 name field. */
  datatype Property = Property(
    name: string, sizeOfName: nat, ptype: byte,
    prev: int, next: int, dir: int, sb: int, size: int)

  predicate IsRoot(p: Property) { p.ptype == 5 }
  predicate IsFile(p: Property) { p.ptype == 2 }

  /** RawString.__str__: the name cut to pps_sizeofname / 2 characters (the
      size counts bytes of UCS-16). */
  function RawName(p: Property): (s: string)
    ensures s <= p.name
    ensures |s| == if p.sizeOfName / 2 <= |p.name| then p.sizeOfName / 2 else |p.name|
  {
    PySlice(p.name, 0, p.sizeOfName / 2)
  }

  /** Decodes one record; `nameOf` stands for the UCS16_STR decoding of the
      64-byte name field. */
  function DecodeProperty(rec: seq<byte>, nameOf: seq<byte> -> string): (p: Property)
    requires |rec| >= PropertySize
    ensures p.sizeOfName == WordAt(rec, 0x40) && p.ptype == rec[0x42]
    ensures p.next == LongAt(rec, 0x48) && p.dir == LongAt(rec, 0x4C)
    ensures p.sb == LongAt(rec, 0x74) && p.size == LongAt(rec, 0x78)
  {
    Property(nameOf(rec[..0x40]), WordAt(rec, 0x40), rec[0x42],
             LongAt(rec, 0x44), LongAt(rec, 0x48), LongAt(rec, 0x4C),
             LongAt(rec, 0x74), LongAt(rec, 0x78))
  }

  /** PropertySetArray(chain, len(chain) / 0x80): one property per whole
      record of the directory stream. */
  function Properties(chain: seq<byte>, nameOf: seq<byte> -> string): (ps: seq<Property>)
    ensures |ps| == |chain| / PropertySize
    ensures forall k :: 0 <= k < |ps| ==>
              (k + 1) * PropertySize <= |chain|
              && ps[k] == DecodeProperty(chain[k * PropertySize..(k + 1) * PropertySize], nameOf)
    decreases |chain|
  {
    if |chain| < PropertySize then []
    else
      var rest := chain[PropertySize..];
      RestRecords(chain);
      [DecodeProperty(chain[..PropertySize], nameOf)] + Properties(rest, nameOf)
  }

  /** Record k of what follows the first record is record k + 1 of the
      stream. */
  lemma RestRecords(chain: seq<byte>)
    requires |chain| >= PropertySize
    ensures forall k :: 0 <= k && (k + 2) * PropertySize <= |chain| ==>
              chain[PropertySize..][k * PropertySize..(k + 1) * PropertySize]
              == chain[(k + 1) * PropertySize..(k + 2) * PropertySize]
  {
    forall k | 0 <= k && (k + 2) * PropertySize <= |chain|
      ensures chain[PropertySize..][k * PropertySize..(k + 1) * PropertySize]
              == chain[(k + 1) * PropertySize..(k + 2) * PropertySize]
    {
      var lo := (k + 1) * PropertySize;
      assert k * PropertySize + PropertySize == lo;
      assert chain[PropertySize..][k * PropertySize..(k + 1) * PropertySize] == chain[lo..lo + PropertySize];
    }
  }

  // ---------------------------------------------------------------------
  // The file

  /** An opened file: the header fields the reader uses, the big-block depot,
      the property sets and, once built, the small-block stream. */
  datatype OleFile = OleFile(
    data: seq<byte>,
    direntStart: int,
    threshold: int,
    bbdList: seq<int>,
    blockList: seq<int>,
    properties: seq<Property>,
    smallChain: Option<seq<byte>>)

  /** Whether `cat` reads a property from big blocks. */
  predicate ReadsBig(f: OleFile, p: Property) {
    p.size >= f.threshold || IsRoot(p)
  }

  /**
   * cat: a property that is neither the root nor a file, unless forced,
   * gives nothing. A root property, or one at least `threshold` bytes long,
   * is its big-block chain read from the blocks after the header and cut
   * to its size; any other is `size` bytes of the small-block stream from
   * small block `sb`.
   */
  function Cat(f: OleFile, p: Property, force: bool, fuel: nat): (r: Result<seq<byte>>)
    ensures !IsRoot(p) && !IsFile(p) && !force ==> r == Ok([])
    ensures r.Ok? && p.size >= 0 ==> |r.value| <= p.size
    ensures (IsRoot(p) || IsFile(p) || force) && ReadsBig(f, p) ==>
              var c := ChainOf(f.blockList, p.sb, fuel);
              && (r.Ok? <==> c.Complete?)
              && (c.BadIndex? ==> r == Err(IndexError))
              && (c.OutOfFuel? ==> r == Err(ChainTooLong))
              && (r.Ok? ==> r.value <= ReadRun(c.blocks, Drop(f.data, BlockSize), BlockSize))
    ensures (IsRoot(p) || IsFile(p) || force) && !ReadsBig(f, p) ==>
              && (r.Ok? <==> f.smallChain.Some?)
              && (r.Ok? ==> r.value == PySlice(f.smallChain.value, SmallBlockSize * p.sb,
                                               SmallBlockSize * p.sb + p.size))
              && (r.Ok? && 0 <= p.sb && 0 <= p.size
                  && SmallBlockSize * p.sb + p.size <= |f.smallChain.value| ==>
                    r.value == f.smallChain.value[SmallBlockSize * p.sb..SmallBlockSize * p.sb + p.size])
  {
    if !IsRoot(p) && !IsFile(p) && !force then Ok([])
    else if ReadsBig(f, p) then
      match ChainOf(f.blockList, p.sb, fuel)
      case Complete(blocks) =>
        var all := ReadRun(blocks, Drop(f.data, BlockSize), BlockSize);
        PyPrefix(all, p.size);
        Ok(PySlice(all, 0, p.size))
      case BadIndex(_) => Err(IndexError)
      case OutOfFuel(_) => Err(ChainTooLong)
    else
      match f.smallChain
      case None => Err(NoSmallChain)
      case Some(small) =>
        var lo := SmallBlockSize * p.sb;
        assert p.size >= 0 ==> |PySlice(small, lo, lo + p.size)| <= p.size by {
          if p.size >= 0 {
            PySliceBound(small, lo, p.size);
          }
        }
        Ok(PySlice(small, lo, lo + p.size))
  }

  /** A big-block read of a property whose size is not negative has exactly
      `size` bytes when its chain holds that many. */
  lemma CatBigLength(f: OleFile, p: Property, force: bool, fuel: nat)
    requires IsRoot(p) || IsFile(p) || force
    requires ReadsBig(f, p) && p.size >= 0
    requires ChainOf(f.blockList, p.sb, fuel).Complete?
    ensures var all := ReadRun(ChainOf(f.blockList, p.sb, fuel).blocks, Drop(f.data, BlockSize), BlockSize);
      Cat(f, p, force, fuel).Ok?
      && |Cat(f, p, force, fuel).value| == if p.size <= |all| then p.size else |all|
  {
    var all := ReadRun(ChainOf(f.blockList, p.sb, fuel).blocks, Drop(f.data, BlockSize), BlockSize);
    PyPrefix(all, p.size);
  }

  /** Each property after the first is the one its predecessor's
      `pps_next` names, which is strictly between 0 and the number of
      properties. */
  predicate NextLinked(props: seq<Property>, l: seq<Property>) {
    forall k :: 0 <= k < |l| - 1 ==> 0 < l[k].next < |props| && l[k + 1] == props[l[k].next]
  }

  /** Goes on from the listing `acc` for at most `fuel` more properties. */
  function LsFrom(props: seq<Property>, acc: seq<Property>, fuel: nat): Result<seq<Property>>
    requires acc != []
    decreases fuel
  {
    var next := acc[|acc| - 1].next;
    if !(0 < next < |props|) then Ok(acc)
    else if fuel == 0 then Err(ChainTooLong)
    else LsFrom(props, acc + [props[next]], fuel - 1)
  }

  /** The listing of the directory `p`, following at most `fuel` links. */
  function LsOf(props: seq<Property>, p: Property, fuel: nat): Result<seq<Property>>
  {
    match PyIndex(props, p.dir)
    case None => Err(IndexError)
    case Some(first) => LsFrom(props, [first], fuel)
  }

  /**
   * ls: the property the directory's `pps_dir` names, then, while the last
   * one's `pps_next` is strictly between 0 and the number of properties, the
   * property it names. An out-of-range `pps_dir` raises IndexError.
   */
  method Ls(props: seq<Property>, p: Property, fuel: nat) returns (r: Result<seq<Property>>)
    ensures r == LsOf(props, p, fuel)
    ensures PyIndex(props, p.dir).None? ==> r == Err(IndexError)
    ensures PyIndex(props, p.dir).Some? ==> r.Ok? || r == Err(ChainTooLong)
    ensures r.Ok? ==>
      var l := r.value;
      && |l| > 0 && PyIndex(props, p.dir) == Some(l[0])
      && NextLinked(props, l)
      && !(0 < l[|l| - 1].next < |props|)
  {
    var first := PyIndex(props, p.dir);
    if first.None? {
      return Err(IndexError);
    }
    var result := [first.value];
    var n := |props|;
    var next := result[|result| - 1].next;
    var left := fuel;
    while 0 < next < n
      invariant |result| > 0 && result[0] == first.value
      invariant next == result[|result| - 1].next
      invariant NextLinked(props, result)
      invariant LsFrom(props, result, left) == LsOf(props, p, fuel)
      decreases left
    {
      if left == 0 {
        return Err(ChainTooLong);
      }
      result := result + [props[next]];
      next := result[|result| - 1].next;
      left := left - 1;
    }
    return Ok(result);
  }

  lemma {:induction false} LsFromShape(props: seq<Property>, acc: seq<Property>, fuel: nat)
    requires acc != [] && NextLinked(props, acc)
    ensures var r := LsFrom(props, acc, fuel);
      && (r.Ok? || r == Err(ChainTooLong))
      && (r.Ok? ==> acc <= r.value && |r.value| <= |acc| + fuel && NextLinked(props, r.value)
                    && !(0 < r.value[|r.value| - 1].next < |props|))
      && (r.Err? ==> exists l: seq<Property> :: acc <= l && |l| == |acc| + fuel && NextLinked(props, l)
                                 && 0 < l[|l| - 1].next < |props|)
    decreases fuel
  {
    var next := acc[|acc| - 1].next;
    if !(0 < next < |props|) {
    } else if fuel == 0 {
      assert acc <= acc;
    } else {
      var acc' := acc + [props[next]];
      assert forall k :: 0 <= k < |acc| ==> acc'[k] == acc[k];
      LsFromShape(props, acc', fuel - 1);
    }
  }

  /** The shape of a listing: it succeeds or runs out of links to follow.
      A listing starts with the property `pps_dir` names, each next one is
      the property its predecessor's `pps_next` names, and its last
      `pps_next` is outside `1..count-1`. A listing cut off by the bound is a
      linked run of `fuel + 1` properties whose last `pps_next` would still
      be followed. */
  lemma LsShape(props: seq<Property>, p: Property, fuel: nat)
    requires PyIndex(props, p.dir).Some?
    ensures var r := LsOf(props, p, fuel);
      && (r.Ok? || r == Err(ChainTooLong))
      && (r.Ok? ==> 0 < |r.value| <= fuel + 1 && r.value[0] == PyIndex(props, p.dir).value
                    && NextLinked(props, r.value) && !(0 < r.value[|r.value| - 1].next < |props|))
      && (r.Err? ==> exists l: seq<Property> :: |l| == fuel + 1 && l[0] == PyIndex(props, p.dir).value
                                 && NextLinked(props, l) && 0 < l[fuel].next < |props|)
  {
    var first := PyIndex(props, p.dir).value;
    LsFromShape(props, [first], fuel);
    var r := LsFrom(props, [first], fuel);
    if r.Err? {
      var l: seq<Property> :| [first] <= l && |l| == 1 + fuel && NextLinked(props, l) && 0 < l[|l| - 1].next < |props|;
      assert l[0] == first;
    } else {
      assert r.value[0] == first;
    }
  }

  lemma {:induction false} LsFromFollows(props: seq<Property>, l: seq<Property>, i: nat)
    requires 1 <= i <= |l| && NextLinked(props, l) && !(0 < l[|l| - 1].next < |props|)
    ensures LsFrom(props, l[..i], |l| - i) == Ok(l)
    decreases |l| - i
  {
    if i < |l| {
      assert l[..i][i - 1] == l[i - 1];
      assert l[..i] + [props[l[i - 1].next]] == l[..i + 1];
      LsFromFollows(props, l, i + 1);
    } else {
      assert l[..i] == l;
    }
  }

  /** Conversely, every linked run of properties that starts at `pps_dir` and
      stops at an out-of-range `pps_next` is the listing ls gives. */
  lemma LsListed(props: seq<Property>, p: Property, l: seq<Property>)
    requires |l| > 0 && PyIndex(props, p.dir) == Some(l[0])
    requires NextLinked(props, l) && !(0 < l[|l| - 1].next < |props|)
    ensures LsOf(props, p, |l| - 1) == Ok(l)
  {
    LsFromFollows(props, l, 1);
    assert l[..1] == [l[0]];
  }

  lemma {:induction false} LsFromMoreFuel(props: seq<Property>, acc: seq<Property>, fuel: nat, more: nat)
    requires acc != [] && LsFrom(props, acc, fuel).Ok?
    ensures LsFrom(props, acc, fuel + more) == LsFrom(props, acc, fuel)
    decreases fuel
  {
    var next := acc[|acc| - 1].next;
    if 0 < next < |props| {
      LsFromMoreFuel(props, acc + [props[next]], fuel - 1, more);
    }
  }

  /** A listing that ended does not change with a larger bound. */
  lemma LsMoreFuel(props: seq<Property>, p: Property, fuel: nat, more: nat)
    requires LsOf(props, p, fuel).Ok?
    ensures LsOf(props, p, fuel + more) == LsOf(props, p, fuel)
  {
    LsFromMoreFuel(props, [PyIndex(props, p.dir).value], fuel, more);
  }

  /**
   * What OLEFile.__init__ gives once the header is read and its depot list
   * is `list`: an error for a depot block past the data, IndexError for a
   * directory chain through an index the depot lacks or for an empty
   * directory, ChainTooLong for a directory chain that does not end within
   * the fuel, the error of reading the small-block stream, and otherwise
   * the opened file.
   */
  predicate OpensWith(data: seq<byte>, nameOf: seq<byte> -> string, fuel: nat, list: seq<int>,
                      r: Result<OleFile>)
    requires |data| >= HeaderSize
  {
    if !DepotCovered(list, data) then r == Err(Truncated)
    else
      var depot := DepotOf(list, data);
      var c := ChainOf(depot, LongAt(data, 0x30), fuel);
      if c.BadIndex? then r == Err(IndexError)
      else if c.OutOfFuel? then r == Err(ChainTooLong)
      else
        var props := Properties(ReadRun(c.blocks, data[HeaderSize..], BlockSize), nameOf);
        if props == [] then r == Err(IndexError)
        else
          var f := OleFile(data, LongAt(data, 0x30), LongAt(data, 0x38), list, depot, props, None);
          match Cat(f, props[0], false, fuel)
          case Err(e) => r == Err(e)
          case Ok(small) => r == Ok(f.(smallChain := Some(small)))
  }

  /**
   * OLEFile.__init__: checks the magic, reads the depot list from offset
   * 0x4C and the depot from the blocks it names, follows the directory chain
   * from `dirent_start` (0x30) and decodes its records, then reads the small-
   * block stream as the first property's stream. A file shorter than its
   * header is reported as truncated.
   */
  method Open(data: seq<byte>, nameOf: seq<byte> -> string, fuel: nat) returns (r: Result<OleFile>)
    ensures |data| < HeaderSize ==> r == Err(Truncated)
    ensures r == Err(BadMagic) <==> |data| >= HeaderSize && data[..8] != Magic
    ensures |data| >= HeaderSize && data[..8] == Magic
            && (forall k :: 0 <= k && 4 * k + 4 <= |data| - 0x4C ==> Long(data[0x4C..], k) >= 0) ==>
              r == Err(Truncated)
    ensures |data| >= HeaderSize && data[..8] == Magic ==>
              forall l :: IsDepotList(data[0x4C..], l) ==> OpensWith(data, nameOf, fuel, l, r)
    ensures r.Ok? ==>
      var f := r.value;
      && |data| >= HeaderSize && data[..8] == Magic
      && f.data == data && f.direntStart == LongAt(data, 0x30) && f.threshold == LongAt(data, 0x38)
      && IsDepotList(data[0x4C..], f.bbdList)
      && DepotCovered(f.bbdList, data) && f.blockList == DepotOf(f.bbdList, data)
      && ChainOf(f.blockList, f.direntStart, fuel).Complete?
      && f.properties == Properties(ReadRun(ChainOf(f.blockList, f.direntStart, fuel).blocks,
                                            data[HeaderSize..], BlockSize), nameOf)
      && |f.properties| > 0
      && f.smallChain.Some?
      && Cat(f.(smallChain := None), f.properties[0], false, fuel) == Ok(f.smallChain.value)
  {
    if |data| < HeaderSize {
      return Err(Truncated);
    }
    if data[..8] != Magic {
      return Err(BadMagic);
    }
    var bbd := ReadDepotList(data[0x4C..]);
    if bbd.Err? {
      return Err(bbd.error);
    }
    forall l | IsDepotList(data[0x4C..], l)
      ensures l == bbd.value
    {
      DepotListUnique(data[0x4C..], l, bbd.value);
    }
    var depot := ReadDepot(bbd.value, data);
    if depot.Err? {
      return Err(depot.error);
    }
    var direntStart := LongAt(data, 0x30);
    var rootBlocks := FollowChain(direntStart, depot.value, fuel);
    if rootBlocks.BadIndex? {
      return Err(IndexError);
    } else if rootBlocks.OutOfFuel? {
      return Err(ChainTooLong);
    }
    var rootChain := ReadRun(rootBlocks.blocks, data[HeaderSize..], BlockSize);
    var properties := Properties(rootChain, nameOf);
    if properties == [] {
      return Err(IndexError);
    }
    var f := OleFile(data, direntStart, LongAt(data, 0x38), bbd.value, depot.value, properties, None);
    var small := Cat(f, properties[0], false, fuel);
    if small.Err? {
      return Err(small.error);
    }
    return Ok(f.(smallChain := Some(small.value)));
  }
}
