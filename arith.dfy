/** Facts about division by a block size that the read path relies on. */
module BlockArith {

  lemma DivModUnique(a: int, b: int, q: int, r: int)
    requires b > 0 && 0 <= r < b && a == q * b + r
    ensures a / b == q && a % b == r
  {
    var q', r' := a / b, a % b;
    assert a == q' * b + r' && 0 <= r' < b;
    if q' < q {
      assert q' * b + b <= q * b by { MulMono(q' + 1, q, b); }
    } else if q < q' {
      assert q * b + b <= q' * b by { MulMono(q + 1, q', b); }
    }
  }

  lemma MulMono(x: int, y: int, b: int)
    requires x <= y && b >= 0
    ensures x * b <= y * b
  {
  }

  /** The position `k` bytes into block `i` lies in block `i` at offset `k`. */
  lemma InBlock(i: int, b: int, k: int)
    requires b > 0 && 0 <= k < b
    ensures (i * b + k) / b == i && (i * b + k) % b == k
  {
    DivModUnique(i * b + k, b, i, k);
  }

  /** A position at or past `n` whole blocks lies in block `n` or later. */
  lemma PastBlocks(pos: int, b: int, n: int)
    requires b > 0 && pos >= n * b
    ensures pos / b >= n
  {
    var q, r := pos / b, pos % b;
    if q < n {
      assert q * b + b <= n * b by { MulMono(q + 1, n, b); }
    }
  }

  /** A position below `n` whole blocks lies in a block before `n`. */
  lemma PastBlocksNot(pos: int, b: int, n: int)
    requires b > 0 && 0 <= pos < n * b
    ensures pos / b < n
  {
    var q, r := pos / b, pos % b;
    if q >= n {
      MulMono(n, q, b);
    }
  }

  /** Two multiples of `b` that differ by less than `b` are equal, and one
      below another is at least `b` below. */
  lemma Multiples(i: int, j: int, b: int)
    requires b > 0
    ensures i * b < j * b ==> i * b + b <= j * b
    ensures i < j ==> i * b < j * b
  {
    if i < j {
      MulMono(i + 1, j, b);
    } else {
      MulMono(j, i, b);
    }
  }

  lemma NextBlockBy(i: int, q: int, b: int)
    ensures (i + q) * b == i * b + q * b
  {
  }

  lemma NextBlock(i: int, b: int)
    ensures (i + 1) * b == i * b + b
  {
  }

  /** A block that ends at or before `pos` starts a whole block before the
      block that holds `pos`. */
  lemma BeforeFirst(i: int, first: int, b: int, pos: int)
    requires b > 0 && first == pos / b && i * b + b <= pos
    ensures (i + 1) * b <= first * b
  {
    assert pos == first * b + pos % b;
    Multiples(i, first, b);
    Multiples(first, i, b);
    if first <= i {
      MulMono(first, i, b);
    }
    NextBlock(i, b);
    Multiples(i + 1, first, b);
    if first <= i + 1 {
      MulMono(first, i + 1, b);
    }
  }

  /** The first block that does not end at or before `pos`, when none before
      it reached `pos`'s block, is the block that holds `pos`. */
  lemma AtFirst(i: int, first: int, b: int, pos: int)
    requires b > 0 && first == pos / b && i * b <= first * b && pos < i * b + b
    ensures i == first
  {
    assert pos == first * b + pos % b;
    if i < first {
      Multiples(i, first, b);
    } else if first < i {
      Multiples(first, i, b);
    }
  }
}
