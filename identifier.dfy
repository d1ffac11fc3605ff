/**
 * The stream identifier of the Sleuthkit binding: an inode address, an
 * attribute type and an attribute id, written "inode-type-id".
 *
 * Parsing goes through the C library's `strtoull`/`strtoul`, which are
 * modelled here as the C standard describes them on an LP64 platform
 * (both convert into 64 bits): leading white space is skipped, one optional
 * sign is accepted (a minus negates modulo 2^64), then decimal digits are
 * read; without any digit nothing is converted and the end pointer stays at
 * the start; a magnitude that does not fit sets `errno` to ERANGE and gives
 * the largest value.
 */
module Identifier {

  import opened Common

  const U64: nat := 0x1_0000_0000_0000_0000
  const U32: nat := 0x1_0000_0000

  /** The triple that names one data stream of one inode. */
  datatype StreamId = StreamId(inode: nat, atype: nat, id: nat)
  {
    /** Fits the C fields: a 64-bit inode, 32-bit type and id. */
    predicate InRange() {
      inode < U64 && atype < U32 && id < U32
    }
  }

  /** What one call of strtoull/strtoul leaves behind. */
  datatype Conversion = Conversion(value: nat, end: nat, overflow: bool)

  predicate IsDigit(c: char) { '0' <= c <= '9' }

  /** The characters `isspace` accepts in the C locale. */
  predicate IsSpace(c: char) {
    c == ' ' || c == '\t' || c == '\n' || c == '\r' || c as int == 11 || c as int == 12
  }

  function DigitValue(c: char): nat
    requires IsDigit(c)
  {
    (c as int) - ('0' as int)
  }

  /** The number that a run of decimal digits denotes. */
  function DigitsValue(ds: seq<char>): nat
    requires forall k :: 0 <= k < |ds| ==> IsDigit(ds[k])
  {
    if ds == [] then 0
    else DigitsValue(ds[..|ds| - 1]) * 10 + DigitValue(ds[|ds| - 1])
  }

  /** The first position at or after `i` that is not white space. */
  function SkipSpace(s: string, i: nat): (j: nat)
    requires i <= |s|
    ensures i <= j <= |s|
    ensures forall k :: i <= k < j ==> IsSpace(s[k])
    ensures j == |s| || !IsSpace(s[j])
    decreases |s| - i
  {
    if i < |s| && IsSpace(s[i]) then SkipSpace(s, i + 1) else i
  }

  /** The end of the run of digits that starts at `i`. */
  function DigitEnd(s: string, i: nat): (j: nat)
    requires i <= |s|
    ensures i <= j <= |s|
    ensures forall k :: i <= k < j ==> IsDigit(s[k])
    ensures j == |s| || !IsDigit(s[j])
    decreases |s| - i
  {
    if i < |s| && IsDigit(s[i]) then DigitEnd(s, i + 1) else i
  }

  /** strtoull(s + from, &end, 10) (and strtoul on LP64). */
  function StrToUnsigned(s: string, from: nat): (c: Conversion)
    requires from <= |s|
    ensures from <= c.end <= |s|
    ensures c.value < U64
    ensures c.overflow ==> c.value == U64 - 1
  {
    var i := SkipSpace(s, from);
    var neg := i < |s| && s[i] == '-';
    var j := if i < |s| && (s[i] == '-' || s[i] == '+') then i + 1 else i;
    var k := DigitEnd(s, j);
    if k == j then Conversion(0, from, false)
    else
      var magnitude := DigitsValue(s[j..k]);
      if magnitude >= U64 then Conversion(U64 - 1, k, true)
      else if neg then Conversion((U64 - magnitude) % U64, k, false)
      else Conversion(magnitude, k, false)
  }

  /** The optional "-number" that follows position `p`: the new field value
      and where parsing goes on. Without a '-' the field keeps `current`. */
  function OptionalField(s: string, p: nat, current: nat): (r: (nat, nat))
    requires p <= |s|
    ensures p <= r.1 <= |s|
    ensures p < |s| && s[p] == '-' ==> r.0 < U32
    ensures !(p < |s| && s[p] == '-') ==> r == (current, p)
  {
    if p < |s| && s[p] == '-' then
      var c := StrToUnsigned(s, p + 1);
      (c.value % U32, c.end)
    else (current, p)
  }

  /**
   * parse_inode_str: the inode is converted first and only its conversion's
   * errno is checked; type is overwritten only when a '-' follows the inode,
   * and id only when a second '-' follows the type's digits; each is the
   * 32-bit truncation of its conversion.
   * `atype0` and `id0` are what the caller's fields held before the call.
   */
  function ParseInodeStr(s: string, atype0: nat, id0: nat): (r: Option<StreamId>)
    ensures r.None? <==> StrToUnsigned(s, 0).overflow
    ensures r.Some? ==> r.value.inode == StrToUnsigned(s, 0).value
    ensures r.Some? && atype0 < U32 && id0 < U32 ==> r.value.InRange()
    ensures r.Some? && !HasDashAt(s, StrToUnsigned(s, 0).end) ==>
              r.value.atype == atype0 && r.value.id == id0
  {
    var c := StrToUnsigned(s, 0);
    if c.overflow then None
    else
      var atype := OptionalField(s, c.end, atype0);
      var id := OptionalField(s, atype.1, id0);
      Some(StreamId(c.value, atype.0, id.0))
  }

  predicate HasDashAt(s: string, p: nat) { p < |s| && s[p] == '-' }

  /** Where parsing stands after the type field: behind the type's digits
      when a '-' follows the inode, right behind the inode otherwise. */
  function TypeEnd(s: string): (t: nat)
    ensures t <= |s|
  {
    var e := StrToUnsigned(s, 0).end;
    if HasDashAt(s, e) then StrToUnsigned(s, e + 1).end else e
  }

  /** After a '-' that follows the inode, type is the 32-bit truncation of
      the number converted behind it. */
  lemma ParseTypeAfterDash(s: string, atype0: nat, id0: nat)
    requires ParseInodeStr(s, atype0, id0).Some?
    requires HasDashAt(s, StrToUnsigned(s, 0).end)
    ensures ParseInodeStr(s, atype0, id0).value.atype
            == StrToUnsigned(s, StrToUnsigned(s, 0).end + 1).value % U32
  {
    ParsedFields(s, atype0, id0);
    DashField(s, StrToUnsigned(s, 0).end, atype0);
  }

  /** A second '-' right behind the type's digits sets id to the 32-bit
      truncation of the number converted behind it. */
  lemma ParseIdAfterSecondDash(s: string, atype0: nat, id0: nat)
    requires ParseInodeStr(s, atype0, id0).Some?
    requires HasDashAt(s, StrToUnsigned(s, 0).end)
    requires HasDashAt(s, TypeEnd(s))
    ensures ParseInodeStr(s, atype0, id0).value.id == StrToUnsigned(s, TypeEnd(s) + 1).value % U32
  {
    ParsedFields(s, atype0, id0);
    DashField(s, StrToUnsigned(s, 0).end, atype0);
    DashField(s, TypeEnd(s), id0);
  }

  /** With a single '-' (no second one behind the type's digits) id keeps
      the caller's value. */
  lemma ParseIdWithoutSecondDash(s: string, atype0: nat, id0: nat)
    requires ParseInodeStr(s, atype0, id0).Some?
    requires !HasDashAt(s, TypeEnd(s))
    ensures ParseInodeStr(s, atype0, id0).value.id == id0
  {
    ParsedFields(s, atype0, id0);
    DashField(s, StrToUnsigned(s, 0).end, atype0);
  }

  /** The two fields are read one after the other, the second from where
      the first stopped. */
  lemma ParsedFields(s: string, atype0: nat, id0: nat)
    ensures ParseInodeStr(s, atype0, id0).Some? ==>
      var f := OptionalField(s, StrToUnsigned(s, 0).end, atype0);
      && f.1 == TypeEnd(s)
      && ParseInodeStr(s, atype0, id0).value.atype == f.0
      && ParseInodeStr(s, atype0, id0).value.id == OptionalField(s, f.1, id0).0
  {
  }

  /** Behind a '-' a field takes the truncated conversion and parsing goes
      on where that conversion stopped. */
  lemma DashField(s: string, p: nat, current: nat)
    requires p <= |s|
    ensures HasDashAt(s, p) ==>
      OptionalField(s, p, current) == (StrToUnsigned(s, p + 1).value % U32, StrToUnsigned(s, p + 1).end)
  {
  }

  /** "%llu" / "%u": the decimal text of a number, without leading zeros. */
  function Decimal(n: nat): (d: string)
    ensures |d| > 0
    ensures forall k :: 0 <= k < |d| ==> IsDigit(d[k])
    ensures d[0] == '0' ==> n == 0
  {
    if n < 10 then [('0' as int + n) as char]
    else Decimal(n / 10) + [('0' as int + n % 10) as char]
  }

  /** skfs_inode_str / skfile_str: "%llu-%u-%u". */
  function Format(x: StreamId): (t: string)
    ensures forall k :: 0 <= k < |t| ==> IsDigit(t[k]) || t[k] == '-'
  {
    Decimal(x.inode) + "-" + Decimal(x.atype) + "-" + Decimal(x.id)
  }

  lemma {:induction false} DecimalValue(n: nat)
    ensures DigitsValue(Decimal(n)) == n
  {
    if n >= 10 {
      var d := Decimal(n);
      assert d[..|d| - 1] == Decimal(n / 10);
      DecimalValue(n / 10);
    }
  }

  /** A non-empty run of digits at `from..e`, followed by a non-digit or the
      end, whose value fits converts to that value and stops at `e`. */
  lemma StrToUnsignedDigits(s: string, from: nat, e: nat)
    requires from < e <= |s|
    requires forall k :: from <= k < e ==> IsDigit(s[k])
    requires e == |s| || !IsDigit(s[e])
    requires DigitsValue(s[from..e]) < U64
    ensures StrToUnsigned(s, from) == Conversion(DigitsValue(s[from..e]), e, false)
  {
    assert IsDigit(s[from]);
    DigitEndOfRun(s, from, e);
  }

  lemma {:induction false} DigitEndOfRun(s: string, i: nat, e: nat)
    requires i <= e <= |s|
    requires forall k :: i <= k < e ==> IsDigit(s[k])
    requires e == |s| || !IsDigit(s[e])
    ensures DigitEnd(s, i) == e
    decreases e - i
  {
    if i < e {
      DigitEndOfRun(s, i + 1, e);
    }
  }

  predicate AllDigits(d: string) {
    |d| > 0 && forall k :: 0 <= k < |d| ==> IsDigit(d[k])
  }

  /** Three runs of digits joined by dashes parse back to their values. */
  lemma ParseJoined(dv: string, dt: string, di: string, atype0: nat, id0: nat)
    requires AllDigits(dv) && AllDigits(dt) && AllDigits(di)
    requires DigitsValue(dv) < U64 && DigitsValue(dt) < U32 && DigitsValue(di) < U32
    ensures ParseInodeStr(dv + "-" + dt + "-" + di, atype0, id0)
            == Some(StreamId(DigitsValue(dv), DigitsValue(dt), DigitsValue(di)))
  {
    JoinedSlices(dv, dt, di);
    var s, e1, e2 := dv + "-" + dt + "-" + di, |dv|, |dv| + 1 + |dt|;
    ConvertRuns(s, e1, e2, dv, dt, di, atype0, id0);
    ParseFromParts(s, atype0, id0, DigitsValue(dv), e1, DigitsValue(dt), e2, DigitsValue(di), |s|);
  }

  /** Where the runs and the dashes of "dv-dt-di" sit. */
  lemma JoinedSlices(dv: string, dt: string, di: string)
    ensures (dv + "-" + dt + "-" + di)[|dv|] == '-'
    ensures (dv + "-" + dt + "-" + di)[|dv| + 1 + |dt|] == '-'
    ensures (dv + "-" + dt + "-" + di)[0..|dv|] == dv
    ensures (dv + "-" + dt + "-" + di)[|dv| + 1..|dv| + 1 + |dt|] == dt
    ensures (dv + "-" + dt + "-" + di)[|dv| + 1 + |dt| + 1..] == di
  {
    var s := dv + "-" + dt + "-" + di;
    assert s[0..|dv|] == dv;
    assert s[|dv| + 1..|dv| + 1 + |dt|] == dt;
    assert s[|dv| + 1 + |dt| + 1..] == di;
  }

  /** The runs `dv`, `dt`, `di` sitting in `s` up to `e1`, between the dashes
      at `e1` and `e2`, and after `e2` convert to the values they denote. */
  lemma ConvertRuns(s: string, e1: nat, e2: nat, dv: string, dt: string, di: string, atype0: nat, id0: nat)
    requires e1 < e2 < |s| && s[e1] == '-' && s[e2] == '-'
    requires s[0..e1] == dv && s[e1 + 1..e2] == dt && s[e2 + 1..] == di
    requires AllDigits(dv) && AllDigits(dt) && AllDigits(di)
    requires DigitsValue(dv) < U64 && DigitsValue(dt) < U32 && DigitsValue(di) < U32
    ensures StrToUnsigned(s, 0) == Conversion(DigitsValue(dv), e1, false)
    ensures OptionalField(s, e1, atype0) == (DigitsValue(dt), e2)
    ensures OptionalField(s, e2, id0) == (DigitsValue(di), |s|)
  {
    RunConverts(s, 0, e1, dv);
    DashRunConverts(s, e1, e2, dt, atype0);
    DashRunConverts(s, e2, |s|, di, id0);
  }

  /** A run of digits `d` at `from..e`, stopped by a non-digit or the end,
      converts to its value when that fits. */
  lemma RunConverts(s: string, from: nat, e: nat, d: string)
    requires from < e <= |s| && s[from..e] == d && AllDigits(d)
    requires e == |s| || !IsDigit(s[e])
    requires DigitsValue(d) < U64
    ensures StrToUnsigned(s, from) == Conversion(DigitsValue(d), e, false)
  {
    DigitsAt(s, from, d);
    StrToUnsignedDigits(s, from, e);
  }

  /** A '-' at `p` followed by the run `d` up to `e` sets the field to the
      run's value when that fits 32 bits. */
  lemma DashRunConverts(s: string, p: nat, e: nat, d: string, current: nat)
    requires p < e <= |s| && s[p] == '-' && s[p + 1..e] == d && AllDigits(d)
    requires e == |s| || !IsDigit(s[e])
    requires DigitsValue(d) < U32
    ensures OptionalField(s, p, current) == (DigitsValue(d), e)
  {
    RunConverts(s, p + 1, e, d);
  }

  /** A run of digits placed at `from` makes every position it covers a digit. */
  lemma DigitsAt(s: string, from: nat, d: string)
    requires from + |d| <= |s| && s[from..from + |d|] == d && AllDigits(d)
    ensures forall k :: from <= k < from + |d| ==> IsDigit(s[k])
  {
    forall k | from <= k < from + |d|
      ensures IsDigit(s[k])
    {
      assert s[k] == d[k - from];
    }
  }

  lemma ParseFromParts(s: string, atype0: nat, id0: nat, v: nat, e1: nat, t: nat, e2: nat, i: nat, e3: nat)
    requires StrToUnsigned(s, 0) == Conversion(v, e1, false)
    requires e1 <= |s| && OptionalField(s, e1, atype0) == (t, e2)
    requires e2 <= |s| && OptionalField(s, e2, id0) == (i, e3)
    ensures ParseInodeStr(s, atype0, id0) == Some(StreamId(v, t, i))
  {
  }

  /** Round trip: parsing the formatted text of any in-range identifier
      gives that identifier back, whatever the caller's fields held. */
  lemma RoundTrip(x: StreamId, atype0: nat, id0: nat)
    requires x.InRange()
    ensures ParseInodeStr(Format(x), atype0, id0) == Some(x)
  {
    DecimalValue(x.inode);
    DecimalValue(x.atype);
    DecimalValue(x.id);
    ParseJoined(Decimal(x.inode), Decimal(x.atype), Decimal(x.id), atype0, id0);
  }
}
