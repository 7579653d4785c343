/**
 Record marking of section 11 of RFC 5531: a record is a sequence of fragments, each a four byte
 header followed by its data; the top bit of the header marks the last fragment, the other 31 bits
 are the length. The header's bit operations are written as arithmetic on 32-bit numbers.
 */
module RecordMarking {
  import opened Wrappers

  type Byte = b: int | 0 <= b < 256

  const TWO_31: nat := 0x8000_0000
  const TWO_32: nat := 0x1_0000_0000
  const MAX_FRAGMENT: nat := TWO_31 - 1
  const MAX_RECORD: nat := 1024 * 1024

  datatype Error = EndOfStream | ShortHeader | SizeExceeded | ShortBody

  /** A parsed record with the rest of the stream, or an error. */
  datatype Parsed = Record(data: seq<Byte>, rest: seq<Byte>) | Failed(error: Error)

  // ---------------------------------------------------------------- headers

  predicate IsLastFragment(header: nat) {
    header / TWO_31 == 1
  }

  function FragmentSize(header: nat): (r: nat)
    ensures r <= MAX_FRAGMENT
  {
    header % TWO_31
  }

  function FragmentHeader(size: nat, last: bool): (r: nat)
    ensures r < TWO_32
  {
    size % TWO_31 + if last then TWO_31 else 0
  }

  lemma HeaderRoundTrip(size: nat, last: bool)
    requires size <= MAX_FRAGMENT
    ensures FragmentSize(FragmentHeader(size, last)) == size
    ensures IsLastFragment(FragmentHeader(size, last)) <==> last
  {
  }

  lemma HeaderInverse(h: nat)
    requires h < TWO_32
    ensures FragmentHeader(FragmentSize(h), IsLastFragment(h)) == h
  {
  }

  /** Big endian, as XDR integers are. */
  function PutUint32(v: nat): (b: seq<Byte>)
    requires v < TWO_32
    ensures |b| == 4
  {
    [v / 0x100_0000, v / 0x1_0000 % 0x100, v / 0x100 % 0x100, v % 0x100]
  }

  function Uint32(b: seq<Byte>): (v: nat)
    requires |b| == 4
    ensures v < TWO_32
  {
    (b[0] as int) * 0x100_0000 + (b[1] as int) * 0x1_0000 + (b[2] as int) * 0x100 + b[3] as int
  }

  lemma Uint32RoundTrip(v: nat)
    requires v < TWO_32
    ensures Uint32(PutUint32(v)) == v
  {
    assert v / 0x100 == v / 0x1_0000 * 0x100 + v / 0x100 % 0x100;
    assert v / 0x1_0000 == v / 0x100_0000 * 0x100 + v / 0x1_0000 % 0x100;
  }

  lemma PutUint32Inverse(b: seq<Byte>)
    requires |b| == 4
    ensures PutUint32(Uint32(b)) == b
  {
    var v := Uint32(b);
    var b0: int, b1: int, b2: int, b3: int := b[0], b[1], b[2], b[3];
    HighPart(b0 * 0x1_0000 + b1 * 0x100 + b2, b3, 0x100);
    HighPart(b0 * 0x100 + b1, b2 * 0x100 + b3, 0x1_0000);
    HighPart(b0, b1 * 0x1_0000 + b2 * 0x100 + b3, 0x100_0000);
    HighPart(b0 * 0x100 + b1, b2, 0x100);
    HighPart(b0, b1, 0x100);
  }

  lemma HighPart(high: nat, low: nat, m: nat)
    requires low < m
    ensures (high * m + low) / m == high && (high * m + low) % m == low
  {
    var q, r := (high * m + low) / m, (high * m + low) % m;
    assert q * m + r == high * m + low;
    SameQuotient(q, r, high, low, m);
  }

  lemma SameQuotient(q: int, r: nat, p: int, s: nat, m: nat)
    requires q * m + r == p * m + s && r < m && s < m
    ensures q == p && r == s
  {
    assert (q - p) * m == s - r;
    if q != p {
      FactorAtLeast(q - p, m);
    }
  }

  lemma FactorAtLeast(d: int, m: nat)
    requires d != 0
    ensures d * m >= m || d * m + m <= 0
  {
  }

  // ---------------------------------------------------------------- records on the wire

  function Frame(data: seq<Byte>, last: bool): (r: seq<Byte>)
    ensures |r| == 4 + |data|
  {
    PutUint32(FragmentHeader(|data|, last)) + data
  }

  /** On the wire: the top bit of the first byte marks the last fragment, and the rest of the four bytes
      is the length, most significant byte first. */
  lemma HeaderBytes(data: seq<Byte>, last: bool)
    requires |data| <= MAX_FRAGMENT
    ensures var f := Frame(data, last);
            var b0: int, b1: int, b2: int, b3: int := f[0], f[1], f[2], f[3];
            && (b0 >= 0x80 <==> last)
            && b0 % 0x80 * 0x100_0000 + b1 * 0x1_0000 + b2 * 0x100 + b3 == |data| && f[4..] == data
  {
    var h := FragmentHeader(|data|, last);
    Uint32RoundTrip(h);
    var b := PutUint32(h);
    var b0: int, low: int := b[0], (b[1] as int) * 0x1_0000 + (b[2] as int) * 0x100 + b[3] as int;
    SameQuotient(b0 / 0x80, b0 % 0x80 * 0x100_0000 + low, if last then 1 else 0, |data|, TWO_31);
  }

  /** A record split into fragments, the last one marked. */
  function Encode(frags: seq<seq<Byte>>): seq<Byte>
    requires frags != []
  {
    if |frags| == 1 then Frame(frags[0], true) else Frame(frags[0], false) + Encode(frags[1..])
  }

  function Concat(frags: seq<seq<Byte>>): seq<Byte> {
    if frags == [] then [] else frags[0] + Concat(frags[1..])
  }

  /** No fragment is longer than a header can say. */
  predicate Sendable(frags: seq<seq<Byte>>) {
    frags != [] && forall i :: 0 <= i < |frags| ==> |frags[i]| <= MAX_FRAGMENT
  }

  /** What reading a record from a stream means, given the data of the fragments read before. */
  function Parse(s: seq<Byte>, got: seq<Byte>): Parsed
    requires |got| <= MAX_RECORD
    decreases |s|
  {
    if |s| == 0 then Failed(EndOfStream)
    else if |s| < 4 then Failed(ShortHeader)
    else
      var h := Uint32(s[..4]);
      var n := FragmentSize(h);
      if n > MAX_RECORD - |got| then Failed(SizeExceeded)
      else if |s| < 4 + n then Failed(ShortBody)
      else if IsLastFragment(h) then Record(got + s[4..4 + n], s[4 + n..])
      else Parse(s[4 + n..], got + s[4..4 + n])
  }

  /** One fragment at the front of the stream. */
  lemma ParseFrame(data: seq<Byte>, last: bool, rest: seq<Byte>, got: seq<Byte>)
    requires |data| <= MAX_FRAGMENT && |got| <= MAX_RECORD
    ensures Parse(Frame(data, last) + rest, got) ==
            if |data| > MAX_RECORD - |got| then Failed(SizeExceeded)
            else if last then Record(got + data, rest) else Parse(rest, got + data)
  {
    var s := Frame(data, last) + rest;
    var h := FragmentHeader(|data|, last);
    assert s[..4] == PutUint32(h);
    Uint32RoundTrip(h);
    HeaderRoundTrip(|data|, last);
    assert s[4..4 + |data|] == data;
    assert s[4 + |data|..] == rest;
  }

  /** Any split of a record into fragments, empty ones included, reads as their concatenation and
      leaves the rest of the stream, exactly when the record is at most 1 MiB. */
  lemma {:induction false} SplitReadsAsOne(frags: seq<seq<Byte>>, rest: seq<Byte>, got: seq<Byte>)
    requires Sendable(frags) && |got| <= MAX_RECORD
    ensures Parse(Encode(frags) + rest, got) ==
            if |got + Concat(frags)| <= MAX_RECORD then Record(got + Concat(frags), rest) else Failed(SizeExceeded)
    decreases |frags|
  {
    hide Parse, Frame;
    var f, tail := frags[0], frags[1..];
    if |frags| == 1 {
      assert Concat(tail) == [] && Concat(frags) == f;
      ParseFrame(f, true, rest, got);
    } else {
      assert frags == [f] + tail;
      ConsFragment(f, tail);
      Assoc(Frame(f, false), Encode(tail), rest);
      ParseFrame(f, false, Encode(tail) + rest, got);
      if |got + f| <= MAX_RECORD {
        SplitReadsAsOne(tail, rest, got + f);
        Assoc(got, f, Concat(tail));
      }
    }
  }

  /** A fragment cut off after m bytes. */
  lemma CutFrame(data: seq<Byte>, last: bool, m: nat, got: seq<Byte>)
    requires |got| <= MAX_RECORD && |data| <= MAX_RECORD - |got| && m < 4 + |data|
    ensures Parse(Frame(data, last)[..m], got) == Failed(if m == 0 then EndOfStream else if m < 4 then ShortHeader else ShortBody)
  {
    if m >= 4 {
      var h := FragmentHeader(|data|, last);
      assert Frame(data, last)[..m][..4] == PutUint32(h);
      Uint32RoundTrip(h);
      HeaderRoundTrip(|data|, last);
    }
  }

  /** A record that stops before its end is never accepted, wherever it was cut and however it was split;
      cut in its first fragment, the error says where. */
  lemma {:induction false} TruncatedFails(frags: seq<seq<Byte>>, m: nat, got: seq<Byte>)
    requires Sendable(frags) && |got + Concat(frags)| <= MAX_RECORD && m < |Encode(frags)|
    ensures var p := Parse(Encode(frags)[..m], got); p.Failed? && p.error != SizeExceeded
    ensures m < 4 + |frags[0]| ==>
              Parse(Encode(frags)[..m], got)
              == Failed(if m == 0 then EndOfStream else if m < 4 then ShortHeader else ShortBody)
    decreases |frags|
  {
    hide Parse, Frame;
    var f, tail := frags[0], frags[1..];
    var s := Encode(frags)[..m];
    assert Concat(frags) == f + Concat(tail);
    if m < 4 + |f| {
      var last := |frags| == 1;
      assert s == Frame(f, last)[..m];
      CutFrame(f, last, m, got);
    } else {
      assert s == Frame(f, false) + Encode(tail)[..m - 4 - |f|];
      ParseFrame(f, false, Encode(tail)[..m - 4 - |f|], got);
      Assoc(got, f, Concat(tail));
      TruncatedFails(tail, m - 4 - |f|, got + f);
    }
  }

  /** What stands at the front of a stream that is long enough is a fragment. */
  lemma FrameInFront(s: seq<Byte>)
    requires |s| >= 4 && |s| >= 4 + FragmentSize(Uint32(s[..4]))
    ensures var h := Uint32(s[..4]); var n := FragmentSize(h);
            s == Frame(s[4..4 + n], IsLastFragment(h)) + s[4 + n..]
  {
    var h := Uint32(s[..4]);
    PutUint32Inverse(s[..4]);
    HeaderInverse(h);
    hide Uint32, FragmentHeader, PutUint32;
    assert s == s[..4] + s[4..4 + FragmentSize(h)] + s[4 + FragmentSize(h)..];
  }

  /** And nothing else is ever read: what the reader accepts is the encoding of some fragments. */
  lemma {:induction false} ReadIsSomeSplit(s: seq<Byte>, got: seq<Byte>) returns (frags: seq<seq<Byte>>)
    requires |got| <= MAX_RECORD && Parse(s, got).Record?
    ensures Sendable(frags) && s == Encode(frags) + Parse(s, got).rest
    ensures Parse(s, got).data == got + Concat(frags) && |Parse(s, got).data| <= MAX_RECORD
    decreases |s|
  {
    var h := Uint32(s[..4]);
    var n := FragmentSize(h);
    var f := s[4..4 + n];
    FrameInFront(s);
    hide Uint32, FragmentSize, Frame, IsLastFragment;
    if IsLastFragment(h) {
      frags := [f];
      assert Concat(frags[1..]) == [] && Concat(frags) == f;
    } else {
      var tail := ReadIsSomeSplit(s[4 + n..], got + f);
      assert Parse(s, got) == Parse(s[4 + n..], got + f);
      hide Parse;
      frags := [f] + tail;
      ConsFragment(f, tail);
      Assoc(Frame(f, false), Encode(tail), Parse(s, got).rest);
      Assoc(got, f, Concat(tail));
    }
  }

  lemma ConsFragment(f: seq<Byte>, tail: seq<seq<Byte>>)
    requires tail != []
    ensures Encode([f] + tail) == Frame(f, false) + Encode(tail)
    ensures Concat([f] + tail) == f + Concat(tail)
  {
  }

  // ---------------------------------------------------------------- the two ends of a connection

  /** A connection: what has been written to it and what is still to be read. */
  class Stream {
    var bytes: seq<Byte>

    constructor (initial: seq<Byte>)
      ensures bytes == initial
    {
      bytes := initial;
    }
  }

  /** A conversion to an unsigned 32-bit number. */
  function ToUint32(x: int): (r: nat)
    ensures r < TWO_32
  {
    x % TWO_32
  }

  /** Write a record that fills its buffer. The number of bytes written, headers included, also tells
      where the next fragment's data begins, so a record that needs a second fragment makes the slice
      go out of range (no result): exactly the records one header can describe are written. */
  method WriteFullRecord(conn: Stream, data: seq<Byte>) returns (r: Option<nat>)
    modifies conn
    ensures r.Some? <==> |data| <= MAX_FRAGMENT
    ensures r.Some? ==> conn.bytes == old(conn.bytes) + Encode([data]) && r.value == |Encode([data])|
    ensures r.None? ==> conn.bytes == old(conn.bytes) + Frame(data[..MAX_FRAGMENT], false)
  {
    hide Frame, PutUint32, FragmentHeader;
    var total := 0;
    var lastFragment := false;
    while !lastFragment
      invariant !lastFragment ==>
        || (total == 0 && conn.bytes == old(conn.bytes))
        || (total == MAX_FRAGMENT + 4 && |data| > MAX_FRAGMENT && conn.bytes == old(conn.bytes) + Frame(data[..MAX_FRAGMENT], false))
      invariant lastFragment ==> |data| <= MAX_FRAGMENT && conn.bytes == old(conn.bytes) + Frame(data, true) && total == 4 + |data|
      decreases !lastFragment, MAX_FRAGMENT + 4 - total
    {
      var remaining := |data| - total;
      if remaining <= MAX_FRAGMENT {
        lastFragment := true;
      }
      var fragmentSize := ToUint32(if MAX_FRAGMENT < remaining then MAX_FRAGMENT else remaining);
      if !(total <= fragmentSize <= |data|) {
        return None;
      }
      var written := PutUint32(FragmentHeader(fragmentSize, lastFragment)) + data[total..fragmentSize];
      FrameOf(data[total..fragmentSize], lastFragment);
      assert lastFragment ==> data[total..fragmentSize] == data;
      assert data[0..fragmentSize] == data[..fragmentSize];
      conn.bytes := conn.bytes + written;
      total := total + |written|;
    }
    r := Some(total);
  }

  lemma FrameOf(data: seq<Byte>, last: bool)
    ensures Frame(data, last) == PutUint32(FragmentHeader(|data|, last)) + data
  {
  }

  /** Read a record. `peak` is the most that was buffered. */
  method ReadFullRecord(conn: Stream) returns (r: Parsed, peak: nat)
    modifies conn
    ensures r == Parse(old(conn.bytes), [])
    ensures r.Record? ==> conn.bytes == r.rest
    ensures peak <= MAX_RECORD
  {
    var record: seq<Byte> := [];
    peak := 0;
    while true
      invariant |record| <= MAX_RECORD && peak <= MAX_RECORD
      invariant Parse(conn.bytes, record) == Parse(old(conn.bytes), [])
      decreases |conn.bytes|
    {
      var s := conn.bytes;
      if |s| < 4 {
        conn.bytes := [];
        return Failed(if |s| == 0 then EndOfStream else ShortHeader), peak;
      }
      var header := Uint32(s[..4]);
      conn.bytes := s[4..];
      var size := FragmentSize(header);
      if size > MAX_RECORD - |record| {
        return Failed(SizeExceeded), peak;
      }
      var copied := if size <= |s| - 4 then size else |s| - 4;
      if |record| + copied > peak {
        peak := |record| + copied;
      }
      conn.bytes := s[4 + copied..];
      if copied != size {
        return Failed(ShortBody), peak;
      }
      record := record + s[4..4 + size];
      if IsLastFragment(header) {
        return Record(record, conn.bytes), peak;
      }
    }
  }

  // ---------------------------------------------------------------- whole streams

  function EncodeAll(records: seq<seq<Byte>>): seq<Byte> {
    if records == [] then [] else Encode([records[0]]) + EncodeAll(records[1..])
  }

  /** Read n records one after the other. */
  function ParseAll(s: seq<Byte>, n: nat): (seq<seq<Byte>>, Parsed)
    decreases n
  {
    if n == 0 then ([], Record([], s))
    else
      var p := Parse(s, []);
      if p.Failed? then ([], p)
      else var more := ParseAll(p.rest, n - 1); ([p.data] + more.0, more.1)
  }

  lemma OneRecord(d: seq<Byte>, rest: seq<Byte>)
    requires |d| <= MAX_RECORD
    ensures Parse(Encode([d]) + rest, []) == Record(d, rest)
  {
    assert Concat([d][1..]) == [] && Concat([d]) == d;
    assert [] + d == d;
    hide Parse;
    SplitReadsAsOne([d], rest, []);
  }

  lemma ParseAllNext(s: seq<Byte>, n: nat, d: seq<Byte>, tail: seq<Byte>)
    requires Parse(s, []) == Record(d, tail)
    ensures ParseAll(s, n + 1) == ([d] + ParseAll(tail, n).0, ParseAll(tail, n).1)
  {
  }

  /** Records of at most 1 MiB written back to back are read back in order, and the rest of the
      stream is untouched. */
  lemma {:induction false} BackToBack(records: seq<seq<Byte>>, rest: seq<Byte>)
    requires forall i :: 0 <= i < |records| ==> |records[i]| <= MAX_RECORD
    ensures ParseAll(EncodeAll(records) + rest, |records|) == (records, Record([], rest))
  {
    hide Parse, Encode;
    if records == [] {
      assert EncodeAll(records) + rest == rest;
    } else {
      var d, more := records[0], records[1..];
      BackToBack(more, rest);
      var tail := EncodeAll(more) + rest;
      OneRecord(d, tail);
      ParseAllNext(Encode([d]) + tail, |more|, d, tail);
      Assoc(Encode([d]), EncodeAll(more), rest);
      assert [d] + more == records;
    }
  }

  lemma Assoc(a: seq<Byte>, b: seq<Byte>, c: seq<Byte>)
    ensures a + b + c == a + (b + c)
  {
  }
}
