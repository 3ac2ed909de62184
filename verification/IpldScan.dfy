/** CBOR headers as section 2.1 of RFC 7049 writes them, and the kernel's entry point
    `scan_for_reachable_links` over them. */
module IpldScan {
  import opened Common
  import opened BitStrings
  import opened CborGrammar
  import opened CborScan

  function BigEndian(b: seq<Byte>): nat {
    if b == [] then 0 else 256 * BigEndian(b[..|b| - 1]) + b[|b| - 1]
  }

  /** Number of bytes after the initial byte. */
  function Follow(low: nat): nat {
    if low < 24 then 0 else if low == 24 then 1 else if low == 25 then 2 else if low == 26 then 4 else 8
  }

  /** Major type and argument of a header: an initial byte with the major type in its high three
      bits, and the argument in its low five bits or in the 1, 2, 4 or 8 bytes that follow. */
  function HeadOf(h: seq<Byte>): Option<(nat, nat)> {
    if |h| > 0 && h[0] % 32 <= 27 && |h| == 1 + Follow(h[0] % 32)
    then Some((h[0] / 32, if h[0] % 32 < 24 then h[0] % 32 else BigEndian(h[1..])))
    else None
  }

  /** `cbor_read_header_buf`. */
  function ReadHeader(buf: seq<Byte>): Option<Head> {
    if |buf| == 0 then None
    else
      var major, low := buf[0] / 32, buf[0] % 32;
      if low <= 23 then Some(Head(major, low, buf[1..]))
      else if low == 24 then
        if |buf| < 2 then None else Some(Head(major, buf[1], buf[2..]))
      else if low == 25 then
        if |buf| < 3 then None else Some(Head(major, BigEndian(buf[1..3]), buf[3..]))
      else if low == 26 then
        if |buf| < 5 then None else Some(Head(major, BigEndian(buf[1..5]), buf[5..]))
      else if low == 27 then
        if |buf| < 9 then None else Some(Head(major, BigEndian(buf[1..9]), buf[9..]))
      else None
  }

  lemma HeaderIsRead(h: seq<Byte>, rest: seq<Byte>)
    requires HeadOf(h).Some?
    ensures ReadHeader(h + rest) == Some(Head(HeadOf(h).value.0, HeadOf(h).value.1, rest))
  {
    var buf, n := h + rest, |h|;
    assert buf[0] == h[0] && buf[n..] == rest && buf[1..n] == h[1..];
    if h[0] % 32 == 24 {
      assert h[1..][..0] == [];
      assert BigEndian(h[1..]) == 256 * BigEndian([]) + h[1];
    }
  }

  lemma ReadIsHeader(buf: seq<Byte>)
    requires ReadHeader(buf).Some?
    ensures var Head(major, extra, rest) := ReadHeader(buf).value;
            && |rest| < |buf| && major < 8 && extra <= U64_MAX
            && HeadOf(buf[..|buf| - |rest|]) == Some((major, extra))
            && buf == buf[..|buf| - |rest|] + rest
  {
    var n := 1 + Follow(buf[0] % 32);
    var h := buf[..n];
    assert buf == h + buf[n..];
    HeaderIsRead(h, buf[n..]);
    assert buf[..|buf| - |ReadHeader(buf).value.rest|] == h;
    BigEndianBound(h[1..]);
  }

  function Power256(n: nat): nat {
    if n == 0 then 1 else 256 * Power256(n - 1)
  }

  lemma {:induction false} BigEndianPower(b: seq<Byte>)
    ensures BigEndian(b) < Power256(|b|)
  {
    if b != [] {
      BigEndianPower(b[..|b| - 1]);
    }
  }

  lemma {:induction false} PowerMonotone(a: nat, b: nat)
    requires a <= b
    ensures Power256(a) <= Power256(b)
  {
    if a < b {
      PowerMonotone(a, b - 1);
    }
  }

  lemma BigEndianBound(b: seq<Byte>)
    requires |b| <= 8
    ensures BigEndian(b) <= U64_MAX
  {
    BigEndianPower(b);
    PowerMonotone(|b|, 8);
    assert Power256(4) == 0x1_0000_0000;
    assert Power256(6) == 0x1_0000_0000_0000;
    assert Power256(8) == 0x1_0000_0000_0000_0000;
  }

  ghost predicate ValidReader(read: seq<Byte> -> Option<(Cid, nat)>) {
    forall b :: read(b).Some? ==> |read(b).value.0.digest| < read(b).value.1 <= |b|
  }

  function Rfc7049(read: seq<Byte> -> Option<(Cid, nat)>): Wire {
    Wire(HeadOf, ReadHeader, read)
  }

  lemma Rfc7049Valid(read: seq<Byte> -> Option<(Cid, nat)>)
    requires ValidReader(read)
    ensures ValidWire(Rfc7049(read))
  {
    var w := Rfc7049(read);
    forall h, tail ensures HeaderReads(w, h, tail) {
      if HeadOf(h).Some? {
        HeaderIsRead(h, tail);
      }
    }
    forall buf ensures ReadsHeader(w, buf) {
      if ReadHeader(buf).Some? {
        ReadIsHeader(buf);
      }
    }
    forall b ensures ReadsCid(w, b) {
    }
  }

  /** The kernel's scan of a block whose CIDs are read by `read`. */
  method ScanForReachableLinks(codec: nat, data: seq<Byte>, prices: Prices, gasAvailable: nat,
                               read: seq<Byte> -> Option<(Cid, nat)>)
    returns (r: Result<seq<Cid>, ScanError>, gasUsed: nat)
    requires ValidReader(read) && |data| <= U64_MAX
    ensures gasUsed <= gasAvailable && (r == Err(OutOfGas) ==> gasUsed == gasAvailable)
    ensures r.Ok? <==> exists t :: BlockHolds(Rfc7049(read), codec, data, t) && Cost(prices, t) <= gasAvailable
    ensures r.Ok? ==> forall t :: BlockHolds(Rfc7049(read), codec, data, t) ==>
                        r.value == t.links && gasUsed == Cost(prices, t)
  {
    Rfc7049Valid(read);
    r, gasUsed := ScanBlock(Rfc7049(read), codec, data, prices, gasAvailable);
  }
}
