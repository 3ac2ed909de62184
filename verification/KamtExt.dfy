/** Extensions: the bits of a key that a KAMT link skips, packed into bytes (`ipld/kamt/src/ext.rs`). */
module KamtExt {
  import opened Common
  import opened BitStrings

  // ---------------------------------------------------------------- bits and numbers

  ghost function Num(s: seq<bool>): nat
    decreases |s|
  {
    if s == [] then 0 else 2 * Num(s[..|s| - 1]) + (if s[|s| - 1] then 1 else 0)
  }

  /** `n` in `i` bits. */
  ghost function Spell(n: nat, i: nat): (s: seq<bool>)
    ensures |s| == i
  {
    if i == 0 then [] else Spell(n / 2, i - 1) + [n % 2 == 1]
  }

  ghost function BitsOf(b: seq<Byte>, p: nat, n: nat): (s: seq<bool>)
    requires p + n <= 8 * |b|
    ensures |s| == n
  {
    seq(n, i requires 0 <= i < n => Bit(b, p + i) == 1)
  }

  lemma {:induction false} NumBound(s: seq<bool>)
    ensures Num(s) < Pow2(|s|)
    decreases |s|
  {
    if s != [] {
      NumBound(s[..|s| - 1]);
    }
  }

  lemma {:induction false} NumSpell(n: nat, i: nat)
    requires n < Pow2(i)
    ensures Num(Spell(n, i)) == n
  {
    if i > 0 {
      NumSpell(n / 2, i - 1);
      assert Spell(n, i)[..i - 1] == Spell(n / 2, i - 1);
    }
  }

  lemma {:induction false} NumUnique(a: seq<bool>, b: seq<bool>)
    requires |a| == |b| && Num(a) == Num(b)
    ensures a == b
    decreases |a|
  {
    if a != [] {
      var n := |a| - 1;
      NumUnique(a[..n], b[..n]);
      assert a == a[..n] + [a[n]] && b == b[..n] + [b[n]];
    }
  }

  // Shifts, one place at a time.

  function Shl(n: nat, k: nat): nat {
    if k == 0 then n else 2 * Shl(n, k - 1)
  }

  function Shr(n: nat, k: nat): nat {
    if k == 0 then n else Shr(n / 2, k - 1)
  }

  /** The lowest `k` bits of `n`: `n & mkmask(k)`. */
  function Low(n: nat, k: nat): nat {
    if k == 0 then 0 else 2 * Low(n / 2, k - 1) + n % 2
  }

  lemma {:induction false} ShlAdd(a: nat, b: nat, k: nat)
    ensures Shl(a + b, k) == Shl(a, k) + Shl(b, k)
  {
    if k > 0 {
      ShlAdd(a, b, k - 1);
    }
  }

  lemma {:induction false} ShlTwice(n: nat, a: nat, b: nat)
    ensures Shl(Shl(n, a), b) == Shl(n, a + b)
  {
    if b > 0 {
      ShlTwice(n, a, b - 1);
    }
  }

  lemma {:induction false} ShlBound(n: nat, a: nat, k: nat)
    requires n < Pow2(a)
    ensures Shl(n, k) <= Pow2(a + k) - Pow2(k)
  {
    if k > 0 {
      ShlBound(n, a, k - 1);
    }
  }

  lemma {:induction false} ShrOfShl(n: nat, k: nat)
    ensures Shr(Shl(n, k), k) == n && Low(Shl(n, k), k) == 0
  {
    if k > 0 {
      ShrOfShl(n, k - 1);
    }
  }

  lemma {:induction false} ShlOfShr(n: nat, k: nat)
    ensures n == Shl(Shr(n, k), k) + Low(n, k)
  {
    if k > 0 {
      ShlOfShr(n / 2, k - 1);
    }
  }

  lemma {:induction false} ShrIsDiv(n: nat, k: nat)
    ensures Shr(n, k) == n / Pow2(k) && Low(n, k) == n % Pow2(k)
  {
    if k > 0 {
      ShrIsDiv(n / 2, k - 1);
      HalfDiv(n, Pow2(k - 1));
    }
  }

  lemma HalfDiv(n: nat, d: nat)
    requires d > 0
    ensures (n / 2) / d == n / (2 * d) && 2 * ((n / 2) % d) + n % 2 == n % (2 * d)
  {
    var m := n / 2;
    var q, r := m / d, m % d;
    assert m == d * q + r;
    assert n == 2 * m + n % 2;
    assert n == (2 * d) * q + (2 * r + n % 2) by {
      MulAssoc(2, d, q);
    }
    DivUnique(n, 2 * d, q, 2 * r + n % 2);
  }

  lemma {:induction false} NumConcat(a: seq<bool>, b: seq<bool>)
    ensures Num(a + b) == Shl(Num(a), |b|) + Num(b)
    decreases |b|
  {
    if b == [] {
      assert a + b == a;
    } else {
      var n := |b| - 1;
      NumConcat(a, b[..n]);
      assert (a + b)[..|a + b| - 1] == a + b[..n];
    }
  }

  /** The bits of a number above and below `carry`. */
  lemma SlicesMeet(s: seq<bool>, carry: nat)
    requires 0 < carry <= |s|
    ensures s[..|s| - 1][..|s| - carry] == s[..|s| - carry]
    ensures s[|s| - carry..][..carry - 1] == s[..|s| - 1][|s| - carry..]
  {
  }

  lemma NumHalves(s: seq<bool>)
    requires s != []
    ensures Num(s) / 2 == Num(s[..|s| - 1]) && Num(s) % 2 == if s[|s| - 1] then 1 else 0
    ensures Num(s) == 2 * Num(s[..|s| - 1]) + if s[|s| - 1] then 1 else 0
  {
  }

  lemma {:induction false} SplitNumber(s: seq<bool>, carry: nat)
    requires carry <= |s|
    ensures Num(s[..|s| - carry]) == Shr(Num(s), carry) && Num(s[|s| - carry..]) == Low(Num(s), carry)
    decreases carry
  {
    if carry == 0 {
      assert s[..|s|] == s;
    } else {
      var t, low := s[..|s| - 1], s[|s| - carry..];
      SplitNumber(t, carry - 1);
      NumHalves(s);
      NumHalves(low);
      SlicesMeet(s, carry);
    }
  }

  lemma {:induction false} NumDigit(b: seq<Byte>, p: nat, n: nat)
    requires p + n <= 8 * |b|
    ensures Num(BitsOf(b, p, n)) == Digit(b, p, n)
  {
    if n > 0 {
      NumDigit(b, p, n - 1);
      assert BitsOf(b, p, n)[..n - 1] == BitsOf(b, p, n - 1);
    }
  }

  /** What is read as a number is spelled as it was written. */
  lemma SpellDigit(b: seq<Byte>, p: nat, n: nat)
    requires p + n <= 8 * |b|
    ensures Spell(Digit(b, p, n), n) == BitsOf(b, p, n)
  {
    NumDigit(b, p, n);
    NumSpell(Digit(b, p, n), n);
    NumUnique(Spell(Digit(b, p, n), n), BitsOf(b, p, n));
  }

  lemma BitsConcat(b: seq<Byte>, p: nat, n: nat, k: nat)
    requires p + n + k <= 8 * |b|
    ensures BitsOf(b, p, n) + BitsOf(b, p + n, k) == BitsOf(b, p, n + k)
  {
  }

  lemma ThreeParts(h: seq<Byte>, q: nat, a: nat, b: nat, d: nat)
    requires q + a + b + d <= 8 * |h|
    ensures BitsOf(h, q, a + b + d) == BitsOf(h, q, a) + BitsOf(h, q + a, b) + BitsOf(h, q + a + b, d)
  {
    BitsConcat(h, q, a, b);
    BitsConcat(h, q, a + b, d);
  }

  // ---------------------------------------------------------------- extensions

  datatype Extension = Extension(length: nat, path: seq<Byte>)

  const NO_EXTENSION: Extension := Extension(0, [])

  /** No more bytes than needed, and zeros after the last bit. */
  ghost predicate WellFormed(e: Extension) {
    && |e.path| == (e.length + 7) / 8
    && (e.length % 8 != 0 ==> Low(e.path[|e.path| - 1], 8 - e.length % 8) == 0)
  }

  ghost function ExtBits(e: Extension): seq<bool>
    requires e.length <= 8 * |e.path|
  {
    BitsOf(e.path, 0, e.length)
  }

  /** The first bits of a byte, and zeros after them. */
  ghost predicate Packs(x: nat, s: seq<bool>) {
    |s| <= 8 && x == Shl(Num(s), 8 - |s|)
  }

  /** The first bits of a byte that packs `s` are `s`. */
  lemma PackedBits(b: seq<Byte>, k: nat, s: seq<bool>)
    requires k < |b| && Packs(b[k], s)
    ensures BitsOf(b, 8 * k, |s|) == s
  {
    ByteDigit(b, k, |s|);
    ShrOfShl(Num(s), 8 - |s|);
    NumDigit(b, 8 * k, |s|);
    NumUnique(BitsOf(b, 8 * k, |s|), s);
  }

  lemma ByteDigit(b: seq<Byte>, k: nat, n: nat)
    requires k < |b| && n <= 8
    ensures Digit(b, 8 * k, n) == Shr(b[k], 8 - n)
  {
    assert (8 * k) / 8 == k && (8 * k) % 8 == 0;
    DigitInByte(b, 8 * k, n);
    Pow2Table();
    assert b[k] % 256 == b[k];
    ShrIsDiv(b[k], 8 - n);
  }

  lemma PackBound(s: seq<bool>)
    requires |s| <= 8
    ensures Shl(Num(s), 8 - |s|) < 256 && Low(Shl(Num(s), 8 - |s|), 8 - |s|) == 0
  {
    var d := 8 - |s|;
    NumBound(s);
    ShlBound(Num(s), |s|, d);
    assert Pow2(|s| + d) == 256 by {
      Pow2Table();
    }
    ShrOfShl(Num(s), d);
  }

  /** The bytes that hold a string of bits. */
  ghost predicate HoldsBytes(path: seq<Byte>, bits: seq<bool>) {
    && |path| == (|bits| + 7) / 8
    && forall k :: 0 <= k < |path| ==> Packs(path[k], Chunk(bits, k))
  }

  ghost function Chunk(bits: seq<bool>, k: nat): seq<bool>
    requires 8 * k <= |bits|
  {
    bits[8 * k..Min(8 * k + 8, |bits|)]
  }

  lemma HoldsBit(path: seq<Byte>, bits: seq<bool>, q: nat)
    requires HoldsBytes(path, bits) && q < |bits|
    ensures q < 8 * |path| && (Bit(path, q) == 1) == bits[q]
  {
    var k := q / 8;
    var c := Chunk(bits, k);
    PackedBits(path, k, c);
    assert BitsOf(path, 8 * k, |c|)[q - 8 * k] == c[q - 8 * k];
  }

  lemma HoldsBits(path: seq<Byte>, bits: seq<bool>)
    requires HoldsBytes(path, bits)
    ensures WellFormed(Extension(|bits|, path)) && ExtBits(Extension(|bits|, path)) == bits
  {
    forall q | 0 <= q < |bits| ensures (Bit(path, q) == 1) == bits[q] {
      HoldsBit(path, bits, q);
    }
    if |bits| % 8 != 0 {
      LastChunk(path, bits);
    }
  }

  lemma LastChunk(path: seq<Byte>, bits: seq<bool>)
    requires HoldsBytes(path, bits) && |bits| % 8 != 0
    ensures |path| > 0 && Low(path[|path| - 1], 8 - |bits| % 8) == 0
  {
    var k := |path| - 1;
    LastByte(|bits|, |path|, k);
    var c := Chunk(bits, k);
    assert |c| == |bits| % 8;
    PackBound(c);
  }

  /** An extension is determined by its bits. */
  lemma ExtUnique(a: Extension, b: Extension)
    requires WellFormed(a) && WellFormed(b) && ExtBits(a) == ExtBits(b)
    ensures a == b
  {
    assert a.length == |ExtBits(a)| == |ExtBits(b)| == b.length;
    forall k | 0 <= k < |a.path| ensures a.path[k] == b.path[k] {
      ByteFromBits(a, k);
      ByteFromBits(b, k);
    }
  }

  lemma ByteFromBits(e: Extension, k: nat)
    requires WellFormed(e) && k < |e.path|
    ensures 8 * k < e.length && Packs(e.path[k], Chunk(ExtBits(e), k))
  {
    LastByte(e.length, |e.path|, k);
    var n := Min(8, e.length - 8 * k);
    assert Chunk(ExtBits(e), k) == BitsOf(e.path, 8 * k, n);
    PacksOwnBits(e.path, k, n);
  }

  lemma LastByte(length: nat, bytes: nat, k: nat)
    requires bytes == (length + 7) / 8 && k < bytes
    ensures 8 * k < length && (length - 8 * k < 8 ==> k == bytes - 1 && length - 8 * k == length % 8 && length % 8 != 0)
    ensures length % 8 != 0 && k == bytes - 1 ==> length - 8 * k == length % 8
  {
  }

  lemma PacksOwnBits(path: seq<Byte>, k: nat, n: nat)
    requires k < |path| && n <= 8 && Low(path[k], 8 - n) == 0
    ensures Packs(path[k], BitsOf(path, 8 * k, n))
  {
    ByteDigit(path, k, n);
    NumDigit(path, 8 * k, n);
    ShlOfShr(path[k], 8 - n);
  }

  // ---------------------------------------------------------------- the builder

  /** Full bytes, and a byte that is being filled. */
  ghost predicate Filling(path: seq<Byte>, out: nat, bits: seq<bool>) {
    && |path| == |bits| / 8
    && (forall k :: 0 <= k < |path| ==> Packs(path[k], Chunk(bits, k)))
    && Packs(out, bits[8 * |path|..])
  }

  lemma ChunksKept(path: seq<Byte>, bits: seq<bool>, more: seq<bool>)
    requires 8 * |path| <= |bits| && forall k :: 0 <= k < |path| ==> Packs(path[k], Chunk(bits, k))
    ensures forall k :: 0 <= k < |path| ==> Packs(path[k], Chunk(bits + more, k))
  {
    forall k | 0 <= k < |path| ensures Packs(path[k], Chunk(bits + more, k)) {
      assert Chunk(bits + more, k) == Chunk(bits, k);
    }
  }

  /** The high bits complete a byte and the low ones begin the next. */
  lemma Completes(out: nat, rem: seq<bool>, s: seq<bool>, carry: nat)
    requires Packs(out, rem) && carry < |s| <= 8 && |rem| + |s| == 8 + carry && carry > 0
    ensures var full := out + Shr(Num(s), carry);
            full < 256 && Packs(full, rem + s[..|s| - carry])
            && Packs(Shl(Low(Num(s), carry), 8 - carry), s[|s| - carry..])
  {
    var high := s[..|s| - carry];
    SplitNumber(s, carry);
    NumConcat(rem, high);
    PackBound(rem + high);
    assert Shl(Num(rem + high), 0) == Num(rem + high);
  }

  /** Bits that do not fit in the current byte: it is completed and a new one begun. */
  lemma Overflows(path: seq<Byte>, out: nat, bits: seq<bool>, s: seq<bool>, carry: nat)
    requires Filling(path, out, bits) && carry < |s| <= 8 && carry == |bits| % 8 + |s| - 8 && carry > 0
    ensures var full := out + Shr(Num(s), carry);
            full < 256 && Filling(path + [full], Shl(Low(Num(s), carry), 8 - carry), bits + s)
  {
    var q := |path|;
    var rem, high, low := bits[8 * q..], s[..|s| - carry], s[|s| - carry..];
    assert |rem| == |bits| % 8 && |bits| == 8 * q + |rem| && |rem| + |high| == 8;
    var full := out + Shr(Num(s), carry);
    Completes(out, rem, s, carry);
    ChunksKept(path, bits, s);
    assert Chunk(bits + s, q) == rem + high;
    assert (bits + s)[8 * (q + 1)..] == low;
  }

  lemma Aligns(out: nat, rem: seq<bool>, s: seq<bool>, d: nat)
    requires Packs(out, rem) && |rem| + |s| + d == 8
    ensures out + Shl(Num(s), d) < 256 && Packs(out + Shl(Num(s), d), rem + s)
  {
    NumConcat(rem, s);
    ShlAdd(Shl(Num(rem), |s|), Num(s), d);
    ShlTwice(Num(rem), |s|, d);
    PackBound(rem + s);
    assert |rem + s| == 8 - d;
  }

  /** Bits that fit. */
  lemma Fitting(path: seq<Byte>, out: nat, bits: seq<bool>, s: seq<bool>, j: nat)
    requires Filling(path, out, bits) && j == |bits| % 8 && j + |s| <= 8
    ensures var more := out + Shl(Num(s), 8 - j - |s|);
            && more < 256
            && (j + |s| < 8 ==> Filling(path, more, bits + s))
            && (j + |s| == 8 ==> Filling(path + [more], 0, bits + s))
  {
    var rem := bits[8 * |path|..];
    var more := out + Shl(Num(s), 8 - j - |s|);
    Aligns(out, rem, s, 8 - j - |s|);
    ChunksKept(path, bits, s);
    assert (bits + s)[8 * |path|..] == rem + s;
    if j + |s| == 8 {
      assert Chunk(bits + s, |path|) == rem + s;
      assert (bits + s)[8 * (|path| + 1)..] == [];
      ShlBound(0, 0, 8);
    }
  }

  class ExtensionBuilder {
    var written: nat
    var out: nat
    var path: seq<Byte>
    /** The bits added so far. */
    ghost var bits: seq<bool>

    ghost predicate Valid()
      reads this
    {
      |bits| == written && Filling(path, out, bits)
    }

    constructor ()
      ensures Valid() && bits == []
    {
      written, out, path, bits := 0, 0, [], [];
    }

    /** Appends the `i` bits of `n`. */
    method Add(i: nat, n: nat)
      requires Valid() && 1 <= i <= 8 && n < Pow2(i)
      modifies this
      ensures Valid() && bits == old(bits) + Spell(n, i)
    {
      var j := written % 8;
      NumSpell(n, i);
      if j + i > 8 {
        AddAcross(i, n, j + i - 8);
      } else {
        AddWithin(i, n, j);
      }
    }

    /** The next bits do not fit in the current byte. */
    method AddAcross(i: nat, n: nat, carry: nat)
      requires Valid() && 1 <= i <= 8 && Num(Spell(n, i)) == n && 0 < carry == written % 8 + i - 8
      modifies this
      ensures Valid() && bits == old(bits) + Spell(n, i)
    {
      Overflows(path, out, bits, Spell(n, i), carry);
      out := out + Shr(n, carry);
      path := path + [out];
      out := Shl(Low(n, carry), 8 - carry);
      written := written + i;
      bits := bits + Spell(n, i);
    }

    method AddWithin(i: nat, n: nat, j: nat)
      requires Valid() && 1 <= i && Num(Spell(n, i)) == n && j == written % 8 && j + i <= 8
      modifies this
      ensures Valid() && bits == old(bits) + Spell(n, i)
    {
      Fitting(path, out, bits, Spell(n, i), j);
      assert |Spell(n, i)| == i;
      var more := out + Shl(n, 8 - j - i);
      written := written + i;
      bits := bits + Spell(n, i);
      if j + i == 8 {
        path := path + [more];
        out := 0;
      } else {
        out := more;
      }
    }

    method Build() returns (e: Extension)
      requires Valid()
      ensures WellFormed(e) && ExtBits(e) == bits && e.length == |bits|
    {
      var all := path;
      if written % 8 != 0 {
        PackBound(bits[8 * |path|..]);
        assert Chunk(bits, |path|) == bits[8 * |path|..];
        all := path + [out];
      }
      HoldsBits(all, bits);
      e := Extension(written, all);
    }
  }

  // ---------------------------------------------------------------- taking apart and putting together

  /** Moves the next `i` bits from a key to a builder. If fewer are left, they are padded. */
  method Move(hb: HashBits, builder: ExtensionBuilder, i: nat) returns (r: Result<(), IpldError>)
    requires hb.Valid() && builder.Valid()
    modifies hb, builder
    ensures hb.Valid() && builder.Valid()
    ensures 1 <= i <= 8 && old(hb.consumed) + i <= hb.length ==>
              && r.Ok? && hb.consumed == old(hb.consumed) + i
              && builder.bits == old(builder.bits) + BitsOf(hb.b, old(hb.consumed), i)
    ensures r.Ok? <==> 1 <= i <= 8 && old(hb.consumed) < hb.length
    ensures r.Ok? ==> hb.consumed == Min(old(hb.consumed) + i, hb.length) && |builder.bits| == |old(builder.bits)| + i
  {
    ghost var at := hb.consumed;
    var n := hb.Next(i);
    if n.Err? {
      return Err(n.error);
    }
    ReadFits(hb.b, at, hb.consumed - at, i);
    if at + i <= hb.length {
      SpellDigit(hb.b, at, i);
    }
    builder.Add(i, n.value);
    return Ok(());
  }

  const U32_WRAP: nat := 0x1_0000_0000

  /** `Extension::from_bits`: takes the next `length` bits. */
  method FromBits(hb: HashBits, length: nat) returns (r: Result<Extension, IpldError>)
    requires hb.Valid()
    modifies hb
    ensures hb.Valid()
    ensures old(hb.consumed) + length <= hb.length ==>
              && r.Ok? && hb.consumed == old(hb.consumed) + length
              && WellFormed(r.value) && r.value.length == length
              && ExtBits(r.value) == BitsOf(hb.b, old(hb.consumed), length)
    ensures r.Ok? ==> WellFormed(r.value) && r.value.length == length && hb.consumed == Min(old(hb.consumed) + length, hb.length)
    ensures length > 0 && old(hb.consumed) == hb.length ==> r.Err?
  {
    var builder := new ExtensionBuilder();
    var left: nat := length;
    ghost var from, enough := hb.consumed, hb.consumed + length <= hb.length;
    assert enough ==> BitsOf(hb.b, from, 0) == [];
    while left > 0
      invariant left <= length && hb.Valid() && builder.Valid() && fresh(builder)
      invariant hb.consumed == Min(from + (length - left), hb.length) && |builder.bits| == length - left
      invariant left < length ==> from < hb.length
      invariant enough ==> builder.bits == BitsOf(hb.b, from, length - left)
    {
      var i := Min(left, 8);
      if enough {
        BitsConcat(hb.b, from, length - left, i);
      }
      var moved := Move(hb, builder, i);
      if moved.Err? {
        return Err(moved.error);
      }
      left := left - i;
    }
    var e := builder.Build();
    return Ok(e);
  }

  lemma ReadFits(b: seq<Byte>, p: nat, n: nat, i: nat)
    requires p + n <= 8 * |b| && n <= i
    ensures Digit(b, p, n) < Pow2(i)
  {
    Pow2Monotone(n, i);
  }

  /** Splits an extension into what comes before `consumed` bits, the next slot, and what comes after. If
      the slot is cut short, the length of the tail wraps around, and there are no bits to read for it. */
  method Split(e: Extension, consumed: nat, bitWidth: nat) returns (r: Result<(Extension, Extension, Extension), IpldError>)
    requires WellFormed(e) && 1 <= bitWidth <= 8
    ensures r.Ok? <==> consumed + bitWidth <= e.length
    ensures r.Ok? ==>
            var (head, idx, tail) := r.value;
            && WellFormed(head) && WellFormed(idx) && WellFormed(tail)
            && head.length == consumed && idx.length == bitWidth && tail.length == e.length - consumed - bitWidth
            && ExtBits(head) == BitsOf(e.path, 0, consumed)
            && ExtBits(idx) == BitsOf(e.path, consumed, bitWidth)
            && ExtBits(tail) == BitsOf(e.path, consumed + bitWidth, e.length - consumed - bitWidth)
  {
    var path := new HashBits(e.path, e.length, 0);
    var head := FromBits(path, consumed);
    if head.Err? {
      return Err(MaxDepth);
    }
    var idx := FromBits(path, bitWidth);
    if idx.Err? {
      return Err(MaxDepth);
    }
    var left := e.length - head.value.length - idx.value.length;
    var tail := FromBits(path, if left < 0 then left + U32_WRAP else left);
    if tail.Err? {
      return Err(MaxDepth);
    }
    return Ok((head.value, idx.value, tail.value));
  }

  /** Appends the bits of an extension, `bitWidth` at a time. */
  method Append(builder: ExtensionBuilder, e: Extension, bitWidth: nat) returns (r: Result<(), IpldError>)
    requires builder.Valid() && WellFormed(e)
    modifies builder
    ensures builder.Valid()
    ensures 1 <= bitWidth <= 8 ==> r.Ok?
    ensures r.Ok? ==> builder.bits == old(builder.bits) + ExtBits(e)
  {
    var path := new HashBits(e.path, e.length, 0);
    var left: nat := e.length;
    assert builder.bits + BitsOf(e.path, 0, 0) == builder.bits;
    while left > 0
      invariant left <= e.length && path.Valid() && fresh(path) && builder.Valid()
      invariant path.b == e.path && path.length == e.length && path.consumed == e.length - left
      invariant builder.bits == old(builder.bits) + BitsOf(e.path, 0, e.length - left)
    {
      var i := Min(bitWidth, left);
      var moved := MoveOn(path, builder, i, old(builder.bits));
      if moved.Err? {
        return Err(moved.error);
      }
      left := left - i;
    }
    return Ok(());
  }

  /** Moves bits that are there behind those that were moved before. */
  method MoveOn(path: HashBits, builder: ExtensionBuilder, i: nat, ghost bits: seq<bool>) returns (r: Result<(), IpldError>)
    requires path.Valid() && builder.Valid() && path.consumed + i <= path.length
    requires builder.bits == bits + BitsOf(path.b, 0, path.consumed)
    modifies path, builder
    ensures path.Valid() && builder.Valid() && (r.Ok? <==> 1 <= i <= 8)
    ensures r.Ok? ==> path.consumed == old(path.consumed) + i && builder.bits == bits + BitsOf(path.b, 0, path.consumed)
  {
    Onward(bits, path.b, path.consumed, i);
    r := Move(path, builder, i);
  }

  lemma Onward(bits: seq<bool>, b: seq<Byte>, at: nat, i: nat)
    requires at + i <= 8 * |b|
    ensures (bits + BitsOf(b, 0, at)) + BitsOf(b, at, i) == bits + BitsOf(b, 0, at + i)
  {
    BitsConcat(b, 0, at, i);
    BoolsAssociate(bits, BitsOf(b, 0, at), BitsOf(b, at, i));
  }

  lemma BoolsAssociate(a: seq<bool>, b: seq<bool>, c: seq<bool>)
    ensures (a + b) + c == a + (b + c)
  {
  }

  /** `Extension::unsplit`. */
  method Unsplit(e1: Extension, idx: Extension, e2: Extension) returns (r: Result<Extension, IpldError>)
    requires WellFormed(e1) && WellFormed(idx) && WellFormed(e2)
    ensures 1 <= idx.length <= 8 ==> r.Ok?
    ensures r.Ok? ==> WellFormed(r.value) && ExtBits(r.value) == ExtBits(e1) + ExtBits(idx) + ExtBits(e2)
  {
    var builder := new ExtensionBuilder();
    var added := Append(builder, e1, idx.length);
    if added.Ok? {
      added := Append(builder, idx, idx.length);
    }
    if added.Ok? {
      added := Append(builder, e2, idx.length);
    }
    if added.Err? {
      return Err(added.error);
    }
    assert builder.bits == ExtBits(e1) + ExtBits(idx) + ExtBits(e2);
    var e := builder.Build();
    return Ok(e);
  }

  /** Putting together what was split gives back the same extension, byte for byte. */
  method SplitAndUnsplit(e: Extension, consumed: nat, bitWidth: nat) returns (r: Result<Extension, IpldError>)
    requires WellFormed(e) && 1 <= bitWidth <= 8 && consumed + bitWidth <= e.length
    ensures r == Ok(e)
  {
    var parts := Split(e, consumed, bitWidth);
    if parts.Err? {
      return Err(MaxDepth);
    }
    var (head, idx, tail) := parts.value;
    r := Unsplit(head, idx, tail);
    PartsJoin(e, head, idx, tail);
    ExtUnique(r.value, e);
  }

  lemma PartsJoin(e: Extension, head: Extension, idx: Extension, tail: Extension)
    requires WellFormed(e) && head.length + idx.length + tail.length == e.length <= 8 * |e.path|
    requires head.length <= 8 * |head.path| && idx.length <= 8 * |idx.path| && tail.length <= 8 * |tail.path|
    requires ExtBits(head) == BitsOf(e.path, 0, head.length) && ExtBits(idx) == BitsOf(e.path, head.length, idx.length)
    requires ExtBits(tail) == BitsOf(e.path, head.length + idx.length, tail.length)
    ensures ExtBits(head) + ExtBits(idx) + ExtBits(tail) == ExtBits(e)
  {
    ThreeParts(e.path, 0, head.length, idx.length, tail.length);
  }

  // ---------------------------------------------------------------- matching, a slot's worth of bits at a time

  /** `n` is a multiple of the bit width. */
  predicate Multiple(bitWidth: nat, n: nat) {
    n == 0 || (1 <= bitWidth <= n && Multiple(bitWidth, n - bitWidth))
  }

  /** How many levels `n` bits skip: `n / bitWidth`. */
  function Levels(bitWidth: nat, n: nat): nat {
    if bitWidth == 0 || n < bitWidth then 0 else 1 + Levels(bitWidth, n - bitWidth)
  }

  lemma {:induction false} MultipleLess(bitWidth: nat, k: nat, n: nat)
    requires Multiple(bitWidth, k) && Multiple(bitWidth, n) && k < n
    ensures 1 <= bitWidth && k + bitWidth <= n && Multiple(bitWidth, n - k - bitWidth)
    ensures Levels(bitWidth, n) == Levels(bitWidth, k) + 1 + Levels(bitWidth, n - k - bitWidth)
    decreases k
  {
    if k > 0 {
      MultipleLess(bitWidth, k - bitWidth, n - bitWidth);
    }
  }

  lemma {:induction false} MultipleNext(bitWidth: nat, k: nat)
    requires Multiple(bitWidth, k) && bitWidth >= 1
    ensures Multiple(bitWidth, k + bitWidth)
  {
  }

  lemma SameDigitSameBits(a: seq<Byte>, p: nat, b: seq<Byte>, q: nat, n: nat)
    requires p + n <= 8 * |a| && q + n <= 8 * |b|
    ensures Digit(a, p, n) == Digit(b, q, n) <==> BitsOf(a, p, n) == BitsOf(b, q, n)
  {
    SpellDigit(a, p, n);
    SpellDigit(b, q, n);
    NumDigit(a, p, n);
    NumDigit(b, q, n);
  }

  /** One more slot's worth of bits matches. */
  lemma MatchGrows(a: seq<Byte>, p: nat, b: seq<Byte>, q: nat, k: nat, n: nat)
    requires p + k + n <= 8 * |a| && q + k + n <= 8 * |b|
    requires BitsOf(a, p, k) == BitsOf(b, q, k) && Digit(a, p + k, n) == Digit(b, q + k, n)
    ensures BitsOf(a, p, k + n) == BitsOf(b, q, k + n)
  {
    SameDigitSameBits(a, p + k, b, q + k, n);
    BitsConcat(a, p, k, n);
    BitsConcat(b, q, k, n);
  }

  /** `longest_match`: how many bits of the extension the key has, taking them from the key. */
  method LongestMatch(e: Extension, hb: HashBits, bitWidth: nat) returns (r: Result<nat, IpldError>)
    requires WellFormed(e) && hb.Valid() && 1 <= bitWidth <= 8 && Multiple(bitWidth, e.length)
    requires hb.consumed + e.length <= hb.length
    modifies hb
    ensures r.Ok? && hb.Valid() && r.value <= e.length && Multiple(bitWidth, r.value)
    ensures hb.consumed == old(hb.consumed) + r.value
    ensures BitsOf(hb.b, old(hb.consumed), r.value) == BitsOf(e.path, 0, r.value)
    ensures r.value < e.length ==> r.value + bitWidth <= e.length
                                   && Digit(hb.b, hb.consumed, bitWidth) != Digit(e.path, r.value, bitWidth)
  {
    var path := new HashBits(e.path, e.length, 0);
    var matched: nat := 0;
    ghost var from := hb.consumed;
    while matched < e.length
      invariant matched <= e.length && Multiple(bitWidth, matched) && hb.Valid() && path.Valid() && fresh(path)
      invariant hb.consumed == from + matched && path.consumed == matched && path.b == e.path && path.length == e.length
      invariant BitsOf(hb.b, from, matched) == BitsOf(e.path, 0, matched)
      decreases e.length - matched
    {
      MultipleLess(bitWidth, matched, e.length);
      MultipleNext(bitWidth, matched);
      var same := MatchNext(hb, path, bitWidth, from);
      if same.Err? {
        return Err(MaxDepth);
      }
      if !same.value {
        break;
      }
      matched := matched + bitWidth;
    }
    return Ok(matched);
  }

  /** One turn of the loop: the bits read from `from` on and all of the path so far are the same. */
  method MatchNext(hb: HashBits, path: HashBits, bitWidth: nat, ghost from: nat) returns (r: Result<bool, IpldError>)
    requires hb != path && hb.Valid() && path.Valid() && 1 <= bitWidth <= 8 && hb.consumed == from + path.consumed
    requires hb.consumed + bitWidth <= hb.length && path.consumed + bitWidth <= path.length
    requires BitsOf(hb.b, from, path.consumed) == BitsOf(path.b, 0, path.consumed)
    modifies hb, path
    ensures r.Ok? && hb.Valid() && path.Valid() && path.consumed == old(path.consumed) + bitWidth
    ensures hb.consumed == if r.value then old(hb.consumed) + bitWidth else old(hb.consumed)
    ensures r.value ==> BitsOf(hb.b, from, path.consumed) == BitsOf(path.b, 0, path.consumed)
    ensures !r.value ==> Digit(hb.b, hb.consumed, bitWidth) != Digit(path.b, old(path.consumed), bitWidth)
  {
    r := NextSame(hb, path, bitWidth);
    if r.value {
      MatchGrows(hb.b, from, path.b, 0, old(path.consumed), bitWidth);
    }
  }

  /** Whether the next slot of the key is that of the path; if not, nothing is taken from the key. */
  method NextSame(hb: HashBits, path: HashBits, bitWidth: nat) returns (r: Result<bool, IpldError>)
    requires hb != path && hb.Valid() && path.Valid() && 1 <= bitWidth <= 8
    requires hb.consumed + bitWidth <= hb.length && path.consumed + bitWidth <= path.length
    modifies hb, path
    ensures r.Ok? && hb.Valid() && path.Valid() && path.consumed == old(path.consumed) + bitWidth
    ensures r.value <==> Digit(hb.b, old(hb.consumed), bitWidth) == Digit(path.b, old(path.consumed), bitWidth)
    ensures hb.consumed == if r.value then old(hb.consumed) + bitWidth else old(hb.consumed)
  {
    var consumed := hb.consumed;
    var n1 := hb.Next(bitWidth);
    var n2 := path.Next(bitWidth);
    if n1.Err? || n2.Err? {
      return Err(MaxDepth);
    }
    if n1.value != n2.value {
      hb.consumed := consumed;
    }
    return Ok(n1.value == n2.value);
  }

  /** All keys have the bits of `e` from bit `p` on. */
  ghost predicate AllHave(hashes: seq<seq<Byte>>, p: nat, bits: seq<bool>) {
    forall i :: 0 <= i < |hashes| ==> p + |bits| <= 8 * |hashes[i]| && BitsOf(hashes[i], p, |bits|) == bits
  }

  /** The next slot of every key in the bucket is `n`, or else it is not. */
  method AllNext(hashes: seq<seq<Byte>>, at: nat, length: nat, bitWidth: nat, n: nat) returns (r: Result<bool, IpldError>)
    requires forall i :: 0 <= i < |hashes| ==> length <= 8 * |hashes[i]|
    requires 1 <= bitWidth <= 8 && at < length
    ensures r.Ok?
    ensures r.value <==> forall i :: 0 <= i < |hashes| ==> Digit(hashes[i], at, Min(bitWidth, length - at)) == n
  {
    var i := 0;
    while i < |hashes|
      invariant i <= |hashes|
      invariant forall j :: 0 <= j < i ==> Digit(hashes[j], at, Min(bitWidth, length - at)) == n
    {
      var h := new HashBits(hashes[i], length, at);
      var nh := h.Next(bitWidth);
      if nh.Err? {
        return Err(MaxDepth);
      }
      if nh.value != n {
        return Ok(false);
      }
      i := i + 1;
    }
    return Ok(true);
  }

  lemma AllMatchGrows(hashes: seq<seq<Byte>>, key: seq<Byte>, p: nat, k: nat, n: nat)
    requires p + k + n <= 8 * |key| && forall i :: 0 <= i < |hashes| ==> |hashes[i]| == |key|
    requires AllHave(hashes, p, BitsOf(key, p, k))
    requires forall i :: 0 <= i < |hashes| ==> Digit(hashes[i], p + k, n) == Digit(key, p + k, n)
    ensures AllHave(hashes, p, BitsOf(key, p, k + n))
  {
    forall i | 0 <= i < |hashes| ensures BitsOf(hashes[i], p, k + n) == BitsOf(key, p, k + n) {
      MatchGrows(hashes[i], p, key, p, k, n);
    }
  }

  /** Some key of the bucket has another next slot. */
  ghost predicate Parts(hashes: seq<seq<Byte>>, key: seq<Byte>, at: nat, n: nat)
    requires at + n <= 8 * |key| && forall i :: 0 <= i < |hashes| ==> |hashes[i]| == |key|
  {
    exists i :: 0 <= i < |hashes| && Digit(hashes[i], at, n) != Digit(key, at, n)
  }

  /** The keys of a bucket are as long as `key`, and `other` is different from bit `from` on. */
  ghost predicate Differs(hashes: seq<seq<Byte>>, key: seq<Byte>, from: nat, other: nat) {
    && (forall i :: 0 <= i < |hashes| ==> |hashes[i]| == |key|)
    && from <= 8 * |key| && other < |hashes|
    && BitsOf(hashes[other], from, 8 * |key| - from) != BitsOf(key, from, 8 * |key| - from)
  }

  /** What all have in common leaves something over. */
  lemma PartsLater(hashes: seq<seq<Byte>>, key: seq<Byte>, from: nat, other: nat, k: nat)
    requires Differs(hashes, key, from, other) && from + k <= 8 * |key| && AllHave(hashes, from, BitsOf(key, from, k))
    ensures from + k < 8 * |key|
  {
    assert BitsOf(hashes[other], from, k) == BitsOf(key, from, k);
  }

  lemma CommonGrows(hashes: seq<seq<Byte>>, key: seq<Byte>, from: nat, other: nat, k: nat, n: nat)
    requires Differs(hashes, key, from, other) && from + k + n <= 8 * |key| && AllHave(hashes, from, BitsOf(key, from, k))
    requires !Parts(hashes, key, from + k, n)
    ensures from + k + n < 8 * |key| && AllHave(hashes, from, BitsOf(key, from, k + n))
  {
    AllMatchGrows(hashes, key, from, k, n);
    PartsLater(hashes, key, from, other, k + n);
  }

  /** One slot's worth of bits, of the key and of all keys of the bucket. */
  method PrefixStep(hb: HashBits, bitWidth: nat, hashes: seq<seq<Byte>>, ghost other: nat, ghost from: nat, ghost k: nat)
    returns (r: Result<Option<nat>, IpldError>)
    requires hb.Valid() && hb.length == 8 * |hb.b| && 1 <= bitWidth <= 8 && Differs(hashes, hb.b, from, other)
    requires hb.consumed == from + k < hb.length && AllHave(hashes, from, BitsOf(hb.b, from, k))
    modifies hb
    ensures r.Ok? && hb.Valid()
    ensures r.value.None? ==> hb.consumed == old(hb.consumed)
                              && Parts(hashes, hb.b, hb.consumed, Min(bitWidth, hb.length - hb.consumed))
    ensures r.value.Some? ==> hb.consumed == old(hb.consumed) + bitWidth < hb.length
                              && r.value.value == Digit(hb.b, old(hb.consumed), bitWidth)
                              && AllHave(hashes, from, BitsOf(hb.b, from, k + bitWidth))
  {
    var consumed := hb.consumed;
    var n := hb.Next(bitWidth);
    if n.Err? {
      return Err(MaxDepth);
    }
    var all := AllNext(hashes, consumed, hb.length, bitWidth, n.value);
    if all.Err? {
      return Err(MaxDepth);
    }
    if !all.value {
      hb.consumed := consumed;
      return Ok(None);
    }
    CommonGrows(hashes, hb.b, from, other, k, Min(bitWidth, hb.length - consumed));
    return Ok(Some(n.value));
  }

  method AddDigit(builder: ExtensionBuilder, i: nat, n: nat, ghost b: seq<Byte>, ghost from: nat, ghost k: nat)
    requires builder.Valid() && 1 <= i <= 8 && from + k + i <= 8 * |b| && n == Digit(b, from + k, i)
    requires builder.bits == BitsOf(b, from, k)
    modifies builder
    ensures builder.Valid() && builder.bits == BitsOf(b, from, k + i)
  {
    SpellDigit(b, from + k, i);
    BitsConcat(b, from, k, i);
    builder.Add(i, n);
  }

  /** One turn of the loop: a slot that all have in common goes to the builder. */
  method PrefixNext(hb: HashBits, builder: ExtensionBuilder, bitWidth: nat, hashes: seq<seq<Byte>>, ghost other: nat,
                    ghost from: nat, ghost k: nat)
    returns (r: Result<bool, IpldError>)
    requires hb.Valid() && hb.length == 8 * |hb.b| && 1 <= bitWidth <= 8 && Differs(hashes, hb.b, from, other)
    requires hb.consumed == from + k < hb.length && AllHave(hashes, from, BitsOf(hb.b, from, k))
    requires builder.Valid() && builder.bits == BitsOf(hb.b, from, k)
    modifies hb, builder
    ensures r.Ok? && hb.Valid() && builder.Valid()
    ensures !r.value ==> hb.consumed == old(hb.consumed) && builder.bits == old(builder.bits)
                         && Parts(hashes, hb.b, hb.consumed, Min(bitWidth, hb.length - hb.consumed))
    ensures r.value ==> hb.consumed == from + k + bitWidth < hb.length && builder.bits == BitsOf(hb.b, from, k + bitWidth)
                        && AllHave(hashes, from, BitsOf(hb.b, from, k + bitWidth))
  {
    var n := PrefixStep(hb, bitWidth, hashes, other, from, k);
    if n.Err? {
      return Err(MaxDepth);
    }
    if n.value.None? {
      return Ok(false);
    }
    AddDigit(builder, bitWidth, n.value.value, hb.b, from, k);
    return Ok(true);
  }

  /** `longest_common_prefix` of a key and the keys of a bucket, one of which, `other`, is different in
      what is left. The extension is what all have in common; in the next slot they part. */
  method LongestCommonPrefix(hb: HashBits, bitWidth: nat, hashes: seq<seq<Byte>>, ghost other: nat)
    returns (r: Result<Extension, IpldError>)
    requires hb.Valid() && hb.length == 8 * |hb.b| && 1 <= bitWidth <= 8 && Differs(hashes, hb.b, hb.consumed, other)
    modifies hb
    ensures r.Ok? && hb.Valid() && WellFormed(r.value) && Multiple(bitWidth, r.value.length)
    ensures hb.consumed == old(hb.consumed) + r.value.length < hb.length
    ensures ExtBits(r.value) == BitsOf(hb.b, old(hb.consumed), r.value.length)
    ensures AllHave(hashes, old(hb.consumed), ExtBits(r.value))
    ensures Parts(hashes, hb.b, hb.consumed, Min(bitWidth, hb.length - hb.consumed))
  {
    var builder := new ExtensionBuilder();
    ghost var from := hb.consumed;
    ghost var k: nat := 0;
    assert BitsOf(hb.b, from, 0) == [];
    PartsLater(hashes, hb.b, from, other, 0);
    while hb.consumed < hb.length
      invariant hb.Valid() && builder.Valid() && fresh(builder)
      invariant hb.consumed == from + k < hb.length && Multiple(bitWidth, k)
      invariant builder.bits == BitsOf(hb.b, from, k) && AllHave(hashes, from, BitsOf(hb.b, from, k))
      decreases hb.length - hb.consumed
    {
      MultipleNext(bitWidth, k);
      var more := PrefixNext(hb, builder, bitWidth, hashes, other, from, k);
      if more.Err? {
        return Err(MaxDepth);
      }
      if !more.value {
        break;
      }
      k := k + bitWidth;
    }
    var e := builder.Build();
    return Ok(e);
  }
}
