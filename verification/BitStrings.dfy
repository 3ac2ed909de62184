/** Reading an MSB-first bit string a few bits at a time (`HashBits` of the HAMT and of the KAMT).
    Bytes are numbers below 256; `x & mkmask(n)` is `x % 2^n` and `x >> n` is `x / 2^n`. */
module BitStrings {
  import opened Common

  type Byte = x: int | 0 <= x < 256

  function Pow2(n: nat): (r: nat)
    ensures r >= 1
  {
    if n == 0 then 1 else 2 * Pow2(n - 1)
  }

  /** Bit `p` of `b`, most significant bit of each byte first. */
  function Bit(b: seq<Byte>, p: nat): (r: nat)
    requires p < 8 * |b|
    ensures r < 2
  {
    (b[p / 8] / Pow2(7 - p % 8)) % 2
  }

  /** The number written by the `n` bits of `b` that start at bit `p`. */
  function Digit(b: seq<Byte>, p: nat, n: nat): (r: nat)
    requires p + n <= 8 * |b|
    ensures r < Pow2(n)
  {
    if n == 0 then 0 else 2 * Digit(b, p, n - 1) + Bit(b, p + n - 1)
  }

  /** The first `p` bits of two keys are the same. */
  ghost predicate Agree(a: seq<Byte>, b: seq<Byte>, p: nat) {
    8 * |a| >= p && 8 * |b| >= p && forall q :: 0 <= q < p ==> Bit(a, q) == Bit(b, q)
  }

  lemma Pow2Table()
    ensures Pow2(0) == 1 && Pow2(1) == 2 && Pow2(2) == 4 && Pow2(3) == 8 && Pow2(4) == 16
    ensures Pow2(5) == 32 && Pow2(6) == 64 && Pow2(7) == 128 && Pow2(8) == 256
  {
    assert Pow2(2) == 4;
    assert Pow2(4) == 16;
    assert Pow2(6) == 64;
  }

  lemma {:induction false} Pow2Add(a: nat, b: nat)
    ensures Pow2(a + b) == Pow2(a) * Pow2(b)
  {
    if b > 0 {
      Pow2Add(a, b - 1);
    }
  }

  lemma Pow2Monotone(a: nat, b: nat)
    requires a <= b
    ensures Pow2(a) <= Pow2(b)
  {
    Pow2Add(a, b - a);
    assert Pow2(a) * Pow2(b - a) >= Pow2(a);
  }

  lemma MulDistributes(d: int, a: int, b: int)
    ensures d * (a + b) == d * a + d * b
  {
  }

  lemma MulAtLeast(d: int, e: int)
    requires d > 0 && e >= 1
    ensures d * e >= d
  {
  }

  lemma DivUnique(x: int, d: int, q: int, r: int)
    requires d > 0 && x == d * q + r && 0 <= r < d
    ensures x / d == q && x % d == r
  {
    var y := x / d;
    assert x == d * y + x % d;
    MulDistributes(d, y - q, q);
    MulDistributes(d, q - y, y);
    if y > q {
      MulAtLeast(d, y - q);
    } else if y < q {
      MulAtLeast(d, q - y);
    }
  }

  lemma DivStep(x: nat, q: nat)
    requires q > 0
    ensures x / q == 2 * (x / (2 * q)) + (x / q) % 2
  {
    var y := x / q;
    var h, e := y / 2, y % 2;
    assert x == q * y + x % q;
    MulDistributes(q, 2 * h, e);
    assert q * (2 * h) == (2 * q) * h;
    assert q * e == if e == 0 then 0 else q;
    DivUnique(x, 2 * q, h, q * e + x % q);
  }

  /** Dropping high bits does not change a low bit. */
  lemma ModBit(x: nat, l: nat, k: nat)
    requires k < l
    ensures (x / Pow2(k)) % 2 == ((x % Pow2(l)) / Pow2(k)) % 2
  {
    var pk, d := Pow2(k), Pow2(l - k - 1);
    Pow2Add(k, l - k);
    ModBitAux(x, pk, d, Pow2(l));
  }

  lemma ModBitAux(x: nat, pk: nat, d: nat, pl: nat)
    requires pk > 0 && d > 0 && pl == pk * (2 * d)
    ensures pl > 0 && (x / pk) % 2 == ((x % pl) / pk) % 2
  {
    MulAtLeast(pk, 2 * d);
    var q, r := x / pl, x % pl;
    var s := r / pk;
    assert x == pl * q + r;
    assert r == pk * s + r % pk;
    assert pl * q == pk * (2 * (d * q)) by {
      MulAssoc(pk, 2 * d, q);
      MulAssoc(2, d, q);
    }
    MulDistributes(pk, 2 * (d * q), s);
    DivUnique(x, pk, 2 * (d * q) + s, r % pk);
  }

  lemma MulAssoc(a: int, b: int, c: int)
    ensures (a * b) * c == a * (b * c)
  {
  }

  /** The digit that lies inside one byte, by masking and shifting. */
  lemma {:induction false} DigitInByte(b: seq<Byte>, p: nat, n: nat)
    requires p + n <= 8 * |b| && n <= 8 - p % 8 && p < 8 * |b|
    ensures Digit(b, p, n) == (b[p / 8] % Pow2(8 - p % 8)) / Pow2(8 - p % 8 - n)
  {
    var l := 8 - p % 8;
    var x := b[p / 8] % Pow2(l);
    if n == 0 {
      DivUnique(x, Pow2(l), 0, x);
    } else {
      DigitInByte(b, p, n - 1);
      BitInByte(b, p, n);
      OneBitMore(b[p / 8], l, l - n);
    }
  }

  lemma BitInByte(b: seq<Byte>, p: nat, n: nat)
    requires p + n <= 8 * |b| && 0 < n <= 8 - p % 8
    ensures p / 8 < |b| && Bit(b, p + n - 1) == (b[p / 8] / Pow2(8 - p % 8 - n)) % 2
  {
    assert (p + n - 1) / 8 == p / 8 && (p + n - 1) % 8 == p % 8 + n - 1;
  }

  lemma OneBitMore(y: nat, l: nat, k: nat)
    requires k < l
    ensures (y % Pow2(l)) / Pow2(k) == 2 * ((y % Pow2(l)) / Pow2(k + 1)) + (y / Pow2(k)) % 2
  {
    ModBit(y, l, k);
    DivStep(y % Pow2(l), Pow2(k));
  }

  /** `x` doubled `k` times. */
  ghost function Doubled(x: nat, k: nat): nat {
    if k == 0 then x else 2 * Doubled(x, k - 1)
  }

  lemma {:induction false} DoubledIs(x: nat, k: nat)
    ensures Doubled(x, k) == x * Pow2(k)
  {
    if k > 0 {
      DoubledIs(x, k - 1);
      MulAssoc(x, 2, Pow2(k - 1));
    }
  }

  lemma {:induction false} DigitBehind(b: seq<Byte>, p: nat, n: nat, k: nat)
    requires p + n + k <= 8 * |b|
    ensures Digit(b, p, n + k) == Doubled(Digit(b, p, n), k) + Digit(b, p + n, k)
  {
    if k > 0 {
      DigitBehind(b, p, n, k - 1);
    }
  }

  lemma DigitConcat(b: seq<Byte>, p: nat, n: nat, k: nat)
    requires p + n + k <= 8 * |b|
    ensures Digit(b, p, n + k) == Digit(b, p, n) * Pow2(k) + Digit(b, p + n, k)
  {
    DigitBehind(b, p, n, k);
    DoubledIs(Digit(b, p, n), k);
  }

  /** The rest of the current byte. */
  lemma DigitToByteEnd(b: seq<Byte>, p: nat, n: nat)
    requires p + n <= 8 * |b| && n == 8 - p % 8
    ensures Digit(b, p, n) == b[p / 8] % Pow2(n)
  {
    DigitInByte(b, p, n);
    assert 8 - p % 8 - n == 0 && Pow2(0) == 1;
    DivByOne(b[p / 8] % Pow2(n));
  }

  lemma DivByOne(x: int)
    ensures x / 1 == x
  {
  }

  /** A digit that crosses into the next byte. */
  lemma DigitAcrossBytes(b: seq<Byte>, p: nat, n: nat)
    requires p + n <= 8 * |b| && n > 8 - p % 8
    ensures var l := 8 - p % 8;
            Digit(b, p, n) == (b[p / 8] % Pow2(l)) * Pow2(n - l) + Digit(b, p + l, n - l)
  {
    var l := 8 - p % 8;
    DigitToByteEnd(b, p, l);
    DigitConcat(b, p, l, n - l);
  }

  lemma {:induction false} EqualDigitsEqualBits(a: seq<Byte>, b: seq<Byte>, p: nat, n: nat, q: nat)
    requires p + n <= 8 * |a| && p + n <= 8 * |b| && p <= q < p + n
    requires Digit(a, p, n) == Digit(b, p, n)
    ensures Bit(a, q) == Bit(b, q)
  {
    LastBits(Digit(a, p, n - 1), Bit(a, p + n - 1), Digit(b, p, n - 1), Bit(b, p + n - 1));
    if q < p + n - 1 {
      EqualDigitsEqualBits(a, b, p, n - 1, q);
    }
  }

  lemma LastBits(c: nat, x: nat, d: nat, y: nat)
    requires 2 * c + x == 2 * d + y && x < 2 && y < 2
    ensures c == d && x == y
  {
  }

  lemma {:induction false} EqualBitsEqualDigits(a: seq<Byte>, b: seq<Byte>, p: nat, n: nat)
    requires p + n <= 8 * |a| && p + n <= 8 * |b|
    requires forall q :: p <= q < p + n ==> Bit(a, q) == Bit(b, q)
    ensures Digit(a, p, n) == Digit(b, p, n)
  {
    if n > 0 {
      EqualBitsEqualDigits(a, b, p, n - 1);
    }
  }

  lemma AgreeExtends(a: seq<Byte>, b: seq<Byte>, p: nat, n: nat)
    requires Agree(a, b, p) && p + n <= 8 * |a| && p + n <= 8 * |b|
    requires Digit(a, p, n) == Digit(b, p, n)
    ensures Agree(a, b, p + n)
  {
    forall q | p <= q < p + n ensures Bit(a, q) == Bit(b, q) {
      EqualDigitsEqualBits(a, b, p, n, q);
    }
  }

  lemma WholeByte(b: seq<Byte>, j: nat)
    requires j < |b|
    ensures Digit(b, 8 * j, 8) == b[j]
  {
    assert (8 * j) % 8 == 0 && (8 * j) / 8 == j;
    DigitToByteEnd(b, 8 * j, 8);
    Pow2Table();
  }

  /** Two keys of the same length that agree on every bit are the same key. */
  lemma AgreeWhole(a: seq<Byte>, b: seq<Byte>)
    requires |a| == |b| && Agree(a, b, 8 * |a|)
    ensures a == b
  {
    forall j | 0 <= j < |a| ensures a[j] == b[j] {
      EqualBitsEqualDigits(a, b, 8 * j, 8);
      WholeByte(a, j);
      WholeByte(b, j);
    }
  }

  /** A cursor over the first `length` bits of `b`. */
  class HashBits {
    const b: seq<Byte>
    const length: nat
    var consumed: nat

    ghost predicate Valid()
      reads this
    {
      length <= 8 * |b| && consumed <= length
    }

    constructor (b: seq<Byte>, length: nat, consumed: nat)
      requires length <= 8 * |b| && consumed <= length
      ensures Valid() && this.b == b && this.length == length && this.consumed == consumed
    {
      this.b, this.length, this.consumed := b, length, consumed;
    }

    /** Takes the next `i` bits, or what is left of them. */
    method Next(i: nat) returns (r: Result<nat, IpldError>)
      requires Valid()
      modifies this
      ensures Valid()
      ensures r.Err? ==> consumed == old(consumed)
      ensures r == Err(InvalidHashBitLen) <==> i == 0 || i > 8
      ensures r == Err(MaxDepth) <==> 1 <= i <= 8 && old(consumed) == length
      ensures r.Ok? <==> 1 <= i <= 8 && old(consumed) < length
      ensures r.Ok? ==>
                var n := Min(i, length - old(consumed));
                consumed == old(consumed) + n && r.value == Digit(b, old(consumed), n)
    {
      if i > 8 || i == 0 {
        return Err(InvalidHashBitLen);
      }
      if consumed >= length {
        return Err(MaxDepth);
      }
      var out := NextBits(Min(i, length - consumed));
      return Ok(out);
    }

    method NextBits(i: nat) returns (out: nat)
      requires Valid() && 1 <= i <= 8 && consumed + i <= length
      modifies this
      ensures Valid() && consumed == old(consumed) + i
      ensures out == Digit(b, old(consumed), i)
      decreases i
    {
      var leftb := 8 - consumed % 8;
      var curb := b[consumed / 8];
      if i == leftb {
        DigitToByteEnd(b, consumed, i);
        out := curb % Pow2(i);
        consumed := consumed + i;
      } else if i < leftb {
        DigitInByte(b, consumed, i);
        out := (curb % Pow2(leftb)) / Pow2(leftb - i);
        consumed := consumed + i;
      } else {
        ghost var from := consumed;
        consumed := consumed + leftb;
        var low := NextBits(i - leftb);
        DigitAcrossBytes(b, from, i);
        out := (curb % Pow2(leftb)) * Pow2(i - leftb) + low;
      }
    }
  }
}
