/** The entries of an event (`fvm/src/kernel/default.rs`): headers say how to cut one buffer of keys and
    one of values. The keys are checked to be UTF-8 all at once, and then cut only between characters. */
module Events {
  import opened Common
  import opened BitStrings
  import opened CborGrammar
  import opened Actors

  datatype Header = Header(flags: nat, codec: nat, keyLen: nat, valLen: nat)
  datatype EventEntry = EventEntry(flags: nat, key: seq<Byte>, codec: nat, value: seq<Byte>)

  const MAX_NR_ENTRIES: nat := 255
  const MAX_KEY_LEN: nat := 31
  const MAX_TOTAL_VALUES_LEN: nat := 0x2000
  /** The indexed-key and indexed-value flags together. */
  const ALL_FLAGS: nat := 3

  // ---------------------------------------------------------------- UTF-8

  predicate Continues(b: Byte) {
    0x80 <= b <= 0xBF
  }

  /** The second byte that may follow a first one: no overlong forms, no surrogates, nothing beyond the
      last code point (section 4 of RFC 3629). */
  predicate Second(first: Byte, b: Byte) {
    if first == 0xE0 then 0xA0 <= b <= 0xBF
    else if first == 0xED then 0x80 <= b <= 0x9F
    else if first == 0xF0 then 0x90 <= b <= 0xBF
    else if first == 0xF4 then 0x80 <= b <= 0x8F
    else Continues(b)
  }

  /** The length of the character that the bytes begin with; zero if they begin with none. */
  function CharLen(s: seq<Byte>): nat {
    if s == [] then 0
    else if s[0] < 0x80 then 1
    else if 0xC2 <= s[0] <= 0xDF then if |s| >= 2 && Second(s[0], s[1]) then 2 else 0
    else if 0xE0 <= s[0] <= 0xEF then if |s| >= 3 && Second(s[0], s[1]) && Continues(s[2]) then 3 else 0
    else if 0xF0 <= s[0] <= 0xF4 then
      if |s| >= 4 && Second(s[0], s[1]) && Continues(s[2]) && Continues(s[3]) then 4 else 0
    else 0
  }

  predicate Utf8(s: seq<Byte>)
    decreases |s|
  {
    s == [] || (CharLen(s) > 0 && Utf8(s[CharLen(s)..]))
  }

  /** `is_char_boundary`. */
  predicate Boundary(s: seq<Byte>, i: nat) {
    i == 0 || i == |s| || (i < |s| && !Continues(s[i]))
  }

  lemma CharInside(s: seq<Byte>, t: seq<Byte>)
    requires CharLen(s) > 0 && s[..CharLen(s)] <= t
    ensures CharLen(t) == CharLen(s) <= |s|
    ensures forall i :: 0 < i < CharLen(s) ==> Continues(s[i])
    ensures !Continues(s[0])
  {
    var n := CharLen(s);
    assert forall i :: 0 <= i < n ==> t[i] == s[..n][i] == s[i];
  }

  /** Cut between characters, both parts are UTF-8. */
  lemma {:induction false} CutBetween(s: seq<Byte>, i: nat)
    requires Utf8(s) && i <= |s| && Boundary(s, i)
    ensures Utf8(s[..i]) && Utf8(s[i..])
    decreases |s|
  {
    if i == 0 {
      assert s[..0] == [] && s[0..] == s;
    } else {
      var n := CharLen(s);
      CharInside(s, s);
      assert i >= n;
      CharInside(s, s[..i]);
      CutBetween(s[n..], i - n);
      assert s[n..][..i - n] == s[..i][n..] && s[n..][i - n..] == s[i..];
    }
  }

  lemma CutWithin(s: seq<Byte>, from: nat, to: nat)
    requires Utf8(s) && from <= to <= |s| && Boundary(s, from) && Boundary(s, to)
    ensures Utf8(s[from..to])
  {
    CutBetween(s, to);
    assert from < to ==> s[..to][from] == s[from];
    CutBetween(s[..to], from);
    assert s[..to][from..] == s[from..to];
  }

  /** UTF-8 behind UTF-8 is joined between characters. */
  lemma {:induction false} Joined(a: seq<Byte>, b: seq<Byte>)
    requires Utf8(a)
    ensures Utf8(a + b) <==> Utf8(b)
    ensures Utf8(b) ==> Boundary(a + b, |a|)
    decreases |a|
  {
    if a == [] {
      assert a + b == b;
    } else {
      var n := CharLen(a);
      CharInside(a, a + b);
      Joined(a[n..], b);
      assert (a + b)[n..] == a[n..] + b;
    }
    if Utf8(b) && b != [] {
      CharInside(b, b);
      assert (a + b)[|a|] == b[0];
    }
  }

  // ---------------------------------------------------------------- entries

  ghost function KeysOf(es: seq<EventEntry>): seq<Byte> {
    if es == [] then [] else KeysOf(es[..|es| - 1]) + es[|es| - 1].key
  }

  ghost function ValuesOf(es: seq<EventEntry>): seq<Byte> {
    if es == [] then [] else ValuesOf(es[..|es| - 1]) + es[|es| - 1].value
  }

  /** An entry as its header says, within the limits, with a key that is UTF-8 by itself. */
  ghost predicate Matches(h: Header, e: EventEntry) {
    Fits(h, e) && Utf8(e.key)
  }

  ghost predicate Fits(h: Header, e: EventEntry) {
    && e.flags == h.flags <= ALL_FLAGS && (e.codec == h.codec == IPLD_RAW || e.codec == h.codec == CBOR)
    && |e.key| == h.keyLen <= MAX_KEY_LEN && |e.value| == h.valLen
  }

  /** The entries that the buffers and headers stand for. */
  ghost predicate Stands(headers: seq<Header>, keys: seq<Byte>, values: seq<Byte>, es: seq<EventEntry>) {
    && |es| == |headers| <= MAX_NR_ENTRIES && |values| <= MAX_TOTAL_VALUES_LEN
    && (forall i :: 0 <= i < |es| ==> Matches(headers[i], es[i]))
    && KeysOf(es) == keys && ValuesOf(es) == values
  }

  lemma {:induction false} KeysSplit(es: seq<EventEntry>, n: nat)
    requires n <= |es|
    ensures KeysOf(es[..n]) <= KeysOf(es) && ValuesOf(es[..n]) <= ValuesOf(es)
    decreases |es|
  {
    if n == |es| {
      assert es[..n] == es;
    } else {
      KeysSplit(es[..|es| - 1], n);
      assert es[..|es| - 1][..n] == es[..n];
    }
  }

  lemma {:induction false} KeysAreUtf8(es: seq<EventEntry>)
    requires forall i :: 0 <= i < |es| ==> Utf8(es[i].key)
    ensures Utf8(KeysOf(es))
  {
    if es != [] {
      KeysAreUtf8(es[..|es| - 1]);
      Joined(KeysOf(es[..|es| - 1]), es[|es| - 1].key);
    }
  }

  /** What the loop checks of the next header. */
  predicate Readable(h: Header, keys: seq<Byte>, values: seq<Byte>, keyOffset: nat, valOffset: nat) {
    && h.flags <= ALL_FLAGS && h.keyLen <= MAX_KEY_LEN && h.valLen <= MAX_TOTAL_VALUES_LEN
    && keyOffset + h.keyLen <= |keys| && Boundary(keys, keyOffset) && Boundary(keys, keyOffset + h.keyLen)
    && valOffset + h.valLen <= |values| && (h.codec == IPLD_RAW || h.codec == CBOR)
  }

  function Cut(h: Header, keys: seq<Byte>, values: seq<Byte>, keyOffset: nat, valOffset: nat): EventEntry
    requires keyOffset + h.keyLen <= |keys| && valOffset + h.valLen <= |values|
  {
    EventEntry(h.flags, keys[keyOffset..keyOffset + h.keyLen], h.codec, values[valOffset..valOffset + h.valLen])
  }

  lemma PrefixBoundary(headers: seq<Header>, keys: seq<Byte>, values: seq<Byte>, es: seq<EventEntry>, n: nat)
    requires Stands(headers, keys, values, es) && n <= |es|
    ensures KeysOf(es[..n]) <= keys && ValuesOf(es[..n]) <= values && Boundary(keys, |KeysOf(es[..n])|)
  {
    forall i | 0 <= i < |es| ensures Utf8(es[i].key) {
      assert Matches(headers[i], es[i]);
    }
    KeysSplit(es, n);
    KeysAreUtf8(es);
    KeysAreUtf8(es[..n]);
    var p := KeysOf(es[..n]);
    Joined(p, keys[|p|..]);
    assert keys == p + keys[|p|..];
  }

  /** If the buffers stand for some entries, the next is there to be cut out. */
  lemma NextIsReadable(headers: seq<Header>, keys: seq<Byte>, values: seq<Byte>, es: seq<EventEntry>, n: nat)
    requires Stands(headers, keys, values, es) && n < |headers|
    ensures var k, v := |KeysOf(es[..n])|, |ValuesOf(es[..n])|;
            Readable(headers[n], keys, values, k, v) && es[n] == Cut(headers[n], keys, values, k, v)
  {
    assert Matches(headers[n], es[n]);
    PrefixBoundary(headers, keys, values, es, n);
    PrefixBoundary(headers, keys, values, es, n + 1);
    NextKey(es, n);
    ReadableFrom(headers[n], es[n], KeysOf(es[..n]), ValuesOf(es[..n]), keys, values);
  }

  lemma ReadableFrom(h: Header, e: EventEntry, a: seq<Byte>, b: seq<Byte>, keys: seq<Byte>, values: seq<Byte>)
    requires Fits(h, e) && a + e.key <= keys && b + e.value <= values && |values| <= MAX_TOTAL_VALUES_LEN
    requires Boundary(keys, |a|) && Boundary(keys, |a + e.key|)
    ensures Readable(h, keys, values, |a|, |b|) && e == Cut(h, keys, values, |a|, |b|)
  {
    CutOut(a, e.key, keys);
    CutOut(b, e.value, values);
  }

  lemma NextKey(es: seq<EventEntry>, n: nat)
    requires n < |es|
    ensures KeysOf(es[..n + 1]) == KeysOf(es[..n]) + es[n].key && ValuesOf(es[..n + 1]) == ValuesOf(es[..n]) + es[n].value
  {
    assert es[..n + 1] == es[..n] + [es[n]];
    Appends(es[..n], es[n]);
  }

  lemma CutOut(a: seq<Byte>, b: seq<Byte>, s: seq<Byte>)
    requires a + b <= s
    ensures s[|a|..|a| + |b|] == b && |a + b| == |a| + |b| <= |s|
  {
    assert s[..|a + b|] == a + b;
  }

  /** The entries read so far: they take up the buffers to the offsets, and begin all that stand for them. */
  ghost predicate Reading(headers: seq<Header>, keys: seq<Byte>, values: seq<Byte>, es: seq<EventEntry>, k: nat, v: nat) {
    && |es| <= |headers| && k <= |keys| && v <= |values| && Boundary(keys, k)
    && KeysOf(es) == keys[..k] && ValuesOf(es) == values[..v]
    && (forall i :: 0 <= i < |es| ==> Matches(headers[i], es[i]))
    && forall whole :: Stands(headers, keys, values, whole) ==> whole[..|es|] == es
  }

  lemma Appends(es: seq<EventEntry>, e: EventEntry)
    ensures KeysOf(es + [e]) == KeysOf(es) + e.key && ValuesOf(es + [e]) == ValuesOf(es) + e.value
  {
    assert (es + [e])[..|es|] == es;
  }

  lemma Longer(s: seq<Byte>, from: nat, to: nat)
    requires from <= to <= |s|
    ensures s[..from] + s[from..to] == s[..to]
  {
  }

  lemma MatchesAppend(headers: seq<Header>, es: seq<EventEntry>, e: EventEntry)
    requires |es| < |headers| && (forall i :: 0 <= i < |es| ==> Matches(headers[i], es[i])) && Matches(headers[|es|], e)
    ensures forall i :: 0 <= i < |es + [e]| ==> Matches(headers[i], (es + [e])[i])
  {
  }

  lemma CutMatches(h: Header, keys: seq<Byte>, values: seq<Byte>, k: nat, v: nat)
    requires Utf8(keys) && Readable(h, keys, values, k, v)
    ensures Matches(h, Cut(h, keys, values, k, v))
  {
    CutWithin(keys, k, k + h.keyLen);
    assert Fits(h, Cut(h, keys, values, k, v));
  }

  lemma BeginsLonger(headers: seq<Header>, keys: seq<Byte>, values: seq<Byte>, es: seq<EventEntry>, k: nat, v: nat,
                     whole: seq<EventEntry>)
    requires Reading(headers, keys, values, es, k, v) && |es| < |headers| && Stands(headers, keys, values, whole)
    requires k + headers[|es|].keyLen <= |keys| && v + headers[|es|].valLen <= |values|
    ensures whole[..|es| + 1] == es + [Cut(headers[|es|], keys, values, k, v)]
  {
    NextIsReadable(headers, keys, values, whole, |es|);
    assert whole[..|es| + 1] == whole[..|es|] + [whole[|es|]];
  }

  /** One more entry. */
  lemma ReadsOn(headers: seq<Header>, keys: seq<Byte>, values: seq<Byte>, es: seq<EventEntry>, k: nat, v: nat)
    requires Reading(headers, keys, values, es, k, v) && |es| < |headers| && Utf8(keys)
    requires Readable(headers[|es|], keys, values, k, v)
    ensures var h := headers[|es|];
            Reading(headers, keys, values, es + [Cut(h, keys, values, k, v)], k + h.keyLen, v + h.valLen)
  {
    var n, h := |es|, headers[|es|];
    var e := Cut(h, keys, values, k, v);
    Appends(es, e);
    CutMatches(h, keys, values, k, v);
    MatchesAppend(headers, es, e);
    Longer(keys, k, k + h.keyLen);
    Longer(values, v, v + h.valLen);
    forall whole | Stands(headers, keys, values, whole) ensures whole[..n + 1] == es + [e] {
      BeginsLonger(headers, keys, values, es, k, v, whole);
    }
  }

  /** Once all headers are read, the entries stand for the buffers exactly if those are used up. */
  lemma ReadAll(headers: seq<Header>, keys: seq<Byte>, values: seq<Byte>, es: seq<EventEntry>, k: nat, v: nat)
    requires Reading(headers, keys, values, es, k, v) && |es| == |headers| <= MAX_NR_ENTRIES && |values| <= MAX_TOTAL_VALUES_LEN
    ensures Stands(headers, keys, values, es) <==> k == |keys| && v == |values|
    ensures forall whole :: Stands(headers, keys, values, whole) ==> whole == es
  {
    assert keys[..|keys|] == keys && values[..|values|] == values;
    forall whole | Stands(headers, keys, values, whole) ensures whole == es {
      assert whole[..|es|] == whole;
    }
  }

  lemma OnlyUtf8(headers: seq<Header>, keys: seq<Byte>, values: seq<Byte>)
    requires !Utf8(keys)
    ensures forall es :: !Stands(headers, keys, values, es)
  {
    forall es ensures !Stands(headers, keys, values, es) {
      if Stands(headers, keys, values, es) {
        assert forall i :: 0 <= i < |es| ==> Matches(headers[i], es[i]);
        KeysAreUtf8(es);
      }
    }
  }

  /** Reads the entries: exactly if there are entries that the buffers stand for, and then those. */
  method ReadEntries(headers: seq<Header>, keys: seq<Byte>, values: seq<Byte>) returns (r: Result<seq<EventEntry>, ErrorNumber>)
    ensures r.Ok? ==> Stands(headers, keys, values, r.value)
    ensures r.Ok? <==> exists es :: Stands(headers, keys, values, es)
    ensures |headers| > MAX_NR_ENTRIES || |values| > MAX_TOTAL_VALUES_LEN ==> r == Err(LimitExceeded)
    ensures r.Err? ==> r.error in {LimitExceeded, IllegalArgument, ErrorNumber.IllegalCodec}
  {
    if |headers| > MAX_NR_ENTRIES {
      return Err(LimitExceeded);
    }
    if |values| > MAX_TOTAL_VALUES_LEN {
      return Err(LimitExceeded);
    }
    if !Utf8(keys) {
      OnlyUtf8(headers, keys, values);
      return Err(IllegalArgument);
    }
    var k: nat, v: nat, n: nat := 0, 0, 0;
    var entries: seq<EventEntry> := [];
    while n < |headers|
      invariant n == |entries| && Reading(headers, keys, values, entries, k, v)
    {
      var e := ReadEntry(headers, keys, values, k, v, entries);
      if e.Err? {
        return Err(e.error);
      }
      ReadsOn(headers, keys, values, entries, k, v);
      k, v := k + headers[n].keyLen, v + headers[n].valLen;
      entries := entries + [e.value];
      n := n + 1;
    }
    ReadAll(headers, keys, values, entries, k, v);
    if k != |keys| {
      return Err(IllegalArgument);
    }
    if v != |values| {
      return Err(IllegalArgument);
    }
    return Ok(entries);
  }

  /** One turn of the loop. */
  method ReadEntry(headers: seq<Header>, keys: seq<Byte>, values: seq<Byte>, k: nat, v: nat, entries: seq<EventEntry>)
    returns (r: Result<EventEntry, ErrorNumber>)
    requires Reading(headers, keys, values, entries, k, v) && |entries| < |headers|
    ensures r.Ok? <==> Readable(headers[|entries|], keys, values, k, v)
    ensures r.Ok? ==> r.value == Cut(headers[|entries|], keys, values, k, v)
    ensures r.Err? ==> forall es :: !Stands(headers, keys, values, es)
    ensures r.Err? ==> r.error in {LimitExceeded, IllegalArgument, ErrorNumber.IllegalCodec}
  {
    var h := headers[|entries|];
    forall es | Stands(headers, keys, values, es) ensures Readable(h, keys, values, k, v) {
      NextIsReadable(headers, keys, values, es, |entries|);
    }
    if h.flags > ALL_FLAGS {
      return Err(IllegalArgument);
    }
    if h.keyLen > MAX_KEY_LEN {
      return Err(LimitExceeded);
    }
    if h.valLen > MAX_TOTAL_VALUES_LEN {
      return Err(IllegalArgument);
    }
    if k + h.keyLen > |keys| || !Boundary(keys, k) || !Boundary(keys, k + h.keyLen) {
      return Err(IllegalArgument);
    }
    if v + h.valLen > |values| {
      return Err(IllegalArgument);
    }
    if h.codec != IPLD_RAW && h.codec != CBOR {
      return Err(ErrorNumber.IllegalCodec);
    }
    return Ok(Cut(h, keys, values, k, v));
  }
}
