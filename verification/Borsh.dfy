/** Length-prefixed encodings and why concatenated fields decode uniquely. Models crates/common_types/src/borsh.rs and
    crates/common_types/src/bytes.rs. */
module Borsh {

  newtype Byte = x: int | 0 <= x < 256

  /** A byte string short enough for its length to fit the 32-bit prefix. */
  type ByteString = b: seq<Byte> | |b| < 0x1_0000_0000

  /** An insertion-ordered map whose length fits the 64-bit prefix. */
  type Entries<!K, !V> = m: seq<(K, V)> | |m| < 0x1_0000_0000_0000_0000

  // ---- Integers ----

  function LittleEndian(n: nat, width: nat): (bytes: seq<Byte>)
    ensures |bytes| == width
  {
    if width == 0 then [] else [(n % 256) as Byte] + LittleEndian(n / 256, width - 1)
  }

  function Power256(width: nat): nat {
    if width == 0 then 1 else 256 * Power256(width - 1)
  }

  lemma {:induction false} LittleEndianInjective(m: nat, n: nat, width: nat)
    requires m < Power256(width) && n < Power256(width) && LittleEndian(m, width) == LittleEndian(n, width)
    ensures m == n
  {
    if width > 0 {
      assert LittleEndian(m, width)[1..] == LittleEndian(m / 256, width - 1);
      assert LittleEndian(n, width)[1..] == LittleEndian(n / 256, width - 1);
      LittleEndianInjective(m / 256, n / 256, width - 1);
      assert LittleEndian(m, width)[0] == LittleEndian(n, width)[0];
    }
  }

  /** The number that bytes denote, least significant first. */
  function Value(bytes: seq<Byte>): nat {
    if bytes == [] then 0 else bytes[0] as nat + 256 * Value(bytes[1..])
  }

  lemma {:induction false} LittleEndianDenotes(n: nat, width: nat)
    requires n < Power256(width)
    ensures Value(LittleEndian(n, width)) == n
  {
    if width > 0 {
      assert LittleEndian(n, width)[1..] == LittleEndian(n / 256, width - 1);
      LittleEndianDenotes(n / 256, width - 1);
    }
  }

  lemma Widths()
    ensures Power256(4) == 0x1_0000_0000 && Power256(8) == 0x1_0000_0000_0000_0000
  {
    assert Power256(2) == 65536;
    assert Power256(4) == 0x1_0000_0000;
    assert Power256(6) == 0x1_0000_0000_0000;
  }

  // ---- Unique decoding ----

  /** No encoding is a prefix of the encoding of a different value. */
  ghost predicate PrefixFree<T(!new)>(encode: T -> seq<Byte>) {
    forall a, b :: encode(a) <= encode(b) ==> a == b
  }

  /** Whatever follows a prefix-free encoding, the value and what follows can be told apart. */
  lemma DecodesUniquely<T(!new)>(encode: T -> seq<Byte>, a: T, s: seq<Byte>, b: T, t: seq<Byte>)
    requires PrefixFree(encode) && encode(a) + s == encode(b) + t
    ensures a == b && s == t
  {
    var whole := encode(a) + s;
    assert whole[..|encode(a)|] == encode(a);
    assert (encode(b) + t)[..|encode(b)|] == encode(b);
    assert encode(a) <= encode(b) || encode(b) <= encode(a);
    assert s == whole[|encode(a)|..];
    assert t == (encode(b) + t)[|encode(b)|..];
  }

  /** The entries one after the other, key before value. */
  function EncodeEntries<K, V>(m: seq<(K, V)>, key: K -> seq<Byte>, value: V -> seq<Byte>): seq<Byte> {
    if m == [] then [] else key(m[0].0) + value(m[0].1) + EncodeEntries(m[1..], key, value)
  }

  lemma {:induction false} EntriesDecodeUniquely<K(!new), V(!new)>(
    a: seq<(K, V)>, s: seq<Byte>, b: seq<(K, V)>, t: seq<Byte>, key: K -> seq<Byte>, value: V -> seq<Byte>)
    requires PrefixFree(key) && PrefixFree(value) && |a| == |b|
    requires EncodeEntries(a, key, value) + s == EncodeEntries(b, key, value) + t
    ensures a == b && s == t
  {
    hide PrefixFree;
    if a != [] {
      var restA, restB := EncodeEntries(a[1..], key, value) + s, EncodeEntries(b[1..], key, value) + t;
      assert EncodeEntries(a, key, value) + s == key(a[0].0) + (value(a[0].1) + restA);
      assert EncodeEntries(b, key, value) + t == key(b[0].0) + (value(b[0].1) + restB);
      DecodesUniquely(key, a[0].0, value(a[0].1) + restA, b[0].0, value(b[0].1) + restB);
      DecodesUniquely(value, a[0].1, restA, b[0].1, restB);
      EntriesDecodeUniquely(a[1..], s, b[1..], t, key, value);
      assert a == [a[0]] + a[1..] && b == [b[0]] + b[1..];
    } else {
      assert [] + s == s && [] + t == t;
    }
  }

  /** The whole encoding: the number of entries as a 64-bit little-endian integer, then the entries. */
  function EncodeMap<K, V>(m: Entries<K, V>, key: K -> seq<Byte>, value: V -> seq<Byte>): seq<Byte> {
    LittleEndian(|m|, 8) + EncodeEntries(m, key, value)
  }

  lemma {:induction false} EntriesConcat<K, V>(a: seq<(K, V)>, b: seq<(K, V)>, key: K -> seq<Byte>, value: V -> seq<Byte>)
    ensures EncodeEntries(a + b, key, value) == EncodeEntries(a, key, value) + EncodeEntries(b, key, value)
  {
    if a == [] {
      assert a + b == b;
    } else {
      EntriesConcat(a[1..], b, key, value);
      assert (a + b)[1..] == a[1..] + b;
    }
  }

  /** The layout: eight bytes that denote the number of entries, then each entry at its place, its key before its value. */
  lemma MapLayout<K, V>(m: Entries<K, V>, key: K -> seq<Byte>, value: V -> seq<Byte>, i: nat)
    requires i < |m|
    ensures var bytes, before := EncodeMap(m, key, value), EncodeEntries(m[..i], key, value);
            && |bytes| >= 8 && Value(bytes[..8]) == |m|
            && before + key(m[i].0) + value(m[i].1) <= bytes[8..]
  {
    hide LittleEndian, Value;
    Widths();
    LittleEndianDenotes(|m|, 8);
    assert EncodeMap(m, key, value)[..8] == LittleEndian(|m|, 8);
    assert EncodeMap(m, key, value)[8..] == EncodeEntries(m, key, value);
    assert m == m[..i] + m[i..];
    EntriesConcat(m[..i], m[i..], key, value);
    assert m[i..][0] == m[i];
    assert EncodeEntries(m[i..], key, value) == key(m[i].0) + value(m[i].1) + EncodeEntries(m[i..][1..], key, value);
  }

  /** Maps whose keys and values have prefix-free encodings decode uniquely from the front of any byte stream: entries,
      their order, and the rest of the stream. */
  lemma MapDecodesUniquely<K(!new), V(!new)>(
    a: Entries<K, V>, s: seq<Byte>, b: Entries<K, V>, t: seq<Byte>, key: K -> seq<Byte>, value: V -> seq<Byte>)
    requires PrefixFree(key) && PrefixFree(value)
    requires EncodeMap(a, key, value) + s == EncodeMap(b, key, value) + t
    ensures a == b && s == t
  {
    hide PrefixFree, LittleEndian;
    var restA, restB := EncodeEntries(a, key, value) + s, EncodeEntries(b, key, value) + t;
    assert EncodeMap(a, key, value) + s == LittleEndian(|a|, 8) + restA;
    assert EncodeMap(b, key, value) + t == LittleEndian(|b|, 8) + restB;
    SameFront(LittleEndian(|a|, 8), restA, LittleEndian(|b|, 8), restB);
    Widths();
    LittleEndianInjective(|a|, |b|, 8);
    EntriesDecodeUniquely(a, s, b, t, key, value);
  }

  lemma SameFront(x: seq<Byte>, s: seq<Byte>, y: seq<Byte>, t: seq<Byte>)
    requires |x| == |y| && x + s == y + t
    ensures x == y && s == t
  {
    assert x == (x + s)[..|x|] && y == (y + t)[..|y|];
    assert s == (x + s)[|x|..] && t == (y + t)[|y|..];
  }

  /** So a map encoding can itself be a key, a value or a field. */
  lemma MapsArePrefixFree<K(!new), V(!new)>(key: K -> seq<Byte>, value: V -> seq<Byte>)
    requires PrefixFree(key) && PrefixFree(value)
    ensures PrefixFree((m: Entries<K, V>) => EncodeMap(m, key, value))
  {
    forall a: Entries<K, V>, b: Entries<K, V> | EncodeMap(a, key, value) <= EncodeMap(b, key, value) ensures a == b {
      var rest := EncodeMap(b, key, value)[|EncodeMap(a, key, value)|..];
      assert EncodeMap(a, key, value) + rest == EncodeMap(b, key, value) + [];
      MapDecodesUniquely(a, rest, b, [], key, value);
    }
  }

  /** A byte string: its length as a 32-bit little-endian integer, then its bytes. */
  function EncodeBytes(b: ByteString): seq<Byte> {
    LittleEndian(|b|, 4) + b
  }

  /** Four bytes that denote the length, then the bytes themselves. */
  lemma BytesLayout(b: ByteString)
    ensures |EncodeBytes(b)| == 4 + |b| && Value(EncodeBytes(b)[..4]) == |b| && EncodeBytes(b)[4..] == b
  {
    hide LittleEndian, Value;
    Widths();
    LittleEndianDenotes(|b|, 4);
    assert EncodeBytes(b)[..4] == LittleEndian(|b|, 4);
  }

  lemma BytesArePrefixFree()
    ensures PrefixFree(EncodeBytes)
  {
    forall a: ByteString, b: ByteString | EncodeBytes(a) <= EncodeBytes(b) ensures a == b {
      var rest := EncodeBytes(b)[|EncodeBytes(a)|..];
      assert LittleEndian(|a|, 4) + (a + rest) == LittleEndian(|b|, 4) + b;
      SameFront(LittleEndian(|a|, 4), a + rest, LittleEndian(|b|, 4), b);
      Widths();
      LittleEndianInjective(|a|, |b|, 4);
    }
  }

  /** Maps between bounded byte strings have an injective encoding. */
  lemma ByteMapInjective(a: Entries<ByteString, ByteString>, b: Entries<ByteString, ByteString>)
    requires EncodeMap(a, EncodeBytes, EncodeBytes) == EncodeMap(b, EncodeBytes, EncodeBytes)
    ensures a == b
  {
    hide PrefixFree, LittleEndian;
    BytesArePrefixFree();
    MapDecodesUniquely(a, [], b, [], EncodeBytes, EncodeBytes);
  }

  // ---- The writer ----

  /** A byte sink that is appended to. */
  class Writer {
    var written: seq<Byte>

    constructor ()
      ensures written == []
    {
      written := [];
    }

    method Write(bytes: seq<Byte>)
      modifies this
      ensures written == old(written) + bytes
    {
      written := written + bytes;
    }
  }

  method SerializeMap<K, V>(m: Entries<K, V>, key: K -> seq<Byte>, value: V -> seq<Byte>, writer: Writer)
    modifies writer
    ensures writer.written == old(writer.written) + EncodeMap(m, key, value)
  {
    writer.Write(LittleEndian(|m|, 8));
    ghost var prefix := writer.written;
    for i := 0 to |m|
      invariant writer.written + EncodeEntries(m[i..], key, value) == prefix + EncodeEntries(m, key, value)
    {
      assert m[i..][1..] == m[i + 1..];
      writer.Write(key(m[i].0));
      writer.Write(value(m[i].1));
    }
    assert writer.written + [] == writer.written;
  }
}
