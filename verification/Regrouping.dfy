/** Regrouping bytes into zero-padded 5-bit words and back, after section "Segwit address format" of BIP-173. */
module Regrouping {
  import opened Wrappers
  import opened Bech32m

  // ---- Numbers and bits ----

  ghost function Exp2(n: nat): nat {
    if n == 0 then 1 else 2 * Exp2(n - 1)
  }

  /** The low bits of a number, most significant first. */
  function BitsOf(n: nat, width: nat): (bits: seq<bool>)
    ensures |bits| == width
  {
    if width == 0 then [] else BitsOf(n / 2, width - 1) + [n % 2 == 1]
  }

  function NumberOf(bits: seq<bool>): nat {
    if bits == [] then 0
    else 2 * NumberOf(bits[..|bits| - 1]) + if bits[|bits| - 1] then 1 else 0
  }

  lemma {:induction false} NumberOfBitsOf(n: nat, width: nat)
    requires n < Exp2(width)
    ensures NumberOf(BitsOf(n, width)) == n
  {
    if width > 0 {
      NumberOfBitsOf(n / 2, width - 1);
      assert BitsOf(n, width)[..width - 1] == BitsOf(n / 2, width - 1);
    }
  }

  lemma {:induction false} BitsOfNumberOf(bits: seq<bool>)
    ensures NumberOf(bits) < Exp2(|bits|)
    ensures BitsOf(NumberOf(bits), |bits|) == bits
  {
    if bits != [] {
      var init := bits[..|bits| - 1];
      BitsOfNumberOf(init);
      assert bits == init + [bits[|bits| - 1]];
    }
  }

  function ByteBits(b: Byte): (bits: seq<bool>)
    ensures |bits| == 8
  {
    BitsOf(b, 8)
  }

  lemma Exp2Of8()
    ensures Exp2(8) == 256
  {
    assert Exp2(2) == 4 && Exp2(4) == 16 && Exp2(6) == 64;
  }

  function ByteOf(bits: seq<bool>): Byte
    requires |bits| == 8
  {
    BitsOfNumberOf(bits);
    Exp2Of8();
    NumberOf(bits)
  }

  function WordBits(w: Word): (bits: seq<bool>)
    ensures |bits| == 5
  {
    [w & 16 != 0, w & 8 != 0, w & 4 != 0, w & 2 != 0, w & 1 != 0]
  }

  /** The word of up to five bits, padded with zeros on the right. */
  function WordOfBits(bits: seq<bool>): Word
    requires |bits| <= 5
  {
    (if |bits| > 0 && bits[0] then 16 else 0) | (if |bits| > 1 && bits[1] then 8 else 0)
    | (if |bits| > 2 && bits[2] then 4 else 0) | (if |bits| > 3 && bits[3] then 2 else 0)
    | (if |bits| > 4 && bits[4] then 1 else 0)
  }

  ghost function Falses(n: nat): seq<bool> {
    seq(n, _ => false)
  }

  lemma FromBools(a: bool, b: bool, c: bool, d: bool, e: bool)
    ensures var w: Word := (if a then 16 else 0) | (if b then 8 else 0) | (if c then 4 else 0)
                           | (if d then 2 else 0) | (if e then 1 else 0);
            (w & 16 != 0) == a && (w & 8 != 0) == b && (w & 4 != 0) == c && (w & 2 != 0) == d && (w & 1 != 0) == e
  {
  }

  lemma WordBitsOfBits(bits: seq<bool>)
    requires |bits| <= 5
    ensures WordBits(WordOfBits(bits)) == bits + Falses(5 - |bits|)
  {
    FromBools(|bits| > 0 && bits[0], |bits| > 1 && bits[1], |bits| > 2 && bits[2], |bits| > 3 && bits[3], |bits| > 4 && bits[4]);
  }

  lemma WordBitsInjective(v: Word, w: Word)
    requires WordBits(v) == WordBits(w)
    ensures v == w
  {
    assert WordBits(v)[0] == WordBits(w)[0] && WordBits(v)[1] == WordBits(w)[1] && WordBits(v)[2] == WordBits(w)[2];
    assert WordBits(v)[3] == WordBits(w)[3] && WordBits(v)[4] == WordBits(w)[4];
    SameBits(v, w);
  }

  lemma SameBits(v: Word, w: Word)
    requires (v & 16 != 0) == (w & 16 != 0) && (v & 8 != 0) == (w & 8 != 0) && (v & 4 != 0) == (w & 4 != 0)
    requires (v & 2 != 0) == (w & 2 != 0) && (v & 1 != 0) == (w & 1 != 0)
    ensures v == w
  {
  }

  // ---- Sequences ----

  function BytesBits(bytes: seq<Byte>): (bits: seq<bool>)
    ensures |bits| == 8 * |bytes|
  {
    if bytes == [] then [] else ByteBits(bytes[0]) + BytesBits(bytes[1..])
  }

  function WordsBits(ws: seq<Word>): (bits: seq<bool>)
    ensures |bits| == 5 * |ws|
  {
    if ws == [] then [] else WordBits(ws[0]) + WordsBits(ws[1..])
  }

  function PackWords(bits: seq<bool>): seq<Word> {
    if bits == [] then []
    else if |bits| <= 5 then [WordOfBits(bits)]
    else [WordOfBits(bits[..5])] + PackWords(bits[5..])
  }

  function PackBytes(bits: seq<bool>): seq<Byte>
    requires |bits| % 8 == 0
  {
    if bits == [] then [] else [ByteOf(bits[..8])] + PackBytes(bits[8..])
  }

  /** The bytes' bits in 5-bit words, the last one padded with zeros. */
  function ToWords(bytes: seq<Byte>): seq<Word> {
    PackWords(BytesBits(bytes))
  }

  /** The words' bits in bytes; what is left over must be fewer than five bits, all zero. */
  function FromWords(ws: seq<Word>): Result<seq<Byte>, string> {
    var bits := WordsBits(ws);
    var rest := |bits| % 8;
    if rest >= 5 then Err("excess padding")
    else if true in bits[|bits| - rest..] then Err("non-zero padding")
    else
      WholeBytes(|bits|);
      Ok(PackBytes(bits[..|bits| - rest]))
  }

  lemma WholeBytes(n: nat)
    ensures n % 8 <= n && (n - n % 8) % 8 == 0
  {
  }

  lemma {:induction false} PackBytesBits(bytes: seq<Byte>)
    ensures PackBytes(BytesBits(bytes)) == bytes
  {
    hide ByteBits, ByteOf;
    if bytes != [] {
      PackBytesBits(bytes[1..]);
      ByteReadsBack(bytes[0]);
      assert BytesBits(bytes)[..8] == ByteBits(bytes[0]) && BytesBits(bytes)[8..] == BytesBits(bytes[1..]);
    }
  }

  lemma ByteReadsBack(b: Byte)
    ensures ByteOf(ByteBits(b)) == b
  {
    Exp2Of8();
    NumberOfBitsOf(b, 8);
  }

  lemma ByteBitsOfByte(bits: seq<bool>)
    requires |bits| == 8
    ensures ByteBits(ByteOf(bits)) == bits
  {
    BitsOfNumberOf(bits);
  }

  lemma {:induction false} BytesBitsOfPacked(bits: seq<bool>)
    requires |bits| % 8 == 0
    ensures BytesBits(PackBytes(bits)) == bits
  {
    hide ByteBits, ByteOf;
    if bits != [] {
      ByteBitsOfByte(bits[..8]);
      BytesBitsOfPacked(bits[8..]);
      assert PackBytes(bits)[1..] == PackBytes(bits[8..]);
      assert bits == bits[..8] + bits[8..];
    }
  }

  /** Packing keeps the bits and adds fewer than five zeros. */
  lemma {:induction false} WordsBitsOfPacked(bits: seq<bool>)
    ensures |bits| <= 5 * |PackWords(bits)| < |bits| + 5
    ensures WordsBits(PackWords(bits)) == bits + Falses(5 * |PackWords(bits)| - |bits|)
  {
    hide WordBits, WordOfBits;
    if |bits| > 5 {
      WordsBitsOfPacked(bits[5..]);
      WordBitsOfBits(bits[..5]);
      assert PackWords(bits)[1..] == PackWords(bits[5..]);
      assert bits == bits[..5] + bits[5..];
    } else if bits != [] {
      WordBitsOfBits(bits);
      assert PackWords(bits)[1..] == [];
    }
  }

  lemma {:induction false} WordsBitsInjective(us: seq<Word>, vs: seq<Word>)
    requires |us| == |vs| && WordsBits(us) == WordsBits(vs)
    ensures us == vs
  {
    hide WordBits;
    if us != [] {
      assert WordsBits(us)[..5] == WordBits(us[0]) && WordsBits(vs)[..5] == WordBits(vs[0]);
      assert WordsBits(us)[5..] == WordsBits(us[1..]) && WordsBits(vs)[5..] == WordsBits(vs[1..]);
      WordBitsInjective(us[0], vs[0]);
      WordsBitsInjective(us[1..], vs[1..]);
      assert us == [us[0]] + us[1..] && vs == [vs[0]] + vs[1..];
    }
  }

  lemma FromWordsToWords(bytes: seq<Byte>)
    ensures FromWords(ToWords(bytes)) == Ok(bytes)
  {
    hide BytesBits, WordsBits, PackWords, PackBytes;
    var bits, ws := BytesBits(bytes), ToWords(bytes);
    WordsBitsOfPacked(bits);
    var all := WordsBits(ws);
    var pad := |all| - |bits|;
    assert |all| % 8 == pad;
    assert all[|all| - pad..] == Falses(pad) && all[..|all| - pad] == bits;
    PackBytesBits(bytes);
  }

  lemma ToWordsFromWords(ws: seq<Word>)
    requires FromWords(ws).Ok?
    ensures ToWords(FromWords(ws).value) == ws
  {
    hide BytesBits, WordsBits, PackWords, PackBytes;
    var all := WordsBits(ws);
    var rest := |all| % 8;
    var bits := all[..|all| - rest];
    BytesBitsOfPacked(bits);
    WordsBitsOfPacked(bits);
    var tail := all[|all| - rest..];
    forall i | 0 <= i < rest ensures tail[i] == Falses(rest)[i] {
      assert tail[i] in tail;
    }
    assert tail == Falses(rest);
    assert all == bits + Falses(rest);
    WordsBitsInjective(PackWords(bits), ws);
  }

  lemma ToWordsLength(bytes: seq<Byte>)
    ensures |ToWords(bytes)| == (8 * |bytes| + 4) / 5
  {
    WordsBitsOfPacked(BytesBits(bytes));
  }

  // ---- Bit by bit ----

  const WEIGHTS: seq<nat> := [128, 64, 32, 16, 8, 4, 2, 1]

  /** The j-th bit of a byte counts from the most significant one. */
  predicate BitOfByte(b: Byte, j: nat)
    requires j < 8
  {
    b / WEIGHTS[j] % 2 == 1
  }

  /** The j-th bit of a word counts from the most significant of its five. */
  predicate BitOfWord(w: Word, j: nat)
    requires j < 5
  {
    w as int / WEIGHTS[3 + j] % 2 == 1
  }

  lemma ByteBitsAre(b: Byte)
    ensures ByteBits(b) == [b / 128 % 2 == 1, b / 64 % 2 == 1, b / 32 % 2 == 1, b / 16 % 2 == 1,
                            b / 8 % 2 == 1, b / 4 % 2 == 1, b / 2 % 2 == 1, b % 2 == 1]
  {
    hide BitsOf;
    BitsOfFour(b / 16);
    assert b / 16 / 8 == b / 128 && b / 16 / 4 == b / 64 && b / 16 / 2 == b / 32;
    BitsOfFourMore(b, 4);
  }

  lemma BitsOfFour(n: nat)
    ensures BitsOf(n, 4) == [n / 8 % 2 == 1, n / 4 % 2 == 1, n / 2 % 2 == 1, n % 2 == 1]
  {
    BitsOfFourMore(n, 0);
  }

  lemma BitsOfFourMore(n: nat, width: nat)
    ensures BitsOf(n, width + 4) == BitsOf(n / 16, width) + [n / 8 % 2 == 1, n / 4 % 2 == 1, n / 2 % 2 == 1, n % 2 == 1]
  {
    assert n / 2 / 2 == n / 4 && n / 4 / 2 == n / 8 && n / 8 / 2 == n / 16;
    assert BitsOf(n / 8, width + 1) == BitsOf(n / 16, width) + [n / 8 % 2 == 1];
    assert BitsOf(n / 4, width + 2) == BitsOf(n / 8, width + 1) + [n / 4 % 2 == 1];
    assert BitsOf(n / 2, width + 3) == BitsOf(n / 4, width + 2) + [n / 2 % 2 == 1];
  }

  lemma ByteBitAt(b: Byte, j: nat)
    requires j < 8
    ensures ByteBits(b)[j] == BitOfByte(b, j)
  {
    hide ByteBits;
    ByteBitsAre(b);
  }

  lemma WordBitAt(w: Word, j: nat)
    requires j < 5
    ensures WordBits(w)[j] == BitOfWord(w, j)
  {
  }

  lemma {:induction false} BytesBitAt(bytes: seq<Byte>, i: nat)
    requires i < 8 * |bytes|
    ensures BytesBits(bytes)[i] == BitOfByte(bytes[i / 8], i % 8)
  {
    hide ByteBits, BitOfByte;
    if i < 8 {
      ByteBitAt(bytes[0], i);
    } else {
      BytesBitAt(bytes[1..], i - 8);
      assert (i - 8) / 8 == i / 8 - 1 && (i - 8) % 8 == i % 8;
    }
  }

  lemma {:induction false} WordsBitAt(ws: seq<Word>, i: nat)
    requires i < 5 * |ws|
    ensures WordsBits(ws)[i] == BitOfWord(ws[i / 5], i % 5)
  {
    hide WordBits, BitOfWord;
    if i < 5 {
      WordBitAt(ws[0], i);
    } else {
      WordsBitAt(ws[1..], i - 5);
      assert (i - 5) / 5 == i / 5 - 1 && (i - 5) % 5 == i % 5;
    }
  }

  /** The i-th bit of the words is the i-th bit of the bytes, most significant first in both, and zero behind them. */
  lemma RegroupingKeepsBits(bytes: seq<Byte>, i: nat)
    requires i < 5 * |ToWords(bytes)|
    ensures BitOfWord(ToWords(bytes)[i / 5], i % 5) <==> i < 8 * |bytes| && BitOfByte(bytes[i / 8], i % 8)
  {
    hide BytesBits, WordsBits, PackWords, BitOfWord, BitOfByte;
    WordsBitAt(ToWords(bytes), i);
    WordsBitsOfPacked(BytesBits(bytes));
    if i < 8 * |bytes| {
      BytesBitAt(bytes, i);
    }
  }
}
