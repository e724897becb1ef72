/** Bech32m strings: the character set, the checksum over GF(2) and the string format, after section "Bech32" of BIP-173
    and section "Bech32m" of BIP-350. */
module Bech32m {
  import opened Wrappers

  type Byte = n: int | 0 <= n < 256
  type Word = bv5

  // ---- Characters ----

  /** The data characters, by 5-bit value, in groups of eight. */
  function CharOf(w: Word): char {
    if w < 8 then CharBelow8(w) else if w < 16 then CharBelow16(w) else if w < 24 then CharBelow24(w) else CharBelow32(w)
  }

  function CharBelow8(w: Word): char {
    if w == 0 then 'q' else if w == 1 then 'p' else if w == 2 then 'z' else if w == 3 then 'r'
    else if w == 4 then 'y' else if w == 5 then '9' else if w == 6 then 'x' else '8'
  }

  function CharBelow16(w: Word): char {
    if w == 8 then 'g' else if w == 9 then 'f' else if w == 10 then '2' else if w == 11 then 't'
    else if w == 12 then 'v' else if w == 13 then 'd' else if w == 14 then 'w' else '0'
  }

  function CharBelow24(w: Word): char {
    if w == 16 then 's' else if w == 17 then '3' else if w == 18 then 'j' else if w == 19 then 'n'
    else if w == 20 then '5' else if w == 21 then '4' else if w == 22 then 'k' else 'h'
  }

  function CharBelow32(w: Word): char {
    if w == 24 then 'c' else if w == 25 then 'e' else if w == 26 then '6' else if w == 27 then 'm'
    else if w == 28 then 'u' else if w == 29 then 'a' else if w == 30 then '7' else 'l'
  }

  function WordOf(c: char): (r: Result<Word, string>)
    ensures r.Ok? ==> CharOf(r.value) == c
  {
    match c
    case 'q' => Ok(0) case 'p' => Ok(1) case 'z' => Ok(2) case 'r' => Ok(3)
    case 'y' => Ok(4) case '9' => Ok(5) case 'x' => Ok(6) case '8' => Ok(7)
    case 'g' => Ok(8) case 'f' => Ok(9) case '2' => Ok(10) case 't' => Ok(11)
    case 'v' => Ok(12) case 'd' => Ok(13) case 'w' => Ok(14) case '0' => Ok(15)
    case 's' => Ok(16) case '3' => Ok(17) case 'j' => Ok(18) case 'n' => Ok(19)
    case '5' => Ok(20) case '4' => Ok(21) case 'k' => Ok(22) case 'h' => Ok(23)
    case 'c' => Ok(24) case 'e' => Ok(25) case '6' => Ok(26) case 'm' => Ok(27)
    case 'u' => Ok(28) case 'a' => Ok(29) case '7' => Ok(30) case 'l' => Ok(31)
    case _ => Err("unknown character")
  }

  function LowerChar(c: char): char {
    if 'A' <= c <= 'Z' then c + 32 as char else c
  }

  function UpperChar(c: char): char {
    if 'a' <= c <= 'z' then c - 32 as char else c
  }

  function Lower(s: string): (r: string)
    ensures |r| == |s|
  {
    seq(|s|, i requires 0 <= i < |s| => LowerChar(s[i]))
  }

  function Upper(s: string): (r: string)
    ensures |r| == |s|
  {
    seq(|s|, i requires 0 <= i < |s| => UpperChar(s[i]))
  }

  lemma CharBelow8ReadsBack(w: Word)
    requires w < 8
    ensures WordOf(CharBelow8(w)) == Ok(w)
  {
  }

  lemma CharBelow16ReadsBack(w: Word)
    requires 8 <= w < 16
    ensures WordOf(CharBelow16(w)) == Ok(w)
  {
  }

  lemma CharBelow24ReadsBack(w: Word)
    requires 16 <= w < 24
    ensures WordOf(CharBelow24(w)) == Ok(w)
  {
  }

  lemma CharBelow32ReadsBack(w: Word)
    requires 24 <= w
    ensures WordOf(CharBelow32(w)) == Ok(w)
  {
  }

  /** Every data character reads back as its word. */
  lemma CharOfReadsBack(w: Word)
    ensures WordOf(CharOf(w)) == Ok(w)
  {
    hide CharBelow8, CharBelow16, CharBelow24, CharBelow32, WordOf;
    if w < 8 {
      CharBelow8ReadsBack(w);
    } else if w < 16 {
      CharBelow16ReadsBack(w);
    } else if w < 24 {
      CharBelow24ReadsBack(w);
    } else {
      CharBelow32ReadsBack(w);
    }
  }

  /** Every data character is lower-case and is not the separator. */
  lemma CharOfIsPlain(w: Word)
    ensures CharOf(w) != '1' && LowerChar(CharOf(w)) == CharOf(w)
  {
  }

  function WordsOf(s: string): (r: Result<seq<Word>, string>)
    ensures r.Ok? ==> |r.value| == |s| && forall i :: 0 <= i < |s| ==> CharOf(r.value[i]) == s[i]
  {
    if s == [] then Ok([])
    else
      var w := WordOf(s[0]);
      var rest := WordsOf(s[1..]);
      if w.Err? then Err(w.error) else if rest.Err? then rest else Ok([w.value] + rest.value)
  }

  function CharsOf(ws: seq<Word>): (s: string)
    ensures |s| == |ws|
  {
    seq(|ws|, i requires 0 <= i < |ws| => CharOf(ws[i]))
  }

  lemma CharsOfIsPlain(ws: seq<Word>)
    ensures '1' !in CharsOf(ws) && Lower(CharsOf(ws)) == CharsOf(ws)
  {
    hide CharOf, LowerChar;
    forall i | 0 <= i < |ws| ensures CharOf(ws[i]) != '1' && LowerChar(CharOf(ws[i])) == CharOf(ws[i]) {
      CharOfIsPlain(ws[i]);
    }
    assert Lower(CharsOf(ws)) == CharsOf(ws);
  }

  lemma {:induction false} WordsOfCharsOf(ws: seq<Word>)
    ensures WordsOf(CharsOf(ws)) == Ok(ws)
  {
    hide CharOf, WordOf;
    if ws != [] {
      CharOfReadsBack(ws[0]);
      WordsOfCharsOf(ws[1..]);
      assert CharsOf(ws)[1..] == CharsOf(ws[1..]) && ws == [ws[0]] + ws[1..];
    }
  }

  // ---- The checksum register ----

  /** The 30-bit checksum register. */
  type Register = bv32

  predicate Fits(c: Register) {
    c < 0x40000000
  }

  /** The generator constant for one of the five bits that leave the register. */
  function Feedback(c: Register, bit: Register, generator: Register): Register {
    if c & bit != 0 then generator else 0
  }

  function Shifted(c: Register): Register {
    (c & 0x1ffffff) << 5
  }

  function Reduced1(c: Register): Register { Shifted(c) ^ Feedback(c, 0x02000000, 0x3b6a57b2) }
  function Reduced2(c: Register): Register { Reduced1(c) ^ Feedback(c, 0x04000000, 0x26508e6d) }
  function Reduced3(c: Register): Register { Reduced2(c) ^ Feedback(c, 0x08000000, 0x1ea119fa) }
  function Reduced4(c: Register): Register { Reduced3(c) ^ Feedback(c, 0x10000000, 0x3d4233dd) }

  /** Multiplies the register by x and reduces it by the generator polynomial. */
  function PolymodStep(c: Register): Register {
    Reduced4(c) ^ Feedback(c, 0x20000000, 0x2a1462b3)
  }

  lemma FeedbackLinear(a: Register, b: Register, bit: Register, g: Register)
    requires ((a ^ b) & bit != 0) == ((a & bit != 0) != (b & bit != 0))
    ensures Feedback(a ^ b, bit, g) == Feedback(a, bit, g) ^ Feedback(b, bit, g)
  {
    assert g ^ g == 0 && g ^ 0 == g && 0 ^ g == g;
  }

  lemma ShiftedLinear(a: Register, b: Register)
    ensures Shifted(a ^ b) == Shifted(a) ^ Shifted(b)
  {
  }

  lemma Reduced1Linear(a: Register, b: Register)
    ensures Reduced1(a ^ b) == Reduced1(a) ^ Reduced1(b)
  {
    hide Feedback, Shifted;
    FeedbackLinear(a, b, 0x02000000, 0x3b6a57b2);
    ShiftedLinear(a, b);
  }

  lemma Reduced2Linear(a: Register, b: Register)
    ensures Reduced2(a ^ b) == Reduced2(a) ^ Reduced2(b)
  {
    hide Feedback, Reduced1;
    FeedbackLinear(a, b, 0x04000000, 0x26508e6d);
    Reduced1Linear(a, b);
  }

  lemma Reduced3Linear(a: Register, b: Register)
    ensures Reduced3(a ^ b) == Reduced3(a) ^ Reduced3(b)
  {
    hide Feedback, Reduced2;
    FeedbackLinear(a, b, 0x08000000, 0x1ea119fa);
    Reduced2Linear(a, b);
  }

  lemma Reduced4Linear(a: Register, b: Register)
    ensures Reduced4(a ^ b) == Reduced4(a) ^ Reduced4(b)
  {
    hide Feedback, Reduced3;
    FeedbackLinear(a, b, 0x10000000, 0x3d4233dd);
    Reduced3Linear(a, b);
  }

  /** The step is linear over GF(2). */
  lemma PolymodStepLinear(a: Register, b: Register)
    ensures PolymodStep(a ^ b) == PolymodStep(a) ^ PolymodStep(b)
  {
    hide Feedback, Reduced4;
    FeedbackLinear(a, b, 0x20000000, 0x2a1462b3);
    Reduced4Linear(a, b);
  }

  lemma PolymodStepNonZero(d: Register)
    requires Fits(d) && d != 0
    ensures PolymodStep(d) != 0
  {
  }

  /** While the top five bits are clear the step is a plain shift. */
  lemma PolymodStepShifts(c: Register)
    requires c < 0x2000000
    ensures PolymodStep(c) == c << 5
  {
  }

  function Absorb(c: Register, w: Word): (r: Register)
    ensures Fits(r)
  {
    PolymodFits(c, w);
    PolymodStep(c) ^ (w as bv32)
  }

  lemma PolymodFits(c: Register, w: Word)
    ensures Fits(PolymodStep(c) ^ (w as bv32))
  {
  }

  /** One step is injective in the register, whatever word is absorbed. */
  lemma AbsorbInjective(a: Register, b: Register, w: Word)
    requires Fits(a) && Fits(b) && Absorb(a, w) == Absorb(b, w)
    ensures a == b
  {
    hide PolymodStep, Fits;
    CancelWord(PolymodStep(a), PolymodStep(b), w as bv32);
    PolymodStepInjective(a, b);
  }

  lemma PolymodStepInjective(a: Register, b: Register)
    requires Fits(a) && Fits(b) && PolymodStep(a) == PolymodStep(b)
    ensures a == b
  {
    hide PolymodStep, Fits, Plus;
    PlusIsZero(a, b);
    PlusIsZero(PolymodStep(a), PolymodStep(b));
    PolymodPlus(a, b);
    if Plus(a, b) != 0 {
      PolymodStepNonZero(Plus(a, b));
    }
  }

  lemma PlusIsZero(a: Register, b: Register)
    ensures Plus(a, b) == 0 <==> a == b
    ensures Fits(a) && Fits(b) ==> Fits(Plus(a, b))
  {
  }

  lemma PolymodPlus(a: Register, b: Register)
    ensures PolymodStep(Plus(a, b)) == Plus(PolymodStep(a), PolymodStep(b))
  {
    hide PolymodStep;
    PolymodStepLinear(a, b);
  }

  lemma CancelWord(x: Register, y: Register, w: Register)
    requires x ^ w == y ^ w
    ensures x ^ y == 0 && x == y
  {
  }

  // ---- Absorbing sequences of words ----

  function Feed(c: Register, ws: seq<Word>): Register
    decreases |ws|
  {
    if ws == [] then c else Feed(Absorb(c, ws[0]), ws[1..])
  }

  ghost function Zeros(n: nat): seq<Word> {
    seq(n, _ => 0)
  }

  lemma {:induction false} FeedFits(c: Register, ws: seq<Word>)
    requires Fits(c)
    ensures Fits(Feed(c, ws))
    decreases |ws|
  {
    hide PolymodStep;
    if ws != [] {
      FeedFits(Absorb(c, ws[0]), ws[1..]);
    }
  }

  lemma {:induction false} FeedConcat(c: Register, us: seq<Word>, vs: seq<Word>)
    ensures Feed(c, us + vs) == Feed(Feed(c, us), vs)
    decreases |us|
  {
    hide PolymodStep;
    if us == [] {
      assert us + vs == vs;
    } else {
      assert (us + vs)[1..] == us[1..] + vs;
      FeedConcat(Absorb(c, us[0]), us[1..], vs);
    }
  }

  /** Different registers stay different however many equal words follow. */
  lemma {:induction false} FeedInjective(a: Register, b: Register, ws: seq<Word>)
    requires Fits(a) && Fits(b) && Feed(a, ws) == Feed(b, ws)
    ensures a == b
    decreases |ws|
  {
    hide PolymodStep, Absorb;
    if ws != [] {
      FeedInjective(Absorb(a, ws[0]), Absorb(b, ws[0]), ws[1..]);
      AbsorbInjective(a, b, ws[0]);
    }
  }

  /** Addition in GF(2). */
  function Plus(a: Register, b: Register): Register {
    a ^ b
  }

  lemma XorRegroups(x: Register, y: Register, z: Register, w: Register)
    requires x == y ^ z
    ensures x ^ w == (y ^ 0) ^ (z ^ w)
  {
  }

  lemma AbsorbXor(a: Register, b: Register, w: Word)
    ensures Absorb(a ^ b, w) == Absorb(a, 0) ^ Absorb(b, w)
  {
    hide PolymodStep;
    PolymodStepLinear(a, b);
    XorRegroups(PolymodStep(a ^ b), PolymodStep(a), PolymodStep(b), w as bv32);
  }

  lemma AbsorbLinear(a: Register, b: Register, w: Word)
    ensures Absorb(Plus(a, b), w) == Plus(Absorb(a, 0), Absorb(b, w))
  {
    hide Absorb;
    AbsorbXor(a, b, w);
  }

  /** A register's contribution and the absorbed words' contribution add up. */
  lemma {:induction false} FeedLinear(a: Register, b: Register, ws: seq<Word>)
    ensures Feed(Plus(a, b), ws) == Plus(Feed(a, Zeros(|ws|)), Feed(b, ws))
    decreases |ws|
  {
    hide PolymodStep, Absorb, Plus;
    if ws != [] {
      var zeros := Zeros(|ws|);
      AbsorbLinear(a, b, ws[0]);
      FeedLinear(Absorb(a, 0), Absorb(b, ws[0]), ws[1..]);
      assert zeros[0] == 0 && zeros[1..] == Zeros(|ws[1..]|);
    }
  }

  /** The exclusive upper bound of an empty register after `n` words, for at most six words. */
  ghost function Bound(n: nat): Register
    requires n <= 6
  {
    match n
    case 0 => 1
    case 1 => 0x20
    case 2 => 0x400
    case 3 => 0x8000
    case 4 => 0x100000
    case 5 => 0x2000000
    case 6 => 0x40000000
  }

  lemma FeedSnoc(c: Register, ws: seq<Word>)
    requires ws != []
    ensures Feed(c, ws) == Absorb(Feed(c, ws[..|ws| - 1]), ws[|ws| - 1])
  {
    hide PolymodStep, Absorb;
    var init, last := ws[..|ws| - 1], [ws[|ws| - 1]];
    assert ws == init + last;
    FeedConcat(c, init, last);
    assert Feed(Feed(c, init), last) == Feed(Absorb(Feed(c, init), last[0]), last[1..]);
  }

  ghost predicate Below(c: Register, n: nat)
    requires n <= 6
  {
    c < Bound(n)
  }

  function Appended(c: Register, w: Word): Register {
    (c << 5) ^ (w as bv32)
  }

  lemma AbsorbAppends(c: Register, w: Word)
    requires c < 0x2000000
    ensures Absorb(c, w) == Appended(c, w)
  {
    PolymodStepShifts(c);
  }

  lemma AppendedBound(c: Register, w: Word, n: nat)
    requires n <= 5 && Below(c, n)
    ensures c < 0x2000000 && Below(Appended(c, w), n + 1)
  {
  }

  /** A word absorbed by a register of at most five words is appended to it. */
  lemma ShortAbsorb(c: Register, w: Word, n: nat)
    requires n <= 5 && Below(c, n)
    ensures c < 0x2000000 && Absorb(c, w) == Appended(c, w) && Below(Appended(c, w), n + 1)
  {
    hide Absorb, Appended, Below;
    AppendedBound(c, w, n);
    AbsorbAppends(c, w);
  }

  lemma AppendedInjective(c: Register, d: Register, v: Word, w: Word)
    requires c < 0x2000000 && d < 0x2000000 && Appended(c, v) == Appended(d, w)
    ensures c == d && v == w
  {
  }

  /** From an empty register, up to six words are stored side by side. */
  lemma {:induction false} ShortFeedBound(ws: seq<Word>)
    requires |ws| <= 6
    ensures Below(Feed(0, ws), |ws|)
  {
    if ws != [] {
      hide PolymodStep, Absorb, Below, Appended;
      var init, last := ws[..|ws| - 1], ws[|ws| - 1];
      ShortFeedBound(init);
      FeedSnoc(0, ws);
      ShortAbsorb(Feed(0, init), last, |init|);
    }
  }

  /** Up to six words can be read off a register that started empty. */
  lemma {:induction false} ShortFeedInjective(us: seq<Word>, vs: seq<Word>)
    requires |us| == |vs| <= 6 && Feed(0, us) == Feed(0, vs)
    ensures us == vs
  {
    hide PolymodStep, Absorb, Below, Appended;
    if us != [] {
      var i := |us| - 1;
      FeedSnoc(0, us);
      FeedSnoc(0, vs);
      ShortFeedBound(us[..i]);
      ShortFeedBound(vs[..i]);
      ShortAbsorb(Feed(0, us[..i]), us[i], i);
      ShortAbsorb(Feed(0, vs[..i]), vs[i], i);
      AppendedInjective(Feed(0, us[..i]), Feed(0, vs[..i]), us[i], vs[i]);
      ShortFeedInjective(us[..i], vs[..i]);
      assert us == us[..i] + [us[i]] && vs == vs[..i] + [vs[i]];
    }
  }

  lemma PlusCancels(a: Register, b: Register, c: Register)
    requires Plus(a, b) == Plus(a, c)
    ensures b == c
  {
  }

  /** What absorbing words adds to a register does not depend on the register. */
  lemma FeedFromAnyRegister(c: Register, ws: seq<Word>)
    ensures Feed(c, ws) == Plus(Feed(c, Zeros(|ws|)), Feed(0, ws))
  {
    hide PolymodStep, Absorb, Feed;
    FeedLinear(c, 0, ws);
    assert Plus(c, 0) == c;
  }

  lemma ShortFeedsDiffer(c: Register, us: seq<Word>, vs: seq<Word>)
    requires |us| == |vs| <= 6 && Feed(c, us) == Feed(c, vs)
    ensures us == vs
  {
    hide PolymodStep, Absorb, Feed, Plus;
    FeedFromAnyRegister(c, us);
    FeedFromAnyRegister(c, vs);
    PlusCancels(Feed(c, Zeros(|us|)), Feed(0, us), Feed(0, vs));
    ShortFeedInjective(us, vs);
  }

  /** Burst detection: two word sequences that differ only within six consecutive words leave different registers,
      at any length and from any register. */
  lemma BurstChangesRegister(c: Register, head: seq<Word>, us: seq<Word>, vs: seq<Word>, tail: seq<Word>)
    requires Fits(c) && |us| == |vs| <= 6 && us != vs
    ensures Feed(c, head + us + tail) != Feed(c, head + vs + tail)
  {
    hide PolymodStep, Absorb, Feed, Fits;
    var d := Feed(c, head);
    FeedConcat(c, head + us, tail);
    FeedConcat(c, head + vs, tail);
    FeedConcat(c, head, us);
    FeedConcat(c, head, vs);
    FeedFits(c, head);
    FeedFits(d, us);
    FeedFits(d, vs);
    if Feed(c, head + us + tail) == Feed(c, head + vs + tail) {
      FeedInjective(Feed(d, us), Feed(d, vs), tail);
      ShortFeedsDiffer(d, us, vs);
    }
  }

  // ---- The six checksum words ----

  const CHECKSUM_CONSTANT: Register := 0x2bc830a3

  /** The six words whose side-by-side value is the register. */
  function Unpacked(c: Register): (ws: seq<Word>)
    ensures |ws| == 6
  {
    [((c >> 25) & 31) as bv5, ((c >> 20) & 31) as bv5, ((c >> 15) & 31) as bv5,
     ((c >> 10) & 31) as bv5, ((c >> 5) & 31) as bv5, (c & 31) as bv5]
  }

  /** The words that complete a register to the Bech32m constant. */
  function Checksum(c: Register): (ws: seq<Word>)
    ensures |ws| == 6
  {
    Unpacked(Plus(Feed(c, [0, 0, 0, 0, 0, 0]), CHECKSUM_CONSTANT))
  }

  function Packed(u: Word, v: Word, w: Word, x: Word, y: Word, z: Word): Register {
    Appended(Appended(Appended(Appended(Appended(Appended(0, u), v), w), x), y), z)
  }

  lemma UnpackedPacks(c: Register)
    requires Fits(c)
    ensures var ws := Unpacked(c); Packed(ws[0], ws[1], ws[2], ws[3], ws[4], ws[5]) == c
  {
  }

  /** Appending one word after at most five. */
  lemma FeedAppends(ws: seq<Word>, w: Word)
    requires |ws| <= 5
    ensures Feed(0, ws + [w]) == Appended(Feed(0, ws), w)
  {
    hide PolymodStep, Absorb, Feed, Appended, Below;
    ShortFeedBound(ws);
    ShortAbsorb(Feed(0, ws), w, |ws|);
    FeedSnoc(0, ws + [w]);
    assert (ws + [w])[..|ws|] == ws;
  }

  lemma FeedNothing(c: Register)
    ensures Feed(c, []) == c
  {
  }

  lemma FeedPacks(ws: seq<Word>)
    requires |ws| == 6
    ensures Feed(0, ws) == Packed(ws[0], ws[1], ws[2], ws[3], ws[4], ws[5])
  {
    hide PolymodStep, Absorb, Appended, Feed;
    assert Feed(0, ws[..0]) == 0 by { FeedNothing(0); assert ws[..0] == []; }
    FeedAppends(ws[..0], ws[0]);
    FeedAppends(ws[..1], ws[1]);
    FeedAppends(ws[..2], ws[2]);
    FeedAppends(ws[..3], ws[3]);
    FeedAppends(ws[..4], ws[4]);
    FeedAppends(ws[..5], ws[5]);
    assert ws[..0] + [ws[0]] == ws[..1] && ws[..1] + [ws[1]] == ws[..2] && ws[..2] + [ws[2]] == ws[..3];
    assert ws[..3] + [ws[3]] == ws[..4] && ws[..4] + [ws[4]] == ws[..5] && ws[..5] + [ws[5]] == ws;
  }

  lemma PlusTwice(a: Register, b: Register)
    ensures Plus(a, Plus(a, b)) == b
  {
  }

  lemma PlusFits(a: Register)
    requires Fits(a)
    ensures Fits(Plus(a, CHECKSUM_CONSTANT))
  {
  }

  /** Absorbing the checksum words always ends in the Bech32m constant. */
  lemma ChecksumCompletes(c: Register)
    requires Fits(c)
    ensures Feed(c, Checksum(c)) == 0x2bc830a3
  {
    hide PolymodStep, Absorb, Feed, Plus, Fits, Unpacked, Packed;
    var f := Feed(c, [0, 0, 0, 0, 0, 0]);
    var v := Checksum(c);
    FeedFits(c, [0, 0, 0, 0, 0, 0]);
    PlusFits(f);
    assert Zeros(6) == [0, 0, 0, 0, 0, 0];
    FeedFromAnyRegister(c, v);
    FeedPacks(v);
    UnpackedPacks(Plus(f, CHECKSUM_CONSTANT));
    PlusTwice(f, CHECKSUM_CONSTANT);
  }

  /** No other six words do. */
  lemma ChecksumUnique(c: Register, ws: seq<Word>)
    requires Fits(c) && |ws| == 6 && Feed(c, ws) == CHECKSUM_CONSTANT
    ensures ws == Checksum(c)
  {
    hide PolymodStep, Absorb, Feed, Unpacked, Plus;
    ChecksumCompletes(c);
    ShortFeedsDiffer(c, ws, Checksum(c));
  }

  // ---- Strings ----

  predicate PrefixChar(c: char) {
    '!' <= c <= '~'
  }

  predicate ValidPrefix(prefix: string) {
    forall i :: 0 <= i < |prefix| ==> PrefixChar(prefix[i])
  }

  /** The prefix as words: the high bits of every character, a zero, the low bits of every character. */
  function Expanded(prefix: string): seq<Word> {
    seq(|prefix|, i requires 0 <= i < |prefix| => HighBits(prefix[i]))
    + [0]
    + seq(|prefix|, i requires 0 <= i < |prefix| => LowBits(prefix[i]))
  }

  function HighBits(c: char): Word {
    (c as int / 32 % 32) as bv5
  }

  function LowBits(c: char): Word {
    (c as int % 32) as bv5
  }

  function PrefixRegister(prefix: string): (c: Register)
    ensures Fits(c)
  {
    FeedFits(1, Expanded(prefix));
    Feed(1, Expanded(prefix))
  }

  /** The position of the last separator, or -1. */
  function LastSeparator(s: string): (r: int)
    ensures -1 <= r < |s|
    ensures r >= 0 ==> s[r] == '1'
    ensures forall i :: r < i < |s| ==> s[i] != '1'
  {
    if s == [] then -1
    else if s[|s| - 1] == '1' then |s| - 1
    else LastSeparator(s[..|s| - 1])
  }

  function Encode(prefix: string, words: seq<Word>, limit: nat): Result<string, string> {
    if |prefix| + 7 + |words| > limit then Err("exceeds length limit")
    else
      var p := Lower(prefix);
      if !ValidPrefix(p) then Err("invalid prefix")
      else Ok(p + "1" + CharsOf(words + Checksum(Feed(PrefixRegister(p), words))))
  }

  function Decode(s: string, limit: nat): Result<(string, seq<Word>), string> {
    if |s| < 8 then Err("too short")
    else if |s| > limit then Err("exceeds length limit")
    else if s != Lower(s) && s != Upper(s) then Err("mixed-case string")
    else DecodeLowered(Lower(s))
  }

  function DecodeLowered(str: string): Result<(string, seq<Word>), string> {
    var split := LastSeparator(str);
    if split == -1 then Err("no separator character")
    else if split == 0 then Err("missing prefix")
    else
      var prefix, data := str[..split], str[split + 1..];
      if |data| < 6 then Err("data too short")
      else if !ValidPrefix(prefix) then Err("invalid prefix")
      else
        var words := WordsOf(data);
        if words.Err? then Err(words.error)
        else if Feed(PrefixRegister(prefix), words.value) != CHECKSUM_CONSTANT then Err("invalid checksum")
        else Ok((prefix, words.value[..|data| - 6]))
  }

  lemma {:induction false} LastSeparatorAt(head: string, data: string)
    requires '1' !in data
    ensures LastSeparator(head + "1" + data) == |head|
  {
    if data == [] {
      assert head + "1" + data == head + "1";
    } else {
      var init := data[..|data| - 1];
      LastSeparatorAt(head, init);
      assert (head + "1" + data)[..|head| + |data|] == head + "1" + init;
    }
  }

  lemma LowerTwice(s: string)
    ensures Lower(Lower(s)) == Lower(s)
  {
  }

  lemma LowerConcat(a: string, b: string)
    ensures Lower(a + b) == Lower(a) + Lower(b)
  {
    assert Lower(a + b) == Lower(a) + Lower(b);
  }

  /** Decoding an encoded string gives back the lower-case prefix and the words. */
  lemma DecodeEncode(prefix: string, words: seq<Word>, limit: nat)
    requires prefix != "" && Encode(prefix, words, limit).Ok?
    ensures |Encode(prefix, words, limit).value| == |prefix| + 7 + |words|
    ensures Decode(Encode(prefix, words, limit).value, limit) == Ok((Lower(prefix), words))
  {
    hide Feed, Checksum, CharOf, LowerChar, Expanded;
    var p := Lower(prefix);
    var c := Feed(PrefixRegister(p), words);
    var all := words + Checksum(c);
    var s := p + "1" + CharsOf(all);
    FeedFits(PrefixRegister(p), words);
    CharsOfIsPlain(all);
    LastSeparatorAt(p, CharsOf(all));
    LowerTwice(prefix);
    LowerConcat(p + "1", CharsOf(all));
    LowerConcat(p, "1");
    assert Lower("1") == "1" by { assert LowerChar('1') == '1' by { SeparatorIsLower(); } }
    assert Lower(s) == s;
    assert s[..|p|] == p && s[|p| + 1..] == CharsOf(all);
    WordsOfCharsOf(all);
    FeedConcat(PrefixRegister(p), words, Checksum(c));
    ChecksumCompletes(c);
    assert all[..|all| - 6] == words;
  }

  lemma SeparatorIsLower()
    ensures LowerChar('1') == '1'
  {
  }

  /** The last six words of a sequence that ends in the constant are the checksum of the rest. */
  lemma ChecksumRecovered(c: Register, all: seq<Word>)
    requires Fits(c) && |all| >= 6 && Feed(c, all) == CHECKSUM_CONSTANT
    ensures all == all[..|all| - 6] + Checksum(Feed(c, all[..|all| - 6]))
  {
    hide Feed, Checksum;
    var n := |all| - 6;
    assert all == all[..n] + all[n..];
    FeedConcat(c, all[..n], all[n..]);
    FeedFits(c, all[..n]);
    ChecksumUnique(Feed(c, all[..n]), all[n..]);
  }

  lemma CharsOfWordsOf(s: string)
    requires WordsOf(s).Ok?
    ensures CharsOf(WordsOf(s).value) == s
  {
  }

  /** A decoded string is, lower-cased, the encoding of what it decodes to. */
  lemma EncodeDecode(s: string, limit: nat)
    requires Decode(s, limit).Ok?
    ensures Encode(Decode(s, limit).value.0, Decode(s, limit).value.1, limit) == Ok(Lower(s))
  {
    hide Feed, Checksum, CharOf, LowerChar, Expanded, CharsOf, WordsOf, PrefixChar;
    var str := Lower(s);
    var split := LastSeparator(str);
    var prefix, data := str[..split], str[split + 1..];
    LowerTwice(s);
    assert Lower(prefix) == prefix;
    ChecksumRecovered(PrefixRegister(prefix), WordsOf(data).value);
    CharsOfWordsOf(data);
    assert str == prefix + "1" + data;
  }

  lemma DecodeIgnoresCase(s: string, limit: nat)
    requires s == Lower(s) || s == Upper(s)
    ensures Decode(s, limit) == Decode(Lower(s), limit)
  {
    hide DecodeLowered, LowerChar, UpperChar;
    LowerTwice(s);
  }

  lemma DecodedPrefix(s: string, limit: nat)
    requires Decode(s, limit).Ok?
    ensures Decode(s, limit).value.0 != "" && Lower(Decode(s, limit).value.0) == Decode(s, limit).value.0
    ensures s == Lower(s) || s == Upper(s)
  {
    hide Feed, Checksum, WordsOf, PrefixRegister, LowerChar, UpperChar, ValidPrefix;
    LowerTwice(s);
  }

  /** A string decodes to a prefix and words exactly when it is not of mixed case and, lower-cased, is their encoding, with
      a lower-case prefix that is not empty. */
  lemma DecodeExactlyWhen(s: string, limit: nat, prefix: string, words: seq<Word>)
    ensures Decode(s, limit) == Ok((prefix, words)) <==>
            && (s == Lower(s) || s == Upper(s)) && prefix != "" && Lower(prefix) == prefix
            && Encode(prefix, words, limit) == Ok(Lower(s))
  {
    hide Decode, Encode, Lower, Upper;
    if Decode(s, limit) == Ok((prefix, words)) {
      DecodedPrefix(s, limit);
      EncodeDecode(s, limit);
    }
    if (s == Lower(s) || s == Upper(s)) && prefix != "" && Lower(prefix) == prefix && Encode(prefix, words, limit) == Ok(Lower(s)) {
      DecodeEncode(prefix, words, limit);
      DecodeIgnoresCase(s, limit);
    }
  }

  lemma CharOfInjective(v: Word, w: Word)
    requires CharOf(v) == CharOf(w)
    ensures v == w
  {
    hide CharOf, WordOf;
    CharOfReadsBack(v);
    CharOfReadsBack(w);
  }

  lemma AgreeAround<T>(xs: seq<T>, ys: seq<T>, b: nat, e: nat)
    requires |xs| == |ys| && b <= e <= |xs| && xs != ys
    requires forall i :: 0 <= i < |xs| && !(b <= i < e) ==> xs[i] == ys[i]
    ensures xs == xs[..b] + xs[b..e] + xs[e..] && ys == xs[..b] + ys[b..e] + xs[e..]
    ensures xs[b..e] != ys[b..e]
  {
    assert xs == xs[..b] + xs[b..e] + xs[e..];
    assert ys == xs[..b] + ys[b..e] + xs[e..];
  }

  lemma WordsFollowChars(data: string, data': string)
    requires |data| == |data'| && WordsOf(data).Ok? && WordsOf(data').Ok?
    ensures forall i :: 0 <= i < |data| && data[i] == data'[i] ==> WordsOf(data).value[i] == WordsOf(data').value[i]
    ensures data != data' ==> WordsOf(data).value != WordsOf(data').value
  {
    hide CharOf;
    forall i | 0 <= i < |data| && data[i] == data'[i] ensures WordsOf(data).value[i] == WordsOf(data').value[i] {
      CharOfInjective(WordsOf(data).value[i], WordsOf(data').value[i]);
    }
    CharsOfWordsOf(data);
    CharsOfWordsOf(data');
  }

  lemma BurstChangesChecksum(c: Register, data: string, data': string, b: nat)
    requires Fits(c) && |data| == |data'| && data != data' && b <= |data|
    requires WordsOf(data).Ok? && WordsOf(data').Ok?
    requires forall i :: 0 <= i < |data| && !(b <= i < b + 6) ==> data[i] == data'[i]
    ensures Feed(c, WordsOf(data).value) != Feed(c, WordsOf(data').value)
  {
    hide Feed, CharOf, Fits, WordsOf;
    var ws, ws' := WordsOf(data).value, WordsOf(data').value;
    var e := if b + 6 <= |data| then b + 6 else |data|;
    WordsFollowChars(data, data');
    AgreeAround(ws, ws', b, e);
    BurstChangesRegister(c, ws[..b], ws[b..e], ws'[b..e], ws[e..]);
  }

  /** The data part of a decodable string and its checksum. */
  lemma DecodedChecks(l: string)
    requires DecodeLowered(l).Ok?
    ensures var split := LastSeparator(l);
            && 0 < split
            && WordsOf(l[split + 1..]).Ok?
            && Feed(PrefixRegister(l[..split]), WordsOf(l[split + 1..]).value) == CHECKSUM_CONSTANT
  {
    hide Feed, PrefixRegister, ValidPrefix, WordsOf, LastSeparator;
  }

  lemma BurstBehindSeparator(l: string, l': string, split: nat, at: nat)
    requires split < at <= |l| && |l'| == |l| && l' != l
    requires forall i :: 0 <= i < |l| && !(at <= i < at + 6) ==> l'[i] == l[i]
    ensures l'[..split] == l[..split]
    ensures l[split + 1..] != l'[split + 1..]
    ensures var (data, data', b) := (l[split + 1..], l'[split + 1..], at - split - 1);
            forall i :: 0 <= i < |data| && !(b <= i < b + 6) ==> data[i] == data'[i]
  {
    assert l == l[..split] + [l[split]] + l[split + 1..];
    assert l' == l'[..split] + [l'[split]] + l'[split + 1..];
  }

  lemma BurstIsRejectedLowered(l: string, l': string, at: nat)
    requires DecodeLowered(l).Ok? && |l'| == |l| && l' != l
    requires LastSeparator(l) < at <= |l|
    requires forall i :: 0 <= i < |l| && !(at <= i < at + 6) ==> l'[i] == l[i]
    ensures DecodeLowered(l').Err? || LastSeparator(l') > LastSeparator(l)
  {
    hide Feed, PrefixRegister, WordsOf, Fits, DecodeLowered, LastSeparator;
    DecodedChecks(l);
    var split := LastSeparator(l);
    assert l'[split] == '1';
    BurstBehindSeparator(l, l', split, at);
    if DecodeLowered(l').Ok? && LastSeparator(l') == split {
      DecodedChecks(l');
      BurstChangesChecksum(PrefixRegister(l[..split]), l[split + 1..], l'[split + 1..], at - split - 1);
    }
  }

  /** A string that agrees with a decodable one outside six consecutive data characters, and is not a mere change of
      case, is rejected unless its last separator moved. */
  lemma BurstIsRejected(s: string, s': string, limit: nat, at: nat)
    requires Decode(s, limit).Ok? && |s'| == |s| && Lower(s') != Lower(s)
    requires LastSeparator(Lower(s)) < at <= |s|
    requires forall i :: 0 <= i < |s| && !(at <= i < at + 6) ==> s'[i] == s[i]
    ensures Decode(s', limit).Err? || LastSeparator(Lower(s')) > LastSeparator(Lower(s))
  {
    hide DecodeLowered, LowerChar;
    BurstIsRejectedLowered(Lower(s), Lower(s'), at);
  }
}
