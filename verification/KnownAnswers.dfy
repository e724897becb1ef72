/** A valid string from section "Test vectors for Bech32m" of BIP-350 that uses the whole character set. It fixes the
    checksum constant, the generator, the character table and the prefix expansion by text that is not part of the model. */
module KnownAnswers {
  import opened Wrappers
  import opened Bech32m

  /** "abcdef1l7aum6echk45nj3s0wdvt2fg8x9yrzpqzd3ryx". */
  function VectorText(): string {
    "abcdef" + "1" + ("l7aum6ec" + "hk45nj3s" + "0wdvt2fg" + "8x9yrzpq" + "zd3ryx")
  }

  /** Its data: all words, in descending order. */
  function Descending(): seq<Word> {
    [31, 30, 29, 28, 27, 26, 25, 24] + [23, 22, 21, 20, 19, 18, 17, 16] + [15, 14, 13, 12, 11, 10, 9, 8] + [7, 6, 5, 4, 3, 2, 1, 0]
  }

  lemma PrefixHighBits()
    ensures HighBits('a') == 3 && HighBits('b') == 3 && HighBits('c') == 3
    ensures HighBits('d') == 3 && HighBits('e') == 3 && HighBits('f') == 3
  {
  }

  lemma PrefixLowBits()
    ensures LowBits('a') == 1 && LowBits('b') == 2 && LowBits('c') == 3
    ensures LowBits('d') == 4 && LowBits('e') == 5 && LowBits('f') == 6
  {
  }

  lemma ExpandsPrefix()
    ensures Expanded("abcdef") == [3, 3, 3, 3, 3, 3] + [0, 1, 2, 3, 4, 5, 6]
  {
    hide HighBits, LowBits;
    PrefixHighBits();
    PrefixLowBits();
  }

  lemma FeedsPrefix()
    ensures Feed(1, [3, 3, 3, 3, 3, 3]) == 0x3d5bdbd1 && Feed(0x3d5bdbd1, [0, 1, 2, 3, 4, 5, 6]) == 0x3be80e6a
  {
  }

  lemma FeedThrough(c: Register, us: seq<Word>, d: Register, vs: seq<Word>, e: Register)
    requires Feed(c, us) == d && Feed(d, vs) == e
    ensures Feed(c, us + vs) == e
  {
    FeedConcat(c, us, vs);
  }

  lemma FeedsFirstEight()
    ensures Feed(0x3be80e6a, [31, 30, 29, 28, 27, 26, 25, 24]) == 0x387a7c0c
  {
    assert Feed(0xc8ea87e, [27, 26, 25, 24]) == 0x387a7c0c;
    FeedThrough(0x3be80e6a, [31, 30, 29, 28], 0xc8ea87e, [27, 26, 25, 24], 0x387a7c0c);
  }

  lemma FeedsSecondEight()
    ensures Feed(0x387a7c0c, [23, 22, 21, 20, 19, 18, 17, 16]) == 0x351f9f3
  {
    assert Feed(0x1c9b0d07, [19, 18, 17, 16]) == 0x351f9f3;
    FeedThrough(0x387a7c0c, [23, 22, 21, 20], 0x1c9b0d07, [19, 18, 17, 16], 0x351f9f3);
  }

  lemma FeedsThirdEight()
    ensures Feed(0x351f9f3, [15, 14, 13, 12, 11, 10, 9, 8]) == 0x160e43ba
  {
    assert Feed(0x368f29a6, [11, 10, 9, 8]) == 0x160e43ba;
    FeedThrough(0x351f9f3, [15, 14, 13, 12], 0x368f29a6, [11, 10, 9, 8], 0x160e43ba);
  }

  lemma FeedsFourthEight()
    ensures Feed(0x160e43ba, [7, 6, 5, 4, 3, 2, 1, 0]) == 0xcd42356
  {
    assert Feed(0xf0c5389, [3, 2, 1, 0]) == 0xcd42356;
    FeedThrough(0x160e43ba, [7, 6, 5, 4], 0xf0c5389, [3, 2, 1, 0], 0xcd42356);
  }

  lemma FeedsChecksum()
    ensures Feed(0xcd42356, [2, 13, 17, 3, 4, 6]) == 0x2bc830a3
  {
  }

  lemma VectorRegister()
    ensures PrefixRegister("abcdef") == 0x3be80e6a
    ensures Feed(0x3be80e6a, Descending()) == 0xcd42356
  {
    hide Feed, Expanded;
    ExpandsPrefix();
    FeedsPrefix();
    FeedThrough(1, [3, 3, 3, 3, 3, 3], 0x3d5bdbd1, [0, 1, 2, 3, 4, 5, 6], 0x3be80e6a);
    FeedsFirstEight();
    FeedsSecondEight();
    FeedsThirdEight();
    FeedsFourthEight();
    var a, b, c: seq<Word>, d: seq<Word> := [31, 30, 29, 28, 27, 26, 25, 24], [23, 22, 21, 20, 19, 18, 17, 16],
      [15, 14, 13, 12, 11, 10, 9, 8], [7, 6, 5, 4, 3, 2, 1, 0];
    FeedThrough(0x3be80e6a, a, 0x387a7c0c, b, 0x351f9f3);
    FeedThrough(0x3be80e6a, a + b, 0x351f9f3, c, 0x160e43ba);
    FeedThrough(0x3be80e6a, a + b + c, 0x160e43ba, d, 0xcd42356);
  }

  /** The checksum words of the string are the ones the encoder appends. */
  lemma VectorChecksum()
    ensures Checksum(0xcd42356) == [2, 13, 17, 3, 4, 6]
  {
    hide Feed, Checksum;
    FeedsChecksum();
    ChecksumUnique(0xcd42356, [2, 13, 17, 3, 4, 6]);
  }

  lemma CharsOfConcat(us: seq<Word>, vs: seq<Word>)
    ensures CharsOf(us + vs) == CharsOf(us) + CharsOf(vs)
  {
    hide CharOf;
    assert CharsOf(us + vs) == CharsOf(us) + CharsOf(vs);
  }

  lemma EightCharacters()
    ensures CharsOf([31, 30, 29, 28, 27, 26, 25, 24]) == "l7aum6ec" && CharsOf([23, 22, 21, 20, 19, 18, 17, 16]) == "hk45nj3s"
    ensures CharsOf([15, 14, 13, 12, 11, 10, 9, 8]) == "0wdvt2fg" && CharsOf([7, 6, 5, 4, 3, 2, 1, 0]) == "8x9yrzpq"
    ensures CharsOf([2, 13, 17, 3, 4, 6]) == "zd3ryx"
  {
  }

  lemma VectorCharacters()
    ensures CharsOf(Descending() + [2, 13, 17, 3, 4, 6]) == "l7aum6ec" + "hk45nj3s" + "0wdvt2fg" + "8x9yrzpq" + "zd3ryx"
  {
    hide CharsOf;
    EightCharacters();
    var a, b, c: seq<Word>, d: seq<Word> := [31, 30, 29, 28, 27, 26, 25, 24], [23, 22, 21, 20, 19, 18, 17, 16],
      [15, 14, 13, 12, 11, 10, 9, 8], [7, 6, 5, 4, 3, 2, 1, 0];
    CharsOfConcat(a, b);
    CharsOfConcat(a + b, c);
    CharsOfConcat(a + b + c, d);
    CharsOfConcat(a + b + c + d, [2, 13, 17, 3, 4, 6]);
  }

  lemma VectorPrefix()
    ensures Lower("abcdef") == "abcdef" && ValidPrefix("abcdef")
  {
  }

  /** The string is what encoding its prefix and data gives, and decodes to them. */
  lemma VectorIsKnown()
    ensures Encode("abcdef", Descending(), 90) == Ok(VectorText())
    ensures Decode(VectorText(), 90) == Ok(("abcdef", Descending()))
  {
    hide Feed, Checksum, CharsOf, Lower, ValidPrefix, PrefixRegister, Decode;
    assert |Descending()| == 32;
    hide Descending;
    VectorPrefix();
    VectorRegister();
    VectorChecksum();
    VectorCharacters();
    DecodeEncode("abcdef", Descending(), 90);
  }
}
