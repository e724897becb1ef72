/** Ootle addresses: network, account key and view key as a Bech32m string.
    Models bindings/src/helpers/ootleAddress.ts. */
module OotleAddresses {
  import opened Wrappers
  import opened Bech32m
  import opened Regrouping

  const MAX_LENGTH_LIMIT := 118

  datatype Decoded = Decoded(network: string, accountPublicKey: string, viewOnlyKey: string)

  function PrefixOf(network: string): Result<string, string> {
    if network == "mainnet" then Ok("xtr_")
    else if network == "stagenet" then Ok("xtr_stg_")
    else if network == "nextnet" then Ok("xtr_nxt_")
    else if network == "localnet" then Ok("xtr_loc_")
    else if network == "igor" then Ok("xtr_igr_")
    else if network == "esmeralda" then Ok("xtr_esm_")
    else Err("Invalid network")
  }

  function NetworkOf(prefix: string): (r: Result<string, string>)
    ensures r.Ok? <==> prefix in {"xtr_", "xtr_stg_", "xtr_nxt_", "xtr_loc_", "xtr_igr_", "xtr_esm_"}
    ensures r.Ok? ==> PrefixOf(r.value) == Ok(prefix)
  {
    if prefix == "xtr_" then Ok("mainnet")
    else if prefix == "xtr_stg_" then Ok("stagenet")
    else if prefix == "xtr_nxt_" then Ok("nextnet")
    else if prefix == "xtr_loc_" then Ok("localnet")
    else if prefix == "xtr_igr_" then Ok("igor")
    else if prefix == "xtr_esm_" then Ok("esmeralda")
    else Err("Invalid network prefix in Ootle address")
  }

  // ---- Hex ----

  function HexDigit(n: nat): char
    requires n < 16
  {
    if n < 10 then '0' + n as char else 'a' + (n - 10) as char
  }

  predicate IsHex(c: char) {
    '0' <= c <= '9' || 'a' <= c <= 'f' || 'A' <= c <= 'F'
  }

  function HexValue(c: char): (n: nat)
    requires IsHex(c)
    ensures n < 16
  {
    if c <= '9' then c as int - '0' as int
    else if c <= 'F' then c as int - 'A' as int + 10
    else c as int - 'a' as int + 10
  }

  lemma HexDigitReadsBack(n: nat)
    requires n < 16
    ensures IsHex(HexDigit(n)) && HexValue(HexDigit(n)) == n
  {
  }

  lemma HexValuePrintsLower(c: char)
    requires IsHex(c)
    ensures HexDigit(HexValue(c)) == LowerChar(c)
  {
  }

  predicate AllHex(s: string) {
    forall i :: 0 <= i < |s| ==> IsHex(s[i])
  }

  /** `x.toString(16).padStart(2, "0")`. */
  function HexByte(b: Byte): (s: string)
    ensures s == [HexDigit(b / 16), HexDigit(b % 16)]
  {
    if b < 16 then "0" + [HexDigit(b)] else [HexDigit(b / 16), HexDigit(b % 16)]
  }

  function Buf2Hex(bytes: seq<Byte>): (s: string)
    ensures |s| == 2 * |bytes|
  {
    if bytes == [] then "" else HexByte(bytes[0]) + Buf2Hex(bytes[1..])
  }

  function ParseByte(hi: char, lo: char): Byte
    requires IsHex(hi) && IsHex(lo)
  {
    16 * HexValue(hi) + HexValue(lo)
  }

  /** The bytes that pairs of hex characters denote. */
  function ParseHex(s: string): Result<seq<Byte>, string> {
    if |s| % 2 != 0 then Err("String should be an even number of characters")
    else if !AllHex(s) then Err("String should only contain hex characters")
    else Ok(seq<Byte>(|s| / 2, i requires 0 <= i < |s| / 2 => ParseByte(s[2 * i], s[2 * i + 1])))
  }

  method Hex2Buf(s: string) returns (r: Result<seq<Byte>, string>)
    ensures r == ParseHex(s)
  {
    if |s| % 2 != 0 {
      return Err("String should be an even number of characters");
    }
    var maxLength := |s| / 2;
    var bytes := new Byte[maxLength];
    var read, written := 0, 0;
    while written < maxLength
      invariant read == 2 * written && written <= maxLength
      invariant forall i :: 0 <= i < read ==> IsHex(s[i])
      invariant forall i :: 0 <= i < written ==> bytes[i] == ParseByte(s[2 * i], s[2 * i + 1])
    {
      var hexits := s[read..read + 2];
      read := read + 2;
      if !IsHex(hexits[0]) || !IsHex(hexits[1]) {
        assert !IsHex(s[read - 2]) || !IsHex(s[read - 1]);
        return Err("String should only contain hex characters");
      }
      bytes[written] := ParseByte(hexits[0], hexits[1]);
      written := written + 1;
    }
    assert bytes[..] == seq<Byte>(|s| / 2, i requires 0 <= i < |s| / 2 => ParseByte(s[2 * i], s[2 * i + 1]));
    return Ok(bytes[..]);
  }

  lemma {:induction false} Buf2HexAt(bytes: seq<Byte>, i: nat)
    requires i < |bytes|
    ensures Buf2Hex(bytes)[2 * i] == HexDigit(bytes[i] / 16) && Buf2Hex(bytes)[2 * i + 1] == HexDigit(bytes[i] % 16)
  {
    hide HexDigit, HexByte;
    var s := Buf2Hex(bytes);
    assert s[..2] == HexByte(bytes[0]) && s[2..] == Buf2Hex(bytes[1..]);
    if i > 0 {
      Buf2HexAt(bytes[1..], i - 1);
      assert s[2 * i] == s[2..][2 * (i - 1)] && s[2 * i + 1] == s[2..][2 * (i - 1) + 1];
    }
  }

  lemma Buf2HexPair(bytes: seq<Byte>, i: nat)
    requires i < |bytes|
    ensures var s := Buf2Hex(bytes);
            IsHex(s[2 * i]) && IsHex(s[2 * i + 1]) && ParseByte(s[2 * i], s[2 * i + 1]) == bytes[i]
  {
    hide HexDigit, HexValue, IsHex, HexByte, Buf2Hex;
    Buf2HexAt(bytes, i);
    HexDigitReadsBack(bytes[i] / 16);
    HexDigitReadsBack(bytes[i] % 16);
  }

  lemma ParseBuf2Hex(bytes: seq<Byte>)
    ensures ParseHex(Buf2Hex(bytes)) == Ok(bytes)
  {
    hide IsHex, Buf2Hex, ParseByte;
    var s := Buf2Hex(bytes);
    forall i | 0 <= i < |s| ensures IsHex(s[i]) {
      Buf2HexPair(bytes, i / 2);
      assert i == 2 * (i / 2) || i == 2 * (i / 2) + 1;
    }
    forall i | 0 <= i < |bytes| ensures ParseHex(s).value[i] == bytes[i] {
      Buf2HexPair(bytes, i);
    }
    assert ParseHex(s).value == bytes;
  }

  lemma Buf2HexParse(s: string)
    requires ParseHex(s).Ok?
    ensures Buf2Hex(ParseHex(s).value) == Lower(s)
  {
    hide HexDigit, HexValue, IsHex, LowerChar, HexByte;
    var bytes := ParseHex(s).value;
    forall i | 0 <= i < |s| ensures Buf2Hex(bytes)[i] == LowerChar(s[i]) {
      Buf2HexAt(bytes, i / 2);
      HexValuePrintsLower(s[i]);
      assert i == 2 * (i / 2) || i == 2 * (i / 2) + 1;
      var hi, lo := HexValue(s[2 * (i / 2)]), HexValue(s[2 * (i / 2) + 1]);
      assert (16 * hi + lo) / 16 == hi && (16 * hi + lo) % 16 == lo;
    }
    assert Buf2Hex(bytes) == Lower(s);
  }

  // ---- Addresses ----

  /** What encoding computes, as a function of the decoded address. */
  function Encoded(d: Decoded): Result<string, string> {
    var prefix := PrefixOf(d.network);
    if prefix.Err? then prefix
    else if |d.accountPublicKey| != 64 || |d.viewOnlyKey| != 64 then
      Err("Public keys must be 32 bytes (64 hex characters) long")
    else
      var account, view := ParseHex(d.accountPublicKey), ParseHex(d.viewOnlyKey);
      if account.Err? then Err(account.error)
      else if view.Err? then Err(view.error)
      else Encode(prefix.value, ToWords(account.value + view.value), MAX_LENGTH_LIMIT)
  }

  method EncodeOotleAddress(d: Decoded) returns (r: Result<string, string>)
    ensures r == Encoded(d)
  {
    var prefix := PrefixOf(d.network);
    if prefix.Err? {
      return prefix;
    }
    if |d.accountPublicKey| != 64 || |d.viewOnlyKey| != 64 {
      return Err("Public keys must be 32 bytes (64 hex characters) long");
    }
    var account := Hex2Buf(d.accountPublicKey);
    if account.Err? {
      return Err(account.error);
    }
    var view := Hex2Buf(d.viewOnlyKey);
    if view.Err? {
      return Err(view.error);
    }
    var n := |account.value|;
    var addressBytes := new Byte[n + |view.value|];
    forall i | 0 <= i < n {
      addressBytes[i] := account.value[i];
    }
    forall i | 0 <= i < |view.value| {
      addressBytes[n + i] := view.value[i];
    }
    assert addressBytes[..] == account.value + view.value;
    return Encode(prefix.value, ToWords(addressBytes[..]), MAX_LENGTH_LIMIT);
  }

  function DecodeOotleAddress(address: string): Result<Decoded, string> {
    var parsed := Decode(address, MAX_LENGTH_LIMIT);
    if parsed.Err? then Err(parsed.error)
    else
      var data := FromWords(parsed.value.1);
      if data.Err? then Err(data.error)
      else if |data.value| != 64 then Err("Invalid Ootle address length")
      else
        var network := NetworkOf(parsed.value.0);
        if network.Err? then Err(network.error)
        else Ok(Decoded(network.value, Buf2Hex(data.value[..32]), Buf2Hex(data.value[32..])))
  }

  /** A known network and two keys of 64 hex characters. */
  ghost predicate Encodable(d: Decoded) {
    && PrefixOf(d.network).Ok?
    && |d.accountPublicKey| == 64 && AllHex(d.accountPublicKey)
    && |d.viewOnlyKey| == 64 && AllHex(d.viewOnlyKey)
  }

  ghost function LowerHex(d: Decoded): Decoded {
    d.(accountPublicKey := Lower(d.accountPublicKey), viewOnlyKey := Lower(d.viewOnlyKey))
  }

  lemma PrefixesAreClean(network: string)
    requires PrefixOf(network).Ok?
    ensures var p := PrefixOf(network).value;
            && NetworkOf(p) == Ok(network) && 0 < |p| <= 8
            && Lower(p) == p && ValidPrefix(p) && '1' !in p
  {
    hide NetworkOf, LowerChar, PrefixChar;
    var p := PrefixOf(network).value;
    PrefixNamesNetwork(network);
    forall i | 0 <= i < |p| ensures LowerChar(p[i]) == p[i] && PrefixChar(p[i]) {
      assert p[i] == '_' || 'a' <= p[i] <= 'z';
      PlainChar(p[i]);
    }
    assert Lower(p) == p;
  }

  lemma PrefixNamesNetwork(network: string)
    requires PrefixOf(network).Ok?
    ensures NetworkOf(PrefixOf(network).value) == Ok(network)
  {
  }

  lemma PlainChar(c: char)
    requires c == '_' || 'a' <= c <= 'z'
    ensures LowerChar(c) == c && PrefixChar(c)
  {
  }

  /** Encoding succeeds exactly on a known network with two 64-character hex keys, always fits the length limit,
      and decodes back to the same address with its hex lower-cased. */
  lemma DecodeEncoded(d: Decoded)
    ensures Encoded(d).Ok? <==> Encodable(d)
    ensures Encoded(d).Ok? ==>
              |Encoded(d).value| <= MAX_LENGTH_LIMIT && DecodeOotleAddress(Encoded(d).value) == Ok(LowerHex(d))
  {
    hide Encode, Decode, ToWords, FromWords, Buf2Hex, ParseByte, IsHex, NetworkOf, ValidPrefix, Lower;
    if Encodable(d) {
      hide PrefixOf;
      var p := PrefixOf(d.network).value;
      var account, view := ParseHex(d.accountPublicKey).value, ParseHex(d.viewOnlyKey).value;
      var bytes := account + view;
      var words := ToWords(bytes);
      PrefixesAreClean(d.network);
      ToWordsLength(bytes);
      EncodeSucceeds(p, words);
      DecodeEncode(p, words, MAX_LENGTH_LIMIT);
      FromWordsToWords(bytes);
      assert bytes[..32] == account && bytes[32..] == view;
      Buf2HexParse(d.accountPublicKey);
      Buf2HexParse(d.viewOnlyKey);
    }
  }

  lemma EncodeSucceeds(p: string, words: seq<Word>)
    requires |p| <= 8 && |words| == 103 && Lower(p) == p && ValidPrefix(p)
    ensures Encode(p, words, MAX_LENGTH_LIMIT).Ok?
  {
  }

  /** The value of a hex digit, of either case, is its place in the row of digits. */
  lemma HexDigitsAre(c: char)
    requires IsHex(c)
    ensures "0123456789abcdef"[HexValue(c)] == LowerChar(c)
  {
  }

  /** The byte that the i-th pair of a key's digits denotes. */
  function KeyByte(key: string, i: nat): Byte
    requires |key| == 64 && AllHex(key) && i < 32
  {
    ParseByte(key[2 * i], key[2 * i + 1])
  }

  lemma ParsedKey(key: string)
    requires |key| == 64 && AllHex(key)
    ensures ParseHex(key).Ok? && |ParseHex(key).value| == 32
    ensures forall i :: 0 <= i < 32 ==> ParseHex(key).value[i] == KeyByte(key, i)
  {
    hide ParseByte, AllHex;
  }

  /** An encoded address carries 64 bytes: first those of the account key, then those of the view key. */
  lemma EncodedLayout(d: Decoded)
    requires Encoded(d).Ok?
    ensures Encodable(d)
    ensures var parsed := Decode(Encoded(d).value, MAX_LENGTH_LIMIT);
            && parsed.Ok? && FromWords(parsed.value.1).Ok?
            && var bytes := FromWords(parsed.value.1).value;
            && |bytes| == 64
            && (forall i :: 0 <= i < 32 ==> bytes[i] == KeyByte(d.accountPublicKey, i))
            && (forall i :: 0 <= i < 32 ==> bytes[32 + i] == KeyByte(d.viewOnlyKey, i))
  {
    DecodeEncoded(d);
    hide Encode, Decode, ToWords, FromWords, ParseHex, AllHex, KeyByte, PrefixOf, Lower, ValidPrefix, DecodeOotleAddress;
    ParsedKey(d.accountPublicKey);
    ParsedKey(d.viewOnlyKey);
    var bytes := ParseHex(d.accountPublicKey).value + ParseHex(d.viewOnlyKey).value;
    PrefixesAreClean(d.network);
    DecodeEncode(PrefixOf(d.network).value, ToWords(bytes), MAX_LENGTH_LIMIT);
    FromWordsToWords(bytes);
  }

  /** An encoded address begins with the text of its network and the separator. */
  ghost predicate NetworkText(network: string, address: string) {
    match network
    case "mainnet" => "xtr_1" <= address
    case "stagenet" => "xtr_stg_1" <= address
    case "nextnet" => "xtr_nxt_1" <= address
    case "localnet" => "xtr_loc_1" <= address
    case "igor" => "xtr_igr_1" <= address
    case "esmeralda" => "xtr_esm_1" <= address
    case _ => false
  }

  lemma EncodedBeginsWithNetwork(d: Decoded)
    requires Encoded(d).Ok?
    ensures NetworkText(d.network, Encoded(d).value)
  {
    var p := PrefixOf(d.network).value;
    PrefixesAreClean(d.network);
    EncodeBegins(p, ToWords(ParseHex(d.accountPublicKey).value + ParseHex(d.viewOnlyKey).value));
    PrefixText(d.network, Encoded(d).value);
  }

  lemma EncodeBegins(p: string, words: seq<Word>)
    requires Lower(p) == p && Encode(p, words, MAX_LENGTH_LIMIT).Ok?
    ensures p + "1" <= Encode(p, words, MAX_LENGTH_LIMIT).value
  {
    hide Checksum, Feed, CharsOf, PrefixRegister;
  }

  lemma PrefixText(network: string, address: string)
    requires PrefixOf(network).Ok? && PrefixOf(network).value + "1" <= address
    ensures NetworkText(network, address)
  {
  }

  /** Every accepted address is, lower-cased, the encoding of what it decodes to. */
  lemma EncodedDecode(address: string)
    requires DecodeOotleAddress(address).Ok?
    ensures Encoded(DecodeOotleAddress(address).value) == Ok(Lower(address))
  {
    hide Encode, Decode, ToWords, FromWords, Buf2Hex, ParseHex, NetworkOf, PrefixOf, Lower;
    var parsed := Decode(address, MAX_LENGTH_LIMIT).value;
    var data := FromWords(parsed.1).value;
    EncodeDecode(address, MAX_LENGTH_LIMIT);
    ToWordsFromWords(parsed.1);
    ParseBuf2Hex(data[..32]);
    ParseBuf2Hex(data[32..]);
    assert data[..32] + data[32..] == data;
  }

  /** Two accepted addresses with the same meaning differ at most in case. */
  lemma DecodeInjective(a: string, b: string)
    requires DecodeOotleAddress(a).Ok? && DecodeOotleAddress(b) == DecodeOotleAddress(a)
    ensures Lower(a) == Lower(b)
  {
    EncodedDecode(a);
    EncodedDecode(b);
  }

  /** The separator of an accepted address follows its network prefix, which contains no separator. */
  lemma AcceptedPrefix(address: string)
    requires DecodeOotleAddress(address).Ok?
    ensures var l, split := Lower(address), LastSeparator(Lower(address));
            split >= 0 && '1' !in l[..split]
  {
    hide Feed, WordsOf, FromWords, Buf2Hex, PrefixRegister, ValidPrefix;
    var prefix := Decode(address, MAX_LENGTH_LIMIT).value.0;
    assert NetworkOf(prefix).Ok?;
    PrefixesAreClean(NetworkOf(prefix).value);
  }

  /** Error detection: changing any of at most six consecutive data characters of an accepted address, other than
      merely in case, always makes decoding reject it. */
  lemma BurstErrorIsDetected(a: string, b: string, at: nat)
    requires DecodeOotleAddress(a).Ok? && |b| == |a| && Lower(b) != Lower(a)
    requires LastSeparator(Lower(a)) < at <= |a|
    requires forall i :: 0 <= i < |a| && !(at <= i < at + 6) ==> b[i] == a[i]
    ensures DecodeOotleAddress(b).Err?
  {
    hide Decode, FromWords, Buf2Hex, NetworkOf, LowerChar;
    BurstIsRejected(a, b, MAX_LENGTH_LIMIT, at);
    AcceptedPrefix(a);
    var split := LastSeparator(Lower(a));
    var moved := LastSeparator(Lower(b));
    assert moved > split ==> Lower(b)[..moved][split] == '1';
    if DecodeOotleAddress(b).Ok? {
      AcceptedPrefix(b);
    }
  }

  /** In particular, one substituted data character is always detected. */
  lemma SubstitutionIsDetected(a: string, at: nat, c: char)
    requires DecodeOotleAddress(a).Ok? && LastSeparator(Lower(a)) < at < |a|
    requires LowerChar(c) != LowerChar(a[at])
    ensures DecodeOotleAddress(a[at := c]).Err?
  {
    hide DecodeOotleAddress, LowerChar;
    assert Lower(a[at := c])[at] != Lower(a)[at];
    BurstErrorIsDetected(a, a[at := c], at);
  }
}
