/** Splitting, joining and trimming of text, shared by the table renderer and the permission parser. */
module Text {

  function Split(s: string, delimiter: char): (parts: seq<string>)
    ensures 0 < |parts|
  {
    if s == "" then [""]
    else
      var rest := Split(s[1..], delimiter);
      if s[0] == delimiter then [""] + rest else [[s[0]] + rest[0]] + rest[1..]
  }

  function Join(parts: seq<string>, delimiter: char): string
    requires 0 < |parts|
  {
    if |parts| == 1 then parts[0] else parts[0] + [delimiter] + Join(parts[1..], delimiter)
  }

  ghost predicate Free(s: string, delimiter: char) {
    forall i :: 0 <= i < |s| ==> s[i] != delimiter
  }

  ghost predicate AllFree(parts: seq<string>, delimiter: char) {
    forall i :: 0 <= i < |parts| ==> Free(parts[i], delimiter)
  }

  lemma {:induction false} SplitAfter(a: string, s: string, delimiter: char)
    requires Free(a, delimiter)
    ensures Split(a + s, delimiter) == [a + Split(s, delimiter)[0]] + Split(s, delimiter)[1..]
  {
    if a == "" {
      var parts := Split(s, delimiter);
      assert a + s == s && a + parts[0] == parts[0];
      assert parts == [parts[0]] + parts[1..];
    } else {
      assert a + s == [a[0]] + (a[1..] + s);
      SplitAfter(a[1..], s, delimiter);
      assert [a[0]] + (a[1..] + Split(s, delimiter)[0]) == a + Split(s, delimiter)[0];
    }
  }

  /** Parts without the delimiter come back from their join. */
  lemma {:induction false} SplitJoin(parts: seq<string>, delimiter: char)
    requires 0 < |parts| && AllFree(parts, delimiter)
    ensures Split(Join(parts, delimiter), delimiter) == parts
  {
    if |parts| == 1 {
      SplitAfter(parts[0], "", delimiter);
      assert parts[0] + "" == parts[0];
      assert Split("", delimiter) == [""] && [parts[0]] + [""][1..] == parts;
    } else {
      var rest := Join(parts[1..], delimiter);
      SplitJoin(parts[1..], delimiter);
      assert ([delimiter] + rest)[1..] == rest;
      assert Split([delimiter] + rest, delimiter) == [""] + parts[1..];
      assert parts[0] + "" == parts[0];
      SplitAfter(parts[0], [delimiter] + rest, delimiter);
      assert parts[0] + [delimiter] + rest == parts[0] + ([delimiter] + rest);
      assert parts == [parts[0]] + parts[1..];
    }
  }

  lemma {:induction false} JoinAppend(parts: seq<string>, part: string, delimiter: char)
    requires 0 < |parts|
    ensures Join(parts + [part], delimiter) == Join(parts, delimiter) + [delimiter] + part
  {
    if |parts| == 1 {
      assert (parts + [part])[1..] == [part];
    } else {
      JoinAppend(parts[1..], part, delimiter);
      assert (parts + [part])[1..] == parts[1..] + [part];
    }
  }

  /** The characters with the Unicode property White_Space. */
  predicate IsSpace(c: char) {
    var n := c as int;
    || 0x09 <= n <= 0x0D || n == 0x20 || n == 0x85 || n == 0xA0 || n == 0x1680 || 0x2000 <= n <= 0x200A
    || n == 0x2028 || n == 0x2029 || n == 0x202F || n == 0x205F || n == 0x3000
  }

  function TrimStart(s: string): string {
    if s != "" && IsSpace(s[0]) then TrimStart(s[1..]) else s
  }

  function TrimEnd(s: string): string {
    if s != "" && IsSpace(s[|s| - 1]) then TrimEnd(s[..|s| - 1]) else s
  }

  function Trim(s: string): string {
    TrimEnd(TrimStart(s))
  }

  function TrimAll(parts: seq<string>): (trimmed: seq<string>)
    ensures |trimmed| == |parts| && forall i :: 0 <= i < |parts| ==> trimmed[i] == Trim(parts[i])
  {
    seq(|parts|, i requires 0 <= i < |parts| => Trim(parts[i]))
  }

  predicate Trimmed(s: string) {
    s == "" || (!IsSpace(s[0]) && !IsSpace(s[|s| - 1]))
  }

  function Spaces(n: nat): (s: string)
    ensures |s| == n && forall i :: 0 <= i < n ==> s[i] == ' '
  {
    seq(n, i => ' ')
  }

  lemma {:induction false} TrimStartPadded(left: nat, s: string)
    ensures TrimStart(Spaces(left) + s) == TrimStart(s)
  {
    if left == 0 {
      assert Spaces(left) + s == s;
    } else {
      TrimStartPadded(left - 1, s);
      assert (Spaces(left) + s)[1..] == Spaces(left - 1) + s;
    }
  }

  lemma {:induction false} TrimEndPadded(s: string, right: nat)
    requires Trimmed(s)
    ensures TrimEnd(s + Spaces(right)) == s
  {
    if right == 0 {
      assert s + Spaces(right) == s;
    } else {
      TrimEndPadded(s, right - 1);
      assert (s + Spaces(right))[..|s| + right - 1] == s + Spaces(right - 1);
    }
  }

  /** Padding comes off again. */
  lemma TrimPadded(left: nat, s: string, right: nat)
    requires Trimmed(s)
    ensures Trim(Spaces(left) + s + Spaces(right)) == s
  {
    assert Spaces(left) + s + Spaces(right) == Spaces(left) + (s + Spaces(right));
    TrimStartPadded(left, s + Spaces(right));
    if s == "" {
      TrimStartPadded(right, "");
      assert s + Spaces(right) == Spaces(right) + "";
    } else {
      assert TrimStart(s + Spaces(right)) == s + Spaces(right);
      TrimEndPadded(s, right);
    }
  }

  /** The text before and after the first delimiter, when there is one. */
  datatype SplitOnceResult = Whole | Parts(before: string, after: string)

  function SplitOnce(s: string, delimiter: char): SplitOnceResult {
    if s == "" then Whole
    else if s[0] == delimiter then Parts("", s[1..])
    else
      match SplitOnce(s[1..], delimiter)
      case Whole => Whole
      case Parts(before, after) => Parts([s[0]] + before, after)
  }

  lemma {:induction false} SplitOnceAfter(a: string, s: string, delimiter: char)
    requires Free(a, delimiter)
    ensures SplitOnce(a + [delimiter] + s, delimiter) == Parts(a, s)
    ensures SplitOnce(a, delimiter) == Whole
  {
    if a == "" {
      assert a + [delimiter] + s == [delimiter] + s;
    } else {
      assert a + [delimiter] + s == [a[0]] + (a[1..] + [delimiter] + s);
      SplitOnceAfter(a[1..], s, delimiter);
      assert [a[0]] + a[1..] == a;
    }
  }

  /** It is whole exactly when it has no delimiter; otherwise the parts, of which the first has none, make it up. */
  lemma {:induction false} SplitOnceMeans(s: string, delimiter: char)
    ensures match SplitOnce(s, delimiter) {
              case Whole => Free(s, delimiter)
              case Parts(before, after) => Free(before, delimiter) && s == before + [delimiter] + after
            }
  {
    if s != "" && s[0] != delimiter {
      SplitOnceMeans(s[1..], delimiter);
      assert s == [s[0]] + s[1..];
    }
  }
}
