/**
 * The parts of Go's `strings` package and of Go's string representation that
 * the CSR checks depend on: lower-casing, joining with a separator, and the
 * byte length of a string, which Go's `len` reports for its UTF-8 encoding.
 */
module Strings {

  // ---------------------------------------------------------------- case

  predicate IsUpperChar(c: char) {
    'A' <= c <= 'Z'
  }

  /** ASCII lower-casing of one character; every other character is kept. */
  function LowerChar(c: char): (l: char)
    ensures !IsUpperChar(l)
    ensures IsUpperChar(c) ==> l as int == c as int + 32
    ensures !IsUpperChar(c) ==> l == c
  {
    if IsUpperChar(c) then (c as int + 32) as char else c
  }

  /** True when lower-casing leaves `s` as it is. */
  predicate IsLower(s: string) {
    forall k :: 0 <= k < |s| ==> !IsUpperChar(s[k])
  }

  /** `strings.ToLower`, restricted to ASCII letters. */
  function ToLower(s: string): (r: string)
    ensures |r| == |s| && IsLower(r)
    ensures forall k :: 0 <= k < |s| ==> r[k] == LowerChar(s[k])
  {
    seq(|s|, k requires 0 <= k < |s| => LowerChar(s[k]))
  }

  /** A lower-case string is its own lower case. */
  lemma ToLowerOfLower(s: string)
    requires IsLower(s)
    ensures ToLower(s) == s
  {
  }

  /** Lower-casing twice is lower-casing once. */
  lemma ToLowerIdempotent(s: string)
    ensures ToLower(ToLower(s)) == ToLower(s)
  {
    ToLowerOfLower(ToLower(s));
  }

  /** Lower-casing never turns a non-empty string into the empty one, nor the reverse. */
  lemma ToLowerEmpty(s: string)
    ensures ToLower(s) == "" <==> s == ""
  {
  }

  // ---------------------------------------------------------------- join

  /** `strings.Join(parts, sep)`. */
  function Join(parts: seq<string>, sep: string): (s: string)
    ensures parts == [] ==> s == ""
    ensures |parts| == 1 ==> s == parts[0]
  {
    if parts == [] then ""
    else if |parts| == 1 then parts[0]
    else parts[0] + sep + Join(parts[1..], sep)
  }

  /** The position of the first occurrence of `c` in `s`. */
  function IndexOf(s: string, c: char): (k: nat)
    requires c in s
    ensures k < |s| && s[k] == c && c !in s[..k]
  {
    if s[0] == c then 0 else 1 + IndexOf(s[1..], c)
  }

  /**
   * Reads back a list written by `Join(parts, ", ")`: cuts at every comma and
   * drops the one space that follows each cut.
   */
  function SplitCommaSpace(s: string): seq<string>
    decreases |s|
  {
    if ',' !in s then [s]
    else
      var k := IndexOf(s, ',');
      var rest := s[k + 1..];
      [s[..k]] + SplitCommaSpace(if rest != [] && rest[0] == ' ' then rest[1..] else rest)
  }

  /** Joining with ", " loses nothing when no part contains a comma. */
  lemma {:induction false} SplitJoin(parts: seq<string>)
    requires parts != []
    requires forall k :: 0 <= k < |parts| ==> ',' !in parts[k]
    ensures SplitCommaSpace(Join(parts, ", ")) == parts
  {
    if |parts| > 1 {
      var p, tail := parts[0], Join(parts[1..], ", ");
      var s := Join(parts, ", ");
      assert s == p + ", " + tail;
      assert s[|p|] == ',';
      assert ',' in s;
      assert s[..|p|] == p;
      assert IndexOf(s, ',') == |p|;
      assert s[|p| + 1..] == " " + tail;
      SplitJoin(parts[1..]);
      assert parts == [p] + parts[1..];
    }
  }

  // ---------------------------------------------------------------- length in bytes

  /** Number of bytes in the UTF-8 encoding of one character. */
  function RuneLen(c: char): (n: nat)
    ensures 1 <= n <= 4
    ensures n == 1 <==> c as int < 0x80
  {
    if c as int < 0x80 then 1
    else if c as int < 0x800 then 2
    else if c as int < 0x1_0000 then 3
    else 4
  }

  /** Go's `len` of a string: the number of bytes of its UTF-8 encoding. */
  function ByteLen(s: string): (n: nat)
    ensures |s| <= n <= 4 * |s|
  {
    if s == [] then 0 else RuneLen(s[0]) + ByteLen(s[1..])
  }

  predicate IsAscii(s: string) {
    forall k :: 0 <= k < |s| ==> s[k] as int < 0x80
  }

  /** An ASCII string has one byte per character, and only an ASCII string does. */
  lemma {:induction false} ByteLenAscii(s: string)
    ensures ByteLen(s) == |s| <==> IsAscii(s)
  {
    if s != [] {
      ByteLenAscii(s[1..]);
      if IsAscii(s) {
        assert IsAscii(s[1..]) by {
          forall k | 0 <= k < |s| - 1 ensures s[1..][k] as int < 0x80 {
            assert s[1..][k] == s[k + 1];
          }
        }
      } else if IsAscii(s[1..]) {
        assert s[0] as int >= 0x80;
      }
    }
  }

  /** Byte length adds up over concatenation. */
  lemma {:induction false} ByteLenAppend(a: string, b: string)
    ensures ByteLen(a + b) == ByteLen(a) + ByteLen(b)
  {
    if a != [] {
      assert (a + b)[1..] == a[1..] + b;
      ByteLenAppend(a[1..], b);
    } else {
      assert a + b == b;
    }
  }
}
