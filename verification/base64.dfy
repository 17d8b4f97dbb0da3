/**
 * `Buffer.from(bytes).toString('base64')`: the standard base64 encoding of
 * section 4 of RFC 4648, with `=` padding. Each group of three bytes becomes
 * four characters of the 64-character alphabet; a final group of one or two
 * bytes becomes two or three characters followed by `==` or `=`.
 */
module Base64 {
  import opened Random

  const Pad: char := '='

  /** A character of the 64-character alphabet: `A`-`Z`, `a`-`z`, `0`-`9`, `+`, `/`. */
  predicate InAlphabet(c: char) {
    ('A' <= c <= 'Z') || ('a' <= c <= 'z') || ('0' <= c <= '9') || c == '+' || c == '/'
  }

  /** The character encoding the 6-bit value `v` (Table 1 of RFC 4648). */
  function Char(v: int): (c: char)
    requires 0 <= v < 64
    ensures InAlphabet(c)
  {
    if v < 26 then ('A' as int + v) as char
    else if v < 52 then ('a' as int + (v - 26)) as char
    else if v < 62 then ('0' as int + (v - 52)) as char
    else if v == 62 then '+'
    else '/'
  }

  /** The characters one encoded string may contain. */
  predicate IsBase64Char(c: char) {
    InAlphabet(c) || c == Pad
  }

  /** The first three bytes of `b` as four characters, none of them padding. */
  function Full(b: seq<byte>): (s: string)
    requires |b| >= 3
    ensures |s| == 4 && forall i | 0 <= i < 4 :: InAlphabet(s[i])
  {
    var b0, b1, b2 := b[0] as int, b[1] as int, b[2] as int;
    [Char(b0 / 4), Char(b0 % 4 * 16 + b1 / 16), Char(b1 % 16 * 4 + b2 / 64), Char(b2 % 64)]
  }

  /** A final group of one or two bytes, padded to four characters. */
  function Tail(b: seq<byte>): (s: string)
    requires 1 <= |b| <= 2
    ensures |s| == 4 && forall i | 0 <= i < 4 :: IsBase64Char(s[i])
    ensures s[3] == Pad
  {
    var b0 := b[0] as int;
    if |b| == 1 then
      [Char(b0 / 4), Char(b0 % 4 * 16), Pad, Pad]
    else
      var b1 := b[1] as int;
      [Char(b0 / 4), Char(b0 % 4 * 16 + b1 / 16), Char(b1 % 16 * 4), Pad]
  }

  function Encode(b: seq<byte>): (s: string)
    ensures |s| == 4 * ((|b| + 2) / 3)
    ensures forall i | 0 <= i < |s| :: IsBase64Char(s[i])
    decreases |b|
  {
    if |b| == 0 then ""
    else if |b| < 3 then Tail(b)
    else
      var head := Full(b);
      var rest := Encode(b[3..]);
      assert forall i | 0 <= i < |head + rest| :: (head + rest)[i] == if i < 4 then head[i] else rest[i - 4];
      head + rest
  }
}
