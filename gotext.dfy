/**
 Go strings as the generator sees them: sequences of bytes.

 A byte is written here as a `char` whose code is below 256, so that string
 literals such as "abc" can stand for Go string constants. Converting a single
 byte to a Go string (`string(b)`) does not copy the byte: it encodes the code
 point b in UTF-8, which takes two bytes when b >= 0x80.
 */
module GoText {

  type Byte = c: char | c as int < 256 witness 'a'

  predicate IsAscii(s: seq<Byte>) {
    forall i :: 0 <= i < |s| ==> s[i] as int < 0x80
  }

  predicate IsLowerAscii(c: Byte) { 'a' <= c <= 'z' }

  predicate IsUpperAscii(c: Byte) { 'A' <= c <= 'Z' }

  predicate IsDigitAscii(c: Byte) { '0' <= c <= '9' }

  /** The bytes of `string(b)`: the UTF-8 encoding of the code point b. */
  function RuneBytes(b: Byte): (r: seq<Byte>)
    ensures b as int < 0x80 ==> r == [b]
    ensures b as int >= 0x80 ==> |r| == 2 && r[0] as int / 0x20 == 6 && r[1] as int / 0x40 == 2
  {
    if b as int < 0x80 then [b]
    else [(0xC0 + b as int / 0x40) as char, (0x80 + b as int % 0x40) as char]
  }

  /** The bytes of `string(s[0]) + string(s[1]) + ...`. */
  function Utf8(s: seq<Byte>): (r: seq<Byte>)
    ensures |s| <= |r| <= 2 * |s|
    ensures IsAscii(s) ==> r == s
  {
    if s == [] then [] else RuneBytes(s[0]) + Utf8(s[1..])
  }

  /** Reads back the code points (all below 256) of a UTF-8 byte sequence. */
  function Latin1(s: seq<Byte>): seq<Byte>
  {
    if s == [] then []
    else if s[0] as int < 0x80 || |s| == 1 then [s[0]] + Latin1(s[1..])
    else
      var cp := (s[0] as int - 0xC0) * 0x40 + (s[1] as int - 0x80);
      [if 0 <= cp < 256 then cp as char else 0 as char] + Latin1(s[2..])
  }

  /** Appending one converted byte extends the encoding by that byte's runes. */
  lemma {:induction false} Utf8Append(s: seq<Byte>, b: Byte)
    ensures Utf8(s + [b]) == Utf8(s) + RuneBytes(b)
  {
    if s == [] {
      assert s + [b] == [b];
    } else {
      assert (s + [b])[1..] == s[1..] + [b];
      Utf8Append(s[1..], b);
    }
  }

  /** Decoding the bytes built from a byte sequence gives that sequence back. */
  lemma {:induction false} Utf8RoundTrip(s: seq<Byte>)
    ensures Latin1(Utf8(s)) == s
  {
    if s != [] {
      var head := RuneBytes(s[0]);
      var rest := Utf8(s[1..]);
      assert Utf8(s) == head + rest;
      Utf8RoundTrip(s[1..]);
      if s[0] as int < 0x80 {
        assert (head + rest)[1..] == rest;
      } else {
        assert (head + rest)[2..] == rest;
      }
    }
  }

  /** strings.ToUpper on a one-byte ASCII string. */
  function UpperAscii(c: Byte): (r: Byte)
    requires c as int < 0x80
    ensures r as int < 0x80 && !IsLowerAscii(r)
    ensures IsLowerAscii(c) ==> IsUpperAscii(r) && r as int + 0x20 == c as int
    ensures !IsLowerAscii(c) ==> r == c
  {
    if IsLowerAscii(c) then (c as int - 0x20) as char else c
  }
}
