/** UTF-8 as Rust strings use it: `as_bytes` and `String::from_utf8`. */
module Utf8 {
  import opened Prelude

  function EncodeChar(c: char): Bytes {
    var n := c as int;
    if n < 0x80 then [n]
    else if n < 0x800 then [0xC0 + n / 64, 0x80 + n % 64]
    else if n < 0x1_0000 then [0xE0 + n / 64 / 64, 0x80 + n / 64 % 64, 0x80 + n % 64]
    else [0xF0 + n / 64 / 64 / 64, 0x80 + n / 64 / 64 % 64, 0x80 + n / 64 % 64, 0x80 + n % 64]
  }

  function Encode(s: string): Bytes {
    if s == [] then [] else EncodeChar(s[0]) + Encode(s[1..])
  }

  predicate Tail(b: Byte) { 0x80 <= b < 0xC0 }

  predicate Scalar(n: int) { 0 <= n < 0xD800 || 0xE000 <= n < 0x11_0000 }

  /** Six more bits, from a continuation byte. */
  function More(n: int, b: int): int { n * 64 + (b - 0x80) }

  /** The first character of `b` and how many bytes it takes; overlong forms and surrogates fail. */
  function DecodeChar(b: Bytes): Option<(char, nat)> {
    if b == [] then None
    else if b[0] < 0x80 then Some((b[0] as char, 1))
    else if 0xC0 <= b[0] < 0xE0 && |b| >= 2 && Tail(b[1]) then
      Checked(More(b[0] - 0xC0, b[1]), 0x80, 2)
    else if 0xE0 <= b[0] < 0xF0 && |b| >= 3 && Tail(b[1]) && Tail(b[2]) then
      Checked(More(More(b[0] - 0xE0, b[1]), b[2]), 0x800, 3)
    else if 0xF0 <= b[0] < 0xF8 && |b| >= 4 && Tail(b[1]) && Tail(b[2]) && Tail(b[3]) then
      Checked(More(More(More(b[0] - 0xF0, b[1]), b[2]), b[3]), 0x1_0000, 4)
    else None
  }

  function Checked(n: int, least: int, size: nat): Option<(char, nat)>
    requires n >= 0
  {
    if n >= least && Scalar(n) then Some((n as char, size)) else None
  }

  lemma MoreSplits(n: int, b: int)
    requires 0x80 <= b < 0xC0
    ensures More(n, b) / 64 == n && 0x80 + More(n, b) % 64 == b
  {
  }

  lemma SplitMore(n: int)
    ensures More(n / 64, 0x80 + n % 64) == n
  {
  }

  lemma EncodeDecodeChar(c: char, rest: Bytes)
    ensures DecodeChar(EncodeChar(c) + rest) == Some((c, |EncodeChar(c)|))
  {
    var n := c as int;
    SplitMore(n);
    SplitMore(n / 64);
    SplitMore(n / 64 / 64);
  }

  lemma DecodeEncodeChar(b: Bytes)
    requires DecodeChar(b).Some?
    ensures DecodeChar(b).value.1 <= |b| && DecodeChar(b).value.1 > 0
    ensures EncodeChar(DecodeChar(b).value.0) == b[..DecodeChar(b).value.1]
  {
    if b[0] < 0x80 {
    } else if b[0] < 0xE0 {
      MoreSplits(b[0] - 0xC0, b[1]);
      assert b[..2] == [b[0], b[1]];
    } else if b[0] < 0xF0 {
      MoreSplits(b[0] - 0xE0, b[1]);
      MoreSplits(More(b[0] - 0xE0, b[1]), b[2]);
      assert b[..3] == [b[0], b[1], b[2]];
    } else {
      MoreSplits(b[0] - 0xF0, b[1]);
      MoreSplits(More(b[0] - 0xF0, b[1]), b[2]);
      MoreSplits(More(More(b[0] - 0xF0, b[1]), b[2]), b[3]);
      assert b[..4] == [b[0], b[1], b[2], b[3]];
    }
  }

  /** `String::from_utf8`. */
  function Decode(b: Bytes): Option<string> {
    if b == [] then Some([])
    else
      var first := DecodeChar(b);
      if first.None? || first.value.1 > |b| || first.value.1 == 0 then None
      else
        var rest := Decode(b[first.value.1..]);
        if rest.None? then None else Some([first.value.0] + rest.value)
  }

  /** Decoding undoes encoding. */
  lemma {:induction false} EncodeDecode(s: string)
    ensures Decode(Encode(s)) == Some(s)
  {
    if s != [] {
      EncodeDecodeChar(s[0], Encode(s[1..]));
      EncodeDecode(s[1..]);
      assert Encode(s)[|EncodeChar(s[0])|..] == Encode(s[1..]);
      assert s == [s[0]] + s[1..];
    }
  }

  lemma EncodeCons(c: char, t: string)
    ensures Encode([c] + t) == EncodeChar(c) + Encode(t)
  {
    assert ([c] + t)[1..] == t;
  }

  /** Each string has only one encoding: whatever decodes to it is that encoding. */
  lemma {:induction false} DecodeEncode(b: Bytes)
    requires Decode(b).Some?
    ensures Encode(Decode(b).value) == b
  {
    if b != [] {
      DecodeEncodeChar(b);
      var c, k := DecodeChar(b).value.0, DecodeChar(b).value.1;
      DecodeEncode(b[k..]);
      var t := Decode(b[k..]).value;
      EncodeCons(c, t);
      assert Decode(b) == Some([c] + t);
      assert b == b[..k] + b[k..];
    }
  }

  predicate Ascii(s: string) { forall i :: 0 <= i < |s| ==> s[i] as int < 0x80 }

  lemma {:induction false} AsciiLength(s: string)
    requires Ascii(s)
    ensures |Encode(s)| == |s|
  {
    if s != [] { AsciiLength(s[1..]); }
  }

  /** ASCII text is encoded one byte to a character, by its code. */
  lemma {:induction false} AsciiBytes(s: string, i: nat)
    requires Ascii(s) && i < |s|
    ensures |Encode(s)| == |s| && Encode(s)[i] == s[i] as int
  {
    AsciiLength(s);
    if i > 0 { AsciiBytes(s[1..], i - 1); }
  }

  /** The code point is what the payload bits of its encoding spell, six to a continuation byte. */
  lemma EncodedBits(c: char)
    ensures var b, n := EncodeChar(c), c as int;
            && (n < 0x80 ==> b == [n])
            && (0x80 <= n < 0x800 ==> |b| == 2 && (b[0] as int - 0xC0) * 64 + (b[1] as int - 0x80) == n)
            && (0x800 <= n < 0x1_0000 ==>
                  |b| == 3 && (b[0] as int - 0xE0) * 4096 + (b[1] as int - 0x80) * 64 + (b[2] as int - 0x80) == n)
            && (0x1_0000 <= n ==>
                  && |b| == 4
                  && (b[0] as int - 0xF0) * 262144 + (b[1] as int - 0x80) * 4096
                     + (b[2] as int - 0x80) * 64 + (b[3] as int - 0x80) == n)
            && forall i :: 1 <= i < |b| ==> 0x80 <= b[i] < 0xC0
  {
  }
}
