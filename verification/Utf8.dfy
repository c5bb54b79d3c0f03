/** `str.encode()`: UTF-8 as in section 3 of RFC 3629. */
module Utf8 {

  type Byte = b: nat | b < 256

  /** The bytes of one character in front of others. */
  function Put(code: nat, tail: seq<Byte>): seq<Byte>
    requires code < 0x110000
  {
    if code < 0x80 then [code] + tail
    else if code < 0x800 then [0xC0 + code / 64, 0x80 + code % 64] + tail
    else if code < 0x10000 then [0xE0 + code / 4096, 0x80 + code / 64 % 64, 0x80 + code % 64] + tail
    else [0xF0 + code / 262144, 0x80 + code / 4096 % 64, 0x80 + code / 64 % 64, 0x80 + code % 64] + tail
  }

  function Encode(s: string): seq<Byte> {
    if s == "" then [] else Put(s[0] as int, Encode(s[1..]))
  }

  /** What a continuation byte carries. */
  function Low(b: Byte): nat { (b as int) % 64 }

  /** The first character of some bytes, and the bytes after it. */
  function Take(bytes: seq<Byte>): (nat, seq<Byte>)
    requires bytes != []
  {
    var b: int := bytes[0];
    if b < 0xC0 || |bytes| < 2 then (b, bytes[1..])
    else if b < 0xE0 || |bytes| < 3 then ((b - 0xC0) * 64 + Low(bytes[1]), bytes[2..])
    else if b < 0xF0 || |bytes| < 4 then ((b - 0xE0) * 4096 + Low(bytes[1]) * 64 + Low(bytes[2]), bytes[3..])
    else ((b - 0xF0) * 262144 + Low(bytes[1]) * 4096 + Low(bytes[2]) * 64 + Low(bytes[3]), bytes[4..])
  }

  lemma Halves(code: nat)
    ensures code == code / 4096 * 4096 + code / 64 % 64 * 64 + code % 64
    ensures code / 4096 == code / 262144 * 64 + code / 4096 % 64
  {
    Nested(code, 64);
    Nested(code / 64, 64);
    Nested(code / 4096, 64);
    assert code / 64 / 64 == code / 4096;
    assert code / 4096 / 64 == code / 262144;
  }

  lemma Nested(n: nat, k: nat)
    requires k > 0
    ensures n == n / k * k + n % k
  {
  }

  lemma TakeThree(code: nat, tail: seq<Byte>)
    requires 0x800 <= code < 0x10000
    ensures Take(Put(code, tail)) == (code, tail)
  {
    var t := Put(code, tail);
    Halves(code);
    assert t[3..] == tail;
    assert Low(t[1]) == code / 64 % 64 && Low(t[2]) == code % 64;
  }

  lemma TakeFour(code: nat, tail: seq<Byte>)
    requires 0x10000 <= code < 0x110000
    ensures Take(Put(code, tail)) == (code, tail)
  {
    var t := Put(code, tail);
    Halves(code);
    assert t[4..] == tail;
    assert Low(t[1]) == code / 4096 % 64 && Low(t[2]) == code / 64 % 64 && Low(t[3]) == code % 64;
  }

  lemma TakeBack(code: nat, tail: seq<Byte>)
    requires code < 0x110000
    ensures Put(code, tail) != [] && Take(Put(code, tail)) == (code, tail)
  {
    var t := Put(code, tail);
    if code < 0x80 {
      assert t[1..] == tail;
    } else if code < 0x800 {
      Nested(code, 64);
      assert t[2..] == tail && Low(t[1]) == code % 64;
    } else if code < 0x10000 {
      TakeThree(code, tail);
    } else {
      TakeFour(code, tail);
    }
  }

  /** No two texts have the same bytes. */
  lemma {:induction false} EncodeIsInjective(s: string, t: string)
    requires Encode(s) == Encode(t)
    ensures s == t
  {
    if s != "" { TakeBack(s[0] as int, Encode(s[1..])); }
    if t != "" { TakeBack(t[0] as int, Encode(t[1..])); }
    if s != "" && t != "" {
      EncodeIsInjective(s[1..], t[1..]);
      assert s == [s[0]] + s[1..] && t == [t[0]] + t[1..];
    }
  }
}
