/** The token payload decoder (crates/engine/src/auth.rs): a 32-bit accumulator that is never
    masked, against the encoding of section 5 of RFC 4648. */
module Base64 {
  import opened Common

  const WORD: nat := 0x1_0000_0000

  /** The url-safe alphabet; the decoder also takes the standard one's two last letters. */
  function Letter(v: nat): char
    requires v < 64
  {
    if v < 26 then 'A' + v as char
    else if v < 52 then 'a' + (v - 26) as char
    else if v < 62 then '0' + (v - 52) as char
    else if v == 62 then '-'
    else '_'
  }

  function Sextet(c: char): (v: Option<nat>)
    ensures v.Some? ==> v.value < 64
  {
    if 'A' <= c <= 'Z' then Some((c - 'A') as nat)
    else if 'a' <= c <= 'z' then Some((c - 'a') as nat + 26)
    else if '0' <= c <= '9' then Some((c - '0') as nat + 52)
    else if c == '-' || c == '+' then Some(62)
    else if c == '_' || c == '/' then Some(63)
    else None
  }

  lemma LetterReads(v: nat)
    requires v < 64
    ensures Sextet(Letter(v)) == Some(v) && Letter(v) != '='
  {
  }

  /** Three bytes are four letters; one or two left over are two or three, unpadded. */
  function Encode(bytes: Bytes): string {
    if |bytes| == 0 then ""
    else if |bytes| == 1 then [Letter(bytes[0] / 4), Letter(bytes[0] % 4 * 16)]
    else
      var x, y := bytes[0], bytes[1];
      var head := [Letter(x / 4), Letter(x % 4 * 16 + y / 16)];
      if |bytes| == 2 then head + [Letter(y % 16 * 4)]
      else head + [Letter(y % 16 * 4 + bytes[2] / 64), Letter(bytes[2] % 64)] + Encode(bytes[3..])
  }

  /** The accumulator takes six more bits at the bottom and loses six at the top. */
  function Shifted(acc: nat, v: nat): nat { (acc * 64 + v) % WORD }

  /** How far the low bits of the accumulator are still unread. */
  predicate BitCount(bits: nat) { bits == 0 || bits == 2 || bits == 4 || bits == 6 }

  function Power(bits: nat): nat
    requires BitCount(bits)
  {
    if bits == 0 then 1 else if bits == 2 then 4 else if bits == 4 then 16 else 64
  }

  /** The byte a letter completes, and the bits it leaves, given `bits` unread ones. */
  function Pushed(acc: nat, bits: nat): nat
    requires BitCount(bits)
  {
    acc / Power(bits) % 256
  }

  /** A byte put in front of what the rest gives. */
  function Then(b: byte, r: Option<Bytes>): Option<Bytes> { if r.None? then None else Some([b] + r.value) }

  function DecodeFrom(input: string, acc: nat, bits: nat): (r: Option<Bytes>)
    requires BitCount(bits)
  {
    if input == "" then Some([])
    else if input[0] == '=' then DecodeFrom(input[1..], acc, bits)
    else
      var v := Sextet(input[0]);
      if v.None? then None
      else
        var next := Shifted(acc, v.value);
        if bits < 2 then DecodeFrom(input[1..], next, bits + 6)
        else Then(Pushed(next, bits - 2), DecodeFrom(input[1..], next, bits - 2))
  }

  function Decode(input: string): Option<Bytes> { DecodeFrom(input, 0, 0) }

  lemma Unread2(acc: nat, v: nat)
    requires v < 64
    ensures Shifted(acc, v) % 256 == acc % 4 * 64 + v
  {
    var q := (acc * 64 + v) / WORD;
    assert Shifted(acc, v) == 256 * (acc / 4 - q * 0x100_0000) + (acc % 4 * 64 + v);
  }

  lemma LowBits4(t: int, m: nat)
    requires m < 1024
    ensures (1024 * t + m) / 4 % 256 == m / 4 && (1024 * t + m) % 4 == m % 4
  {
    var s := 1024 * t + m;
    assert s == 4 * (256 * t + m / 4) + m % 4;
    assert s / 4 == 256 * t + m / 4;
  }

  lemma LowBits16(t: int, m: nat)
    requires m < 4096
    ensures (4096 * t + m) / 16 % 256 == m / 16 && (4096 * t + m) % 16 == m % 16
  {
    var s := 4096 * t + m;
    assert s == 16 * (256 * t + m / 16) + m % 16;
    assert s / 16 == 256 * t + m / 16;
  }

  lemma Unread4(acc: nat, v: nat)
    requires v < 64
    ensures Shifted(acc, v) / 4 % 256 == (acc % 16 * 64 + v) / 4
    ensures Shifted(acc, v) % 4 == v % 4
  {
    var q := (acc * 64 + v) / WORD;
    var t, m := acc / 16 - q * 0x40_0000, acc % 16 * 64 + v;
    assert Shifted(acc, v) == 1024 * t + m;
    LowBits4(t, m);
  }

  lemma Unread6(acc: nat, v: nat)
    requires v < 64
    ensures Shifted(acc, v) / 16 % 256 == (acc % 64 * 64 + v) / 16
    ensures Shifted(acc, v) % 16 == v % 16
  {
    var q := (acc * 64 + v) / WORD;
    var t, m := acc / 64 - q * 0x10_0000, acc % 64 * 64 + v;
    assert Shifted(acc, v) == 4096 * t + m;
    LowBits16(t, m);
  }

  lemma Unread0(acc: nat, v: nat)
    requires v < 64
    ensures Shifted(acc, v) % 64 == v
  {
    var q := (acc * 64 + v) / WORD;
    assert Shifted(acc, v) == 64 * (acc - q * 0x400_0000) + v;
  }

  /** The byte pushed, and the bits still to be read, depend only on the unread low bits. */
  lemma StaleBitsStay(a: nat, b: nat, bits: nat, v: nat)
    requires BitCount(bits) && v < 64 && a % Power(bits) == b % Power(bits)
    ensures bits >= 2 ==> Pushed(Shifted(a, v), bits - 2) == Pushed(Shifted(b, v), bits - 2)
    ensures var left := if bits < 2 then bits + 6 else bits - 2;
      Shifted(a, v) % Power(left) == Shifted(b, v) % Power(left)
  {
    if bits == 0 {
      Unread0(a, v);
      Unread0(b, v);
    } else if bits == 2 {
      Unread2(a, v);
      Unread2(b, v);
    } else if bits == 4 {
      Unread4(a, v);
      Unread4(b, v);
    } else {
      Unread6(a, v);
      Unread6(b, v);
    }
  }

  /** So the high bits left behind by earlier letters never reach the output. */
  lemma {:induction false} OnlyUnreadBitsMatter(input: string, a: nat, b: nat, bits: nat)
    requires BitCount(bits) && a % Power(bits) == b % Power(bits)
    ensures DecodeFrom(input, a, bits) == DecodeFrom(input, b, bits)
  {
    if input != "" {
      if input[0] == '=' {
        OnlyUnreadBitsMatter(input[1..], a, b, bits);
      } else if Sextet(input[0]).Some? {
        var v := Sextet(input[0]).value;
        StaleBitsStay(a, b, bits, v);
        OnlyUnreadBitsMatter(input[1..], Shifted(a, v), Shifted(b, v), if bits < 2 then bits + 6 else bits - 2);
      }
    }
  }

  /** Letters, digits, and the two last letters of either alphabet. */
  predicate InAlphabet(c: char) {
    'A' <= c <= 'Z' || 'a' <= c <= 'z' || '0' <= c <= '9' || c == '-' || c == '_' || c == '+' || c == '/'
  }

  lemma SextetExactly(c: char)
    ensures Sextet(c).Some? <==> InAlphabet(c)
  {
  }

  lemma AllAlphabet(input: string)
    requires input != ""
    ensures (forall c :: c in input ==> c == '=' || InAlphabet(c)) <==>
      (input[0] == '=' || InAlphabet(input[0])) && forall c :: c in input[1..] ==> c == '=' || InAlphabet(c)
  {
    assert input == [input[0]] + input[1..];
  }

  /** Padding is skipped wherever it stands, and nothing else outside the alphabet is. */
  lemma {:induction false} DecodesExactlyTheAlphabet(input: string, acc: nat, bits: nat)
    requires BitCount(bits)
    ensures DecodeFrom(input, acc, bits).Some? <==> forall c :: c in input ==> c == '=' || InAlphabet(c)
    ensures DecodeFrom(input + "=", acc, bits) == DecodeFrom(input, acc, bits)
  {
    if input == "" {
      assert "" + "=" == "=" && "="[1..] == "";
    } else {
      SextetExactly(input[0]);
      AllAlphabet(input);
      assert (input + "=")[0] == input[0] && (input + "=")[1..] == input[1..] + "=";
      if input[0] == '=' {
        DecodesExactlyTheAlphabet(input[1..], acc, bits);
      } else if Sextet(input[0]).Some? {
        DecodesExactlyTheAlphabet(input[1..], Shifted(acc, Sextet(input[0]).value), if bits < 2 then bits + 6 else bits - 2);
      }
    }
  }

  /** Reading one letter. */
  lemma ReadLetter(v: nat, rest: string, acc: nat, bits: nat)
    requires v < 64 && BitCount(bits)
    ensures bits < 2 ==> DecodeFrom([Letter(v)] + rest, acc, bits) == DecodeFrom(rest, Shifted(acc, v), bits + 6)
    ensures bits >= 2 ==>
      var r := DecodeFrom(rest, Shifted(acc, v), bits - 2);
      DecodeFrom([Letter(v)] + rest, acc, bits) ==
        Then(Pushed(Shifted(acc, v), bits - 2), r)
  {
    LetterReads(v);
    assert ([Letter(v)] + rest)[1..] == rest;
  }

  lemma FirstByte(x: byte, low: nat)
    requires low < 16
    ensures Shifted(Shifted(0, x / 4), x % 4 * 16 + low) == 16 * x + low
    ensures Pushed(16 * x + low, 4) == x && (16 * x + low) % 16 == low
  {
    assert x / 4 * 64 + (x % 4 * 16 + low) == 16 * x + low;
  }

  lemma ReadTwo(a: nat, b: nat, rest: string)
    requires a < 64 && b < 64
    ensures var next := Shifted(Shifted(0, a), b);
      DecodeFrom([Letter(a), Letter(b)] + rest, 0, 0) == Then(Pushed(next, 4), DecodeFrom(rest, next, 4))
  {
    var tail := [Letter(b)] + rest;
    assert [Letter(a), Letter(b)] + rest == [Letter(a)] + tail;
    ReadLetter(a, tail, 0, 0);
    ReadLetter(b, rest, Shifted(0, a), 6);
  }

  /** The first two letters of a group give its first byte. */
  lemma ReadFirst(x: byte, low: nat, rest: string)
    requires low < 16
    ensures var r := DecodeFrom(rest, low, 4);
      DecodeFrom([Letter(x / 4), Letter(x % 4 * 16 + low)] + rest, 0, 0) == Then(x, r)
  {
    ReadTwo(x / 4, x % 4 * 16 + low, rest);
    FirstByte(x, low);
    OnlyUnreadBitsMatter(rest, 16 * x + low, low, 4);
  }

  lemma SecondByte(high: nat, low: nat)
    requires high < 16 && low < 64
    ensures Pushed(Shifted(high, low), 2) == high * 16 + low / 4 && Shifted(high, low) % 4 == low % 4
  {
    Unread4(high, low);
    assert (high * 64 + low) / 4 == high * 16 + low / 4;
  }

  lemma ReadSecond(high: nat, low: nat, rest: string)
    requires high < 16 && low < 64
    ensures var r := DecodeFrom(rest, low, 2);
      DecodeFrom([Letter(low)] + rest, high, 4) == Then(high * 16 + low / 4, r)
  {
    ReadLetter(low, rest, high, 4);
    SecondByte(high, low);
    OnlyUnreadBitsMatter(rest, Shifted(high, low), low, 2);
  }

  lemma ReadThird(high: nat, low: nat, rest: string)
    requires high < 64 && low < 64
    ensures var r := DecodeFrom(rest, 0, 0);
      DecodeFrom([Letter(low)] + rest, high, 2) == Then(high % 4 * 64 + low, r)
  {
    ReadLetter(low, rest, high, 2);
    Unread2(high, low);
    assert Pushed(Shifted(high, low), 0) == high % 4 * 64 + low;
    OnlyUnreadBitsMatter(rest, Shifted(high, low), 0, 0);
  }

  lemma ReadLast(y: byte, z: byte, rest: string)
    ensures DecodeFrom([Letter(y % 16 * 4 + z / 64), Letter(z % 64)] + rest, y / 16, 4) ==
      Then(y, Then(z, DecodeFrom(rest, 0, 0)))
  {
    var t3 := [Letter(z % 64)] + rest;
    SecondLetter(y, z);
    ReadSecond(y / 16, y % 16 * 4 + z / 64, t3);
    ReadThird(y % 16 * 4 + z / 64, z % 64, rest);
    assert [Letter(y % 16 * 4 + z / 64), Letter(z % 64)] + rest == [Letter(y % 16 * 4 + z / 64)] + t3;
  }

  /** A group of three, in front of anything. */
  lemma ReadGroup(x: byte, y: byte, z: byte, rest: string)
    ensures DecodeFrom([Letter(x / 4), Letter(x % 4 * 16 + y / 16), Letter(y % 16 * 4 + z / 64), Letter(z % 64)] + rest, 0, 0) ==
      Then(x, Then(y, Then(z, DecodeFrom(rest, 0, 0))))
  {
    var t2 := [Letter(y % 16 * 4 + z / 64), Letter(z % 64)] + rest;
    ReadFirst(x, y / 16, t2);
    ReadLast(y, z, rest);
    assert [Letter(x / 4), Letter(x % 4 * 16 + y / 16), Letter(y % 16 * 4 + z / 64), Letter(z % 64)] + rest
        == [Letter(x / 4), Letter(x % 4 * 16 + y / 16)] + t2;
  }

  lemma SecondLetter(y: byte, z: byte)
    ensures y / 16 * 16 + (y % 16 * 4 + z / 64) / 4 == y
    ensures (y % 16 * 4 + z / 64) % 4 * 64 + z % 64 == z
    ensures y % 16 * 4 + z / 64 < 64
  {
  }

  lemma ReadPair(x: byte, y: byte)
    ensures Decode([Letter(x / 4), Letter(x % 4 * 16 + y / 16)] + [Letter(y % 16 * 4)]) == Some([x, y])
  {
    var tail := [Letter(y % 16 * 4)];
    ReadFirst(x, y / 16, tail);
    assert tail + "" == tail;
    ReadSecond(y / 16, y % 16 * 4, "");
    assert [y / 16 * 16 + y % 16 * 4 / 4] == [y];
    assert [x] + ([y] + []) == [x, y];
  }

  lemma ReadSingle(x: byte)
    ensures Decode([Letter(x / 4), Letter(x % 4 * 16)]) == Some([x])
  {
    ReadFirst(x, 0, "");
    assert [Letter(x / 4), Letter(x % 4 * 16)] + "" == [Letter(x / 4), Letter(x % 4 * 16)];
    assert [x] + [] == [x];
  }

  /** Decoding inverts the unpadded url-safe encoding of every byte string. */
  lemma {:induction false} DecodeInvertsEncode(bytes: Bytes)
    ensures Decode(Encode(bytes)) == Some(bytes)
  {
    if |bytes| == 1 {
      ReadSingle(bytes[0]);
      assert [bytes[0]] == bytes;
    } else if |bytes| == 2 {
      ReadPair(bytes[0], bytes[1]);
      assert [bytes[0], bytes[1]] == bytes;
    } else if |bytes| > 2 {
      DecodeInvertsEncode(bytes[3..]);
      EncodeGroup(bytes);
      ReadGroup(bytes[0], bytes[1], bytes[2], Encode(bytes[3..]));
      assert [bytes[0]] + ([bytes[1]] + ([bytes[2]] + bytes[3..])) == bytes;
    }
  }

  lemma EncodeGroup(bytes: Bytes)
    requires |bytes| > 2
    ensures var x, y, z := bytes[0], bytes[1], bytes[2];
      Encode(bytes) ==
        [Letter(x / 4), Letter(x % 4 * 16 + y / 16), Letter(y % 16 * 4 + z / 64), Letter(z % 64)] + Encode(bytes[3..])
  {
  }

  /** The decoder's loop. */
  method Base64UrlDecode(input: string) returns (r: Option<Bytes>)
    ensures r == Decode(input)
  {
    var out: Bytes := [];
    var acc: nat, bits: nat := 0, 0;
    assert input[0..] == input;
    assert Decode(input).Some? ==> out + Decode(input).value == Decode(input).value;
    for i := 0 to |input|
      invariant BitCount(bits)
      invariant Decode(input) == Prepended(out, DecodeFrom(input[i..], acc, bits))
    {
      var c := input[i];
      assert input[i..][0] == c && input[i..][1..] == input[i + 1..];
      if c != '=' {
        var value := Sextet(c);
        if value.None? { return None; }
        acc := Shifted(acc, value.value);
        if bits + 6 < 8 {
          bits := bits + 6;
        } else {
          bits := bits - 2;
          PrependOne(out, Pushed(acc, bits), DecodeFrom(input[i + 1..], acc, bits));
          out := out + [Pushed(acc, bits)];
        }
      }
    }
    assert out + [] == out;
    r := Some(out);
  }

  lemma PrependOne(out: Bytes, b: byte, r: Option<Bytes>)
    ensures Prepended(out, Then(b, r)) == Prepended(out + [b], r)
  {
    if r.Some? { assert out + ([b] + r.value) == (out + [b]) + r.value; }
  }

  function Prepended(out: Bytes, r: Option<Bytes>): Option<Bytes> {
    if r.None? then None else Some(out + r.value)
  }

  // ----- the other alphabet -----

  /** The standard alphabet's two last letters replaced by the url-safe one's. */
  function UrlSafe(input: string): string {
    if input == "" then ""
    else [if input[0] == '+' then '-' else if input[0] == '/' then '_' else input[0]] + UrlSafe(input[1..])
  }

  /** Either alphabet decodes to the same bytes. */
  lemma {:induction false} AlphabetsAgree(input: string, acc: nat, bits: nat)
    requires BitCount(bits)
    ensures DecodeFrom(UrlSafe(input), acc, bits) == DecodeFrom(input, acc, bits)
  {
    if input != "" {
      assert UrlSafe(input)[1..] == UrlSafe(input[1..]);
      if input[0] == '=' {
        AlphabetsAgree(input[1..], acc, bits);
      } else if Sextet(input[0]).Some? {
        AlphabetsAgree(input[1..], Shifted(acc, Sextet(input[0]).value), if bits < 2 then bits + 6 else bits - 2);
      }
    }
  }
}
