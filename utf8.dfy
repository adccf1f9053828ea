/**
 * `bytes.decode('utf-8', errors='ignore')`. The well-formed UTF-8 sequences are those of
 * table 3-7 of the Unicode Standard (section 3.9). The decoder reads one well-formed
 * sequence at a time. A byte that does not start one is dropped and decoding goes on with
 * the next byte. With `ignore`, this drops exactly the bytes CPython's decoder discards:
 * a continuation byte it swallows into an error range is itself an invalid start byte.
 */
module Utf8 {
  type byte = b: int | 0 <= b < 256

  predicate Continuation(b: byte) {
    0x80 <= b <= 0xBF
  }

  /** The length of the well-formed sequence at the start of `bs`, or 0 when there is none. */
  function SequenceLength(bs: seq<byte>): (n: nat)
    ensures n <= |bs| && n <= 4
    ensures bs != [] && bs[0] < 0x80 ==> n == 1
  {
    if bs == [] then 0
    else if bs[0] < 0x80 then 1
    else if 0xC2 <= bs[0] <= 0xDF then
      if |bs| >= 2 && Continuation(bs[1]) then 2 else 0
    else if 0xE0 <= bs[0] <= 0xEF then
      var lo := if bs[0] == 0xE0 then 0xA0 else 0x80;
      var hi := if bs[0] == 0xED then 0x9F else 0xBF;
      if |bs| >= 3 && lo <= bs[1] <= hi && Continuation(bs[2]) then 3 else 0
    else if 0xF0 <= bs[0] <= 0xF4 then
      var lo := if bs[0] == 0xF0 then 0x90 else 0x80;
      var hi := if bs[0] == 0xF4 then 0x8F else 0xBF;
      if |bs| >= 4 && lo <= bs[1] <= hi && Continuation(bs[2]) && Continuation(bs[3]) then 4 else 0
    else 0
  }

  /** The scalar value a well-formed sequence encodes. */
  function DecodeSequence(bs: seq<byte>): char
    requires SequenceLength(bs) > 0
  {
    var n := SequenceLength(bs);
    var b0: int := bs[0];
    if n == 1 then b0 as char
    else
      var b1: int := bs[1];
      if n == 2 then ((b0 - 0xC0) * 64 + (b1 - 0x80)) as char
      else
        var b2: int := bs[2];
        if n == 3 then (((b0 - 0xE0) * 64 + (b1 - 0x80)) * 64 + (b2 - 0x80)) as char
        else
          var b3: int := bs[3];
          ((((b0 - 0xF0) * 64 + (b1 - 0x80)) * 64 + (b2 - 0x80)) * 64 + (b3 - 0x80)) as char
  }

  /** `bs.decode('utf-8', errors='ignore')` */
  function DecodeIgnore(bs: seq<byte>): (t: string)
    ensures |t| <= |bs|
    decreases |bs|
  {
    if bs == [] then []
    else if SequenceLength(bs) == 0 then DecodeIgnore(bs[1..])
    else [DecodeSequence(bs)] + DecodeIgnore(bs[SequenceLength(bs)..])
  }

  /** `c.encode('utf-8')` */
  function EncodeChar(c: char): (bs: seq<byte>)
    ensures 1 <= |bs| <= 4
  {
    var v := c as int;
    if v < 0x80 then [v]
    else if v < 0x800 then [0xC0 + v / 64, 0x80 + v % 64]
    else if v < 0x10000 then [0xE0 + v / 64 / 64, 0x80 + v / 64 % 64, 0x80 + v % 64]
    else [0xF0 + v / 64 / 64 / 64, 0x80 + v / 64 / 64 % 64, 0x80 + v / 64 % 64, 0x80 + v % 64]
  }

  /** `s.encode('utf-8')` */
  function Encode(s: string): seq<byte> {
    if s == [] then [] else EncodeChar(s[0]) + Encode(s[1..])
  }

  /** The encoding of a character is one well-formed sequence, whatever follows it, and decodes back. */
  lemma EncodeCharDecodes(c: char, rest: seq<byte>)
    ensures SequenceLength(EncodeChar(c) + rest) == |EncodeChar(c)|
    ensures DecodeSequence(EncodeChar(c) + rest) == c
  {
    var v := c as int;
    var bs := EncodeChar(c) + rest;
    var q, r := v / 64, v % 64;
    assert v == 64 * q + r;
    if v >= 0x10000 {
      var q2, r2 := q / 64, q % 64;
      assert q == 64 * q2 + r2;
      var q3, r3 := q2 / 64, q2 % 64;
      assert q2 == 64 * q3 + r3;
      assert bs[..4] == [0xF0 + q3, 0x80 + r3, 0x80 + r2, 0x80 + r];
    } else if v >= 0x800 {
      var q2, r2 := q / 64, q % 64;
      assert q == 64 * q2 + r2;
      assert bs[..3] == [0xE0 + q2, 0x80 + r2, 0x80 + r];
    } else if v >= 0x80 {
      assert bs[..2] == [0xC0 + q, 0x80 + r];
    }
  }

  /** Decoding undoes encoding: no valid text loses a character. */
  lemma {:induction false} DecodeEncode(s: string)
    ensures DecodeIgnore(Encode(s)) == s
  {
    if s != [] {
      var e, rest := EncodeChar(s[0]), Encode(s[1..]);
      EncodeCharDecodes(s[0], rest);
      assert (e + rest)[|e|..] == rest;
      DecodeEncode(s[1..]);
      assert s == [s[0]] + s[1..];
    }
  }

  /** ASCII bytes decode one character each, to themselves. */
  lemma {:induction false} DecodeAscii(bs: seq<byte>)
    requires forall i :: 0 <= i < |bs| ==> bs[i] < 0x80
    ensures DecodeIgnore(bs) == seq(|bs|, i requires 0 <= i < |bs| => bs[i] as char)
  {
    if bs != [] {
      DecodeAscii(bs[1..]);
      assert SequenceLength(bs) == 1 && DecodeSequence(bs) == bs[0] as char;
      assert DecodeIgnore(bs) == [bs[0] as char] + DecodeIgnore(bs[1..]);
      var t := seq(|bs|, i requires 0 <= i < |bs| => bs[i] as char);
      assert t == [bs[0] as char] + seq(|bs| - 1, i requires 0 <= i < |bs| - 1 => bs[1..][i] as char);
    }
  }

  /** An ASCII prefix decodes on its own, whatever follows it. */
  lemma {:induction false} DecodeAsciiPrefix(a: seq<byte>, b: seq<byte>)
    requires forall i :: 0 <= i < |a| ==> a[i] < 0x80
    ensures DecodeIgnore(a + b) == seq(|a|, i requires 0 <= i < |a| => a[i] as char) + DecodeIgnore(b)
  {
    if a == [] {
      assert a + b == b;
    } else {
      assert (a + b)[1..] == a[1..] + b;
      DecodeAsciiPrefix(a[1..], b);
    }
  }

  /** A byte that starts no well-formed sequence is dropped. */
  lemma DecodeDropsInvalid(b: byte, rest: seq<byte>)
    requires b >= 0x80 && SequenceLength([b] + rest) == 0
    ensures DecodeIgnore([b] + rest) == DecodeIgnore(rest)
  {
    assert ([b] + rest)[1..] == rest;
  }
}
