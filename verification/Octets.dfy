/** Octets, hexadecimal digits, texts in ASCII, and a value that may be missing. */
module Octets {
  datatype Option<T> = None | Some(value: T)

  type Byte = x: int | 0 <= x < 256

  const CR: Byte := 13
  const LF: Byte := 10
  const CRLF: seq<Byte> := [CR, LF]

  predicate IsHex(c: Byte) {
    48 <= c <= 57 || 65 <= c <= 70 || 97 <= c <= 102
  }

  function HexVal(c: Byte): (v: nat)
    requires IsHex(c)
    ensures v < 16
  {
    if c <= 57 then c - 48 else if c <= 70 then c - 65 + 10 else c - 97 + 10
  }

  ghost predicate AllHex(s: seq<Byte>) {
    forall i :: 0 <= i < |s| ==> IsHex(s[i])
  }

  /** The number read when the digits `s` follow digits of value `acc`. */
  ghost function HexAcc(acc: nat, s: seq<Byte>): (v: nat)
    requires AllHex(s)
    ensures v >= acc
    decreases |s|
  {
    if s == [] then acc else HexAcc(acc * 16 + HexVal(s[0]), s[1..])
  }

  predicate IsAscii(s: string) {
    forall i :: 0 <= i < |s| ==> s[i] < 128 as char
  }

  /** The octets of a text in ASCII. */
  function Ascii(s: string): (r: seq<Byte>)
    requires IsAscii(s)
    ensures |r| == |s| && forall i :: 0 <= i < |s| ==> r[i] == s[i] as int
  {
    seq(|s|, i requires 0 <= i < |s| => s[i] as int)
  }
}
