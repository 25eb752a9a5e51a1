/**
 Go strings as byte strings, and their conversion to and from runes: invalid bytes decode
 to U+FFFD one at a time, invalid runes encode as U+FFFD.
 */
module Utf8 {
  import opened LittleEndian

  type rune = nat

  const REPLACEMENT: rune := 0xfffd

  predicate IsScalar(r: rune) {
    r < 0xd800 || 0xe000 <= r <= 0x10ffff
  }

  function EncodeRune(r: rune): (s: bytes)
    ensures 1 <= |s| <= 4
  {
    if !IsScalar(r) then [0xef, 0xbf, 0xbd]
    else if r < 0x80 then [r]
    else if r < 0x800 then [0xc0 + r / 0x40, 0x80 + r % 0x40]
    else if r < 0x1_0000 then [0xe0 + r / 0x1000, 0x80 + r / 0x40 % 0x40, 0x80 + r % 0x40]
    else [0xf0 + r / 0x4_0000, 0x80 + r / 0x1000 % 0x40, 0x80 + r / 0x40 % 0x40, 0x80 + r % 0x40]
  }

  predicate Continues(b: byte) {
    0x80 <= b <= 0xbf
  }

  /** How many bytes a first byte announces, and the range its second byte must lie in; 0 for an invalid first byte. */
  function Announces(b: byte): (nat, int, int) {
    if b < 0x80 then (1, 0, 0)
    else if 0xc2 <= b <= 0xdf then (2, 0x80, 0xbf)
    else if b == 0xe0 then (3, 0xa0, 0xbf)
    else if b == 0xed then (3, 0x80, 0x9f)
    else if 0xe1 <= b <= 0xef then (3, 0x80, 0xbf)
    else if b == 0xf0 then (4, 0x90, 0xbf)
    else if 0xf1 <= b <= 0xf3 then (4, 0x80, 0xbf)
    else if b == 0xf4 then (4, 0x80, 0x8f)
    else (0, 0, 0)
  }

  /** The first rune of a non-empty string, and the number of bytes it takes. */
  function DecodeRune(s: bytes): (d: (rune, nat))
    requires s != []
    ensures 1 <= d.1 <= |s|
    ensures IsScalar(d.0)
  {
    var (n, lo, hi) := Announces(s[0]);
    if n == 1 then (s[0], 1)
    else if n == 0 || |s| < n || !(lo <= s[1] <= hi) || (n > 2 && !Continues(s[2])) || (n > 3 && !Continues(s[3])) then
      (REPLACEMENT, 1)
    else (Payload(s[..n]), n)
  }

  /** The rune whose bits a complete sequence of two to four bytes carries. */
  function Payload(s: bytes): (r: int)
    requires 2 <= |s| <= 4
    requires var (n, lo, hi) := Announces(s[0]);
             n == |s| && lo <= s[1] <= hi && (n > 2 ==> Continues(s[2])) && (n > 3 ==> Continues(s[3]))
    ensures r >= 0 && IsScalar(r)
  {
    var b0: int, b1: int := s[0], s[1];
    if |s| == 2 then (b0 - 0xc0) * 0x40 + (b1 - 0x80)
    else
      var b2: int := s[2];
      if |s| == 3 then (b0 - 0xe0) * 0x1000 + (b1 - 0x80) * 0x40 + (b2 - 0x80)
      else
        var b3: int := s[3];
        (b0 - 0xf0) * 0x4_0000 + (b1 - 0x80) * 0x1000 + (b2 - 0x80) * 0x40 + (b3 - 0x80)
  }

  /** The runes of a string. */
  function Runes(s: bytes): (rs: seq<rune>)
    ensures |rs| <= |s|
    ensures forall i :: 0 <= i < |rs| ==> IsScalar(rs[i])
  {
    if s == [] then [] else [DecodeRune(s).0] + Runes(s[DecodeRune(s).1..])
  }

  /** The string of a rune sequence. */
  function OfRunes(rs: seq<rune>): bytes {
    if rs == [] then [] else EncodeRune(rs[0]) + OfRunes(rs[1..])
  }

  predicate AllScalar(rs: seq<rune>) {
    forall i :: 0 <= i < |rs| ==> IsScalar(rs[i])
  }

  /** A string is valid when converting it to runes and back changes nothing. */
  predicate Valid(s: bytes) {
    OfRunes(Runes(s)) == s
  }

  /** A complete sequence of two to four bytes that carries r. */
  predicate Carries(s: bytes, r: rune) {
    && 2 <= |s| <= 4
    && var (n, lo, hi) := Announces(s[0]);
       && n == |s| && lo <= s[1] <= hi && (n > 2 ==> Continues(s[2])) && (n > 3 ==> Continues(s[3]))
       && Payload(s) == r
  }

  lemma FourBytes(r: rune)
    requires 0x1_0000 <= r <= 0x10ffff
    ensures Carries(EncodeRune(r), r)
  {
    hide *;
    FourParts(r);
    FourEncoded(r);
    FourCarried(r / 0x4_0000, r / 0x1000 % 0x40, r / 0x40 % 0x40, r % 0x40);
  }

  lemma FourParts(r: nat)
    requires 0x1_0000 <= r <= 0x10ffff
    ensures var a, b, c, d := r / 0x4_0000, r / 0x1000 % 0x40, r / 0x40 % 0x40, r % 0x40;
            && a <= 4 && b < 0x40 && c < 0x40 && d < 0x40 && r == a * 0x4_0000 + b * 0x1000 + c * 0x40 + d
            && (a == 0 ==> b >= 0x10) && (a == 4 ==> b <= 0xf)
  {
  }

  lemma FourCarried(a: nat, b: nat, c: nat, d: nat)
    requires a <= 4 && b < 0x40 && c < 0x40 && d < 0x40 && (a == 0 ==> b >= 0x10) && (a == 4 ==> b <= 0xf)
    ensures Carries([0xf0 + a, 0x80 + b, 0x80 + c, 0x80 + d], a * 0x4_0000 + b * 0x1000 + c * 0x40 + d)
  {
  }

  lemma FourEncoded(r: rune)
    requires 0x1_0000 <= r <= 0x10ffff
    ensures EncodeRune(r) == [0xf0 + r / 0x4_0000, 0x80 + r / 0x1000 % 0x40, 0x80 + r / 0x40 % 0x40, 0x80 + r % 0x40]
  {
  }

  lemma ThreeBytes(r: rune)
    requires 0x800 <= r < 0x1_0000 && IsScalar(r)
    ensures Carries(EncodeRune(r), r)
  {
    var a, b, c := r / 0x1000, r / 0x40 % 0x40, r % 0x40;
    assert r == a * 0x1000 + b * 0x40 + c;
  }

  lemma TwoBytes(r: rune)
    requires 0x80 <= r < 0x800
    ensures Carries(EncodeRune(r), r)
  {
  }

  lemma DecodeEncoded(r: rune, tail: bytes)
    requires IsScalar(r)
    ensures DecodeRune(EncodeRune(r) + tail) == (r, |EncodeRune(r)|)
  {
    hide EncodeRune, Payload, Announces;
    var s := EncodeRune(r) + tail;
    assert s[..|EncodeRune(r)|] == EncodeRune(r);
    assert forall i :: 0 <= i < |EncodeRune(r)| ==> s[i] == EncodeRune(r)[i];
    if r >= 0x80 {
      if r < 0x800 { TwoBytes(r); } else if r < 0x1_0000 { ThreeBytes(r); } else { FourBytes(r); }
    } else {
      EncodedByte(r);
    }
  }

  lemma EncodedByte(r: rune)
    requires r < 0x80
    ensures EncodeRune(r) == [r] && Announces(r) == (1, 0, 0)
  {
  }

  /** Runes survive the trip through a string. */
  lemma {:induction false} RunesOfRunes(rs: seq<rune>)
    requires AllScalar(rs)
    ensures Runes(OfRunes(rs)) == rs
  {
    if rs != [] {
      var tail := OfRunes(rs[1..]);
      DecodeEncoded(rs[0], tail);
      RunesOfRunes(rs[1..]);
      assert OfRunes(rs)[|EncodeRune(rs[0])|..] == tail;
    }
  }

  /** The string of scalar runes is valid. */
  lemma OfRunesValid(rs: seq<rune>)
    requires AllScalar(rs)
    ensures Valid(OfRunes(rs))
  {
    RunesOfRunes(rs);
  }

  lemma {:induction false} OfRunesConcat(a: seq<rune>, b: seq<rune>)
    ensures OfRunes(a + b) == OfRunes(a) + OfRunes(b)
  {
    if a == [] {
      assert a + b == b;
    } else {
      assert (a + b)[1..] == a[1..] + b;
      OfRunesConcat(a[1..], b);
    }
  }
}
