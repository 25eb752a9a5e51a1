/** Runes as 16 bit units: lone surrogates decode to U+FFFD. */
module Utf16 {
  import opened LittleEndian
  import opened Utf8

  type unit = u: nat | u < 0x1_0000

  function EncodeUnits(rs: seq<rune>): seq<unit> {
    if rs == [] then []
    else
      var r := if IsScalar(rs[0]) then rs[0] else REPLACEMENT;
      (if r < 0x1_0000 then [r] else [0xd800 + (r - 0x1_0000) / 0x400, 0xdc00 + (r - 0x1_0000) % 0x400])
      + EncodeUnits(rs[1..])
  }

  predicate IsPair(us: seq<unit>) {
    |us| >= 2 && 0xd800 <= us[0] < 0xdc00 && 0xdc00 <= us[1] < 0xe000
  }

  function DecodeUnits(us: seq<unit>): (rs: seq<rune>)
    ensures AllScalar(rs)
  {
    if us == [] then []
    else if IsPair(us) then
      [0x1_0000 + (us[0] - 0xd800) * 0x400 + (us[1] - 0xdc00)] + DecodeUnits(us[2..])
    else [if 0xd800 <= us[0] < 0xe000 then REPLACEMENT else us[0]] + DecodeUnits(us[1..])
  }

  /** Runes survive the trip through units. */
  lemma {:induction false} DecodeEncodedUnits(rs: seq<rune>)
    requires AllScalar(rs)
    ensures DecodeUnits(EncodeUnits(rs)) == rs
  {
    if rs != [] {
      DecodeEncodedUnits(rs[1..]);
      var us := EncodeUnits(rs);
      if rs[0] < 0x1_0000 {
        assert us[1..] == EncodeUnits(rs[1..]);
      } else {
        assert us[2..] == EncodeUnits(rs[1..]);
      }
    }
  }

  /** Decoding and encoding again takes as many units as before. */
  lemma {:induction false} UnitCountKept(us: seq<unit>)
    ensures |EncodeUnits(DecodeUnits(us))| == |us|
  {
    if us != [] {
      if IsPair(us) {
        UnitCountKept(us[2..]);
        assert DecodeUnits(us)[1..] == DecodeUnits(us[2..]);
      } else {
        UnitCountKept(us[1..]);
        assert DecodeUnits(us)[1..] == DecodeUnits(us[1..]);
      }
    }
  }
}
