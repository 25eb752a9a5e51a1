/** UTF-8 pools of a few short strings, for concrete documents. */
module SmallPools {
  import opened LittleEndian
  import opened Options
  import opened StringPools
  import opened StringPoolRoundTrip

  predicate Short(strings: seq<text>) {
    |strings| <= 100 && forall i :: 0 <= i < |strings| ==> |strings[i]| <= 100
  }

  function Small(strings: seq<text>): Pool {
    Pool(0, UTF8_FLAG, [], [], strings)
  }

  lemma ShortEncoded(s: text)
    requires |s| <= 100
    ensures |Encode(true, s)| <= 105
  {
  }

  lemma {:induction false} ShortConcat(strings: seq<text>)
    requires Short(strings)
    ensures |Concat(EncodeAll(true, strings))| <= 105 * |strings|
    decreases |strings|
  {
    hide Encode;
    if strings != [] {
      ShortEncoded(strings[0]);
      ShortConcat(strings[1..]);
    }
  }

  lemma SmallPrintable(strings: seq<text>)
    requires Short(strings)
    ensures Small(strings).Utf8() && Printable(Small(strings)) && 28 <= PrintedSize(Small(strings)) <= 20_000
  {
    hide Encode;
    assert UTF8_FLAG / UTF8_FLAG % 2 == 1;
    ShortConcat(strings);
    StoredShort(strings);
  }

  lemma StoredShort(strings: seq<text>)
    requires Short(strings)
    ensures forall i :: 0 <= i < |strings| ==> Storable(true, strings[i])
  {
  }
}
