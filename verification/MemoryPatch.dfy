/** Patching memory: word by word writes, whole-rune truncation of texts, and several patches after each other. */
module MemoryPatch {
  import opened LittleEndian
  import opened Options
  import Utf8
  import opened MemorySearch
  import Arithmetic

  // ----- Writing -----

  /** Memory with the value written at an address. */
  function Written(m: bytes, at: nat, value: bytes): (r: bytes)
    requires at + |value| <= |m|
    ensures |r| == |m|
  {
    m[..at] + value + m[at + |value|..]
  }

  /** A word of memory, and the same word put back changed. */
  method PeekWord(mem: array<byte>, addr: nat, size: nat) returns (word: array<byte>)
    requires addr + size <= mem.Length
    ensures fresh(word) && word[..] == mem[addr..addr + size]
  {
    word := new byte[size](i requires 0 <= i < size && addr + size <= mem.Length reads mem => mem[addr + i]);
  }

  method PokeWord(mem: array<byte>, addr: nat, word: array<byte>)
    requires addr + word.Length <= mem.Length && word != mem
    modifies mem
    ensures mem[..] == Written(old(mem[..]), addr, word[..])
  {
    for i := 0 to word.Length
      invariant mem[addr..addr + i] == word[..i]
      invariant mem[..addr] == old(mem[..addr]) && mem[addr + i..] == old(mem[addr + i..])
    {
      mem[addr + i] := word[i];
    }
    assert mem[..] == mem[..addr] + mem[addr..addr + word.Length] + mem[addr + word.Length..];
  }

  /** The bytes of a word that lie in the target are replaced, the others kept. */
  method MergeWord(word: array<byte>, wordAddr: nat, at: nat, value: bytes)
    modifies word
    ensures forall i :: 0 <= i < word.Length ==>
              word[i] == if at <= wordAddr + i < at + |value| then value[wordAddr + i - at] else old(word[i])
  {
    for i := 0 to word.Length
      invariant forall k :: 0 <= k < i ==>
                  word[k] == if at <= wordAddr + k < at + |value| then value[wordAddr + k - at] else old(word[k])
      invariant forall k :: i <= k < word.Length ==> word[k] == old(word[k])
    {
      var abs := wordAddr + i;
      if abs >= at && abs < at + |value| {
        word[i] := value[abs - at];
      }
    }
  }

  /** Memory of which the words before end have been written. */
  predicate WrittenUpTo(now: bytes, was: bytes, at: nat, value: bytes, end: nat)
    requires |now| == |was| && at + |value| <= |was|
  {
    && (forall k :: 0 <= k < |now| && k < end ==> now[k] == Written(was, at, value)[k])
    && (forall k :: 0 <= k < |now| && k >= end ==> now[k] == was[k])
  }

  /** One word read, merged and written. */
  method RewriteWord(mem: array<byte>, wordAddr: nat, size: nat, at: nat, value: bytes, ghost was: bytes)
    requires wordAddr + size <= mem.Length == |was| && at + |value| <= |was|
    requires WrittenUpTo(mem[..], was, at, value, wordAddr)
    modifies mem
    ensures WrittenUpTo(mem[..], was, at, value, wordAddr + size)
  {
    var word := PeekWord(mem, wordAddr, size);
    ghost var before := word[..];
    MergeWord(word, wordAddr, at, value);
    PokeWord(mem, wordAddr, word);
    ghost var now := mem[..];
    forall k | 0 <= k < |now| ensures k < wordAddr + size ==> now[k] == Written(was, at, value)[k]
                              ensures k >= wordAddr + size ==> now[k] == was[k] {
      if wordAddr <= k < wordAddr + size {
        assert now[k] == word[k - wordAddr];
        assert before[k - wordAddr] == was[k];
      }
    }
  }

  lemma AlignedBound(addr: nat, end: nat, size: nat, length: nat)
    requires size > 0 && addr % size == 0 && addr < end <= length && length % size == 0
    ensures addr + size <= length && (addr + size) % size == 0
  {
    var a, b := addr / size, length / size;
    Arithmetic.ExactDivision(addr, size);
    Arithmetic.ExactDivision(length, size);
    NextWord(a, b, size);
  }

  lemma NextWord(a: nat, b: nat, size: nat)
    requires size > 0 && size * a < size * b
    ensures size * a + size <= size * b && (size * a + size) % size == 0
  {
    Arithmetic.ProductOrder(size, b, a);
    Arithmetic.ProductOrder(size, a + 1, b);
    Arithmetic.ProductOrder(size, a, b);
    Arithmetic.MultipleOf(a + 1, size);
  }

  lemma Remainders(k: nat, size: nat)
    requires size > 0
    ensures size * k % size == 0
  {
    Arithmetic.MultipleOf(k, size);
  }

  /**
   writeMemoryPtraceSafe: memory is read and written in whole aligned words, and comes out as if just
   the bytes of the value had been written.
   */
  method WriteMemoryByWords(mem: array<byte>, size: nat, at: nat, value: bytes)
    requires size > 0 && mem.Length % size == 0 && at + |value| <= mem.Length
    modifies mem
    ensures mem[..] == Written(old(mem[..]), at, value)
  {
    ghost var was := mem[..];
    if value == [] {
      assert Written(was, at, value) == was;
      return;
    }
    var end := at + |value|;
    var wordAddr: nat := at - at % size;
    AlignedStart(at, size);
    StartsUnwritten(was, at, value, wordAddr);
    while wordAddr < end
      invariant wordAddr % size == 0 && wordAddr <= mem.Length
      invariant WrittenUpTo(mem[..], was, at, value, wordAddr)
    {
      AlignedBound(wordAddr, end, size, mem.Length);
      RewriteWord(mem, wordAddr, size, at, value, was);
      wordAddr := wordAddr + size;
    }
    AllWritten(mem[..], was, at, value, wordAddr);
  }

  lemma AlignedStart(at: nat, size: nat)
    requires size > 0
    ensures (at - at % size) % size == 0
  {
    assert at - at % size == size * (at / size);
    Remainders(at / size, size);
  }

  lemma StartsUnwritten(was: bytes, at: nat, value: bytes, start: nat)
    requires at + |value| <= |was| && start <= at
    ensures WrittenUpTo(was, was, at, value, start)
  {
  }

  lemma AllWritten(now: bytes, was: bytes, at: nat, value: bytes, end: nat)
    requires |now| == |was| && at + |value| <= |was| && WrittenUpTo(now, was, at, value, end) && end >= at + |value|
    ensures now == Written(was, at, value)
  {
  }

  // ----- Several patches -----

  datatype Patch = Patch(at: nat, value: bytes)

  predicate Inside(m: bytes, patches: seq<Patch>) {
    forall i :: 0 <= i < |patches| ==> patches[i].at + |patches[i].value| <= |m|
  }

  function WrittenAll(m: bytes, patches: seq<Patch>): (r: bytes)
    requires Inside(m, patches)
    ensures |r| == |m|
    decreases |patches|
  {
    if patches == [] then m else WrittenAll(Written(m, patches[0].at, patches[0].value), patches[1..])
  }

  /** The loop of PatchWithPtrace. */
  method WritePatches(mem: array<byte>, size: nat, patches: seq<Patch>)
    requires size > 0 && mem.Length % size == 0 && Inside(mem[..], patches)
    modifies mem
    ensures Inside(old(mem[..]), patches) && mem[..] == WrittenAll(old(mem[..]), patches)
  {
    assert patches[0..] == patches;
    for i := 0 to |patches|
      invariant Inside(mem[..], patches[i..])
      invariant WrittenAll(old(mem[..]), patches) == WrittenAll(mem[..], patches[i..])
    {
      assert patches[i..][0] == patches[i] && patches[i..][1..] == patches[i + 1..];
      WriteMemoryByWords(mem, size, patches[i].at, patches[i].value);
    }
  }

  predicate Covers(p: Patch, k: nat) {
    p.at <= k < p.at + |p.value|
  }

  ghost predicate Apart(patches: seq<Patch>) {
    forall i, j, k: nat :: 0 <= i < j < |patches| && Covers(patches[i], k) ==> !Covers(patches[j], k)
  }

  /** Patches that do not overlap all stand in memory afterwards, and no other byte has changed. */
  lemma {:induction false} PatchesChangeOnlyTheirRanges(m: bytes, patches: seq<Patch>, k: nat)
    requires Inside(m, patches) && Apart(patches) && k < |m|
    ensures forall i :: 0 <= i < |patches| && Covers(patches[i], k) ==>
              WrittenAll(m, patches)[k] == patches[i].value[k - patches[i].at]
    ensures (forall i :: 0 <= i < |patches| ==> !Covers(patches[i], k)) ==> WrittenAll(m, patches)[k] == m[k]
    decreases |patches|
  {
    if patches != [] {
      var first, rest := patches[0], patches[1..];
      var next := Written(m, first.at, first.value);
      assert forall i :: 0 <= i < |rest| ==> rest[i] == patches[i + 1];
      assert Apart(rest) by {
        forall i, j, x: nat | 0 <= i < j < |rest| && Covers(rest[i], x) ensures !Covers(rest[j], x) {
          assert rest[i] == patches[i + 1] && rest[j] == patches[j + 1];
        }
      }
      PatchesChangeOnlyTheirRanges(next, rest, k);
      if Covers(first, k) {
        assert next[k] == first.value[k - first.at];
        assert forall i :: 0 <= i < |rest| ==> !Covers(rest[i], k);
      } else {
        assert next[k] == m[k];
      }
    }
  }

  // ----- Texts cut at whole runes -----

  /** How many runes fit into so many bytes. */
  function FitCount(rs: seq<Utf8.rune>, max: nat): (k: nat)
    ensures k <= |rs|
  {
    if rs == [] || |Utf8.EncodeRune(rs[0])| > max then 0
    else 1 + FitCount(rs[1..], max - |Utf8.EncodeRune(rs[0])|)
  }

  /** They do fit, and one more would not. */
  lemma {:induction false} FitCountIsLongest(rs: seq<Utf8.rune>, max: nat)
    ensures var k := FitCount(rs, max);
            && |Utf8.OfRunes(rs[..k])| <= max
            && (k < |rs| ==> |Utf8.OfRunes(rs[..k + 1])| > max)
    decreases |rs|
  {
    hide Utf8.EncodeRune;
    var k := FitCount(rs, max);
    if rs != [] && |Utf8.EncodeRune(rs[0])| <= max {
      FitCountIsLongest(rs[1..], max - |Utf8.EncodeRune(rs[0])|);
      assert rs[..k][1..] == rs[1..][..k - 1];
      if k < |rs| { assert rs[..k + 1][1..] == rs[1..][..k]; }
    } else if rs != [] {
      assert Utf8.OfRunes(rs[..1]) == Utf8.EncodeRune(rs[0]) + Utf8.OfRunes(rs[..1][1..]);
    }
  }

  /** Where the runes that fit end: the loop over a text's runes, so many bytes having been used. */
  function EndOfFit(value: bytes, offset: nat, used: nat, end: nat, max: nat): (e: nat)
    requires offset <= |value| && end <= used <= max && offset <= used
    ensures e <= max
    decreases |value| - offset
  {
    if offset == |value| then end
    else
      var (r, n) := Utf8.DecodeRune(value[offset..]);
      var count := |Utf8.EncodeRune(r)|;
      if used + count > max then end
      else
        DecodedNotLonger(value[offset..]);
        EndOfFit(value, offset + n, used + count, offset + count, max)
  }

  /** An encoded rune takes at least the bytes that were decoded for it. */
  lemma DecodedNotLonger(s: bytes)
    requires s != []
    ensures |Utf8.EncodeRune(Utf8.DecodeRune(s).0)| >= Utf8.DecodeRune(s).1
  {
  }

  function Trimmed(value: bytes, max: nat): (r: bytes)
    ensures |r| <= max
  {
    if max == 0 || value == [] then []
    else if |value| <= max then value
    else value[..EndOfFit(value, 0, 0, 0, max)]
  }

  /** trimStringToByteLimit. */
  method TrimStringToByteLimit(value: bytes, max: nat) returns (r: bytes)
    ensures r == Trimmed(value, max)
  {
    hide Utf8.DecodeRune, Utf8.EncodeRune;
    if max == 0 || value == [] {
      return [];
    }
    var used, end, offset := 0, 0, 0;
    while offset < |value|
      invariant 0 <= offset <= |value| && 0 <= end <= used <= max && offset <= used
      invariant EndOfFit(value, offset, used, end, max) == EndOfFit(value, 0, 0, 0, max)
      decreases |value| - offset
    {
      var (rune, n) := Utf8.DecodeRune(value[offset..]);
      var byteCount := |Utf8.EncodeRune(rune)|;
      if used + byteCount > max {
        break;
      }
      DecodedNotLonger(value[offset..]);
      used := used + byteCount;
      end := offset + byteCount;
      offset := offset + n;
    }
    if |value| <= max {
      return value;
    }
    if end == 0 {
      return [];
    }
    return value[..end];
  }

  lemma {:induction false} EndOfFitIs(front: bytes, rs: seq<Utf8.rune>, max: nat)
    requires Utf8.AllScalar(rs) && |front| <= max
    ensures EndOfFit(front + Utf8.OfRunes(rs), |front|, |front|, |front|, max)
         == |front| + |Utf8.OfRunes(rs[..FitCount(rs, max - |front|)])|
    decreases |rs|
  {
    hide Utf8.DecodeRune, Utf8.EncodeRune;
    var value := front + Utf8.OfRunes(rs);
    if rs != [] {
      var first := Utf8.EncodeRune(rs[0]);
      var rest := Utf8.OfRunes(rs[1..]);
      assert value[|front|..] == first + rest;
      Utf8.DecodeEncoded(rs[0], rest);
      var k := FitCount(rs, max - |front|);
      if |front| + |first| <= max {
        assert value == (front + first) + rest;
        EndOfFitIs(front + first, rs[1..], max);
        assert rs[..k][1..] == rs[1..][..k - 1];
      } else {
        assert rs[..k] == [];
      }
    } else {
      assert value == front;
    }
  }

  /** A valid text is cut to its longest whole-rune prefix of at most max bytes. */
  lemma TrimmedIsLongestPrefix(value: bytes, max: nat)
    requires Utf8.Valid(value)
    ensures Trimmed(value, max) == Utf8.OfRunes(Utf8.Runes(value)[..FitCount(Utf8.Runes(value), max)])
    ensures Utf8.Valid(Trimmed(value, max))
  {
    hide *;
    var rs := Utf8.Runes(value);
    var k := FitCount(rs, max);
    ValidIs(value);
    SplitRunes(rs, k);
    FitCountIsLongest(rs, max);
    EndOfFitIs([], rs, max);
    assert [] + Utf8.OfRunes(rs) == value;
    Utf8.OfRunesValid(rs[..k]);
    WholeFits(rs, max);
    TrimmedCases(value, rs, k, max);
  }

  lemma ValidIs(value: bytes)
    requires Utf8.Valid(value)
    ensures Utf8.OfRunes(Utf8.Runes(value)) == value && Utf8.AllScalar(Utf8.Runes(value))
    ensures forall k :: 0 <= k <= |Utf8.Runes(value)| ==> Utf8.AllScalar(Utf8.Runes(value)[..k])
  {
    hide Utf8.DecodeRune, Utf8.EncodeRune;
  }

  lemma SplitRunes(rs: seq<Utf8.rune>, k: nat)
    requires k <= |rs|
    ensures Utf8.OfRunes(rs) == Utf8.OfRunes(rs[..k]) + Utf8.OfRunes(rs[k..])
  {
    assert rs == rs[..k] + rs[k..];
    Utf8.OfRunesConcat(rs[..k], rs[k..]);
  }

  lemma TrimmedCases(value: bytes, rs: seq<Utf8.rune>, k: nat, max: nat)
    requires value == Utf8.OfRunes(rs) && k <= |rs| && |Utf8.OfRunes(rs[..k])| <= max
    requires value == Utf8.OfRunes(rs[..k]) + Utf8.OfRunes(rs[k..])
    requires |value| <= max ==> k == |rs|
    requires EndOfFit(value, 0, 0, 0, max) == |Utf8.OfRunes(rs[..k])|
    ensures Trimmed(value, max) == Utf8.OfRunes(rs[..k])
  {
    hide EndOfFit, Utf8.OfRunes;
    if |value| <= max { assert rs[..k] == rs; }
  }

  lemma {:induction false} WholeFits(rs: seq<Utf8.rune>, max: nat)
    ensures |Utf8.OfRunes(rs)| <= max ==> FitCount(rs, max) == |rs|
    ensures max == 0 ==> FitCount(rs, max) == 0
    decreases |rs|
  {
    hide Utf8.EncodeRune;
    if rs != [] && |Utf8.EncodeRune(rs[0])| <= max { WholeFits(rs[1..], max - |Utf8.EncodeRune(rs[0])|); }
  }

  // ----- The bytes to write -----

  /** StringToBytes: through runes and back. */
  function StringToBytes(value: bytes): bytes {
    Utf8.OfRunes(Utf8.Runes(value))
  }

  function Padded(value: bytes, length: nat): (r: bytes)
    ensures |r| == if |value| < length then length else |value|
  {
    value + if |value| < length then Zeros(length - |value|) else []
  }

  /** patchBytesForAddress for a text found before, with truncation: what to write, and whether it was cut. */
  function PatchBytes(value: bytes, limit: nat): (bytes, bool) {
    var whole := StringToBytes(value);
    if limit == 0 then (whole, false)
    else if |whole| > limit then (Padded(StringToBytes(Trimmed(value, limit)), limit), true)
    else (Padded(whole, limit), false)
  }

  /** It has exactly the length of what it replaces: the longest whole-rune prefix that fits, and zeros. */
  lemma PatchBytesFit(value: bytes, limit: nat)
    requires Utf8.Valid(value) && limit > 0
    ensures var (patch, cut) := PatchBytes(value, limit);
            && |patch| == limit && (cut <==> |value| > limit)
            && patch == Padded(Utf8.OfRunes(Utf8.Runes(value)[..FitCount(Utf8.Runes(value), limit)]), limit)
  {
    TrimmedIsLongestPrefix(value, limit);
  }

  /** A patch for every address a greedy search found. */
  function PatchesAt(places: seq<nat>, value: bytes): (ps: seq<Patch>)
    ensures |ps| == |places|
    ensures forall i :: 0 <= i < |ps| ==> ps[i] == Patch(places[i], value)
  {
    seq(|places|, i requires 0 <= i < |places| => Patch(places[i], value))
  }
}
