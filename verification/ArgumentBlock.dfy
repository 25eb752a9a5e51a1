/** Arguments as one block of NUL-terminated strings, built on one side and taken apart on the other. */
module ArgumentBlock {
  import opened LittleEndian
  import opened Options

  // ----- Building the block -----

  function BlockOf(args: seq<bytes>): bytes {
    if args == [] then [] else args[0] + [0] + BlockOf(args[1..])
  }

  lemma BlockSplit(args: seq<bytes>, k: nat)
    requires k < |args|
    ensures |BlockOf(args[k..])| == |args[k]| + 1 + |BlockOf(args[k + 1..])|
    ensures BlockOf(args[k..]) == args[k] + [0] + BlockOf(args[k + 1..])
  {
    assert args[k..][1..] == args[k + 1..];
  }

  method BlockSize(args: seq<bytes>) returns (count: nat)
    ensures count == |BlockOf(args)|
  {
    count := |args|;
    assert args[0..] == args;
    for i := 0 to |args|
      invariant count + |BlockOf(args[i..])| == |BlockOf(args)| + (|args| - i)
    {
      BlockSplit(args, i);
      count := count + |args[i]|;
    }
  }

  method CopyInto(block: array<byte>, at: nat, arg: bytes)
    requires at + |arg| <= block.Length
    modifies block
    ensures block[..] == old(block[..at]) + arg + old(block[at + |arg|..])
  {
    for k := 0 to |arg|
      invariant block[..at] == old(block[..at]) && block[at..at + k] == arg[..k]
      invariant block[at + k..] == old(block[at + k..])
    {
      block[at + k] := arg[k];
    }
    assert block[..] == block[..at] + block[at..at + |arg|] + block[at + |arg|..];
  }

  /** createCBytesForStringArray: the strings are copied one after the other into a block of zeros, leaving one between them. */
  method CreateBlock(args: seq<bytes>) returns (r: bytes)
    ensures r == BlockOf(args)
  {
    var count := BlockSize(args);
    var block := new byte[count](_ => 0);
    var i: nat := 0;
    assert args[0..] == args;
    for n := 0 to |args|
      invariant i + |BlockOf(args[n..])| == count == block.Length
      invariant block[..i] + BlockOf(args[n..]) == BlockOf(args)
      invariant forall k :: i <= k < count ==> block[k] == 0
    {
      BlockSplit(args, n);
      var arg := args[n];
      ghost var before := block[..i];
      CopyInto(block, i, arg);
      i := i + |arg| + 1;
      assert block[..i] == before + arg + [0];
      assert before + arg + [0] + BlockOf(args[n + 1..]) == before + (arg + [0] + BlockOf(args[n + 1..]));
    }
    assert block[..] == block[..i];
    assert block[..i] + [] == block[..i];
    r := block[..];
  }

  // ----- Taking it apart -----

  function Nuls(block: bytes, from: nat): nat
    requires from <= |block|
    decreases |block| - from
  {
    if from == |block| then 0 else (if block[from] == 0 then 1 else 0) + Nuls(block, from + 1)
  }

  /** The place behind the string that begins at p, its NUL included. */
  function After(block: bytes, p: nat): (q: nat)
    requires p <= |block| && Nuls(block, p) > 0
    ensures p < q <= |block| && Nuls(block, q) == Nuls(block, p) - 1
    decreases |block| - p
  {
    if block[p] == 0 then p + 1 else After(block, p + 1)
  }

  /** Where count strings begin, the first at p. */
  function Starts(block: bytes, p: nat, count: nat): (r: seq<nat>)
    requires p <= |block| && Nuls(block, p) >= count
    ensures |r| == count
    decreases count
  {
    if count == 0 then [] else [p] + Starts(block, After(block, p), count - 1)
  }

  /** initVectorFromBlock: no byte outside the block is read, as long as it holds count NULs. */
  method InitVectorFromBlock(block: array<byte>, count: nat) returns (vector: array<Option<nat>>, end: nat)
    requires Nuls(block[..], 0) >= count
    ensures fresh(vector) && vector.Length == count + 1 && vector[count] == None
    ensures forall i :: 0 <= i < count ==> vector[i] == Some(Starts(block[..], 0, count)[i])
    ensures end <= block.Length && Nuls(block[..], end) == Nuls(block[..], 0) - count
  {
    hide Starts, After, Nuls;
    ghost var b := block[..];
    ghost var all := Starts(b, 0, count);
    vector := new Option<nat>[count + 1](_ => None);
    var p: nat := 0;
    assert all[0..] == all;
    for i := 0 to count
      invariant block[..] == b && p <= |b| && Nuls(b, p) == Nuls(b, 0) - i
      invariant Starts(b, p, count - i) == all[i..]
      invariant forall k :: 0 <= k < i ==> vector[k] == Some(all[k])
      invariant vector[count] == None
    {
      StartsStep(b, p, count - i);
      assert all[i] == all[i..][0] == p && all[i + 1..] == all[i..][1..];
      vector[i] := Some(p);
      p := SkipString(block, p);
    }
    end := p;
  }

  /** The inner loop: past the NUL of the string that begins at p. */
  method SkipString(block: array<byte>, start: nat) returns (p: nat)
    requires start <= block.Length && Nuls(block[..], start) > 0
    ensures p == After(block[..], start)
  {
    p := start;
    while block[p] != 0
      invariant start <= p < block.Length && Nuls(block[..], p) > 0 && After(block[..], p) == After(block[..], start)
      decreases block.Length - p
    {
      p := p + 1;
    }
    p := p + 1;
  }

  lemma StartsStep(block: bytes, p: nat, count: nat)
    requires p <= |block| && Nuls(block, p) >= count > 0
    ensures Starts(block, p, count) == [p] + Starts(block, After(block, p), count - 1)
  {
  }

  lemma StringsStep(block: bytes, p: nat, rest: seq<nat>)
    ensures CStrings(block, [p] + rest) == [CString(block, p)] + CStrings(block, rest)
  {
    assert ([p] + rest)[1..] == rest;
  }

  /** The C string at a place of the block. */
  function CString(block: bytes, p: nat): bytes
    decreases if p < |block| then |block| - p else 0
  {
    if p >= |block| || block[p] == 0 then [] else [block[p]] + CString(block, p + 1)
  }

  function CStrings(block: bytes, places: seq<nat>): (r: seq<bytes>)
    ensures |r| == |places|
    ensures forall i :: 0 <= i < |r| ==> r[i] == CString(block, places[i])
  {
    if places == [] then [] else [CString(block, places[0])] + CStrings(block, places[1..])
  }

  // ----- Round trip -----

  predicate NulFree(arg: bytes) {
    forall i :: 0 <= i < |arg| ==> arg[i] != 0
  }

  lemma {:induction false} NulsOfPart(block: bytes, p: nat, arg: bytes, k: nat)
    requires k <= |arg| && p + |arg| < |block| && block[p..p + |arg|] == arg && block[p + |arg|] == 0
    ensures Nuls(block, p + k) >= 1 + Nuls(block, p + |arg| + 1)
    decreases |arg| - k
  {
    if k < |arg| { NulsOfPart(block, p, arg, k + 1); }
  }

  /** The block of so many strings holds at least as many NULs, whatever the strings are. */
  lemma {:induction false} EnoughNuls(block: bytes, p: nat, args: seq<bytes>)
    requires p <= |block| && block[p..] == BlockOf(args)
    ensures Nuls(block, p) >= |args|
    decreases |args|
  {
    if args != [] {
      var n := |args[0]|;
      BlockHead(block, p, args);
      NulsOfPart(block, p, args[0], 0);
      EnoughNuls(block, p + n + 1, args[1..]);
    }
  }

  lemma BlockHead(block: bytes, p: nat, args: seq<bytes>)
    requires p <= |block| && block[p..] == BlockOf(args) && args != []
    ensures var n := |args[0]|;
            p + n < |block| && block[p..p + n] == args[0] && block[p + n] == 0 && block[p + n + 1..] == BlockOf(args[1..])
  {
    var n := |args[0]|;
    var whole := args[0] + [0] + BlockOf(args[1..]);
    assert block[p..] == whole;
    assert block[p..p + n] == block[p..][..n] == args[0];
    assert block[p + n] == block[p..][n] == 0;
    assert block[p + n + 1..] == block[p..][n + 1..] == BlockOf(args[1..]);
  }

  lemma {:induction false} StringRead(block: bytes, p: nat, arg: bytes, k: nat)
    requires k <= |arg| && p + |arg| < |block| && block[p..p + |arg|] == arg && block[p + |arg|] == 0 && NulFree(arg)
    requires Nuls(block, p + k) > 0
    ensures CString(block, p + k) == arg[k..] && After(block, p + k) == p + |arg| + 1
    decreases |arg| - k
  {
    if k < |arg| {
      assert block[p + k] == block[p..p + |arg|][k] == arg[k];
      StringRead(block, p, arg, k + 1);
    }
  }

  /** Strings without NULs are read back from their block, in order, and the last one ends where the block does. */
  lemma {:induction false} BlockReadBack(block: bytes, p: nat, args: seq<bytes>)
    requires p <= |block| && block[p..] == BlockOf(args) && forall i :: 0 <= i < |args| ==> NulFree(args[i])
    ensures Nuls(block, p) == |args|
    ensures CStrings(block, Starts(block, p, |args|)) == args
    decreases |args|
  {
    hide Starts, CStrings, CString, After, Nuls, BlockOf, NulFree;
    EnoughNuls(block, p, args);
    if args != [] {
      var n := |args[0]|;
      BlockHead(block, p, args);
      StringRead(block, p, args[0], 0);
      assert args[0][0..] == args[0];
      BlockReadBack(block, p + n + 1, args[1..]);
      StartsStep(block, p, |args|);
      StringsStep(block, p, Starts(block, p + n + 1, |args| - 1));
      assert args == [args[0]] + args[1..];
    } else {
      NothingToRead(block, p);
    }
  }

  lemma NothingToRead(block: bytes, p: nat)
    requires p <= |block| && block[p..] == BlockOf([])
    ensures Nuls(block, p) == 0 && CStrings(block, Starts(block, p, 0)) == []
  {
  }

  lemma {:induction false} CStringIsNulFree(block: bytes, p: nat)
    ensures NulFree(CString(block, p))
    decreases if p < |block| then |block| - p else 0
  {
    if p < |block| && block[p] != 0 { CStringIsNulFree(block, p + 1); }
  }

  /** The strings come back if and only if none of them contains a NUL; in any case the block holds enough of them. */
  lemma BlockRoundTrip(args: seq<bytes>)
    ensures Nuls(BlockOf(args), 0) >= |args|
    ensures CStrings(BlockOf(args), Starts(BlockOf(args), 0, |args|)) == args <==>
            forall i :: 0 <= i < |args| ==> NulFree(args[i])
  {
    var block := BlockOf(args);
    assert block[0..] == block;
    EnoughNuls(block, 0, args);
    var places := Starts(block, 0, |args|);
    if forall i :: 0 <= i < |args| ==> NulFree(args[i]) {
      BlockReadBack(block, 0, args);
    } else {
      var i :| 0 <= i < |args| && !NulFree(args[i]);
      CStringIsNulFree(block, places[i]);
      assert CStrings(block, places)[i] != args[i];
    }
  }
}
