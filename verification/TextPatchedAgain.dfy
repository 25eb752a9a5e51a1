/**
 The main results about the text patch, over the whole document.

 A plan holds the strings with those that the request needs, the patched chunks, and whether
 any of them counts as changed. The output is

   0                  the chunk type of a binary manifest, and the size of the output
   8                  p.pool: the old pool, byte for byte, or the pool printed with the added strings
   8 + |p.pool|       p.res: the resource map, byte for byte, or nothing
   NewTextBody(p)     the patched chunks, one behind the other

 and a tail shorter than a chunk header is dropped. The results need the added strings to fit
 the pool's length fields and its encoding, and the output to fit its 32 bit size field.

 What is asked of an element is said twice: Asked gives the texts, straight from the request,
 and GoalFor the indexes the patch writes; GoalIsAsked ties the two. A chunk's target is the
 first attribute of the asked name. Written says that nothing but its value fields differs.

 The plan for the output, and so what asking again does, is that of NextTextPlan if the Android
 namespace is known, or not, as it was before: see Settled.
 */
module TextPatchedAgain {
  import opened LittleEndian
  import opened Options
  import opened StringPools
  import opened StringPoolRoundTrip
  import opened AttributeTables
  import opened PatchedTables
  import opened ManifestLayout
  import opened DebuggablePatch
  import opened PatchedManifests
  import opened ManifestTextPatch
  import opened TextPatchedManifests

  // ----- The strings -----

  predicate AllIn(needed: seq<text>, strings: seq<text>) {
    forall i :: 0 <= i < |needed| ==> needed[i] in strings
  }

  /** Interning only adds strings at the end. */
  lemma {:induction false} InternedGrows(strings: seq<text>, needed: seq<text>) returns (more: seq<text>)
    ensures Interned(strings, needed) == strings + more
    ensures forall s :: s in more ==> s in needed && s !in strings
    decreases |needed|
  {
    if needed == [] {
      more := [];
      assert strings + more == strings;
    } else if needed[0] in strings {
      more := InternedGrows(strings, needed[1..]);
      InTail(needed);
    } else {
      var rest := InternedGrows(strings + [needed[0]], needed[1..]);
      more := [needed[0]] + rest;
      assert strings + [needed[0]] + rest == strings + more;
      InTail(needed);
      forall s | s in more ensures s in needed && s !in strings {
        if s != needed[0] { assert s in rest; }
      }
    }
  }

  lemma InTail(needed: seq<text>)
    requires needed != []
    ensures forall s :: s in needed <==> s == needed[0] || s in needed[1..]
  {
    assert needed == [needed[0]] + needed[1..];
  }

  lemma {:induction false} InternedHasAll(strings: seq<text>, needed: seq<text>)
    ensures AllIn(needed, Interned(strings, needed))
    decreases |needed|
  {
    if needed != [] {
      var grown := if needed[0] in strings then strings else strings + [needed[0]];
      assert needed[0] in grown by { if needed[0] !in strings { assert grown[|strings|] == needed[0]; } }
      InternedHasAll(grown, needed[1..]);
      var more := InternedGrows(grown, needed[1..]);
      InTail(needed);
    }
  }

  /** Interning adds at the end, only what is needed and missing, and then everything needed is there. */
  lemma InternedMore(strings: seq<text>, needed: seq<text>) returns (more: seq<text>)
    ensures Interned(strings, needed) == strings + more
    ensures forall s :: s in more ==> s in needed && s !in strings
    ensures AllIn(needed, Interned(strings, needed))
  {
    InternedHasAll(strings, needed);
    more := InternedGrows(strings, needed);
  }

  lemma {:induction false} InternedAgain(strings: seq<text>, needed: seq<text>)
    requires AllIn(needed, strings)
    ensures Interned(strings, needed) == strings
    decreases |needed|
  {
    if needed != [] { InternedAgain(strings, needed[1..]); }
  }

  /** Adding the request's strings does not make the Android namespace known, unless the package name is its URI. */
  predicate Settled(req: Request, strings: seq<text>) {
    ANDROID_URI in strings || req.packageName != ANDROID_URI
  }

  lemma PackageIsNoUri()
    ensures PACKAGE != ANDROID_URI
  {
    assert |PACKAGE| == 7 && |ANDROID_URI| == 42;
  }

  lemma NamespaceKept(req: Request, strings: seq<text>)
    requires Settled(req, strings)
    ensures ANDROID_URI in Interned(strings, Needed(req, ANDROID_URI in strings)) <==> ANDROID_URI in strings
  {
    hide Ascii, Interned;
    var needed := Needed(req, ANDROID_URI in strings);
    var more := InternedMore(strings, needed);
    PackageIsNoUri();
    assert ANDROID_URI !in strings ==> ANDROID_URI !in needed;
  }

  // ----- What is asked of each element -----

  /** The attribute and the text asked for an element, used authorities having been given away. */
  function Asked(element: text, req: Request, ns: bool, used: nat): Option<(text, text)> {
    if element == MANIFEST && req.packageName != [] then Some((PACKAGE, req.packageName))
    else if element == APPLICATION && req.title != [] && ns then Some((LABEL, req.title))
    else if element == PROVIDER && ns && used < |req.authorities| then Some((AUTHORITIES, req.authorities[used]))
    else None
  }

  lemma ElementsDiffer()
    ensures MANIFEST != APPLICATION && MANIFEST != PROVIDER && APPLICATION != PROVIDER && MANIFEST != []
  {
    assert |MANIFEST| == 8 && |APPLICATION| == 11 && |PROVIDER| == 8;
    var m, p := "manifest", "provider";
    assert Ascii(m)[0] == 109 && Ascii(p)[0] == 112;
  }

  lemma IndexKnown(strings: seq<text>, s: text)
    requires s in strings
    ensures Index(strings, s) < |strings| && strings[Index(strings, s)] == s
  {
    hide IndexOf;
  }

  predicate GoalNames(goal: Option<(nat, nat)>, asked: Option<(text, text)>, strings: seq<text>) {
    match goal
    case None => asked == None
    case Some((n, v)) => n < |strings| && v < |strings| && asked == Some((strings[n], strings[v]))
  }

  /** The indexes written into an element name exactly the strings that are asked for it. */
  lemma GoalIsAsked(element: text, req: Request, ns: bool, strings: seq<text>, used: nat)
    requires AllIn(Needed(req, ns), strings)
    ensures GoalNames(GoalFor(element, GoalsOf(req, ns, strings), used), Asked(element, req, ns, used), strings)
  {
    hide Ascii, Index;
    ElementsDiffer();
    var needed := Needed(req, ns);
    if req.packageName != [] {
      assert needed[0] == PACKAGE && needed[1] == req.packageName;
      IndexKnown(strings, PACKAGE);
      IndexKnown(strings, req.packageName);
    }
    if req.title != [] && ns {
      var at := if req.packageName != [] then 2 else 0;
      assert needed[at] == LABEL && needed[at + 1] == req.title;
      IndexKnown(strings, LABEL);
      IndexKnown(strings, req.title);
    }
    if req.authorities != [] && ns {
      AuthoritiesNeeded(req, ns, strings, used);
    }
  }

  lemma AuthoritiesNeeded(req: Request, ns: bool, strings: seq<text>, used: nat)
    requires req.authorities != [] && ns && AllIn(Needed(req, ns), strings)
    ensures Index(strings, AUTHORITIES) < |strings| && strings[Index(strings, AUTHORITIES)] == AUTHORITIES
    ensures used < |req.authorities| ==>
              Index(strings, req.authorities[used]) < |strings| && strings[Index(strings, req.authorities[used])] == req.authorities[used]
  {
    hide Ascii, Index;
    var needed := Needed(req, ns);
    var at := (if req.packageName != [] then 2 else 0) + (if req.title != [] then 2 else 0);
    assert needed[at] == AUTHORITIES;
    IndexKnown(strings, AUTHORITIES);
    if used < |req.authorities| {
      assert needed[at + 1 + used] == req.authorities[used];
      IndexKnown(strings, req.authorities[used]);
    }
  }

  lemma GoalsOfFit(req: Request, ns: bool, strings: seq<text>)
    requires AllIn(Needed(req, ns), strings) && |strings| < 0x1_0000_0000
    ensures GoalsFit(GoalsOf(req, ns, strings))
  {
    hide Ascii, Index;
    ElementsDiffer();
    GoalIsAsked(MANIFEST, req, ns, strings, 0);
    GoalIsAsked(APPLICATION, req, ns, strings, 0);
    var goals := GoalsOf(req, ns, strings);
    forall i | 0 <= i < |goals.authorities| ensures goals.authorities[i] < 0x1_0000_0000 {
      AuthoritiesNeeded(req, ns, strings, i);
    }
  }

  // ----- The plan -----

  /** The chunks of the document the plan was made for. */
  predicate PatchOf(m: bytes, req: Request, p: TextPlan, chunks: seq<bytes>) {
    && LaidOut(m, p.layout)
    && Chunks(m, p.layout.body, p.layout.end) == Some(chunks)
    && PatchList(chunks, p.strings, GoalsOf(req, p.ns, p.strings), 0) == Some((p.patched, p.changed))
    && p.pool == PoolPart(m, p.layout, p.strings) && p.res == m[p.layout.res..p.layout.body]
  }

  predicate StringsOf(req: Request, p: TextPlan) {
    && p.ns == (ANDROID_URI in p.layout.pool.strings)
    && p.strings == Interned(p.layout.pool.strings, Needed(req, p.ns))
  }

  lemma TextPlanParts(m: bytes, req: Request, p: TextPlan) returns (chunks: seq<bytes>)
    requires TextPlanOf(m, req) == Ok(p)
    ensures ReadLayout(m) == Ok(p.layout) && PatchOf(m, req, p, chunks) && StringsOf(req, p)
  {
    hide ReadLayout, Chunks, PatchList, Needed, Interned, PoolPart, GoalsOf, Ascii;
    LayoutThere(m);
    chunks := Chunks(m, p.layout.body, p.layout.end).value;
  }

  lemma LayoutThere(m: bytes)
    requires ReadLayout(m).Ok?
    ensures LaidOut(m, ReadLayout(m).value) && ReadLayout(m).value.end <= |m|
  {
  }

  lemma TextPlanMade(m: bytes, req: Request, p: TextPlan, chunks: seq<bytes>)
    requires ReadLayout(m) == Ok(p.layout) && PatchOf(m, req, p, chunks) && StringsOf(req, p)
    ensures TextPlanOf(m, req) == Ok(p)
  {
    hide ReadLayout, Chunks, PatchList, Needed, Interned, PoolPart, GoalsOf, Ascii;
  }

  // ----- The output -----

  /** Every string that may be added fits its length field and the pool's encoding. */
  predicate Writable(req: Request, p: TextPlan) {
    AllStorable(p.layout.pool.Utf8(), Needed(req, p.ns))
  }

  function NewTextBody(p: TextPlan): nat {
    8 + |p.pool| + |p.res|
  }

  function NewTextLayout(p: TextPlan): Layout {
    Layout(p.layout.pool.(strings := p.strings, chunkSize := |p.pool|), 8 + |p.pool|, NewTextBody(p), |TextOutput(p)|)
  }

  lemma TextOutputParts(p: TextPlan)
    ensures var out := TextOutput(p);
            && |out| == NewTextBody(p) + |Concat(p.patched)| && out[8..8 + |p.pool|] == p.pool
            && out[8 + |p.pool|..NewTextBody(p)] == p.res && out[NewTextBody(p)..] == Concat(p.patched)
  {
    hide Document, Concat;
    DocumentParts(p.pool, p.res, Concat(p.patched), [], []);
    var out := TextOutput(p);
    assert out[NewTextBody(p)..] == out[NewTextBody(p)..|out|];
  }

  lemma TextOutputHeader(p: TextPlan)
    requires |TextOutput(p)| < 0x1_0000_0000
    ensures var out := TextOutput(p);
            && |out| >= 8 && U32(out, 0) == XML_CHUNK && DocumentEnd(out) == |out|
  {
    hide Document, U32, Concat, DocumentEnd;
    DocumentHeader(p.pool, p.res, Concat(p.patched), [], []);
  }

  lemma TextPool(m: bytes, req: Request, p: TextPlan)
    requires ReadLayout(m) == Ok(p.layout) && StringsOf(req, p) && Writable(req, p)
    requires LaidOut(m, p.layout) && p.pool == PoolPart(m, p.layout, p.strings) && |TextOutput(p)| < 0x1_0000_0000
    ensures var out := TextOutput(p);
            && |out| >= 36 && U32(out, 8) == POOL_CHUNK
            && PatchPool(out, 8) == Ok(p.layout.pool.(strings := p.strings, chunkSize := |p.pool|))
  {
    hide *;
    TextOutputParts(p);
    NewTextBodyIs(p);
    StringsOfIs(req, p);
    var needed := Needed(req, p.ns);
    var more := InternedMore(p.layout.pool.strings, needed);
    WritableIs(req, p);
    StorableOnes(p.layout.pool.Utf8(), needed, more);
    LaidOutRes(m, p.layout);
    PoolOfOutput(m, p.layout, more, TextOutput(p));
  }

  lemma LaidOutRes(m: bytes, l: Layout)
    requires LaidOut(m, l)
    ensures 8 <= l.res <= l.body <= |m| && l.end <= |m|
  {
  }

  lemma StringsOfIs(req: Request, p: TextPlan)
    requires StringsOf(req, p)
    ensures p.ns == (ANDROID_URI in p.layout.pool.strings)
    ensures p.strings == Interned(p.layout.pool.strings, Needed(req, p.ns))
  {
    hide Interned, Needed, Ascii;
  }

  lemma WritableIs(req: Request, p: TextPlan)
    requires Writable(req, p)
    ensures AllStorable(p.layout.pool.Utf8(), Needed(req, p.ns))
  {
    hide AllStorable, Needed;
  }

  lemma StorableOnes(utf8: bool, needed: seq<text>, more: seq<text>)
    requires AllStorable(utf8, needed) && forall s :: s in more ==> s in needed
    ensures AllStorable(utf8, more)
  {
    hide Storable;
    forall i | 0 <= i < |more| ensures Storable(utf8, more[i]) {
      assert more[i] in needed;
    }
  }

  lemma MapThere(m: bytes)
    requires ReadLayout(m).Ok?
    ensures var l := ReadLayout(m).value;
            if l.res == l.body then l.res + 8 > |m| || U32(m, l.res) != MAP_CHUNK
            else l.res + 8 <= l.body <= |m| && U32(m, l.res) == MAP_CHUNK && U32(m, l.res + 4) == l.body - l.res
  {
    hide U32, PatchPool;
  }

  /** The first patched chunk still has the type of the first chunk of the document. */
  lemma FirstType(m: bytes, req: Request, p: TextPlan, chunks: seq<bytes>)
    requires PatchOf(m, req, p, chunks) && p.patched != []
    ensures p.layout.body + 8 <= p.layout.end <= |m| && |p.patched[0]| >= 8
    ensures U32(p.patched[0], 0) == U32(m, p.layout.body)
  {
    hide U32, PatchList, GoalsOf, PoolPart, Written, GoalAt, ElementName;
    var goals := GoalsOf(req, p.ns, p.strings);
    var l := p.layout;
    PatchListWrites(chunks, p.strings, goals, 0, 0);
    WrittenHeader(chunks[0], p.patched[0], GoalAt(chunks, p.strings, goals, 0, 0), p.strings);
    FieldOfSlice(m, l.body, l.body + U32(m, l.body + 4), 0);
  }

  lemma ConcatHead(es: seq<bytes>)
    requires es != []
    ensures |Concat(es)| >= |es[0]| && Concat(es)[..|es[0]|] == es[0]
  {
  }

  lemma PatchOfParts(m: bytes, req: Request, p: TextPlan, chunks: seq<bytes>)
    requires PatchOf(m, req, p, chunks)
    ensures LaidOut(m, p.layout) && 8 <= p.layout.res <= p.layout.body <= |m| && p.layout.end <= |m|
    ensures p.pool == PoolPart(m, p.layout, p.strings) && p.res == m[p.layout.res..p.layout.body]
    ensures Chunks(m, p.layout.body, p.layout.end) == Some(chunks)
    ensures PatchList(chunks, p.strings, GoalsOf(req, p.ns, p.strings), 0) == Some((p.patched, p.changed))
  {
    hide Chunks, PatchList, GoalsOf, PoolPart;
  }

  lemma NoMapInOutput(m: bytes, req: Request, p: TextPlan, chunks: seq<bytes>)
    requires ReadLayout(m) == Ok(p.layout) && PatchOf(m, req, p, chunks) && p.layout.res == p.layout.body
    ensures var out := TextOutput(p);
            8 + |p.pool| + 8 > |out| || U32(out, 8 + |p.pool|) != MAP_CHUNK
    ensures p.res == []
  {
    hide *;
    var out := TextOutput(p);
    PatchOfParts(m, req, p, chunks);
    TextOutputParts(p);
    NewTextBodyIs(p);
    MapThere(m);
    if p.patched == [] {
      NothingJoined(p.patched);
    } else {
      FirstType(m, req, p, chunks);
      ConcatHead(p.patched);
      var n := |p.patched[0]|;
      var at := NewTextBody(p);
      assert out[at..at + n] == out[at..][..n];
      FieldOfSlice(out, at, at + n, 0);
    }
  }

  lemma NothingJoined(es: seq<bytes>)
    requires es == []
    ensures Concat(es) == []
  {
  }

  lemma NewTextBodyIs(p: TextPlan)
    ensures NewTextBody(p) == 8 + |p.pool| + |p.res|
    ensures NewTextLayout(p)
         == Layout(p.layout.pool.(strings := p.strings, chunkSize := |p.pool|), 8 + |p.pool|, NewTextBody(p), |TextOutput(p)|)
  {
  }

  /** The output has the old layout, with the added strings, and the resource map byte for byte. */
  lemma TextOutputLayout(m: bytes, req: Request, p: TextPlan, chunks: seq<bytes>)
    requires ReadLayout(m) == Ok(p.layout) && PatchOf(m, req, p, chunks) && StringsOf(req, p) && Writable(req, p)
    requires |TextOutput(p)| < 0x1_0000_0000
    ensures ReadLayout(TextOutput(p)) == Ok(NewTextLayout(p))
  {
    hide *;
    var out, l := TextOutput(p), p.layout;
    PatchOfParts(m, req, p, chunks);
    TextOutputParts(p);
    TextOutputHeader(p);
    TextPool(m, req, p);
    NewTextBodyIs(p);
    MapThere(m);
    var pool := l.pool.(strings := p.strings, chunkSize := |p.pool|);
    if l.res == l.body {
      NoMapInOutput(m, req, p, chunks);
      LayoutWithoutMap(out, pool);
    } else {
      var res, body := 8 + |p.pool|, NewTextBody(p);
      FieldOfSlice(m, l.res, l.body, 0);
      FieldOfSlice(m, l.res, l.body, 4);
      FieldOfSlice(out, res, body, 0);
      FieldOfSlice(out, res, body, 4);
      LayoutIs(out, pool, body);
    }
  }

  /** The chunks of the output are the patched ones. */
  lemma TextOutputChunks(m: bytes, req: Request, p: TextPlan, chunks: seq<bytes>)
    requires PatchOf(m, req, p, chunks)
    ensures NewTextBody(p) <= |TextOutput(p)|
    ensures Chunks(TextOutput(p), NewTextBody(p), |TextOutput(p)|) == Some(p.patched)
  {
    hide *;
    PatchOfParts(m, req, p, chunks);
    TextOutputParts(p);
    ChunksSized(m, p.layout.body, p.layout.end);
    PatchedSized(chunks, p.strings, GoalsOf(req, p.ns, p.strings));
    ChunksOfConcat(TextOutput(p), NewTextBody(p), p.patched);
  }

  lemma PoolCount(m: bytes, p: Pool)
    requires |m| >= 36 && PatchPool(m, 8) == Ok(p)
    ensures |p.strings| < 0x1_0000_0000
  {
    hide U16;
  }

  lemma TextStrings(m: bytes, req: Request, p: TextPlan)
    requires ReadLayout(m) == Ok(p.layout) && StringsOf(req, p) && Writable(req, p)
    requires LaidOut(m, p.layout) && p.pool == PoolPart(m, p.layout, p.strings) && |TextOutput(p)| < 0x1_0000_0000
    ensures |p.strings| < 0x1_0000_0000 && AllIn(Needed(req, p.ns), p.strings)
    ensures PreviewPool(TextOutput(p), 8) == Ok((p.strings, |p.pool|))
  {
    hide *;
    TextPool(m, req, p);
    PoolCount(TextOutput(p), p.layout.pool.(strings := p.strings, chunkSize := |p.pool|));
    StringsOfIs(req, p);
    var more := InternedMore(p.layout.pool.strings, Needed(req, p.ns));
    TypeOfPool(TextOutput(p));
    ReadersAgree(TextOutput(p), 8);
  }

  lemma TypeOfPool(m: bytes)
    requires |m| >= 36 && U32(m, 8) == POOL_CHUNK
    ensures U16(m, 8) == 1
  {
  }

  // ----- The main results -----

  /** The result of a patch of a document that can be patched: the document itself, or the output. */
  lemma TextPatchIs(m: bytes, req: Request, p: TextPlan)
    requires !req.Empty() && TextPlanOf(m, req) == Ok(p)
    ensures TextPatch(m, req)
         == if p.strings == p.layout.pool.strings && !p.changed then Ok((m, false)) else Ok((TextOutput(p), true))
  {
    hide TextPlanOf, TextOutput;
  }

  /** The patched document has as many chunks as before, each of the same size and with the same name, and with nothing written but its goal. */
  lemma ChunksAreKept(m: bytes, req: Request, p: TextPlan) returns (chunks: seq<bytes>)
    requires TextPlanOf(m, req) == Ok(p) && Writable(req, p) && |TextOutput(p)| < 0x1_0000_0000
    ensures p.layout.end <= |m| && NewTextBody(p) <= |TextOutput(p)|
    ensures ReadLayout(TextOutput(p)) == Ok(NewTextLayout(p))
    ensures PreviewPool(TextOutput(p), 8) == Ok((p.strings, |p.pool|))
    ensures Chunks(m, p.layout.body, p.layout.end) == Some(chunks)
    ensures Chunks(TextOutput(p), NewTextBody(p), |TextOutput(p)|) == Some(p.patched)
    ensures |p.patched| == |chunks|
    ensures forall k :: 0 <= k < |chunks| ==>
              && |p.patched[k]| == |chunks[k]| && ElementName(p.patched[k], p.strings) == ElementName(chunks[k], p.strings)
              && Written(chunks[k], p.patched[k], GoalAt(chunks, p.strings, GoalsOf(req, p.ns, p.strings), 0, k))
  {
    hide *;
    chunks := TextPlanParts(m, req, p);
    PatchOfParts(m, req, p, chunks);
    TextOutputLayout(m, req, p, chunks);
    TextOutputChunks(m, req, p, chunks);
    TextStrings(m, req, p);
    var goals := GoalsOf(req, p.ns, p.strings);
    forall k | 0 <= k < |chunks|
      ensures |p.patched[k]| == |chunks[k]| && ElementName(p.patched[k], p.strings) == ElementName(chunks[k], p.strings)
      ensures Written(chunks[k], p.patched[k], GoalAt(chunks, p.strings, goals, 0, k))
    {
      PatchListWrites(chunks, p.strings, goals, 0, k);
      WrittenHeader(chunks[k], p.patched[k], GoalAt(chunks, p.strings, goals, 0, k), p.strings);
    }
  }

  lemma GoalAtIs(chunks: seq<bytes>, strings: seq<text>, goals: Goals, k: nat)
    requires k < |chunks|
    ensures GoalAt(chunks, strings, goals, 0, k)
         == GoalFor(ElementName(chunks[k], strings), goals, CursorAt(chunks, strings, goals, 0, k))
  {
    hide GoalFor, ElementName, CursorAt;
  }

  lemma NextTextOutput(p: TextPlan, next: TextPlan)
    requires next.pool == p.pool && next.res == p.res && next.patched == p.patched
    ensures TextOutput(next) == TextOutput(p)
  {
  }

  lemma NextTextPlan(m: bytes, req: Request, p: TextPlan, chunks: seq<bytes>, next: TextPlan)
    requires ReadLayout(m) == Ok(p.layout) && PatchOf(m, req, p, chunks) && StringsOf(req, p)
    requires Writable(req, p) && |TextOutput(p)| < 0x1_0000_0000 && Settled(req, p.layout.pool.strings)
    requires next == TextPlan(NewTextLayout(p), p.ns, p.strings, p.patched, false, p.pool, p.res)
    ensures TextPlanOf(TextOutput(p), req) == Ok(next)
  {
    hide *;
    var out := TextOutput(p);
    PatchOfParts(m, req, p, chunks);
    TextOutputLayout(m, req, p, chunks);
    TextOutputChunks(m, req, p, chunks);
    LayoutThere(out);
    TextStrings(m, req, p);
    StringsOfIs(req, p);
    NewTextBodyIs(p);
    var goals := GoalsOf(req, p.ns, p.strings);
    GoalsOfFit(req, p.ns, p.strings);
    PatchListTwice(chunks, p.strings, goals, 0);
    NamespaceKept(req, p.layout.pool.strings);
    InternedAgain(p.strings, Needed(req, p.ns));
    TextOutputParts(p);
    NextIs(out, req, next, p.patched);
    TextPlanMade(out, req, next, p.patched);
  }

  lemma NextIs(out: bytes, req: Request, next: TextPlan, chunks: seq<bytes>)
    requires LaidOut(out, next.layout) && next.layout.end <= |out| && 8 <= next.layout.res <= next.layout.body <= |out|
    requires next.layout.pool.strings == next.strings && out[8..next.layout.res] == next.pool
    requires out[next.layout.res..next.layout.body] == next.res
    requires Chunks(out, next.layout.body, next.layout.end) == Some(chunks)
    requires PatchList(chunks, next.strings, GoalsOf(req, next.ns, next.strings), 0) == Some((next.patched, next.changed))
    requires next.ns == (ANDROID_URI in next.strings) && Interned(next.strings, Needed(req, next.ns)) == next.strings
    ensures PatchOf(out, req, next, chunks) && StringsOf(req, next)
  {
    hide Chunks, PatchList, GoalsOf, Interned, Needed, Ascii, PoolBytes;
  }
}
