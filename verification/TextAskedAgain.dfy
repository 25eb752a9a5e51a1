module TextAskedAgain {
  // Making a request of a document that has been patched for it. Labels and authorities are asked for only where the
  // Android namespace is known, and a package name may make it known: then the second request asks for more.

  import opened LittleEndian
  import opened Options
  import opened StringPools
  import opened StringPoolRoundTrip
  import opened AttributeTables
  import opened ManifestLayout
  import opened DebuggablePatch
  import opened PatchedManifests
  import opened ManifestTextPatch
  import opened TextPatchedManifests
  import opened TextPatchedAgain
  import opened SmallPools

  // ----- When a patch changes nothing -----

  /** The chunk has a readable table, and the attribute of the name, if there is one, holds the value. */
  predicate Held(chunk: bytes, goal: Option<(nat, nat)>) {
    goal.Some? ==>
      && TableOf(chunk).Some?
      && (Target(chunk, goal.value.0).Some? ==> Holds(chunk, Target(chunk, goal.value.0).value, goal.value.1))
  }

  predicate Unchanged<T>(r: Option<(T, bool)>) {
    r.Some? && !r.value.1
  }

  lemma HeldIsUnchanged(chunk: bytes, goal: Option<(nat, nat)>)
    ensures Unchanged(PatchChunk(chunk, goal)) <==> Held(chunk, goal)
  {
    hide TableOf, Target, Holds, PutValue, PatchAttribute;
    if goal.Some? { PatchAttributeIs(chunk, goal.value.0, goal.value.1); }
  }

  predicate AllHeld(chunks: seq<bytes>, strings: seq<text>, goals: Goals, cursor: nat) {
    forall k :: 0 <= k < |chunks| ==> Held(chunks[k], GoalAt(chunks, strings, goals, cursor, k))
  }

  /** Patching a list of chunks changes nothing exactly if every chunk holds its goal. */
  lemma {:induction false} ListUnchanged(chunks: seq<bytes>, strings: seq<text>, goals: Goals, cursor: nat)
    ensures Unchanged(PatchList(chunks, strings, goals, cursor)) <==> AllHeld(chunks, strings, goals, cursor)
    decreases chunks
  {
    hide PatchChunk, ElementName, GoalFor, NextCursor, Held;
    if chunks != [] {
      var element := ElementName(chunks[0], strings);
      var next := NextCursor(element, goals, cursor);
      HeldIsUnchanged(chunks[0], GoalFor(element, goals, cursor));
      ListUnchanged(chunks[1..], strings, goals, next);
      forall k | 0 <= k < |chunks| - 1
        ensures GoalAt(chunks[1..], strings, goals, next, k) == GoalAt(chunks, strings, goals, cursor, k + 1)
      {
      }
      HeldSplit(chunks, strings, goals, cursor, next);
    }
  }

  lemma HeldSplit(chunks: seq<bytes>, strings: seq<text>, goals: Goals, cursor: nat, next: nat)
    requires chunks != []
    requires forall k :: 0 <= k < |chunks| - 1 ==>
               GoalAt(chunks[1..], strings, goals, next, k) == GoalAt(chunks, strings, goals, cursor, k + 1)
    ensures AllHeld(chunks, strings, goals, cursor)
       <==> Held(chunks[0], GoalAt(chunks, strings, goals, cursor, 0)) && AllHeld(chunks[1..], strings, goals, next)
  {
    hide Held, GoalAt;
    if Held(chunks[0], GoalAt(chunks, strings, goals, cursor, 0)) && AllHeld(chunks[1..], strings, goals, next) {
      forall k | 0 <= k < |chunks| ensures Held(chunks[k], GoalAt(chunks, strings, goals, cursor, k)) {
        if k > 0 { assert Held(chunks[1..][k - 1], GoalAt(chunks[1..], strings, goals, next, k - 1)); }
      }
    }
    if AllHeld(chunks, strings, goals, cursor) {
      forall k | 0 <= k < |chunks| - 1 ensures Held(chunks[1..][k], GoalAt(chunks[1..], strings, goals, next, k)) {
        assert Held(chunks[k + 1], GoalAt(chunks, strings, goals, cursor, k + 1));
      }
    }
  }

  lemma InternedSame(strings: seq<text>, needed: seq<text>)
    ensures Interned(strings, needed) == strings <==> AllIn(needed, strings)
  {
    hide Interned;
    if AllIn(needed, strings) { InternedAgain(strings, needed); } else { InternedHasAll(strings, needed); }
  }

  /** A document is left alone exactly if it has all strings that are asked for, and every chunk holds its goal. */
  lemma LeftAlone(m: bytes, req: Request, l: Layout, chunks: seq<bytes>)
    requires !req.Empty() && ReadLayout(m) == Ok(l)
    requires l.end <= |m| && Chunks(m, l.body, l.end) == Some(chunks)
    ensures var ns := ANDROID_URI in l.pool.strings;
            var strings := Interned(l.pool.strings, Needed(req, ns));
            TextPatch(m, req) == Ok((m, false)) <==>
            AllIn(Needed(req, ns), l.pool.strings) && AllHeld(chunks, strings, GoalsOf(req, ns, strings), 0)
  {
    hide ReadLayout, Chunks, PatchList, Needed, Interned, GoalsOf, Ascii, AllHeld, AllIn, TextOutput, PoolPart;
    LayoutThere(m);
    var ns := ANDROID_URI in l.pool.strings;
    var strings := Interned(l.pool.strings, Needed(req, ns));
    InternedSame(l.pool.strings, Needed(req, ns));
    ListUnchanged(chunks, strings, GoalsOf(req, ns, strings), 0);
  }

  // ----- Asking again -----

  /** The strings are there, and every element other than the manifest element holds what the namespace lets it be asked for. */
  predicate AlreadyThere(req: Request, strings: seq<text>, chunks: seq<bytes>) {
    && AllIn(Needed(req, true), strings)
    && forall k :: 0 <= k < |chunks| && ElementName(chunks[k], strings) != MANIFEST ==>
         Held(chunks[k], GoalAt(chunks, strings, GoalsOf(req, true, strings), 0, k))
  }

  lemma {:induction false} PatchListAt(chunks: seq<bytes>, strings: seq<text>, goals: Goals, cursor: nat, k: nat)
    requires PatchList(chunks, strings, goals, cursor).Some? && k < |chunks|
    ensures var next := PatchChunk(chunks[k], GoalAt(chunks, strings, goals, cursor, k));
            next.Some? && PatchList(chunks, strings, goals, cursor).value.0[k] == next.value.0
    decreases k
  {
    hide PatchChunk, ElementName, GoalFor, NextCursor;
    if k > 0 {
      PatchListAt(chunks[1..], strings, goals, NextCursor(ElementName(chunks[0], strings), goals, cursor), k - 1);
    }
  }

  /** Elements of the same names use up the same authorities. */
  lemma {:induction false} CursorSame(a: seq<bytes>, b: seq<bytes>, strings: seq<text>, goals: Goals, cursor: nat, k: nat)
    requires |a| == |b| && k <= |a|
    requires forall i :: 0 <= i < |a| ==> ElementName(a[i], strings) == ElementName(b[i], strings)
    ensures CursorAt(a, strings, goals, cursor, k) == CursorAt(b, strings, goals, cursor, k)
    decreases k
  {
    hide ElementName, NextCursor;
    if k > 0 {
      CursorSame(a[1..], b[1..], strings, goals, NextCursor(ElementName(a[0], strings), goals, cursor), k - 1);
    }
  }

  /** What was asked for before the namespace was known: the package name, and nothing else. */
  lemma OnlyPackage(element: text, req: Request, strings: seq<text>, used: nat)
    ensures GoalFor(element, GoalsOf(req, false, strings), used)
         == if element == MANIFEST then GoalFor(element, GoalsOf(req, true, strings), used) else None
  {
    hide Index, Ascii;
    ElementsDiffer();
  }

  /** A patched chunk holds what it is then asked for, if it is the manifest element, or held it before. */
  lemma HeldOfPatched(chunk: bytes, goal: Option<(nat, nat)>, manifest: bool)
    requires GoalFits(goal) && PatchChunk(chunk, if manifest then goal else None).Some?
    ensures Held(PatchChunk(chunk, if manifest then goal else None).value.0, goal) <==> manifest || Held(chunk, goal)
  {
    hide PatchAttribute, Held;
    if manifest {
      PatchChunkTwice(chunk, goal);
      HeldIsUnchanged(PatchChunk(chunk, goal).value.0, goal);
    }
  }

  /** Of the chunks patched without the namespace, all hold what is asked for with it exactly if those that were left alone did. */
  lemma HeldAfter(req: Request, strings: seq<text>, chunks: seq<bytes>, patched: seq<bytes>, changed: bool)
    requires PatchList(chunks, strings, GoalsOf(req, false, strings), 0) == Some((patched, changed))
    requires AllIn(Needed(req, true), strings) && |strings| < 0x1_0000_0000
    ensures AllHeld(patched, strings, GoalsOf(req, true, strings), 0) <==> AlreadyThere(req, strings, chunks)
  {
    hide *;
    var before, goals := GoalsOf(req, false, strings), GoalsOf(req, true, strings);
    GoalsOfFit(req, true, strings);
    PatchedNames(chunks, strings, before, patched, changed);
    forall k | 0 <= k < |chunks|
      ensures Held(patched[k], GoalAt(patched, strings, goals, 0, k))
         <==> ElementName(chunks[k], strings) == MANIFEST || Held(chunks[k], GoalAt(chunks, strings, goals, 0, k))
    {
      var element := ElementName(chunks[k], strings);
      var goal := GoalAt(chunks, strings, goals, 0, k);
      CursorSame(patched, chunks, strings, goals, 0, k);
      GoalAtIs(patched, strings, goals, k);
      GoalAtIs(chunks, strings, goals, k);
      GoalAtIs(chunks, strings, before, k);
      PatchListAt(chunks, strings, before, 0, k);
      OnlyPackage(element, req, strings, CursorAt(chunks, strings, before, 0, k));
      GoalForFits(element, goals, CursorAt(chunks, strings, goals, 0, k));
      PackageGoal(element, goals, CursorAt(chunks, strings, goals, 0, k), CursorAt(chunks, strings, before, 0, k));
      HeldOfPatched(chunks[k], goal, element == MANIFEST);
    }
    HeldForAll(req, strings, chunks, patched);
  }

  lemma PackageGoal(element: text, goals: Goals, i: nat, j: nat)
    ensures element == MANIFEST ==> GoalFor(element, goals, i) == GoalFor(element, goals, j)
  {
    hide Ascii;
  }

  lemma HeldForAll(req: Request, strings: seq<text>, chunks: seq<bytes>, patched: seq<bytes>)
    requires |patched| == |chunks| && AllIn(Needed(req, true), strings)
    requires var goals := GoalsOf(req, true, strings);
             forall k :: 0 <= k < |chunks| ==>
               (Held(patched[k], GoalAt(patched, strings, goals, 0, k))
                <==> ElementName(chunks[k], strings) == MANIFEST || Held(chunks[k], GoalAt(chunks, strings, goals, 0, k)))
    ensures AllHeld(patched, strings, GoalsOf(req, true, strings), 0) <==> AlreadyThere(req, strings, chunks)
  {
    hide Held, GoalAt, ElementName, GoalsOf, Needed, Ascii, AllIn;
  }

  lemma PatchedNames(chunks: seq<bytes>, strings: seq<text>, goals: Goals, patched: seq<bytes>, changed: bool)
    requires PatchList(chunks, strings, goals, 0) == Some((patched, changed))
    ensures |patched| == |chunks|
    ensures forall k :: 0 <= k < |chunks| ==> ElementName(patched[k], strings) == ElementName(chunks[k], strings)
  {
    hide PatchList, Written, GoalAt, ElementName;
    PatchedAsMany(chunks, strings, goals);
    forall k | 0 <= k < |chunks| ensures ElementName(patched[k], strings) == ElementName(chunks[k], strings) {
      PatchListWrites(chunks, strings, goals, 0, k);
      WrittenHeader(chunks[k], patched[k], GoalAt(chunks, strings, goals, 0, k), strings);
    }
  }

  lemma PatchedAsMany(chunks: seq<bytes>, strings: seq<text>, goals: Goals)
    requires PatchList(chunks, strings, goals, 0).Some?
    ensures |PatchList(chunks, strings, goals, 0).value.0| == |chunks|
  {
  }

  lemma OnlyThePackageName(req: Request, strings: seq<text>)
    requires req.title == [] && req.authorities == []
    ensures Needed(req, true) == Needed(req, false) && GoalsOf(req, true, strings) == GoalsOf(req, false, strings)
  {
    hide Ascii, Index;
  }

  /** Without the namespace, and with its URI as the package name, the strings then have the URI. */
  lemma UnsettledStrings(req: Request, p: TextPlan)
    requires StringsOf(req, p) && !Settled(req, p.layout.pool.strings)
    ensures !p.ns && ANDROID_URI in p.strings && p.strings != p.layout.pool.strings
    ensures AllIn(Needed(req, false), p.strings)
  {
    hide Ascii, Interned;
    var needed := Needed(req, false);
    UriIsNotEmpty();
    InternedHasAll(p.layout.pool.strings, needed);
    assert needed[1] == req.packageName;
  }

  lemma UriIsNotEmpty()
    ensures ANDROID_URI != []
  {
    assert |ANDROID_URI| == 42;
  }

  /** With the URI as its package name, a request may ask for more the second time. */
  lemma UnsettledAgain(m: bytes, req: Request, p: TextPlan, chunks: seq<bytes>)
    requires ReadLayout(m) == Ok(p.layout) && PatchOf(m, req, p, chunks) && StringsOf(req, p)
    requires Writable(req, p) && |TextOutput(p)| < 0x1_0000_0000 && !req.Empty()
    requires !Settled(req, p.layout.pool.strings)
    ensures TextPatch(TextOutput(p), req) == Ok((TextOutput(p), false))
       <==> (req.title == [] && req.authorities == []) || AlreadyThere(req, p.strings, chunks)
  {
    hide *;
    var out := TextOutput(p);
    PatchOfParts(m, req, p, chunks);
    TextOutputLayout(m, req, p, chunks);
    TextOutputChunks(m, req, p, chunks);
    TextStrings(m, req, p);
    NewTextBodyIs(p);
    UnsettledStrings(req, p);
    StringsOfIs(req, p);
    InternedSame(p.strings, Needed(req, true));
    LeftAlone(out, req, NewTextLayout(p), p.patched);
    if req.title == [] && req.authorities == [] {
      OnlyThePackageName(req, p.strings);
      var goals := GoalsOf(req, false, p.strings);
      GoalsOfFit(req, false, p.strings);
      PatchListTwice(chunks, p.strings, goals, 0);
      ListUnchanged(p.patched, p.strings, goals, 0);
      UnchangedIs(p.patched, p.strings, goals);
    } else if AllIn(Needed(req, true), p.strings) {
      HeldAfter(req, p.strings, chunks, p.patched, p.changed);
    } else {
      ThereNeedsStrings(req, p.strings, chunks);
    }
  }

  lemma UnchangedIs(chunks: seq<bytes>, strings: seq<text>, goals: Goals)
    ensures PatchList(chunks, strings, goals, 0) == Some((chunks, false)) ==> Unchanged(PatchList(chunks, strings, goals, 0))
  {
    hide PatchList;
  }

  lemma ThereNeedsStrings(req: Request, strings: seq<text>, chunks: seq<bytes>)
    ensures AlreadyThere(req, strings, chunks) ==> AllIn(Needed(req, true), strings)
  {
  }

  /**
   Making the same request of the result again reports no change, and gives the same bytes, exactly if the
   namespace was known or the package name is not its URI, or nothing but the package name is asked for, or
   the document already has the label and the authorities.
   */
  lemma AskingAgain(m: bytes, req: Request, p: TextPlan, chunks: seq<bytes>)
    requires !req.Empty() && TextPlanOf(m, req) == Ok(p)
    requires p.layout.end <= |m| && Chunks(m, p.layout.body, p.layout.end) == Some(chunks)
    requires Writable(req, p) && |TextOutput(p)| < 0x1_0000_0000
    ensures TextPatch(m, req).Ok?
    ensures TextPatch(TextPatch(m, req).value.0, req) == Ok((TextPatch(m, req).value.0, false))
       <==> || Settled(req, p.layout.pool.strings)
            || (req.title == [] && req.authorities == [])
            || AlreadyThere(req, p.strings, chunks)
  {
    hide *;
    TextPatchIs(m, req, p);
    var same := TextPlanParts(m, req, p);
    PatchOfParts(m, req, p, same);
    if !Settled(req, p.layout.pool.strings) {
      UnsettledStrings(req, p);
      UnsettledAgain(m, req, p, chunks);
    } else if !(p.strings == p.layout.pool.strings && !p.changed) {
      var next := TextPlan(NewTextLayout(p), p.ns, p.strings, p.patched, false, p.pool, p.res);
      NextTextPlan(m, req, p, chunks, next);
      NewTextBodyIs(p);
      NextTextOutput(p, next);
      TextPatchIs(TextOutput(p), req, next);
    }
  }

  // ----- A request that changes more the second time -----

  /** A document with an empty string pool and no elements. */
  function EmptyDocument(): bytes {
    Document(PoolBytes(Small([])), [], [], [], [])
  }

  /** The namespace's URI as the package name, and a title. */
  function UriRequest(): Request {
    Request(ANDROID_URI, [120], [])
  }

  lemma EmptyLayout()
    ensures ReadLayout(EmptyDocument()) == Ok(Layout(Small([]).(chunkSize := 28), 36, 36, 36))
    ensures |EmptyDocument()| == 36
  {
    hide *;
    var m, pool := EmptyDocument(), Small([]);
    EmptyPool();
    SmallPrintable([]);
    DocumentParts(PoolBytes(pool), [], [], [], []);
    EmptyIs();
    DocumentHeader(PoolBytes(pool), [], [], [], []);
    PrintedType(pool, m);
    LayoutWithoutMap(m, pool.(chunkSize := 28));
  }

  lemma EmptyIs()
    ensures EmptyDocument() == Document(PoolBytes(Small([])), [], [], [], [])
    ensures |EmptyDocument()| == 8 + |PoolBytes(Small([]))|
  {
  }

  lemma EmptyPool()
    ensures Small([]).strings == [] && PrintedSize(Small([])) == 28 && |PoolBytes(Small([]))| == 28 && Short([])
  {
  }

  const URI_STRINGS: seq<text> := [PACKAGE, ANDROID_URI]

  lemma UriNeeded()
    ensures Needed(UriRequest(), false) == URI_STRINGS && Interned([], URI_STRINGS) == URI_STRINGS
    ensures Needed(UriRequest(), true) == [PACKAGE, ANDROID_URI, LABEL, [120]]
    ensures !UriRequest().Empty() && !Settled(UriRequest(), []) && LABEL !in URI_STRINGS && Short(URI_STRINGS)
  {
    assert |PACKAGE| == 7 && |ANDROID_URI| == 42 && |LABEL| == 5;
    assert URI_STRINGS[1..] == [ANDROID_URI] && [ANDROID_URI][1..] == [];
    assert [] + [PACKAGE] == [PACKAGE] && [PACKAGE] + [ANDROID_URI] == URI_STRINGS;
    assert Interned(URI_STRINGS, []) == URI_STRINGS;
    assert ANDROID_URI !in [PACKAGE];
    assert Interned([PACKAGE], [ANDROID_URI]) == URI_STRINGS;
  }

  lemma FirstUriPlan()
    ensures TextPlanOf(EmptyDocument(), UriRequest())
         == Ok(TextPlan(Layout(Small([]).(chunkSize := 28), 36, 36, 36), false, URI_STRINGS, [], false,
                        PoolBytes(Small(URI_STRINGS).(chunkSize := 28)), []))
  {
    hide ReadLayout, PoolBytes, Interned, Needed, Ascii, EmptyDocument, GoalsOf, UriRequest, URI_STRINGS, Settled, LABEL;
    EmptyLayout();
    UriNeeded();
    var m := EmptyDocument();
    assert Chunks(m, 36, 36) == Some([]);
    assert m[36..36] == [];
    assert Small([]).(chunkSize := 28, strings := URI_STRINGS) == Small(URI_STRINGS).(chunkSize := 28);
    UriStringsNotEmpty();
  }

  lemma UriStringsNotEmpty()
    ensures URI_STRINGS != []
  {
  }

  lemma PoolSizePlaysNoRole(p: Pool, size: nat)
    ensures |PoolBytes(p.(chunkSize := size))| == PrintedSize(p)
  {
  }

  /** The first request adds the package name; the second one finds the namespace, and changes the document again. */
  lemma SecondRequestChangesMore()
    ensures var m, req := EmptyDocument(), UriRequest();
            && TextPatch(m, req).Ok? && TextPatch(m, req).value.1
            && TextPatch(TextPatch(m, req).value.0, req).Ok? && TextPatch(TextPatch(m, req).value.0, req).value.1
  {
    hide *;
    var m, req := EmptyDocument(), UriRequest();
    FirstUriPlan();
    var p := TextPlanOf(m, req).value;
    UriNeeded();
    UriStringsNotEmpty();
    SmallPrintable(URI_STRINGS);
    PoolSizePlaysNoRole(Small(URI_STRINGS), 28);
    TextPatchIs(m, req, p);
    var chunks := TextPlanParts(m, req, p);
    UriWritable(p);
    NoChunks(p);
    EmptyPool();
    assert p.layout.pool.strings == [] && p.strings == URI_STRINGS;
    TextOutputLayout(m, req, p, chunks);
    TextOutputChunks(m, req, p, chunks);
    NewTextBodyIs(p);
    LayoutThere(TextOutput(p));
    SecondUriPlan(TextOutput(p), NewTextLayout(p));
  }

  lemma UriWritable(p: TextPlan)
    requires p.layout.pool == Small([]).(chunkSize := 28) && !p.ns && Short(URI_STRINGS)
    ensures Writable(UriRequest(), p)
  {
    hide Ascii, Storable, Needed, Interned;
    assert UTF8_FLAG / UTF8_FLAG % 2 == 1;
    UriNeeded();
    StoredShort(URI_STRINGS);
  }

  lemma NoChunks(p: TextPlan)
    requires p.patched == [] && p.res == []
    ensures |TextOutput(p)| == 8 + |p.pool|
  {
  }

  lemma SecondUriPlan(m: bytes, l: Layout)
    requires ReadLayout(m) == Ok(l) && l.end <= |m| && Chunks(m, l.body, l.end) == Some([]) && l.pool.strings == URI_STRINGS
    ensures TextPatch(m, UriRequest()).Ok? && TextPatch(m, UriRequest()).value.1
  {
    hide ReadLayout, Chunks, Ascii, Interned, Needed, GoalsOf, TextOutput, PoolPart, URI_STRINGS, UriRequest, LABEL;
    UriNeeded();
    UriKnown();
    LayoutThere(m);
    InternedSame(URI_STRINGS, Needed(UriRequest(), true));
    assert Needed(UriRequest(), true)[2] == LABEL;
  }

  lemma UriKnown()
    ensures ANDROID_URI in URI_STRINGS
  {
    assert URI_STRINGS[1] == ANDROID_URI;
  }
}
