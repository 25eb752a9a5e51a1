module PatchedAgain {
  // The main results about the debuggable patch: what its output reads as, and when patching
  // again changes it.
  //
  // A plan p holds what the patch found in a manifest m and what it made of it. Its output is
  //
  //   0                  the chunk type of a binary manifest, and the size of the output
  //   8                  p.pool: the old pool, byte for byte, or the pool printed with the name added
  //   8 + |p.pool|       the resource map for p.ids
  //   NewBody(p)         p.before: the chunks in front of the application element, byte for byte
  //   NewAt(p)           p.patched: the patched application element
  //   + |p.patched|      p.after: what was behind the element, byte for byte, up to the document's end
  //
  // The results need the output to fit its 32 bit size field. A start element in front of the
  // application element may be so short that its name is read out of the application element's size
  // field, which the patch changes; if that makes it an application element, the next search stops
  // there. NoneInFront says that it does not.
  //
  // The proofs go part by part: Planned says what is known of a plan, in four predicates that
  // are only unfolded one at a time; OutputLayout and OutputElement read the output back; and
  // NextPlan is the plan that patching the output comes to. It differs from p in places and in
  // the element alone, so the output is patched to itself if and only if the element is, which
  // PatchedTwice decides.

  import opened LittleEndian
  import opened Options
  import opened StringPools
  import opened StringPoolRoundTrip
  import opened AttributeTables
  import opened PatchedTables
  import opened ManifestLayout
  import opened DebuggablePatch
  import opened PatchedManifests

  /** The plan's places lie in the document. */
  predicate Located(m: bytes, p: Plan) {
    && LaidOut(m, p.layout) && p.layout.body <= p.at && StartAt(m, p.at, p.layout.end) && p.size == U32(m, p.at + 4)
    && p.at + p.size <= p.layout.end
  }

  /** The plan's parts are those of the document. */
  predicate Cut(m: bytes, p: Plan)
    requires Located(m, p)
  {
    var l := p.layout;
    && p.pool == PoolPart(m, l, p.strings) && p.before == m[l.body..p.at] && p.after == m[p.at + p.size..l.end]
    && p.ids == IdsOf(m, l.res, l.body, p.debug)
    && PatchedApplication(m[p.at..p.at + p.size], p.ns, p.debug, p.ids) == Some(p.patched)
  }

  /** The plan's strings and indexes are those of the names it uses. */
  predicate Named(p: Plan) {
    && p.strings == WithName(p.layout.pool.strings)
    && IndexOf(p.strings, DEBUGGABLE) == Some(p.debug) && IndexOf(p.strings, ANDROID_URI) == Some(p.ns)
  }

  predicate Found(m: bytes, p: Plan)
    requires Located(m, p)
  {
    FindStart(m, p.layout.body, p.layout.end, p.layout.pool.strings, APPLICATION) == Ok(Some(p.at))
  }

  /** The plan says what was found in the document. */
  predicate Planned(m: bytes, p: Plan) {
    Located(m, p) && Cut(m, p) && Named(p) && Found(m, p) && ReadLayout(m) == Ok(p.layout)
  }

  /** A plan that was made says what was found, and the other way round. */
  lemma PlanIsPlanned(m: bytes, p: Plan)
    ensures PlanOf(m) == Ok(p) <==> Planned(m, p)
  {
    hide ReadLayout, FindStart, PlanAt, StartAt, LaidOut, Ascii, Cut, Named, Found, Located;
    if ReadLayout(m).Ok? {
      var l := ReadLayout(m).value;
      LayoutLaidOut(m);
      LayoutEnd(m, l);
      var found := FindStart(m, l.body, l.end, l.pool.strings, APPLICATION);
      if found.Ok? && found.value.Some? {
        PlanAtIs(m, l, found.value.value, p);
      }
      PlannedFound(m, p, l);
    }
  }

  lemma LayoutEnd(m: bytes, l: Layout)
    requires LaidOut(m, l)
    ensures l.end <= |m|
  {
  }

  lemma PlannedFound(m: bytes, p: Plan, l: Layout)
    requires LaidOut(m, l)
    ensures Located(m, p) && Found(m, p) && p.layout == l ==> FindStart(m, l.body, l.end, l.pool.strings, APPLICATION) == Ok(Some(p.at))
    ensures FindStart(m, l.body, l.end, l.pool.strings, APPLICATION) == Ok(Some(p.at)) && Located(m, p) && p.layout == l ==> Found(m, p)
  {
    hide FindStart;
  }

  lemma PlanAtIs(m: bytes, l: Layout, at: nat, p: Plan)
    requires LaidOut(m, l) && l.body <= at && StartAt(m, at, l.end)
    ensures PlanAt(m, l, at) == Ok(p) <==> p.layout == l && p.at == at && Located(m, p) && Cut(m, p) && Named(p)
  {
    hide IndexOf, IdsOf, PatchedApplication, PoolPart, Ascii, U32;
  }

  /** The document put together from a plan. */
  function Output(p: Plan): bytes {
    Document(p.pool, MapBytes(p.ids), p.before, p.patched, p.after)
  }

  /** Where its chunks begin, and where the element is. */
  function NewBody(p: Plan): nat {
    8 + |p.pool| + 8 + 4 * |p.ids|
  }

  function NewAt(p: Plan): nat {
    NewBody(p) + |p.before|
  }

  function NewLayout(p: Plan): Layout {
    Layout(p.layout.pool.(strings := p.strings, chunkSize := |p.pool|), 8 + |p.pool|, NewBody(p), |Output(p)|)
  }

  lemma OutputParts(p: Plan)
    ensures var out := Output(p);
            && |out| == NewAt(p) + |p.patched| + |p.after| && out[8..8 + |p.pool|] == p.pool
            && out[8 + |p.pool|..NewBody(p)] == MapBytes(p.ids) && out[NewBody(p)..NewAt(p)] == p.before
            && out[NewAt(p)..NewAt(p) + |p.patched|] == p.patched && out[NewAt(p) + |p.patched|..] == p.after
  {
    hide Document, MapBytes;
    DocumentParts(p.pool, MapBytes(p.ids), p.before, p.patched, p.after);
  }

  lemma OutputHeader(p: Plan)
    requires |Output(p)| < 0x1_0000_0000
    ensures var out := Output(p);
            && |out| >= 8 && U32(out, 0) == XML_CHUNK && U32(out, 4) == |out| && DocumentEnd(out) == |out|
  {
    hide Document, U32;
    DocumentHeader(p.pool, MapBytes(p.ids), p.before, p.patched, p.after);
  }

  lemma PlanOfIds(m: bytes, p: Plan)
    requires Planned(m, p)
    ensures p.debug < |p.ids| && p.ids[p.debug] == ATTR_DEBUGGABLE_ID
    ensures forall i :: 0 <= i < |p.ids| ==> p.ids[i] < 0x1_0000_0000
  {
    hide ReadLayout, FindStart, IndexOf, IdsOf, PatchedApplication, PoolPart, Ascii, Found, Named, U32, StartAt;
    IdsFit(m, p.layout.res, p.layout.body, p.debug);
  }

  lemma PlanOfPool(m: bytes, p: Plan)
    requires Planned(m, p)
    ensures ReadLayout(m) == Ok(p.layout) && p.strings == WithName(p.layout.pool.strings) && LaidOut(m, p.layout)
    ensures 8 <= p.layout.res <= |m| && p.pool == PoolPart(m, p.layout, p.strings)
  {
    hide ReadLayout, FindStart, IndexOf, IdsOf, PatchedApplication, PoolPart, Ascii, U32, StartAt;
  }

  /** The layout of the output: the strings, with the name added if it was missing, and the extended resource map. */
  lemma OutputLayout(m: bytes, p: Plan)
    requires Planned(m, p) && |Output(p)| < 0x1_0000_0000
    ensures ReadLayout(Output(p)) == Ok(NewLayout(p)) && LaidOut(Output(p), NewLayout(p))
    ensures KnownIds(Output(p), 8 + |p.pool|, NewBody(p)) == p.ids
    ensures IdsOf(Output(p), 8 + |p.pool|, NewBody(p), p.debug) == p.ids
  {
    hide *;
    PlanOfIds(m, p);
    PlanOfPool(m, p);
    OutputParts(p);
    OutputHeader(p);
    OutputSizes(p);
    PlanOfNames(m, p);
    NameStorable(p.layout.pool.Utf8());
    OneStorable(p.layout.pool.Utf8(), DEBUGGABLE);
    PoolOfOutput(m, p.layout, if DEBUGGABLE in p.layout.pool.strings then [] else [DEBUGGABLE], Output(p));
    MapParts(Output(p), 8 + |p.pool|, p.ids);
    MapOfOutput(Output(p), 8 + |p.pool|, p.ids, p.debug);
    var pool := p.layout.pool.(strings := p.strings, chunkSize := |p.pool|);
    LayoutIs(Output(p), pool, NewBody(p));
    NewLayoutIs(p);
    LayoutLaidOut(Output(p));
  }

  lemma OneStorable(utf8: bool, s: text)
    requires Storable(utf8, s)
    ensures AllStorable(utf8, [s]) && AllStorable(utf8, [])
  {
  }

  lemma LayoutLaidOut(m: bytes)
    requires ReadLayout(m).Ok?
    ensures LaidOut(m, ReadLayout(m).value)
  {
  }

  lemma NewLayoutIs(p: Plan)
    ensures NewLayout(p)
         == Layout(p.layout.pool.(strings := p.strings, chunkSize := |p.pool|), 8 + |p.pool|, NewBody(p), |Output(p)|)
  {
  }

  lemma OutputSizes(p: Plan)
    requires |Output(p)| < 0x1_0000_0000
    ensures |p.pool| < 0x1_0000_0000 && 8 + 4 * |p.ids| < 0x1_0000_0000 && |MapBytes(p.ids)| == 8 + 4 * |p.ids|
    ensures NewBody(p) == 8 + |p.pool| + |MapBytes(p.ids)| && NewBody(p) <= NewAt(p) && |p.patched| < 0x1_0000_0000
  {
    OutputParts(p);
  }

  // ----- The application element -----

  lemma PlanOfElement(m: bytes, p: Plan)
    requires Planned(m, p)
    ensures p.layout.body <= p.at && StartAt(m, p.at, p.layout.end) && p.size == U32(m, p.at + 4)
    ensures p.layout.end <= |m| && p.at + p.size <= p.layout.end
    ensures p.before == m[p.layout.body..p.at] && p.after == m[p.at + p.size..p.layout.end]
    ensures PatchedApplication(m[p.at..p.at + p.size], p.ns, p.debug, p.ids) == Some(p.patched)
    ensures FindStart(m, p.layout.body, p.layout.end, p.layout.pool.strings, APPLICATION) == Ok(Some(p.at))
  {
    hide *;
    PlannedParts(m, p);
    LocatedParts(m, p);
    CutParts(m, p);
    FoundParts(m, p);
  }

  lemma PlannedParts(m: bytes, p: Plan)
    requires Planned(m, p)
    ensures Located(m, p) && Cut(m, p) && Named(p) && Found(m, p)
  {
    hide Cut, Named, Found, Located, ReadLayout;
  }

  lemma LocatedParts(m: bytes, p: Plan)
    requires Located(m, p)
    ensures p.layout.body <= p.at && StartAt(m, p.at, p.layout.end) && p.size == U32(m, p.at + 4)
    ensures p.layout.end <= |m| && p.at + p.size <= p.layout.end
  {
    hide U32;
  }

  lemma CutParts(m: bytes, p: Plan)
    requires Located(m, p) && Cut(m, p)
    ensures p.layout.body <= p.at && p.at + p.size <= p.layout.end <= |m|
    ensures p.before == m[p.layout.body..p.at] && p.after == m[p.at + p.size..p.layout.end]
    ensures PatchedApplication(m[p.at..p.at + p.size], p.ns, p.debug, p.ids) == Some(p.patched)
  {
    hide IdsOf, PatchedApplication, PoolPart, U32;
  }

  lemma FoundParts(m: bytes, p: Plan)
    requires Located(m, p) && Found(m, p)
    ensures p.layout.end <= |m|
    ensures FindStart(m, p.layout.body, p.layout.end, p.layout.pool.strings, APPLICATION) == Ok(Some(p.at))
  {
    hide FindStart, Ascii, U32;
  }

  lemma PlanOfNames(m: bytes, p: Plan)
    requires Planned(m, p)
    ensures p.strings == p.layout.pool.strings + (if DEBUGGABLE in p.layout.pool.strings then [] else [DEBUGGABLE])
    ensures IndexOf(p.strings, DEBUGGABLE) == Some(p.debug) && IndexOf(p.strings, ANDROID_URI) == Some(p.ns)
  {
    hide ReadLayout, FindStart, IdsOf, PatchedApplication, PoolPart, Ascii, Located, Found, Cut;
    assert p.layout.pool.strings + [] == p.layout.pool.strings;
  }

  /** The header of the patched element: still a start element with the same name, with its own size. */
  lemma PatchedHeader(m: bytes, at: nat, size: nat, end: nat, ns: nat, debug: nat, ids: seq<nat>)
    requires StartAt(m, at, end) && size == U32(m, at + 4)
    requires PatchedApplication(m[at..at + size], ns, debug, ids).Some?
    ensures var patched := PatchedApplication(m[at..at + size], ns, debug, ids).value;
            && |patched| >= 36 && U32(patched, 0) == START_CHUNK && U32(patched, 20) == U32(m, at + 20)
            && (|patched| < 0x1_0000_0000 ==> U32(patched, 4) == |patched|)
            && at + 36 <= |m| && patched[0..4] == m[at..at + 4] && patched[8..28] == m[at + 8..at + 28]
  {
    hide *;
    StartFields(m, at, end);
    var chunk := m[at..at + size];
    var patched := PatchedApplication(chunk, ns, debug, ids).value;
    var t := PatchedIs(chunk, ns, debug, ids);
    var es := SortedTable(chunk, t, ns, debug, ids);
    TableFacts(chunk, t);
    TableMeaning(chunk, t, ns, debug, ids);
    PatchedChunk(chunk, t, es);
    assert patched[0..4] == patched[..4] && chunk[0..4] == chunk[..4];
    SameField32(chunk, patched, 0, 4, 0);
    SameField32(chunk, patched, 8, 28, 20);
    SubSlice(m, at, at + size, 0, 4);
    SubSlice(m, at, at + size, 8, 28);
    FieldOfSlice(m, at, at + size, 0);
    FieldOfSlice(m, at, at + size, 20);
  }

  lemma StartFields(m: bytes, at: nat, end: nat)
    requires StartAt(m, at, end)
    ensures at + 36 <= end <= |m| && U32(m, at) == START_CHUNK && at + U32(m, at + 4) <= end
  {
  }

  /** No start element in front of the application element takes that name out of the patched element's size field. */
  predicate NoneInFront(m: bytes, p: Plan)
    requires Located(m, p)
  {
    && NewAt(p) + 36 <= |Output(p)| && NewBody(p) + (p.at - p.layout.body) == NewAt(p)
    && NoEarlier(m, p.layout.body, p.at, Output(p), NewBody(p), p.strings, APPLICATION)
  }

  lemma NoneInFrontIs(m: bytes, p: Plan)
    requires Located(m, p) && p.layout.body <= p.at <= |m|
    requires NewAt(p) + 36 <= |Output(p)| && NewBody(p) + (p.at - p.layout.body) == NewAt(p)
    ensures NoneInFront(m, p) <==> NoEarlier(m, p.layout.body, p.at, Output(p), NewBody(p), p.strings, APPLICATION)
  {
    hide NoEarlier, Output, Ascii, Located;
  }

  /** The patched element stands in the output, and the chunks in front of the element in front of it. */
  lemma OutputMoved(m: bytes, p: Plan)
    requires Planned(m, p) && |Output(p)| < 0x1_0000_0000
    ensures StartAt(Output(p), NewAt(p), |Output(p)|) && U32(Output(p), NewAt(p) + 4) == |p.patched|
    ensures Moved(m, p.layout.body, p.at, Output(p), NewBody(p), |Output(p)|)
    ensures NewBody(p) + (p.at - p.layout.body) == NewAt(p) && NewAt(p) + 36 <= |Output(p)|
  {
    hide *;
    PlanOfElement(m, p);
    StartFields(m, p.at, p.layout.end);
    OutputParts(p);
    OutputSizes(p);
    NewAtIs(p);
    PatchedHeader(m, p.at, p.size, p.layout.end, p.ns, p.debug, p.ids);
    var out, at := Output(p), NewAt(p);
    var end := at + |p.patched|;
    FieldOfSlice(out, at, end, 0);
    FieldOfSlice(out, at, end, 4);
    SubSlice(out, at, end, 0, 4);
    SubSlice(out, at, end, 8, 28);
    StartsAt(out, at, |out|);
    MovedIs(m, p.layout.body, p.at, out, NewBody(p), |out|);
  }

  lemma NewAtIs(p: Plan)
    ensures NewAt(p) == NewBody(p) + |p.before|
  {
  }

  lemma MovedIs(m: bytes, pos: nat, at: nat, n: bytes, npos: nat, nend: nat)
    requires pos <= at && at + 36 <= |m| && npos + (at - pos) + 36 <= nend <= |n|
    requires n[npos..npos + (at - pos)] == m[pos..at]
    requires var moved := npos + (at - pos);
             StartAt(n, moved, nend) && n[moved..moved + 4] == m[at..at + 4] && n[moved + 8..moved + 28] == m[at + 8..at + 28]
    ensures Moved(m, pos, at, n, npos, nend)
  {
    hide StartAt;
  }

  /**
   The first application element of the output is the patched one, exactly if none stands in front; else one too short
   to be patched does.
   */
  lemma OutputElement(m: bytes, p: Plan)
    requires Planned(m, p) && |Output(p)| < 0x1_0000_0000
    ensures Located(m, p) && StartAt(Output(p), NewAt(p), |Output(p)|) && U32(Output(p), NewAt(p) + 4) == |p.patched|
    ensures var found := FindStart(Output(p), NewBody(p), |Output(p)|, p.strings, APPLICATION);
            && (found == Ok(Some(NewAt(p))) <==> NoneInFront(m, p))
            && (!NoneInFront(m, p) ==>
                  found.Ok? && found.value.Some? && found.value.value + 8 <= |Output(p)| && U32(Output(p), found.value.value + 4) < 20)
  {
    hide *;
    PlannedLocated(m, p);
    PlanOfElement(m, p);
    PlanOfNames(m, p);
    StartFields(m, p.at, p.layout.end);
    OutputMoved(m, p);
    NoneInFrontIs(m, p);
    var more: seq<text> := if DEBUGGABLE in p.layout.pool.strings then [] else [DEBUGGABLE];
    assert p.strings == p.layout.pool.strings + more;
    NamesDiffer();
    FindStartMoved(m, p.layout.body, p.layout.end, p.layout.pool.strings, APPLICATION, p.at,
                   Output(p), NewBody(p), |Output(p)|, more);
  }

  lemma StartsAt(m: bytes, at: nat, end: nat)
    requires at + 36 <= end <= |m| && U32(m, at) == START_CHUNK
    requires 8 <= U32(m, at + 4) && at + U32(m, at + 4) <= end
    ensures StartAt(m, at, end)
  {
  }

  // ----- Reading the output -----

  /** What the patched document reads as. */
  predicate ReadsAs(out: bytes, m: bytes, p: Plan)
    requires Located(m, p) && NewAt(p) + |p.patched| <= |out|
  {
    && ReadLayout(out) == Ok(NewLayout(p))
    && PreviewPool(out, 8) == Ok((p.strings, |p.pool|))
    && KnownIds(out, 8 + |p.pool|, NewBody(p)) == p.ids
    && out[NewBody(p)..NewAt(p)] == m[p.layout.body..p.at]
    && StartAt(out, NewAt(p), |out|) && out[NewAt(p)..NewAt(p) + |p.patched|] == p.patched
    && out[NewAt(p) + |p.patched|..] == m[p.at + p.size..p.layout.end]
  }

  /** The identifiers are the old ones, except that debuggable has its own. */
  predicate IdsAsBefore(m: bytes, p: Plan)
    requires LaidOut(m, p.layout)
  {
    && p.debug < |p.ids| && p.ids[p.debug] == ATTR_DEBUGGABLE_ID
    && (forall i :: 0 <= i < |p.ids| && i != p.debug ==>
          p.ids[i] == ResourceId(KnownIds(m, p.layout.res, p.layout.body), i))
    && |KnownIds(m, p.layout.res, p.layout.body)| <= |p.ids|
  }

  lemma OutputPreview(m: bytes, p: Plan)
    requires Planned(m, p) && |Output(p)| < 0x1_0000_0000
    ensures PreviewPool(Output(p), 8) == Ok((p.strings, |p.pool|))
  {
    hide *;
    OutputLayout(m, p);
    LayoutFacts(Output(p));
    NewLayoutIs(p);
    PoolType(Output(p));
    ReadersAgree(Output(p), 8);
  }

  lemma PoolType(m: bytes)
    requires |m| >= 36 && U32(m, 8) == POOL_CHUNK
    ensures U16(m, 8) == 1
  {
  }

  lemma OutputIds(m: bytes, p: Plan)
    requires Planned(m, p)
    ensures LaidOut(m, p.layout) && IdsAsBefore(m, p)
  {
    hide ReadLayout, FindStart, IndexOf, IdsOf, PatchedApplication, PoolPart, Ascii, Found, Named, U32, StartAt, KnownIds;
    PlanOfIds(m, p);
    forall i | 0 <= i < |p.ids| && i != p.debug
      ensures p.ids[i] == ResourceId(KnownIds(m, p.layout.res, p.layout.body), i)
    {
      IdsKept(m, p.layout.res, p.layout.body, p.debug, i);
    }
    IdsGrow(m, p.layout.res, p.layout.body, p.debug);
  }

  lemma IdsGrow(m: bytes, res: nat, body: nat, debug: nat)
    requires (res == body || res + 8 <= body) && body <= |m|
    ensures |KnownIds(m, res, body)| <= |IdsOf(m, res, body, debug)|
  {
    hide KnownIds;
  }

  /**
   The patched document reads as the old one with its strings, and debuggable behind them if it was
   missing (for both readers); with its resource map, naming debuggable; with the same bytes before
   and behind the application element; and with the patched element in its place, which is what a search
   for the application element finds exactly if none stands in front. What is in the patched element,
   TableMeaning and PointersFollow say.
   */
  lemma ReadBack(m: bytes, p: Plan)
    requires PlanOf(m) == Ok(p) && |Output(p)| < 0x1_0000_0000
    ensures PatchDebuggable(m) == Ok(Output(p))
    ensures Located(m, p) && IdsAsBefore(m, p) && NewAt(p) + |p.patched| <= |Output(p)|
    ensures p.strings == p.layout.pool.strings + (if DEBUGGABLE in p.layout.pool.strings then [] else [DEBUGGABLE])
    ensures ReadsAs(Output(p), m, p)
    ensures FindStart(Output(p), NewBody(p), |Output(p)|, p.strings, APPLICATION) == Ok(Some(NewAt(p))) <==> NoneInFront(m, p)
  {
    hide *;
    PlanIsPlanned(m, p);
    PlannedLocated(m, p);
    PatchIsOutput(m, p);
    OutputIds(m, p);
    OutputParts(p);
    OutputLayout(m, p);
    OutputPreview(m, p);
    OutputElement(m, p);
    OutputSizes(p);
    PlanOfElement(m, p);
    PlanOfNames(m, p);
    ReadsAsIs(Output(p), m, p);
  }

  lemma PlannedLocated(m: bytes, p: Plan)
    requires Planned(m, p)
    ensures Located(m, p)
  {
  }

  lemma PatchIsOutput(m: bytes, p: Plan)
    requires PlanOf(m) == Ok(p)
    ensures PatchDebuggable(m) == Ok(Output(p))
  {
    hide PlanOf;
  }

  lemma ReadsAsIs(out: bytes, m: bytes, p: Plan)
    requires Located(m, p) && |out| == NewAt(p) + |p.patched| + |p.after| && NewBody(p) <= NewAt(p)
    requires p.before == m[p.layout.body..p.at] && p.after == m[p.at + p.size..p.layout.end]
    requires ReadLayout(out) == Ok(NewLayout(p)) && PreviewPool(out, 8) == Ok((p.strings, |p.pool|))
    requires 8 + |p.pool| + 8 <= NewBody(p) && KnownIds(out, 8 + |p.pool|, NewBody(p)) == p.ids
    requires StartAt(out, NewAt(p), |out|)
    requires out[NewBody(p)..NewAt(p)] == p.before && out[NewAt(p)..NewAt(p) + |p.patched|] == p.patched
    requires out[NewAt(p) + |p.patched|..] == p.after
    ensures ReadsAs(out, m, p)
  {
    hide ReadLayout, PreviewPool, KnownIds, FindStart, Ascii, NewAt, NewBody, NewLayout, Output, Located, LaidOut, StartAt, U32;
  }

  // ----- Patching the output -----

  /** The attributes of the patched element, one having been added if none was named debuggable. */
  function NewCount(chunk: bytes, debug: nat, ids: seq<nat>): nat
    requires TableOf(chunk).Some?
  {
    var t := TableOf(chunk).value;
    t.count + if AnyDebuggable(OldEntries(chunk, t), debug, ids) then 0 else 1
  }

  lemma ElementAgain(chunk: bytes, ns: nat, debug: nat, ids: seq<nat>)
    requires debug < 0x1_0000_0000 && PatchedApplication(chunk, ns, debug, ids).Some?
    requires |PatchedApplication(chunk, ns, debug, ids).value| < 0x1_0000_0000
    ensures TableOf(chunk).Some?
    ensures var patched := PatchedApplication(chunk, ns, debug, ids).value;
            && PatchedApplication(patched, ns, debug, ids).Some?
            && (PatchedApplication(patched, ns, debug, ids) == Some(patched) <==> NewCount(chunk, debug, ids) < 0x1_0000)
  {
    hide *;
    var t := PatchedIs(chunk, ns, debug, ids);
    PatchedTwice(chunk, ns, debug, ids);
    TableMeaning(chunk, t, ns, debug, ids);
    NewCountIs(chunk, t, debug, ids);
  }

  lemma NewCountIs(chunk: bytes, t: Table, debug: nat, ids: seq<nat>)
    requires TableOf(chunk) == Some(t)
    ensures NewCount(chunk, debug, ids) == t.count + if AnyDebuggable(OldEntries(chunk, t), debug, ids) then 0 else 1
  {
    hide TableOf, AnyDebuggable, OldEntries;
  }

  /** The plan made for the output, with the element patched again. */
  function NextPlan(p: Plan, again: bytes): Plan {
    Plan(NewLayout(p), NewAt(p), |p.patched|, p.strings, p.ns, p.debug, p.ids, p.pool, p.before, again, p.after)
  }

  lemma NextLocated(m: bytes, p: Plan, again: bytes)
    requires Planned(m, p) && |Output(p)| < 0x1_0000_0000
    requires Located(m, p) && NoneInFront(m, p)
    ensures Located(Output(p), NextPlan(p, again)) && Found(Output(p), NextPlan(p, again))
  {
    hide *;
    OutputLayout(m, p);
    OutputElement(m, p);
    OutputParts(p);
    NewLayoutIs(p);
    OutputSizes(p);
    LocatedIs(Output(p), p, again);
  }

  lemma LocatedIs(out: bytes, p: Plan, again: bytes)
    requires out == Output(p) && LaidOut(out, NewLayout(p)) && StartAt(out, NewAt(p), |out|)
    requires NewAt(p) + |p.patched| <= |out| && U32(out, NewAt(p) + 4) == |p.patched| && NewBody(p) <= NewAt(p)
    requires FindStart(out, NewBody(p), |out|, p.strings, APPLICATION) == Ok(Some(NewAt(p)))
    ensures Located(out, NextPlan(p, again)) && Found(out, NextPlan(p, again))
  {
    hide U32, StartAt, FindStart, LaidOut, NewAt, NewBody, Ascii, Output;
  }

  lemma NextCut(m: bytes, p: Plan, again: bytes)
    requires Planned(m, p) && |Output(p)| < 0x1_0000_0000
    requires Located(Output(p), NextPlan(p, again))
    requires PatchedApplication(p.patched, p.ns, p.debug, p.ids) == Some(again)
    ensures Cut(Output(p), NextPlan(p, again))
  {
    hide *;
    OutputLayout(m, p);
    OutputParts(p);
    NewLayoutIs(p);
    OutputSizes(p);
    CutIs(Output(p), p, again);
  }

  lemma CutIs(out: bytes, p: Plan, again: bytes)
    requires Located(out, NextPlan(p, again))
    requires NewLayout(p).res == 8 + |p.pool| && NewLayout(p).body == NewBody(p) && NewLayout(p).end == |out|
    requires NewLayout(p).pool.strings == p.strings
    requires |out| == NewAt(p) + |p.patched| + |p.after| && out[8..8 + |p.pool|] == p.pool
    requires NewBody(p) <= NewAt(p) && out[NewBody(p)..NewAt(p)] == p.before
    requires out[NewAt(p)..NewAt(p) + |p.patched|] == p.patched && out[NewAt(p) + |p.patched|..] == p.after
    requires 8 + |p.pool| + 8 <= NewBody(p) && IdsOf(out, 8 + |p.pool|, NewBody(p), p.debug) == p.ids
    requires PatchedApplication(p.patched, p.ns, p.debug, p.ids) == Some(again)
    ensures Cut(out, NextPlan(p, again))
  {
    hide U32, IdsOf, PatchedApplication, NewAt, NewBody, NewLayout, PoolBytes;
  }

  lemma NextNamed(p: Plan)
    requires IndexOf(p.strings, DEBUGGABLE) == Some(p.debug) && IndexOf(p.strings, ANDROID_URI) == Some(p.ns)
    ensures forall again :: Named(NextPlan(p, again))
  {
    hide IndexOf, Ascii, NewAt, NewBody, Output;
  }

  lemma PlannedIs(m: bytes, p: Plan)
    requires Located(m, p) && Cut(m, p) && Named(p) && Found(m, p) && ReadLayout(m) == Ok(p.layout)
    ensures Planned(m, p)
  {
    hide Located, Cut, Named, Found, ReadLayout;
  }

  lemma NextOutput(p: Plan, again: bytes)
    ensures Output(NextPlan(p, again)) == Output(p) <==> again == p.patched
    ensures NextPlan(p, again).layout == NewLayout(p)
  {
    hide Document, MapBytes;
    OutputParts(p);
    OutputParts(NextPlan(p, again));
  }

  /** The next plan is what patching the output comes to. */
  lemma NextPlanned(m: bytes, p: Plan, again: bytes)
    requires Planned(m, p) && |Output(p)| < 0x1_0000_0000
    requires Located(m, p) && NoneInFront(m, p)
    requires PatchedApplication(p.patched, p.ns, p.debug, p.ids) == Some(again)
    ensures PatchDebuggable(Output(p)) == Ok(Output(NextPlan(p, again)))
  {
    hide *;
    var out, next := Output(p), NextPlan(p, again);
    NextLocated(m, p, again);
    NextCut(m, p, again);
    PlanOfNames(m, p);
    NextNamed(p);
    OutputLayout(m, p);
    NextOutput(p, again);
    PlannedIs(out, next);
    PlanIsPlanned(out, next);
    PatchIsOutput(out, next);
  }

  /** A start element of less than 20 bytes in front that is called application cannot be patched. */
  lemma ShortIsRefused(m: bytes, p: Plan)
    requires Planned(m, p) && |Output(p)| < 0x1_0000_0000 && Located(m, p) && !NoneInFront(m, p)
    ensures PatchDebuggable(Output(p)).Err?
  {
    hide *;
    var out := Output(p);
    OutputLayout(m, p);
    OutputElement(m, p);
    NewLayoutIs(p);
    PlanOfNames(m, p);
    PatchWithoutPlan(out);
    ShortHasNoPlan(out, NewLayout(p));
  }

  lemma PatchWithoutPlan(m: bytes)
    ensures PlanOf(m).Err? ==> PatchDebuggable(m).Err?
  {
    hide PlanOf;
  }

  lemma ShortHasNoPlan(m: bytes, l: Layout)
    requires ReadLayout(m) == Ok(l) && LaidOut(m, l) && l.end <= |m|
    requires var found := FindStart(m, l.body, l.end, l.pool.strings, APPLICATION);
             found.Ok? && found.value.Some? && found.value.value + 8 <= |m| && U32(m, found.value.value + 4) < 20
    ensures PlanOf(m).Err?
  {
    hide ReadLayout, PlanAt, FindStart, U32, Ascii, LaidOut;
    LaidOutBody(m, l);
    ShortHasNoPlanAt(m, l, FindStart(m, l.body, l.end, l.pool.strings, APPLICATION).value.value);
  }

  lemma ShortHasNoPlanAt(m: bytes, l: Layout, at: nat)
    requires LaidOut(m, l) && l.body <= at && StartAt(m, at, l.end) && U32(m, at + 4) < 20
    ensures PlanAt(m, l, at).Err?
  {
    hide IdsOf, IndexOf, WithName, U32, Ascii, PoolPart, PatchedApplication;
    var chunk := m[at..at + U32(m, at + 4)];
    forall ns: nat, debug: nat, ids: seq<nat> ensures PatchedApplication(chunk, ns, debug, ids).None? {
      ShortHasNoTable(chunk, ns, debug, ids);
    }
  }

  lemma ShortHasNoTable(chunk: bytes, ns: nat, debug: nat, ids: seq<nat>)
    requires |chunk| < 36
    ensures PatchedApplication(chunk, ns, debug, ids).None?
  {
  }

  lemma LaidOutBody(m: bytes, l: Layout)
    requires LaidOut(m, l)
    ensures 8 <= l.res <= l.body <= |m| && l.end <= |m|
  {
  }

  /**
   Patching a patched manifest gives exactly the same bytes, if and only if the attributes of the
   application element can be counted in 16 bits, and no start element in front takes its name out of the patched
   element's size field. With 65535 attributes and none of them debuggable, the count wraps to 0 and the next patch
   adds another one; with such a start element the next patch is refused.
   */
  lemma PatchIsIdempotent(m: bytes, p: Plan)
    requires PlanOf(m) == Ok(p) && |Output(p)| < 0x1_0000_0000
    ensures PatchDebuggable(m) == Ok(Output(p)) && Located(m, p)
    ensures p.at + p.size <= |m| && TableOf(m[p.at..p.at + p.size]).Some?
    ensures PatchDebuggable(Output(p)) == Ok(Output(p))
       <==> NewCount(m[p.at..p.at + p.size], p.debug, p.ids) < 0x1_0000 && NoneInFront(m, p)
    ensures !NoneInFront(m, p) ==> PatchDebuggable(Output(p)).Err?
  {
    hide *;
    PlanIsPlanned(m, p);
    PlannedLocated(m, p);
    PatchIsOutput(m, p);
    PlanOfElement(m, p);
    PlanOfIds(m, p);
    OutputSizes(p);
    ElementAgain(m[p.at..p.at + p.size], p.ns, p.debug, p.ids);
    if NoneInFront(m, p) {
      var again := PatchedApplication(p.patched, p.ns, p.debug, p.ids).value;
      NextPlanned(m, p, again);
      NextOutput(p, again);
    } else {
      ShortIsRefused(m, p);
    }
  }
}
