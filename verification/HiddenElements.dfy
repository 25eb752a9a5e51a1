/**
 A manifest that is patched once and then refused. In front of its application element stands a start element of 16
 bytes, whose name is read out of the size of the application element. That size is 36, a string nobody asks for; the
 patch makes it 56, and string 56 is "application".
 */
module HiddenElements {
  import opened LittleEndian
  import opened Options
  import opened StringPools
  import opened StringPoolRoundTrip
  import opened AttributeTables
  import opened PatchedTables
  import opened ManifestLayout
  import opened DebuggablePatch
  import opened PatchedManifests
  import opened PatchedAgain
  import opened SmallPools

  function Strings(): (s: seq<text>)
    ensures |s| == 59
  {
    seq(56, _ => []) + [APPLICATION, ANDROID_URI, DEBUGGABLE]
  }

  /** A start element that ends in front of its name. */
  function ShortStart(): bytes {
    Le32(START_CHUNK) + Le32(16) + Zeros(8)
  }

  /** An application element without attributes. */
  function Element(): bytes {
    Le32(START_CHUNK) + Le32(36) + Zeros(12) + Le32(56) + Le16(20) + Le16(20) + Zeros(8)
  }

  function Manifest(): bytes {
    Document(PoolBytes(Small(Strings())), [], ShortStart(), Element(), [])
  }

  /** Where the chunks begin. */
  function Body(): nat {
    8 + PrintedSize(Small(Strings()))
  }

  lemma StringsAre()
    ensures var s := Strings();
            && Short(s) && s[36] == [] && s[56] == APPLICATION && s[57] == ANDROID_URI && s[58] == DEBUGGABLE
            && APPLICATION != [] && DEBUGGABLE in s && ANDROID_URI in s
  {
    assert |APPLICATION| == 11 && |DEBUGGABLE| == 10 && |ANDROID_URI| == 42;
    var s := Strings();
    assert s[58] in s && s[57] in s;
  }

  lemma ElementFields()
    ensures var e := Element();
            && |e| == 36 && |ShortStart()| == 16
            && e[0..4] == Le32(START_CHUNK) && e[4..8] == Le32(36) && e[20..24] == Le32(56) && e[24..26] == Le16(20)
            && e[26..28] == Le16(20) && e[28..30] == Zeros(2)
            && ShortStart()[0..4] == Le32(START_CHUNK) && ShortStart()[4..8] == Le32(16)
  {
    hide Le16, Le32;
  }

  lemma ElementTable()
    ensures TableOf(Element()) == Some(Table(36, 20, 0, 36))
  {
    hide Le32, Le16, Element;
    var e := Element();
    ElementFields();
    FieldAt16(e, 24, 20);
    FieldAt16(e, 26, 20);
    assert e[28] == e[28..30][0] && e[29] == e[28..30][1];
    assert Area(0, 20) == 0;
  }

  lemma ManifestParts()
    ensures var m, b := Manifest(), Body();
            && 36 <= b <= 20_008 && |m| == b + 52 && m[8..b] == PoolBytes(Small(Strings()))
            && m[b..b + 16] == ShortStart() && m[b + 16..b + 52] == Element()
  {
    hide Document, PoolBytes, PrintedSize, Strings, Small, ShortStart, Element, Short;
    var pool := PoolBytes(Small(Strings()));
    StringsAre();
    SmallPrintable(Strings());
    ElementFields();
    DocumentParts(pool, [], ShortStart(), Element(), []);
  }

  lemma ManifestFields()
    ensures var m, b := Manifest(), Body();
            && |m| == b + 52
            && U32(m, b) == START_CHUNK && U32(m, b + 4) == 16 && U32(m, b + 20) == 36
            && U32(m, b + 16) == START_CHUNK && U32(m, b + 36) == 56
  {
    hide *;
    ManifestParts();
    BothFields(Manifest(), Body());
  }

  lemma BothFields(m: bytes, b: nat)
    requires |m| == b + 52 && m[b..b + 16] == ShortStart() && m[b + 16..b + 52] == Element()
    ensures U32(m, b) == START_CHUNK && U32(m, b + 4) == 16 && U32(m, b + 20) == 36
    ensures U32(m, b + 16) == START_CHUNK && U32(m, b + 36) == 56
  {
    hide U32, ShortStart, Element;
    var at: nat := b + 16;
    ShortFields(m, b);
    LongFields(m, at);
  }

  lemma ShortFields(m: bytes, at: nat)
    requires at + 16 <= |m| && m[at..at + 16] == ShortStart()
    ensures U32(m, at) == START_CHUNK && U32(m, at + 4) == 16
  {
    hide U32, Le32, Le16, Element, ShortStart;
    ElementFields();
    PartField32(m, at, ShortStart(), 0, START_CHUNK);
    PartField32(m, at, ShortStart(), 4, 16);
  }

  lemma LongFields(m: bytes, at: nat)
    requires at + 36 <= |m| && m[at..at + 36] == Element()
    ensures U32(m, at) == START_CHUNK && U32(m, at + 4) == 36 && U32(m, at + 20) == 56
  {
    hide U32, Le32, Le16, Element, ShortStart;
    ElementFields();
    PartField32(m, at, Element(), 0, START_CHUNK);
    PartField32(m, at, Element(), 4, 36);
    PartField32(m, at, Element(), 20, 56);
  }

  function ManifestPlace(): Layout {
    Layout(Small(Strings()).(chunkSize := Body() - 8), Body(), Body(), Body() + 52)
  }

  lemma ManifestLaidOut()
    ensures ReadLayout(Manifest()) == Ok(ManifestPlace()) && LaidOut(Manifest(), ManifestPlace())
  {
    hide U32, Manifest, Body, Element, ShortStart, PoolBytes, Strings, Document, ManifestPlace, ReadLayout, PrintedSize, Printable;
    hide Small, LaidOut, PatchPool, DocumentEnd, Ascii;
    var m, pool := Manifest(), Small(Strings());
    ManifestParts();
    ManifestFields();
    StringsAre();
    SmallPrintable(Strings());
    ManifestIs();
    DocumentHeader(PoolBytes(pool), [], ShortStart(), Element(), []);
    PrintedType(pool, m);
    LayoutWithoutMap(m, pool.(chunkSize := PrintedSize(pool)));
    LayoutLaidOut(m);
  }

  lemma ManifestIs()
    ensures Manifest() == Document(PoolBytes(Small(Strings())), [], ShortStart(), Element(), [])
    ensures Body() == 8 + PrintedSize(Small(Strings())) && |PoolBytes(Small(Strings()))| == PrintedSize(Small(Strings()))
    ensures ManifestPlace() == Layout(Small(Strings()).(chunkSize := Body() - 8), Body(), Body(), Body() + 52)
  {
  }

  /** The 16 bytes are passed over, and the application element found. */
  lemma ManifestFound()
    ensures Body() + 52 == |Manifest()|
    ensures FindStart(Manifest(), Body(), Body() + 52, Strings(), APPLICATION) == Ok(Some(Body() + 16))
  {
    hide U32, Manifest, Body, Strings, Ascii;
    var m, b := Manifest(), Body();
    ManifestFields();
    StringsAre();
    PartSize();
    assert !Names(Strings(), U32(m, b + 20), APPLICATION);
    assert FindStart(m, b + 16, b + 52, Strings(), APPLICATION) == Ok(Some(b + 16));
  }

  lemma PartSize()
    ensures |Manifest()| == Body() + 52 && U32(Manifest(), Body() + 20) == 36
  {
    hide *;
    ManifestFields();
  }

  /** The element with one attribute added. */
  lemma PatchedElement(ns: nat, debug: nat, ids: seq<nat>)
    ensures PatchedApplication(Element(), ns, debug, ids).Some?
    ensures |PatchedApplication(Element(), ns, debug, ids).value| == 56
  {
    hide *;
    var e := Element();
    ElementTable();
    ElementFields();
    var t := Table(36, 20, 0, 36);
    TableMeaning(e, t, ns, debug, ids);
    var es := SortedTable(e, t, ns, debug, ids);
    NothingDebuggable(OldEntries(e, t), debug, ids);
    AttributesSize(es, 20);
    PatchedChunk(e, t, es);
    OneTwenty();
    PatchedWith(e, t, ns, debug, ids);
  }

  lemma NothingDebuggable(es: seq<Entry>, debug: nat, ids: seq<nat>)
    requires es == []
    ensures !AnyDebuggable(es, debug, ids)
  {
  }

  lemma OneTwenty()
    ensures Area(1, 20) == 20
  {
  }

  lemma PatchedWith(chunk: bytes, t: Table, ns: nat, debug: nat, ids: seq<nat>)
    requires TableOf(chunk) == Some(t)
    ensures PatchedApplication(chunk, ns, debug, ids) == Some(WithTable(chunk, t, SortedTable(chunk, t, ns, debug, ids)))
  {
    hide TableOf, WithTable, SortedTable;
  }

  /** The plan for the manifest. */
  lemma ManifestPlan() returns (p: Plan)
    ensures PlanOf(Manifest()) == Ok(p) && p.layout == ManifestPlace() && p.at == Body() + 16
    ensures |p.pool| <= 20_000 && |p.ids| <= 59 && |p.before| == 16 && |p.patched| == 56 && p.after == []
    ensures p.strings == Strings()
  {
    hide *;
    var m := Manifest();
    ManifestLaidOut();
    ManifestFound();
    ManifestFields();
    ManifestParts();
    ManifestIs();
    StringsAre();
    PlaceStrings();
    PlanFrom(m, ManifestPlace(), Body() + 16);
    PlaceAt();
    p := PlanFor(m, ManifestPlace(), Body() + 16);
  }

  lemma PlaceStrings()
    ensures ManifestPlace().pool.strings == Strings()
  {
  }

  lemma PlaceAt()
    ensures U32(Manifest(), (Body() + 16) + 4) == 36 && (Body() + 16) + 36 == |Manifest()| && U32(Manifest(), Body() + 16) == START_CHUNK
    ensures StartAt(Manifest(), Body() + 16, Body() + 52)
  {
    hide U32, Manifest, Body;
    ManifestFields();
    PartSize();
  }

  lemma PlanFrom(m: bytes, l: Layout, at: nat)
    requires ReadLayout(m) == Ok(l) && LaidOut(m, l) && l.end <= |m|
    requires FindStart(m, l.body, l.end, l.pool.strings, APPLICATION) == Ok(Some(at))
    ensures l.body <= at && StartAt(m, at, l.end) && PlanOf(m) == PlanAt(m, l, at)
  {
    hide ReadLayout, PlanAt, U32, Ascii, LaidOut;
    hide FindStart;
    StartFound(m, l.body, l.end, l.pool.strings, at);
  }

  lemma StartFound(m: bytes, pos: nat, end: nat, strings: seq<text>, at: nat)
    requires end <= |m| && FindStart(m, pos, end, strings, APPLICATION) == Ok(Some(at))
    ensures pos <= at && StartAt(m, at, end)
  {
    hide U32, Ascii;
  }

  lemma PlanFor(m: bytes, l: Layout, at: nat) returns (p: Plan)
    requires LaidOut(m, l) && l.res == l.body && l.body + 16 == at && StartAt(m, at, l.end) && U32(m, at + 4) == 36 && at + 36 == l.end
    requires l.pool.strings == Strings() && m[at..at + 36] == Element() && l.res <= 20_008 && 8 <= l.res <= l.body <= at <= l.end <= |m|
    ensures PlanAt(m, l, at) == Ok(p) && p.layout == l && p.at == at && p.strings == Strings()
    ensures |p.pool| <= 20_000 && |p.ids| <= 59 && |p.before| == 16 && |p.patched| == 56 && p.after == []
  {
    hide IdsOf, IndexOf, U32, Ascii, PatchedApplication, PoolBytes, Strings, Element, StartAt;
    StringsAre();
    assert WithName(l.pool.strings) == Strings();
    var debug := IndexOf(Strings(), DEBUGGABLE).value;
    var ns := IndexOf(Strings(), ANDROID_URI).value;
    var ids := IdsOf(m, l.res, l.body, debug);
    OnlyDebug(m, l.res, debug);
    PatchedElement(ns, debug, ids);
    p := PlanAt(m, l, at).value;
  }

  lemma OnlyDebug(m: bytes, res: nat, debug: nat)
    requires res <= |m|
    ensures |IdsOf(m, res, res, debug)| == debug + 1
  {
  }

  /** The manifest can be patched, and its patched form cannot. */
  lemma PatchedThenRefused()
    ensures PatchDebuggable(Manifest()).Ok?
    ensures PatchDebuggable(PatchDebuggable(Manifest()).value).Err?
  {
    hide *;
    var m, b := Manifest(), Body();
    var p := ManifestPlan();
    ManifestIs();
    ManifestFields();
    StringsAre();
    PlanIsPlanned(m, p);
    PlannedLocated(m, p);
    OutputParts(p);
    NewAtIs(p);
    NewBodyIs(p);
    OutputMoved(m, p);
    NoneInFrontIs(m, p);
    ShortNamed(m, b, Output(p), NewBody(p), Strings());
    PatchIsIdempotent(m, p);
  }

  lemma NewBodyIs(p: Plan)
    ensures NewBody(p) == 8 + |p.pool| + 8 + 4 * |p.ids|
  {
  }

  /** The 16 bytes take their name from the size of what is behind them. */
  lemma ShortNamed(m: bytes, pos: nat, n: bytes, npos: nat, strings: seq<text>)
    requires pos + 16 <= |m| && npos + 16 + 36 <= |n|
    requires U32(m, pos) == START_CHUNK && U32(m, pos + 4) == 16
    requires U32(n, npos + 20) == 56 && |strings| == 59 && strings[56] == APPLICATION
    ensures !NoEarlier(m, pos, pos + 16, n, npos, strings, APPLICATION)
  {
    hide U32, Ascii;
  }
}
