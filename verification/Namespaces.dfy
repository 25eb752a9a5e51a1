/** The previewer's namespace stack, and the names it prints for the tags of a manifest. */
module Namespaces {
  import opened LittleEndian
  import opened Options
  import opened StringPools
  import opened ManifestLayout

  const ANDROID: text := Ascii("android")
  const COLON: text := Ascii(":")

  datatype Declaration = Declaration(prefix: text, uri: text, written: bool)

  /** Declarations in scope, the innermost last, and the prefixes made up so far. */
  datatype Names = Names(decls: seq<Declaration>, generated: map<text, text>)

  // ----- Prefixes -----

  function Digits(n: nat): (s: text)
    ensures s != []
  {
    if n < 10 then [48 + n] else Digits(n / 10) + [48 + n % 10]
  }

  /** The n-th made-up prefix. */
  function MadeUp(n: nat): text {
    Ascii("ns") + Digits(n)
  }

  /** push: Android's own URI always gets its own prefix, and a URI without one a made-up prefix. */
  function Pushed(names: Names, prefix: text, uri: text): Names {
    if uri == [] then names
    else if prefix == [] && uri == ANDROID_URI then names.(decls := names.decls + [Declaration(ANDROID, uri, false)])
    else if prefix == [] then
      var made := WithMadeUp(names, uri);
      made.(decls := made.decls + [Declaration(made.generated[uri], uri, false)])
    else names.(decls := names.decls + [Declaration(prefix, uri, false)])
  }

  /** A made-up prefix is given once and for all. */
  function WithMadeUp(names: Names, uri: text): (r: Names)
    ensures uri in r.generated && r.decls == names.decls
  {
    if uri in names.generated then names
    else names.(generated := names.generated[uri := MadeUp(|names.generated| + 1)])
  }

  predicate Closes(d: Declaration, prefix: text, uri: text) {
    d.uri == uri && (prefix == [] || d.prefix == prefix)
  }

  /** The declarations without the innermost one that a pop closes. */
  function WithoutLast(decls: seq<Declaration>, prefix: text, uri: text): seq<Declaration> {
    if decls == [] then []
    else
      var last := |decls| - 1;
      if Closes(decls[last], prefix, uri) then decls[..last] else WithoutLast(decls[..last], prefix, uri) + [decls[last]]
  }

  function Popped(names: Names, prefix: text, uri: text): Names {
    names.(decls := WithoutLast(names.decls, prefix, uri))
  }

  /** The prefix of the innermost declaration of a URI. */
  function Declared(decls: seq<Declaration>, uri: text): Option<text> {
    if decls == [] then None
    else
      var last := |decls| - 1;
      if decls[last].uri == uri then Some(decls[last].prefix) else Declared(decls[..last], uri)
  }

  /** prefixFor: the prefix, and the names with it made up if there was none. */
  function PrefixFor(names: Names, uri: text): (text, Names) {
    if uri == [] then ([], names)
    else if uri == ANDROID_URI then (ANDROID, names)
    else
      match Declared(names.decls, uri)
      case Some(prefix) => (prefix, names)
      case None => var made := WithMadeUp(names, uri); (made.generated[uri], made)
  }

  /** The innermost declaration of a URI is the one that no later declaration of it follows. */
  predicate IsInnermost(decls: seq<Declaration>, uri: text, i: nat) {
    i < |decls| && decls[i].uri == uri && forall j :: i < j < |decls| ==> decls[j].uri != uri
  }

  lemma {:induction false} DeclaredIsInnermost(decls: seq<Declaration>, uri: text)
    ensures Declared(decls, uri).None? <==> forall i :: 0 <= i < |decls| ==> decls[i].uri != uri
    ensures forall i :: 0 <= i < |decls| && IsInnermost(decls, uri, i) ==> Declared(decls, uri) == Some(decls[i].prefix)
  {
    if decls != [] {
      var last := |decls| - 1;
      DeclaredIsInnermost(decls[..last], uri);
      forall i | 0 <= i < |decls| && IsInnermost(decls, uri, i) ensures Declared(decls, uri) == Some(decls[i].prefix) {
        if i < last { assert decls[last].uri != uri && IsInnermost(decls[..last], uri, i); }
      }
    }
  }

  /** The innermost declaration that a pop closes. */
  predicate IsClosed(decls: seq<Declaration>, prefix: text, uri: text, i: nat) {
    i < |decls| && Closes(decls[i], prefix, uri) && forall j :: i < j < |decls| ==> !Closes(decls[j], prefix, uri)
  }

  /** A pop takes away that declaration, and no other. */
  lemma {:induction false} PopTakesInnermost(decls: seq<Declaration>, prefix: text, uri: text, i: nat)
    requires IsClosed(decls, prefix, uri, i)
    ensures WithoutLast(decls, prefix, uri) == decls[..i] + decls[i + 1..]
    decreases |decls|
  {
    hide Closes;
    var last := |decls| - 1;
    if i < last {
      PopTakesInnermost(decls[..last], prefix, uri, i);
      assert decls[..last][..i] == decls[..i];
      assert decls[..last][i + 1..] + [decls[last]] == decls[i + 1..];
    }
  }

  /** A pop that closes nothing changes nothing. */
  lemma {:induction false} PopOfNothing(decls: seq<Declaration>, prefix: text, uri: text)
    requires forall i :: 0 <= i < |decls| ==> !Closes(decls[i], prefix, uri)
    ensures WithoutLast(decls, prefix, uri) == decls
    decreases |decls|
  {
    hide Closes;
    if decls != [] {
      PopOfNothing(decls[..|decls| - 1], prefix, uri);
      assert decls == decls[..|decls| - 1] + [decls[|decls| - 1]];
    }
  }

  function Written(names: Names): Names {
    names.(decls := seq(|names.decls|, i requires 0 <= i < |names.decls| => names.decls[i].(written := true)))
  }

  /** How names are made printable: a name and what to use if nothing is left of it. */
  type sanitizer = (text, text) -> text

  function QualifyName(names: Names, uri: text, name: text, sanitize: sanitizer): (text, Names) {
    var (prefix, next) := PrefixFor(names, uri);
    var plain := sanitize(name, Ascii("node"));
    (if prefix == [] then plain else sanitize(prefix, Ascii("ns")) + COLON + plain, next)
  }

  /** No URI has no prefix and Android's has its own; any other has that of its innermost declaration, or else a made-up one, kept from then on. */
  lemma PrefixOfUri(names: Names, uri: text)
    ensures uri == [] ==> PrefixFor(names, uri) == ([], names)
    ensures uri == ANDROID_URI ==> PrefixFor(names, uri) == (Ascii("android"), names)
    ensures uri != [] && uri != ANDROID_URI ==>
              forall i :: 0 <= i < |names.decls| && IsInnermost(names.decls, uri, i) ==>
                PrefixFor(names, uri) == (names.decls[i].prefix, names)
    ensures uri != [] && uri != ANDROID_URI && (forall i :: 0 <= i < |names.decls| ==> names.decls[i].uri != uri) ==>
              var (prefix, next) := PrefixFor(names, uri);
              && prefix == (if uri in names.generated then names.generated[uri] else Ascii("ns") + Digits(|names.generated| + 1))
              && next == Names(names.decls, names.generated[uri := prefix])
  {
    hide Ascii, Digits, IsInnermost;
    AndroidUriIsOne();
    DeclaredIsInnermost(names.decls, uri);
    if uri in names.generated {
      assert names.generated == names.generated[uri := names.generated[uri]];
    }
  }

  /** After a declaration its URI has the prefix declared, Android's own or a made-up one where none is given; the prefixes of other URIs stay. */
  lemma PushDeclares(names: Names, prefix: text, uri: text, other: text)
    ensures uri == [] ==> Pushed(names, prefix, uri) == names
    ensures uri != [] ==> Pushed(names, prefix, uri).decls[..|names.decls|] == names.decls
                          && |Pushed(names, prefix, uri).decls| == |names.decls| + 1
    ensures uri != [] && prefix != [] && uri != ANDROID_URI ==> PrefixFor(Pushed(names, prefix, uri), uri).0 == prefix
    ensures uri != [] && prefix == [] && uri != ANDROID_URI ==>
              PrefixFor(Pushed(names, prefix, uri), uri).0
              == (if uri in names.generated then names.generated[uri] else Ascii("ns") + Digits(|names.generated| + 1))
    ensures other != uri && Declared(names.decls, other).Some? ==> PrefixFor(Pushed(names, prefix, uri), other).0 == PrefixFor(names, other).0
  {
    hide Ascii, Digits;
  }

  lemma AndroidUriIsOne()
    ensures ANDROID_URI != []
  {
    assert |ANDROID_URI| == |Ascii("http://schemas.android.com/apk/res/android")|;
  }

  /** A printed name: alone for no URI, behind Android's prefix for Android's, and otherwise behind the innermost prefix declared for the URI. */
  lemma QualifiedName(names: Names, uri: text, name: text, i: nat, sanitize: sanitizer)
    ensures QualifyName(names, [], name, sanitize).0 == sanitize(name, Ascii("node"))
    ensures QualifyName(names, ANDROID_URI, name, sanitize).0
         == sanitize(Ascii("android"), Ascii("ns")) + Ascii(":") + sanitize(name, Ascii("node"))
    ensures IsInnermost(names.decls, uri, i) && uri != [] && uri != ANDROID_URI ==>
              QualifyName(names, uri, name, sanitize).0
              == (if names.decls[i].prefix == [] then [] else sanitize(names.decls[i].prefix, Ascii("ns")) + Ascii(":"))
                 + sanitize(name, Ascii("node"))
  {
    hide Ascii, PrefixFor;
    assert IsInnermost(names.decls, uri, i) ==> i < |names.decls|;
    PrefixOfUri(names, []);
    PrefixOfUri(names, ANDROID_URI);
    PrefixOfUri(names, uri);
    AndroidHasAName();
  }

  // ----- The stack as it is changed in place -----

  class NamespaceStack {
    var decls: seq<Declaration>
    var generated: map<text, text>

    function Abs(): Names
      reads this
    {
      Names(decls, generated)
    }

    constructor ()
      ensures Abs() == Names([], map[])
    {
      decls, generated := [], map[];
    }

    method Push(prefix_: text, uri: text)
      modifies this
      ensures Abs() == Pushed(old(Abs()), prefix_, uri)
    {
      if uri == [] {
        return;
      }
      var prefix := prefix_;
      if uri == ANDROID_URI && prefix == [] {
        prefix := ANDROID;
        AndroidHasAName();
      }
      if prefix == [] {
        if uri in generated {
          prefix := generated[uri];
        } else {
          prefix := MadeUp(|generated| + 1);
          generated := generated[uri := prefix];
        }
      }
      decls := decls + [Declaration(prefix, uri, false)];
    }

    method Pop(prefix: text, uri: text)
      modifies this
      ensures Abs() == Popped(old(Abs()), prefix, uri)
    {
      hide WithoutLast;
      assert decls[..|decls|] == decls && decls[|decls|..] == [];
      assert WithoutLast(decls, prefix, uri) + [] == WithoutLast(decls, prefix, uri);
      for i := |decls| downto 0
        invariant decls == old(decls) && generated == old(generated)
        invariant WithoutLast(decls, prefix, uri) == WithoutLast(decls[..i], prefix, uri) + decls[i..]
      {
        WithoutLastStep(decls, i, prefix, uri);
        if decls[i].uri == uri && (prefix == [] || decls[i].prefix == prefix) {
          decls := decls[..i] + decls[i + 1..];
          return;
        }
      }
      WithoutNothing(prefix, uri);
    }

    method Prefix(uri: text) returns (prefix: text)
      modifies this
      ensures (prefix, Abs()) == PrefixFor(old(Abs()), uri)
    {
      if uri == [] {
        return [];
      }
      if uri == ANDROID_URI {
        return ANDROID;
      }
      assert decls[..|decls|] == decls;
      for i := |decls| downto 0
        invariant decls == old(decls) && generated == old(generated)
        invariant Declared(decls, uri) == Declared(decls[..i], uri)
      {
        assert decls[..i + 1][..i] == decls[..i];
        if decls[i].uri == uri {
          return decls[i].prefix;
        }
      }
      if uri in generated {
        return generated[uri];
      }
      prefix := MadeUp(|generated| + 1);
      generated := generated[uri := prefix];
    }

    method MarkDeclarationsWritten()
      modifies this
      ensures Abs() == Written(old(Abs()))
    {
      for i := 0 to |decls|
        invariant |decls| == |old(decls)| && generated == old(generated)
        invariant forall k :: 0 <= k < i ==> decls[k] == old(decls)[k].(written := true)
        invariant forall k :: i <= k < |decls| ==> decls[k] == old(decls)[k]
      {
        decls := decls[i := decls[i].(written := true)];
      }
      assert decls == Written(old(Abs())).decls;
    }

    method Qualify(uri: text, name: text, sanitize: sanitizer) returns (q: text)
      modifies this
      ensures (q, Abs()) == QualifyName(old(Abs()), uri, name, sanitize)
    {
      var prefix := Prefix(uri);
      var plain := sanitize(name, Ascii("node"));
      if prefix == [] {
        return plain;
      }
      return sanitize(prefix, Ascii("ns")) + COLON + plain;
    }
  }

  /** One declaration further inside. */
  lemma WithoutLastStep(decls: seq<Declaration>, i: nat, prefix: text, uri: text)
    requires i < |decls|
    ensures WithoutLast(decls[..i + 1], prefix, uri) + decls[i + 1..]
         == if Closes(decls[i], prefix, uri) then decls[..i] + decls[i + 1..] else WithoutLast(decls[..i], prefix, uri) + decls[i..]
  {
    hide Closes;
    assert decls[..i + 1][..i] == decls[..i] && decls[..i + 1][i] == decls[i];
    assert [decls[i]] + decls[i + 1..] == decls[i..];
  }

  lemma WithoutNothing(prefix: text, uri: text)
    ensures WithoutLast([], prefix, uri) == []
  {
  }

  lemma AndroidHasAName()
    ensures ANDROID != []
  {
    assert |ANDROID| == 7;
  }

  // ----- The chunks of a manifest and the tags printed for them -----

  datatype Chunk =
    | StartNamespace(prefix: text, uri: text)
    | EndNamespace(prefix: text, uri: text)
    | StartElement(uri: text, name: text, attributes: seq<(text, text)>)
    | EndElement(uri: text, name: text)
    | Other

  datatype Tag = Open(name: text) | Close(name: text)

  /** The names after the attributes of an element have been qualified. */
  function Attributed(names: Names, attributes: seq<(text, text)>): Names
    decreases |attributes|
  {
    if attributes == [] then names
    else Attributed(PrefixFor(names, attributes[0].0).1, attributes[1..])
  }

  /** One chunk: the tag printed for it, if any, and the names afterwards. */
  function Printed(names: Names, chunk: Chunk, sanitize: sanitizer): (seq<Tag>, Names) {
    match chunk
    case StartNamespace(prefix, uri) => ([], Pushed(names, prefix, uri))
    case EndNamespace(prefix, uri) => ([], Popped(names, prefix, uri))
    case StartElement(uri, name, attributes) =>
      var (q, next) := QualifyName(names, uri, name, sanitize);
      ([Open(q)], Attributed(Written(next), attributes))
    case EndElement(uri, name) =>
      var (q, next) := QualifyName(names, uri, name, sanitize);
      ([Close(q)], next)
    case Other => ([], names)
  }

  function PrintedAll(names: Names, chunks: seq<Chunk>, sanitize: sanitizer): (seq<Tag>, Names)
    decreases |chunks|
  {
    if chunks == [] then ([], names)
    else
      var (tags, next) := Printed(names, chunks[0], sanitize);
      var (rest, last) := PrintedAll(next, chunks[1..], sanitize);
      (tags + rest, last)
  }

  /** The chunk loop of DecodeManifest, as far as tags are concerned. */
  method PrintTags(chunks: seq<Chunk>, sanitize: sanitizer) returns (tags: seq<Tag>)
    ensures tags == PrintedAll(Names([], map[]), chunks, sanitize).0
  {
    hide Printed, PrintedAll;
    var ns := new NamespaceStack();
    tags := [];
    ghost var all := PrintedAll(ns.Abs(), chunks, sanitize).0;
    assert chunks[0..] == chunks;
    for i := 0 to |chunks|
      invariant all == tags + PrintedAll(ns.Abs(), chunks[i..], sanitize).0
    {
      assert chunks[i..] == [chunks[i]] + chunks[i + 1..];
      PrintedFirst(ns.Abs(), chunks[i], chunks[i + 1..], sanitize);
      var printed := PrintChunk(ns, chunks[i], sanitize);
      tags := tags + printed;
    }
    PrintedNothing(ns.Abs(), sanitize);
  }

  lemma PrintedFirst(names: Names, chunk: Chunk, rest: seq<Chunk>, sanitize: sanitizer)
    ensures var (tags, next) := Printed(names, chunk, sanitize);
            PrintedAll(names, [chunk] + rest, sanitize)
            == (tags + PrintedAll(next, rest, sanitize).0, PrintedAll(next, rest, sanitize).1)
  {
    hide Printed;
    assert ([chunk] + rest)[1..] == rest;
  }

  lemma PrintedNothing(names: Names, sanitize: sanitizer)
    ensures PrintedAll(names, [], sanitize) == ([], names)
  {
  }

  method PrintChunk(ns: NamespaceStack, chunk: Chunk, sanitize: sanitizer) returns (tags: seq<Tag>)
    modifies ns
    ensures (tags, ns.Abs()) == Printed(old(ns.Abs()), chunk, sanitize)
  {
    match chunk
    case StartNamespace(prefix, uri) =>
      ns.Push(prefix, uri);
      return [];
    case EndNamespace(prefix, uri) =>
      ns.Pop(prefix, uri);
      return [];
    case StartElement(uri, name, attributes) =>
      var q := ns.Qualify(uri, name, sanitize);
      ns.MarkDeclarationsWritten();
      QualifyAttributes(ns, attributes, sanitize);
      return [Open(q)];
    case EndElement(uri, name) =>
      var q := ns.Qualify(uri, name, sanitize);
      return [Close(q)];
    case Other =>
      return [];
  }

  method QualifyAttributes(ns: NamespaceStack, attributes: seq<(text, text)>, sanitize: sanitizer)
    modifies ns
    ensures ns.Abs() == Attributed(old(ns.Abs()), attributes)
  {
    assert attributes[0..] == attributes;
    for i := 0 to |attributes|
      invariant Attributed(old(ns.Abs()), attributes) == Attributed(ns.Abs(), attributes[i..])
    {
      assert attributes[i..][1..] == attributes[i + 1..] && attributes[i..][0] == attributes[i];
      var q := ns.Qualify(attributes[i].0, attributes[i].1, sanitize);
    }
  }

  // ----- Well-nested streams -----

  /** A manifest's structure: elements and namespace scopes around each other. */
  datatype Node =
    | Element(uri: text, name: text, attributes: seq<(text, text)>, inner: seq<Node>)
    | Scope(prefix: text, uri: text, inner: seq<Node>)
    | Leaf

  function ChunksOf(nodes: seq<Node>): seq<Chunk> {
    if nodes == [] then [] else ChunksOfNode(nodes[0]) + ChunksOf(nodes[1..])
  }

  function ChunksOfNode(node: Node): seq<Chunk> {
    match node
    case Element(uri, name, attributes, inner) =>
      [StartElement(uri, name, attributes)] + ChunksOf(inner) + [EndElement(uri, name)]
    case Scope(prefix, uri, inner) => [StartNamespace(prefix, uri)] + ChunksOf(inner) + [EndNamespace(prefix, uri)]
    case Leaf => [Other]
  }

  /** Tags in which every closing one matches the last open one: the open ones left at the end. */
  function OpenAfter(open: seq<text>, tags: seq<Tag>): Option<seq<text>>
    decreases |tags|
  {
    if tags == [] then Some(open)
    else
      match tags[0]
      case Open(name) => OpenAfter(open + [name], tags[1..])
      case Close(name) =>
        if open == [] || open[|open| - 1] != name then None else OpenAfter(open[..|open| - 1], tags[1..])
  }

  /** Declarations that are the same, written or not. */
  predicate SameDeclarations(a: seq<Declaration>, b: seq<Declaration>) {
    |a| == |b| && forall i :: 0 <= i < |a| ==> a[i].prefix == b[i].prefix && a[i].uri == b[i].uri
  }

  /** Later names: the same declarations, and no made-up prefix given away again. */
  predicate Grown(a: Names, b: Names) {
    SameDeclarations(a.decls, b.decls) && KeepsMadeUp(a, b)
  }

  predicate KeepsMadeUp(a: Names, b: Names) {
    forall uri :: uri in a.generated ==> uri in b.generated && b.generated[uri] == a.generated[uri]
  }

  /** Every declaration has a URI. */
  predicate AllNamed(names: Names) {
    forall i :: 0 <= i < |names.decls| ==> names.decls[i].uri != []
  }

  lemma {:induction false} DeclaredSame(a: seq<Declaration>, b: seq<Declaration>, uri: text)
    requires SameDeclarations(a, b)
    ensures Declared(a, uri) == Declared(b, uri)
  {
    if a != [] { DeclaredSame(a[..|a| - 1], b[..|b| - 1], uri); }
  }

  lemma PrefixGrows(names: Names, uri: text)
    ensures Grown(names, PrefixFor(names, uri).1)
  {
    hide Digits, Ascii;
  }

  /** A URI that was asked for once keeps its prefix. */
  lemma PrefixIsStable(names: Names, later: Names, uri: text)
    requires Grown(PrefixFor(names, uri).1, later)
    ensures PrefixFor(later, uri).0 == PrefixFor(names, uri).0
  {
    hide Digits, Ascii, MadeUp;
    DeclaredSame(names.decls, later.decls, uri);
  }

  lemma {:induction false} AttributedGrows(names: Names, attributes: seq<(text, text)>)
    ensures Grown(names, Attributed(names, attributes))
    decreases |attributes|
  {
    hide PrefixFor;
    if attributes != [] {
      PrefixGrows(names, attributes[0].0);
      AttributedGrows(PrefixFor(names, attributes[0].0).1, attributes[1..]);
      GrownTwice(names, PrefixFor(names, attributes[0].0).1, Attributed(names, attributes));
    }
  }

  lemma GrownTwice(a: Names, b: Names, c: Names)
    requires Grown(a, b) && Grown(b, c)
    ensures Grown(a, c)
  {
  }

  lemma GrownNamed(a: Names, b: Names)
    requires Grown(a, b) && AllNamed(a)
    ensures AllNamed(b)
  {
  }

  /** A pop after a push of the same namespace, with nothing left in between, restores the declarations. */
  lemma PopUndoesPush(names: Names, prefix: text, uri: text, later: Names)
    requires AllNamed(names) && Grown(Pushed(names, prefix, uri), later)
    ensures Grown(names, Popped(later, prefix, uri))
    ensures AllNamed(Popped(later, prefix, uri))
  {
    hide Digits, Ascii, MadeUp;
    if uri == [] {
      NothingToPop(later.decls, prefix);
    } else {
      var pushed := Pushed(names, prefix, uri);
      var last := |later.decls| - 1;
      assert |pushed.decls| == |names.decls| + 1 == |later.decls|;
      assert pushed.decls[last].uri == uri && (prefix == [] || pushed.decls[last].prefix == prefix);
      assert Closes(later.decls[last], prefix, uri);
      assert pushed.decls[..last] == names.decls;
    }
  }

  lemma {:induction false} NothingToPop(decls: seq<Declaration>, prefix: text)
    requires forall i :: 0 <= i < |decls| ==> decls[i].uri != []
    ensures WithoutLast(decls, prefix, []) == decls
  {
    if decls != [] {
      NothingToPop(decls[..|decls| - 1], prefix);
      assert decls[..|decls| - 1] + [decls[|decls| - 1]] == decls;
    }
  }

  lemma {:induction false} PrintedInParts(names: Names, a: seq<Chunk>, b: seq<Chunk>, sanitize: sanitizer)
    ensures var (first, mid) := PrintedAll(names, a, sanitize);
            var (second, last) := PrintedAll(mid, b, sanitize);
            PrintedAll(names, a + b, sanitize) == (first + second, last)
    decreases |a|
  {
    hide Printed;
    if a == [] {
      assert a + b == b;
      assert [] + PrintedAll(names, b, sanitize).0 == PrintedAll(names, b, sanitize).0;
    } else {
      assert (a + b)[1..] == a[1..] + b;
      var (tags, next) := Printed(names, a[0], sanitize);
      PrintedInParts(next, a[1..], b, sanitize);
      var (first, mid) := PrintedAll(next, a[1..], sanitize);
      assert tags + (first + PrintedAll(mid, b, sanitize).0) == (tags + first) + PrintedAll(mid, b, sanitize).0;
    }
  }

  lemma PrintedOne(names: Names, chunk: Chunk, sanitize: sanitizer)
    ensures PrintedAll(names, [chunk], sanitize) == Printed(names, chunk, sanitize)
  {
    hide Printed;
    assert [chunk][1..] == [];
    var (tags, next) := Printed(names, chunk, sanitize);
    assert tags + [] == tags;
  }

  lemma {:induction false} OpenInParts(open: seq<text>, a: seq<Tag>, b: seq<Tag>)
    requires OpenAfter(open, a).Some?
    ensures OpenAfter(open, a + b) == OpenAfter(OpenAfter(open, a).value, b)
    decreases |a|
  {
    if a == [] {
      assert a + b == b;
    } else {
      assert (a + b)[1..] == a[1..] + b;
      match a[0]
      case Open(name) => OpenInParts(open + [name], a[1..], b);
      case Close(name) => OpenInParts(open[..|open| - 1], a[1..], b);
    }
  }

  /** What printing a well-nested part does: the tags match each other, and the declarations are as before. */
  predicate PrintsWell(names: Names, chunks: seq<Chunk>, sanitize: sanitizer, open: seq<text>) {
    var (tags, next) := PrintedAll(names, chunks, sanitize);
    OpenAfter(open, tags) == Some(open) && Grown(names, next) && AllNamed(next)
  }

  lemma Around(names: Names, first: Chunk, inner: seq<Chunk>, last: Chunk, sanitize: sanitizer)
    ensures var (open, mid) := Printed(names, first, sanitize);
            var (tags, late) := PrintedAll(mid, inner, sanitize);
            var (close, end) := Printed(late, last, sanitize);
            PrintedAll(names, [first] + inner + [last], sanitize) == (open + tags + close, end)
  {
    hide Printed, PrintedAll;
    PrintedOne(names, first, sanitize);
    PrintedInParts(names, [first], inner, sanitize);
    PrintedInParts(names, [first] + inner, [last], sanitize);
    PrintedOne(PrintedAll(names, [first] + inner, sanitize).1, last, sanitize);
  }

  lemma ElementPrintsWell(names: Names, uri: text, name: text, attributes: seq<(text, text)>, inner: seq<Chunk>, sanitize: sanitizer, open: seq<text>)
    requires AllNamed(names)
    requires var mid := Printed(names, StartElement(uri, name, attributes), sanitize).1;
             forall o :: AllNamed(mid) ==> PrintsWell(mid, inner, sanitize, o)
    ensures PrintsWell(names, [StartElement(uri, name, attributes)] + inner + [EndElement(uri, name)], sanitize, open)
  {
    hide PrintedAll, OpenAfter, Attributed, AllNamed, Grown, PrefixFor;
    var (q, asked) := QualifyName(names, uri, name, sanitize);
    var mid := Attributed(Written(asked), attributes);
    PrefixGrows(names, uri);
    WrittenGrows(asked);
    AttributedGrows(Written(asked), attributes);
    GrownTwice(asked, Written(asked), mid);
    GrownTwice(names, asked, mid);
    GrownNamed(names, mid);
    var (tags, late) := PrintedAll(mid, inner, sanitize);
    assert PrintsWell(mid, inner, sanitize, open + [q]);
    GrownTwice(asked, mid, late);
    GrownTwice(names, mid, late);
    PrefixIsStable(names, late, uri);
    var (q2, end) := QualifyName(late, uri, name, sanitize);
    assert q2 == q;
    PrefixGrows(late, uri);
    GrownTwice(names, late, end);
    GrownNamed(late, end);
    Around(names, StartElement(uri, name, attributes), inner, EndElement(uri, name), sanitize);
    Bracketed(open, q, tags);
  }

  lemma WrittenGrows(names: Names)
    ensures Grown(names, Written(names))
  {
  }

  lemma Bracketed(open: seq<text>, q: text, tags: seq<Tag>)
    requires OpenAfter(open + [q], tags) == Some(open + [q])
    ensures OpenAfter(open, [Open(q)] + tags + [Close(q)]) == Some(open)
  {
    var first: seq<Tag> := [Open(q)];
    assert first[1..] == [];
    OpenInParts(open, first, tags);
    OpenInParts(open, first + tags, [Close(q)]);
    assert (open + [q])[..|open|] == open;
    assert [Close(q)][1..] == [];
  }

  lemma ScopePrintsWell(names: Names, prefix: text, uri: text, inner: seq<Chunk>, sanitize: sanitizer, open: seq<text>)
    requires AllNamed(names)
    requires forall o :: AllNamed(Pushed(names, prefix, uri)) ==> PrintsWell(Pushed(names, prefix, uri), inner, sanitize, o)
    ensures PrintsWell(names, [StartNamespace(prefix, uri)] + inner + [EndNamespace(prefix, uri)], sanitize, open)
  {
    hide PrintedAll, OpenAfter, Pushed, Popped, AllNamed, Grown;
    PushedNamed(names, prefix, uri);
    var mid := Pushed(names, prefix, uri);
    var (tags, late) := PrintedAll(mid, inner, sanitize);
    assert PrintsWell(mid, inner, sanitize, open);
    PopUndoesPush(names, prefix, uri, late);
    Around(names, StartNamespace(prefix, uri), inner, EndNamespace(prefix, uri), sanitize);
    assert [] + tags + [] == tags;
  }

  lemma PushedNamed(names: Names, prefix: text, uri: text)
    requires AllNamed(names)
    ensures AllNamed(Pushed(names, prefix, uri))
  {
    hide Digits, Ascii, MadeUp;
  }

  lemma {:induction false} NodePrintsWell(names: Names, node: Node, sanitize: sanitizer, open: seq<text>)
    requires AllNamed(names)
    ensures PrintsWell(names, ChunksOfNode(node), sanitize, open)
    decreases node, 0
  {
    hide PrintsWell, AllNamed, Printed, Pushed;
    match node
    case Element(uri, name, attributes, inner) =>
      var mid := Printed(names, StartElement(uri, name, attributes), sanitize).1;
      forall o | AllNamed(mid) ensures PrintsWell(mid, ChunksOf(inner), sanitize, o) {
        NodesPrintWell(mid, inner, sanitize, o);
      }
      ElementPrintsWell(names, uri, name, attributes, ChunksOf(inner), sanitize, open);
    case Scope(prefix, uri, inner) =>
      forall o | AllNamed(Pushed(names, prefix, uri)) ensures PrintsWell(Pushed(names, prefix, uri), ChunksOf(inner), sanitize, o) {
        NodesPrintWell(Pushed(names, prefix, uri), inner, sanitize, o);
      }
      ScopePrintsWell(names, prefix, uri, ChunksOf(inner), sanitize, open);
    case Leaf => OtherPrintsWell(names, sanitize, open);
  }

  lemma OtherPrintsWell(names: Names, sanitize: sanitizer, open: seq<text>)
    requires AllNamed(names)
    ensures PrintsWell(names, [Other], sanitize, open)
  {
    PrintedOne(names, Other, sanitize);
  }

  /**
   For every well-nested stream of namespace and element chunks, whatever its names are made printable by,
   the tags printed match: each closing tag has the name of the opening one. And the declarations are as before.
   */
  lemma {:induction false} NodesPrintWell(names: Names, nodes: seq<Node>, sanitize: sanitizer, open: seq<text>)
    requires AllNamed(names)
    ensures PrintsWell(names, ChunksOf(nodes), sanitize, open)
    decreases nodes
  {
    hide PrintedAll, OpenAfter, AllNamed, Grown, ChunksOfNode;
    if nodes == [] {
      NothingPrintsWell(names, sanitize, open);
    } else {
      NodePrintsWell(names, nodes[0], sanitize, open);
      var (tags, mid) := PrintedAll(names, ChunksOfNode(nodes[0]), sanitize);
      NodesPrintWell(mid, nodes[1..], sanitize, open);
      var (rest, end) := PrintedAll(mid, ChunksOf(nodes[1..]), sanitize);
      PrintedInParts(names, ChunksOfNode(nodes[0]), ChunksOf(nodes[1..]), sanitize);
      OpenInParts(open, tags, rest);
      GrownTwice(names, mid, end);
    }
  }

  lemma NothingPrintsWell(names: Names, sanitize: sanitizer, open: seq<text>)
    requires AllNamed(names)
    ensures PrintsWell(names, [], sanitize, open)
  {
  }

  /** So the tags of a whole manifest match, from nothing open to nothing open. */
  lemma TagsMatch(nodes: seq<Node>, sanitize: sanitizer)
    ensures OpenAfter([], PrintedAll(Names([], map[]), ChunksOf(nodes), sanitize).0) == Some([])
  {
    hide OpenAfter, PrintedAll;
    NodesPrintWell(Names([], map[]), nodes, sanitize, []);
  }

  // ----- Made-up prefixes are different -----

  function Number(s: text): nat {
    if s == [] then 0 else 10 * Number(s[..|s| - 1]) + (if s[|s| - 1] >= 48 then s[|s| - 1] - 48 else 0)
  }

  lemma {:induction false} NumberOfDigits(n: nat)
    ensures Number(Digits(n)) == n
  {
    if n >= 10 {
      NumberOfDigits(n / 10);
      assert Digits(n)[..|Digits(n)| - 1] == Digits(n / 10);
    }
  }

  /** The made-up prefixes are the first so many, each given to one URI. */
  predicate MadeUpOnce(names: Names) {
    && (forall u :: u in names.generated ==> exists n: nat :: 1 <= n <= |names.generated| && names.generated[u] == MadeUp(n))
    && (forall u, v :: u in names.generated && v in names.generated && names.generated[u] == names.generated[v] ==> u == v)
  }

  lemma MadeUpDiffers(m: nat, n: nat)
    requires MadeUp(m) == MadeUp(n)
    ensures m == n
  {
    NumberOfDigits(m);
    NumberOfDigits(n);
    assert MadeUp(m)[2..] == Digits(m) && MadeUp(n)[2..] == Digits(n);
  }

  lemma WithMadeUpOnce(names: Names, uri: text)
    requires MadeUpOnce(names)
    ensures MadeUpOnce(WithMadeUp(names, uri))
  {
    hide MadeUp;
    if uri !in names.generated {
      var next := WithMadeUp(names, uri);
      var k := |names.generated| + 1;
      assert |next.generated| == k;
      forall u | u in names.generated ensures names.generated[u] != MadeUp(k) {
        var n: nat :| 1 <= n <= |names.generated| && names.generated[u] == MadeUp(n);
        if MadeUp(n) == MadeUp(k) { MadeUpDiffers(n, k); }
      }
    }
  }

  lemma {:induction false} AttributedOnce(names: Names, attributes: seq<(text, text)>)
    requires MadeUpOnce(names)
    ensures MadeUpOnce(Attributed(names, attributes))
    decreases |attributes|
  {
    hide MadeUpOnce;
    if attributes != [] {
      PrefixOnce(names, attributes[0].0);
      AttributedOnce(PrefixFor(names, attributes[0].0).1, attributes[1..]);
    }
  }

  lemma PrefixOnce(names: Names, uri: text)
    requires MadeUpOnce(names)
    ensures MadeUpOnce(PrefixFor(names, uri).1)
  {
    hide MadeUpOnce;
    WithMadeUpOnce(names, uri);
  }

  lemma SameMadeUp(a: Names, b: Names)
    requires MadeUpOnce(a) && a.generated == b.generated
    ensures MadeUpOnce(b)
  {
  }

  /** No chunk makes two URIs share a made-up prefix. */
  lemma PrintedOnce(names: Names, chunk: Chunk, sanitize: sanitizer)
    requires MadeUpOnce(names)
    ensures MadeUpOnce(Printed(names, chunk, sanitize).1)
  {
    hide MadeUpOnce, Ascii;
    var next := Printed(names, chunk, sanitize).1;
    match chunk
    case StartNamespace(prefix, uri) =>
      WithMadeUpOnce(names, uri);
      SameMadeUp(if prefix == [] && uri != [] && uri != ANDROID_URI then WithMadeUp(names, uri) else names, next);
    case EndNamespace(prefix, uri) => SameMadeUp(names, next);
    case StartElement(uri, name, attributes) =>
      PrefixOnce(names, uri);
      var asked := QualifyName(names, uri, name, sanitize).1;
      SameMadeUp(asked, Written(asked));
      AttributedOnce(Written(asked), attributes);
    case EndElement(uri, name) => PrefixOnce(names, uri);
    case Other =>
  }

  /** In every run two URIs never share a made-up prefix. */
  lemma {:induction false} MadeUpStaysOnce(names: Names, chunks: seq<Chunk>, sanitize: sanitizer)
    requires MadeUpOnce(names)
    ensures MadeUpOnce(PrintedAll(names, chunks, sanitize).1)
    decreases |chunks|
  {
    hide MadeUpOnce, Printed;
    if chunks != [] {
      PrintedOnce(names, chunks[0], sanitize);
      MadeUpStaysOnce(Printed(names, chunks[0], sanitize).1, chunks[1..], sanitize);
    }
  }
}
