/** The word graph of the front end: the node objects fetched from `/data` and
    the typed links `createLinks` derives from their comma-separated relation
    fields. JavaScript compares nodes by object identity, so a link names its
    endpoints by their index in the node array. */
module WordGraph {
  import opened Wrappers
  import JsString
  import Sheet

  /** One node object of the fetched JSON, with the twelve keys of a record. */
  datatype Node = Node(
    kok: string,
    id: string,
    enWord: string,
    azWordType: string,
    enWordType: string,
    azerbaijaniSynonyms: string,
    englishSynonyms: string,
    azerbaijaniAntonyms: string,
    englishAntonyms: string,
    azerbaijaniVariants: string,
    englishVariants: string,
    azerbaijaniSentences: string)
  {
    /** `node[name]`: the property of that name, `None` for `undefined`. */
    function Property(name: string): Option<string> {
      if name == "kok" then Some(kok)
      else if name == "id" then Some(id)
      else if name == "en_word" then Some(enWord)
      else if name == "az_word_type" then Some(azWordType)
      else if name == "en_word_type" then Some(enWordType)
      else if name == "azerbaijani_synonyms" then Some(azerbaijaniSynonyms)
      else if name == "english_synonyms" then Some(englishSynonyms)
      else if name == "azerbaijani_antonyms" then Some(azerbaijaniAntonyms)
      else if name == "english_antonyms" then Some(englishAntonyms)
      else if name == "azerbaijani_variants" then Some(azerbaijaniVariants)
      else if name == "english_variants" then Some(englishVariants)
      else if name == "azerbaijani_sentences" then Some(azerbaijaniSentences)
      else None
    }
  }

  /** The node object a record of the `/data` reply parses to. */
  function FromRecord(r: Sheet.Record): (n: Node)
    requires Sheet.OutputKeys <= r.Keys
    ensures forall name :: name in Sheet.OutputKeys ==> n.Property(name) == Some(r[name])
  {
    Node(r["kok"], r["id"], r["en_word"], r["az_word_type"], r["en_word_type"],
         r["azerbaijani_synonyms"], r["english_synonyms"], r["azerbaijani_antonyms"],
         r["english_antonyms"], r["azerbaijani_variants"], r["english_variants"],
         r["azerbaijani_sentences"])
  }

  /** The node object the front end gets for a sheet row: each property
      holds the cell of its own column, "" where the row has none. */
  lemma NodeOfRow(row: Sheet.Row)
    ensures FromRecord(Sheet.NodeRecord(row)) == Node(
      Sheet.Get(row, "kök"), Sheet.Get(row, "söz"), Sheet.Get(row, "word"),
      Sheet.Get(row, "növ"), Sheet.Get(row, "type"), Sheet.Get(row, "sinonimlər"),
      Sheet.Get(row, "synonyms"), Sheet.Get(row, "antonimlər"), Sheet.Get(row, "antonyms"),
      Sheet.Get(row, "variantlar"), Sheet.Get(row, "variants"), Sheet.Get(row, "cümlələr"))
  {
    Sheet.SourceColumnKeys();
  }

  datatype LinkType = Synonym | Antonym | Variant | Root

  /** A link object `{source, target, type}`, endpoints as node indices. */
  datatype Link = Link(source: nat, target: nat, kind: LinkType)

  /** The field of a node whose pieces give links of a type. */
  function FieldOf(n: Node, kind: LinkType): string {
    match kind
    case Synonym => n.azerbaijaniSynonyms
    case Antonym => n.azerbaijaniAntonyms
    case Variant => n.azerbaijaniVariants
    case Root => n.kok
  }

  /** Position of a type in the order `createLinks` visits the fields. */
  function Rank(kind: LinkType): nat {
    match kind
    case Synonym => 0
    case Antonym => 1
    case Variant => 2
    case Root => 3
  }

  /** `nodes.find(d => d.id === key)`: the least index holding that id. */
  function FindId(nodes: seq<Node>, key: string): (r: Option<nat>)
    ensures r.Some? ==> r.value < |nodes| && nodes[r.value].id == key
    ensures r.Some? ==> forall k :: 0 <= k < r.value ==> nodes[k].id != key
    ensures r.None? ==> forall k :: 0 <= k < |nodes| ==> nodes[k].id != key
  {
    if nodes == [] then None
    else if nodes[0].id == key then Some(0)
    else match FindId(nodes[1..], key)
      case None => None
      case Some(j) => Some(j + 1)
  }

  /** The link one comma piece adds: to the first node whose id is the trimmed piece. */
  function PieceLink(nodes: seq<Node>, source: nat, kind: LinkType, piece: string): seq<Link> {
    match FindId(nodes, JsString.Trim(piece))
    case Some(j) => [Link(source, j, kind)]
    case None => []
  }

  /** The links a sequence of pieces adds, in piece order. */
  function PieceLinks(nodes: seq<Node>, source: nat, kind: LinkType, pieces: seq<string>): (r: seq<Link>)
    ensures |r| <= |pieces|
    decreases |pieces|
  {
    if pieces == [] then []
    else PieceLinks(nodes, source, kind, pieces[..|pieces| - 1]) + PieceLink(nodes, source, kind, pieces[|pieces| - 1])
  }

  /** The links one field of node `source` adds; an empty field (falsy) adds none. */
  function FieldLinks(nodes: seq<Node>, source: nat, kind: LinkType): (r: seq<Link>)
    requires source < |nodes|
    ensures |r| <= FieldPieces(nodes[source], kind)
  {
    var field := FieldOf(nodes[source], kind);
    JsString.SplitCount(field, ',');
    if field == "" then [] else PieceLinks(nodes, source, kind, JsString.Split(field, ','))
  }

  /** The links of one node: synonyms, antonyms, variants, then roots. */
  function NodeLinks(nodes: seq<Node>, source: nat): (r: seq<Link>)
    requires source < |nodes|
    ensures |r| <= NodePieces(nodes[source])
  {
    FieldLinks(nodes, source, Synonym) + FieldLinks(nodes, source, Antonym)
    + FieldLinks(nodes, source, Variant) + FieldLinks(nodes, source, Root)
  }

  /** The links of one node per entry, in node order. */
  function NodeChunks(nodes: seq<Node>): (r: seq<seq<Link>>)
    ensures |r| == |nodes|
    ensures forall i :: 0 <= i < |nodes| ==> r[i] == NodeLinks(nodes, i)
  {
    seq(|nodes|, i requires 0 <= i < |nodes| => NodeLinks(nodes, i))
  }

  /** The chunks one after the other: what a shared array holds after each
      chunk has been pushed onto it in turn. */
  function Flatten(chunks: seq<seq<Link>>): seq<Link>
    decreases |chunks|
  {
    if chunks == [] then [] else Flatten(chunks[..|chunks| - 1]) + chunks[|chunks| - 1]
  }

  /** Everything `createLinks(nodes)` returns. */
  function Links(nodes: seq<Node>): (r: seq<Link>)
    ensures |r| <= PieceCount(nodes)
  {
    FlattenBound(NodeChunks(nodes), seq(|nodes|, i requires 0 <= i < |nodes| => NodePieces(nodes[i])));
    Flatten(NodeChunks(nodes))
  }

  lemma FlattenSnoc(chunks: seq<seq<Link>>, k: nat)
    requires k < |chunks|
    ensures Flatten(chunks[..k + 1]) == Flatten(chunks[..k]) + chunks[k]
  {
    assert chunks[..k + 1][..k] == chunks[..k];
  }

  /** A link is in the flattening exactly when it is in one of the chunks. */
  lemma {:induction false} FlattenMember(chunks: seq<seq<Link>>, l: Link)
    ensures l in Flatten(chunks) <==> exists i :: 0 <= i < |chunks| && l in chunks[i]
    decreases |chunks|
  {
    if chunks != [] {
      var init := chunks[..|chunks| - 1];
      FlattenMember(init, l);
      assert forall i :: 0 <= i < |init| ==> init[i] == chunks[i];
    }
  }

  /** One more piece adds that piece's link at the end. */
  lemma PieceLinksSnoc(nodes: seq<Node>, source: nat, kind: LinkType, pieces: seq<string>, k: nat)
    requires k < |pieces|
    ensures PieceLinks(nodes, source, kind, pieces[..k + 1])
         == PieceLinks(nodes, source, kind, pieces[..k]) + PieceLink(nodes, source, kind, pieces[k])
  {
    assert pieces[..k + 1][..k] == pieces[..k];
  }

  /** One `if (field) field.split(',').forEach(...)` block of `createLinks`. */
  method PushFieldLinks(nodes: seq<Node>, source: nat, kind: LinkType, links: seq<Link>) returns (out: seq<Link>)
    requires source < |nodes|
    ensures out == links + FieldLinks(nodes, source, kind)
  {
    out := links;
    var field := FieldOf(nodes[source], kind);
    if field != "" {
      var pieces := JsString.Split(field, ',');
      for k := 0 to |pieces|
        invariant out == links + PieceLinks(nodes, source, kind, pieces[..k])
      {
        PieceLinksSnoc(nodes, source, kind, pieces, k);
        ghost var done := PieceLinks(nodes, source, kind, pieces[..k]);
        var target := FindId(nodes, JsString.Trim(pieces[k]));
        if target.Some? {
          var link := Link(source, target.value, kind);
          AppendAssoc(links, done, [link]);
          out := out + [link];
        } else {
          assert done + [] == done;
        }
      }
      assert pieces[..|pieces|] == pieces;
    }
  }

  lemma AppendAssoc(xs: seq<Link>, ys: seq<Link>, zs: seq<Link>)
    ensures (xs + ys) + zs == xs + (ys + zs)
  {
  }

  lemma AppendFour(xs: seq<Link>, s: seq<Link>, a: seq<Link>, v: seq<Link>, r: seq<Link>)
    ensures xs + s + a + v + r == xs + (s + a + v + r)
  {
  }

  /** The `nodes.forEach` callback of `createLinks`: the four field blocks. */
  method PushNodeLinks(nodes: seq<Node>, source: nat, links: seq<Link>) returns (out: seq<Link>)
    requires source < |nodes|
    ensures out == links + NodeLinks(nodes, source)
  {
    out := PushFieldLinks(nodes, source, Synonym, links);
    out := PushFieldLinks(nodes, source, Antonym, out);
    out := PushFieldLinks(nodes, source, Variant, out);
    out := PushFieldLinks(nodes, source, Root, out);
    AppendFour(links, FieldLinks(nodes, source, Synonym), FieldLinks(nodes, source, Antonym),
               FieldLinks(nodes, source, Variant), FieldLinks(nodes, source, Root));
  }

  /** `createLinks(nodes)`. */
  method CreateLinks(nodes: seq<Node>) returns (links: seq<Link>)
    ensures links == Links(nodes)
  {
    ghost var chunks := NodeChunks(nodes);
    links := [];
    for i := 0 to |nodes|
      invariant links == Flatten(chunks[..i])
    {
      FlattenSnoc(chunks, i);
      links := PushNodeLinks(nodes, i, links);
    }
    assert chunks[..|nodes|] == chunks;
  }

  /** Some comma piece of `field`, trimmed, is `key`; an empty field names nothing. */
  predicate Names(field: string, key: string) {
    field != "" && exists p :: p in JsString.Split(field, ',') && JsString.Trim(p) == key
  }

  /** Node `target` is the first node whose id is its own. */
  predicate FirstOfItsId(nodes: seq<Node>, target: nat)
    requires target < |nodes|
  {
    forall k :: 0 <= k < target ==> nodes[k].id != nodes[target].id
  }

  /** Every link of a piece sequence starts at `source`, has the field's type,
      and ends at the first node whose id is one of the trimmed pieces. */
  lemma {:induction false} PieceLinksSound(nodes: seq<Node>, source: nat, kind: LinkType, pieces: seq<string>, l: Link)
    requires l in PieceLinks(nodes, source, kind, pieces)
    ensures l.source == source && l.kind == kind && l.target < |nodes|
    ensures exists p :: p in pieces && JsString.Trim(p) == nodes[l.target].id
    ensures FirstOfItsId(nodes, l.target)
  {
    var init, last := pieces[..|pieces| - 1], pieces[|pieces| - 1];
    if l in PieceLinks(nodes, source, kind, init) {
      PieceLinksSound(nodes, source, kind, init, l);
      var p :| p in init && JsString.Trim(p) == nodes[l.target].id;
      assert p in pieces;
    } else {
      assert l in PieceLink(nodes, source, kind, last);
      assert last in pieces;
    }
  }

  /** Every piece naming an existing id gives a link to the first node with it. */
  lemma {:induction false} PieceLinksComplete(nodes: seq<Node>, source: nat, kind: LinkType, pieces: seq<string>, p: string, j: nat)
    requires p in pieces
    requires FindId(nodes, JsString.Trim(p)) == Some(j)
    ensures Link(source, j, kind) in PieceLinks(nodes, source, kind, pieces)
  {
    var init, last := pieces[..|pieces| - 1], pieces[|pieces| - 1];
    if p in init {
      PieceLinksComplete(nodes, source, kind, init, p, j);
    } else {
      assert p == last;
    }
  }

  /** The links of consecutive pieces are consecutive: a field's links follow
      its pieces in order. */
  lemma {:induction false} PieceLinksAppend(nodes: seq<Node>, source: nat, kind: LinkType, a: seq<string>, b: seq<string>)
    ensures PieceLinks(nodes, source, kind, a + b)
         == PieceLinks(nodes, source, kind, a) + PieceLinks(nodes, source, kind, b)
    decreases |b|
  {
    if b == [] {
      assert a + b == a;
    } else {
      var b', last := b[..|b| - 1], b[|b| - 1];
      assert (a + b)[..|a + b| - 1] == a + b' && (a + b)[|a + b| - 1] == last;
      PieceLinksAppend(nodes, source, kind, a, b');
      var pa, pb', pl := PieceLinks(nodes, source, kind, a), PieceLinks(nodes, source, kind, b'),
                         PieceLink(nodes, source, kind, last);
      assert PieceLinks(nodes, source, kind, a + b) == (pa + pb') + pl;
      assert PieceLinks(nodes, source, kind, b) == pb' + pl;
      AppendAssoc(pa, pb', pl);
    }
  }

  lemma FieldLinksSound(nodes: seq<Node>, source: nat, kind: LinkType, l: Link)
    requires source < |nodes|
    requires l in FieldLinks(nodes, source, kind)
    ensures l.source == source && l.kind == kind && l.target < |nodes|
    ensures Names(FieldOf(nodes[source], kind), nodes[l.target].id)
    ensures FirstOfItsId(nodes, l.target)
  {
    PieceLinksSound(nodes, source, kind, JsString.Split(FieldOf(nodes[source], kind), ','), l);
  }

  lemma NodeLinksSound(nodes: seq<Node>, source: nat, l: Link)
    requires source < |nodes|
    requires l in NodeLinks(nodes, source)
    ensures l.source == source && l in FieldLinks(nodes, source, l.kind)
  {
    if l in FieldLinks(nodes, source, Synonym) {
      FieldLinksSound(nodes, source, Synonym, l);
    } else if l in FieldLinks(nodes, source, Antonym) {
      FieldLinksSound(nodes, source, Antonym, l);
    } else if l in FieldLinks(nodes, source, Variant) {
      FieldLinksSound(nodes, source, Variant, l);
    } else {
      FieldLinksSound(nodes, source, Root, l);
    }
  }

  /** A link of a field is a link of its node. */
  lemma FieldInNodeLinks(nodes: seq<Node>, source: nat, l: Link)
    requires source < |nodes|
    requires l in FieldLinks(nodes, source, l.kind)
    ensures l in NodeLinks(nodes, source)
  {
    var s, a, v, r := FieldLinks(nodes, source, Synonym), FieldLinks(nodes, source, Antonym),
                      FieldLinks(nodes, source, Variant), FieldLinks(nodes, source, Root);
    assert NodeLinks(nodes, source) == s + a + v + r;
    match l.kind
    case Synonym => assert l in s;
    case Antonym => assert l in a;
    case Variant => assert l in v;
    case Root => assert l in r;
  }

  /** The link a correct reading of the relation fields calls for: its type's
      field of its source node names its target's id, and no earlier node has
      that id. */
  predicate Called(nodes: seq<Node>, l: Link) {
    l.source < |nodes| && l.target < |nodes|
    && Names(FieldOf(nodes[l.source], l.kind), nodes[l.target].id)
    && FirstOfItsId(nodes, l.target)
  }

  lemma FieldLinksComplete(nodes: seq<Node>, l: Link)
    requires Called(nodes, l)
    ensures l in FieldLinks(nodes, l.source, l.kind)
  {
    var pieces := JsString.Split(FieldOf(nodes[l.source], l.kind), ',');
    var p :| p in pieces && JsString.Trim(p) == nodes[l.target].id;
    var found := FindId(nodes, JsString.Trim(p));
    assert found == Some(l.target);
    PieceLinksComplete(nodes, l.source, l.kind, pieces, p, l.target);
  }

  /** Every link `createLinks` makes is called for by the fields. */
  lemma LinksSound(nodes: seq<Node>, l: Link)
    requires l in Links(nodes)
    ensures Called(nodes, l)
  {
    var chunks := NodeChunks(nodes);
    FlattenMember(chunks, l);
    var i :| 0 <= i < |chunks| && l in chunks[i];
    NodeLinksSound(nodes, i, l);
    FieldLinksSound(nodes, l.source, l.kind, l);
  }

  /** Every link the fields call for is made. */
  lemma LinksComplete(nodes: seq<Node>, l: Link)
    requires Called(nodes, l)
    ensures l in Links(nodes)
  {
    var chunks := NodeChunks(nodes);
    FieldLinksComplete(nodes, l);
    FieldInNodeLinks(nodes, l.source, l);
    assert l in chunks[l.source];
    FlattenMember(chunks, l);
  }

  /** Exactly which links `createLinks` makes: a link of type `kind` from node
      `i` to node `j` exists if and only if a trimmed comma piece of the field
      of node `i` for that type is node `j`'s id, and no earlier node has that id. */
  lemma LinksExactly(nodes: seq<Node>, l: Link)
    ensures l in Links(nodes) <==> Called(nodes, l)
  {
    if l in Links(nodes) {
      LinksSound(nodes, l);
    } else if Called(nodes, l) {
      LinksComplete(nodes, l);
    }
  }

  /** An empty piece, as in "a,,b", trims to "" and links to the first node
      whose id is "" (the id a row without a word column gets). */
  lemma EmptyPieceLinksBlankId(nodes: seq<Node>, source: nat, kind: LinkType, j: nat)
    requires source < |nodes| && j < |nodes|
    requires FieldOf(nodes[source], kind) != "" && "" in JsString.Split(FieldOf(nodes[source], kind), ',')
    requires nodes[j].id == "" && FirstOfItsId(nodes, j)
    ensures Link(source, j, kind) in Links(nodes)
  {
    assert JsString.Trim("") == "";
    LinksComplete(nodes, Link(source, j, kind));
  }

  /** The pieces are trimmed before the lookup but ids are not, so a word
      whose id starts or ends with whitespace is never the target of a link. */
  lemma PaddedIdNeverLinked(nodes: seq<Node>, l: Link)
    requires l in Links(nodes)
    ensures l.target < |nodes|
    ensures var id := nodes[l.target].id;
      id == [] || (!JsString.IsWhitespace(id[0]) && !JsString.IsWhitespace(id[|id| - 1]))
  {
    LinksSound(nodes, l);
  }

  /** One more than the commas of a non-empty field, none for an empty one. */
  function FieldPieces(n: Node, kind: LinkType): nat {
    var field := FieldOf(n, kind);
    if field == "" then 0 else multiset(field)[','] + 1
  }

  /** The comma pieces of the four link fields of a node. */
  function NodePieces(n: Node): nat {
    FieldPieces(n, Synonym) + FieldPieces(n, Antonym) + FieldPieces(n, Variant) + FieldPieces(n, Root)
  }

  function Sum(xs: seq<nat>): nat
    decreases |xs|
  {
    if xs == [] then 0 else Sum(xs[..|xs| - 1]) + xs[|xs| - 1]
  }

  /** The comma pieces of the link fields of all nodes. */
  function PieceCount(nodes: seq<Node>): nat {
    Sum(seq(|nodes|, i requires 0 <= i < |nodes| => NodePieces(nodes[i])))
  }

  /** Chunks each within its bound flatten to within the sum of the bounds. */
  lemma {:induction false} FlattenBound(chunks: seq<seq<Link>>, bounds: seq<nat>)
    requires |bounds| == |chunks|
    requires forall i :: 0 <= i < |chunks| ==> |chunks[i]| <= bounds[i]
    ensures |Flatten(chunks)| <= Sum(bounds)
    decreases |chunks|
  {
    if chunks != [] {
      var k := |chunks| - 1;
      FlattenBound(chunks[..k], bounds[..k]);
    }
  }

  /** Links are sorted by source node, then by field. */
  predicate InOrder(x: Link, y: Link) {
    x.source < y.source || (x.source == y.source && Rank(x.kind) <= Rank(y.kind))
  }

  predicate Ordered(links: seq<Link>) {
    forall a, b :: 0 <= a < b < |links| ==> InOrder(links[a], links[b])
  }

  lemma OrderedConcat(xs: seq<Link>, ys: seq<Link>)
    requires Ordered(xs) && Ordered(ys)
    requires forall x, y :: x in xs && y in ys ==> InOrder(x, y)
    ensures Ordered(xs + ys)
  {
    var zs := xs + ys;
    forall a, b | 0 <= a < b < |zs| ensures InOrder(zs[a], zs[b]) {
      if b < |xs| {
        assert zs[a] == xs[a] && zs[b] == xs[b];
      } else if a >= |xs| {
        assert zs[a] == ys[a - |xs|] && zs[b] == ys[b - |xs|];
      } else {
        assert zs[a] in xs && zs[b] in ys;
      }
    }
  }

  lemma FieldLinksOrdered(nodes: seq<Node>, source: nat, kind: LinkType)
    requires source < |nodes|
    ensures Ordered(FieldLinks(nodes, source, kind))
    ensures forall l :: l in FieldLinks(nodes, source, kind) ==> l.source == source && l.kind == kind
  {
    forall l | l in FieldLinks(nodes, source, kind) ensures l.source == source && l.kind == kind {
      FieldLinksSound(nodes, source, kind, l);
    }
  }

  lemma NodeLinksOrdered(nodes: seq<Node>, source: nat)
    requires source < |nodes|
    ensures Ordered(NodeLinks(nodes, source))
    ensures forall l :: l in NodeLinks(nodes, source) ==> l.source == source
  {
    var s, a, v, r := FieldLinks(nodes, source, Synonym), FieldLinks(nodes, source, Antonym),
                      FieldLinks(nodes, source, Variant), FieldLinks(nodes, source, Root);
    FieldLinksOrdered(nodes, source, Synonym);
    FieldLinksOrdered(nodes, source, Antonym);
    FieldLinksOrdered(nodes, source, Variant);
    FieldLinksOrdered(nodes, source, Root);
    OrderedConcat(s, a);
    OrderedConcat(s + a, v);
    OrderedConcat(s + a + v, r);
  }

  /** Ordered chunks, the `i`th holding only links from node `i`, flatten to
      an ordered sequence. */
  lemma {:induction false} FlattenOrdered(chunks: seq<seq<Link>>)
    requires forall i :: 0 <= i < |chunks| ==> Ordered(chunks[i])
    requires forall i, l :: 0 <= i < |chunks| && l in chunks[i] ==> l.source == i
    ensures Ordered(Flatten(chunks))
    ensures forall l :: l in Flatten(chunks) ==> l.source < |chunks|
    decreases |chunks|
  {
    if chunks != [] {
      var k := |chunks| - 1;
      var prev, last := Flatten(chunks[..k]), chunks[k];
      FlattenOrdered(chunks[..k]);
      forall x, y | x in prev && y in last ensures InOrder(x, y) {
      }
      OrderedConcat(prev, last);
      forall l: Link | l in prev + last ensures l.source < |chunks| {
      }
    }
  }

  /** `createLinks` lists links by source node, then synonyms, antonyms,
      variants and roots; within a field they follow the pieces (`PieceLinksAppend`). */
  lemma LinksOrdered(nodes: seq<Node>)
    ensures Ordered(Links(nodes))
    ensures forall l :: l in Links(nodes) ==> l.source < |nodes|
  {
    var chunks := NodeChunks(nodes);
    forall i | 0 <= i < |chunks|
      ensures Ordered(chunks[i]) && forall l: Link :: l in chunks[i] ==> l.source == i
    {
      NodeLinksOrdered(nodes, i);
    }
    FlattenOrdered(chunks);
  }
}
