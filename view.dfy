/** What the front end shows for a selection: bubble fills, line styles and
    the pills of the word-information panel. Every rule here is a pure
    function of the nodes, the links and the selected node. */
module View {
  import opened Wrappers
  import JsString
  import opened WordGraph

  const SelectedColor: string := "#4169E1"
  const DefaultColor: string := "#d4d4d4"
  /** The stroke of a line that does not touch the selected word. */
  const DimColor: string := "#f0f0f0"

  /** `categoryColors`. */
  const CategoryColors: map<string, string> := map[
    "selected" := SelectedColor,
    "synonym" := "#5ccf7a",
    "antonym" := "#e35252",
    "variant" := "#e3c352",
    "root" := "#9b52e3",
    "default" := DefaultColor
  ]

  /** The `type` string of a link object. */
  function TypeName(kind: LinkType): string {
    match kind
    case Synonym => "synonym"
    case Antonym => "antonym"
    case Variant => "variant"
    case Root => "root"
  }

  /** `categoryColors[link.type]`: every link type has an entry, so the
      `|| fallback` of the source never applies. */
  function TypeColor(kind: LinkType): (r: string)
    ensures r in CategoryColors.Values
    ensures r != SelectedColor && r != DefaultColor && r != DimColor
  {
    var name := TypeName(kind);
    assert name in CategoryColors && CategoryColors[name] in CategoryColors.Values;
    assert name != "selected" && name != "default" by {
      assert name[1] != 'e';
    }
    CategoryColors[name]
  }

  /** The four relation colours tell the link types apart, and none of them
      is the selected, the default or the dimmed colour. */
  lemma TypeColorsDistinct(a: LinkType, b: LinkType)
    ensures TypeColor(a) == TypeColor(b) <==> a == b
    ensures TypeColor(a) != SelectedColor && TypeColor(a) != DefaultColor && TypeColor(a) != DimColor
  {
    assert TypeColor(Synonym)[1] == '5' && TypeColor(Antonym)[2] == '3' && TypeColor(Variant)[3] == 'c';
    assert TypeColor(Root)[1] == '9' && SelectedColor[1] == '4' && DefaultColor[1] == 'd' && DimColor[1] == 'f';
    assert TypeColor(Antonym)[1] == 'e' && TypeColor(Variant)[1] == 'e';
  }

  /** `getBubbleColor(d)`: `d.type` when it names a category, else the default.
      A missing property reads as `undefined`, which `in` looks up under the
      key "undefined". Node objects have no `type` property, so every bubble
      gets the default grey. */
  function GetBubbleColor(n: Node): (r: string)
    ensures r == DefaultColor
  {
    var key := match n.Property("type") case Some(t) => t case None => "undefined";
    var color := CategoryOr(key, DefaultColor);
    assert n.Property("type") == None;
    assert key !in CategoryColors by {
      assert |key| == 9;
    }
    color
  }

  /** `key in categoryColors ? categoryColors[key] : fallback`. */
  function CategoryOr(key: string, fallback: string): (r: string)
    ensures key in CategoryColors ==> r == CategoryColors[key]
    ensures key !in CategoryColors ==> r == fallback
  {
    if key in CategoryColors then CategoryColors[key] else fallback
  }

  /** Link `l` joins the selected node `c` and node `d`, in either direction. */
  predicate Relates(l: Link, c: nat, d: nat) {
    (l.source == c && l.target == d) || (l.target == c && l.source == d)
  }

  /** `links.find(...)` in `updateBubbles`: the least index of a link joining `c` and `d`. */
  function FirstRelated(links: seq<Link>, c: nat, d: nat): (r: Option<nat>)
    ensures r.Some? ==> r.value < |links| && Relates(links[r.value], c, d)
    ensures r.Some? ==> forall k :: 0 <= k < r.value ==> !Relates(links[k], c, d)
    ensures r.None? ==> forall k :: 0 <= k < |links| ==> !Relates(links[k], c, d)
  {
    if links == [] then None
    else if Relates(links[0], c, d) then Some(0)
    else match FirstRelated(links[1..], c, d)
      case None => None
      case Some(k) => Some(k + 1)
  }

  /** The fill `updateBubbles` gives the circle of node `d`. */
  function BubbleFill(links: seq<Link>, current: Option<nat>, d: nat): (r: string)
    ensures r in CategoryColors.Values
  {
    assert CategoryColors["selected"] == SelectedColor && CategoryColors["default"] == DefaultColor;
    if current == Some(d) then SelectedColor
    else if current.None? then DefaultColor
    else match FirstRelated(links, current.value, d)
      case Some(k) => TypeColor(links[k].kind)
      case None => DefaultColor
  }

  /** A bubble is blue exactly when it is the selected word; grey exactly when
      nothing is selected or no link joins it to the selected word; otherwise
      it has the colour of the type of the first link joining the two. */
  lemma BubbleFillCases(links: seq<Link>, current: Option<nat>, d: nat)
    ensures BubbleFill(links, current, d) == SelectedColor <==> current == Some(d)
    ensures BubbleFill(links, current, d) == DefaultColor <==>
      current != Some(d) && (current.None? || forall k :: 0 <= k < |links| ==> !Relates(links[k], current.value, d))
    ensures forall k ::
      (current.Some? && current != Some(d) && 0 <= k < |links| && Relates(links[k], current.value, d)
       && (forall m :: 0 <= m < k ==> !Relates(links[m], current.value, d)))
      ==> BubbleFill(links, current, d) == TypeColor(links[k].kind)
  {
    if current.Some? && current != Some(d) {
      var f := FirstRelated(links, current.value, d);
      if f.Some? {
        TypeColorsDistinct(links[f.value].kind, links[f.value].kind);
        forall k | 0 <= k < |links| && Relates(links[k], current.value, d)
          && (forall m :: 0 <= m < k ==> !Relates(links[m], current.value, d))
          ensures k == f.value
        {
        }
      }
    }
  }

  /** The fills of all `n` circles. */
  function Fills(n: nat, links: seq<Link>, current: Option<nat>): seq<string> {
    seq(n, d requires 0 <= d < n => BubbleFill(links, current, d))
  }

  /** The circles as `drawBubbles` creates them. */
  function InitialFills(nodes: seq<Node>): (r: seq<string>)
    ensures |r| == |nodes|
    ensures forall i :: 0 <= i < |r| ==> r[i] == DefaultColor
  {
    seq(|nodes|, i requires 0 <= i < |nodes| => GetBubbleColor(nodes[i]))
  }

  /** Before any selection the drawn fills are already the fills of "nothing
      selected": all grey. */
  lemma InitialFillsUnselected(nodes: seq<Node>, links: seq<Link>)
    ensures InitialFills(nodes) == Fills(|nodes|, links, None)
  {
    forall i | 0 <= i < |nodes| ensures InitialFills(nodes)[i] == Fills(|nodes|, links, None)[i] {
    }
  }

  /** The `stroke`, `stroke-width` and `stroke-dasharray` attributes of a line;
      `None` is an absent dash attribute. */
  datatype LineStyle = LineStyle(stroke: string, width: string, dash: Option<string>)

  /** The style `updateLineColors` gives a line. */
  function LineStyleOf(l: Link, current: Option<nat>): (r: LineStyle)
    ensures r.stroke in CategoryColors.Values || r.stroke == DimColor
    ensures r.dash.Some? <==> r.width == "2"
    ensures r.stroke == DimColor <==> r.width == "1"
  {
    if current.Some? && (l.source == current.value || l.target == current.value)
    then LineStyle(TypeColor(l.kind), "2", Some("2"))
    else LineStyle(DimColor, "1", None)
  }

  /** A line is drawn wide, dashed and in its type's colour exactly when it
      touches the selected word; every other line is thin, solid and dimmed,
      and a dimmed line is never mistaken for a highlighted one. */
  lemma LineStyleCases(l: Link, current: Option<nat>)
    ensures var touches := current.Some? && (l.source == current.value || l.target == current.value);
      && (LineStyleOf(l, current).width == "2" <==> touches)
      && (LineStyleOf(l, current).dash.Some? <==> touches)
      && (LineStyleOf(l, current).stroke == DimColor <==> !touches)
      && (touches ==> LineStyleOf(l, current).stroke == TypeColor(l.kind))
  {
    TypeColorsDistinct(l.kind, l.kind);
  }

  /** The styles of all lines. */
  function LineStyles(links: seq<Link>, current: Option<nat>): seq<LineStyle> {
    seq(|links|, i requires 0 <= i < |links| => LineStyleOf(links[i], current))
  }

  /** The lines as `drawBubbles` creates them: type colour, width "1", no dash. */
  function InitialLineStyles(links: seq<Link>): (r: seq<LineStyle>)
    ensures |r| == |links|
    ensures forall i :: 0 <= i < |r| ==> r[i].stroke == TypeColor(links[i].kind) && r[i] != LineStyleOf(links[i], None)
  {
    seq(|links|, i requires 0 <= i < |links| => LineStyle(TypeColor(links[i].kind), "1", None))
  }

  /** A `div` of the information panel: its class attribute and its text. */
  datatype Pill = Pill(className: string, text: string)

  /** The pill class of each relation's container. */
  function PillClass(kind: LinkType): string {
    match kind
    case Synonym => "green-pill"
    case Antonym => "red-pill"
    case Variant => "yellow-pill"
    case Root => "purple-pill"
  }

  /** The pills the comma branch of `updateWordInfo` leaves in a container:
      none for an empty list, otherwise one per comma piece, trimmed. */
  function Pills(wordList: string, pillClass: string): (r: seq<Pill>)
    ensures r == [] <==> wordList == ""
    ensures |r| == if wordList == "" then 0 else multiset(wordList)[','] + 1
  {
    JsString.SplitCount(wordList, ',');
    if wordList == "" then []
    else
      var pieces := JsString.Split(wordList, ',');
      seq(|pieces|, i requires 0 <= i < |pieces| => Pill("pill " + pillClass, JsString.Trim(pieces[i])))
  }

  /** The comma branch of `updateWordInfo`: clear the container, then append
      one pill per piece. */
  method UpdateWordInfo(wordList: string, pillClass: string) returns (container: seq<Pill>)
    ensures container == Pills(wordList, pillClass)
  {
    container := [];
    if wordList != "" {
      var pieces := JsString.Split(wordList, ',');
      for i := 0 to |pieces|
        invariant |container| == i
        invariant forall j :: 0 <= j < i ==> container[j] == Pill("pill " + pillClass, JsString.Trim(pieces[j]))
      {
        container := container + [Pill("pill " + pillClass, JsString.Trim(pieces[i]))];
      }
    }
  }

  /** A list shows one pill per comma piece, each already trimmed, and the
      pills in order are the pieces in order. */
  lemma PillsShape(wordList: string, pillClass: string)
    ensures |Pills(wordList, pillClass)| == if wordList == "" then 0 else multiset(wordList)[','] + 1
    ensures forall i :: 0 <= i < |Pills(wordList, pillClass)| ==>
      Pills(wordList, pillClass)[i].className == "pill " + pillClass
      && JsString.Trim(Pills(wordList, pillClass)[i].text) == Pills(wordList, pillClass)[i].text
      && Pills(wordList, pillClass)[i].text == JsString.Trim(JsString.Split(wordList, ',')[i])
  {
    JsString.SplitCount(wordList, ',');
    forall i | 0 <= i < |Pills(wordList, pillClass)|
      ensures JsString.Trim(Pills(wordList, pillClass)[i].text) == Pills(wordList, pillClass)[i].text
    {
      JsString.TrimIdempotent(JsString.Split(wordList, ',')[i]);
    }
  }

  /** What `displayWordInfo` puts in the panel; the sentence container is not modelled. */
  datatype Panel = Panel(selectedWord: string, synonyms: seq<Pill>, antonyms: seq<Pill>,
                         variants: seq<Pill>, roots: seq<Pill>)

  function WordInfo(n: Node): (r: Panel)
    ensures r.selectedWord == n.id
    ensures forall kind :: Container(r, kind) == Pills(FieldOf(n, kind), PillClass(kind))
  {
    Panel(n.id,
          Pills(n.azerbaijaniSynonyms, PillClass(Synonym)),
          Pills(n.azerbaijaniAntonyms, PillClass(Antonym)),
          Pills(n.azerbaijaniVariants, PillClass(Variant)),
          Pills(n.kok, PillClass(Root)))
  }

  /** The container of a relation type. */
  function Container(p: Panel, kind: LinkType): seq<Pill> {
    match kind
    case Synonym => p.synonyms
    case Antonym => p.antonyms
    case Variant => p.variants
    case Root => p.roots
  }

  lemma PillsHold(wordList: string, pillClass: string, p: string)
    requires wordList != "" && p in JsString.Split(wordList, ',')
    ensures Pill("pill " + pillClass, JsString.Trim(p)) in Pills(wordList, pillClass)
  {
    var pieces := JsString.Split(wordList, ',');
    var i :| 0 <= i < |pieces| && pieces[i] == p;
    assert Pills(wordList, pillClass)[i] == Pill("pill " + pillClass, JsString.Trim(p));
  }

  /** Every link leaving a word shows in that word's panel: its container
      holds a pill naming the target's id. */
  lemma PanelShowsLinks(nodes: seq<Node>, l: Link)
    requires l in Links(nodes)
    ensures l.source < |nodes| && l.target < |nodes|
    ensures Pill("pill " + PillClass(l.kind), nodes[l.target].id) in Container(WordInfo(nodes[l.source]), l.kind)
  {
    LinksSound(nodes, l);
    var field := FieldOf(nodes[l.source], l.kind);
    var p :| p in JsString.Split(field, ',') && JsString.Trim(p) == nodes[l.target].id;
    PillsHold(field, PillClass(l.kind), p);
  }
}
