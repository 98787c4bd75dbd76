/** The page's state and its event handlers: the globals `nodes`, `links` and
    `currentWord`, what is drawn for them, and the click and search handlers
    that change the selection. */
module WordMap {
  import opened Wrappers
  import JsString
  import opened WordGraph
  import opened View

  /** `nodes.find(node => node.id.toLowerCase() === term)`. */
  function FindLowerId(nodes: seq<Node>, term: string): (r: Option<nat>)
    ensures r.Some? ==> r.value < |nodes| && JsString.ToLower(nodes[r.value].id) == term
    ensures r.Some? ==> forall k :: 0 <= k < r.value ==> JsString.ToLower(nodes[k].id) != term
    ensures r.None? ==> forall k :: 0 <= k < |nodes| ==> JsString.ToLower(nodes[k].id) != term
  {
    if nodes == [] then None
    else if JsString.ToLower(nodes[0].id) == term then Some(0)
    else match FindLowerId(nodes[1..], term)
      case None => None
      case Some(j) => Some(j + 1)
  }

  /** `this.value.trim().toLowerCase()`: empty exactly when the input is all
      whitespace, and never starting or ending with whitespace. */
  function SearchTerm(value: string): (r: string)
    ensures r == [] <==> JsString.Trim(value) == []
    ensures r == [] || (!JsString.IsWhitespace(r[0]) && !JsString.IsWhitespace(r[|r| - 1]))
  {
    var t := JsString.Trim(value);
    if t == [] then JsString.ToLower(t)
    else
      JsString.ToLowerEnds(t);
      JsString.ToLower(t)
  }

  /** The node a key press in the search box asks for: only Enter with a
      non-empty term, and then the first node whose lower-cased id is the term. */
  function SearchTarget(nodes: seq<Node>, key: string, value: string): (r: Option<nat>)
    ensures r.Some? ==> key == "Enter" && SearchTerm(value) != "" && r.value < |nodes|
  {
    if key != "Enter" then None
    else
      var term := SearchTerm(value);
      if term == "" then None else FindLowerId(nodes, term)
  }

  /** A search selects node `j` exactly when Enter was pressed, the trimmed,
      lower-cased term is not empty and equals node `j`'s lower-cased id, and
      no earlier node's lower-cased id equals it. */
  lemma SearchTargetExactly(nodes: seq<Node>, key: string, value: string, j: nat)
    ensures SearchTarget(nodes, key, value) == Some(j) <==>
      key == "Enter" && SearchTerm(value) != "" && j < |nodes|
      && JsString.ToLower(nodes[j].id) == SearchTerm(value)
      && forall k :: 0 <= k < j ==> JsString.ToLower(nodes[k].id) != SearchTerm(value)
  {
    if key == "Enter" && SearchTerm(value) != "" {
      var f := FindLowerId(nodes, SearchTerm(value));
      if f.Some? && f.value != j && j < |nodes|
        && JsString.ToLower(nodes[j].id) == SearchTerm(value)
        && forall k :: 0 <= k < j ==> JsString.ToLower(nodes[k].id) != SearchTerm(value)
      {
        assert false;
      }
    }
  }

  /** Every word with a non-empty id can be found by typing anything that
      trims and lower-cases to its lower-cased id: the search then selects it
      or an earlier word spelled the same up to case. */
  lemma SearchReachesEveryWord(nodes: seq<Node>, value: string, j: nat)
    requires j < |nodes| && nodes[j].id != ""
    requires SearchTerm(value) == JsString.ToLower(nodes[j].id)
    ensures SearchTarget(nodes, "Enter", value).Some?
    ensures SearchTarget(nodes, "Enter", value).value <= j
    ensures JsString.ToLower(nodes[SearchTarget(nodes, "Enter", value).value].id) == JsString.ToLower(nodes[j].id)
  {
  }

  /** The typed term is trimmed but ids are not, so a word whose id starts or
      ends with whitespace is never found, whatever is typed. */
  lemma PaddedIdNeverFound(nodes: seq<Node>, key: string, value: string, j: nat)
    requires j < |nodes| && nodes[j].id != []
    requires JsString.IsWhitespace(nodes[j].id[0]) || JsString.IsWhitespace(nodes[j].id[|nodes[j].id| - 1])
    ensures SearchTarget(nodes, key, value) != Some(j)
  {
    JsString.ToLowerEnds(nodes[j].id);
  }

  /** Fills left from an unselected page are never the fills a selection
      calls for: the selected bubble would still be grey instead of blue. */
  lemma StaleFills(n: nat, links: seq<Link>, j: nat)
    requires j < n
    ensures Fills(n, links, None) != Fills(n, links, Some(j))
  {
    assert Fills(n, links, None)[j] == DefaultColor;
    assert Fills(n, links, Some(j))[j] == SelectedColor;
  }

  class WordMap {
    var nodes: seq<Node>
    var links: seq<Link>
    var currentWord: Option<nat>
    /** The `fill` of each circle, by node index. */
    var fills: seq<string>
    /** The style of each line, by link index. */
    var lineStyles: seq<LineStyle>
    /** The information panel; `None` before any word is shown in it. */
    var panel: Option<Panel>

    /** The selection is a node, and there is one circle per node and one
        line per link. That `links` is `createLinks(nodes)` is established by
        `Load`; no handler changes either. */
    ghost predicate Valid()
      reads this
    {
      (currentWord.Some? ==> currentWord.value < |nodes|)
      && |fills| == |nodes| && |lineStyles| == |links|
    }

    /** The circles are coloured for the current selection. */
    ghost predicate FillsShowSelection()
      reads this
    {
      fills == Fills(|nodes|, links, currentWord)
    }

    /** Circles, lines and panel all show the current selection. */
    ghost predicate ShowsSelection()
      reads this
      requires Valid()
    {
      FillsShowSelection()
      && lineStyles == LineStyles(links, currentWord)
      && (currentWord.Some? ==> panel == Some(WordInfo(nodes[currentWord.value])))
    }

    /** The page before the data arrives. */
    constructor()
      ensures Valid()
      ensures nodes == [] && links == [] && currentWord == None
      ensures fills == [] && lineStyles == [] && panel == None
    {
      nodes := [];
      links := [];
      currentWord := None;
      fills := [];
      lineStyles := [];
      panel := None;
    }

    /** The fetch callback: `nodes = data.nodes`, `links = createLinks(nodes)`,
        then `drawBubbles(nodes, links)`. `data` holds the parsed node objects
        of the reply (see `WordGraph.FromRecord`). */
    method Load(data: seq<Node>)
      requires Valid() && nodes == []
      modifies this
      ensures Valid()
      ensures nodes == data && links == Links(data)
      ensures currentWord == None && panel == old(panel)
      ensures fills == InitialFills(nodes) && lineStyles == InitialLineStyles(links)
      ensures FillsShowSelection()
    {
      nodes := data;
      links := CreateLinks(nodes);
      fills := InitialFills(nodes);
      lineStyles := InitialLineStyles(links);
      InitialFillsUnselected(nodes, links);
    }

    /** `updateLineColors()`: restyles every line for the current selection. */
    method UpdateLineColors()
      requires Valid()
      modifies this
      ensures Valid()
      ensures lineStyles == LineStyles(links, currentWord)
      ensures nodes == old(nodes) && links == old(links) && currentWord == old(currentWord)
      ensures fills == old(fills) && panel == old(panel)
    {
      for i := 0 to |links|
        invariant nodes == old(nodes) && links == old(links) && currentWord == old(currentWord)
        invariant fills == old(fills) && panel == old(panel)
        invariant |lineStyles| == |links|
        invariant forall j :: 0 <= j < i ==> lineStyles[j] == LineStyleOf(links[j], currentWord)
      {
        lineStyles := lineStyles[i := LineStyleOf(links[i], currentWord)];
      }
    }

    /** `updateBubbles()`: refills every circle for the current selection. */
    method UpdateBubbles()
      requires Valid()
      modifies this
      ensures Valid() && FillsShowSelection()
      ensures nodes == old(nodes) && links == old(links) && currentWord == old(currentWord)
      ensures lineStyles == old(lineStyles) && panel == old(panel)
    {
      for i := 0 to |nodes|
        invariant nodes == old(nodes) && links == old(links) && currentWord == old(currentWord)
        invariant lineStyles == old(lineStyles) && panel == old(panel)
        invariant |fills| == |nodes|
        invariant forall j :: 0 <= j < i ==> fills[j] == BubbleFill(links, currentWord, j)
      {
        fills := fills[i := BubbleFill(links, currentWord, i)];
      }
    }

    /** The click handler of a circle or its label: a word other than the
        selected one becomes selected and everything is redrawn for it;
        clicking the selected word again changes nothing. */
    method Click(d: nat)
      requires Valid() && d < |nodes|
      modifies this
      ensures Valid()
      ensures old(currentWord) == Some(d) ==> unchanged(this)
      ensures currentWord == Some(d)
      ensures old(currentWord) != Some(d) ==> ShowsSelection()
      ensures nodes == old(nodes) && links == old(links)
    {
      if currentWord != Some(d) {
        Select(d);
      }
    }

    /** What both handlers do before redrawing: `currentWord = d` and
        `displayWordInfo(d)`. Lines and circles are left as they were. */
    method ShowWord(d: nat)
      requires Valid() && d < |nodes|
      modifies this
      ensures Valid() && currentWord == Some(d) && panel == Some(WordInfo(nodes[d]))
      ensures nodes == old(nodes) && links == old(links)
      ensures fills == old(fills) && lineStyles == old(lineStyles)
    {
      currentWord := Some(d);
      panel := Some(WordInfo(nodes[d]));
    }

    /** The body the click handlers share: select `d`, show its information,
        then restyle the lines and refill the circles. */
    method Select(d: nat)
      requires Valid() && d < |nodes|
      modifies this
      ensures Valid() && currentWord == Some(d) && ShowsSelection()
      ensures nodes == old(nodes) && links == old(links)
    {
      ShowWord(d);
      UpdateLineColors();
      UpdateBubbles();
    }

    /** The search box's key handler with the redraw it intends: the same
        effect as clicking the word the search finds. A key other than Enter,
        an empty term, a term matching no id, or the word already selected
        changes nothing. */
    method Search(key: string, value: string)
      requires Valid()
      modifies this
      ensures Valid()
      ensures var t := SearchTarget(old(nodes), key, value);
        (t.None? || t == old(currentWord) ==> unchanged(this))
        && (t.Some? && t != old(currentWord) ==> currentWord == t && ShowsSelection())
      ensures nodes == old(nodes) && links == old(links)
    {
      var found := SearchTarget(nodes, key, value);
      if found.Some? && currentWord != found {
        Select(found.value);
      }
    }

    /** The search box's key handler as the page has it. `updateLineColors`
        and `updateBubbles` are local to `drawBubbles`, so calling them from
        this handler throws a ReferenceError: the selection and the panel
        change, the lines and circles keep their old look. `threw` reports
        the exception. */
    method SearchAsWritten(key: string, value: string) returns (threw: bool)
      requires Valid()
      modifies this
      ensures Valid()
      ensures var t := SearchTarget(old(nodes), key, value);
        (threw <==> t.Some? && t != old(currentWord))
        && (threw ==> currentWord == t && panel == Some(WordInfo(nodes[t.value])))
      ensures !threw ==> unchanged(this)
      ensures nodes == old(nodes) && links == old(links)
      ensures fills == old(fills) && lineStyles == old(lineStyles)
      ensures threw && old(currentWord).None? && old(FillsShowSelection()) ==> !FillsShowSelection()
    {
      threw := false;
      var found := SearchTarget(nodes, key, value);
      if found.Some? && currentWord != found {
        ShowWord(found.value);
        threw := true;
        StaleFills(|nodes|, links, found.value);
      }
    }
  }
}
