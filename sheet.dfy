/** The `/data` endpoint of the backend: the rows of the "newbrand" worksheet
    become word-map node records, and a failed fetch becomes an error reply.
    The spreadsheet client is abstracted into a `Fetch`: the rows it returned,
    or the exception it raised. */
module Sheet {

  /** One record of `get_all_records()`: column header to cell text. */
  type Row = map<string, string>

  /** One output node, as the dictionary the handler builds. */
  type Record = map<string, string>

  /** The JSON values this endpoint emits. */
  datatype Json = JString(text: string) | JArray(items: seq<Json>) | JObject(fields: map<string, Json>)

  datatype Response = Response(status: int, body: Json)

  /** `row.get(column, "")`: the cell, or the empty string when the column is absent. */
  function Get(row: Row, column: string): string {
    if column in row then row[column] else ""
  }

  /** The sheet column each output key is read from: the twelve pairs of the
      dictionary literal the handler builds for every row. */
  const SourceColumn: map<string, string> := map[
    "kok" := "kök",
    "id" := "söz",
    "en_word" := "word",
    "az_word_type" := "növ",
    "en_word_type" := "type",
    "azerbaijani_synonyms" := "sinonimlər",
    "english_synonyms" := "synonyms",
    "azerbaijani_antonyms" := "antonimlər",
    "english_antonyms" := "antonyms",
    "azerbaijani_variants" := "variantlar",
    "english_variants" := "variants",
    "azerbaijani_sentences" := "cümlələr"
  ]

  const OutputKeys: set<string> := {
    "kok", "id", "en_word", "az_word_type", "en_word_type",
    "azerbaijani_synonyms", "english_synonyms", "azerbaijani_antonyms",
    "english_antonyms", "azerbaijani_variants", "english_variants",
    "azerbaijani_sentences"
  }

  lemma SourceColumnKeys()
    ensures SourceColumn.Keys == OutputKeys
  {
  }

  /** The output keys are twelve distinct names. */
  lemma TwelveOutputKeys()
    ensures |OutputKeys| == 12
  {
  }

  /** The dictionary the handler appends for one row. */
  function NodeRecord(row: Row): (r: Record)
    ensures r.Keys == OutputKeys
    ensures forall k :: k in r ==> r[k] == Get(row, SourceColumn[k])
  {
    SourceColumnKeys();
    map k | k in SourceColumn :: Get(row, SourceColumn[k])
  }

  /** A record depends on the twelve source columns only: other columns of the
      sheet are ignored, and an absent column reads like an empty cell. */
  lemma RecordDependsOnColumnsOnly(a: Row, b: Row)
    requires forall k :: k in SourceColumn ==> Get(a, SourceColumn[k]) == Get(b, SourceColumn[k])
    ensures NodeRecord(a) == NodeRecord(b)
  {
    SourceColumnKeys();
  }

  /** A row missing a column yields "" under the matching output key, never a missing key. */
  lemma AbsentColumnIsEmpty(row: Row, key: string)
    requires key in SourceColumn && SourceColumn[key] !in row
    ensures key in NodeRecord(row) && NodeRecord(row)[key] == ""
  {
    SourceColumnKeys();
  }

  /** The loop of `get_data`: one record per row, appended in row order. */
  method MapRows(rows: seq<Row>) returns (nodes: seq<Record>)
    ensures |nodes| == |rows|
    ensures forall i :: 0 <= i < |rows| ==> nodes[i] == NodeRecord(rows[i])
  {
    nodes := [];
    for i := 0 to |rows|
      invariant |nodes| == i
      invariant forall j :: 0 <= j < i ==> nodes[j] == NodeRecord(rows[j])
    {
      nodes := nodes + [NodeRecord(rows[i])];
    }
  }

  /** A record as a JSON object of strings. */
  function RecordJson(r: Record): Json {
    JObject(map k | k in r :: JString(r[k]))
  }

  /** `jsonify({"nodes": nodes})`. */
  function SuccessBody(nodes: seq<Record>): (r: Json)
    ensures r.JObject? && r.fields.Keys == {"nodes"} && r.fields["nodes"].JArray?
    ensures |r.fields["nodes"].items| == |nodes|
    ensures forall i :: 0 <= i < |nodes| ==>
      var item := r.fields["nodes"].items[i];
      item.JObject? && item.fields.Keys == nodes[i].Keys
      && forall k :: k in nodes[i] ==> item.fields[k] == JString(nodes[i][k])
  {
    JObject(map["nodes" := JArray(seq(|nodes|, i requires 0 <= i < |nodes| => RecordJson(nodes[i])))])
  }

  /** The success body has the single key "nodes", holding one object per row,
      each with exactly the twelve output keys, in row order. */
  lemma SuccessBodyShape(rows: seq<Row>, nodes: seq<Record>)
    requires |nodes| == |rows| && forall i :: 0 <= i < |rows| ==> nodes[i] == NodeRecord(rows[i])
    ensures SuccessBody(nodes).fields.Keys == {"nodes"}
    ensures |SuccessBody(nodes).fields["nodes"].items| == |rows|
    ensures forall i :: 0 <= i < |rows| ==>
      var item := SuccessBody(nodes).fields["nodes"].items[i];
      item.JObject? && item.fields.Keys == OutputKeys
      && forall k :: k in OutputKeys ==> item.fields[k] == JString(Get(rows[i], SourceColumn[k]))
  {
    forall i | 0 <= i < |rows|
      ensures SuccessBody(nodes).fields["nodes"].items[i] == RecordJson(NodeRecord(rows[i]))
    {
    }
  }

  /** An exception raised while fetching the worksheet: whether it is an instance
      of gspread's SpreadsheetNotFound and of its WorksheetNotFound, and `str(e)`. */
  datatype Raised = Raised(spreadsheetNotFound: bool, worksheetNotFound: bool, text: string)

  /** What the spreadsheet client gave back: the rows, or the exception it raised. */
  datatype Fetch = Rows(rows: seq<Row>) | Raises(error: Raised)

  const SheetMissingMessage: string := "Google Sheet not found. Check the sheet name or permissions."
  const WorksheetMissingMessage: string := "Worksheet not found. Check the worksheet name."
  const UnexpectedPrefix: string := "An unexpected error occurred: "

  /** `jsonify({"error": message})`. */
  function ErrorBody(message: string): (r: Json)
    ensures r.JObject? && r.fields.Keys == {"error"}
    ensures r.fields["error"].JString? && r.fields["error"].text == message
  {
    JObject(map["error" := JString(message)])
  }

  /** The three `except` clauses, tried in order. */
  function Classify(e: Raised): (r: Response)
    ensures r.body.JObject? && r.body.fields.Keys == {"error"} && r.body.fields["error"].JString?
    ensures r.status == 404 <==> e.spreadsheetNotFound || e.worksheetNotFound
    ensures r.status != 404 ==> r.status == 500
    ensures e.spreadsheetNotFound ==> r.body.fields["error"].text == SheetMissingMessage
    ensures !e.spreadsheetNotFound && e.worksheetNotFound ==> r.body.fields["error"].text == WorksheetMissingMessage
    ensures r.status == 500 ==> r.body.fields["error"].text == UnexpectedPrefix + e.text
  {
    if e.spreadsheetNotFound then Response(404, ErrorBody(SheetMissingMessage))
    else if e.worksheetNotFound then Response(404, ErrorBody(WorksheetMissingMessage))
    else Response(500, ErrorBody(UnexpectedPrefix + e.text))
  }

  /** The two not-found replies share a status but can be told apart by
      their messages. */
  lemma ClassifyDistinguishes(a: Raised, b: Raised)
    requires a.spreadsheetNotFound && !b.spreadsheetNotFound && b.worksheetNotFound
    ensures Classify(a).status == Classify(b).status == 404
    ensures Classify(a).body != Classify(b).body
  {
    assert |SheetMissingMessage| != |WorksheetMissingMessage|;
  }

  /** `get_data`: the record list on success, the classified error otherwise. */
  method GetData(fetch: Fetch) returns (resp: Response)
    ensures fetch.Raises? ==> resp == Classify(fetch.error)
    ensures fetch.Rows? ==> resp.status == 200
    ensures fetch.Rows? ==> exists nodes: seq<Record> ::
      |nodes| == |fetch.rows| && (forall i :: 0 <= i < |nodes| ==> nodes[i] == NodeRecord(fetch.rows[i]))
      && resp.body == SuccessBody(nodes)
  {
    match fetch
    case Raises(e) =>
      resp := Classify(e);
    case Rows(rows) =>
      var nodes := MapRows(rows);
      resp := Response(200, SuccessBody(nodes));
  }
}
