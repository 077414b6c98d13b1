/** `src/rating.py`: the codemeta lines whose identifier the rating query
    returned or that a provider asked for, followed by every line with rich
    user content. Files are given as their lines, JSON parsing as `parse`,
    and the RumbleDB request as `post`. */
module Rating {
  import opened Wrappers
  import opened Seqs
  import opened Strings
  import opened JsonValues

  const RumbleDb: string := "http://rumbledb:8001/jsoniq"
  const CodemetaRdb: string := "/data/codemeta.jsonl"
  const Placeholder: string := "{JSONL}"

  /** The tools added by hand although their rating is too low. */
  const ToolsRequests: seq<Json> := [Str("mediasuite"), Str("lenticularlens"), Str("codemeta2html")]

  /** Parse every line of a file, stopping at the first that fails. */
  function ParseAll(lines: seq<string>, parse: string -> Result<Json>): (r: Result<seq<Json>>)
    ensures r.Ok? ==> |r.value| == |lines|
    decreases |lines|
  {
    if |lines| == 0 then Ok([])
    else
      var j :- parse(lines[0]);
      var rest :- ParseAll(lines[1..], parse);
      Ok([j] + rest)
  }

  // ---------------------------------------------------------------------
  // process_jsonlfile

  /** Whether one parsed line goes to the c3 lines and whether it goes to
      the rich-content lines. `c3_ids['values']` is looked up only for a
      line with an identifier. */
  function Classify(codemeta: Json, c3Ids: Json, requests: seq<Json>): Result<(bool, bool)> {
    var hasId :- PyHas(codemeta, "identifier");
    var inC3 :- if hasId then
                  var id :- PyIndex(codemeta, "identifier");
                  var values :- PyIndex(c3Ids, "values");
                  var rated :- PyIn(id, values);
                  Ok(rated || id in requests)
                else Ok(false);
    var hasRuc :- PyHas(codemeta, "ruc");
    Ok((inC3, hasRuc))
  }

  /** The line has an identifier that is among the rated ids or the
      requested tools. */
  predicate Selected(codemeta: Json, c3Ids: Json, requests: seq<Json>) {
    var c := Classify(codemeta, c3Ids, requests);
    c.Ok? && c.value.0
  }

  /** `Selected` as a function value. */
  function SelectedBy(c3Ids: Json, requests: seq<Json>): Json -> bool {
    cm => Selected(cm, c3Ids, requests)
  }

  /** The line has rich user content. */
  predicate HasRuc(codemeta: Json) {
    PyHas(codemeta, "ruc") == Ok(true)
  }

  /** `process_jsonlfile(input_file_path, c3_ids, tools_requests)`. */
  function ProcessJsonl(lines: seq<string>, parse: string -> Result<Json>, c3Ids: Json, requests: seq<Json>)
    : Result<(seq<Json>, seq<Json>)>
    decreases |lines|
  {
    if |lines| == 0 then Ok(([], []))
    else
      var codemeta :- parse(lines[0]);
      var c :- Classify(codemeta, c3Ids, requests);
      var rest :- ProcessJsonl(lines[1..], parse, c3Ids, requests);
      Ok(((if c.0 then [codemeta] else []) + rest.0, (if c.1 then [codemeta] else []) + rest.1))
  }

  /** On success every line parsed, the c3 lines are exactly the selected
      lines and the rich-content lines exactly those with a `ruc` key, each
      in file order; the two choices are independent. */
  lemma {:induction false} ProcessJsonlSpec(lines: seq<string>, parse: string -> Result<Json>, c3Ids: Json, requests: seq<Json>)
    requires ProcessJsonl(lines, parse, c3Ids, requests).Ok?
    ensures ParseAll(lines, parse).Ok?
    ensures var r := ProcessJsonl(lines, parse, c3Ids, requests).value;
      var parsed := ParseAll(lines, parse).value;
      r.0 == Filter(parsed, SelectedBy(c3Ids, requests))
      && r.1 == Filter(parsed, HasRuc)
    decreases |lines|
  {
    if |lines| > 0 {
      ProcessJsonlSpec(lines[1..], parse, c3Ids, requests);
      var parsed := ParseAll(lines, parse).value;
      var cm := parse(lines[0]).value;
      var c := Classify(cm, c3Ids, requests).value;
      var rest := ProcessJsonl(lines[1..], parse, c3Ids, requests).value;
      assert parsed == [cm] + ParseAll(lines[1..], parse).value;
      assert parsed[0] == cm && parsed[1..] == ParseAll(lines[1..], parse).value;
      assert SelectedBy(c3Ids, requests)(cm) == c.0;
      assert HasRuc(cm) == c.1;
    }
  }

  /** Both outputs keep the file order and hold each line at most as often
      as the file does. */
  lemma ProcessJsonlOrder(lines: seq<string>, parse: string -> Result<Json>, c3Ids: Json, requests: seq<Json>)
    requires ProcessJsonl(lines, parse, c3Ids, requests).Ok?
    ensures ParseAll(lines, parse).Ok?
    ensures var r := ProcessJsonl(lines, parse, c3Ids, requests).value;
      Subseq(r.0, ParseAll(lines, parse).value) && Subseq(r.1, ParseAll(lines, parse).value)
  {
    ProcessJsonlSpec(lines, parse, c3Ids, requests);
    var parsed := ParseAll(lines, parse).value;
    FilterSubseq(parsed, SelectedBy(c3Ids, requests));
    FilterSubseq(parsed, HasRuc);
  }

  /** A dict line with a string identifier is selected exactly when the
      identifier is among the rated `values` list or the requests. */
  lemma SelectedDict(fields: Fields, id: string, values: seq<Json>, requests: seq<Json>, c3Fields: Fields)
    requires PyIndex(Obj(fields), "identifier") == Ok(Str(id))
    requires PyIndex(Obj(c3Fields), "values") == Ok(Arr(values))
    ensures Selected(Obj(fields), Obj(c3Fields), requests) <==> Str(id) in values || Str(id) in requests
  {
    var cm := Obj(fields);
    assert PyHas(cm, "identifier") == Ok(true);
    assert PyIn(Str(id), Arr(values)) == Ok(Str(id) in values);
    var hasRuc := PyHas(cm, "ruc");
    assert hasRuc.Ok?;
    assert Classify(cm, Obj(c3Fields), requests) == Ok((Str(id) in values || Str(id) in requests, hasRuc.value));
  }

  // ---------------------------------------------------------------------
  // get_ruc_ids and the identifiers of main

  /** `item['ruc']['identifier']` of every item. */
  function RucIdentifiers(items: seq<Json>): (r: Result<seq<Json>>)
    ensures r.Ok? ==> |r.value| == |items|
    decreases |items|
  {
    if |items| == 0 then Ok([])
    else
      var ruc :- PyIndex(items[0], "ruc");
      var id :- PyIndex(ruc, "identifier");
      var rest :- RucIdentifiers(items[1..]);
      Ok([id] + rest)
  }

  /** The identifier one line contributes to `get_ruc_ids`. */
  function RucIdOf(data: Json): Result<seq<Json>> {
    var has :- PyHas(data, "ruc");
    if has then
      var ruc :- PyIndex(data, "ruc");
      var id :- PyIndex(ruc, "identifier");
      Ok([id])
    else Ok([])
  }

  /** `get_ruc_ids(jsonl_file)`. */
  function GetRucIds(lines: seq<string>, parse: string -> Result<Json>): Result<seq<Json>>
    decreases |lines|
  {
    if |lines| == 0 then Ok([])
    else
      var data :- parse(lines[0]);
      var ids :- RucIdOf(data);
      var rest :- GetRucIds(lines[1..], parse);
      Ok(ids + rest)
  }

  lemma RucIdOfFilter(data: Json, rest: seq<Json>)
    requires RucIdOf(data).Ok?
    requires RucIdentifiers(Filter(rest, HasRuc)).Ok?
    ensures RucIdentifiers(Filter([data] + rest, HasRuc)) == Ok(RucIdOf(data).value + RucIdentifiers(Filter(rest, HasRuc)).value)
  {
    var s := [data] + rest;
    assert s[0] == data && s[1..] == rest;
    var g := Filter(rest, HasRuc);
    if HasRuc(data) {
      var ruc := PyIndex(data, "ruc").value;
      var id := PyIndex(ruc, "identifier").value;
      assert RucIdOf(data) == Ok([id]);
      RucIdentifiersCons(data, g);
      assert Filter(s, HasRuc) == [data] + g;
      assert RucIdentifiers(Filter(s, HasRuc)) == Ok([id] + RucIdentifiers(g).value);
    } else {
      assert PyHas(data, "ruc") == Ok(false);
      assert RucIdOf(data) == Ok([]);
      assert Filter(s, HasRuc) == g;
      assert RucIdentifiers(Filter(s, HasRuc)) == RucIdentifiers(g);
      assert [] + RucIdentifiers(g).value == RucIdentifiers(g).value;
    }
  }

  lemma RucIdentifiersCons(item: Json, rest: seq<Json>)
    requires PyIndex(item, "ruc").Ok? && PyIndex(PyIndex(item, "ruc").value, "identifier").Ok?
    requires RucIdentifiers(rest).Ok?
    ensures RucIdentifiers([item] + rest) == Ok([PyIndex(PyIndex(item, "ruc").value, "identifier").value] + RucIdentifiers(rest).value)
  {
    assert ([item] + rest)[0] == item && ([item] + rest)[1..] == rest;
  }

  /** `get_ruc_ids` yields the rich-content identifier of every line with a
      `ruc` key, in file order. */
  lemma {:induction false} GetRucIdsSpec(lines: seq<string>, parse: string -> Result<Json>)
    requires GetRucIds(lines, parse).Ok?
    ensures ParseAll(lines, parse).Ok?
    ensures RucIdentifiers(Filter(ParseAll(lines, parse).value, HasRuc)) == GetRucIds(lines, parse)
    decreases |lines|
  {
    if |lines| > 0 {
      GetRucIdsSpec(lines[1..], parse);
      var data := parse(lines[0]).value;
      var rest := ParseAll(lines[1..], parse).value;
      assert ParseAll(lines, parse).value == [data] + rest;
      RucIdOfFilter(data, rest);
    }
  }

  // ---------------------------------------------------------------------
  // query_rumbledb

  /** The query text with every `{JSONL}` replaced by the file path. */
  function QueryText(query: string, jsonlFile: string): string {
    Replace(query, Placeholder, jsonlFile)
  }

  /** With a path that starts with neither `{` nor another character of
      the placeholder's opening, no placeholder remains; a query without
      the placeholder is sent as it is. */
  lemma QueryTextSpec(query: string, jsonlFile: string)
    ensures |jsonlFile| > 0 && '{' !in jsonlFile && jsonlFile[0] !in Placeholder ==>
      !Contains(QueryText(query, jsonlFile), Placeholder)
    ensures !Contains(query, Placeholder) ==> QueryText(query, jsonlFile) == query
  {
    if |jsonlFile| > 0 && '{' !in jsonlFile && jsonlFile[0] !in Placeholder {
      ReplaceRemoves(query, Placeholder, jsonlFile);
    }
    if !Contains(query, Placeholder) {
      ReplaceAbsent(query, Placeholder, jsonlFile);
    }
  }

  /** The codemeta path the rating query reads leaves no placeholder. */
  lemma RatingQuerySubstituted(query: string)
    ensures !Contains(QueryText(query, CodemetaRdb), Placeholder)
  {
    QueryTextSpec(query, CodemetaRdb);
  }

  /** RumbleDB's answer: status code and body. */
  datatype Response = Response(status: int, text: string)

  /** `query_rumbledb(query_file, jsonl_file)`, with the query file's text
      and the POST of a query text to RumbleDB as parameters. */
  function QueryRumbledb(query: string, jsonlFile: string, post: string -> Response,
                         parse: string -> Result<Json>): (r: Result<Json>)
    ensures post(QueryText(query, jsonlFile)).status != 200 ==> r.Err?
    ensures post(QueryText(query, jsonlFile)).status == 200 ==> r == parse(post(QueryText(query, jsonlFile)).text)
  {
    var response := post(QueryText(query, jsonlFile));
    if response.status != 200 then Err("AssertionError") else parse(response.text)
  }

  // ---------------------------------------------------------------------
  // main

  /** The lines `main` writes to `c3.jsonl`: the c3 lines followed by the
      rich-content lines. */
  function RatingMain(query: string, codemetaLines: seq<string>, post: string -> Response,
                      parse: string -> Result<Json>): (r: Result<seq<Json>>)
    ensures r.Ok? ==>
      var c3Ids := QueryRumbledb(query, CodemetaRdb, post, parse);
      c3Ids.Ok? && ProcessJsonl(codemetaLines, parse, c3Ids.value, ToolsRequests).Ok?
      && r.value == ProcessJsonl(codemetaLines, parse, c3Ids.value, ToolsRequests).value.0
                    + ProcessJsonl(codemetaLines, parse, c3Ids.value, ToolsRequests).value.1
  {
    var c3Ids :- QueryRumbledb(query, CodemetaRdb, post, parse);
    var lines :- ProcessJsonl(codemetaLines, parse, c3Ids, ToolsRequests);
    var _ :- RucIdentifiers(lines.1);
    Ok(lines.0 + lines.1)
  }

  /** What `main` writes: every selected line, then every rich-content
      line, a line that is both appearing in both parts. */
  lemma RatingMainSpec(query: string, codemetaLines: seq<string>, post: string -> Response,
                       parse: string -> Result<Json>)
    requires RatingMain(query, codemetaLines, post, parse).Ok?
    ensures var c3Ids := QueryRumbledb(query, CodemetaRdb, post, parse).value;
      var parsed := ParseAll(codemetaLines, parse);
      parsed.Ok?
      && RatingMain(query, codemetaLines, post, parse).value ==
           Filter(parsed.value, SelectedBy(c3Ids, ToolsRequests)) + Filter(parsed.value, HasRuc)
  {
    var c3Ids := QueryRumbledb(query, CodemetaRdb, post, parse).value;
    ProcessJsonlSpec(codemetaLines, parse, c3Ids, ToolsRequests);
  }
}
