/** The pure decisions of `src/main.py`: which ids a JSONL file yields,
    when a JSONL file counts as empty, and which template and RumbleDB path
    each id is templated with. The files are given as their lines, parsing
    a line is the parameter `parse`, and the template engine run on one id
    is the parameter `templating`. */
module Pipeline {
  import opened Wrappers
  import opened Seqs
  import opened Strings
  import opened Dicts
  import opened JsonValues

  const ToolsTemplate: string := "./template_tools.json"
  const DatasetsTemplate: string := "./template_datasets.json"
  const ToolsRdb: string := "/data/c3.jsonl"
  const DatasetsRdb: string := "/data/datasets.jsonl"

  // ---------------------------------------------------------------------
  // get_ids_from_jsonl

  /** `json_line[key]` when `key in json_line`, as a list of zero or one
      ids. A list or string that contains the key makes the lookup raise. */
  function Optional(j: Json, key: string): (r: Result<seq<Json>>)
    ensures j.Obj? ==> r.Ok? && (r.value == if key in Keys(j.fields) then [PyIndex(j, key).value] else [])
  {
    var has :- PyHas(j, key);
    if has then
      var v :- PyIndex(j, key);
      Ok([v])
    else Ok([])
  }

  /** The ids of one parsed line: `identifier`, then `ruc.identifier`,
      then `id`, each when present. */
  function LineIds(j: Json): (r: Result<seq<Json>>)
    ensures r.Ok? ==> |r.value| <= 3
  {
    var a :- Optional(j, "identifier");
    var hasRuc :- PyHas(j, "ruc");
    var b :- if hasRuc then
               var ruc :- PyIndex(j, "ruc");
               Optional(ruc, "identifier")
             else Ok([]);
    var c :- Optional(j, "id");
    Ok(a + b + c)
  }

  /** On a dict line, the ids are exactly the present ones, in the order
      `identifier`, `ruc.identifier`, `id`. */
  lemma LineIdsOfDict(fields: Fields)
    ensures var j := Obj(fields);
      var ruc := PyIndex(j, "ruc");
      var rucIds := if ruc.Ok? && ruc.value.Obj? then Optional(ruc.value, "identifier").value else [];
      (ruc.Err? || ruc.value.Obj? ==> LineIds(j).Ok?)
      && (LineIds(j).Ok? ==>
            LineIds(j).value ==
              (if "identifier" in Keys(fields) then [PyIndex(j, "identifier").value] else [])
              + rucIds
              + (if "id" in Keys(fields) then [PyIndex(j, "id").value] else []))
  {
  }

  /** `get_ids_from_jsonl` on the file's lines: the ids of every line in
      file order; the first line that does not parse or whose shape makes
      a lookup raise is the failure. */
  function GetIdsFromJsonl(lines: seq<string>, parse: string -> Result<Json>): Result<seq<Json>>
    decreases |lines|
  {
    if |lines| == 0 then Ok([])
    else
      var j :- parse(lines[0]);
      var ids :- LineIds(j);
      var rest :- GetIdsFromJsonl(lines[1..], parse);
      Ok(ids + rest)
  }

  /** Reading two files one after the other gives the ids of the first
      followed by those of the second; a failure in either is a failure. */
  lemma {:induction false} GetIdsAppend(a: seq<string>, b: seq<string>, parse: string -> Result<Json>)
    ensures GetIdsFromJsonl(a + b, parse).Ok? <==> GetIdsFromJsonl(a, parse).Ok? && GetIdsFromJsonl(b, parse).Ok?
    ensures GetIdsFromJsonl(a + b, parse).Ok? ==>
      GetIdsFromJsonl(a + b, parse).value == GetIdsFromJsonl(a, parse).value + GetIdsFromJsonl(b, parse).value
    decreases |a|
  {
    if |a| == 0 {
      assert a + b == b;
    } else {
      assert (a + b)[0] == a[0];
      assert (a + b)[1..] == a[1..] + b;
      GetIdsAppend(a[1..], b, parse);
    }
  }

  /** A file of one line yields that line's ids, between none and three. */
  lemma GetIdsSingle(line: string, parse: string -> Result<Json>)
    ensures GetIdsFromJsonl([line], parse).Ok? <==> parse(line).Ok? && LineIds(parse(line).value).Ok?
    ensures GetIdsFromJsonl([line], parse).Ok? ==>
      GetIdsFromJsonl([line], parse).value == LineIds(parse(line).value).value
      && |GetIdsFromJsonl([line], parse).value| <= 3
  {
    assert [line][1..] == [];
  }

  // ---------------------------------------------------------------------
  // is_empty

  /** `is_empty(file_path)`, with the file's lines or None when it is
      missing: it stops at the first line with non-whitespace text. */
  function IsEmpty(file: Option<seq<string>>): (r: bool)
    ensures r <==> file.None? || forall i :: 0 <= i < |file.value| ==> Strip(file.value[i]) == ""
  {
    file.None? || NoneMatch(file.value, HasText)
  }

  /** `line.strip()` is truthy. */
  function HasText(line: string): bool {
    Strip(line) != ""
  }

  // ---------------------------------------------------------------------
  // call_template

  /** The template for a type: the tools template exactly for `'tools'`. */
  function TemplatePath(templateType: string): (r: string)
    ensures r == ToolsTemplate <==> templateType == "tools"
    ensures r == DatasetsTemplate <==> templateType != "tools"
  {
    if templateType == "tools" then ToolsTemplate else DatasetsTemplate
  }

  /** The JSONL file RumbleDB reads for a type. */
  function RdbPath(templateType: string): (r: string)
    ensures r == ToolsRdb <==> templateType == "tools"
    ensures r == DatasetsRdb <==> templateType != "tools"
  {
    if templateType == "tools" then ToolsRdb else DatasetsRdb
  }

  /** One templating call. */
  datatype Invocation = Invocation(id: Json, templatePath: string, rdbPath: string)

  /** What a batch did: the calls made, in order, and the error of the
      last one when it failed. */
  datatype Outcome = Outcome(calls: seq<Invocation>, failure: Option<string>)

  /** The loop of `call_template` over the ids; `templating` returns the
      error of a failed call. */
  function TemplateAll(ids: seq<Json>, templateType: string, templating: Invocation -> Option<string>): (r: Outcome)
    ensures |r.calls| <= |ids|
    decreases |ids|
  {
    if |ids| == 0 then Outcome([], None)
    else
      var call := Invocation(ids[0], TemplatePath(templateType), RdbPath(templateType));
      match templating(call)
      case Some(e) => Outcome([call], Some(e))
      case None =>
        var rest := TemplateAll(ids[1..], templateType, templating);
        Outcome([call] + rest.calls, rest.failure)
  }

  /** `call_template(jsonl_file, template_type)`: an error reading the ids
      is an error; no ids means no calls. */
  function CallTemplate(lines: seq<string>, parse: string -> Result<Json>, templateType: string,
                        templating: Invocation -> Option<string>): (r: Result<Outcome>)
    ensures r.Ok? <==> GetIdsFromJsonl(lines, parse).Ok?
    ensures r.Ok? && GetIdsFromJsonl(lines, parse).value == [] ==> r.value == Outcome([], None)
  {
    var ids :- GetIdsFromJsonl(lines, parse);
    if |ids| == 0 then Ok(Outcome([], None))
    else Ok(TemplateAll(ids, templateType, templating))
  }

  /** The batch calls the template engine on the ids in order, all with
      the type's template and RumbleDB path. Without a failure it has made
      one call per id; with one, it stopped right at the failing call and
      every call before it succeeded. */
  lemma {:induction false} TemplateAllSpec(ids: seq<Json>, templateType: string, templating: Invocation -> Option<string>)
    ensures var r := TemplateAll(ids, templateType, templating);
      (forall i :: 0 <= i < |r.calls| ==>
         r.calls[i] == Invocation(ids[i], TemplatePath(templateType), RdbPath(templateType)))
      && (r.failure.None? ==> |r.calls| == |ids| && forall i :: 0 <= i < |r.calls| ==> templating(r.calls[i]).None?)
      && (r.failure.Some? ==>
            0 < |r.calls| && templating(r.calls[|r.calls| - 1]) == r.failure
            && forall i :: 0 <= i < |r.calls| - 1 ==> templating(r.calls[i]).None?)
    decreases |ids|
  {
    if |ids| > 0 {
      var call := Invocation(ids[0], TemplatePath(templateType), RdbPath(templateType));
      if templating(call).None? {
        TemplateAllSpec(ids[1..], templateType, templating);
        var rest := TemplateAll(ids[1..], templateType, templating);
        var calls := [call] + rest.calls;
        forall i | 1 <= i < |calls|
          ensures calls[i] == rest.calls[i - 1] && ids[i] == ids[1..][i - 1]
        {
        }
      }
    }
  }

  /** Which files the main script templates: none when both are empty,
      otherwise each non-empty one with its type. */
  function FilesToTemplate(c3Empty: bool, datasetsEmpty: bool): (r: seq<string>)
    ensures "tools" in r <==> !c3Empty
    ensures "datasets" in r <==> !datasetsEmpty
    ensures |r| <= 2 && (|r| == 2 ==> r[0] == "tools")
  {
    (if c3Empty then [] else ["tools"]) + (if datasetsEmpty then [] else ["datasets"])
  }

  // ---------------------------------------------------------------------
  // the duplicate report

  /** `len(ids) != len(set(ids))`; building the set raises on a list or
      dict id. */
  function HasDuplicates(ids: seq<Json>): (r: Result<bool>)
    ensures r.Ok? <==> forall i :: 0 <= i < |ids| ==> Hashable(ids[i])
  {
    if forall i :: 0 <= i < |ids| ==> Hashable(ids[i]) then Ok(|ids| != |Elems(ids)|)
    else Err("TypeError")
  }

  /** Duplicates are reported exactly when some id occurs twice. */
  lemma HasDuplicatesSpec(ids: seq<Json>)
    requires HasDuplicates(ids).Ok?
    ensures HasDuplicates(ids).value <==> exists i, j :: 0 <= i < j < |ids| && ids[i] == ids[j]
  {
    DistinctIffCard(ids);
  }
}
