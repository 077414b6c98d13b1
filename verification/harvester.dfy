/** The bookkeeping helpers of `src/harvester.py`: the change-list
    comparison, the ids taken from file names and records, the MD5 change
    decision of `process_list`, and the per-document rewrite of
    `store_solr_response`. Hashing, reading files and the SQLite table are
    parameters or left out. */
module Harvester {
  import opened Wrappers
  import opened Seqs
  import opened Strings
  import opened Dicts
  import opened Paths
  import opened JsonValues
  import opened Utils
  import RichContent

  const TitleLimit: int := 67
  const DescriptionLimit: int := 297
  const MoreCharacters: string := "..."
  const IdLimit: int := 128

  // ---------------------------------------------------------------------
  // compare_lists

  /** `[x.split("/")[-1] for x in l]`. */
  function Basenames(l: seq<string>): (r: seq<string>)
    ensures |r| == |l|
  {
    seq(|l|, i requires 0 <= i < |l| => Last(Split(l[i], '/')))
  }

  lemma BasenamesAreBasenames(l: seq<string>, i: nat)
    requires i < |l|
    ensures Basenames(l)[i] == Basename(l[i])
  {
    BasenameIsLastPiece(l[i]);
  }

  /** `list(set(a) - set(b))`, listed in order of first occurrence in `a`
      (Python leaves the order to the set's hashing). */
  function Minus(a: seq<string>, b: seq<string>): (r: seq<string>)
    ensures Distinct(r)
    ensures forall x :: x in r <==> x in a && x !in b
    decreases |a|
  {
    if |a| == 0 then []
    else
      var r := Minus(a[..|a| - 1], b);
      var x := a[|a| - 1];
      assert a == a[..|a| - 1] + [x];
      if x in b || x in r then r else r + [x]
  }

  function OrEmpty(l: Option<seq<string>>): seq<string> {
    if l.Some? then l.value else []
  }

  /** `compare_lists(list1, list2)`: the basenames only in the first list,
      then those only in the second; a missing list counts as empty. */
  function CompareLists(list1: Option<seq<string>>, list2: Option<seq<string>>): (r: seq<string>) {
    var b1 := Basenames(OrEmpty(list1));
    var b2 := Basenames(OrEmpty(list2));
    Minus(b1, b2) + Minus(b2, b1)
  }

  /** The result is the symmetric difference of the two basename sets,
      without repetitions, with every name only in the first list before
      every name only in the second. */
  lemma CompareListsSymmetricDifference(list1: Option<seq<string>>, list2: Option<seq<string>>)
    ensures var b1 := Basenames(OrEmpty(list1));
      var b2 := Basenames(OrEmpty(list2));
      var r := CompareLists(list1, list2);
      Distinct(r)
      && (forall x :: x in r <==> (x in b1 <==> x !in b2))
      && (forall i, j :: 0 <= i < |r| && 0 <= j < |r| && r[i] in b1 && r[j] !in b1 ==> i < j)
  {
    var b1 := Basenames(OrEmpty(list1));
    var b2 := Basenames(OrEmpty(list2));
    var p := Minus(b1, b2);
    var q := Minus(b2, b1);
    AppendDistinct(p, q);
    AppendSeparates(p, q, b1);
  }

  /** A missing list behaves like an empty one. */
  lemma CompareListsNone(list: Option<seq<string>>)
    ensures CompareLists(None, list) == CompareLists(Some([]), list)
    ensures CompareLists(list, None) == CompareLists(list, Some([]))
  {
  }

  // ---------------------------------------------------------------------
  // ids from names and records

  /** `get_id_from_ruc_file_name`: the basename up to its first dot. */
  function RucIdFromFileName(name: string): string {
    Split(Last(Split(name, '/')), '.')[0]
  }

  lemma RucIdFromFileNameSpec(name: string)
    ensures var b := Basename(name);
      var r := RucIdFromFileName(name);
      StartsWith(b, r) && '.' !in r && (|r| == |b| || b[|r|] == '.')
  {
    BasenameIsLastPiece(name);
    SplitHead(Basename(name), '.');
  }

  /** `get_id_from_change_list`: the part before the first dot of every
      `.json` name, in list order. */
  function IdsFromChangeList(names: seq<string>): (r: seq<string>)
    ensures |r| <= |names|
    ensures forall i :: 0 <= i < |r| ==> '.' !in r[i]
    decreases |names|
  {
    if |names| == 0 then []
    else
      var rest := IdsFromChangeList(names[1..]);
      if EndsWith(names[0], ".json") then [Split(names[0], '.')[0]] + rest else rest
  }

  /** The ids of a concatenation are the ids of each part, in order, and a
      single name contributes its stem exactly when it ends in `.json`. */
  lemma {:induction false} IdsFromChangeListAppend(a: seq<string>, b: seq<string>)
    ensures IdsFromChangeList(a + b) == IdsFromChangeList(a) + IdsFromChangeList(b)
    ensures |a| == 1 ==> IdsFromChangeList(a) == (if EndsWith(a[0], ".json") then [Split(a[0], '.')[0]] else [])
    decreases |a|
  {
    if |a| > 0 {
      assert (a + b)[1..] == a[1..] + b;
      IdsFromChangeListAppend(a[1..], b);
    } else {
      assert a + b == b;
    }
  }

  /** Every `.json` name yields its stem: a prefix that ends where the
      first dot is. */
  lemma IdFromChangeListName(x: string)
    requires EndsWith(x, ".json")
    ensures var id := Split(x, '.')[0];
      StartsWith(x, id) && |id| < |x| && x[|id|] == '.'
  {
    SplitHead(x, '.');
    var id := Split(x, '.')[0];
    assert x[|x| - 5] == '.';
    assert |id| < |x|;
  }

  /** `get_id_from_field` on the parsed record:
      `data.get('identifier', data.get('id', None))`, raising when that is
      None. A present but null `identifier` is not replaced by `id`. */
  function IdFromField(data: Json): (r: Result<Json>)
    ensures r.Ok? ==> r.value != Null && data.Obj?
    ensures data.Obj? && "identifier" in Keys(data.fields) ==>
      r == (if Get(data.fields, "identifier").value.Null? then Err("Exception") else Ok(Get(data.fields, "identifier").value))
    ensures data.Obj? && "identifier" !in Keys(data.fields) && "id" in Keys(data.fields) ==>
      r == (if Get(data.fields, "id").value.Null? then Err("Exception") else Ok(Get(data.fields, "id").value))
    ensures data.Obj? && "identifier" !in Keys(data.fields) && "id" !in Keys(data.fields) ==> r.Err?
  {
    if !data.Obj? then Err("AttributeError")
    else
      var fallback := Get(data.fields, "id").GetOr(Null);
      var result := Get(data.fields, "identifier").GetOr(fallback);
      if result.Null? then Err("Exception") else Ok(result)
  }

  // ---------------------------------------------------------------------
  // process_list

  /** One row of the change-tracking table. */
  datatype Row = Row(file: string, md5: string, timestamp: string)

  /** The path `process_list` works on: the folder and the listed name,
      joined and normalised. */
  function ListedPath(folder: string, name: string): string {
    Normpath(PathJoin(folder, name))
  }

  function ListedPaths(folder: string, names: seq<string>): (r: seq<string>)
    ensures |r| == |names| && forall i :: 0 <= i < |names| ==> r[i] == ListedPath(folder, names[i])
  {
    seq(|names|, i requires 0 <= i < |names| => ListedPath(folder, names[i]))
  }

  /** A file counts as changed when no previous hash is recorded for it or
      the recorded hash differs. */
  predicate Changed(path: string, hash: string, previous: Option<Dict<string, string>>) {
    previous.None? || Get(previous.value, path) != Some(hash)
  }

  /** The ids `process_list` appends, in list order: one per changed file;
      the first changed file without an id is the failure. */
  function ChangedIds(paths: seq<string>, md5: string -> string, previous: Option<Dict<string, string>>,
                      load: string -> Json): Result<seq<Json>>
    decreases |paths|
  {
    if |paths| == 0 then Ok([])
    else
      var before :- ChangedIds(paths[..|paths| - 1], md5, previous, load);
      var p := paths[|paths| - 1];
      if Changed(p, md5(p), previous) then
        var id :- IdFromField(load(p));
        Ok(before + [id])
      else Ok(before)
  }

  /** The listed paths that count as changed, in list order. */
  function ChangedPaths(paths: seq<string>, md5: string -> string, previous: Option<Dict<string, string>>): (r: seq<string>)
    ensures |r| <= |paths|
    ensures forall p :: p in r <==> p in paths && Changed(p, md5(p), previous)
    decreases |paths|
  {
    if |paths| == 0 then []
    else
      var p := paths[|paths| - 1];
      assert paths == paths[..|paths| - 1] + [p];
      ChangedPaths(paths[..|paths| - 1], md5, previous) + (if Changed(p, md5(p), previous) then [p] else [])
  }

  /** `get_id_from_field` applied to the record stored at a path. */
  function IdOf(load: string -> Json): string -> Result<Json> {
    p => IdFromField(load(p))
  }

  /** `ChangedIds` is the id of each changed path, in order, and fails
      exactly with the error of the first changed path that has no id. */
  lemma {:induction false} ChangedIdsSpec(paths: seq<string>, md5: string -> string,
                                          previous: Option<Dict<string, string>>, load: string -> Json)
    ensures ChangedIds(paths, md5, previous, load) == MapResult(ChangedPaths(paths, md5, previous), IdOf(load))
    decreases |paths|
  {
    if |paths| > 0 {
      var init := paths[..|paths| - 1];
      var p := paths[|paths| - 1];
      ChangedIdsSpec(init, md5, previous, load);
      if Changed(p, md5(p), previous) {
        MapResultSnoc(ChangedPaths(init, md5, previous), p, IdOf(load));
      } else {
        assert ChangedPaths(paths, md5, previous) == ChangedPaths(init, md5, previous) + [];
        assert ChangedPaths(init, md5, previous) + [] == ChangedPaths(init, md5, previous);
      }
    }
  }

  /** Hence `process_list` succeeds exactly when every changed path has an
      id, and then appends one id per changed path. */
  lemma ChangedIdsOk(paths: seq<string>, md5: string -> string, previous: Option<Dict<string, string>>, load: string -> Json)
    ensures var changed := ChangedPaths(paths, md5, previous);
      ChangedIds(paths, md5, previous, load).Ok? <==> forall i :: 0 <= i < |changed| ==> IdFromField(load(changed[i])).Ok?
    ensures var changed := ChangedPaths(paths, md5, previous);
      ChangedIds(paths, md5, previous, load).Ok? ==>
        var ids := ChangedIds(paths, md5, previous, load).value;
        |ids| == |changed| && forall i :: 0 <= i < |changed| ==> IdFromField(load(changed[i])) == Ok(ids[i])
  {
    ChangedIdsSpec(paths, md5, previous, load);
  }

  /** What `process_list` leaves behind: the caller's `ids` list with the
      appended ids, the rows committed to the change-tracking table, and
      the error that ended the loop early, if any. The rows and ids of the
      files before a failure stay committed and appended. */
  datatype Processed = Processed(ids: seq<Json>, rows: seq<Row>, error: Option<string>)

  /** The rows `process_list` commits for `paths`, one per path with its
      current hash, in order. */
  function Rows(paths: seq<string>, md5: string -> string, timestamp: string): (r: seq<Row>)
    ensures |r| == |paths| && forall i :: 0 <= i < |paths| ==> r[i] == Row(paths[i], md5(paths[i]), timestamp)
  {
    seq(|paths|, i requires 0 <= i < |paths| => Row(paths[i], md5(paths[i]), timestamp))
  }

  /** `process_list`: each listed file gets a row with its current hash;
      the id of every changed file is appended to `ids`, and a changed file
      without an id raises before its own row is inserted, leaving the rows
      and ids of the files before it in place. Hashing and loading are
      parameters. */
  method ProcessList(ids: seq<Json>, folder: string, diff: seq<string>, timestamp: string,
                     previous: Option<Dict<string, string>>, md5: string -> string, load: string -> Json)
    returns (r: Processed)
    ensures var paths := ListedPaths(folder, diff);
      |r.rows| <= |diff| && r.rows == Rows(paths[..|r.rows|], md5, timestamp)
    ensures var paths := ListedPaths(folder, diff);
      r.error.None? <==> ChangedIds(paths, md5, previous, load).Ok?
    ensures var paths := ListedPaths(folder, diff);
      r.error.None? ==> r.ids == ids + ChangedIds(paths, md5, previous, load).value && |r.rows| == |diff|
    ensures var paths := ListedPaths(folder, diff);
      r.error.Some? ==>
        var k := |r.rows|;
        k < |diff|
        && ChangedIds(paths[..k], md5, previous, load).Ok?
        && r.ids == ids + ChangedIds(paths[..k], md5, previous, load).value
        && Changed(paths[k], md5(paths[k]), previous) && IdFromField(load(paths[k])) == Err(r.error.value)
  {
    var paths := ListedPaths(folder, diff);
    var added: seq<Json> := [];
    var k := 0;
    while k < |paths|
      invariant 0 <= k <= |paths|
      invariant ChangedIds(paths[..k], md5, previous, load) == Ok(added)
    {
      var file := paths[k];
      var hash := md5(file);
      ChangedIdsStep(paths, k, md5, previous, load, added);
      if Changed(file, hash, previous) {
        var id := IdFromField(load(file));
        if id.Err? {
          ChangedIdsPrefixErr(paths, k + 1, md5, previous, load);
          return Processed(ids + added, Rows(paths[..k], md5, timestamp), Some(id.error));
        }
        added := added + [id.value];
      }
      k := k + 1;
    }
    assert paths[..k] == paths;
    return Processed(ids + added, Rows(paths, md5, timestamp), None);
  }

  lemma ChangedIdsStep(paths: seq<string>, k: nat, md5: string -> string, previous: Option<Dict<string, string>>,
                       load: string -> Json, before: seq<Json>)
    requires k < |paths| && ChangedIds(paths[..k], md5, previous, load) == Ok(before)
    ensures var p := paths[k];
      ChangedIds(paths[..k + 1], md5, previous, load) ==
        if !Changed(p, md5(p), previous) then Ok(before)
        else if IdFromField(load(p)).Err? then Err(IdFromField(load(p)).error)
        else Ok(before + [IdFromField(load(p)).value])
  {
    assert paths[..k + 1][..k] == paths[..k];
  }

  /** A failure in a prefix is a failure of the whole list. */
  lemma {:induction false} ChangedIdsPrefixErr(paths: seq<string>, k: nat, md5: string -> string,
                                               previous: Option<Dict<string, string>>, load: string -> Json)
    requires k <= |paths|
    requires ChangedIds(paths[..k], md5, previous, load).Err?
    ensures ChangedIds(paths, md5, previous, load).Err?
    decreases |paths|
  {
    if k < |paths| {
      var init := paths[..|paths| - 1];
      assert init[..k] == paths[..k];
      ChangedIdsPrefixErr(init, k, md5, previous, load);
    } else {
      assert paths[..k] == paths;
    }
  }

  /** With no previous batch every file counts as changed; a file whose
      hash matches the previous batch contributes no id. */
  lemma ChangedIdsCases(path: string, md5: string -> string, previous: Option<Dict<string, string>>, load: string -> Json)
    ensures previous.None? && IdFromField(load(path)).Ok? ==> ChangedIds([path], md5, previous, load) == Ok([IdFromField(load(path)).value])
    ensures previous.None? && IdFromField(load(path)).Err? ==> ChangedIds([path], md5, previous, load).Err?
    ensures previous.Some? && Get(previous.value, path) == Some(md5(path)) ==> ChangedIds([path], md5, previous, load) == Ok([])
  {
    assert [path][..0] == [];
    assert ChangedIds([path][..0], md5, previous, load) == Ok([]);
    assert [path][0] == path;
    if previous.None? && IdFromField(load(path)).Ok? {
      assert [] + [IdFromField(load(path)).value] == [IdFromField(load(path)).value];
    }
  }

  // ---------------------------------------------------------------------
  // store_solr_response, per document

  /** `current_id[:id_limit]`: ids longer than the limit keep their first
      `limit` characters. */
  function TruncateIdPrefix(id: string, limit: int): (r: string)
    ensures limit >= 0 ==> |r| <= limit
    ensures StartsWith(id, r)
    ensures |id| <= limit ==> r == id
    ensures limit >= 0 && |id| > limit ==> |r| == limit
  {
    if |id| > limit then SliceTo(id, limit) else id
  }

  /** `[remove_html_tags(elem) for elem in description]`; every element
      must be a string. */
  function CleanDescriptions(items: seq<Json>): (r: Result<seq<Json>>)
    ensures r.Ok? <==> forall i :: 0 <= i < |items| ==> items[i].Str?
    ensures r.Ok? ==> (|r.value| == |items|
      && forall i :: 0 <= i < |items| ==> r.value[i] == Str(RemoveHtmlTags(items[i].s)))
  {
    if forall i :: 0 <= i < |items| ==> items[i].Str? then
      Ok(seq(|items|, i requires 0 <= i < |items| => Str(RemoveHtmlTags(items[i].s))))
    else Err("TypeError")
  }

  /** `[shorten_text(elem) for elem in description]` on a list of strings:
      it cannot fail. */
  function ShortDescriptions(items: seq<Json>, plain: string -> string): (r: seq<Json>)
    ensures |r| == |items|
    ensures forall i :: 0 <= i < |items| && items[i].Str? ==>
      r[i] == Str(ShortenText(items[i].s, DescriptionLimit, MoreCharacters, plain))
  {
    seq(|items|, i requires 0 <= i < |items| =>
      if items[i].Str? then Str(ShortenText(items[i].s, DescriptionLimit, MoreCharacters, plain)) else items[i])
  }

  lemma ShortenStrings(items: seq<Json>, plain: string -> string)
    requires forall i :: 0 <= i < |items| ==> items[i].Str?
    ensures ShortenListOrString(Arr(items), DescriptionLimit, MoreCharacters, plain) == Ok(Arr(ShortDescriptions(items, plain)))
  {
    var r := ShortenListOrString(Arr(items), DescriptionLimit, MoreCharacters, plain);
    assert r.Ok?;
    assert r.value.items == ShortDescriptions(items, plain);
  }

  /** The field rewrite of `store_solr_response`: the description cleaned
      of tags, then the name shortened, then the cleaned description
      shortened. */
  function RewriteFields(fields: Fields, plain: string -> string): (r: Result<Fields>)
    ensures r.Ok? ==> Get(r.value, "id") == Get(fields, "id")
  {
    var items :- PyIter(Get(fields, "description").GetOr(Arr([])));
    var cleaned :- CleanDescriptions(items);
    var f1 := Set(fields, "description", Arr(cleaned));
    var shortName :- ShortenListOrString(Get(f1, "name").GetOr(Str("")), TitleLimit, MoreCharacters, plain);
    var f2 := Set(f1, "name", shortName);
    // the description is now a list of strings, which always shortens
    ShortenStrings(cleaned, plain);
    var shortDesc := ShortenListOrString(Arr(cleaned), DescriptionLimit, MoreCharacters, plain).value;
    Ok(Set(f2, "description", shortDesc))
  }

  /** The loop body of `store_solr_response`: the description is cleaned of
      tags, name and description are shortened, and the document is
      written under its id, truncated to 128 characters. A missing or null
      id raises. Returns the file name and the rewritten document. */
  function StoreSolrDoc(doc: Json, dir: string, plain: string -> string): (r: Result<(string, Json)>)
    ensures r.Ok? ==> doc.Obj? && r.value.1.Obj? && RewriteFields(doc.fields, plain) == Ok(r.value.1.fields)
    ensures r.Ok? ==> (Get(doc.fields, "id").Some? && Get(doc.fields, "id").value.Str?
      && r.value.0 == PathJoin(dir, TruncateIdPrefix(Get(doc.fields, "id").value.s, IdLimit) + ".json"))
  {
    if !doc.Obj? then Err("AttributeError")
    else
      var fields :- RewriteFields(doc.fields, plain);
      var id := Get(fields, "id").GetOr(Null);
      if id.Null? then Err("Exception")
      else if !id.Str? then Err("NotModelled")
      else Ok((PathJoin(dir, TruncateIdPrefix(id.s, IdLimit) + ".json"), Obj(fields)))
  }

  /** The description cleaned of tags and then shortened, item by item. */
  function CleanShortDescriptions(items: seq<Json>, plain: string -> string): (r: seq<Json>)
    ensures |r| == |items|
  {
    seq(|items|, i requires 0 <= i < |items| =>
      if items[i].Str? then Str(ShortenText(RemoveHtmlTags(items[i].s), DescriptionLimit, MoreCharacters, plain)) else items[i])
  }

  lemma CleanThenShorten(items: seq<Json>, plain: string -> string)
    requires CleanDescriptions(items).Ok?
    ensures ShortDescriptions(CleanDescriptions(items).value, plain) == CleanShortDescriptions(items, plain)
  {
    var cleaned := CleanDescriptions(items).value;
    forall i | 0 <= i < |items|
      ensures ShortDescriptions(cleaned, plain)[i] == CleanShortDescriptions(items, plain)[i]
    {
      assert cleaned[i] == Str(RemoveHtmlTags(items[i].s));
    }
  }

  /** One unfolding of the rewrite. */
  lemma RewriteFieldsSteps(fields: Fields, plain: string -> string)
    requires RewriteFields(fields, plain).Ok?
    ensures var items := PyIter(Get(fields, "description").GetOr(Arr([])));
      items.Ok? && CleanDescriptions(items.value).Ok?
      && var cleaned := CleanDescriptions(items.value).value;
      var f1 := Set(fields, "description", Arr(cleaned));
      var name := ShortenListOrString(Get(f1, "name").GetOr(Str("")), TitleLimit, MoreCharacters, plain);
      name.Ok?
      && RewriteFields(fields, plain).value == Set(Set(f1, "name", name.value), "description", Arr(ShortDescriptions(cleaned, plain)))
  {
    var items := PyIter(Get(fields, "description").GetOr(Arr([]))).value;
    ShortenStrings(CleanDescriptions(items).value, plain);
  }

  /** The rewritten fields have every description cleaned of tags and then
      shortened, and the name shortened; the id is left as it was. */
  lemma RewriteFieldsSpec(fields: Fields, plain: string -> string)
    requires RewriteFields(fields, plain).Ok?
    ensures var out := RewriteFields(fields, plain).value;
      var items := PyIter(Get(fields, "description").GetOr(Arr([])));
      var name := ShortenListOrString(Get(fields, "name").GetOr(Str("")), TitleLimit, MoreCharacters, plain);
      items.Ok? && (forall i :: 0 <= i < |items.value| ==> items.value[i].Str?)
      && Get(out, "description") == Some(Arr(CleanShortDescriptions(items.value, plain)))
      && name.Ok? && Get(out, "name") == Some(name.value)
  {
    RewriteFieldsSteps(fields, plain);
    var items := PyIter(Get(fields, "description").GetOr(Arr([]))).value;
    CleanThenShorten(items, plain);
    var cleaned := CleanDescriptions(items).value;
    var f1 := Set(fields, "description", Arr(cleaned));
    assert Get(f1, "name") == Get(fields, "name");
  }

  /** The stored document has every description cleaned of tags and then
      shortened, and its name shortened; the id field is left as it was. */
  lemma StoreSolrDocFields(doc: Json, dir: string, plain: string -> string)
    requires StoreSolrDoc(doc, dir, plain).Ok?
    ensures var out := StoreSolrDoc(doc, dir, plain).value.1;
      var items := PyIter(Get(doc.fields, "description").GetOr(Arr([])));
      var name := ShortenListOrString(Get(doc.fields, "name").GetOr(Str("")), TitleLimit, MoreCharacters, plain);
      items.Ok? && (forall i :: 0 <= i < |items.value| ==> items.value[i].Str?)
      && Get(out.fields, "description") == Some(Arr(CleanShortDescriptions(items.value, plain)))
      && name.Ok? && Get(out.fields, "name") == Some(name.value)
      && Get(out.fields, "id") == Get(doc.fields, "id")
  {
    RewriteFieldsSpec(doc.fields, plain);
  }

  /** The file a stored document lands in is named after its id, cut to
      128 characters, in the target folder. */
  lemma StoreSolrDocName(doc: Json, dir: string, plain: string -> string)
    requires StoreSolrDoc(doc, dir, plain).Ok?
    ensures var id := Get(doc.fields, "id").value.s;
      '/' !in id ==> Basename(StoreSolrDoc(doc, dir, plain).value.0) == TruncateIdPrefix(id, IdLimit) + ".json"
  {
    var id := Get(doc.fields, "id").value.s;
    if '/' !in id {
      SolrFileName(dir, id);
    }
  }

  /** A prefix of a slash-free name has no slash, nor does it with `.json`
      appended. */
  lemma NoSlashStem(id: string, stem: string)
    requires '/' !in id && StartsWith(id, stem)
    ensures '/' !in stem + ".json"
  {
    var name := stem + ".json";
    forall i | 0 <= i < |name|
      ensures name[i] != '/'
    {
      if i < |stem| {
        assert name[i] == id[i];
      } else {
        assert name[i] == ".json"[i - |stem|];
      }
    }
  }

  lemma SolrFileName(dir: string, id: string)
    requires '/' !in id
    ensures Basename(PathJoin(dir, TruncateIdPrefix(id, IdLimit) + ".json")) == TruncateIdPrefix(id, IdLimit) + ".json"
  {
    var name := TruncateIdPrefix(id, IdLimit) + ".json";
    JoinBasename(dir, name);
    NoSlashStem(id, TruncateIdPrefix(id, IdLimit));
    BasenameNoSlash(name);
  }

  // ---------------------------------------------------------------------
  // get_ruc_contents / serialize_ruc_to_json in this file

  /** Where `serialize_ruc_to_json` writes an entry: a `rich_user_contents`
      folder inside the output folder. */
  function RucOutputPath(outDir: string, key: string): (r: string)
    ensures EndsWith(r, ".json")
  {
    RichContent.RucJsonPath(PathJoin(outDir, "rich_user_contents"), key)
  }

  /** The entry rewrite with this file's limits. */
  function SerializeRucEntry(entry: Json, plain: string -> string): Result<Json> {
    RichContent.SerializeEntry(entry, TitleLimit, DescriptionLimit, MoreCharacters, plain)
  }

  /** A title of at most 67 characters that the converter leaves alone is
      not changed, so its description stays under it. */
  lemma ShortTitleKept(t: string, plain: string -> string)
    requires plain(t) == t && |t| <= TitleLimit && !StartsWith(t, "{}")
    ensures RichContent.ShortTitle(t, TitleLimit, MoreCharacters, plain) == t
  {
  }
}
