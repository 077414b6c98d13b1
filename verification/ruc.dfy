/** Rich user contents (RUC): the re-keying of parsed entries by their
    identifier, and the title/description rewrite done before each entry is
    written out. Both harvesters (`src/harvester.py` and
    `plugins/harvest_ruc.py`) run the same code; the parsed mapping of each
    markdown file is an input. */
module RichContent {
  import opened Wrappers
  import opened Strings
  import opened Dicts
  import opened Paths
  import opened JsonValues
  import opened Utils

  // ---------------------------------------------------------------------
  // re-keying

  /** `ruc_data.get('identifier', '').lower()`: the entry must be a dict
      and its identifier a string. */
  function IdentifierOf(data: Json): (r: Result<string>)
    ensures r.Ok? <==> data.Obj? && (Get(data.fields, "identifier").Some? ==> Get(data.fields, "identifier").value.Str?)
    ensures r.Ok? && Get(data.fields, "identifier").None? ==> r.value == ""
    ensures r.Ok? && Get(data.fields, "identifier").Some? ==> r.value == Lower(Get(data.fields, "identifier").value.s)
  {
    var id :- PyGet(data, "identifier", Str(""));
    if id.Str? then Ok(Lower(id.s)) else Err("AttributeError")
  }

  /** The key an entry is stored under after re-keying. */
  function EntryKey(filename: string, data: Json): (r: Result<string>)
    ensures r.Ok? <==> IdentifierOf(data).Ok?
    ensures r.Ok? ==>
      var id := IdentifierOf(data).value;
      (Lower(Splitext(filename).0) != id ==> r.value == id)
      && (Lower(Splitext(filename).0) == id ==> r.value == filename)
  {
    var id :- IdentifierOf(data);
    if Lower(Splitext(filename).0) != id then Ok(id) else Ok(filename)
  }

  /** One entry under its new key. */
  function RekeyPair(e: (string, Json)): Result<(string, Json)> {
    var k :- EntryKey(e.0, e.1);
    Ok((k, e.1))
  }

  function RekeyPairs(entries: Fields): (r: Result<seq<(string, Json)>>)
    ensures r.Ok? <==> forall i :: 0 <= i < |entries| ==> EntryKey(entries[i].0, entries[i].1).Ok?
    ensures r.Ok? ==> (|r.value| == |entries|
      && forall i :: 0 <= i < |entries| ==> r.value[i] == (EntryKey(entries[i].0, entries[i].1).value, entries[i].1))
  {
    MapResult(entries, RekeyPair)
  }

  /** The re-keying loop of `get_ruc_contents`: each entry goes into a new
      dict under its key, later entries overwriting earlier ones. */
  function Rekey(entries: Fields): Result<Fields> {
    var pairs :- RekeyPairs(entries);
    Ok(SetAll([], pairs))
  }

  /** Every entry that fails to re-key aborts the whole loop; otherwise
      the keys of the result are exactly the entries' keys, and each key
      holds the data of the last entry re-keyed to it. */
  lemma RekeyLastWins(entries: Fields, i: nat)
    requires i < |entries|
    requires Rekey(entries).Ok?
    requires forall j :: i < j < |entries| ==>
      EntryKey(entries[j].0, entries[j].1).value != EntryKey(entries[i].0, entries[i].1).value
    ensures Get(Rekey(entries).value, EntryKey(entries[i].0, entries[i].1).value) == Some(entries[i].1)
  {
    var pairs := RekeyPairs(entries).value;
    SetAllLast([], pairs, i);
  }

  /** Some entry is re-keyed to `k`. */
  predicate RekeyedTo(entries: Fields, k: string)
    requires forall i :: 0 <= i < |entries| ==> EntryKey(entries[i].0, entries[i].1).Ok?
  {
    exists i :: 0 <= i < |entries| && EntryKey(entries[i].0, entries[i].1).value == k
  }

  /** The re-keyed pairs, when re-keying succeeds. */
  lemma RekeyUnfold(entries: Fields)
    requires Rekey(entries).Ok?
    ensures RekeyPairs(entries).Ok? && Rekey(entries).value == SetAll([], RekeyPairs(entries).value)
  {
  }

  /** A key of the pairs is the key of the entry at the same index. */
  lemma RekeyPairKey(entries: Fields, i: nat)
    requires RekeyPairs(entries).Ok? && i < |entries|
    ensures Keys(RekeyPairs(entries).value)[i] == EntryKey(entries[i].0, entries[i].1).value
  {
  }

  /** The keys of the result are exactly the entries' keys. */
  lemma RekeyKeys(entries: Fields, k: string)
    requires Rekey(entries).Ok?
    ensures RekeyPairs(entries).Ok?
    ensures k in Keys(Rekey(entries).value) <==> RekeyedTo(entries, k)
  {
    RekeyUnfold(entries);
    var pairs := RekeyPairs(entries).value;
    var empty: Fields := [];
    SetAllKeys(empty, pairs, k);
    assert k !in Keys(empty);
    if k in Keys(pairs) {
      var i :| 0 <= i < |pairs| && Keys(pairs)[i] == k;
      RekeyPairKey(entries, i);
    }
    if RekeyedTo(entries, k) {
      var i :| 0 <= i < |entries| && EntryKey(entries[i].0, entries[i].1).value == k;
      RekeyPairKey(entries, i);
    }
  }

  /** Re-keying fails exactly when some entry is not a dict or has a
      non-string identifier. */
  lemma RekeyErr(entries: Fields)
    ensures Rekey(entries).Err? <==>
      exists i :: 0 <= i < |entries| && IdentifierOf(entries[i].1).Err?
  {
  }

  // ---------------------------------------------------------------------
  // serialize_ruc_to_json

  /** `ruc_contents.get("title", "")`. */
  function OrgTitle(fields: Fields): Json {
    Get(fields, "title").GetOr(Str(""))
  }

  /** The rewrite of one entry in `serialize_ruc_to_json`: `title` is
      replaced by its shortened form; a value stored under the original
      title string is shortened and, when the title changed, moved to the
      new title. A JSON null counts as no value. */
  function SerializeEntry(entry: Json, titleLimit: int, descLimit: int, more: string, plain: string -> string): (r: Result<Json>)
    ensures r.Ok? ==> r.value.Obj?
    ensures r.Ok? ==> entry.Obj? && OrgTitle(entry.fields).Str?
  {
    if !entry.Obj? then Err("AttributeError")
    else
      var org := OrgTitle(entry.fields);
      var title :- ShortenListOrString(org, titleLimit, more, plain);
      var fields := Set(entry.fields, "title", title);
      if !org.Str? then Err("TypeError")
      else PlaceDescription(fields, org.s, title.s, descLimit, more, plain)
  }

  /** The second half of the rewrite, once `title` holds the shortened
      title `title`: the value under the original title `org`, shortened,
      stays there or moves to the new title. */
  function PlaceDescription(fields: Fields, org: string, title: string, descLimit: int, more: string, plain: string -> string): (r: Result<Json>)
    ensures r.Ok? ==> r.value.Obj?
  {
    var found := Get(fields, org);
    if found.None? || found.value.Null? then Ok(Obj(fields))
    else
      var desc :- ShortenListOrString(found.value, descLimit, more, plain);
      if org == title then Ok(Obj(Set(fields, org, desc)))
      else Ok(Obj(Remove(Set(fields, title, desc), org)))
  }

  /** The shortened title and the value found under the original title. */
  function ShortTitle(t: string, titleLimit: int, more: string, plain: string -> string): string {
    ShortenText(t, titleLimit, more, plain)
  }

  function Description(fields: Fields, t: string, titleLimit: int, more: string, plain: string -> string): Option<Json> {
    Get(Set(fields, "title", Str(ShortTitle(t, titleLimit, more, plain))), t)
  }

  /** An entry with a string title is its title replaced, then its
      description placed. */
  lemma SerializeEntryStep(fields: Fields, t: string, titleLimit: int, descLimit: int, more: string, plain: string -> string)
    requires OrgTitle(fields) == Str(t)
    ensures var nt := ShortTitle(t, titleLimit, more, plain);
      SerializeEntry(Obj(fields), titleLimit, descLimit, more, plain)
        == PlaceDescription(Set(fields, "title", Str(nt)), t, nt, descLimit, more, plain)
  {
    assert ShortenListOrString(Str(t), titleLimit, more, plain) == Ok(Str(ShortTitle(t, titleLimit, more, plain)));
  }

  /** An entry without a value under its original title has only its
      `title` replaced. */
  lemma SerializeOnlyTitle(fields: Fields, t: string, titleLimit: int, descLimit: int, more: string, plain: string -> string)
    requires OrgTitle(fields) == Str(t)
    requires Description(fields, t, titleLimit, more, plain) in {None, Some(Null)}
    ensures var r := SerializeEntry(Obj(fields), titleLimit, descLimit, more, plain);
      r.Ok?
      && Get(r.value.fields, "title") == Some(Str(ShortTitle(t, titleLimit, more, plain)))
      && forall k :: k != "title" ==> Get(r.value.fields, k) == Get(fields, k)
  {
    SerializeEntryStep(fields, t, titleLimit, descLimit, more, plain);
  }

  /** The fields after the description stays under an unchanged title. */
  lemma InPlaceFields(fields: Fields, t: string, desc: Json)
    ensures var f := Set(Set(fields, "title", Str(t)), t, desc);
      Get(f, t) == Some(desc)
      && (t != "title" ==> Get(f, "title") == Some(Str(t)))
      && forall k :: k != "title" && k != t ==> Get(f, k) == Get(fields, k)
  {
  }

  /** The fields after the description moves from `t` to `nt`. */
  lemma MovedFields(fields: Fields, t: string, nt: string, desc: Json)
    requires t != nt
    ensures var f := Remove(Set(Set(fields, "title", Str(nt)), nt, desc), t);
      Get(f, nt) == Some(desc)
      && t !in Keys(f)
      && (t != "title" && nt != "title" ==> Get(f, "title") == Some(Str(nt)))
      && forall k :: k != "title" && k != t && k != nt ==> Get(f, k) == Get(fields, k)
  {
    var f1 := Set(fields, "title", Str(nt));
    var f2 := Set(f1, nt, desc);
    var f := Remove(f2, t);
    assert Get(f, nt) == Get(f2, nt);
    assert Get(f, t) == None;
    forall k | k != "title" && k != t && k != nt
      ensures Get(f, k) == Get(fields, k)
    {
      assert Get(f, k) == Get(f2, k) == Get(f1, k);
    }
  }

  /** A description found under the title is shortened and placed. */
  lemma PlaceFound(f1: Fields, t: string, nt: string, d: Json, descLimit: int, more: string, plain: string -> string)
    requires Get(f1, t) == Some(d) && d != Null
    requires ShortenListOrString(d, descLimit, more, plain).Ok?
    ensures var desc := ShortenListOrString(d, descLimit, more, plain).value;
      PlaceDescription(f1, t, nt, descLimit, more, plain)
        == Ok(Obj(if t == nt then Set(f1, t, desc) else Remove(Set(f1, nt, desc), t)))
  {
  }

  /** A title that shortening leaves alone keeps its description under the
      same key, shortened. */
  lemma SerializeInPlace(fields: Fields, t: string, d: Json, titleLimit: int, descLimit: int, more: string, plain: string -> string)
    requires OrgTitle(fields) == Str(t) && ShortTitle(t, titleLimit, more, plain) == t
    requires Description(fields, t, titleLimit, more, plain) == Some(d) && d != Null
    requires ShortenListOrString(d, descLimit, more, plain).Ok?
    ensures var r := SerializeEntry(Obj(fields), titleLimit, descLimit, more, plain);
      r.Ok?
      && Get(r.value.fields, t) == Some(ShortenListOrString(d, descLimit, more, plain).value)
      && (t != "title" ==> Get(r.value.fields, "title") == Some(Str(t)))
      && forall k :: k != "title" && k != t ==> Get(r.value.fields, k) == Get(fields, k)
  {
    var desc := ShortenListOrString(d, descLimit, more, plain).value;
    SerializeEntryStep(fields, t, titleLimit, descLimit, more, plain);
    PlaceFound(Set(fields, "title", Str(t)), t, t, d, descLimit, more, plain);
    InPlaceFields(fields, t, desc);
  }

  /** A shortened title moves its description: the shortened description
      is stored under the new title and the original-title key is gone. */
  lemma SerializeMoved(fields: Fields, t: string, d: Json, titleLimit: int, descLimit: int, more: string, plain: string -> string)
    requires OrgTitle(fields) == Str(t) && ShortTitle(t, titleLimit, more, plain) != t
    requires Description(fields, t, titleLimit, more, plain) == Some(d) && d != Null
    requires ShortenListOrString(d, descLimit, more, plain).Ok?
    ensures var r := SerializeEntry(Obj(fields), titleLimit, descLimit, more, plain);
      var nt := ShortTitle(t, titleLimit, more, plain);
      r.Ok?
      && Get(r.value.fields, nt) == Some(ShortenListOrString(d, descLimit, more, plain).value)
      && t !in Keys(r.value.fields)
      && (t != "title" && nt != "title" ==> Get(r.value.fields, "title") == Some(Str(nt)))
      && forall k :: k != "title" && k != t && k != nt ==> Get(r.value.fields, k) == Get(fields, k)
  {
    var nt := ShortTitle(t, titleLimit, more, plain);
    var desc := ShortenListOrString(d, descLimit, more, plain).value;
    SerializeEntryStep(fields, t, titleLimit, descLimit, more, plain);
    PlaceFound(Set(fields, "title", Str(nt)), t, nt, d, descLimit, more, plain);
    MovedFields(fields, t, nt, desc);
  }

  /** Where the rewritten entry is written: the key's stem plus `.json`
      inside the output folder. */
  function RucJsonPath(outDir: string, key: string): (r: string)
    ensures EndsWith(r, ".json")
  {
    PathJoin(outDir, Splitext(key).0 + ".json")
  }

  lemma RucJsonPathBasename(outDir: string, key: string)
    ensures Basename(RucJsonPath(outDir, key)) == Basename(Splitext(key).0) + ".json"
  {
    var stem := Splitext(key).0;
    assert '/' !in ".json";
    JoinBasename(outDir, stem + ".json");
    BasenameAppend(stem, ".json");
  }

  /** One entry's output file and rewritten content. */
  function SerializePair(e: (string, Json), outDir: string, titleLimit: int, descLimit: int, more: string, plain: string -> string): Result<(string, Json)> {
    var content :- SerializeEntry(e.1, titleLimit, descLimit, more, plain);
    Ok((RucJsonPath(outDir, e.0), content))
  }

  /** `serialize_ruc_to_json` over the whole mapping: the file each entry is
      written to, with its rewritten content, in mapping order; the first
      failing entry aborts. */
  function SerializeAll(entries: Fields, outDir: string, titleLimit: int, descLimit: int, more: string, plain: string -> string): (r: Result<seq<(string, Json)>>)
    ensures r.Ok? ==> |r.value| == |entries|
    ensures r.Ok? ==> forall i :: 0 <= i < |entries| ==>
      r.value[i].0 == RucJsonPath(outDir, entries[i].0)
      && Ok(r.value[i].1) == SerializeEntry(entries[i].1, titleLimit, descLimit, more, plain)
    ensures r.Ok? <==> forall i :: 0 <= i < |entries| ==> SerializeEntry(entries[i].1, titleLimit, descLimit, more, plain).Ok?
  {
    MapResult(entries, e => SerializePair(e, outDir, titleLimit, descLimit, more, plain))
  }
}
