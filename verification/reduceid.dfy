/** `reduce_id` (in `src/reduce_id.py`, and the same function in
    `src/harvester.py`): files whose id, taken from the file name, is longer
    than the limit get the id's last `limit` characters as their new id,
    written into the record and into the file name. Reading, writing and
    renaming are described by the list of rewrites the loop performs. */
module ReduceId {
  import opened Wrappers
  import opened Strings
  import opened Dicts
  import opened Paths
  import opened JsonValues
  import opened Utils

  const DefaultIdLimit: int := 128

  /** `current_id[-id_limit:]`. */
  function NewId(id: string, limit: int): string {
    SliceFrom(id, -limit)
  }

  /** For a positive limit below the id's length the new id is the id's
      suffix of exactly that length. A limit of 0 keeps the whole id,
      because `-0` is `0` in Python. */
  lemma NewIdSuffix(id: string, limit: int)
    ensures 0 < limit < |id| ==> |NewId(id, limit)| == limit && EndsWith(id, NewId(id, limit))
    ensures limit == 0 ==> NewId(id, limit) == id
  {
  }

  /** The file is over-long when the id in its name exceeds the limit. */
  predicate Long(file: string, limit: int) {
    |GetIdFromFileName(file)| > limit
  }

  /** Where a file with an over-long id is renamed to: the same folder,
      the new id plus `.json`. */
  function RenamedPath(file: string, limit: int): string {
    PathJoin(Dirname(file), NewId(GetIdFromFileName(file), limit) + ".json")
  }

  /** The id taken from a file name holds no `/`. */
  lemma IdNoSlash(file: string)
    ensures '/' !in GetIdFromFileName(file)
  {
    var parts := Split(file, '.');
    var pieces := Split(Join(parts[..|parts| - 1], '.'), '/');
    assert GetIdFromFileName(file) == pieces[|pieces| - 1];
  }

  /** Neither does the new id, a suffix of it, nor the new file name. */
  lemma NewNameNoSlash(id: string, limit: int)
    requires '/' !in id
    ensures '/' !in NewId(id, limit) + ".json"
  {
    var nid := NewId(id, limit);
    forall i | 0 <= i < |nid|
      ensures nid[i] != '/'
    {
      assert nid[i] == id[i + (|id| - |nid|)];
    }
    assert forall i :: 0 <= i < |nid + ".json"| ==> (nid + ".json")[i] != '/';
  }

  /** The renamed file keeps its folder and is named after the new id. */
  lemma RenamedPathShape(file: string, limit: int)
    ensures var nid := NewId(GetIdFromFileName(file), limit);
      Basename(RenamedPath(file, limit)) == nid + ".json"
      && (!StartsWith(nid + ".json", "/") ==> StartsWith(RenamedPath(file, limit), Dirname(file)))
  {
    var name := NewId(GetIdFromFileName(file), limit) + ".json";
    IdNoSlash(file);
    NewNameNoSlash(GetIdFromFileName(file), limit);
    JoinBasename(Dirname(file), name);
    BasenameNoSlash(name);
  }

  /** One rewrite: the file, its record with the new `id`, and the name it
      is renamed to. */
  datatype Rewrite = Rewrite(file: string, record: Json, renamedTo: string)

  /** The over-long files, in list order. */
  function LongFiles(files: seq<string>, limit: int): (r: seq<string>)
    ensures |r| <= |files|
    ensures forall i :: 0 <= i < |r| ==> Long(r[i], limit) && r[i] in files
    decreases |files|
  {
    if |files| == 0 then []
    else
      var init := LongFiles(files[..|files| - 1], limit);
      var f := files[|files| - 1];
      assert forall x :: x in files[..|files| - 1] ==> x in files;
      if Long(f, limit) then init + [f] else init
  }

  /** The record of `file` with its `id` replaced by the shortened id:
      `json_data["id"] = new_current_id`, which raises unless the record
      is a dict. */
  function Rewritten(file: string, limit: int, load: string -> Json): (r: Result<Json>)
    ensures r.Ok? <==> load(file).Obj?
    ensures r.Ok? ==> r.value.Obj? && Get(r.value.fields, "id") == Some(Str(NewId(GetIdFromFileName(file), limit)))
  {
    PySet(load(file), "id", Str(NewId(GetIdFromFileName(file), limit)))
  }

  /** Every file that is over-long and whose record is a dict can be
      rewritten; a record of any other shape makes `json_data["id"] = ...`
      raise. */
  predicate Rewritable(file: string, limit: int, load: string -> Json) {
    !Long(file, limit) || load(file).Obj?
  }

  /** The rewrites of a list of files, in list order; the first
      over-long file whose record is not a dict is the failure. */
  function Rewrites(files: seq<string>, limit: int, load: string -> Json): Result<seq<Rewrite>>
    decreases |files|
  {
    if |files| == 0 then Ok([])
    else
      var before :- Rewrites(files[..|files| - 1], limit, load);
      var f := files[|files| - 1];
      if Long(f, limit) then
        var record :- Rewritten(f, limit, load);
        Ok(before + [Rewrite(f, record, RenamedPath(f, limit))])
      else Ok(before)
  }

  /** One more file fails the rewrites exactly when it cannot be
      rewritten. */
  lemma RewritesStepOk(files: seq<string>, limit: int, load: string -> Json)
    requires |files| > 0
    ensures Rewrites(files, limit, load).Ok? <==>
      Rewrites(files[..|files| - 1], limit, load).Ok? && Rewritable(files[|files| - 1], limit, load)
  {
  }

  /** Every file of the list can be rewritten. */
  predicate AllRewritable(files: seq<string>, limit: int, load: string -> Json) {
    forall i :: 0 <= i < |files| ==> Rewritable(files[i], limit, load)
  }

  /** Every file of a list can be rewritten exactly when every file of its
      front and its last one can. */
  lemma AllRewritableSnoc(files: seq<string>, limit: int, load: string -> Json)
    requires |files| > 0
    ensures AllRewritable(files, limit, load) <==>
      AllRewritable(files[..|files| - 1], limit, load) && Rewritable(files[|files| - 1], limit, load)
  {
    var init := files[..|files| - 1];
    assert forall i :: 0 <= i < |init| ==> init[i] == files[i];
  }

  /** The rewrites fail exactly when an over-long file's record is not a
      dict. */
  lemma {:induction false} RewritesOk(files: seq<string>, limit: int, load: string -> Json)
    ensures Rewrites(files, limit, load).Ok? <==> AllRewritable(files, limit, load)
    decreases |files|
  {
    if |files| > 0 {
      RewritesOk(files[..|files| - 1], limit, load);
      RewritesStepOk(files, limit, load);
      AllRewritableSnoc(files, limit, load);
    }
  }

  /** What each rewrite does: the rewrites are exactly the over-long
      files, in order, each renamed next to itself and with its record's
      `id` replaced by the new id. */
  predicate RewritesMatch(rs: seq<Rewrite>, long: seq<string>, limit: int, load: string -> Json) {
    |rs| == |long|
    && forall i :: 0 <= i < |long| ==>
         rs[i].file == long[i] && rs[i].renamedTo == RenamedPath(long[i], limit)
         && Rewritten(long[i], limit, load) == Ok(rs[i].record)
  }

  lemma {:induction false} RewritesSpec(files: seq<string>, limit: int, load: string -> Json)
    requires Rewrites(files, limit, load).Ok?
    ensures RewritesMatch(Rewrites(files, limit, load).value, LongFiles(files, limit), limit, load)
    decreases |files|
  {
    if |files| > 0 {
      var init := files[..|files| - 1];
      var f := files[|files| - 1];
      var before := Rewrites(init, limit, load).value;
      RewritesSpec(init, limit, load);
      if Long(f, limit) {
        var record := Rewritten(f, limit, load).value;
        var rs := before + [Rewrite(f, record, RenamedPath(f, limit))];
        assert Rewrites(files, limit, load).value == rs;
        assert LongFiles(files, limit) == LongFiles(init, limit) + [f];
        RewritesMatchSnoc(before, LongFiles(init, limit), Rewrite(f, record, RenamedPath(f, limit)), f, limit, load);
      }
    }
  }

  lemma RewritesMatchSnoc(rs: seq<Rewrite>, long: seq<string>, w: Rewrite, f: string, limit: int, load: string -> Json)
    requires RewritesMatch(rs, long, limit, load)
    requires w.file == f && w.renamedTo == RenamedPath(f, limit)
    requires Rewritten(f, limit, load) == Ok(w.record)
    ensures RewritesMatch(rs + [w], long + [f], limit, load)
  {
    var rs' := rs + [w];
    var long' := long + [f];
    forall i | 0 <= i < |long'|
      ensures rs'[i].file == long'[i] && rs'[i].renamedTo == RenamedPath(long'[i], limit)
        && Rewritten(long'[i], limit, load) == Ok(rs'[i].record)
    {
      if i < |long| {
        assert rs'[i] == rs[i] && long'[i] == long[i];
      }
    }
  }

  /** What `reduce_id` leaves behind: the rewrites done (each record
      rewritten and renamed on disk), its counter, and the error that
      ended the run early, if any. Rewrites done before a failure stay
      done. */
  datatype Reduced = Reduced(rewrites: seq<Rewrite>, counter: nat, error: Option<string>)

  /** The run stops at file `k`: the files before it gave `done`, and
      the record of `k`, whose id is too long, cannot take the new id. */
  predicate StopsAt(files: seq<string>, k: int, limit: int, load: string -> Json, done: seq<Rewrite>, e: string) {
    0 <= k < |files| && Rewrites(files[..k], limit, load) == Ok(done) && Long(files[k], limit)
    && Rewritten(files[k], limit, load) == Err(e)
  }

  /** `reduce_id(input_path, id_limit)`, with the folder listing as
      `files` (None when the folder is missing, which makes `len(files)`
      raise) and the records as `load`. */
  method ReduceIds(files: Option<seq<string>>, limit: int, load: string -> Json) returns (r: Reduced)
    ensures files.None? ==> r == Reduced([], 0, Some("TypeError"))
    ensures files.Some? ==> (r.error.None? <==> Rewrites(files.value, limit, load).Ok?)
    ensures files.Some? && r.error.None? ==>
      r.rewrites == Rewrites(files.value, limit, load).value && r.counter == |r.rewrites|
    ensures files.Some? && r.error.Some? ==>
      r.counter == |r.rewrites| + 1 && exists k :: StopsAt(files.value, k, limit, load, r.rewrites, r.error.value)
  {
    if files.None? {
      return Reduced([], 0, Some("TypeError"));
    }
    r := ReduceList(files.value, limit, load);
  }

  /** The loop of `reduce_id` over a listing. The counter counts the files
      whose id is too long, including one whose rewrite fails. */
  method ReduceList(fs: seq<string>, limit: int, load: string -> Json) returns (r: Reduced)
    ensures r.error.None? <==> Rewrites(fs, limit, load).Ok?
    ensures r.error.None? ==> r.rewrites == Rewrites(fs, limit, load).value && r.counter == |r.rewrites|
    ensures r.error.Some? ==>
      r.counter == |r.rewrites| + 1 && exists k :: StopsAt(fs, k, limit, load, r.rewrites, r.error.value)
  {
    var rewrites: seq<Rewrite> := [];
    var counter: nat := 0;
    var k := 0;
    while k < |fs|
      invariant 0 <= k <= |fs|
      invariant Rewrites(fs[..k], limit, load) == Ok(rewrites)
      invariant counter == |rewrites|
    {
      var filename := fs[k];
      if Long(filename, limit) {
        counter := counter + 1;
        var record := Rewritten(filename, limit, load);
        if record.Err? {
          RewritesStop(fs, k, limit, load, rewrites);
          return Reduced(rewrites, counter, Some(record.error));
        }
        RewritesPrefixStep(fs, k, limit, load);
        rewrites := rewrites + [Rewrite(filename, record.value, RenamedPath(filename, limit))];
      } else {
        RewritesPrefixStep(fs, k, limit, load);
      }
      k := k + 1;
    }
    assert fs[..k] == fs;
    return Reduced(rewrites, counter, None);
  }

  /** A file whose id is too long and whose record cannot take the new id
      stops the run there, and fails the rewrites of the whole list. */
  lemma RewritesStop(fs: seq<string>, k: nat, limit: int, load: string -> Json, done: seq<Rewrite>)
    requires k < |fs| && Rewrites(fs[..k], limit, load) == Ok(done)
    requires Long(fs[k], limit) && Rewritten(fs[k], limit, load).Err?
    ensures StopsAt(fs, k, limit, load, done, Rewritten(fs[k], limit, load).error)
    ensures Rewrites(fs, limit, load).Err?
  {
    RewritesPrefixStep(fs, k, limit, load);
    RewritesPrefixErr(fs, k + 1, limit, load);
  }

  /** The rewrites of one more file of the list, from those before it. */
  lemma RewritesPrefixStep(files: seq<string>, k: nat, limit: int, load: string -> Json)
    requires k < |files|
    ensures var before := Rewrites(files[..k], limit, load);
      var f := files[k];
      Rewrites(files[..k + 1], limit, load) ==
        if before.Err? then before
        else if !Long(f, limit) then before
        else match Rewritten(f, limit, load)
          case Err(e) => Err(e)
          case Ok(record) => Ok(before.value + [Rewrite(f, record, RenamedPath(f, limit))])
  {
    assert files[..k + 1][..k] == files[..k];
  }

  lemma {:induction false} RewritesPrefixErr(files: seq<string>, k: nat, limit: int, load: string -> Json)
    requires k <= |files|
    requires Rewrites(files[..k], limit, load).Err?
    ensures Rewrites(files, limit, load).Err?
    decreases |files|
  {
    if k < |files| {
      var init := files[..|files| - 1];
      assert init[..k] == files[..k];
      RewritesPrefixErr(init, k, limit, load);
    } else {
      assert files[..k] == files;
    }
  }

  /** A list without over-long ids is left alone. */
  lemma NoLongFiles(files: seq<string>, limit: int)
    requires forall i :: 0 <= i < |files| ==> |GetIdFromFileName(files[i])| <= limit
    ensures LongFiles(files, limit) == []
  {
    if |files| > 0 {
      NoLongFiles(files[..|files| - 1], limit);
    }
  }
}
