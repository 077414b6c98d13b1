/** `plugins/get_updated_ruc.py`: the rich-content ids waiting under one
    Redis key are merged into the map of updated files under another, each
    id that names a known file pointing at that file. Redis, the folder
    listing and the identifier of a file are the parameters in `Io`. */
module UpdatedRuc {
  import opened Wrappers
  import opened Seqs
  import opened Dicts
  import opened JsonValues

  /** The `.json` files of a folder, the identifier of a file
      (`get_identifier` of the shared utilities), and the parsed value
      under a Redis key, None when the key is missing. */
  datatype Io = Io(listing: Json -> seq<string>, identify: string -> string, stored: Json -> Option<Json>)

  // ---------------------------------------------------------------------
  // get_file_list

  /** Every listed file of every folder, folders in order. */
  function AllFiles(paths: seq<Json>, io: Io): seq<string>
    decreases |paths|
  {
    if |paths| == 0 then [] else io.listing(paths[0]) + AllFiles(paths[1..], io)
  }

  /** The assignments `all_files[identifier] = file`, in loop order. */
  function FilePairs(files: seq<string>, io: Io): (r: seq<(string, string)>)
    ensures |r| == |files| && forall i :: 0 <= i < |files| ==> r[i] == (io.identify(files[i]), files[i])
  {
    seq(|files|, i requires 0 <= i < |files| => (io.identify(files[i]), files[i]))
  }

  /** `get_file_list(paths)`. */
  function GetFileList(paths: seq<Json>, io: Io): Dict<string, string> {
    SetAll([], FilePairs(AllFiles(paths, io), io))
  }

  /** Some listed file has the identifier `k`. */
  predicate Identified(files: seq<string>, io: Io, k: string) {
    exists i :: 0 <= i < |files| && io.identify(files[i]) == k
  }

  /** The identifiers of the map are exactly those of the listed files. */
  lemma GetFileListKeys(paths: seq<Json>, io: Io, k: string)
    ensures k in Keys(GetFileList(paths, io)) <==> Identified(AllFiles(paths, io), io, k)
  {
    var all := AllFiles(paths, io);
    var pairs := FilePairs(all, io);
    var empty: Dict<string, string> := [];
    assert GetFileList(paths, io) == SetAll(empty, pairs);
    SetAllKeys(empty, pairs, k);
    assert k !in Keys(empty);
    if k in Keys(pairs) {
      var i :| 0 <= i < |pairs| && Keys(pairs)[i] == k;
      assert io.identify(all[i]) == k;
    }
    if Identified(all, io, k) {
      var i :| 0 <= i < |all| && io.identify(all[i]) == k;
      assert Keys(pairs)[i] == k;
    }
  }

  /** Each identifier maps to the last listed file that has it. */
  lemma GetFileListLast(paths: seq<Json>, io: Io, i: nat)
    requires i < |AllFiles(paths, io)|
    requires var all := AllFiles(paths, io);
      forall j :: i < j < |all| ==> io.identify(all[j]) != io.identify(all[i])
    ensures Get(GetFileList(paths, io), io.identify(AllFiles(paths, io)[i])) == Some(AllFiles(paths, io)[i])
  {
    var all := AllFiles(paths, io);
    var pairs := FilePairs(all, io);
    var empty: Dict<string, string> := [];
    assert GetFileList(paths, io) == SetAll(empty, pairs);
    assert forall j :: i < j < |pairs| ==> pairs[j].0 == io.identify(all[j]);
    SetAllLast(empty, pairs, i);
  }

  // ---------------------------------------------------------------------
  // update_redis_key

  /** `update_redis_key`: the new entries merged into the stored map, a
      missing map counting as empty. */
  function UpdateRedisKey(existing: Option<Fields>, newData: Fields): Fields {
    SetAll(existing.GetOr([]), newData)
  }

  /** After the merge every new key has its new value and every other key
      its stored one. */
  lemma UpdateRedisKeySpec(existing: Option<Fields>, newData: Fields, k: string)
    requires UniqueKeys(newData)
    ensures existing.None? && k !in Keys(newData) ==> Get(UpdateRedisKey(existing, newData), k) == None
    ensures existing.Some? && k !in Keys(newData) ==> Get(UpdateRedisKey(existing, newData), k) == Get(existing.value, k)
    ensures k in Keys(newData) ==> Get(UpdateRedisKey(existing, newData), k) == Get(newData, k)
  {
    MergeUnique(existing.GetOr([]), newData, k);
  }

  // ---------------------------------------------------------------------
  // get_updated_ruc

  /** The assignments `updated_files[ruc_id] = (all_files[ruc_id],)` for
      the ids found among the files, in id order. */
  function RucPairs(rucIds: seq<string>, allFiles: Dict<string, string>): seq<(string, Json)>
    decreases |rucIds|
  {
    if |rucIds| == 0 then []
    else
      var rest := RucPairs(rucIds[1..], allFiles);
      match Get(allFiles, rucIds[0])
      case Some(file) => [(rucIds[0], Arr([Str(file)]))] + rest
      case None => rest
  }

  /** An id that names a known file points at it; every other key keeps
      its value. */
  lemma {:induction false} RucPairsSpec(d: Fields, rucIds: seq<string>, allFiles: Dict<string, string>, k: string)
    ensures Get(SetAll(d, RucPairs(rucIds, allFiles)), k) ==
      if k in rucIds && k in Keys(allFiles) then Some(Arr([Str(Get(allFiles, k).value)])) else Get(d, k)
    decreases |rucIds|
  {
    if |rucIds| > 0 {
      var id := rucIds[0];
      var rest := RucPairs(rucIds[1..], allFiles);
      assert k in rucIds <==> k == id || k in rucIds[1..];
      match Get(allFiles, id)
      case Some(file) =>
        var d' := Set(d, id, Arr([Str(file)]));
        var pairs := [(id, Arr([Str(file)]))] + rest;
        assert pairs[0] == (id, Arr([Str(file)])) && pairs[1..] == rest;
        assert SetAll(d, pairs) == SetAll(d', rest);
        RucPairsSpec(d', rucIds[1..], allFiles, k);
      case None =>
        RucPairsSpec(d, rucIds[1..], allFiles, k);
    }
  }

  /** What the plugin leaves in Redis: the key it deletes and the map it
      stores under the other key. */
  datatype Writes = Writes(deleted: Json, key: Json, value: Fields)

  /** The merged map before it is written back. */
  function MergeRuc(updatedFiles: Fields, rucIds: seq<string>, allFiles: Dict<string, string>): Fields {
    SetAll(updatedFiles, RucPairs(rucIds, allFiles))
  }

  /** `get_updated_ruc(name, params)`. Without a truthy `to_merge` it
      raises; with no waiting rich content it does nothing. Waiting rich
      content that is not a dict fails at `.items()`. An updated-files
      value that is not a dict fails at the first assignment into it; with
      nothing to assign, the log line after the loop fails at `len` when
      the value is missing or a scalar, and at `.items()` when it is a
      list or a string. The same log line raises on an empty merged map.
      The second read of the merge key happens after the other key is
      deleted, so it is empty when both keys are the same. */
  function GetUpdatedRuc(params: Json, io: Io): (r: Result<Option<Writes>>)
    ensures params.Obj? && !Truthy(Get(params.fields, "to_merge").GetOr(Null)) ==> r == Err("ValueError")
  {
    if !params.Obj? then Err("AttributeError")
    else
      var filesPath := Get(params.fields, "files_path").GetOr(Arr([]));
      var toMerge := Get(params.fields, "to_merge").GetOr(Null);
      if !Truthy(toMerge) then Err("ValueError")
      else if !toMerge.Obj? then Err("AttributeError")
      else
        var toMergeKey := Get(toMerge.fields, "redis_key").GetOr(Null);
        var mergeWithKey := Get(toMerge.fields, "merge_with").GetOr(Null);
        var updatedRuc := io.stored(toMergeKey);
        var updatedFiles := io.stored(mergeWithKey);
        if updatedRuc.None? then Ok(None)
        else
          var paths :- PyIter(filesPath);
          var allFiles := GetFileList(paths, io);
          if !updatedRuc.value.Obj? then Err("AttributeError")
          else
            var rucIds := Keys(updatedRuc.value.fields);
            if !(updatedFiles.Some? && updatedFiles.value.Obj?) then
              Err(if |RucPairs(rucIds, allFiles)| > 0 || updatedFiles.None? || !(updatedFiles.value.Arr? || updatedFiles.value.Str?)
                  then "TypeError" else "AttributeError")
            else
              var merged := MergeRuc(updatedFiles.value.fields, rucIds, allFiles);
              if |merged| == 0 then Err("IndexError")
              else
                var existing := if toMergeKey == mergeWithKey then None else Some(updatedFiles.value.fields);
                Ok(Some(Writes(toMergeKey, mergeWithKey, UpdateRedisKey(existing, merged))))
  }

  /** Some assignment happens exactly when a waiting id names a known file. */
  lemma {:induction false} RucPairsNonEmpty(rucIds: seq<string>, allFiles: Dict<string, string>)
    ensures |RucPairs(rucIds, allFiles)| > 0 <==> exists k :: k in rucIds && k in Keys(allFiles)
    decreases |rucIds|
  {
    if |rucIds| > 0 {
      RucPairsNonEmpty(rucIds[1..], allFiles);
      assert forall k :: k in rucIds <==> k == rucIds[0] || k in rucIds[1..];
    }
  }

  /** An updated-files value that is not a dict: assigning into it raises
      `TypeError`, and so does `len` in the log line when it is missing or
      a scalar; a list or a string with nothing assigned fails at
      `.items()` with `AttributeError`. */
  lemma NonDictMergeMap(params: Json, io: Io)
    requires params.Obj?
    requires var toMerge := Get(params.fields, "to_merge").GetOr(Null);
      Truthy(toMerge) && toMerge.Obj?
      && var ruc := io.stored(Get(toMerge.fields, "redis_key").GetOr(Null));
      var files := io.stored(Get(toMerge.fields, "merge_with").GetOr(Null));
      ruc.Some? && ruc.value.Obj? && !(files.Some? && files.value.Obj?)
    requires PyIter(Get(params.fields, "files_path").GetOr(Arr([]))).Ok?
    ensures var toMerge := Get(params.fields, "to_merge").GetOr(Null);
      var rucIds := Keys(io.stored(Get(toMerge.fields, "redis_key").GetOr(Null)).value.fields);
      var files := io.stored(Get(toMerge.fields, "merge_with").GetOr(Null));
      var allFiles := GetFileList(PyIter(Get(params.fields, "files_path").GetOr(Arr([]))).value, io);
      GetUpdatedRuc(params, io) ==
        Err(if files.None? || !(files.value.Arr? || files.value.Str?) || exists k :: k in rucIds && k in Keys(allFiles)
            then "TypeError" else "AttributeError")
  {
    var toMerge := Get(params.fields, "to_merge").GetOr(Null);
    var rucIds := Keys(io.stored(Get(toMerge.fields, "redis_key").GetOr(Null)).value.fields);
    var allFiles := GetFileList(PyIter(Get(params.fields, "files_path").GetOr(Arr([]))).value, io);
    RucPairsNonEmpty(rucIds, allFiles);
  }

  lemma {:induction false} SetAllUnique<K(!new), V>(d: Dict<K, V>, pairs: seq<(K, V)>)
    requires UniqueKeys(d)
    ensures UniqueKeys(SetAll(d, pairs))
    decreases |pairs|
  {
    if |pairs| > 0 {
      SetUnique(d, pairs[0].0, pairs[0].1);
      SetAllUnique(Set(d, pairs[0].0, pairs[0].1), pairs[1..]);
    }
  }

  /** Without waiting rich content nothing is written. */
  lemma NoRucNoWrites(params: Json, io: Io)
    requires params.Obj? && Get(params.fields, "to_merge").Some?
    requires var toMerge := Get(params.fields, "to_merge").value;
      toMerge.Obj? && |toMerge.fields| > 0 && io.stored(Get(toMerge.fields, "redis_key").GetOr(Null)).None?
    ensures GetUpdatedRuc(params, io) == Ok(None)
  {
  }

  /** On a write, the stored map is the previous updated-files map with
      every waiting id that names a known file set to the one-element list
      of that file, and nothing else changed; the waiting key is deleted. */
  lemma GetUpdatedRucSpec(params: Json, io: Io, k: string)
    requires GetUpdatedRuc(params, io).Ok? && GetUpdatedRuc(params, io).value.Some?
    requires var toMerge := Get(params.fields, "to_merge").value;
      UniqueKeys(io.stored(Get(toMerge.fields, "merge_with").GetOr(Null)).value.fields)
    ensures var toMerge := Get(params.fields, "to_merge").value;
      var w := GetUpdatedRuc(params, io).value.value;
      var rucKey := Get(toMerge.fields, "redis_key").GetOr(Null);
      var mergeKey := Get(toMerge.fields, "merge_with").GetOr(Null);
      var rucIds := Keys(io.stored(rucKey).value.fields);
      var before := io.stored(mergeKey).value.fields;
      var allFiles := GetFileList(PyIter(Get(params.fields, "files_path").GetOr(Arr([]))).value, io);
      w.deleted == rucKey && w.key == mergeKey
      && Get(w.value, k) ==
           if k in rucIds && k in Keys(allFiles) then Some(Arr([Str(Get(allFiles, k).value)])) else Get(before, k)
  {
    var toMerge := Get(params.fields, "to_merge").value;
    var rucKey := Get(toMerge.fields, "redis_key").GetOr(Null);
    var mergeKey := Get(toMerge.fields, "merge_with").GetOr(Null);
    var rucIds := Keys(io.stored(rucKey).value.fields);
    var before := io.stored(mergeKey).value.fields;
    var allFiles := GetFileList(PyIter(Get(params.fields, "files_path").GetOr(Arr([]))).value, io);
    var merged := MergeRuc(before, rucIds, allFiles);
    var existing := if rucKey == mergeKey then None else Some(before);
    SetAllUnique(before, RucPairs(rucIds, allFiles));
    UpdateRedisKeySpec(existing, merged, k);
    RucPairsSpec(before, rucIds, allFiles, k);
    SetAllKeys(before, RucPairs(rucIds, allFiles), k);
  }
}
