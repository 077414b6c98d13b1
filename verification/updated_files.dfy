/** `plugins/get_updated_files.py`: for every configured dataset type,
    the map from identifier to `[file, type]` of the new files that differ
    from their previous version, stored under the type's Redis key. Redis,
    the folder listing, the file comparison and reading a field from a
    file are the parameters bundled in `Io`. */
module UpdatedFiles {
  import opened Wrappers
  import opened Seqs
  import opened Dicts
  import opened Paths
  import opened JsonValues

  /** What the plugin asks of the outside world: a field of a JSON file
      (None when reading it raises), whether a path exists, whether two
      versions of a file differ (`diff_files`), the `.json` files of a
      folder, and the value stored under a Redis key (None when the key
      is missing). */
  datatype Io = Io(
    fetch: (string, string) -> Option<string>,
    present: string -> bool,
    differs: (string, Option<string>) -> bool,
    listing: Json -> seq<string>,
    stored: Json -> Option<Json>)

  /** The field names tried, in order, for a file's identifier. */
  const IdFields: seq<string> := ["id", "identifier"]

  // ---------------------------------------------------------------------
  // get_identifier

  /** The value of the first field whose lookup does not raise. */
  function FirstFetched(file: string, names: seq<string>, fetch: (string, string) -> Option<string>): Option<string>
    decreases |names|
  {
    if |names| == 0 then None
    else if fetch(file, names[0]).Some? then fetch(file, names[0])
    else FirstFetched(file, names[1..], fetch)
  }

  /** `get_identifier(file_path, field_names)`: the first field that can
      be read, else the file name without its extension; an empty name
      ends the program. */
  function GetIdentifier(file: string, names: seq<string>, fetch: (string, string) -> Option<string>): Result<string> {
    match FirstFetched(file, names, fetch)
    case Some(id) => Ok(id)
    case None =>
      var stem := Splitext(Basename(file)).0;
      if stem == "" then Err("SystemExit") else Ok(stem)
  }

  /** The fields are tried in order and the first readable one wins. */
  lemma {:induction false} FirstFetchedSpec(file: string, names: seq<string>, fetch: (string, string) -> Option<string>)
    ensures var r := FirstFetched(file, names, fetch);
      (r.None? <==> forall i :: 0 <= i < |names| ==> fetch(file, names[i]).None?)
      && (r.Some? ==> exists i :: 0 <= i < |names| && fetch(file, names[i]) == r
                        && forall j :: 0 <= j < i ==> fetch(file, names[j]).None?)
    decreases |names|
  {
    if |names| > 0 && fetch(file, names[0]).None? {
      FirstFetchedSpec(file, names[1..], fetch);
      var r := FirstFetched(file, names[1..], fetch);
      assert forall i :: 1 <= i < |names| ==> names[1..][i - 1] == names[i];
      if r.Some? {
        var i :| 0 <= i < |names| - 1 && fetch(file, names[1..][i]) == r
                 && forall j :: 0 <= j < i ==> fetch(file, names[1..][j]).None?;
        assert fetch(file, names[i + 1]) == r;
      }
    }
  }

  /** The identifier is the first readable field; failing that the file
      name's stem, and only an empty stem is an error. */
  lemma GetIdentifierSpec(file: string, names: seq<string>, fetch: (string, string) -> Option<string>)
    ensures var r := GetIdentifier(file, names, fetch);
      var first := FirstFetched(file, names, fetch);
      (r.Err? <==> first.None? && Splitext(Basename(file)).0 == "")
      && (first.Some? ==> r == Ok(first.value))
      && (first.None? && r.Ok? ==> r.value == Splitext(Basename(file)).0 && r.value != "")
  {
  }

  /** With the plugin's field names: `id` when readable, else
      `identifier`, else the stem. */
  lemma IdFieldsOrder(file: string, fetch: (string, string) -> Option<string>)
    ensures fetch(file, "id").Some? ==> GetIdentifier(file, IdFields, fetch) == Ok(fetch(file, "id").value)
    ensures fetch(file, "id").None? && fetch(file, "identifier").Some? ==>
      GetIdentifier(file, IdFields, fetch) == Ok(fetch(file, "identifier").value)
    ensures fetch(file, "id").None? && fetch(file, "identifier").None? && Splitext(Basename(file)).0 != "" ==>
      GetIdentifier(file, IdFields, fetch) == Ok(Splitext(Basename(file)).0)
  {
    assert IdFields[1..][1..] == [];
  }

  // ---------------------------------------------------------------------
  // get_previous_file

  /** `get_previous_file(current_file, previous_files_path)`: the file of
      the same name in the previous folder, when it exists. */
  function GetPreviousFile(current: string, previousPath: string, present: string -> bool): (r: Option<string>)
    ensures r.Some? <==> present(PathJoin(previousPath, Basename(current)))
    ensures r.Some? ==> r.value == PathJoin(previousPath, Basename(current))
  {
    var previous := PathJoin(previousPath, Basename(current));
    if present(previous) then Some(previous) else None
  }

  /** The folder comes from the configuration; `os.path.join` raises when
      it is not a string. */
  function PreviousOf(current: string, previousPath: Json, present: string -> bool): (r: Result<Option<string>>)
    ensures r.Ok? <==> previousPath.Str?
  {
    if previousPath.Str? then Ok(GetPreviousFile(current, previousPath.s, present)) else Err("TypeError")
  }

  // ---------------------------------------------------------------------
  // one dataset type

  /** The assignments `updated_keys[identifier] = [file, dataset_type]`
      the loop over the new files performs, in order. */
  function Assignments(files: seq<string>, previousPath: Json, datasetType: Json, io: Io): Result<seq<(string, Json)>>
    decreases |files|
  {
    if |files| == 0 then Ok([])
    else
      var init :- Assignments(files[..|files| - 1], previousPath, datasetType, io);
      var file := files[|files| - 1];
      var id :- GetIdentifier(file, IdFields, io.fetch);
      var previous :- PreviousOf(file, previousPath, io.present);
      if io.differs(file, previous) then Ok(init + [(id, Arr([Str(file), datasetType]))]) else Ok(init)
  }

  /** The files `diff_files` reports as changed. */
  predicate Changed(file: string, previousPath: Json, io: Io) {
    var previous := PreviousOf(file, previousPath, io.present);
    previous.Ok? && io.differs(file, previous.value)
  }

  /** The assignment a changed file makes. */
  function Assignment(file: string, datasetType: Json, io: Io): (string, Json)
    requires GetIdentifier(file, IdFields, io.fetch).Ok?
  {
    (GetIdentifier(file, IdFields, io.fetch).value, Arr([Str(file), datasetType]))
  }

  /** One more file: the loop succeeds when it did before and the file
      has an identifier and a previous folder to look in; it adds the
      file's assignment exactly when the file changed. */
  lemma AssignmentsStep(files: seq<string>, previousPath: Json, datasetType: Json, io: Io)
    requires |files| > 0
    ensures var init := Assignments(files[..|files| - 1], previousPath, datasetType, io);
      var file := files[|files| - 1];
      var r := Assignments(files, previousPath, datasetType, io);
      (r.Ok? <==> init.Ok? && GetIdentifier(file, IdFields, io.fetch).Ok? && previousPath.Str?)
      && (r.Ok? ==> r.value == init.value + if Changed(file, previousPath, io) then [Assignment(file, datasetType, io)] else [])
  {
  }

  /** Every file has an identifier. */
  predicate AllIdentified(files: seq<string>, io: Io) {
    forall i :: 0 <= i < |files| ==> GetIdentifier(files[i], IdFields, io.fetch).Ok?
  }

  /** The loop succeeds exactly when every file has an identifier and,
      unless there are no files, the previous folder is a string. */
  lemma {:induction false} AssignmentsOk(files: seq<string>, previousPath: Json, datasetType: Json, io: Io)
    ensures Assignments(files, previousPath, datasetType, io).Ok? <==>
      (|files| == 0 || previousPath.Str?) && AllIdentified(files, io)
    decreases |files|
  {
    if |files| > 0 {
      var init := files[..|files| - 1];
      var file := files[|files| - 1];
      AssignmentsOk(init, previousPath, datasetType, io);
      AssignmentsStep(files, previousPath, datasetType, io);
      AllIdentifiedSnoc(files, io);
    }
  }

  lemma AllIdentifiedSnoc(files: seq<string>, io: Io)
    requires |files| > 0
    ensures AllIdentified(files, io) <==>
      AllIdentified(files[..|files| - 1], io) && GetIdentifier(files[|files| - 1], IdFields, io.fetch).Ok?
  {
    assert forall i :: 0 <= i < |files| - 1 ==> files[..|files| - 1][i] == files[i];
  }

  /** The assignments are one per changed file, in file order. */
  predicate AssignmentsMatch(a: seq<(string, Json)>, changed: seq<string>, datasetType: Json, io: Io) {
    |a| == |changed|
    && forall i :: 0 <= i < |changed| ==>
         GetIdentifier(changed[i], IdFields, io.fetch).Ok? && a[i] == Assignment(changed[i], datasetType, io)
  }

  lemma AssignmentsMatchSnoc(a: seq<(string, Json)>, changed: seq<string>, file: string, datasetType: Json, io: Io)
    requires AssignmentsMatch(a, changed, datasetType, io)
    requires GetIdentifier(file, IdFields, io.fetch).Ok?
    ensures AssignmentsMatch(a + [Assignment(file, datasetType, io)], changed + [file], datasetType, io)
  {
    var a' := a + [Assignment(file, datasetType, io)];
    var c' := changed + [file];
    forall i | 0 <= i < |c'|
      ensures GetIdentifier(c'[i], IdFields, io.fetch).Ok? && a'[i] == Assignment(c'[i], datasetType, io)
    {
      if i < |changed| {
        assert a'[i] == a[i] && c'[i] == changed[i];
      }
    }
  }

  lemma {:induction false} AssignmentsSpec(files: seq<string>, previousPath: Json, datasetType: Json, io: Io)
    requires Assignments(files, previousPath, datasetType, io).Ok?
    ensures AssignmentsMatch(Assignments(files, previousPath, datasetType, io).value,
                             ChangedFiles(files, previousPath, io), datasetType, io)
    decreases |files|
  {
    if |files| > 0 {
      var init := files[..|files| - 1];
      var file := files[|files| - 1];
      AssignmentsStep(files, previousPath, datasetType, io);
      AssignmentsSpec(init, previousPath, datasetType, io);
      ChangedFilesSnoc(files, previousPath, io);
      var a0 := Assignments(init, previousPath, datasetType, io).value;
      var c0 := ChangedFiles(init, previousPath, io);
      if Changed(file, previousPath, io) {
        AssignmentsMatchSnoc(a0, c0, file, datasetType, io);
      } else {
        assert a0 + [] == a0 && c0 + [] == c0;
      }
    }
  }

  /** One more file adds itself to the changed files when it changed. */
  lemma ChangedFilesSnoc(files: seq<string>, previousPath: Json, io: Io)
    requires |files| > 0
    ensures var file := files[|files| - 1];
      ChangedFiles(files, previousPath, io) ==
        ChangedFiles(files[..|files| - 1], previousPath, io) + if Changed(file, previousPath, io) then [file] else []
  {
    var init := files[..|files| - 1];
    var file := files[|files| - 1];
    assert files == init + [file];
    FilterAppend(init, [file], ChangedIn(previousPath, io));
    assert [file][1..] == [];
  }

  /** The map a dataset type ends with: the starting map with the
      assignments applied. */
  function UpdatedKeys(start: Fields, files: seq<string>, previousPath: Json, datasetType: Json, io: Io): Result<Fields> {
    var a :- Assignments(files, previousPath, datasetType, io);
    Ok(SetAll(start, a))
  }

  /** `Changed` as a function value. */
  function ChangedIn(previousPath: Json, io: Io): string -> bool {
    f => Changed(f, previousPath, io)
  }

  /** The changed files, in file order. */
  function ChangedFiles(files: seq<string>, previousPath: Json, io: Io): seq<string> {
    Filter(files, ChangedIn(previousPath, io))
  }

  /** An identifier that no changed file has keeps its starting value. */
  lemma UpdatedKeysUntouched(start: Fields, files: seq<string>, previousPath: Json, datasetType: Json, io: Io, k: string)
    requires UpdatedKeys(start, files, previousPath, datasetType, io).Ok?
    requires var changed := ChangedFiles(files, previousPath, io);
      forall i :: 0 <= i < |changed| ==> GetIdentifier(changed[i], IdFields, io.fetch) != Ok(k)
    ensures Get(UpdatedKeys(start, files, previousPath, datasetType, io).value, k) == Get(start, k)
  {
    AssignmentsSpec(files, previousPath, datasetType, io);
    var changed := ChangedFiles(files, previousPath, io);
    var a := Assignments(files, previousPath, datasetType, io).value;
    assert k !in Keys(a) by {
      forall i | 0 <= i < |a|
        ensures Keys(a)[i] != k
      {
        assert a[i] == Assignment(changed[i], datasetType, io);
      }
    }
    SetAllUntouched(start, a, k);
  }

  /** An identifier maps to `[file, type]` of the last changed file that
      has it. */
  lemma UpdatedKeysLastWins(start: Fields, files: seq<string>, previousPath: Json, datasetType: Json, io: Io, k: string, i: nat)
    requires UpdatedKeys(start, files, previousPath, datasetType, io).Ok?
    requires var changed := ChangedFiles(files, previousPath, io);
      i < |changed| && GetIdentifier(changed[i], IdFields, io.fetch) == Ok(k)
      && forall j :: i < j < |changed| ==> GetIdentifier(changed[j], IdFields, io.fetch) != Ok(k)
    ensures var changed := ChangedFiles(files, previousPath, io);
      Get(UpdatedKeys(start, files, previousPath, datasetType, io).value, k) == Some(Arr([Str(changed[i]), datasetType]))
  {
    AssignmentsSpec(files, previousPath, datasetType, io);
    var changed := ChangedFiles(files, previousPath, io);
    var a := Assignments(files, previousPath, datasetType, io).value;
    assert a[i] == Assignment(changed[i], datasetType, io);
    forall j | i < j < |a|
      ensures a[j].0 != a[i].0
    {
      assert a[j] == Assignment(changed[j], datasetType, io);
    }
    SetAllLast(start, a, i);
  }

  // ---------------------------------------------------------------------
  // get_updated_files

  /** One Redis write: the key and the map stored under it. */
  datatype Write = Write(redisKey: Json, value: Fields)

  /** A change the plugin makes to Redis, in the order it makes them. */
  datatype Effect = Deleted(redisKey: Json) | Stored(redisKey: Json, value: Fields)

  /** The Redis changes made and the error that ended the run, if any;
      changes made before an error stay made. */
  datatype Outcome = Outcome(effects: seq<Effect>, error: Option<string>)

  /** `dataset.get("redis_key", None)`. */
  function RedisKey(dataset: Json): Json
    requires dataset.Obj?
  {
    Get(dataset.fields, "redis_key").GetOr(Null)
  }

  /** `dataset.get("remove_key_before_update", True)`. */
  function RemoveFlag(dataset: Json): Json
    requires dataset.Obj?
  {
    Get(dataset.fields, "remove_key_before_update").GetOr(Bool(true))
  }

  /** The map a dataset type starts from: empty unless the configuration
      sets `remove_key_before_update` to something false, in which case
      it is the map stored under the key. A missing key leaves `None`,
      which `len` rejects; a stored value that is not a map is rejected
      too. */
  function StartingKeys(dataset: Json, io: Io): (r: Result<Fields>)
    ensures !dataset.Obj? ==> r == Err("AttributeError")
    ensures dataset.Obj? && Truthy(RemoveFlag(dataset)) ==> r == Ok([])
    ensures dataset.Obj? && "remove_key_before_update" !in Keys(dataset.fields) ==> r == Ok([])
    ensures dataset.Obj? && !Truthy(RemoveFlag(dataset)) ==>
      var stored := io.stored(RedisKey(dataset));
      (r.Ok? <==> stored.Some? && stored.value.Obj?)
      && (r.Ok? ==> r.value == stored.value.fields)
      && (stored.None? ==> r == Err("TypeError"))
  {
    if !dataset.Obj? then Err("AttributeError")
    else if Truthy(RemoveFlag(dataset)) then Ok([])
    else
      match io.stored(RedisKey(dataset))
      case Some(Obj(fields)) => Ok(fields)
      case _ => Err("TypeError")
  }

  /** What one dataset type writes. */
  function ProcessDataset(dataset: Json, io: Io): Result<Write> {
    var start :- StartingKeys(dataset, io);
    var datasetType := Get(dataset.fields, "name").GetOr(Null);
    var newFilesPath := Get(dataset.fields, "new_files_path").GetOr(Null);
    var previousPath := Get(dataset.fields, "previous_files_path").GetOr(Null);
    var keys :- UpdatedKeys(start, io.listing(newFilesPath), previousPath, datasetType, io);
    Ok(Write(RedisKey(dataset), keys))
  }

  /** `ProcessDataset` as a function value, for mapping over the list. */
  function Processor(io: Io): Json -> Result<Write> {
    d => ProcessDataset(d, io)
  }

  /** What every dataset type writes, in configuration order. */
  function ProcessDatasets(datasets: seq<Json>, io: Io): (r: Result<seq<Write>>)
    ensures r.Ok? <==> forall i :: 0 <= i < |datasets| ==> ProcessDataset(datasets[i], io).Ok?
    ensures r.Ok? ==> |r.value| == |datasets|
    ensures r.Ok? ==> forall i :: 0 <= i < |datasets| ==> ProcessDataset(datasets[i], io) == Ok(r.value[i])
  {
    MapResult(datasets, Processor(io))
  }

  /** The Redis changes of one dataset type: its key is deleted as soon
      as the stored map has been read, before the files are looked at,
      so a dataset that then fails leaves its key deleted. */
  function DatasetRun(dataset: Json, io: Io): (r: Outcome)
    ensures r.error.None? <==> ProcessDataset(dataset, io).Ok?
    ensures r.error.Some? ==> ProcessDataset(dataset, io) == Err(r.error.value)
    ensures r.error.None? ==>
      r.effects == [Deleted(RedisKey(dataset)), Stored(RedisKey(dataset), ProcessDataset(dataset, io).value.value)]
    ensures dataset.Obj? ==> |r.effects| > 0 && r.effects[0] == Deleted(RedisKey(dataset))
    ensures !dataset.Obj? ==> r.effects == []
  {
    if !dataset.Obj? then Outcome([], Some("AttributeError"))
    else
      match ProcessDataset(dataset, io)
      case Err(e) => Outcome([Deleted(RedisKey(dataset))], Some(e))
      case Ok(w) => Outcome([Deleted(w.redisKey), Stored(w.redisKey, w.value)], None)
  }

  /** `DatasetRun` as a function value. */
  function Stepper(io: Io): Json -> Outcome {
    d => DatasetRun(d, io)
  }

  /** The loop over the dataset types, with the changes of one dataset
      type given by `step`: each one's changes in turn, up to and
      including the first that fails. */
  function RunWith(datasets: seq<Json>, step: Json -> Outcome): Outcome
    decreases |datasets|
  {
    if |datasets| == 0 then Outcome([], None)
    else
      var first := step(datasets[0]);
      if first.error.Some? then first
      else
        var rest := RunWith(datasets[1..], step);
        Outcome(first.effects + rest.effects, rest.error)
  }

  /** The loop over the dataset types of `get_updated_files`. */
  function Run(datasets: seq<Json>, io: Io): Outcome {
    RunWith(datasets, Stepper(io))
  }

  /** The changes a list of completed writes makes: each key deleted and
      then set. */
  function WriteEffects(ws: seq<Write>): (r: seq<Effect>)
    ensures |r| == 2 * |ws|
    decreases |ws|
  {
    if |ws| == 0 then [] else [Deleted(ws[0].redisKey), Stored(ws[0].redisKey, ws[0].value)] + WriteEffects(ws[1..])
  }

  /** Write `i` is its key's deletion at `2 * i` followed by the new
      value at `2 * i + 1`. */
  lemma {:induction false} WriteEffectsAt(ws: seq<Write>, i: nat)
    requires i < |ws|
    ensures WriteEffects(ws)[2 * i] == Deleted(ws[i].redisKey)
    ensures WriteEffects(ws)[2 * i + 1] == Stored(ws[i].redisKey, ws[i].value)
    decreases i
  {
    if i > 0 {
      WriteEffectsAt(ws[1..], i - 1);
      assert ws[1..][i - 1] == ws[i];
    }
  }

  lemma WriteEffectsCons(w: Write, ws: seq<Write>)
    ensures WriteEffects([w] + ws) == [Deleted(w.redisKey), Stored(w.redisKey, w.value)] + WriteEffects(ws)
  {
    assert ([w] + ws)[1..] == ws;
  }

  /** The changes `o` of one dataset type are those of the write `w`: a
      completed write deletes and sets its key, and a failure is `w`'s. */
  predicate Agrees(o: Outcome, w: Result<Write>) {
    (o.error.None? <==> w.Ok?)
    && (w.Ok? ==> o.effects == [Deleted(w.value.redisKey), Stored(w.value.redisKey, w.value.value)])
    && (w.Err? ==> o.error == Some(w.error))
  }

  lemma StepperAgrees(io: Io, d: Json)
    ensures Agrees(Stepper(io)(d), Processor(io)(d))
  {
  }

  lemma MapResultCons<T, U>(x: T, xs: seq<T>, f: T -> Result<U>)
    requires f(x).Ok? && MapResult(xs, f).Ok?
    ensures MapResult([x] + xs, f) == Ok([f(x).value] + MapResult(xs, f).value)
  {
    assert ([x] + xs)[1..] == xs;
  }

  lemma {:induction false} RunWithOk(datasets: seq<Json>, step: Json -> Outcome, f: Json -> Result<Write>)
    requires forall i :: 0 <= i < |datasets| ==> Agrees(step(datasets[i]), f(datasets[i]))
    ensures RunWith(datasets, step).error.None? <==> MapResult(datasets, f).Ok?
    ensures RunWith(datasets, step).error.None? ==> RunWith(datasets, step).effects == WriteEffects(MapResult(datasets, f).value)
    decreases |datasets|
  {
    if |datasets| > 0 {
      var tail := datasets[1..];
      assert forall i :: 0 <= i < |tail| ==> tail[i] == datasets[i + 1];
      assert Agrees(step(datasets[0]), f(datasets[0]));
      RunWithOk(tail, step, f);
      assert datasets == [datasets[0]] + tail;
      if f(datasets[0]).Ok? && MapResult(tail, f).Ok? {
        MapResultCons(datasets[0], tail, f);
        WriteEffectsCons(f(datasets[0]).value, MapResult(tail, f).value);
      }
    }
  }

  /** The run completes exactly when every dataset type's write can be
      computed, and then deletes and sets each key in turn. */
  lemma RunOk(datasets: seq<Json>, io: Io)
    ensures Run(datasets, io).error.None? <==> ProcessDatasets(datasets, io).Ok?
    ensures Run(datasets, io).error.None? ==> Run(datasets, io).effects == WriteEffects(ProcessDatasets(datasets, io).value)
  {
    forall i | 0 <= i < |datasets|
      ensures Agrees(Stepper(io)(datasets[i]), Processor(io)(datasets[i]))
    {
      StepperAgrees(io, datasets[i]);
    }
    RunWithOk(datasets, Stepper(io), Processor(io));
  }

  /** A run that fails stops at entry `k`: the entries before it were
      deleted and set, then `k`'s own changes were made, and its error is
      the run's. */
  predicate StopsWith(datasets: seq<Json>, step: Json -> Outcome, f: Json -> Result<Write>, k: int, out: Outcome) {
    0 <= k < |datasets|
    && MapResult(datasets[..k], f).Ok?
    && f(datasets[k]).Err?
    && out.effects == WriteEffects(MapResult(datasets[..k], f).value) + step(datasets[k]).effects
    && out.error == Some(f(datasets[k]).error)
  }

  lemma StopsWithCons(datasets: seq<Json>, step: Json -> Outcome, f: Json -> Result<Write>, k: nat)
    requires |datasets| > 0 && Agrees(step(datasets[0]), f(datasets[0])) && step(datasets[0]).error.None?
    requires StopsWith(datasets[1..], step, f, k, RunWith(datasets[1..], step))
    ensures StopsWith(datasets, step, f, k + 1, RunWith(datasets, step))
  {
    var tail := datasets[1..];
    var d := datasets[0];
    var ws := MapResult(tail[..k], f).value;
    assert datasets[..k + 1] == [d] + tail[..k];
    assert datasets[k + 1] == tail[k];
    MapResultCons(d, tail[..k], f);
    assert MapResult(datasets[..k + 1], f) == Ok([f(d).value] + ws);
    WriteEffectsCons(f(d).value, ws);
    var out := RunWith(datasets, step);
    assert out.effects == step(d).effects + RunWith(tail, step).effects;
    assert step(d).effects == [Deleted(f(d).value.redisKey), Stored(f(d).value.redisKey, f(d).value.value)];
  }

  lemma {:induction false} RunWithErr(datasets: seq<Json>, step: Json -> Outcome, f: Json -> Result<Write>)
    requires forall i :: 0 <= i < |datasets| ==> Agrees(step(datasets[i]), f(datasets[i]))
    requires RunWith(datasets, step).error.Some?
    ensures exists k :: StopsWith(datasets, step, f, k, RunWith(datasets, step))
    decreases |datasets|
  {
    assert Agrees(step(datasets[0]), f(datasets[0]));
    if step(datasets[0]).error.Some? {
      assert datasets[..0] == [];
      assert StopsWith(datasets, step, f, 0, RunWith(datasets, step));
    } else {
      var tail := datasets[1..];
      assert forall i :: 0 <= i < |tail| ==> tail[i] == datasets[i + 1];
      RunWithErr(tail, step, f);
      var k :| StopsWith(tail, step, f, k, RunWith(tail, step));
      StopsWithCons(datasets, step, f, k);
    }
  }

  /** A run that fails stops at the first dataset type `k` whose write
      cannot be computed: the ones before it were deleted and set, then
      `k`'s own changes (its key deleted, when it is a map) were made,
      and its error is the run's. */
  predicate StopsAt(datasets: seq<Json>, io: Io, k: int, out: Outcome) {
    0 <= k < |datasets|
    && ProcessDatasets(datasets[..k], io).Ok?
    && ProcessDataset(datasets[k], io).Err?
    && out.effects == WriteEffects(ProcessDatasets(datasets[..k], io).value) + DatasetRun(datasets[k], io).effects
    && out.error == Some(ProcessDataset(datasets[k], io).error)
  }

  lemma RunErr(datasets: seq<Json>, io: Io)
    requires Run(datasets, io).error.Some?
    ensures exists k :: StopsAt(datasets, io, k, Run(datasets, io))
  {
    forall i | 0 <= i < |datasets|
      ensures Agrees(Stepper(io)(datasets[i]), Processor(io)(datasets[i]))
    {
      StepperAgrees(io, datasets[i]);
    }
    RunWithErr(datasets, Stepper(io), Processor(io));
    var k :| StopsWith(datasets, Stepper(io), Processor(io), k, RunWith(datasets, Stepper(io)));
    assert Stepper(io)(datasets[k]) == DatasetRun(datasets[k], io);
    assert Processor(io)(datasets[k]) == ProcessDataset(datasets[k], io);
    assert StopsAt(datasets, io, k, Run(datasets, io));
  }

  /** The configuration check: host, port and dataset list must be truthy
      and the database present and not null. */
  predicate ParamsValid(params: Fields) {
    Truthy(Get(params, "redis_host").GetOr(Null))
    && Truthy(Get(params, "redis_port").GetOr(Null))
    && Get(params, "redis_db").GetOr(Null) != Null
    && Truthy(Get(params, "data_types").GetOr(Null))
  }

  /** `get_updated_files(name, params)`: the Redis changes it makes, in
      order, and the error it stops with, if any. */
  function GetUpdatedFiles(params: Json, io: Io): (r: Outcome)
    ensures !params.Obj? ==> r == Outcome([], Some("AttributeError"))
    ensures params.Obj? && !ParamsValid(params.fields) ==> r == Outcome([], Some("SystemExit"))
    ensures r.effects != [] ==> params.Obj? && ParamsValid(params.fields)
    ensures params.Obj? && ParamsValid(params.fields) && PyIter(Get(params.fields, "data_types").value).Ok? ==>
      r == Run(PyIter(Get(params.fields, "data_types").value).value, io)
  {
    if !params.Obj? then Outcome([], Some("AttributeError"))
    else if !ParamsValid(params.fields) then Outcome([], Some("SystemExit"))
    else
      match PyIter(Get(params.fields, "data_types").value)
      case Err(e) => Outcome([], Some(e))
      case Ok(items) => Run(items, io)
  }

  /** A dataset type without `remove_key_before_update` starts from an
      empty map, so what it writes is only its changed files. */
  lemma DefaultRemovesKey(dataset: Json, io: Io)
    requires dataset.Obj? && "remove_key_before_update" !in Keys(dataset.fields)
    requires ProcessDataset(dataset, io).Ok?
    ensures var newFiles := io.listing(Get(dataset.fields, "new_files_path").GetOr(Null));
      var previousPath := Get(dataset.fields, "previous_files_path").GetOr(Null);
      var datasetType := Get(dataset.fields, "name").GetOr(Null);
      ProcessDataset(dataset, io).value.value == UpdatedKeys([], newFiles, previousPath, datasetType, io).value
  {
  }

  /** A dataset type that keeps its stored map but then fails leaves
      nothing under its key: the map was read and the key deleted before
      the failure. */
  lemma KeptMapLostOnError(dataset: Json, io: Io)
    requires dataset.Obj? && !Truthy(RemoveFlag(dataset))
    requires ProcessDataset(dataset, io).Err?
    ensures DatasetRun(dataset, io) == Outcome([Deleted(RedisKey(dataset))], Some(ProcessDataset(dataset, io).error))
  {
  }
}
