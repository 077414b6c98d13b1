/** `plugins/generate_ineo_record.py`: the summary of the updated-files
    map, one counter per file type. A file info of one element counts under
    `"unknown"`, one of two elements under its second element, and any
    other length is skipped. Reading the map from Redis is left out: the
    map is given as its parsed value. */
module IneoRecord {
  import opened Wrappers
  import opened Dicts
  import opened JsonValues

  const Unknown: Json := Str("unknown")

  /** Counters per file type, in the order the types first appear. */
  type Counters = Dict<Json, int>

  /** The type one file info is counted under, None when it is skipped.
      `len` raises on a value without length, the indexing on a dict, and
      a list or dict type cannot be looked up in the counters. */
  function FileType(info: Json): (r: Result<Option<Json>>)
    ensures r.Ok? && r.value.Some? ==> Hashable(r.value.value)
    ensures info.Arr? && |info.items| == 1 ==> r == Ok(Some(Unknown))
    ensures info.Arr? && |info.items| == 2 && Hashable(info.items[1]) ==> r == Ok(Some(info.items[1]))
    ensures info.Arr? && |info.items| != 1 && |info.items| != 2 ==> r == Ok(None)
  {
    var n :- PyLen(info);
    if n == 1 then
      var path :- PyAt(info, 0);
      Ok(Some(Unknown))
    else if n == 2 then
      var path :- PyAt(info, 0);
      var fileType :- PyAt(info, 1);
      if Hashable(fileType) then Ok(Some(fileType)) else Err("TypeError")
    else Ok(None)
  }

  /** `counters[file_type] = 1` for a new type, `+= 1` for a known one. */
  function Bump(c: Counters, t: Json): (r: Counters) {
    Set(c, t, Next(c, t))
  }

  /** The counter of `t` after one more file of that type. */
  function Next<K(==)>(c: Dict<K, int>, t: K): int {
    Get(c, t).GetOr(0) + 1
  }

  /** The type of one entry of the map. */
  function EntryType(e: (string, Json)): Result<Option<Json>> {
    FileType(e.1)
  }

  /** The counters after the types one by one, in order, each added by
      `add`. */
  function TallyWith<K>(ts: seq<Option<K>>, add: (Dict<K, int>, Option<K>) -> Dict<K, int>): Dict<K, int>
    decreases |ts|
  {
    if |ts| == 0 then []
    else
      add(TallyWith(ts[..|ts| - 1], add), ts[|ts| - 1])
  }

  /** `Add` as a function value. */
  function Adder(): (Counters, Option<Json>) -> Counters {
    (c, x) => Add(c, x)
  }

  /** The counters after the types one by one, in order. */
  function Tally(ts: seq<Option<Json>>): Counters {
    TallyWith(ts, Adder())
  }

  /** One type: counted unless the entry was skipped. */
  function Add(c: Counters, x: Option<Json>): Counters {
    match x
    case None => c
    case Some(t) => Bump(c, t)
  }

  /** The loop over `updated_files.items()`: the first entry whose type
      raises ends it, and otherwise every type is counted in order. */
  function Count(entries: Fields): (r: Result<Counters>)
    ensures r.Ok? <==> forall i :: 0 <= i < |entries| ==> FileType(entries[i].1).Ok?
  {
    var ts :- MapResult(entries, EntryType);
    Ok(Tally(ts))
  }

  /** The types of the entries, when none raises. */
  function Types(entries: Fields): (ts: seq<Option<Json>>)
    requires Count(entries).Ok?
    ensures |ts| == |entries| && forall i :: 0 <= i < |entries| ==> FileType(entries[i].1) == Ok(ts[i])
  {
    MapResult(entries, EntryType).value
  }

  /** `generate_ineo_record` after the fetch: `len` raises on a value
      without length and `.items()` on anything but a dict. */
  function GenerateIneoRecord(updatedFiles: Json): (r: Result<Counters>)
    ensures r.Ok? <==> updatedFiles.Obj? && Count(updatedFiles.fields).Ok?
    ensures !updatedFiles.Obj? && !updatedFiles.Arr? && !updatedFiles.Str? ==> r == Err("TypeError")
  {
    var n :- PyLen(updatedFiles);
    if !updatedFiles.Obj? then Err("AttributeError")
    else Count(updatedFiles.fields)
  }

  // ---------------------------------------------------------------------
  // properties

  /** The sum of the counters. */
  function Total(c: Counters): int
    decreases |c|
  {
    if |c| == 0 then 0 else c[0].1 + Total(c[1..])
  }

  /** Setting a counter changes the sum by the difference. */
  lemma {:induction false} TotalSet(c: Counters, t: Json, v: int)
    ensures Total(Set(c, t, v)) + Get(c, t).GetOr(0) == Total(c) + v
    decreases |c|
  {
    if |c| > 0 && c[0].0 != t {
      TotalSet(c[1..], t, v);
      assert Set(c, t, v) == [c[0]] + Set(c[1..], t, v);
      assert ([c[0]] + Set(c[1..], t, v))[1..] == Set(c[1..], t, v);
    } else if |c| > 0 {
      assert Set(c, t, v)[1..] == c[1..];
    }
  }

  /** Adding a counted type is setting its counter to one more. */
  lemma AddSome(c: Counters, t: Json)
    ensures Add(c, Some(t)) == Set(c, t, Next(c, t))
  {
  }

  /** Adding a type counts it once more and leaves the other types. */
  lemma AddGet(c: Counters, x: Option<Json>, t: Json)
    ensures Get(Add(c, x), t) == if x == Some(t) then Some(Next(c, t)) else Get(c, t)
  {
    match x
    case None =>
    case Some(u) =>
      if u == t {
        assert Bump(c, t) == Set(c, t, Next(c, t));
      } else {
        assert Bump(c, u) == Set(c, u, Next(c, u));
      }
  }

  /** Adding a counted type adds one to the sum. */
  lemma AddTotal(c: Counters, x: Option<Json>)
    ensures Total(Add(c, x)) == Total(c) + if x.Some? then 1 else 0
  {
    if x.Some? {
      AddSome(c, x.value);
      TotalSet(c, x.value, Next(c, x.value));
    }
  }

  /** Adding a type keeps the types unique. */
  lemma AddUnique(c: Counters, x: Option<Json>)
    requires UniqueKeys(c)
    ensures UniqueKeys(Add(c, x))
  {
    if x.Some? {
      AddSome(c, x.value);
      SetUnique(c, x.value, Next(c, x.value));
    }
  }

  /** How many of the types are `t`. */
  function Occurrences<K(==)>(ts: seq<Option<K>>, t: K): nat
    decreases |ts|
  {
    if |ts| == 0 then 0
    else Occurrences(ts[..|ts| - 1], t) + if ts[|ts| - 1] == Some(t) then 1 else 0
  }

  /** How many of the entries are counted at all. */
  function Counted(ts: seq<Option<Json>>): nat
    decreases |ts|
  {
    if |ts| == 0 then 0
    else Counted(ts[..|ts| - 1]) + if ts[|ts| - 1].Some? then 1 else 0
  }

  /** Every type is counted as often as it occurs, and a type that does
      not occur is absent. */
  lemma TallySpec(ts: seq<Option<Json>>, t: Json)
    ensures Get(Tally(ts), t) == if Occurrences(ts, t) == 0 then None else Some(Occurrences(ts, t))
  {
    AdderCounts(t);
    TallyWithSpec(ts, t, Adder());
  }

  /** `add` counts `t` as `Add` does. */
  ghost predicate CountsLikeAdd<K(!new)>(add: (Dict<K, int>, Option<K>) -> Dict<K, int>, t: K) {
    forall c, x :: Get(add(c, x), t) == if x == Some(t) then Some(Next(c, t)) else Get(c, t)
  }

  lemma AdderCounts(t: Json)
    ensures CountsLikeAdd(Adder(), t)
  {
    forall c, x
      ensures Get(Adder()(c, x), t) == if x == Some(t) then Some(Next(c, t)) else Get(c, t)
    {
      AddGet(c, x, t);
    }
  }

  lemma {:induction false} TallyWithSpec<K(!new)>(ts: seq<Option<K>>, t: K, add: (Dict<K, int>, Option<K>) -> Dict<K, int>)
    requires CountsLikeAdd(add, t)
    ensures Get(TallyWith(ts, add), t) == if Occurrences(ts, t) == 0 then None else Some(Occurrences(ts, t))
    decreases |ts|
  {
    if |ts| > 0 {
      var init := ts[..|ts| - 1];
      var x := ts[|ts| - 1];
      TallyWithSpec(init, t, add);
      var c := TallyWith(init, add);
      var n := Occurrences(init, t);
      assert TallyWith(ts, add) == add(c, x);
      if x == Some(t) {
        assert Occurrences(ts, t) == n + 1;
        NextFrom(c, t, n);
      } else {
        assert Occurrences(ts, t) == n;
      }
    }
  }

  /** A counter holding `n` (absent for zero) goes to `n + 1`. */
  lemma NextFrom<K>(c: Dict<K, int>, t: K, n: nat)
    requires Get(c, t) == if n == 0 then None else Some(n)
    ensures Next(c, t) == n + 1
  {
  }

  /** The sum of the counters is the number of types that are counted. */
  lemma {:induction false} TallyTotal(ts: seq<Option<Json>>)
    ensures Total(Tally(ts)) == Counted(ts)
    decreases |ts|
  {
    if |ts| > 0 {
      TallyTotal(ts[..|ts| - 1]);
      AddTotal(Tally(ts[..|ts| - 1]), ts[|ts| - 1]);
    }
  }

  /** Each type appears once among the counters. */
  lemma {:induction false} TallyUnique(ts: seq<Option<Json>>)
    ensures UniqueKeys(Tally(ts))
    decreases |ts|
  {
    if |ts| == 0 {
      assert Keys(Tally(ts)) == [];
    } else {
      TallyUnique(ts[..|ts| - 1]);
      AddUnique(Tally(ts[..|ts| - 1]), ts[|ts| - 1]);
    }
  }

  /** Every type has the number of entries counted under it, and a type
      no entry has is absent. */
  lemma CountSpec(entries: Fields, t: Json)
    requires Count(entries).Ok?
    ensures var n := Occurrences(Types(entries), t);
      Get(Count(entries).value, t) == if n == 0 then None else Some(n)
  {
    TallySpec(Types(entries), t);
  }

  /** So every counter is at least 1. */
  lemma CountPositive(entries: Fields, t: Json)
    requires Count(entries).Ok? && Get(Count(entries).value, t).Some?
    ensures Get(Count(entries).value, t).value >= 1
  {
    CountSpec(entries, t);
  }

  /** The sum of the counters is the number of entries of length one or
      two. */
  lemma CountTotal(entries: Fields)
    requires Count(entries).Ok?
    ensures Total(Count(entries).value) == Counted(Types(entries))
  {
    TallyTotal(Types(entries));
  }

  /** Each type appears once among the counters. */
  lemma CountUnique(entries: Fields)
    requires Count(entries).Ok?
    ensures UniqueKeys(Count(entries).value)
  {
    TallyUnique(Types(entries));
  }
}
