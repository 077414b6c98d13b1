/** The pure parts of `src/FAIRdatasets_tools_harvester.py`: the
    canonical form of a record used for change detection, the folder
    listing, and the variant of `compare_lists` that puts the first path
    segment of each list back in front of its names. */
module FairHarvester {
  import opened Wrappers
  import opened Seqs
  import opened Strings
  import opened Dicts
  import opened JsonValues
  import Harvester

  const CanonPurge: string := "__canon_purge__"

  /** The file `get_canonical` writes next to the original. */
  function CanonFileName(fileName: string): (r: string)
    ensures StartsWith(r, fileName) && EndsWith(r, ".canon")
  {
    fileName + ".canon"
  }

  /** The review with its two volatile fields overwritten. */
  function PurgeReview(review: Fields): (r: Fields)
    ensures Get(r, "@id") == Some(Str(CanonPurge)) && Get(r, "datePublished") == Some(Str(CanonPurge))
    ensures forall k :: k != "@id" && k != "datePublished" ==> Get(r, k) == Get(review, k)
  {
    Set(Set(review, "@id", Str(CanonPurge)), "datePublished", Str(CanonPurge))
  }

  /** `get_canonical` on the parsed record: when `review` is in it, the
      review's `@id` and `datePublished` become `__canon_purge__`. The
      membership test runs on whatever the record is, so a list or string
      record that contains `"review"` and a review that is not a dict
      raise. */
  function GetCanonical(data: Json): (r: Result<Json>)
    ensures r.Ok? ==> data.Obj? || data.Arr? || data.Str?
  {
    var hasReview :- PyIn(Str("review"), data);
    if !hasReview then Ok(data)
    else if !data.Obj? then Err("TypeError")
    else
      var review := Get(data.fields, "review").value;
      if !review.Obj? then Err("TypeError")
      else Ok(Obj(Set(data.fields, "review", Obj(PurgeReview(review.fields)))))
  }

  /** A record without a review is left as it is; a record with a dict
      review changes in exactly the review's `@id` and `datePublished`. */
  lemma GetCanonicalSpec(fields: Fields)
    ensures "review" !in Keys(fields) ==> GetCanonical(Obj(fields)) == Ok(Obj(fields))
    ensures "review" in Keys(fields) ==>
      (GetCanonical(Obj(fields)).Ok? <==> Get(fields, "review").value.Obj?)
    ensures "review" in Keys(fields) && GetCanonical(Obj(fields)).Ok? ==>
      var out := GetCanonical(Obj(fields)).value.fields;
      var review := Get(fields, "review").value.fields;
      (forall k :: k != "review" ==> Get(out, k) == Get(fields, k))
      && Get(out, "review").Some? && Get(out, "review").value.Obj?
      && Get(Get(out, "review").value.fields, "@id") == Some(Str(CanonPurge))
      && Get(Get(out, "review").value.fields, "datePublished") == Some(Str(CanonPurge))
      && forall k :: k != "@id" && k != "datePublished" ==>
           Get(Get(out, "review").value.fields, k) == Get(review, k)
  {
  }

  /** Purging is idempotent: the canonical form of a canonical record is
      itself. */
  lemma GetCanonicalIdempotent(data: Json)
    requires GetCanonical(data).Ok?
    ensures GetCanonical(GetCanonical(data).value) == GetCanonical(data)
  {
    var out := GetCanonical(data).value;
    if data.Obj? && "review" in Keys(data.fields) {
      var review := Get(data.fields, "review").value.fields;
      var purged := PurgeReview(review);
      var fields := Set(data.fields, "review", Obj(purged));
      assert out == Obj(fields);
      assert Get(fields, "review") == Some(Obj(purged));
      PurgeTwice(review);
      SetSame(fields, "review", Obj(purged));
      assert GetCanonical(out) == Ok(Obj(Set(fields, "review", Obj(PurgeReview(purged)))));
    } else {
      assert out == data;
    }
  }

  lemma PurgeTwice(review: Fields)
    ensures PurgeReview(PurgeReview(review)) == PurgeReview(review)
  {
    var once := Set(review, "@id", Str(CanonPurge));
    var p := Set(once, "datePublished", Str(CanonPurge));
    SetSame(p, "@id", Str(CanonPurge));
    SetSame(p, "datePublished", Str(CanonPurge));
  }

  // ---------------------------------------------------------------------
  // get_files

  /** `get_files(folder)`: the `.json` entries, written `{folder}/{name}`;
      None when the folder is missing. */
  function GetJsonFiles(present: bool, entries: seq<string>, folder: string): (r: Option<seq<string>>)
    ensures r.None? <==> !present
    ensures r.Some? ==> |r.value| <= |entries|
    decreases |entries|
  {
    if !present then None
    else if |entries| == 0 then Some([])
    else
      var rest := GetJsonFiles(present, entries[1..], folder).value;
      Some(if EndsWith(entries[0], ".json") then [folder + "/" + entries[0]] + rest else rest)
  }

  lemma {:induction false} GetJsonFilesMembers(entries: seq<string>, folder: string, x: string)
    ensures x in GetJsonFiles(true, entries, folder).value <==>
      exists i :: 0 <= i < |entries| && EndsWith(entries[i], ".json") && x == folder + "/" + entries[i]
    decreases |entries|
  {
    if |entries| > 0 {
      GetJsonFilesMembers(entries[1..], folder, x);
      if exists i :: 0 <= i < |entries| - 1 && EndsWith(entries[1..][i], ".json") && x == folder + "/" + entries[1..][i] {
        var i :| 0 <= i < |entries| - 1 && EndsWith(entries[1..][i], ".json") && x == folder + "/" + entries[1..][i];
        assert entries[i + 1] == entries[1..][i];
      }
      if exists i :: 0 <= i < |entries| && EndsWith(entries[i], ".json") && x == folder + "/" + entries[i] {
        var i :| 0 <= i < |entries| && EndsWith(entries[i], ".json") && x == folder + "/" + entries[i];
        if i > 0 {
          assert entries[1..][i - 1] == entries[i];
        }
      }
    }
  }

  // ---------------------------------------------------------------------
  // compare_lists, prefixed variant

  /** `f"{list[0].split('/')[0]}/{x}"` for each name. */
  function Prefixed(prefix: string, names: seq<string>): (r: seq<string>)
    ensures |r| == |names| && forall i :: 0 <= i < |names| ==> r[i] == prefix + "/" + names[i]
  {
    seq(|names|, i requires 0 <= i < |names| => prefix + "/" + names[i])
  }

  /** One half of the comparison: the names only in `l`, prefixed with
      the first segment of `l`'s first path; an empty list gives nothing. */
  function Half(l: seq<string>, other: seq<string>): (r: seq<string>) {
    if |l| > 0 then Prefixed(Split(l[0], '/')[0], Harvester.Minus(Harvester.Basenames(l), Harvester.Basenames(other)))
    else []
  }

  /** `compare_lists` of this harvester. */
  function CompareListsPrefixed(list1: Option<seq<string>>, list2: Option<seq<string>>): seq<string> {
    var l1 := Harvester.OrEmpty(list1);
    var l2 := Harvester.OrEmpty(list2);
    Half(l1, l2) + Half(l2, l1)
  }

  /** The first part holds exactly the names only in the first list, each
      behind the first list's leading segment, and the second part the
      same for the second list; the parts have no repetitions. */
  lemma CompareListsPrefixedSpec(list1: Option<seq<string>>, list2: Option<seq<string>>)
    ensures var l1 := Harvester.OrEmpty(list1);
      var l2 := Harvester.OrEmpty(list2);
      var b1 := Harvester.Basenames(l1);
      var b2 := Harvester.Basenames(l2);
      var p := Half(l1, l2);
      var q := Half(l2, l1);
      CompareListsPrefixed(list1, list2) == p + q
      && Distinct(p) && Distinct(q)
      && (|l1| == 0 ==> p == [])
      && (|l1| > 0 ==> forall x :: x in p <==>
            exists y :: y in b1 && y !in b2 && x == Split(l1[0], '/')[0] + "/" + y)
      && (|l2| > 0 ==> forall x :: x in q <==>
            exists y :: y in b2 && y !in b1 && x == Split(l2[0], '/')[0] + "/" + y)
  {
    var l1 := Harvester.OrEmpty(list1);
    var l2 := Harvester.OrEmpty(list2);
    if |l1| > 0 {
      PrefixedSpec(Split(l1[0], '/')[0], Harvester.Minus(Harvester.Basenames(l1), Harvester.Basenames(l2)));
    }
    if |l2| > 0 {
      PrefixedSpec(Split(l2[0], '/')[0], Harvester.Minus(Harvester.Basenames(l2), Harvester.Basenames(l1)));
    }
  }

  /** Prefixing keeps distinct names distinct and lists each name once. */
  lemma PrefixedSpec(prefix: string, names: seq<string>)
    requires Distinct(names)
    ensures Distinct(Prefixed(prefix, names))
    ensures forall x :: x in Prefixed(prefix, names) <==> exists y :: y in names && x == prefix + "/" + y
  {
    var r := Prefixed(prefix, names);
    forall i, j | 0 <= i < |r| && 0 <= j < |r| && i != j
      ensures r[i] != r[j]
    {
      var n := |prefix + "/"|;
      assert names[i] == r[i][n..];
      assert names[j] == r[j][n..];
    }
    forall x | x in r
      ensures exists y :: y in names && x == prefix + "/" + y
    {
      var i :| 0 <= i < |r| && r[i] == x;
      assert names[i] in names;
    }
    forall x | exists y :: y in names && x == prefix + "/" + y
      ensures x in r
    {
      var y :| y in names && x == prefix + "/" + y;
      var i :| 0 <= i < |names| && names[i] == y;
      assert r[i] == x;
    }
  }
}
