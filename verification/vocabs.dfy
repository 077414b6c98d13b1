/** `src/vocabs/vocabs.py`: every entry of the NWO research-field graph
    whose `skos:prefLabel` equals the `title` of a research domain gets
    `skos:exactMatch` set to `"{index} {title}"` of that domain. The two
    documents are given parsed; reading and writing them is left out. */
module Vocabs {
  import opened Wrappers
  import opened Dicts
  import opened JsonValues

  const PrefLabel: string := "skos:prefLabel"
  const ExactMatch: string := "skos:exactMatch"

  /** The label of a graph entry, when it is a dict that has one. */
  function EntryLabel(entry: Json): Option<Json> {
    if entry.Obj? then Get(entry.fields, PrefLabel) else None
  }

  /** `'skos:prefLabel' in entry and entry['skos:prefLabel'] == title`, for
      entries on which the membership test does not raise. */
  predicate Matches(entry: Json, title: Json) {
    EntryLabel(entry) == Some(title)
  }

  /** `[entry['skos:prefLabel'] for entry in graph if 'skos:prefLabel' in
      entry]`; the test raises on entries that are not containers, and the
      lookup on lists and strings that contain the text. */
  function Labels(graph: seq<Json>): (r: Result<seq<Json>>)
    ensures r.Ok? ==> forall x :: x in r.value <==> exists j :: 0 <= j < |graph| && Matches(graph[j], x)
    decreases |graph|
  {
    if |graph| == 0 then Ok([])
    else
      var has :- PyHas(graph[0], PrefLabel);
      var rest :- Labels(graph[1..]);
      assert forall j :: 0 <= j < |graph| - 1 ==> graph[1..][j] == graph[j + 1];
      if has then
        var v :- PyIndex(graph[0], PrefLabel);
        Ok([v] + rest)
      else
        assert EntryLabel(graph[0]).None?;
        Ok(rest)
  }

  /** The inner loop: every entry labelled `title` gets the text. */
  function Mark(graph: seq<Json>, title: Json, text: string): (r: seq<Json>)
    ensures |r| == |graph|
    ensures forall j :: 0 <= j < |graph| ==>
      r[j] == if Matches(graph[j], title) then Obj(Set(graph[j].fields, ExactMatch, Str(text))) else graph[j]
  {
    seq(|graph|, j requires 0 <= j < |graph| =>
      if Matches(graph[j], title) then Obj(Set(graph[j].fields, ExactMatch, Str(text))) else graph[j])
  }

  /** `f"{result_entry['index']} {result_entry['title']}"`. */
  function TextOf(resultEntry: Json): Result<string> {
    var index :- PyIndex(resultEntry, "index");
    var title :- PyIndex(resultEntry, "title");
    var a :- Display(index);
    var b :- Display(title);
    Ok(a + " " + b)
  }

  /** The outer loop over the domain entries, given the labels. An entry
      without `title` raises; one whose title is a label has its text
      formatted and written to the matching graph entries. */
  function Apply(results: seq<Json>, graph: seq<Json>, labels: seq<Json>): (r: Result<seq<Json>>)
    ensures r.Ok? ==> |r.value| == |graph|
    decreases |results|
  {
    if |results| == 0 then Ok(graph)
    else
      var g :- Apply(results[..|results| - 1], graph, labels);
      var entry := results[|results| - 1];
      var title :- PyIndex(entry, "title");
      if title !in labels then Ok(g)
      else
        var text :- TextOf(entry);
        Ok(Mark(g, title, text))
  }

  /** The whole script on the parsed documents: the updated NWO document.
      The graph must be a list. */
  function LabelVocabulary(nwo: Json, domains: Json): (r: Result<Json>)
    ensures r.Ok? ==> nwo.Obj? && r.value.Obj?
  {
    var graph :- PyIndex(nwo, "@graph");
    if !graph.Arr? then Err("NotModelled")
    else
      var labels :- Labels(graph.items);
      var resultValue :- PyIndex(domains, "result");
      var results :- PyIter(resultValue);
      var g :- Apply(results, graph.items, labels);
      Ok(Obj(Set(nwo.fields, "@graph", Arr(g))))
  }

  // ---------------------------------------------------------------------
  // the last matching domain entry decides

  /** The title of a domain entry, when it is a dict that has one. */
  function Title(entry: Json): (r: Option<Json>)
    ensures r.Some? <==> PyIndex(entry, "title").Ok?
    ensures r.Some? ==> PyIndex(entry, "title") == Ok(r.value)
  {
    if entry.Obj? then Get(entry.fields, "title") else None
  }

  /** The position of the last domain entry whose title is `wanted`. */
  function LastWithTitle(results: seq<Json>, wanted: Json): (r: Option<nat>)
    ensures r.Some? ==> r.value < |results| && Title(results[r.value]) == Some(wanted)
    ensures r.Some? ==> forall k :: r.value < k < |results| ==> Title(results[k]) != Some(wanted)
    ensures r.None? ==> forall k :: 0 <= k < |results| ==> Title(results[k]) != Some(wanted)
    decreases |results|
  {
    if |results| == 0 then None
    else if Title(results[|results| - 1]) == Some(wanted) then Some(|results| - 1)
    else
      var r := LastWithTitle(results[..|results| - 1], wanted);
      assert forall k :: 0 <= k < |results| - 1 ==> results[..|results| - 1][k] == results[k];
      r
  }

  /** What a graph entry becomes: labelled by some domain title, it gets
      the text of the last domain entry with that title; every other entry
      stays as it was. */
  function Expected(results: seq<Json>, entry: Json): Json {
    match EntryLabel(entry)
    case None => entry
    case Some(wanted) =>
      match LastWithTitle(results, wanted)
      case None => entry
      case Some(k) =>
        if TextOf(results[k]).Ok? then Obj(Set(entry.fields, ExactMatch, Str(TextOf(results[k]).value)))
        else entry
  }

  /** Setting a key twice keeps the second value. */
  lemma {:induction false} SetTwice(d: Fields, k: string, v1: Json, v2: Json)
    ensures Set(Set(d, k, v1), k, v2) == Set(d, k, v2)
    decreases |d|
  {
    if |d| > 0 && d[0].0 != k {
      SetTwice(d[1..], k, v1, v2);
    }
  }

  /** With the labels of the graph, each graph entry ends up as `Expected`
      says: the last domain entry whose title equals its wanted decides
      its `skos:exactMatch`, and entries no title matches are untouched. */
  lemma {:induction false} ApplyLastWins(results: seq<Json>, graph: seq<Json>, labels: seq<Json>, j: nat)
    requires forall x :: x in labels <==> exists i :: 0 <= i < |graph| && Matches(graph[i], x)
    requires Apply(results, graph, labels).Ok?
    requires j < |graph|
    ensures Apply(results, graph, labels).value[j] == Expected(results, graph[j])
    decreases |results|
  {
    if |results| > 0 {
      var init := results[..|results| - 1];
      var entry := results[|results| - 1];
      ApplyLastWins(init, graph, labels, j);
      var g := Apply(init, graph, labels).value;
      var title := PyIndex(entry, "title").value;
      assert Title(entry) == Some(title);
      var e := graph[j];
      assert g[j] == Expected(init, e);
      assert forall k :: 0 <= k < |init| ==> init[k] == results[k];
      ExpectedLabel(init, e);
      if title in labels {
        var text := TextOf(entry).value;
        assert Apply(results, graph, labels).value == Mark(g, title, text);
        if Matches(e, title) {
          assert LastWithTitle(results, title) == Some(|results| - 1);
          var last := LastWithTitle(init, title);
          if last.Some? && TextOf(init[last.value]).Ok? {
            SetTwice(e.fields, ExactMatch, Str(TextOf(init[last.value]).value), Str(text));
          }
        } else if EntryLabel(e).Some? {
          assert LastWithTitle(results, EntryLabel(e).value) == LastWithTitle(init, EntryLabel(e).value);
        }
      } else {
        assert Apply(results, graph, labels).value == g;
        if EntryLabel(e).Some? {
          var wanted := EntryLabel(e).value;
          assert wanted in labels;
          assert LastWithTitle(results, wanted) == LastWithTitle(init, wanted);
        }
      }
    }
  }

  /** Marking never changes which wanted an entry has. */
  lemma ExpectedLabel(results: seq<Json>, entry: Json)
    ensures EntryLabel(Expected(results, entry)) == EntryLabel(entry)
    ensures Expected(results, entry).Obj? <==> entry.Obj?
  {
  }

  /** On success the script changes only the graph, and every graph entry
      becomes what `Expected` says for the domain entries. */
  lemma LabelVocabularySpec(nwo: Json, domains: Json)
    requires LabelVocabulary(nwo, domains).Ok?
    ensures var out := LabelVocabulary(nwo, domains).value;
      var graph := PyIndex(nwo, "@graph").value.items;
      var results := PyIter(PyIndex(domains, "result").value).value;
      (forall k :: k != "@graph" ==> Get(out.fields, k) == Get(nwo.fields, k))
      && PyIndex(out, "@graph").Ok? && PyIndex(out, "@graph").value.Arr?
      && |PyIndex(out, "@graph").value.items| == |graph|
      && forall j :: 0 <= j < |graph| ==> PyIndex(out, "@graph").value.items[j] == Expected(results, graph[j])
  {
    var graph := PyIndex(nwo, "@graph").value.items;
    var labels := Labels(graph).value;
    var results := PyIter(PyIndex(domains, "result").value).value;
    forall j | 0 <= j < |graph|
      ensures Apply(results, graph, labels).value[j] == Expected(results, graph[j])
    {
      ApplyLastWins(results, graph, labels, j);
    }
  }
}
