/** The template resolver of `src/template.py`.

    A template is a JSON tree. A string leaf that starts with `<` is an
    instruction: the text up to the next `<` is a comma-separated list of
    alternatives `ruc:<path>`, `md...`, `err:<msg>` and `null`. A `ruc`
    alternative looks a slash-separated, lower-cased path up in the rich
    user content (RUC) mapping. Resolution rebuilds the tree: slots that
    resolve to nothing are omitted, the string `"null"` becomes a JSON null,
    and every other leaf that is not an instruction is dropped. */
module Template {
  import opened Wrappers
  import opened Seqs
  import opened Strings
  import opened Dicts
  import opened JsonValues

  // ---------------------------------------------------------------------
  // resolve_path

  /** The loop of `resolve_path` over the keys of `ruc`: the first key whose
      lower-case form equals the first step decides the result. With one
      step its value is returned; with more steps the search continues in
      that value if it is an object and gives up otherwise. */
  function ResolveSteps(ruc: Fields, steps: seq<string>): (r: Option<Json>)
    requires |steps| >= 1
    ensures (forall i :: 0 <= i < |ruc| ==> Lower(ruc[i].0) != steps[0]) ==> r.None?
    decreases |steps|, |ruc|
  {
    if |ruc| == 0 then None
    else if Lower(ruc[0].0) == steps[0] then
      if |steps| == 1 then Some(ruc[0].1)
      else if ruc[0].1.Obj? then ResolveSteps(ruc[0].1.fields, steps[1..])
      else None
    else
      ResolveSteps(ruc[1..], steps)
  }

  /** `resolve_path(ruc, path)`. The source recurses on
      `'/'.join(steps[1:])`; `RejoinedRest` shows that splitting that text
      again gives back `steps[1:]`, so recursing on the remaining steps is
      the same computation. */
  function ResolvePath(ruc: Fields, path: string): Option<Json> {
    ResolveSteps(ruc, Split(path, '/'))
  }

  lemma RejoinedRest(path: string)
    requires |Split(path, '/')| > 1
    ensures var steps := Split(path, '/');
      Split(Join(steps[1..], '/'), '/') == steps[1..]
  {
    var steps := Split(path, '/');
    JoinThenSplit(steps[1..], '/');
  }

  /** The key `ResolveSteps` selects, by position: the first one whose
      lower-case form is `step`. */
  predicate FirstMatch(ruc: Fields, step: string, i: nat) {
    i < |ruc| && Lower(ruc[i].0) == step
    && forall j :: 0 <= j < i ==> Lower(ruc[j].0) != step
  }

  /** Only the first matching key counts: its value is the answer for a
      single step; for a longer path the search continues in that value if
      it is an object, and otherwise fails without trying later keys. */
  lemma {:induction false} ResolveFirstMatch(ruc: Fields, steps: seq<string>, i: nat)
    requires |steps| >= 1 && FirstMatch(ruc, steps[0], i)
    ensures |steps| == 1 ==> ResolveSteps(ruc, steps) == Some(ruc[i].1)
    ensures |steps| > 1 && ruc[i].1.Obj? ==>
      ResolveSteps(ruc, steps) == ResolveSteps(ruc[i].1.fields, steps[1..])
    ensures |steps| > 1 && !ruc[i].1.Obj? ==> ResolveSteps(ruc, steps) == None
    decreases i
  {
    if i > 0 {
      assert FirstMatch(ruc[1..], steps[0], i - 1) by {
        forall j | 0 <= j < i - 1
          ensures Lower(ruc[1..][j].0) != steps[0]
        {
          assert ruc[1..][j] == ruc[j + 1];
        }
      }
      ResolveFirstMatch(ruc[1..], steps, i - 1);
    }
  }

  /** Lookup is case-insensitive on the stored keys: keys may be replaced
      by any others with the same lower-case form without changing the
      result. */
  lemma {:induction false} ResolveIgnoresKeyCase(a: Fields, b: Fields, steps: seq<string>)
    requires |steps| >= 1 && |a| == |b|
    requires forall i :: 0 <= i < |a| ==> Lower(a[i].0) == Lower(b[i].0) && a[i].1 == b[i].1
    ensures ResolveSteps(a, steps) == ResolveSteps(b, steps)
    decreases |a|
  {
    if |a| > 0 {
      ResolveIgnoresKeyCase(a[1..], b[1..], steps);
    }
  }

  // ---------------------------------------------------------------------
  // retrieve_info

  /** `alt.split(":")[1].strip().lower()`, which raises `IndexError` when
      the alternative has no colon. */
  function RucKey(alt: string): (r: Result<string>)
    ensures r.Ok? <==> |Split(alt, ':')| >= 2
    ensures r.Ok? ==> Lower(r.value) == r.value
  {
    var parts := Split(alt, ':');
    if |parts| < 2 then Err("IndexError")
    else
      LowerIdempotent(Strip(parts[1]));
      Ok(Lower(Strip(parts[1])))
  }

  /** What one alternative does to the loop of `retrieve_info`: raise,
      end it with a found value, or go on with the value found so far. */
  datatype Step = Raise(error: string) | Found(v: Json) | Continue(res: Option<Json>)

  /** One alternative, with `res` the value found so far. A `ruc`
      alternative whose path resolves to a value other than null ends the
      loop with that value; `md` does nothing; `err` only reads its message
      (and raises when there is none); `null` sets the result to the string
      `"null"`. */
  function AltStep(alt: string, ruc: Fields, res: Option<Json>): Step {
    if StartsWith(alt, "ruc") then
      match RucKey(alt)
      case Err(e) => Raise(e)
      case Ok(key) =>
        var found := ResolvePath(ruc, key);
        if found.Some? && found.value != Null then Found(found.value) else Continue(res)
    else if StartsWith(alt, "err") then
      if |Split(alt, ':')| < 2 then Raise("IndexError") else Continue(res)
    else if StartsWith(alt, "null") then Continue(Some(Str("null")))
    else Continue(res)
  }

  /** The loop of `retrieve_info` over the alternatives. */
  function RetrieveFrom(alts: seq<string>, ruc: Fields, res: Option<Json>): Result<Option<Json>>
    decreases |alts|
  {
    if |alts| == 0 then Ok(res)
    else
      match AltStep(alts[0], ruc, res)
      case Raise(e) => Err(e)
      case Found(v) => Ok(Some(v))
      case Continue(next) => RetrieveFrom(alts[1..], ruc, next)
  }

  /** `retrieve_info(info, ruc)`. */
  function RetrieveInfo(info: string, ruc: Fields): Result<Option<Json>> {
    RetrieveFrom(Split(info, ','), ruc, None)
  }

  /** An alternative on which `retrieve_info` raises. */
  predicate Malformed(alt: string) {
    (StartsWith(alt, "ruc") || StartsWith(alt, "err")) && |Split(alt, ':')| < 2
  }

  /** The value a `ruc` alternative finds, if any (null counts as none). */
  function AltHit(alt: string, ruc: Fields): (r: Option<Json>)
    ensures r.Some? ==> r.value != Null
  {
    if StartsWith(alt, "ruc") && |Split(alt, ':')| >= 2 then
      var found := ResolvePath(ruc, Lower(Strip(Split(alt, ':')[1])));
      if found.Some? && found.value != Null then found else None
    else None
  }

  /** The result carried past an alternative that neither raises nor
      finds anything. */
  function NextRes(alt: string, res: Option<Json>): Option<Json> {
    if !StartsWith(alt, "ruc") && !StartsWith(alt, "err") && StartsWith(alt, "null")
    then Some(Str("null")) else res
  }

  /** How one alternative acts on the loop, whatever was found before it:
      it raises, it finds a value, or it passes (setting the result to
      `"null"` or leaving it). */
  datatype Kind = Raises | Hits(v: Json) | Passes(setsNull: bool)

  function AltKind(alt: string, ruc: Fields): Kind {
    if Malformed(alt) then Raises
    else if AltHit(alt, ruc).Some? then Hits(AltHit(alt, ruc).value)
    else Passes(StartsWith(alt, "null"))
  }

  /** The loop over the kinds of the alternatives. */
  function Run(ks: seq<Kind>, res: Option<Json>): Result<Option<Json>>
    decreases |ks|
  {
    if |ks| == 0 then Ok(res)
    else
      match ks[0]
      case Raises => Err("IndexError")
      case Hits(v) => Ok(Some(v))
      case Passes(n) => Run(ks[1..], if n then Some(Str("null")) else res)
  }

  function Kinds(alts: seq<string>, ruc: Fields): (ks: seq<Kind>)
    ensures |ks| == |alts| && forall i :: 0 <= i < |alts| ==> ks[i] == AltKind(alts[i], ruc)
  {
    seq(|alts|, i requires 0 <= i < |alts| => AltKind(alts[i], ruc))
  }

  /** One alternative acts as its kind says. */
  lemma AltStepKind(alt: string, ruc: Fields, res: Option<Json>)
    ensures AltStep(alt, ruc, res) ==
      match AltKind(alt, ruc)
      case Raises => Raise("IndexError")
      case Hits(v) => Found(v)
      case Passes(n) => Continue(if n then Some(Str("null")) else res)
  {
    if StartsWith(alt, "null") {
      assert alt[0] == 'n';
    }
  }

  /** The loop of `retrieve_info` is the loop over the kinds. */
  lemma {:induction false} RetrieveRun(alts: seq<string>, ruc: Fields, res: Option<Json>)
    ensures RetrieveFrom(alts, ruc, res) == Run(Kinds(alts, ruc), res)
    decreases |alts|
  {
    if |alts| > 0 {
      var ks := Kinds(alts, ruc);
      AltStepKind(alts[0], ruc, res);
      assert ks[1..] == Kinds(alts[1..], ruc);
      match ks[0]
      case Raises =>
      case Hits(v) =>
      case Passes(n) =>
        RetrieveRun(alts[1..], ruc, if n then Some(Str("null")) else res);
    }
  }

  /** The first kind that is not a pass decides a loop in which it hits. */
  lemma {:induction false} RunFirstHit(ks: seq<Kind>, res: Option<Json>, i: nat)
    requires i < |ks| && ks[i].Hits?
    requires forall j :: 0 <= j < i ==> ks[j].Passes?
    ensures Run(ks, res) == Ok(Some(ks[i].v))
    decreases i
  {
    if i > 0 {
      assert ks[0].Passes?;
      assert forall j :: 0 <= j < i - 1 ==> ks[1..][j] == ks[j + 1];
      RunFirstHit(ks[1..], if ks[0].setsNull then Some(Str("null")) else res, i - 1);
    }
  }

  /** A loop of passes ends with `"null"` when one of them sets it. */
  lemma {:induction false} RunPasses(ks: seq<Kind>, res: Option<Json>)
    requires forall j :: 0 <= j < |ks| ==> ks[j].Passes?
    ensures Run(ks, res) == Ok(if Passes(true) in ks then Some(Str("null")) else res)
    decreases |ks|
  {
    if |ks| > 0 {
      var next := if ks[0].setsNull then Some(Str("null")) else res;
      assert forall j :: 0 <= j < |ks| - 1 ==> ks[1..][j] == ks[j + 1];
      RunPasses(ks[1..], next);
      assert Passes(true) in ks <==> ks[0] == Passes(true) || Passes(true) in ks[1..];
    }
  }

  /** No kind before position `i` hits. */
  predicate NoHitsBefore(ks: seq<Kind>, i: nat)
    requires i <= |ks|
  {
    forall j :: 0 <= j < i ==> !ks[j].Hits?
  }

  /** The loop raises exactly when a kind raises before any hits. */
  lemma {:induction false} RunErrIff(ks: seq<Kind>, res: Option<Json>)
    ensures Run(ks, res).Err? <==> exists i :: 0 <= i < |ks| && ks[i].Raises? && NoHitsBefore(ks, i)
    decreases |ks|
  {
    if |ks| > 0 {
      match ks[0]
      case Raises =>
        assert NoHitsBefore(ks, 0);
      case Hits(v) =>
        assert forall i :: 0 < i <= |ks| ==> !NoHitsBefore(ks, i);
      case Passes(n) =>
        var rest := ks[1..];
        RunErrIff(rest, if n then Some(Str("null")) else res);
        forall i | 0 < i <= |ks|
          ensures NoHitsBefore(ks, i) == NoHitsBefore(rest, i - 1)
        {
          assert forall j :: 0 <= j < i - 1 ==> rest[j] == ks[j + 1];
        }
        if Run(rest, if n then Some(Str("null")) else res).Err? {
          var i :| 0 <= i < |rest| && rest[i].Raises? && NoHitsBefore(rest, i);
          assert ks[i + 1].Raises? && NoHitsBefore(ks, i + 1);
        }
        if exists i :: 0 <= i < |ks| && ks[i].Raises? && NoHitsBefore(ks, i) {
          var i :| 0 <= i < |ks| && ks[i].Raises? && NoHitsBefore(ks, i);
          assert rest[i - 1].Raises? && NoHitsBefore(rest, i - 1);
        }
    }
  }

  /** No alternative before position `i` finds anything. */
  predicate NoHitBefore(alts: seq<string>, ruc: Fields, i: nat)
    requires i <= |alts|
  {
    forall j :: 0 <= j < i ==> AltHit(alts[j], ruc).None?
  }

  /** Alternatives before position `i` neither raise nor find anything. */
  predicate QuietBefore(alts: seq<string>, ruc: Fields, i: nat)
    requires i <= |alts|
  {
    forall j :: 0 <= j < i ==> !Malformed(alts[j]) && AltHit(alts[j], ruc).None?
  }

  /** The first alternative that finds a value decides the result, whatever
      comes after it; `md`, `err` and `null` alternatives before it do not
      matter. */
  lemma RetrieveFirstHit(alts: seq<string>, ruc: Fields, res: Option<Json>, i: nat)
    requires i < |alts| && QuietBefore(alts, ruc, i) && AltHit(alts[i], ruc).Some?
    ensures RetrieveFrom(alts, ruc, res) == Ok(AltHit(alts[i], ruc))
  {
    var ks := Kinds(alts, ruc);
    RetrieveRun(alts, ruc, res);
    assert !Malformed(alts[i]) by {
      assert StartsWith(alts[i], "ruc") && |Split(alts[i], ':')| >= 2;
    }
    assert ks[i] == Hits(AltHit(alts[i], ruc).value);
    assert forall j :: 0 <= j < i ==> ks[j].Passes?;
    RunFirstHit(ks, res, i);
  }

  /** Some alternative starts with `null`. */
  predicate SomeNull(alts: seq<string>) {
    exists j :: 0 <= j < |alts| && StartsWith(alts[j], "null")
  }

  /** When nothing raises and nothing is found, the result is `"null"` if
      some alternative starts with `null`, and otherwise what was there
      before (`None` for `retrieve_info`). */
  lemma RetrieveNoHit(alts: seq<string>, ruc: Fields, res: Option<Json>)
    requires QuietBefore(alts, ruc, |alts|)
    ensures RetrieveFrom(alts, ruc, res) == Ok(if SomeNull(alts) then Some(Str("null")) else res)
  {
    var ks := Kinds(alts, ruc);
    RetrieveRun(alts, ruc, res);
    assert forall j :: 0 <= j < |ks| ==> ks[j] == Passes(StartsWith(alts[j], "null"));
    RunPasses(ks, res);
    if SomeNull(alts) {
      var j :| 0 <= j < |alts| && StartsWith(alts[j], "null");
      assert ks[j] == Passes(true);
    }
    if Passes(true) in ks {
      var j :| 0 <= j < |ks| && ks[j] == Passes(true);
      assert StartsWith(alts[j], "null");
    }
  }

  /** `retrieve_info` raises exactly when some alternative is malformed and
      no alternative before it finds a value. */
  lemma RetrieveErrIff(alts: seq<string>, ruc: Fields, res: Option<Json>)
    ensures RetrieveFrom(alts, ruc, res).Err? <==>
      exists i :: 0 <= i < |alts| && Malformed(alts[i]) && NoHitBefore(alts, ruc, i)
  {
    var ks := Kinds(alts, ruc);
    RetrieveRun(alts, ruc, res);
    RunErrIff(ks, res);
    forall i | 0 <= i < |alts|
      ensures Malformed(alts[i]) == ks[i].Raises?
      ensures NoHitBefore(alts, ruc, i) == NoHitsBefore(ks, i)
    {
      forall j | 0 <= j < i
        ensures AltHit(alts[j], ruc).None? == !ks[j].Hits?
      {
        NotMalformedHit(alts[j], ruc);
      }
    }
  }

  /** An alternative that finds something is not malformed. */
  lemma NotMalformedHit(alt: string, ruc: Fields)
    ensures AltHit(alt, ruc).Some? ==> !Malformed(alt)
  {
  }

  // ---------------------------------------------------------------------
  // traverse_data

  /** A string value starting with `<`. */
  predicate IsInstruction(v: Json) {
    v.Str? && StartsWith(v.s, "<")
  }

  /** `value.split('<')[1]` for a value that starts with `<`. */
  function InstructionText(s: string): string
    requires StartsWith(s, "<")
  {
    assert s[0] == '<';
    Split(s, '<')[1]
  }

  /** The instruction text is what follows the leading `<` up to the next
      `<` or the end of the string. */
  lemma InstructionTextSpan(s: string)
    requires StartsWith(s, "<")
    ensures var t := InstructionText(s);
      '<' !in t && StartsWith(s[1..], t) && (|t| == |s| - 1 || s[1 + |t|] == '<')
  {
    assert s[0] == '<';
    assert Split(s, '<') == [""] + Split(s[1..], '<');
    SplitHead(s[1..], '<');
  }

  /** How a resolved value is stored: the string `"null"` becomes null. */
  function Store(v: Json): (r: Json)
    ensures r != Str("null")
    ensures v != Str("null") ==> r == v
  {
    if v == Str("null") then Null else v
  }

  /** One dict value or list item: an instruction is resolved against the
      RUC, anything else is traversed. */
  function Slot(v: Json, ruc: Fields): Result<Option<Json>>
    decreases v, 1
  {
    if IsInstruction(v) then RetrieveInfo(InstructionText(v.s), ruc)
    else Traverse(v, ruc)
  }

  /** `traverse_data(data, ruc)`: objects and arrays are rebuilt, every
      other value yields nothing. */
  function Traverse(data: Json, ruc: Fields): (r: Result<Option<Json>>)
    ensures data.Obj? && r.Ok? ==> r.value.Some? && r.value.value.Obj?
    ensures data.Arr? && r.Ok? ==> r.value.Some? && r.value.value.Arr?
    ensures !data.Obj? && !data.Arr? ==> r == Ok(None)
    decreases data, 0
  {
    match data
    case Obj(fields) =>
      var out :- TraverseFields(fields, ruc);
      Ok(Some(Obj(out)))
    case Arr(items) =>
      var out :- TraverseItems(items, ruc);
      Ok(Some(Arr(out)))
    case _ => Ok(None)
  }

  /** The loop of `traverse_data` over a dict. */
  function TraverseFields(fields: Fields, ruc: Fields): (r: Result<Fields>)
    ensures r.Ok? <==> forall i :: 0 <= i < |fields| ==> (var f := fields[i]; assert f.1 < f; Slot(f.1, ruc).Ok?)
    ensures r.Ok? ==> Subseq(Keys(r.value), Keys(fields))
    ensures r.Ok? ==> forall i :: 0 <= i < |r.value| ==> r.value[i].1 != Str("null")
    decreases fields, 2
  {
    if |fields| == 0 then Ok([])
    else
      var f := fields[0];
      assert f.1 < f;
      var v :- Slot(f.1, ruc);
      var rest :- TraverseFields(fields[1..], ruc);
      assert Keys(fields) == [f.0] + Keys(fields[1..]);
      if v.Some? then
        var out := [(f.0, Store(v.value))] + rest;
        assert Keys(out) == [f.0] + Keys(rest);
        SubseqCons(f.0, Keys(rest), Keys(fields[1..]));
        Ok(out)
      else
        SubseqSkip(f.0, Keys(rest), Keys(fields[1..]));
        Ok(rest)
  }

  /** The loop of `traverse_data` over a list. */
  function TraverseItems(items: seq<Json>, ruc: Fields): (r: Result<seq<Json>>)
    ensures r.Ok? <==> forall i :: 0 <= i < |items| ==> Slot(items[i], ruc).Ok?
    ensures r.Ok? ==> |r.value| <= |items|
    ensures r.Ok? ==> forall i :: 0 <= i < |r.value| ==> r.value[i] != Str("null")
    decreases items, 2
  {
    if |items| == 0 then Ok([])
    else
      var v :- Slot(items[0], ruc);
      var rest :- TraverseItems(items[1..], ruc);
      if v.Some? then Ok([Store(v.value)] + rest) else Ok(rest)
  }

  /** The value a successful slot contributes to its container, if any. */
  function Kept(v: Json, ruc: Fields): Option<Json>
    requires Slot(v, ruc).Ok?
  {
    match Slot(v, ruc).value
    case Some(x) => Some(Store(x))
    case None => None
  }

  /** With the unique keys a Python dict has, the output holds a key exactly
      when its slot resolved, and then holds the stored value. */
  lemma {:induction false} TraverseFieldsGet(fields: Fields, ruc: Fields, k: string)
    requires UniqueKeys(fields) && TraverseFields(fields, ruc).Ok?
    ensures Get(fields, k).None? ==> Get(TraverseFields(fields, ruc).value, k).None?
    ensures Get(fields, k).Some? ==>
      Get(TraverseFields(fields, ruc).value, k) == Kept(Get(fields, k).value, ruc)
    decreases |fields|
  {
    if |fields| > 0 {
      var f := fields[0];
      var out := TraverseFields(fields, ruc).value;
      var rest := TraverseFields(fields[1..], ruc).value;
      assert Keys(fields) == [f.0] + Keys(fields[1..]);
      assert UniqueKeys(fields[1..]) by {
        forall i, j | 0 <= i < j < |fields[1..]|
          ensures Keys(fields[1..])[i] != Keys(fields[1..])[j]
        {
          assert Keys(fields[1..])[i] == Keys(fields)[i + 1];
          assert Keys(fields[1..])[j] == Keys(fields)[j + 1];
        }
      }
      assert Slot(f.1, ruc).Ok?;
      TraverseFieldsGet(fields[1..], ruc, k);
      if f.0 == k {
        assert k !in Keys(fields[1..]) by {
          forall j | 0 <= j < |fields[1..]|
            ensures Keys(fields[1..])[j] != k
          {
            assert Keys(fields[1..])[j] == Keys(fields)[j + 1];
          }
        }
        SubseqMembers(Keys(rest), Keys(fields[1..]));
      }
    }
  }

  /** The list the loop over `items` builds from the slots' values. */
  function Gather(vs: seq<Option<Json>>): seq<Json>
    decreases |vs|
  {
    if |vs| == 0 then []
    else (if vs[0].Some? then [Store(vs[0].value)] else []) + Gather(vs[1..])
  }

  lemma {:induction false} GatherAppend(p: seq<Option<Json>>, q: seq<Option<Json>>)
    ensures Gather(p + q) == Gather(p) + Gather(q)
    decreases |p|
  {
    if |p| == 0 {
      assert p + q == q;
    } else {
      assert (p + q)[0] == p[0] && (p + q)[1..] == p[1..] + q;
      GatherAppend(p[1..], q);
    }
  }

  /** A slot as a function of its value. */
  function SlotOf(ruc: Fields): Json -> Result<Option<Json>> {
    v => Slot(v, ruc)
  }

  /** The loop over a list gathers its slots' values. */
  lemma {:induction false} TraverseItemsGather(items: seq<Json>, ruc: Fields)
    requires TraverseItems(items, ruc).Ok?
    ensures MapResult(items, SlotOf(ruc)).Ok?
    ensures TraverseItems(items, ruc).value == Gather(MapResult(items, SlotOf(ruc)).value)
    decreases |items|
  {
    if |items| > 0 {
      TraverseItemsGather(items[1..], ruc);
    }
  }

  /** A list is processed item by item: the output for a concatenation is
      the concatenation of the outputs, so kept items stay in order. */
  lemma TraverseItemsAppend(a: seq<Json>, b: seq<Json>, ruc: Fields)
    requires TraverseItems(a, ruc).Ok? && TraverseItems(b, ruc).Ok?
    ensures TraverseItems(a + b, ruc) == Ok(TraverseItems(a, ruc).value + TraverseItems(b, ruc).value)
  {
    var f := SlotOf(ruc);
    TraverseItemsGather(a, ruc);
    TraverseItemsGather(b, ruc);
    MapResultAppend(a, b, f);
    assert TraverseItems(a + b, ruc).Ok?;
    TraverseItemsGather(a + b, ruc);
    GatherAppend(MapResult(a, f).value, MapResult(b, f).value);
  }

  /** A one-item list keeps exactly what its slot contributes. */
  lemma TraverseItemsSingle(v: Json, ruc: Fields)
    requires Slot(v, ruc).Ok?
    ensures TraverseItems([v], ruc).Ok?
    ensures Kept(v, ruc).None? ==> TraverseItems([v], ruc).value == []
    ensures Kept(v, ruc).Some? ==> TraverseItems([v], ruc).value == [Kept(v, ruc).value]
  {
    assert [v][1..] == [];
  }

  // ---------------------------------------------------------------------
  // templates without instructions

  /** No string in the tree starts with `<`. */
  predicate NoInstructions(j: Json)
    decreases j, 1
  {
    match j
    case Str(s) => !StartsWith(s, "<")
    case Arr(items) => NoInstructionsItems(items)
    case Obj(fields) => NoInstructionsFields(fields)
    case _ => true
  }

  predicate NoInstructionsItems(items: seq<Json>)
    decreases items, 2
  {
    |items| > 0 ==> NoInstructions(items[0]) && NoInstructionsItems(items[1..])
  }

  predicate NoInstructionsFields(fields: Fields)
    decreases fields, 2
  {
    |fields| > 0 ==>
      var f := fields[0];
      assert f.1 < f;
      NoInstructions(f.1) && NoInstructionsFields(fields[1..])
  }

  /** Only objects and arrays, nested in any way. */
  predicate ContainersOnly(j: Json)
    decreases j, 1
  {
    match j
    case Arr(items) => ContainersOnlyItems(items)
    case Obj(fields) => ContainersOnlyFields(fields)
    case _ => false
  }

  predicate ContainersOnlyItems(items: seq<Json>)
    decreases items, 2
  {
    |items| > 0 ==> ContainersOnly(items[0]) && ContainersOnlyItems(items[1..])
  }

  predicate ContainersOnlyFields(fields: Fields)
    decreases fields, 2
  {
    |fields| > 0 ==>
      var f := fields[0];
      assert f.1 < f;
      ContainersOnly(f.1) && ContainersOnlyFields(fields[1..])
  }

  /** A template without instructions never consults the RUC, cannot fail,
      and keeps nothing but its nesting of objects and arrays. */
  lemma {:induction false} NoInstructionsShape(t: Json, ruc: Fields, ruc': Fields)
    requires NoInstructions(t)
    ensures Traverse(t, ruc) == Traverse(t, ruc')
    ensures Traverse(t, ruc).Ok?
    ensures Traverse(t, ruc).value.Some? ==> ContainersOnly(Traverse(t, ruc).value.value)
    decreases t, 0
  {
    match t
    case Obj(fields) => NoInstructionsShapeFields(fields, ruc, ruc');
    case Arr(items) => NoInstructionsShapeItems(items, ruc, ruc');
    case _ =>
  }

  lemma {:induction false} NoInstructionsShapeFields(fields: Fields, ruc: Fields, ruc': Fields)
    requires NoInstructionsFields(fields)
    ensures TraverseFields(fields, ruc) == TraverseFields(fields, ruc')
    ensures TraverseFields(fields, ruc).Ok?
    ensures ContainersOnlyFields(TraverseFields(fields, ruc).value)
    decreases fields, 1
  {
    if |fields| > 0 {
      var f := fields[0];
      assert f.1 < f;
      NoInstructionsShape(f.1, ruc, ruc');
      NoInstructionsShapeFields(fields[1..], ruc, ruc');
      assert !IsInstruction(f.1);
      var rest := TraverseFields(fields[1..], ruc).value;
      var v := Traverse(f.1, ruc).value;
      if v.Some? {
        var out := [(f.0, Store(v.value))] + rest;
        assert out[1..] == rest;
        assert Store(v.value) == v.value;
      }
    }
  }

  lemma {:induction false} NoInstructionsShapeItems(items: seq<Json>, ruc: Fields, ruc': Fields)
    requires NoInstructionsItems(items)
    ensures TraverseItems(items, ruc) == TraverseItems(items, ruc')
    ensures TraverseItems(items, ruc).Ok?
    ensures ContainersOnlyItems(TraverseItems(items, ruc).value)
    decreases items, 1
  {
    if |items| > 0 {
      NoInstructionsShape(items[0], ruc, ruc');
      NoInstructionsShapeItems(items[1..], ruc, ruc');
      assert !IsInstruction(items[0]);
      var rest := TraverseItems(items[1..], ruc).value;
      var v := Traverse(items[0], ruc).value;
      if v.Some? {
        var out := [Store(v.value)] + rest;
        assert out[1..] == rest;
        assert Store(v.value) == v.value;
      }
    }
  }
}
