/** The pure helpers of `src/utils.py`: the folder listing filter, the
    BaseX request builders, HTML tag removal, text shortening and the id
    taken from a file name. The file system, the HTTP client and the
    markdown-to-text converter are parameters. */
module Utils {
  import opened Wrappers
  import opened Seqs
  import opened Strings
  import opened Paths
  import opened JsonValues

  // ---------------------------------------------------------------------
  // get_files

  /** Whether `get_files` keeps an entry: every entry for an empty postfix,
      otherwise those ending in `.` followed by the postfix. */
  predicate KeepsEntry(f: string, postfix: string) {
    |postfix| == 0 || EndsWith(f, "." + postfix)
  }

  function FilterJoin(folder: string, entries: seq<string>, postfix: string): (r: seq<string>)
    ensures |r| <= |entries|
    decreases |entries|
  {
    if |entries| == 0 then []
    else
      var rest := FilterJoin(folder, entries[1..], postfix);
      if KeepsEntry(entries[0], postfix) then [PathJoin(folder, entries[0])] + rest else rest
  }

  /** `get_files(folder, postfix)`, with the existence test and the
      directory listing given as `present` and `entries`. */
  function GetFiles(present: bool, entries: seq<string>, folder: string, postfix: string): (r: Option<seq<string>>)
    ensures r.None? <==> !present
  {
    if !present then None else Some(FilterJoin(folder, entries, postfix))
  }

  /** A listed path is the folder joined with an entry that has the
      postfix, and every such entry is listed; with an empty postfix
      nothing is filtered. */
  lemma {:induction false} FilterJoinMembers(folder: string, entries: seq<string>, postfix: string, x: string)
    ensures x in FilterJoin(folder, entries, postfix) <==>
      exists i :: 0 <= i < |entries| && KeepsEntry(entries[i], postfix) && x == PathJoin(folder, entries[i])
    ensures |postfix| == 0 ==> |FilterJoin(folder, entries, postfix)| == |entries|
    decreases |entries|
  {
    if |entries| > 0 {
      FilterJoinMembers(folder, entries[1..], postfix, x);
      if exists i :: 0 <= i < |entries| - 1 && KeepsEntry(entries[1..][i], postfix) && x == PathJoin(folder, entries[1..][i]) {
        var i :| 0 <= i < |entries| - 1 && KeepsEntry(entries[1..][i], postfix) && x == PathJoin(folder, entries[1..][i]);
        assert entries[i + 1] == entries[1..][i];
      }
      if exists i :: 0 <= i < |entries| && KeepsEntry(entries[i], postfix) && x == PathJoin(folder, entries[i]) {
        var i :| 0 <= i < |entries| && KeepsEntry(entries[i], postfix) && x == PathJoin(folder, entries[i]);
        if i > 0 {
          assert entries[1..][i - 1] == entries[i];
        }
      }
    }
  }

  // ---------------------------------------------------------------------
  // call_basex and the query builders

  datatype Verb = HttpGet | HttpPost

  /** The HTTP call `call_basex` hands to its client. */
  datatype Request = Request(verb: Verb, url: string, body: string, contentType: string)

  const DefaultContentType: string := "application/json"

  /** `http://{user}:{password}@{host}:{port}/rest`. */
  function RestUrl(user: string, password: string, host: string, port: int): string {
    "http://" + user + ":" + password + "@" + host + ":" + IntToString(port) + "/rest"
  }

  /** `if db:` -- a database name that is present and not empty. */
  predicate HasDb(db: Option<string>) {
    db.Some? && |db.value| > 0
  }

  /** `call_basex`: the database, when given, is appended to the REST URL;
      only the actions `get` and `post` are accepted. */
  function CallBasex(query: string, host: string, port: int, user: string, password: string,
                     action: string, db: Option<string>, contentType: string): (r: Result<Request>)
    ensures r.Ok? <==> action == "get" || action == "post"
    ensures r.Ok? ==> r.value.body == query && r.value.contentType == contentType
    ensures r.Ok? ==> (r.value.verb == HttpGet <==> action == "get")
  {
    var url := if HasDb(db) then RestUrl(user, password, host, port) + "/" + db.value
               else RestUrl(user, password, host, port);
    if action == "get" then Ok(Request(HttpGet, url, query, contentType))
    else if action == "post" then Ok(Request(HttpPost, url, query, contentType))
    else Err("Exception")
  }

  /** The URL names the server and, only when a database is given, that
      database after one more slash; nothing else about the request depends
      on the database. */
  lemma CallBasexUrl(query: string, host: string, port: int, user: string, password: string,
                     action: string, db: Option<string>, contentType: string)
    requires action == "get" || action == "post"
    ensures var r := CallBasex(query, host, port, user, password, action, db, contentType).value;
      var bare := CallBasex(query, host, port, user, password, action, None, contentType).value;
      StartsWith(r.url, "http://" + user + ":" + password + "@" + host + ":")
      && bare.url == RestUrl(user, password, host, port)
      && (HasDb(db) ==> r.url == bare.url + "/" + db.value)
      && (!HasDb(db) ==> r == bare)
      && r.verb == bare.verb && r.body == bare.body
  {
    var pre := "http://" + user + ":" + password + "@" + host + ":";
    var r := CallBasex(query, host, port, user, password, action, db, contentType).value;
    assert RestUrl(user, password, host, port) == pre + (IntToString(port) + "/rest");
    if HasDb(db) {
      assert r.url == pre + (IntToString(port) + "/rest" + "/" + db.value);
    }
  }

  /** The two replacements `call_basex_with_query` applies so that BaseX
      does not read `<js:` tags as XML. */
  function EscapeJs(q: string): string {
    Replace(Replace(q, "<js:", "&lt;js:"), "</js:", "&lt;/js:")
  }

  /** After escaping, neither `<js:` nor `</js:` occurs; text without `<`
      passes unchanged. */
  lemma EscapeJsRemovesTags(q: string)
    ensures !Contains(EscapeJs(q), "<js:") && !Contains(EscapeJs(q), "</js:")
    ensures '<' !in q ==> EscapeJs(q) == q
  {
    var once := Replace(q, "<js:", "&lt;js:");
    ReplaceRemoves(q, "<js:", "&lt;js:");
    ReplaceRemoves(once, "</js:", "&lt;/js:");
    ReplaceNoNewOccurrence(once, "</js:", "&lt;/js:", "<js:");
    if '<' !in q {
      NoFirstCharNoContains(q, "<js:");
      ReplaceAbsent(q, "<js:", "&lt;js:");
      NoFirstCharNoContains(q, "</js:");
      ReplaceAbsent(q, "</js:", "&lt;/js:");
    }
  }

  lemma {:induction false} NoFirstCharNoContains(s: string, p: string)
    requires |p| > 0 && p[0] !in s
    ensures !Contains(s, p)
    decreases |s|
  {
    if |s| > 0 {
      assert s[1..] == s[1..];
      assert p[0] !in s[1..] by {
        forall i | 0 <= i < |s| - 1
          ensures s[1..][i] != p[0]
        {
          assert s[1..][i] == s[i + 1];
        }
      }
      NoFirstCharNoContains(s[1..], p);
      if |p| <= |s| {
        assert s[..|p|][0] == s[0];
      }
    }
  }

  /** The XML envelope of `call_basex_with_query`. */
  function QueryEnvelope(q: string): string {
    "\n    <query>\n        <text>\n            " + q + "\n        </text>\n    </query>\n    "
  }

  /** The XML envelope of `call_basex_with_file`. */
  function FileQueryEnvelope(q: string): string {
    "\n        <query>\n            <text>\n                " + q + "\n            </text>\n        </query>\n        "
  }

  /** `call_basex_with_query`: escape, wrap, and call. */
  function CallBasexWithQuery(query: string, host: string, port: int, user: string, password: string,
                              action: string, db: Option<string>, contentType: string): (r: Result<Request>)
    ensures r.Ok? <==> action == "get" || action == "post"
    ensures r.Ok? ==> r.value.body == QueryEnvelope(EscapeJs(query))
  {
    CallBasex(QueryEnvelope(EscapeJs(query)), host, port, user, password, action, db, contentType)
  }

  /** `call_basex_with_file`, with the file's text as `content`; it uses
      the default content type. */
  function CallBasexWithFile(content: string, host: string, port: int, user: string, password: string,
                             action: string, db: Option<string>): (r: Result<Request>)
    ensures r.Ok? <==> action == "get" || action == "post"
    ensures r.Ok? ==> r.value.body == FileQueryEnvelope(EscapeJs(content))
    ensures r.Ok? ==> r.value.contentType == DefaultContentType
  {
    CallBasex(FileQueryEnvelope(EscapeJs(content)), host, port, user, password, action, db, DefaultContentType)
  }

  /** The query text inside the envelope carries no raw `<js:` tag. */
  lemma EnvelopedQueryEscaped(query: string)
    ensures var body := QueryEnvelope(EscapeJs(query));
      exists pre, post :: body == pre + EscapeJs(query) + post
        && !Contains(EscapeJs(query), "<js:") && !Contains(EscapeJs(query), "</js:")
  {
    EscapeJsRemovesTags(query);
    var pre := "\n    <query>\n        <text>\n            ";
    var post := "\n        </text>\n    </query>\n    ";
    assert QueryEnvelope(EscapeJs(query)) == pre + EscapeJs(query) + post;
  }

  // ---------------------------------------------------------------------
  // remove_html_tags: re.sub('<.*?>', '', text)

  /** Every `>` in `s` comes after some newline. */
  predicate GtGuarded(s: string) {
    forall j :: 0 <= j < |s| && s[j] == '>' ==> exists k :: 0 <= k < j && s[k] == '\n'
  }

  /** Where the lazy `.*?>` after a `<` ends: the first `>` that comes
      before any newline (`.` does not match a newline). */
  function TagEnd(s: string): (r: Option<nat>)
    ensures r.Some? ==> (r.value < |s| && s[r.value] == '>'
      && forall i :: 0 <= i < r.value ==> s[i] != '>' && s[i] != '\n')
    ensures r.None? <==> GtGuarded(s)
    decreases |s|
  {
    if |s| == 0 then None
    else if s[0] == '>' then Some(0)
    else if s[0] == '\n' then None
    else
      var t := TagEnd(s[1..]);
      assert GtGuarded(s) <==> GtGuarded(s[1..]) by {
        if GtGuarded(s[1..]) {
          forall j | 0 <= j < |s| && s[j] == '>'
            ensures exists k :: 0 <= k < j && s[k] == '\n'
          {
            assert s[1..][j - 1] == s[j];
            var k :| 0 <= k < j - 1 && s[1..][k] == '\n';
            assert s[k + 1] == '\n';
          }
        }
        if GtGuarded(s) {
          forall j | 0 <= j < |s| - 1 && s[1..][j] == '>'
            ensures exists k :: 0 <= k < j && s[1..][k] == '\n'
          {
            assert s[j + 1] == '>';
            var k :| 0 <= k < j + 1 && s[k] == '\n';
            assert s[1..][k - 1] == '\n';
          }
        }
      }
      if t.Some? then Some(t.value + 1) else None
  }

  /** `remove_html_tags(text)`: scanning left to right, each `<` that has a
      `>` after it with no newline in between starts a tag, and the tag up
      to that `>` is deleted. */
  function RemoveHtmlTags(s: string): (r: string)
    ensures Subseq(r, s)
    decreases |s|
  {
    if |s| == 0 then ""
    else if s[0] == '<' && TagEnd(s[1..]).Some? then
      var rest := s[TagEnd(s[1..]).value + 2..];
      var r := RemoveHtmlTags(rest);
      SubseqDrop(r, s, TagEnd(s[1..]).value + 2);
      r
    else
      var r := RemoveHtmlTags(s[1..]);
      SubseqCons(s[0], r, s[1..]);
      assert [s[0]] + s[1..] == s;
      [s[0]] + r
  }

  lemma {:induction false} SubseqDrop(a: string, s: string, k: nat)
    requires k <= |s| && Subseq(a, s[k..])
    ensures Subseq(a, s)
    decreases k
  {
    if k > 0 {
      assert s[1..][k - 1..] == s[k..];
      SubseqDrop(a, s[1..], k - 1);
      SubseqSkip(s[0], a, s[1..]);
      assert [s[0]] + s[1..] == s;
    }
  }

  /** Newlines are never deleted. */
  lemma {:induction false} RemoveHtmlTagsKeepsNewlines(s: string)
    ensures Count(RemoveHtmlTags(s), '\n') == Count(s, '\n')
    decreases |s|
  {
    if |s| > 0 {
      if s[0] == '<' && TagEnd(s[1..]).Some? {
        var k := TagEnd(s[1..]).value;
        RemoveHtmlTagsKeepsNewlines(s[k + 2..]);
        forall i | 0 <= i < k + 2
          ensures s[i] != '\n'
        {
          if i > 0 {
            assert s[i] == s[1..][i - 1];
          }
        }
        CountDropFree(s, k + 2, '\n');
      } else {
        RemoveHtmlTagsKeepsNewlines(s[1..]);
        assert ([s[0]] + RemoveHtmlTags(s[1..]))[1..] == RemoveHtmlTags(s[1..]);
      }
    }
  }

  /** No tag is left: every `<` still present is followed by a newline
      before any later `>`. */
  predicate NoTag(r: string) {
    forall i, j :: 0 <= i < j < |r| && r[i] == '<' && r[j] == '>' ==>
      exists k :: i < k < j && r[k] == '\n'
  }

  lemma GuardedCons(c: char, t: string)
    requires GtGuarded(t) && c != '>'
    ensures GtGuarded([c] + t)
  {
    var s := [c] + t;
    forall j | 0 <= j < |s| && s[j] == '>'
      ensures exists k :: 0 <= k < j && s[k] == '\n'
    {
      assert t[j - 1] == s[j];
      var k :| 0 <= k < j - 1 && t[k] == '\n';
      assert s[k + 1] == '\n';
    }
  }

  /** Removing tags from text whose every `>` follows a newline keeps that
      property. */
  lemma {:induction false} RemoveHtmlTagsGuarded(t: string)
    requires GtGuarded(t)
    ensures GtGuarded(RemoveHtmlTags(t))
    decreases |t|
  {
    if |t| > 0 {
      if t[0] == '\n' {
        var r := RemoveHtmlTags(t);
        assert r[0] == '\n';
      } else {
        assert t[0] != '>';
        assert GtGuarded(t[1..]) by {
          forall j | 0 <= j < |t| - 1 && t[1..][j] == '>'
            ensures exists k :: 0 <= k < j && t[1..][k] == '\n'
          {
            assert t[j + 1] == '>';
            var k :| 0 <= k < j + 1 && t[k] == '\n';
            assert t[1..][k - 1] == '\n';
          }
        }
        assert TagEnd(t[1..]).None?;
        RemoveHtmlTagsGuarded(t[1..]);
        GuardedCons(t[0], RemoveHtmlTags(t[1..]));
      }
    }
  }

  lemma NoTagCons(c: char, r: string)
    requires NoTag(r)
    requires c == '<' ==> GtGuarded(r)
    ensures NoTag([c] + r)
  {
    var s := [c] + r;
    forall i, j | 0 <= i < j < |s| && s[i] == '<' && s[j] == '>'
      ensures exists k :: i < k < j && s[k] == '\n'
    {
      assert s[j] == r[j - 1];
      if i == 0 {
        var k :| 0 <= k < j - 1 && r[k] == '\n';
        assert s[k + 1] == '\n';
      } else {
        assert s[i] == r[i - 1];
        var k :| i - 1 < k < j - 1 && r[k] == '\n';
        assert s[k + 1] == '\n';
      }
    }
  }

  lemma {:induction false} RemoveHtmlTagsNoTag(s: string)
    ensures NoTag(RemoveHtmlTags(s))
    decreases |s|
  {
    if |s| > 0 {
      if s[0] == '<' && TagEnd(s[1..]).Some? {
        RemoveHtmlTagsNoTag(s[TagEnd(s[1..]).value + 2..]);
      } else {
        RemoveHtmlTagsNoTag(s[1..]);
        if s[0] == '<' {
          RemoveHtmlTagsGuarded(s[1..]);
        }
        NoTagCons(s[0], RemoveHtmlTags(s[1..]));
      }
    }
  }

  /** Text without `<` is left alone. */
  lemma {:induction false} RemoveHtmlTagsPlain(s: string)
    requires '<' !in s
    ensures RemoveHtmlTags(s) == s
    decreases |s|
  {
    if |s| > 0 {
      assert '<' !in s[1..] by {
        forall i | 0 <= i < |s| - 1
          ensures s[1..][i] != '<'
        {
          assert s[1..][i] == s[i + 1];
        }
      }
      RemoveHtmlTagsPlain(s[1..]);
      assert [s[0]] + s[1..] == s;
    }
  }

  // ---------------------------------------------------------------------
  // shorten_text / shorten_list_or_string

  /** The leading `{}` rewrite of `shorten_text`. */
  function RewriteEmptyBraces(t: string): (r: string)
    ensures StartsWith(t, "{}") ==> r == "{code:und}" + t[2..]
    ensures !StartsWith(t, "{}") ==> r == t
  {
    if StartsWith(t, "{}") then "{code:und}" + t[2..] else t
  }

  /** `shorten_text(text, limit, more)`, with the markdown-to-text converter
      as `plain`. Python slicing is used for `text[:limit]`, so a negative
      limit counts from the end. */
  function ShortenText(text: string, limit: int, more: string, plain: string -> string): (r: string)
    ensures var t := RewriteEmptyBraces(plain(text));
      (|t| <= limit ==> r == t)
      && (|t| > limit ==> r == SliceTo(t, limit) + more)
    ensures limit >= 0 ==> |r| <= limit + |more|
  {
    var t := RewriteEmptyBraces(plain(text));
    if |t| > limit then SliceTo(t, limit) + more else t
  }

  /** For a non-negative limit the result keeps the first `limit`
      characters of the converted text (all of it when shorter) and adds
      `more` exactly when something was cut. */
  lemma ShortenTextPrefix(text: string, limit: int, more: string, plain: string -> string)
    requires limit >= 0
    ensures var t := RewriteEmptyBraces(plain(text));
      var r := ShortenText(text, limit, more, plain);
      var keep := if |t| <= limit then |t| else limit;
      StartsWith(r, t[..keep]) && |r| == keep + (if |t| > limit then |more| else 0)
  {
    var t := RewriteEmptyBraces(plain(text));
    if |t| > limit {
      assert SliceTo(t, limit) == t[..limit];
    } else {
      assert t[..|t|] == t;
    }
  }

  /** `shorten_list_or_string`: lists are shortened item by item, strings
      directly, and any other value raises `TypeError`. List items must be
      strings for the converter. */
  function ShortenListOrString(long: Json, limit: int, more: string, plain: string -> string): (r: Result<Json>)
    ensures long.Str? ==> r == Ok(Str(ShortenText(long.s, limit, more, plain)))
    ensures !long.Str? && !long.Arr? ==> r.Err?
    ensures long.Arr? && r.Ok? ==> (r.value.Arr? && |r.value.items| == |long.items|
      && forall i :: 0 <= i < |long.items| ==>
           long.items[i].Str? && r.value.items[i] == Str(ShortenText(long.items[i].s, limit, more, plain)))
    ensures long.Arr? ==> (r.Ok? <==> forall i :: 0 <= i < |long.items| ==> long.items[i].Str?)
  {
    match long
    case Str(s) => Ok(Str(ShortenText(s, limit, more, plain)))
    case Arr(items) =>
      if forall i :: 0 <= i < |items| ==> items[i].Str? then
        Ok(Arr(seq(|items|, i requires 0 <= i < |items| => Str(ShortenText(items[i].s, limit, more, plain)))))
      else Err("TypeError")
    case _ => Err("TypeError")
  }

  // ---------------------------------------------------------------------
  // get_id_from_file_name

  /** `get_id_from_file_name`: the last `/`-piece of everything before the
      final `.`. */
  function GetIdFromFileName(name: string): string {
    var parts := Split(name, '.');
    Last(Split(Join(parts[..|parts| - 1], '.'), '/'))
  }

  /** The id is the basename of the name with its last extension removed;
      a name without a dot gives the empty id. */
  lemma GetIdFromFileNameSpec(p: string, ext: string)
    requires '.' !in ext
    ensures GetIdFromFileName(p + "." + ext) == Basename(p)
    ensures '.' !in p ==> GetIdFromFileName(p) == ""
  {
    SplitSnoc(p, '.', ext);
    var parts := Split(p + "." + ext, '.');
    assert p + "." + ext == p + ['.'] + ext;
    assert parts[..|parts| - 1] == Split(p, '.');
    SplitThenJoin(p, '.');
    BasenameIsLastPiece(p);
    if '.' !in p {
      SplitFree(p, '.');
      assert Split(p, '.')[..0] == [];
    }
  }
}
