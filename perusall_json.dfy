/**
 * The Perusall export extractor: load an export file (trimming junk around the JSON object and
 * validating its shape), read the text out of the various response formats a page's text URL
 * can return, and walk the pages, counting each as extracted, failed or expired and collecting
 * one block per extracted page into the final document.
 */
module PerusallExport {
  import opened Results
  import opened Text

  /** Parsed JSON. Floating-point numbers are not modelled. */
  datatype Json =
    | JNull
    | JBool(b: bool)
    | JNum(n: int)
    | JStr(s: string)
    | JList(items: seq<Json>)
    | JObj(fields: map<string, Json>)

  /** Python `str(v)` (and an f-string hole): a string is itself; any other value is shown by `show`. */
  function Str(show: Json -> string, v: Json): (r: string)
    ensures v.JStr? ==> r == v.s
  {
    if v.JStr? then v.s else show(v)
  }

  // ---------------------------------------------------------------- load_json_file

  datatype LoadError =
    | FileNotFound(path: string)
    | NoJson
    | InvalidJson
    | Invalid(message: string)

  /** Python `content.startswith(c)` and `content.endswith(c)` for one character. */
  predicate StartsWith(s: string, c: char) { |s| > 0 && s[0] == c }
  predicate EndsWith(s: string, c: char) { |s| > 0 && s[|s| - 1] == c }

  /** Cut the stripped contents to start at the first `{`; without one there is no JSON. */
  function FromBrace(content: string): Result<string, LoadError> {
    if StartsWith(content, '{') then Ok(content)
    else
      var start := Find(content, "{");
      if start != -1 then Ok(content[start..]) else Err(NoJson)
  }

  /**
   * Unless it already ends in `}` or `]`, cut the text just after its last `}`, or when it has
   * none just after its last `]`, or leave it as it is.
   */
  function UpToEnd(content: string): string {
    if EndsWith(content, '}') || EndsWith(content, ']') then content
    else
      var close := RFindChar(content, '}');
      if close != -1 then content[..close + 1]
      else
        var bracket := RFindChar(content, ']');
        if bracket != -1 then content[..bracket + 1] else content
  }

  /** What `load_json_file` hands to the parser, for the file's contents. */
  function Trimmed(raw: string): Result<string, LoadError> {
    Located(Strip(raw))
  }

  /** Both cuts, on the stripped contents. */
  function Located(stripped: string): Result<string, LoadError> {
    match FromBrace(stripped)
    case Err(e) => Err(e)
    case Ok(content) => Ok(UpToEnd(content))
  }

  /** The trimming steps, reassigning the contents as the source does, with its loop over the two endings. */
  method TrimContent(raw: string) returns (r: Result<string, LoadError>)
    ensures r == Trimmed(raw)
  {
    var content := Strip(raw);
    if !StartsWith(content, '{') {
      var start := Find(content, "{");
      if start != -1 {
        content := content[start..];
      } else {
        return Err(NoJson);
      }
    }
    assert FromBrace(Strip(raw)) == Ok(content);
    content := CutAtEnding(content);
    return Ok(content);
  }

  /** The loop over the two endings: the first of `}` and `]` that occurs decides where to cut. */
  method CutAtEnding(whole: string) returns (content: string)
    ensures content == UpToEnd(whole)
  {
    content := whole;
    if !EndsWith(content, '}') && !EndsWith(content, ']') {
      var endings := ['}', ']'];
      var k := 0;
      while k < |endings|
        invariant 0 <= k <= |endings| && content == whole && endings == ['}', ']']
        invariant forall j :: 0 <= j < k ==> RFindChar(whole, endings[j]) == -1
      {
        var last := RFindChar(content, endings[k]);
        if last != -1 {
          if k == 1 {
            assert RFindChar(whole, endings[0]) == -1;
          }
          content := content[..last + 1];
          return;
        }
        k := k + 1;
      }
      assert RFindChar(whole, endings[0]) == -1 && RFindChar(whole, endings[1]) == -1;
    }
  }

  /** Trimming fails, and then with `NoJson`, exactly when the stripped contents have no `{`. */
  lemma TrimmedFails(raw: string)
    ensures Trimmed(raw).Err? <==> !Contains(Strip(raw), "{")
    ensures Trimmed(raw).Err? ==> Trimmed(raw) == Err(NoJson)
  {
    LocatedShape(Strip(raw));
  }

  /**
   * On stripped contents, the text handed to the parser starts with `{` and is the piece of the
   * contents that begins at their first `{`; there is none exactly when they hold no `{`.
   */
  lemma LocatedShape(c: string)
    ensures Located(c).Err? <==> !Contains(c, "{")
    ensures Located(c).Err? ==> Located(c) == Err(NoJson)
    ensures Located(c).Ok? ==>
      var start := Find(c, "{");
      var r := Located(c).value;
      && 0 <= start && start + |r| <= |c| && r == c[start..start + |r|]
      && StartsWith(r, '{')
  {
    var start := Find(c, "{");
    if StartsWith(c, '{') {
      assert OccursAt(c, "{", 0);
      assert start == 0;
      assert c[0..] == c;
    }
    if start >= 0 {
      assert c[start..start + 1] == "{";
      UpToEndShape(c[start..]);
    }
  }

  /** Cutting at an ending keeps a prefix that still holds the first character. */
  lemma UpToEndShape(content: string)
    requires StartsWith(content, '{')
    ensures var r := UpToEnd(content);
      |r| <= |content| && r == content[..|r|] && StartsWith(r, '{')
  {
  }

  /**
   * When the text does not already end in `}` or `]`, the last `}` wins even if a `]` comes after
   * it; the last `]` is used only when there is no `}`; with neither the text is left as it is.
   */
  lemma UpToEndChoice(content: string)
    requires !EndsWith(content, '}') && !EndsWith(content, ']')
    ensures '}' in content ==> UpToEnd(content) == content[..RFindChar(content, '}') + 1]
    ensures '}' in content ==> EndsWith(UpToEnd(content), '}') && '}' !in content[|UpToEnd(content)|..]
    ensures '}' !in content && ']' in content ==> UpToEnd(content) == content[..RFindChar(content, ']') + 1]
    ensures '}' !in content && ']' !in content ==> UpToEnd(content) == content
  {
    if '}' in content {
      var p := RFindChar(content, '}');
      var tail := content[p + 1..];
      forall j | 0 <= j < |tail| ensures tail[j] != '}' {
        assert tail[j] == content[p + 1 + j];
      }
    }
  }

  /** The checks on the parsed value, each failure with its own message; success gives the object. */
  function Validate(data: Json): (r: Result<map<string, Json>, LoadError>)
    ensures r.Ok? ==> data == JObj(r.value)
  {
    if !data.JObj? then Err(Invalid("JSON must be a dictionary/object"))
    else if "pages" !in data.fields then Err(Invalid("JSON must contain a 'pages' array"))
    else if !data.fields["pages"].JList? then Err(Invalid("'pages' must be an array"))
    else if |data.fields["pages"].items| == 0 then Err(Invalid("'pages' array is empty"))
    else Ok(data.fields)
  }

  /** A parsed export the extractor accepts: an object whose "pages" is a non-empty list. */
  predicate WellShaped(data: Json) {
    data.JObj? && "pages" in data.fields && data.fields["pages"].JList? && |data.fields["pages"].items| > 0
  }

  /** `load_json_file`: the file must exist, hold a `{`, parse, and be well shaped. */
  method LoadJsonFile(present: bool, path: string, raw: string, parse: string -> Option<Json>)
    returns (r: Result<map<string, Json>, LoadError>)
    ensures !present ==> r == Err(FileNotFound(path))
    ensures present ==> r == match Trimmed(raw)
      case Err(e) => Err(e)
      case Ok(content) => if parse(content).None? then Err(InvalidJson) else Validate(parse(content).value)
  {
    if !present {
      return Err(FileNotFound(path));
    }
    var content := TrimContent(raw);
    if content.Err? {
      return Err(content.error);
    }
    var data := parse(content.value);
    if data.None? {
      return Err(InvalidJson);
    }
    r := Validate(data.value);
  }

  /** Validation accepts exactly the well-shaped values, and hands back their fields. */
  lemma ValidateAccepts(data: Json)
    ensures Validate(data).Ok? <==> WellShaped(data)
    ensures WellShaped(data) ==> Validate(data) == Ok(data.fields)
    ensures !WellShaped(data) ==> Validate(data).Err? && Validate(data).error.Invalid?
  {
  }

  // ---------------------------------------------------------------- extract_text_from_response

  /** The keys whose value a dictionary item in a "text" list contributes, first present wins. */
  const TextItemFields := ["content", "text", "value", "data"]
  /** The same for a dictionary item in a "data" list. */
  const DataItemFields := ["text", "content", "value"]
  /** The keys tried, in order, when none of "text", "content" and "data" is present. */
  const FallbackFields := ["textContent", "body", "html", "plain", "raw", "items"]

  /** The value of the first of `keys` present in `m`, shown as a string; nothing when none is present. */
  function FirstField(show: Json -> string, m: map<string, Json>, keys: seq<string>): (r: seq<string>)
    ensures |r| <= 1
    decreases |keys|
  {
    if keys == [] then []
    else if keys[0] in m then [Str(show, m[keys[0]])]
    else FirstField(show, m, keys[1..])
  }

  /** The index of the first of `keys` present in `m`, if any. */
  predicate FirstPresent(m: map<string, Json>, keys: seq<string>, k: nat) {
    k < |keys| && keys[k] in m && forall j :: 0 <= j < k ==> keys[j] !in m
  }

  /** The first present key decides, and only when no key is present is nothing contributed. */
  lemma {:induction false} FirstFieldPicks(show: Json -> string, m: map<string, Json>, keys: seq<string>, k: nat)
    requires FirstPresent(m, keys, k)
    ensures FirstField(show, m, keys) == [Str(show, m[keys[k]])]
    decreases k
  {
    if k > 0 {
      assert keys[0] !in m;
      assert FirstPresent(m, keys[1..], k - 1) by {
        forall j | 0 <= j < k - 1 ensures keys[1..][j] !in m {
          assert keys[1..][j] == keys[j + 1];
        }
      }
      FirstFieldPicks(show, m, keys[1..], k - 1);
    }
  }

  lemma {:induction false} FirstFieldNone(show: Json -> string, m: map<string, Json>, keys: seq<string>)
    requires forall j :: 0 <= j < |keys| ==> keys[j] !in m
    ensures FirstField(show, m, keys) == []
    decreases |keys|
  {
    if keys != [] {
      assert keys[0] !in m;
      FirstFieldNone(show, m, keys[1..]);
    }
  }

  /** What each item of a "text" list contributes: a string itself, a dictionary its first text-like field, others `str`. */
  function TextPieces(show: Json -> string, items: seq<Json>): (r: seq<string>)
    ensures |r| <= |items|
    decreases |items|
  {
    if items == [] then []
    else
      var piece :=
        if items[0].JStr? then [items[0].s]
        else if items[0].JObj? then FirstField(show, items[0].fields, TextItemFields)
        else [show(items[0])];
      piece + TextPieces(show, items[1..])
  }

  /** What each item of a "data" list contributes: a dictionary its first text-like field, anything else `str`. */
  function DataPieces(show: Json -> string, items: seq<Json>): (r: seq<string>)
    ensures |r| <= |items|
    decreases |items|
  {
    if items == [] then []
    else
      var piece := if items[0].JObj? then FirstField(show, items[0].fields, DataItemFields) else [Str(show, items[0])];
      piece + DataPieces(show, items[1..])
  }

  /** A present fallback value: a list is its items' strings joined by spaces, anything else `str`. */
  function FallbackValue(show: Json -> string, v: Json): string {
    if v.JList? then Join(" ", seq(|v.items|, k requires 0 <= k < |v.items| => Str(show, v.items[k])))
    else Str(show, v)
  }

  function Fallback(show: Json -> string, resp: map<string, Json>, keys: seq<string>): string
    decreases |keys|
  {
    if keys == [] then ""
    else if keys[0] in resp then FallbackValue(show, resp[keys[0]])
    else Fallback(show, resp, keys[1..])
  }

  /** The text before the final strip, by key precedence: "text", then "content", then "data", then the fallbacks. */
  function RawText(show: Json -> string, resp: map<string, Json>): string {
    if "text" in resp then
      match resp["text"]
      case JStr(s) => s
      case JList(items) => Join(" ", TextPieces(show, items))
      case _ => ""
    else if "content" in resp then Str(show, resp["content"])
    else if "data" in resp then
      if resp["data"].JList? then Join(" ", DataPieces(show, resp["data"].items)) else Str(show, resp["data"])
    else Fallback(show, resp, FallbackFields)
  }

  /** `extract_text_from_response`: the raw text, stripped. */
  function ExtractText(show: Json -> string, resp: map<string, Json>): (r: string)
    ensures IsStripped(r)
  {
    Strip(RawText(show, resp))
  }

  /**
   * A "text" key decides alone: the other keys are not consulted, and a "text" that is neither
   * a string nor a list gives the empty text.
   */
  lemma TextKeyDecides(show: Json -> string, resp: map<string, Json>)
    requires "text" in resp
    ensures ExtractText(show, resp) == ExtractText(show, map["text" := resp["text"]])
    ensures !resp["text"].JStr? && !resp["text"].JList? ==> ExtractText(show, resp) == ""
  {
  }

  /** Without "text", a "content" key decides alone. */
  lemma ContentKeyDecides(show: Json -> string, resp: map<string, Json>)
    requires "text" !in resp && "content" in resp
    ensures ExtractText(show, resp) == Strip(Str(show, resp["content"]))
    ensures ExtractText(show, resp) == ExtractText(show, map["content" := resp["content"]])
  {
  }

  /** Without "text" and "content", a "data" key decides alone. */
  lemma DataKeyDecides(show: Json -> string, resp: map<string, Json>)
    requires "text" !in resp && "content" !in resp && "data" in resp
    ensures ExtractText(show, resp) == ExtractText(show, map["data" := resp["data"]])
  {
  }

  /** Otherwise the first present fallback key decides, and with none the text is empty. */
  lemma {:induction false} FallbackPicks(show: Json -> string, resp: map<string, Json>, keys: seq<string>, k: nat)
    requires FirstPresent(resp, keys, k)
    ensures Fallback(show, resp, keys) == FallbackValue(show, resp[keys[k]])
    decreases k
  {
    if k > 0 {
      assert keys[0] !in resp;
      assert FirstPresent(resp, keys[1..], k - 1) by {
        forall j | 0 <= j < k - 1 ensures keys[1..][j] !in resp {
          assert keys[1..][j] == keys[j + 1];
        }
      }
      FallbackPicks(show, resp, keys[1..], k - 1);
    }
  }

  lemma FallbackDecides(show: Json -> string, resp: map<string, Json>, k: nat)
    requires "text" !in resp && "content" !in resp && "data" !in resp
    requires FirstPresent(resp, FallbackFields, k)
    ensures ExtractText(show, resp) == Strip(FallbackValue(show, resp[FallbackFields[k]]))
  {
    FallbackPicks(show, resp, FallbackFields, k);
  }

  /** The items of a list contribute independently, in order. */
  lemma {:induction false} TextPiecesConcat(show: Json -> string, xs: seq<Json>, ys: seq<Json>)
    ensures TextPieces(show, xs + ys) == TextPieces(show, xs) + TextPieces(show, ys)
    decreases |xs|
  {
    if xs == [] {
      assert xs + ys == ys;
    } else {
      assert (xs + ys)[0] == xs[0];
      assert (xs + ys)[1..] == xs[1..] + ys;
      TextPiecesConcat(show, xs[1..], ys);
    }
  }

  /** A list of strings contributes exactly those strings. */
  lemma {:induction false} TextPiecesOfStrings(show: Json -> string, items: seq<Json>)
    requires forall k :: 0 <= k < |items| ==> items[k].JStr?
    ensures |TextPieces(show, items)| == |items|
    ensures forall k :: 0 <= k < |items| ==> TextPieces(show, items)[k] == items[k].s
    decreases |items|
  {
    if items != [] {
      TextPiecesOfStrings(show, items[1..]);
      assert forall k :: 0 <= k < |items| - 1 ==> items[1..][k] == items[k + 1];
    }
  }

  /** A dictionary item with none of the text-like keys contributes nothing. */
  lemma SilentItem(show: Json -> string, m: map<string, Json>)
    requires forall j :: 0 <= j < |TextItemFields| ==> TextItemFields[j] !in m
    ensures TextPieces(show, [JObj(m)]) == []
  {
    FirstFieldNone(show, m, TextItemFields);
    assert [JObj(m)][1..] == [];
  }

  // ---------------------------------------------------------------- fetch_page_text

  /** What the request for a page's text URL comes back with. */
  datatype Response =
    | JsonBody(data: Json)
    | PlainBody(body: string)
    | RequestFailed

  /**
   * The text a fetch yields: a JSON object's extracted text, a non-JSON body stripped, and the
   * empty text for a failed request or a JSON value that is not an object.
   */
  function FetchedText(show: Json -> string, r: Response): (t: string)
    ensures IsStripped(t)
  {
    match r
    case JsonBody(JObj(m)) => ExtractText(show, m)
    case JsonBody(_) => ""
    case PlainBody(b) => Strip(b)
    case RequestFailed => ""
  }

  // ---------------------------------------------------------------- extract_document

  /** The parts of the outside world the page loop consults. */
  datatype Env = Env(show: Json -> string, expired: Json -> bool, fetch: Json -> Response)

  datatype PageOutcome = NoUrl | ExpiredUrl | Fetched(text: string)

  /** One page: no text URL, an expired URL, or the fetched text. */
  function Outcome(env: Env, page: map<string, Json>): PageOutcome {
    if "textContentUrl" !in page then NoUrl
    else if "expiresAt" in page && env.expired(page["expiresAt"]) then ExpiredUrl
    else Fetched(FetchedText(env.show, env.fetch(page["textContentUrl"])))
  }

  /** The page's number when it has one, else its 1-based position. */
  function Label(env: Env, i: nat, page: map<string, Json>): string {
    if "number" in page then Str(env.show, page["number"]) else NatToString(i)
  }

  function Block(heading: string, text: string): string {
    "=== PAGE " + heading + " ===\n\n" + text
  }

  /** The block a page contributes: one when its fetch gave text, none otherwise. */
  function PageBlock(env: Env, i: nat, page: map<string, Json>): (r: seq<string>)
    ensures |r| <= 1
  {
    match Outcome(env, page)
    case Fetched(text) => if text != "" then [Block(Label(env, i, page), text)] else []
    case _ => []
  }

  /** The counters and blocks after some pages. */
  datatype Tally = Tally(blocks: seq<string>, successful: nat, failed: nat, expired: nat)

  datatype DocError = Load(e: LoadError) | PageNotObject(index: nat) | NoPages

  /** The tally after page `i` (1-based): exactly one counter goes up. */
  function Count(env: Env, t: Tally, i: nat, page: map<string, Json>): Tally {
    match Outcome(env, page)
    case NoUrl => t.(failed := t.failed + 1)
    case ExpiredUrl => t.(expired := t.expired + 1)
    case Fetched(text) =>
      if text != "" then t.(blocks := t.blocks + [Block(Label(env, i, page), text)], successful := t.successful + 1)
      else t.(failed := t.failed + 1)
  }

  /** The tally after the first `n` pages; a page that is not an object stops the loop. */
  function Tallied(env: Env, pages: seq<Json>, n: nat): Result<Tally, DocError>
    requires n <= |pages|
  {
    if n == 0 then Ok(Tally([], 0, 0, 0))
    else match Tallied(env, pages, n - 1)
      case Err(e) => Err(e)
      case Ok(t) =>
        if pages[n - 1].JObj? then Ok(Count(env, t, n, pages[n - 1].fields)) else Err(PageNotObject(n))
  }

  /** The blocks of a run of pages numbered from `base + 1`, read front to back. */
  function BlocksOf(env: Env, pages: seq<Json>, base: nat): seq<string>
    decreases |pages|
  {
    if pages == [] then []
    else
      (if pages[0].JObj? then PageBlock(env, base + 1, pages[0].fields) else [])
      + BlocksOf(env, pages[1..], base + 1)
  }

  lemma {:induction false} BlocksOfSnoc(env: Env, pages: seq<Json>, p: Json, base: nat)
    ensures BlocksOf(env, pages + [p], base) ==
      BlocksOf(env, pages, base) + (if p.JObj? then PageBlock(env, base + |pages| + 1, p.fields) else [])
    decreases |pages|
  {
    if pages == [] {
      assert [] + [p] == [p];
      assert [p][1..] == [];
    } else {
      assert (pages + [p])[0] == pages[0];
      assert (pages + [p])[1..] == pages[1..] + [p];
      BlocksOfSnoc(env, pages[1..], p, base + 1);
    }
  }

  /**
   * After `n` pages every page is counted exactly once, there is one block per extracted page,
   * and the blocks are those of the extracted pages in page order.
   */
  lemma {:induction false} TallyAccounts(env: Env, pages: seq<Json>, n: nat)
    requires n <= |pages| && Tallied(env, pages, n).Ok?
    ensures var t := Tallied(env, pages, n).value;
      && t.successful + t.failed + t.expired == n
      && |t.blocks| == t.successful
      && t.blocks == BlocksOf(env, pages[..n], 0)
  {
    if n > 0 {
      TallyAccounts(env, pages, n - 1);
      assert pages[..n] == pages[..n - 1] + [pages[n - 1]];
      BlocksOfSnoc(env, pages[..n - 1], pages[n - 1], 0);
    } else {
      assert pages[..0] == [];
    }
  }

  /** The document a successful run returns: the header, then the page blocks separated by blank lines. */
  function Document(name: string, now: string, blocks: seq<string>): string {
    "DOCUMENT: " + name + "\nSOURCE: Perusall Export\nEXTRACTED: " + now + "\n\n" + Join("\n\n", blocks)
  }

  /** The document's name: its "name" field, or "Unknown Document". */
  function DocName(show: Json -> string, data: map<string, Json>): string {
    if "name" in data then Str(show, data["name"]) else "Unknown Document"
  }

  /** The outcome of a whole extraction, given the loaded export. */
  function Extracted(env: Env, data: map<string, Json>, pages: seq<Json>, now: string): Result<string, DocError> {
    match Tallied(env, pages, |pages|)
    case Err(e) => Err(e)
    case Ok(t) => if t.blocks == [] then Err(NoPages) else Ok(Document(DocName(env.show, data), now, t.blocks))
  }

  /** Once a page stops the loop, the outcome stays that error. */
  lemma {:induction false} TalliedStops(env: Env, pages: seq<Json>, n: nat, m: nat)
    requires n <= m <= |pages| && Tallied(env, pages, n).Err?
    ensures Tallied(env, pages, m) == Tallied(env, pages, n)
    decreases m - n
  {
    if n < m {
      assert Tallied(env, pages, n + 1) == Tallied(env, pages, n);
      TalliedStops(env, pages, n + 1, m);
    }
  }

  /** The page loop of `extract_document`, with its three counters and the list of page blocks. */
  method TallyPages(env: Env, pages: seq<Json>) returns (r: Result<Tally, DocError>)
    ensures r == Tallied(env, pages, |pages|)
  {
    var extracted: seq<string> := [];
    var successful, failed, expired := 0, 0, 0;
    var i := 1;
    while i <= |pages|
      invariant 1 <= i <= |pages| + 1
      invariant Tallied(env, pages, i - 1) == Ok(Tally(extracted, successful, failed, expired))
    {
      if !pages[i - 1].JObj? {
        TalliedStops(env, pages, i, |pages|);
        return Err(PageNotObject(i));
      }
      var page := pages[i - 1].fields;
      if "textContentUrl" !in page {
        failed := failed + 1;
        i := i + 1;
        continue;
      }
      if "expiresAt" in page && env.expired(page["expiresAt"]) {
        expired := expired + 1;
        i := i + 1;
        continue;
      }
      var text := FetchedText(env.show, env.fetch(page["textContentUrl"]));
      if text != "" {
        var heading := Label(env, i, page);
        extracted := extracted + [Block(heading, text)];
        successful := successful + 1;
      } else {
        failed := failed + 1;
      }
      i := i + 1;
    }
    return Ok(Tally(extracted, successful, failed, expired));
  }

  /** The outcome of `extract_document` for the file's presence, contents and parse. */
  function Extraction(env: Env, present: bool, path: string, raw: string, parse: string -> Option<Json>, now: string)
    : Result<string, DocError>
  {
    if !present then Err(Load(FileNotFound(path)))
    else match Trimmed(raw)
      case Err(e) => Err(Load(e))
      case Ok(content) =>
        if parse(content).None? then Err(Load(InvalidJson))
        else match Validate(parse(content).value)
          case Err(e) => Err(Load(e))
          case Ok(data) => Extracted(env, data, data["pages"].items, now)
  }

  /**
   * `extract_document`: load the export, walk its pages, fail when no page gave text, and
   * otherwise return the document, also writing it when an output path is given. The clock
   * reading `now` is passed in.
   */
  method ExtractDocument(env: Env, present: bool, path: string, raw: string, parse: string -> Option<Json>,
                         now: string, outputFile: Option<string>)
    returns (r: Result<string, DocError>, written: Option<(string, string)>)
    ensures r == Extraction(env, present, path, raw, parse, now)
    ensures written == if r.Ok? && outputFile.Some? && outputFile.value != "" then Some((outputFile.value, r.value)) else None
  {
    written := None;
    var loaded := LoadJsonFile(present, path, raw, parse);
    if loaded.Err? {
      return Err(Load(loaded.error)), written;
    }
    var data := loaded.value;
    if present && Trimmed(raw).Ok? && parse(Trimmed(raw).value).Some? {
      ValidateAccepts(parse(Trimmed(raw).value).value);
    }
    var pages := data["pages"].items;
    var tally := TallyPages(env, pages);
    if tally.Err? {
      return Err(tally.error), written;
    }
    if tally.value.blocks == [] {
      return Err(NoPages), written;
    }
    var fullText := Document(DocName(env.show, data), now, tally.value.blocks);
    if outputFile.Some? && outputFile.value != "" {
      written := Some((outputFile.value, fullText));
    }
    return Ok(fullText), written;
  }

  /** Loading fails with the loader's error, and a loaded export with a page that is not an object fails at that page. */
  lemma ExtractionErrors(env: Env, present: bool, path: string, raw: string, parse: string -> Option<Json>, now: string)
    ensures !present ==> Extraction(env, present, path, raw, parse, now) == Err(Load(FileNotFound(path)))
    ensures present && !Contains(Strip(raw), "{") ==> Extraction(env, present, path, raw, parse, now) == Err(Load(NoJson))
    ensures present && Trimmed(raw).Ok? && parse(Trimmed(raw).value).Some? && !WellShaped(parse(Trimmed(raw).value).value) ==>
      Extraction(env, present, path, raw, parse, now).Err? && Extraction(env, present, path, raw, parse, now).error.Load?
  {
    TrimmedFails(raw);
    if present && Trimmed(raw).Ok? && parse(Trimmed(raw).value).Some? {
      ValidateAccepts(parse(Trimmed(raw).value).value);
    }
  }

  /**
   * A run fails for lack of pages exactly when no page gave text; a successful document begins
   * with the header and then the first extracted page's block.
   */
  lemma ExtractedOutcome(env: Env, data: map<string, Json>, pages: seq<Json>, now: string)
    requires Tallied(env, pages, |pages|).Ok?
    ensures var t := Tallied(env, pages, |pages|).value;
      && (Extracted(env, data, pages, now) == Err(NoPages) <==> t.successful == 0)
      && (t.successful > 0 ==>
            var header := "DOCUMENT: " + DocName(env.show, data) + "\nSOURCE: Perusall Export\nEXTRACTED: " + now + "\n\n";
            var doc := Extracted(env, data, pages, now).value;
            |doc| >= |header| + |t.blocks[0]| && doc[..|header| + |t.blocks[0]|] == header + t.blocks[0])
  {
    var t := Tallied(env, pages, |pages|).value;
    TallyAccounts(env, pages, |pages|);
    if t.successful > 0 {
      var header := "DOCUMENT: " + DocName(env.show, data) + "\nSOURCE: Perusall Export\nEXTRACTED: " + now + "\n\n";
      var body := Join("\n\n", t.blocks);
      JoinStartsWithFirst("\n\n", t.blocks);
      assert Document(DocName(env.show, data), now, t.blocks) == header + body;
      assert (header + body)[..|header| + |t.blocks[0]|] == header + body[..|t.blocks[0]|];
    }
  }
}
