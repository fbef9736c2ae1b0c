/**
 * The card source adapter: `get_google_sheet_data` in main.py. It validates the
 * configured sheet locator, extracts the document id, builds the CSV export
 * URL, asks the network for the table and turns every usable data row into a
 * card. The network request and the CSV tokeniser are one oracle, `fetch`,
 * that maps the export URL to a table of rows or to the failure's message.
 */
module SheetSource {
  import opened Wrappers
  import opened Text

  /** A flashcard: the spreadsheet's id, German term and translation columns. */
  datatype Card = Card(id: string, german: string, translation: string)

  type Row = seq<string>
  type Table = seq<Row>

  /** The `ValueError`s `get_google_sheet_data` raises, one per cause. */
  datatype SheetError =
    | UrlNotSet
    | InvalidUrl
    | FetchFailed(reason: string)  // the request, its status or the CSV parse failed
    | TooFewRows

  /** `str(e)` for each of those errors. */
  function Message(e: SheetError): string {
    match e
    case UrlNotSet => "GOOGLE_SHEET_URL environment variable is not set"
    case InvalidUrl => "Invalid Google Sheets URL format"
    case FetchFailed(reason) => "Failed to fetch Google Sheet data: " + reason
    case TooFewRows => "Spreadsheet must have at least a header row and one data row"
  }

  /** The path segment that precedes the document id in a share link. */
  const IdMarker: string := "/d/"
  const ExportPrefix: string := "https://docs.google.com/spreadsheets/d/"
  const ExportSuffix: string := "/export?format=csv"

  // ---------------------------------------------------------------------------
  // Document id extraction
  // ---------------------------------------------------------------------------

  predicate NoSlash(s: string) {
    forall j :: 0 <= j < |s| ==> s[j] != '/'
  }

  /** `id` is the text at the start of `s` up to its first '/' or its end. */
  predicate IsFirstSegment(id: string, s: string) {
    id <= s && NoSlash(id) && (|id| == |s| || s[|id|] == '/')
  }

  /** The text that follows the first occurrence of "/d/" in `url`. */
  function AfterMarker(url: string): (rest: string)
    requires Contains(url, IdMarker)
    ensures |rest| <= |url| - |IdMarker|
  {
    url[IndexOf(url, IdMarker).value + |IdMarker|..]
  }

  /** The id as the source computes it: `url.split("/d/")[1].split("/")[0]`.
      The caller has already checked that "/d/" occurs in `url`. */
  function SheetId(url: string): (id: string)
    requires Contains(url, IdMarker)
    ensures NoSlash(id)
  {
    var seg := Split(url, IdMarker)[1];
    FirstPieceIsFirstSegment(seg);
    Split(seg, "/")[0]
  }

  /** The CSV export URL built around a document id. */
  function ExportUrl(id: string): (u: string)
  {
    ExportPrefix + id + ExportSuffix
  }

  lemma OneCharOccurs(s: string, c: char, j: nat)
    requires j < |s|
    ensures OccursAt(s, [c], j) <==> s[j] == c
  {
    assert |s[j..j + 1]| == 1 && s[j..j + 1][0] == s[j];
  }

  /** The first piece of `s.split("/")` is the first segment of `s`. */
  lemma FirstPieceIsFirstSegment(s: string)
    ensures IsFirstSegment(Split(s, "/")[0], s)
  {
    var parts := Split(s, "/");
    var p := parts[0];
    if |parts| == 1 {
      forall j | 0 <= j < |s| ensures s[j] != '/' {
        OneCharOccurs(s, '/', j);
      }
    } else {
      forall j | 0 <= j < |p| ensures p[j] != '/' {
        assert !OccursAt(s, "/", j);
        OneCharOccurs(s, '/', j);
      }
      assert OccursAt(s, "/", |p|);
      OneCharOccurs(s, '/', |p|);
    }
  }

  /** Two first segments of the same string are the same. */
  lemma FirstSegmentUnique(a: string, b: string, s: string)
    requires IsFirstSegment(a, s) && IsFirstSegment(b, s)
    ensures a == b
  {
  }

  /** What the split chain yields is exactly the text after the first "/d/"
      up to the next '/' or the end of the URL; in particular it has no '/'. */
  lemma {:induction false} SheetIdIsSegmentAfterMarker(url: string)
    requires Contains(url, IdMarker)
    ensures IsFirstSegment(SheetId(url), AfterMarker(url))
  {
    var after := AfterMarker(url);
    var i := IndexOf(url, IdMarker).value;
    var parts := Split(url, IdMarker);
    assert parts == [url[..i]] + Split(after, IdMarker);
    var segs := Split(after, IdMarker);
    var seg := segs[0];
    var id := SheetId(url);
    assert id == Split(seg, "/")[0];
    FirstPieceIsFirstSegment(seg);
    if |segs| > 1 {
      assert OccursAt(after, IdMarker, |seg|);
      assert after[|seg|..|seg| + 3][0] == after[|seg|];
      if |id| == |seg| {
        assert id == seg;
      } else {
        assert seg[|id|] == after[|id|];
      }
    }
  }

  /** An occurrence of "/d/" is a '/', a 'd' and a '/' in a row. */
  lemma MarkerAt(s: string, j: nat)
    requires OccursAt(s, IdMarker, j)
    ensures s[j] == '/' && s[j + 1] == 'd' && s[j + 2] == '/'
  {
    assert s[j..j + 3][0] == s[j] && s[j..j + 3][1] == s[j + 1] && s[j..j + 3][2] == s[j + 2];
  }

  /** In the export URL's fixed prefix, the first "/d/" is the one at its end. */
  lemma MarkerFirstInExportPrefix()
    ensures IndexOf(ExportPrefix, IdMarker) == Some(|ExportPrefix| - |IdMarker|)
  {
    var p := ExportPrefix;
    assert forall j :: 0 <= j < 36 ==> !(p[j] == '/' && p[j + 1] == 'd' && p[j + 2] == '/');
    forall j | 0 <= j < 36 ensures !OccursAt(p, IdMarker, j) {
      if OccursAt(p, IdMarker, j) {
        MarkerAt(p, j);
      }
    }
    assert p[36..39] == IdMarker;
    IndexOfIs(p, IdMarker, 36);
  }

  /** Extracting the id from the export URL built around a slash-free id gives
      that id back. */
  lemma ExportUrlRoundTrip(id: string)
    requires NoSlash(id)
    ensures Contains(ExportUrl(id), IdMarker)
    ensures SheetId(ExportUrl(id)) == id
  {
    var u := ExportUrl(id);
    MarkerFirstInExportPrefix();
    assert u == ExportPrefix + (id + ExportSuffix);
    IndexOfExtend(ExportPrefix, IdMarker, id + ExportSuffix);
    assert AfterMarker(u) == id + ExportSuffix;
    assert IsFirstSegment(id, id + ExportSuffix);
    SheetIdIsSegmentAfterMarker(u);
    FirstSegmentUnique(SheetId(u), id, id + ExportSuffix);
  }

  // ---------------------------------------------------------------------------
  // Locator validation
  // ---------------------------------------------------------------------------

  /** Everything `get_google_sheet_data` does before it touches the network:
      the configured locator (`None` when GOOGLE_SHEET_URL is unset) becomes
      the export URL to request, or the error that stops the call first. */
  function CsvUrl(env: Option<string>): (r: Result<string, SheetError>)
    ensures r == Failure(UrlNotSet) <==> env.None? || env.value == []
    ensures r == Failure(InvalidUrl) <==>
      env.Some? && env.value != [] && !Contains(env.value, IdMarker)
    ensures r.Success? <==> env.Some? && Contains(env.value, IdMarker)
    ensures r.Success? ==> (
      && |ExportPrefix| + |ExportSuffix| <= |r.value|
      && r.value[..|ExportPrefix|] == ExportPrefix
      && r.value[|r.value| - |ExportSuffix|..] == ExportSuffix
      && IsFirstSegment(r.value[|ExportPrefix|..|r.value| - |ExportSuffix|], AfterMarker(env.value)))
  {
    if env.None? || env.value == [] then Failure(UrlNotSet)
    else if !Contains(env.value, IdMarker) then Failure(InvalidUrl)
    else
      var id := SheetId(env.value);
      SheetIdIsSegmentAfterMarker(env.value);
      assert ExportUrl(id)[|ExportPrefix|..|ExportUrl(id)| - |ExportSuffix|] == id;
      Success(ExportUrl(id))
  }

  // ---------------------------------------------------------------------------
  // Rows to cards
  // ---------------------------------------------------------------------------

  /** A data row is used when it has at least three columns and none of the
      first three is blank, i.e. all whitespace. By `StripEmptyIff` this is the
      source's test that `row[0].strip()`, `row[1].strip()` and
      `row[2].strip()` are all non-empty. */
  predicate KeepRow(row: Row) {
    |row| >= 3 && !AllSpace(row[0]) && !AllSpace(row[1]) && !AllSpace(row[2])
  }

  function ToCard(row: Row): Card
    requires |row| >= 3
  {
    Card(Strip(row[0]), Strip(row[1]), Strip(row[2]))
  }

  /** A card field as the adapter emits it: non-empty and already stripped. */
  predicate CleanField(s: string) {
    s != [] && Strip(s) == s
  }

  predicate CleanCard(c: Card) {
    CleanField(c.id) && CleanField(c.german) && CleanField(c.translation)
  }

  /** The cards made from the usable rows among `rows`, in row order. */
  function FilterRows(rows: Table): (cards: seq<Card>)
    ensures |cards| <= |rows|
  {
    if rows == [] then []
    else
      var last := rows[|rows| - 1];
      if KeepRow(last) then FilterRows(rows[..|rows| - 1]) + [ToCard(last)]
      else FilterRows(rows[..|rows| - 1])
  }

  /** The positions of the usable rows, in increasing order: an independent
      description of which rows survive. */
  function KeptIndices(rows: Table): (idx: seq<nat>)
    ensures forall k :: 0 <= k < |idx| ==> idx[k] < |rows| && KeepRow(rows[idx[k]])
    ensures forall k, l :: 0 <= k < l < |idx| ==> idx[k] < idx[l]
    ensures forall i :: 0 <= i < |rows| && KeepRow(rows[i]) ==> i in idx
  {
    if rows == [] then []
    else
      var n := |rows| - 1;
      var front := rows[..n];
      assert forall i :: 0 <= i < n ==> front[i] == rows[i];
      KeptIndices(front) + (if KeepRow(rows[n]) then [n] else [])
  }

  /** The cards are exactly the stripped usable rows, taken in row order: the
      k-th card comes from the k-th usable row. Hence the cards form an
      order-preserving selection of the rows, one card per usable row. */
  lemma {:induction false} FilterRowsSelectsKeptRows(rows: Table)
    ensures |FilterRows(rows)| == |KeptIndices(rows)|
    ensures forall k :: 0 <= k < |KeptIndices(rows)| ==>
      FilterRows(rows)[k] == ToCard(rows[KeptIndices(rows)[k]])
  {
    if rows != [] {
      var n := |rows| - 1;
      FilterRowsSelectsKeptRows(rows[..n]);
    }
  }

  /** A usable row makes a card whose fields are non-empty and stripped. */
  lemma ToCardClean(row: Row)
    requires KeepRow(row)
    ensures CleanCard(ToCard(row))
  {
    StripEmptyIff(row[0]);
    StripEmptyIff(row[1]);
    StripEmptyIff(row[2]);
    StripIdempotent(row[0]);
    StripIdempotent(row[1]);
    StripIdempotent(row[2]);
  }

  /** Every card the filter emits has non-empty, stripped fields. */
  lemma FilterRowsAllClean(rows: Table)
    ensures forall k :: 0 <= k < |FilterRows(rows)| ==> CleanCard(FilterRows(rows)[k])
  {
    FilterRowsSelectsKeptRows(rows);
    forall k | 0 <= k < |FilterRows(rows)| ensures CleanCard(FilterRows(rows)[k]) {
      ToCardClean(rows[KeptIndices(rows)[k]]);
    }
  }

  /** When every row is usable, each row yields its card, in order. */
  lemma {:induction false} FilterRowsKeepsUsableTable(rows: Table)
    requires forall i :: 0 <= i < |rows| ==> KeepRow(rows[i])
    ensures |FilterRows(rows)| == |rows|
    ensures forall i :: 0 <= i < |rows| ==> |rows[i]| >= 3 && FilterRows(rows)[i] == ToCard(rows[i])
  {
    if rows != [] {
      var n := |rows| - 1;
      FilterRowsKeepsUsableTable(rows[..n]);
      assert KeepRow(rows[n]);
      assert FilterRows(rows) == FilterRows(rows[..n]) + [ToCard(rows[n])];
      forall i | 0 <= i < |rows| ensures FilterRows(rows)[i] == ToCard(rows[i]) {
        if i < n {
          assert rows[..n][i] == rows[i];
        }
      }
    }
  }

  // ---------------------------------------------------------------------------
  // The whole adapter
  // ---------------------------------------------------------------------------

  /** Turns what the network returned into cards: a failed request or CSV parse
      is reported with its message, a table without a data row is refused,
      the header row is dropped and the remaining rows are filtered. */
  function ParseTable(fetched: Result<Table, string>): (r: Result<seq<Card>, SheetError>)
    ensures fetched.Failure? <==> r.Failure? && r.error.FetchFailed?
    ensures fetched.Failure? ==> r.error.reason == fetched.error
    ensures fetched.Success? && |fetched.value| < 2 <==> r == Failure(TooFewRows)
    ensures r.Success? ==> fetched.Success? && |r.value| <= |fetched.value| - 1
    ensures r.Success? ==> |fetched.value| >= 2 && r.value == FilterRows(fetched.value[1..])
  {
    match fetched
    case Failure(e) => Failure(FetchFailed(e))
    case Success(rows) =>
      if |rows| < 2 then Failure(TooFewRows)
      else Success(FilterRows(rows[1..]))
  }

  /** `get_google_sheet_data` with the environment lookup and the network
      request passed in: `env` is GOOGLE_SHEET_URL, `fetch` answers a request
      for a URL. */
  function SheetData(env: Option<string>, fetch: string -> Result<Table, string>): (r: Result<seq<Card>, SheetError>)
    ensures r == Failure(UrlNotSet) <==> env.None? || env.value == []
    ensures r == Failure(InvalidUrl) <==> env.Some? && env.value != [] && !Contains(env.value, IdMarker)
    ensures r.Success? ==> forall k :: 0 <= k < |r.value| ==> CleanCard(r.value[k])
  {
    match CsvUrl(env)
    case Failure(e) => Failure(e)
    case Success(url) =>
      var p := ParseTable(fetch(url));
      if p.Success? then FilterRowsAllClean(fetch(url).value[1..]); p else p
  }

  /** A missing or malformed locator is reported before any request: the
      answer does not depend on what the network would have said. */
  lemma LocatorErrorsPrecedeFetch(env: Option<string>, f: string -> Result<Table, string>,
                                  g: string -> Result<Table, string>)
    requires env.None? || env.value == [] || !Contains(env.value, IdMarker)
    ensures SheetData(env, f) == SheetData(env, g)
    ensures SheetData(env, f) == Failure(UrlNotSet) || SheetData(env, f) == Failure(InvalidUrl)
  {
  }

  /** A valid locator leads to exactly one request, for the export URL of the
      id that follows "/d/", and the answer is that of the parsed table. */
  lemma ValidLocatorFetchesExportUrl(url: string, fetch: string -> Result<Table, string>)
    requires Contains(url, IdMarker)
    ensures SheetData(Some(url), fetch) == ParseTable(fetch(ExportUrl(SheetId(url))))
  {
  }

  /** A sheet with only its header row is refused whatever the header says. */
  lemma HeaderOnlyRefused(url: string, header: Row, fetch: string -> Result<Table, string>)
    requires Contains(url, IdMarker)
    requires fetch(ExportUrl(SheetId(url))) == Success([header])
    ensures SheetData(Some(url), fetch) == Failure(TooFewRows)
  {
  }

  /** The row predicate is the source's test on stripped columns. */
  lemma KeepRowIsStripTest(row: Row)
    ensures KeepRow(row) <==>
      |row| >= 3 && Strip(row[0]) != [] && Strip(row[1]) != [] && Strip(row[2]) != []
  {
    if |row| >= 3 {
      StripEmptyIff(row[0]);
      StripEmptyIff(row[1]);
      StripEmptyIff(row[2]);
    }
  }

  /** One more data row extends the filtered cards by that row's card, if any. */
  lemma FilterRowsStep(table: Table, i: nat)
    requires 1 <= i < |table|
    ensures FilterRows(table[1..i + 1]) ==
      FilterRows(table[1..i]) + (if KeepRow(table[i]) then [ToCard(table[i])] else [])
  {
    var x := table[1..i + 1];
    assert x[..|x| - 1] == table[1..i];
    assert x[|x| - 1] == table[i];
  }

  /** A row of three non-empty columns without surrounding whitespace is kept
      and becomes a card with exactly those columns. */
  lemma UnpaddedRow(id: string, german: string, translation: string)
    requires id != [] && !IsSpace(id[0]) && !IsSpace(id[|id| - 1])
    requires german != [] && !IsSpace(german[0]) && !IsSpace(german[|german| - 1])
    requires translation != [] && !IsSpace(translation[0]) && !IsSpace(translation[|translation| - 1])
    ensures KeepRow([id, german, translation])
    ensures ToCard([id, german, translation]) == Card(id, german, translation)
  {
    StripUnpadded(id);
    StripUnpadded(german);
    StripUnpadded(translation);
  }

  /** A sheet whose header is followed by a usable row, an unusable one, a
      usable one and an unusable one yields the cards of the two usable rows,
      in order. */
  lemma UnusableRowsSkipped(header: Row, a: Row, b: Row, c: Row, d: Row)
    requires KeepRow(a) && !KeepRow(b) && KeepRow(c) && !KeepRow(d)
    ensures ParseTable(Success([header, a, b, c, d])) == Success([ToCard(a), ToCard(c)])
  {
    var rows := [a, b, c, d];
    assert rows[..3] == [a, b, c] && rows[..3][..2] == [a, b] && rows[..3][..2][..1] == [a];
    assert [a][..0] == [];
    assert FilterRows([a]) == [ToCard(a)];
    assert FilterRows([a, b]) == [ToCard(a)];
    assert FilterRows([a, b, c]) == [ToCard(a), ToCard(c)];
    assert FilterRows(rows) == [ToCard(a), ToCard(c)];
    assert [header, a, b, c, d][1..] == rows;
  }

  /** The sheet of the blank-row scenario: rows 2 and 4 are blank in their
      German and translation columns and are skipped. */
  lemma BlankRowsSkipped()
    ensures ParseTable(Success([
      ["id", "German", "Translation"],
      ["1", "Hallo", "Hello"],
      ["2", "", ""],
      ["3", "Danke", "Thank you"],
      ["4", "   ", "   "]])) ==
      Success([Card("1", "Hallo", "Hello"), Card("3", "Danke", "Thank you")])
  {
    UnpaddedRow("1", "Hallo", "Hello");
    UnpaddedRow("3", "Danke", "Thank you");
    var blank: Row := ["4", "   ", "   "];
    assert AllSpace(blank[1]) by {
      assert forall i :: 0 <= i < 3 ==> blank[1][i] == ' ';
    }
    UnusableRowsSkipped(["id", "German", "Translation"], ["1", "Hallo", "Hello"], ["2", "", ""],
                        ["3", "Danke", "Thank you"], blank);
  }

  /** The row loop of main.py: every data row after the header, in order,
      becomes a stripped card when its first three columns are non-blank. */
  method CollectCards(allValues: Table) returns (cards: seq<Card>)
    requires |allValues| >= 1
    ensures cards == FilterRows(allValues[1..])
  {
    cards := [];
    var i := 1;
    while i < |allValues|
      invariant 1 <= i <= |allValues|
      invariant cards == FilterRows(allValues[1..i])
    {
      var row := allValues[i];
      KeepRowIsStripTest(row);
      if |row| >= 3 && Strip(row[0]) != [] && Strip(row[1]) != [] && Strip(row[2]) != [] {
        cards := cards + [Card(Strip(row[0]), Strip(row[1]), Strip(row[2]))];
      }
      FilterRowsStep(allValues, i);
      i := i + 1;
    }
    assert allValues[1..i] == allValues[1..];
  }

  /** The adapter as main.py runs it. */
  method GetGoogleSheetData(env: Option<string>, fetch: string -> Result<Table, string>)
    returns (r: Result<seq<Card>, SheetError>)
    ensures r == SheetData(env, fetch)
  {
    if env.None? || env.value == [] {
      return Failure(UrlNotSet);
    }
    var spreadsheetUrl := env.value;
    if !Contains(spreadsheetUrl, IdMarker) {
      return Failure(InvalidUrl);
    }
    var sheetId := SheetId(spreadsheetUrl);
    var response := fetch(ExportUrl(sheetId));
    ValidLocatorFetchesExportUrl(spreadsheetUrl, fetch);
    if response.Failure? {
      return Failure(FetchFailed(response.error));
    }
    var allValues := response.value;
    if |allValues| < 2 {
      return Failure(TooFewRows);
    }
    var cards := CollectCards(allValues);
    return Success(cards);
  }
}
