/**
 * The request table (src/components/Content/Request.tsx): how one HAR entry is named,
 * classified and emphasised, how the entries become rows, which rows a category
 * filter shows, and the component's state (rows, selected key, detail entry).
 */
module RequestTable {
  import opened Wrappers
  import opened Har
  import opened Patterns
  import Segments
  import Decimal

  /** The category a row carries (`mimeType` in the source). */
  datatype Category = XHR | JS | CSS | Img | Doc | Other

  /** The toolbar's filter: every row, or the rows of one category. */
  datatype Filter = All | Only(category: Category)

  datatype Row = Row(
    url: string,
    name: string,
    httpMethod: string,
    status: int,
    category: Category,
    size: string,
    time: string,
    entry: Entry)

  // ---------------------------------------------------------------- naming

  /** `urlToName`: the last `/`-piece of the URL, or, when that is empty, the piece
      before it with `/` appended. JavaScript reads `parsed[-1]` of a one-piece split
      as `undefined`, which the template literal spells out. */
  function UrlToName(url: string): (name: string)
    ensures Segments.Last(url, '/') != "" ==> name == Segments.Last(url, '/')
  {
    var parsed := Segments.Split(url, '/');
    var result := parsed[|parsed| - 1];
    if result != "" then result
    else (if |parsed| >= 2 then parsed[|parsed| - 2] else "undefined") + "/"
  }

  /** What `urlToName` gives, in terms of the URL alone: the text after the last `/`
      when there is any; for a URL ending in `/`, the text between the last two
      slashes with `/` appended; for the empty URL, `undefined/`. */
  lemma UrlToNameCases(url: string)
    ensures url == "" ==> UrlToName(url) == "undefined/"
    ensures url != "" && url[|url| - 1] == '/' ==>
      UrlToName(url) == Segments.Last(url[..|url| - 1], '/') + "/"
    ensures url != "" && url[|url| - 1] != '/' ==>
      UrlToName(url) == Segments.Last(url, '/') && UrlToName(url) != ""
  {
    Segments.LastEmpty(url, '/');
    if url != "" && url[|url| - 1] == '/' {
      var stem := url[..|url| - 1];
      assert stem + ['/'] == url;
      Segments.SplitSnoc(stem, '/');
    }
  }

  /** A resource URL is named by its file: `https://example.com/assets/app.js` gives `app.js`. */
  lemma UrlToNameOfFile(dir: string, file: string)
    requires file != "" && '/' !in file
    ensures UrlToName(dir + "/" + file) == file
  {
    var url := dir + "/" + file;
    assert url[|dir| + 1..] == file;
    Segments.LastAfterFinalSeparator(url, '/', |dir|);
  }

  /** A directory-like URL is named by its last directory: `https://example.com/assets/`
      gives `assets/`. */
  lemma UrlToNameOfDirectory(parent: string, dir: string)
    requires '/' !in dir
    ensures UrlToName(parent + "/" + dir + "/") == dir + "/"
  {
    var url := parent + "/" + dir + "/";
    var stem := parent + "/" + dir;
    UrlToNameCases(url);
    assert url[..|url| - 1] == stem;
    assert stem[|parent| + 1..] == dir;
    Segments.LastAfterFinalSeparator(stem, '/', |parent|);
  }

  // ---------------------------------------------------------------- classifying

  /** `mimeToType`: first match wins, case-sensitive, anchored. */
  function MimeToType(mime: string): (c: Category)
    ensures c == XHR <==> mime == "application/json"
    ensures c == JS <==> mime == "text/javascript"
    ensures c == CSS <==> mime == "text/css"
    ensures c == Img <==> PrefixThenAny(mime, "image/")
    ensures c == Doc <==> PrefixThenAny(mime, "text/") && mime != "text/javascript" && mime != "text/css"
  {
    FirstCharExcludes(mime, "image/", "text/");
    if mime == "application/json" then XHR
    else if mime == "text/javascript" then JS
    else if mime == "text/css" then CSS
    else if PrefixThenAny(mime, "image/") then Img
    else if PrefixThenAny(mime, "text/") then Doc
    else Other
  }

  /** One type of each category. */
  lemma MimeToTypeExamples()
    ensures MimeToType("application/json") == XHR
    ensures MimeToType("text/javascript") == JS
    ensures MimeToType("text/css") == CSS
    ensures MimeToType("image/png") == Img
    ensures MimeToType("text/plain") == Doc
  {
  }

  /** The anchors and the case at work: a parameter after the type, another case, an
      empty subtype or another top-level type all change the answer. */
  lemma MimeToTypeIsAnchored()
    ensures MimeToType("text/javascript; charset=utf-8") == Doc
    ensures MimeToType("Text/CSS") == Other
    ensures MimeToType("image/") == Other
    ensures MimeToType("application/octet-stream") == Other
  {
    FirstCharExcludes("application/octet-stream", "application/octet-stream", "text/");
    FirstCharExcludes("application/octet-stream", "application/octet-stream", "image/");
    FirstCharExcludes("Text/CSS", "Text/CSS", "text/");
    FirstCharExcludes("Text/CSS", "Text/CSS", "image/");
    FirstCharExcludes("image/", "image/", "text/");
  }

  // ---------------------------------------------------------------- emphasis

  predicate IsOption(httpMethod: string) {
    httpMethod == "OPTIONS"
  }

  /** `/^0$/` on the decimal string of the status */
  predicate Is0(status: int) {
    Decimal.DecimalString(status) == "0"
  }

  /** `/^1.+/` on the decimal string of the status */
  predicate Is100(status: int) {
    PrefixThenAny(Decimal.DecimalString(status), "1")
  }

  /** `/^4.+/` on the decimal string of the status */
  predicate Is400(status: int) {
    PrefixThenAny(Decimal.DecimalString(status), "4")
  }

  /** `/^5.+/` on the decimal string of the status */
  predicate Is500(status: int) {
    PrefixThenAny(Decimal.DecimalString(status), "5")
  }

  /** The name cell is red ... */
  predicate IsRed(row: Row) {
    Is400(row.status) || Is500(row.status)
  }

  /** ... and, independently, grey. */
  predicate IsGrey(row: Row) {
    IsOption(row.httpMethod) || Is0(row.status) || Is100(row.status)
  }

  /** A leading-digit test on the status string holds exactly for statuses of two or
      more digits that lead with that digit. */
  lemma LeadingDigitTest(status: int, d: nat)
    requires 0 < d <= 9
    ensures PrefixThenAny(Decimal.DecimalString(status), [Decimal.DigitChar(d)])
        <==> status >= 10 && Decimal.Lead(status) == d
  {
    var s := Decimal.DecimalString(status);
    Decimal.DecimalStringLeading(status, d);
    if |s| >= 2 && s[0] == Decimal.DigitChar(d) {
      assert s[..1] == [Decimal.DigitChar(d)];
      assert Decimal.IsDigit(s[1]);
    }
  }

  /** The status tests in numbers. */
  lemma StatusTests(status: int)
    ensures Is0(status) <==> status == 0
    ensures Is100(status) <==> status >= 10 && Decimal.Lead(status) == 1
    ensures Is400(status) <==> status >= 10 && Decimal.Lead(status) == 4
    ensures Is500(status) <==> status >= 10 && Decimal.Lead(status) == 5
  {
    Decimal.DecimalStringZero(status);
    LeadingDigitTest(status, 1);
    LeadingDigitTest(status, 4);
    LeadingDigitTest(status, 5);
  }

  /** For the three-digit statuses of HTTP, red means 400 to 599 and grey means an
      `OPTIONS` request or 100 to 199; status 0 is grey and not red. */
  lemma EmphasisOfHttpStatus(row: Row)
    ensures 100 <= row.status < 1000 ==>
      (IsRed(row) <==> 400 <= row.status < 600) &&
      (IsGrey(row) <==> row.httpMethod == "OPTIONS" || row.status < 200)
    ensures row.status == 0 ==> IsGrey(row) && !IsRed(row)
  {
    StatusTests(row.status);
    if 100 <= row.status < 1000 {
      Decimal.LeadOfThreeDigits(row.status);
    }
  }

  /** The tests look at the leading digit, not at a range: 40 and 4000 are red, 4 is not,
      and 1 is not grey. */
  lemma EmphasisIsByLeadingDigit()
    ensures Is400(40) && Is400(4000) && !Is400(4)
    ensures Is500(50) && !Is100(1)
  {
    StatusTests(40);
    StatusTests(4000);
    StatusTests(4);
    StatusTests(50);
    StatusTests(1);
  }

  // ---------------------------------------------------------------- rows

  /** One row of the table; `prettyBytes` is the size formatter the viewer imports. */
  function ToRow(e: Entry, prettyBytes: int -> string): Row {
    Row(
      e.request.url,
      UrlToName(e.request.url),
      e.request.httpMethod,
      e.response.status,
      MimeToType(e.response.content.mimeType),
      prettyBytes(e.response.content.size),
      Decimal.DecimalString(e.time.Floor),
      e)
  }

  /** `entries.map(...)` */
  function Project(entries: seq<Entry>, prettyBytes: int -> string): (rows: seq<Row>) {
    if |entries| == 0 then []
    else [ToRow(entries[0], prettyBytes)] + Project(entries[1..], prettyBytes)
  }

  /** One row per entry, in entry order, each built from its own entry. */
  lemma {:induction false} ProjectRowwise(entries: seq<Entry>, prettyBytes: int -> string)
    ensures |Project(entries, prettyBytes)| == |entries|
    ensures forall i :: 0 <= i < |entries| ==>
      var row := Project(entries, prettyBytes)[i];
      var e := entries[i];
      && row.entry == e
      && row.url == e.request.url
      && row.name == UrlToName(e.request.url)
      && row.httpMethod == e.request.httpMethod
      && row.status == e.response.status
      && row.category == MimeToType(e.response.content.mimeType)
      && row.size == prettyBytes(e.response.content.size)
      && row.time == Decimal.DecimalString(e.time.Floor)
  {
    if |entries| > 0 {
      ProjectRowwise(entries[1..], prettyBytes);
    }
  }

  // ---------------------------------------------------------------- filtering

  predicate Shows(filter: Filter, row: Row) {
    filter == All || filter == Only(row.category)
  }

  /** `rows.filter(row => filter === 'All' ? true : filter === row.type)` */
  function Visible(rows: seq<Row>, filter: Filter): (visible: seq<Row>)
    ensures |visible| <= |rows|
    ensures forall i :: 0 <= i < |visible| ==> Shows(filter, visible[i])
  {
    if |rows| == 0 then []
    else (if Shows(filter, rows[0]) then [rows[0]] else []) + Visible(rows[1..], filter)
  }

  /** The filter works piece by piece, so it keeps the rows' order. */
  lemma {:induction false} VisibleConcat(a: seq<Row>, b: seq<Row>, filter: Filter)
    ensures Visible(a + b, filter) == Visible(a, filter) + Visible(b, filter)
  {
    if |a| > 0 {
      assert (a + b)[1..] == a[1..] + b;
      VisibleConcat(a[1..], b, filter);
    } else {
      assert a + b == b;
    }
  }

  /** A row is visible exactly when it is a row the filter shows. */
  lemma {:induction false} VisibleMembers(rows: seq<Row>, filter: Filter, row: Row)
    ensures row in Visible(rows, filter) <==> row in rows && Shows(filter, row)
  {
    if |rows| > 0 {
      VisibleMembers(rows[1..], filter, row);
      assert rows == [rows[0]] + rows[1..];
    }
  }

  /** Filter `All` shows every row. */
  lemma {:induction false} VisibleAll(rows: seq<Row>)
    ensures Visible(rows, All) == rows
  {
    if |rows| > 0 {
      VisibleAll(rows[1..]);
      assert rows == [rows[0]] + rows[1..];
    }
  }

  /** The number of entries of a category: the independent count for the filter. */
  function CountOf(entries: seq<Entry>, c: Category): nat {
    if |entries| == 0 then 0
    else (if MimeToType(entries[0].response.content.mimeType) == c then 1 else 0) + CountOf(entries[1..], c)
  }

  /** Under filter `Only(c)` the table shows as many rows as there are entries of category `c`. */
  lemma {:induction false} VisibleCountsCategory(entries: seq<Entry>, prettyBytes: int -> string, c: Category)
    ensures |Visible(Project(entries, prettyBytes), Only(c))| == CountOf(entries, c)
  {
    if |entries| > 0 {
      VisibleCountsCategory(entries[1..], prettyBytes, c);
      var rows := Project(entries, prettyBytes);
      assert rows[1..] == Project(entries[1..], prettyBytes);
    }
  }

  // ---------------------------------------------------------------- selection

  /** `selectedKey === key ? null : key` */
  function Toggled(selected: Option<nat>, key: nat): (r: Option<nat>)
    ensures r == None <==> selected == Some(key)
    ensures r != None ==> r == Some(key)
  {
    if selected == Some(key) then None else Some(key)
  }

  /** Selecting a row twice from a state where it is not selected leaves nothing selected. */
  lemma ToggledTwice(selected: Option<nat>, key: nat)
    requires selected != Some(key)
    ensures Toggled(Toggled(selected, key), key) == None
  {
  }

  /** The component's state. `selectedKey` is a position in the VISIBLE rows (the
      table's `key` is the index after filtering), and `entry` feeds the detail pane. */
  class Table {
    var rows: seq<Row>
    var selectedKey: Option<nat>
    var entry: Option<Entry>

    constructor ()
      ensures rows == [] && selectedKey == None && entry == None
    {
      rows := [];
      selectedKey := None;
      entry := None;
    }

    /** The effect on a new `har` prop: nothing for `null`; otherwise new rows and
        no selection. */
    method OnArchive(har: Option<Archive>, prettyBytes: int -> string)
      modifies this
      ensures har == None ==> rows == old(rows) && selectedKey == old(selectedKey) && entry == old(entry)
      ensures har != None ==> rows == Project(har.value.entries, prettyBytes) && selectedKey == None && entry == None
    {
      if har == None {
        return;
      }
      rows := Project(har.value.entries, prettyBytes);
      selectedKey := None;
      entry := None;
    }

    /** `showDetail`: toggles the key, always sets the entry. */
    method ShowDetail(key: nat, e: Entry)
      modifies this
      ensures selectedKey == Toggled(old(selectedKey), key)
      ensures entry == Some(e) && rows == old(rows)
      ensures DetailShown() <==> old(selectedKey) != Some(key)
      ensures IsHighlighted(key) <==> old(selectedKey) != Some(key)
    {
      selectedKey := Toggled(selectedKey, key);
      entry := Some(e);
    }

    /** `hideDetail` */
    method HideDetail()
      modifies this
      ensures selectedKey == None && entry == None && rows == old(rows)
      ensures !DetailShown()
    {
      selectedKey := None;
      entry := None;
    }

    /** The detail pane is open while a key is selected. */
    predicate DetailShown()
      reads this
    {
      selectedKey != None
    }

    /** The row at visible position `index` is drawn as selected. */
    predicate IsHighlighted(index: nat)
      reads this
    {
      selectedKey == Some(index)
    }
  }
}
