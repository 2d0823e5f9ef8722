/**
 * The Preview tab (src/components/Detail/Preview.tsx): six flags computed from the
 * content's MIME type by case-insensitive regular expressions, kept as component
 * state, and the panel they select.
 */
module PreviewPane {
  import opened Wrappers
  import opened Har
  import opened Patterns
  import RequestTable

  datatype Flags = Flags(isText: bool, isHtml: bool, isJs: bool, isCss: bool, isImage: bool, isJson: bool)

  /** The six tests of the effect, each on the MIME type. */
  function FlagsFor(mime: string): (f: Flags)
    ensures f.isHtml ==> f.isText
    ensures f.isJs ==> f.isText
    ensures f.isCss ==> f.isText
    ensures !(f.isHtml && f.isJs) && !(f.isHtml && f.isCss) && !(f.isJs && f.isCss)
    ensures !(f.isText && f.isImage) && !(f.isText && f.isJson) && !(f.isImage && f.isJson)
  {
    FirstLetterExcludes(mime, "text/", "image/");
    FirstLetterExcludes(mime, "text/", "application/json");
    FirstLetterExcludes(mime, "image/", "application/json");
    Flags(
      PrefixThenAnyIgnoreCase(mime, "text/"),
      EqualsIgnoreCase(mime, "text/html"),
      PrefixThenAnyIgnoreCase(mime, "text/javascript"),
      PrefixThenAnyIgnoreCase(mime, "text/css"),
      PrefixThenAnyIgnoreCase(mime, "image/"),
      EqualsIgnoreCase(mime, "application/json"))
  }

  /** The prettier parser a source dialect is formatted with. */
  datatype Parser = Html | Babel | Css

  /** A part of the `<pre>` block: prettier's output for a source, or the raw text
      (`undefined` when the content has none, which renders as nothing). */
  datatype Piece = Formatted(parser: Parser, source: string) | Raw(text: Option<string>)

  /** The preview: nothing at all, or a panel with an optional text block, an optional
      image source and an optional JSON source for the tree viewer. */
  datatype View = Nothing | Panel(text: Option<seq<Piece>>, image: Option<string>, json: Option<string>)

  /** `text || ''` */
  function OrEmpty(text: Option<string>): string {
    if text == None then "" else text.value
  }

  /** `text || '{}'`: an absent or empty body is read as the empty object. */
  function JsonSource(text: Option<string>): (source: string)
    ensures text == None || text == Some("") ==> source == "{}"
    ensures text != None && text != Some("") ==> source == text.value
  {
    if text == None || text.value == "" then "{}" else text.value
  }

  /** A value in a template literal: `undefined` is spelt out. */
  function Interpolated(value: Option<string>): string {
    if value == None then "undefined" else value.value
  }

  /** The `src` of the image. */
  function DataUri(c: Content): string {
    "data:" + c.mimeType + ";" + Interpolated(c.encoding) + "," + Interpolated(c.text)
  }

  /** The children of the `<pre>` block, in the order they are written. */
  function TextPieces(f: Flags, c: Content): seq<Piece> {
    (if f.isHtml then [Formatted(Html, OrEmpty(c.text))] else []) +
    (if f.isJs then [Formatted(Babel, OrEmpty(c.text))] else []) +
    (if f.isCss then [Formatted(Css, OrEmpty(c.text))] else []) +
    (if !f.isHtml && !f.isJs && !f.isCss then [Raw(c.text)] else [])
  }

  /** What the component renders from the flags it holds. */
  function ViewOf(f: Flags, visible: bool, content: Option<Content>): (v: View)
    ensures v != Nothing <==> visible && content != None
    ensures v != Nothing ==>
      && (v.text != None <==> f.isText)
      && (v.image != None <==> f.isImage)
      && (v.json != None <==> f.isJson)
    ensures v != Nothing && f.isText ==>
      (Raw(content.value.text) in v.text.value <==> !f.isHtml && !f.isJs && !f.isCss)
    ensures v != Nothing && f.isImage ==> v.image == Some(DataUri(content.value))
    ensures v != Nothing && f.isJson ==> v.json == Some(JsonSource(content.value.text))
  {
    if visible && content != None then
      var c := content.value;
      Panel(
        if f.isText then Some(TextPieces(f, c)) else None,
        if f.isImage then Some(DataUri(c)) else None,
        if f.isJson then Some(JsonSource(c.text)) else None)
    else Nothing
  }

  /** The rendering modes as a single choice, first match wins: the text family (HTML,
      JavaScript and CSS sources reformatted, any other text raw), then images, then JSON. */
  datatype Mode = Source(parser: Parser) | PlainText | Image | Tree | Empty

  function ModeOf(mime: string): Mode {
    if PrefixThenAnyIgnoreCase(mime, "text/") then
      if EqualsIgnoreCase(mime, "text/html") then Source(Html)
      else if PrefixThenAnyIgnoreCase(mime, "text/javascript") then Source(Babel)
      else if PrefixThenAnyIgnoreCase(mime, "text/css") then Source(Css)
      else PlainText
    else if PrefixThenAnyIgnoreCase(mime, "image/") then Image
    else if EqualsIgnoreCase(mime, "application/json") then Tree
    else Empty
  }

  /** The one panel a mode stands for. */
  function PanelFor(m: Mode, c: Content): View {
    match m
    case Source(p) => Panel(Some([Formatted(p, OrEmpty(c.text))]), None, None)
    case PlainText => Panel(Some([Raw(c.text)]), None, None)
    case Image => Panel(None, Some(DataUri(c)), None)
    case Tree => Panel(None, None, Some(JsonSource(c.text)))
    case Empty => Panel(None, None, None)
  }

  /** Once the effect has run for a content, the visible preview shows exactly one mode:
      the independent flags never combine into two. */
  lemma SettledViewIsOneMode(c: Content)
    ensures ViewOf(FlagsFor(c.mimeType), true, Some(c)) == PanelFor(ModeOf(c.mimeType), c)
  {
    var f := FlagsFor(c.mimeType);
    var t := OrEmpty(c.text);
    if f.isHtml {
      assert TextPieces(f, c) == [Formatted(Html, t)];
    } else if f.isJs {
      assert TextPieces(f, c) == [Formatted(Babel, t)];
    } else if f.isCss {
      assert TextPieces(f, c) == [Formatted(Css, t)];
    } else {
      assert TextPieces(f, c) == [Raw(c.text)];
    }
  }

  /** The bare script and style types are not reformatted: `.+` wants a character after
      the type, so `text/javascript` and `text/css` alone show raw text. */
  lemma BareSourceTypesShowRawText(c: Content)
    requires c.mimeType == "text/javascript" || c.mimeType == "text/css"
    ensures ModeOf(c.mimeType) == PlainText
  {
  }

  /** The HTML test is anchored at both ends: with a parameter the page shows raw. */
  lemma HtmlWithParameterShowsRawText()
    ensures ModeOf("text/html; charset=utf-8") == PlainText
  {
  }

  /** The tests ignore case. */
  lemma PreviewIgnoresCase()
    ensures ModeOf("TEXT/HTML") == Source(Html)
    ensures ModeOf("Application/JSON") == Tree
  {
    var html := "TEXT/HTML";
    forall i | 0 <= i < |html| ensures SameIgnoringCase(html[i], "text/html"[i]) {
    }
    var json := "Application/JSON";
    forall i | 0 <= i < |json| ensures SameIgnoringCase(json[i], "application/json"[i]) {
    }
    FirstLetterExcludes(json, "application/json", "text/");
    FirstLetterExcludes(json, "application/json", "image/");
  }

  /** A script type followed by a character other than a line terminator (LF, CR,
      U+2028, U+2029), `text/javascript; charset=utf-8` say, is reformatted as
      JavaScript, although the table files it under `Doc`. */
  lemma ScriptTypeWithParameterIsFormatted(rest: string)
    requires rest != "" && !IsLineTerminator(rest[0])
    ensures ModeOf("text/javascript" + rest) == Source(Babel)
    ensures RequestTable.MimeToType("text/javascript" + rest) == RequestTable.Doc
  {
    var mime := "text/javascript" + rest;
    assert mime[..15] == "text/javascript";
    StartsWithIsCaseInsensitive(mime, "text/javascript");
    assert "text/javascript" == "text/" + "javascript";
    StartsWithIgnoreCaseSplit(mime, "text/", "javascript");
    assert mime[5] == 'j';
  }

  /** The component's six state flags. */
  class Preview {
    var isText: bool
    var isHtml: bool
    var isJs: bool
    var isCss: bool
    var isImage: bool
    var isJson: bool

    function Current(): Flags
      reads this
    {
      Flags(isText, isHtml, isJs, isCss, isImage, isJson)
    }

    constructor ()
      ensures Current() == Flags(false, false, false, false, false, false)
    {
      isText, isHtml, isJs, isCss, isImage, isJson := false, false, false, false, false, false;
    }

    /** The effect on a new `content` prop: `null` keeps all six flags. */
    method OnContent(content: Option<Content>)
      modifies this
      ensures content == None ==> Current() == old(Current())
      ensures content != None ==> Current() == FlagsFor(content.value.mimeType)
    {
      if content == None {
        return;
      }
      var f := FlagsFor(content.value.mimeType);
      isText, isHtml, isJs, isCss, isImage, isJson := f.isText, f.isHtml, f.isJs, f.isCss, f.isImage, f.isJson;
    }

    /** The render, from whatever the last effect left. */
    function View(visible: bool, content: Option<Content>): View
      reads this
    {
      ViewOf(Current(), visible, content)
    }
  }
}
