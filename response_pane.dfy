/**
 * The Response tab (src/components/Detail/Response.tsx): one flag, set from a
 * case-sensitive `/^text.*\/` test on the MIME type, chooses between the raw body and
 * a fixed message.
 */
module ResponsePane {
  import opened Wrappers
  import opened Har
  import opened Patterns
  import RequestTable

  /** `/^text.*\/`: the four letters `text`, in lower case, and anything after. */
  predicate IsTextMime(mime: string) {
    StartsWith(mime, "text")
  }

  const NoDataMessage := "This request has no response data available."

  datatype View = Body(text: Option<string>) | NoData(message: string)

  /** The render: the body verbatim while the flag is set and there is a response. */
  function ViewOf(isText: bool, response: Option<HarResponse>): (v: View)
    ensures v.Body? <==> isText && response != None
    ensures v.Body? ==> v.text == response.value.content.text
    ensures v.NoData? ==> v.message == NoDataMessage
  {
    if isText && response != None then Body(response.value.content.text) else NoData(NoDataMessage)
  }

  /** No slash is needed and case matters: `text` and `textual` qualify, `Text/plain` does not. */
  lemma TextTestExamples()
    ensures IsTextMime("text") && IsTextMime("textual")
    ensures !IsTextMime("Text/plain")
  {
    FirstCharExcludes("Text/plain", "Text/plain", "text");
  }

  /** Every MIME type the table files under JS, CSS or Doc shows its body here. */
  lemma TableTextCategoriesAreText(mime: string)
    requires RequestTable.MimeToType(mime) in {RequestTable.JS, RequestTable.CSS, RequestTable.Doc}
    ensures IsTextMime(mime)
  {
    if RequestTable.MimeToType(mime) == RequestTable.Doc {
      assert mime[..5][..4] == mime[..4];
    }
  }

  /** The component's state. */
  class Response {
    var isText: bool

    constructor ()
      ensures !isText
    {
      isText := false;
    }

    /** The effect on a new `response` prop: `null` keeps the flag. */
    method OnResponse(response: Option<HarResponse>)
      modifies this
      ensures response == None ==> isText == old(isText)
      ensures response != None ==> isText == IsTextMime(response.value.content.mimeType)
    {
      if response == None {
        return;
      }
      isText := IsTextMime(response.value.content.mimeType);
    }

    function View(response: Option<HarResponse>): View
      reads this
    {
      ViewOf(isText, response)
    }
  }
}
