/** The parts of an HTTP Archive document the viewer reads (`log.entries[]`). */
module Har {
  import opened Wrappers

  /** `response.content`: `text` and `encoding` may be absent. */
  datatype Content = Content(mimeType: string, size: int, text: Option<string>, encoding: Option<string>)

  datatype HarRequest = HarRequest(httpMethod: string, url: string)

  datatype HarResponse = HarResponse(status: int, content: Content)

  /** One captured request/response pair; `time` is the elapsed milliseconds. */
  datatype Entry = Entry(request: HarRequest, response: HarResponse, time: real)

  /** A parsed document: its `log.entries`, in file order. */
  datatype Archive = Archive(entries: seq<Entry>)
}
