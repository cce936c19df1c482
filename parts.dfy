/** The parts of a request to the generation service, and how an uploaded file becomes one. */
module Parts {
  import opened Common
  import opened Text

  /**
   * A text part, or an inline-data part; `data` is `None` where the source
   * produces `undefined`.
   */
  datatype Part = TextPart(text: string) | InlineData(mimeType: string, data: Option<string>)

  /** `{inlineData: {mimeType: file.type, data: dataUrl.split(',')[1]}}`. */
  function FileToGenerativePart(mimeType: string, dataUrl: string): (p: Part)
    ensures p.InlineData? && p.mimeType == mimeType
  {
    InlineData(mimeType, FieldAt(dataUrl, ',', 1))
  }

  /**
   * For a data URL `data:[<mediatype>][;base64],<data>` (section 3 of RFC
   * 2397) whose data holds no comma, as base64 data never does, the part
   * carries exactly the data.
   */
  lemma DataUrlPayload(mimeType: string, header: string, payload: string)
    requires ',' !in header && ',' !in payload
    ensures FileToGenerativePart(mimeType, header + "," + payload).data == Some(payload)
  {
    assert Join([header, payload], ",") == header + "," + payload by {
      assert [header, payload][1..] == [payload];
    }
    SplitJoin([header, payload], ',');
  }

  /** A URL with no comma gives no data at all. */
  lemma NoCommaNoData(mimeType: string, url: string)
    requires ',' !in url
    ensures FileToGenerativePart(mimeType, url).data == None
  {
  }
}
