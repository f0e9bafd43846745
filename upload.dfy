/**
 How an uploaded resume is read: its declared MIME type selects one of
 three readers, or the upload is refused; the text read is then
 normalised before keyword extraction. The readers themselves (PDF, DOCX,
 UTF-8 decoding) are library calls and appear here as a parameter.
 */
module Upload {
  import opened Normalize
  import opened Tokens
  import NormalizeProperties

  /** Which reader an upload goes to */
  datatype ExtractionKind = Pdf | PlainText | Docx | Unsupported

  datatype Result<T, E> = Success(value: T) | Failure(error: E)

  const PdfMime: string := "application/pdf"
  const TextMime: string := "text/plain"
  const DocxMime: string := "application/vnd.openxmlformats-officedocument.wordprocessingml.document"

  /** The message shown before the page stops on an unsupported upload */
  const UnsupportedMessage: string := "Unsupported file type. Please upload a PDF, TXT, or DOCX file."

  /** The if/elif chain on `uploaded_file.type`: exactly three MIME strings
      are accepted, each by its own reader. */
  function KindOf(mime: string): (k: ExtractionKind)
    ensures k == Pdf <==> mime == PdfMime
    ensures k == PlainText <==> mime == TextMime
    ensures k == Docx <==> mime == DocxMime
    ensures k == Unsupported <==> mime != PdfMime && mime != TextMime && mime != DocxMime
  {
    if mime == PdfMime then Pdf
    else if mime == TextMime then PlainText
    else if mime == DocxMime then Docx
    else Unsupported
  }

  /** The one MIME string each reader is chosen for */
  function MimeOf(k: ExtractionKind): (m: string)
    requires k != Unsupported
    ensures KindOf(m) == k
  {
    match k
    case Pdf => PdfMime
    case PlainText => TextMime
    case Docx => DocxMime
  }

  /** An accepted MIME string is the one its reader is chosen for: the
      dispatch is a bijection between the three strings and the three readers. */
  lemma AcceptedMimeIsUnique(mime: string)
    requires KindOf(mime) != Unsupported
    ensures MimeOf(KindOf(mime)) == mime
  {
  }

  /** Reading and cleaning an upload: an unsupported type is refused with the
      error message and nothing is read or normalised; otherwise the text from
      the selected reader (`extract`) comes out as its words joined by single
      spaces. */
  function CleanedResume(mime: string, extract: ExtractionKind -> string): (r: Result<string, string>)
    ensures r.Failure? <==> KindOf(mime) == Unsupported
    ensures r.Failure? ==> r.error == UnsupportedMessage
    ensures r.Success? ==> r.value == Join(Words(extract(KindOf(mime))))
  {
    var k := KindOf(mime);
    if k == Unsupported then Failure(UnsupportedMessage)
    else
      var text := extract(k);
      NormalizeProperties.NormalizedIsJoinedWords(text);
      Success(PreprocessText(text))
  }
}
