/**
 * The uploaded-document helpers of main.py: `get_file_preview` (lines 56-68)
 * and `process_file` (lines 70-84).  Both dispatch on the declared media type
 * only.  The parsing libraries (PyPDF2, python-docx, pandas) are parameters
 * gathered in `Parsers`; each either yields its text or raises, and a raise is
 * a `Failure` carrying the exception's message.
 */
module Documents {
  import opened Wrappers
  import opened PyStr

  const PdfType: string := "application/pdf"
  const DocxType: string := "application/vnd.openxmlformats-officedocument.wordprocessingml.document"
  const PlainTextType: string := "text/plain"

  const UnsupportedText: string := "Unsupported file type!"
  const PdfPreview: string := "PDF Document Preview"
  const NoPreview: string := "Preview not available for this file type"
  const PreviewErrorPrefix: string := "Error generating preview: "
  const Ellipsis: string := "..."
  /** How many characters of a plain-text file the preview shows. */
  const PreviewLength: nat := 1000

  /** An uploaded file: its declared media type and its content, already decoded to text. */
  datatype Upload = Upload(mediaType: string, content: string)

  /**
   * The foreign parsers.  `pdfPages` gives the extracted text of each page,
   * `docxParagraphs` the text of each paragraph; `tableText` renders the whole
   * table read by `pd.read_csv` (first argument true) or `pd.read_excel`
   * (false) with `to_string`, and `tableHeadHtml` its first rows with `to_html`.
   */
  datatype Parsers = Parsers(
    pdfPages: string -> Result<seq<string>>,
    docxParagraphs: string -> Result<seq<string>>,
    tableText: (bool, string) -> Result<string>,
    tableHeadHtml: (bool, string) -> Result<string>)

  /** A media type naming a spreadsheet or a comma-separated file: one that mentions "excel" or "csv". */
  predicate IsTabular(mediaType: string) {
    Contains(mediaType, "excel") || Contains(mediaType, "csv")
  }

  /** The branch of `process_file` a media type selects; `csv` says whether `pd.read_csv` (rather than `pd.read_excel`) reads the table. */
  datatype Kind = Pdf | WordDocument | Table(csv: bool) | PlainText | Unsupported

  /** "text/plain" mentions neither "excel" nor "csv": it has no 'c'. */
  lemma PlainTextIsNotTabular()
    ensures !IsTabular(PlainTextType)
  {
    assert "excel"[2] == 'c' && "csv"[0] == 'c';
    NotContainsByChar(PlainTextType, "excel", 2);
    NotContainsByChar(PlainTextType, "csv", 0);
  }

  /** The dispatch of `process_file`, tried in order: PDF, Word document, table, plain text, anything else. */
  function Classify(mediaType: string): Kind
  {
    if mediaType == PdfType then Pdf
    else if mediaType == DocxType then WordDocument
    else if IsTabular(mediaType) then Table(Contains(mediaType, "csv"))
    else if mediaType == PlainTextType then PlainText
    else Unsupported
  }

  /** Each kind is selected by exactly the media types below, whatever order the tests run in. */
  lemma ClassifySpec(mediaType: string)
    ensures var k := Classify(mediaType);
            (k == Pdf <==> mediaType == PdfType)
            && (k == WordDocument <==> mediaType == DocxType)
            && (k.Table? <==> mediaType != PdfType && mediaType != DocxType && IsTabular(mediaType))
            && (k.Table? ==> (k.csv <==> Contains(mediaType, "csv")))
            && (k == PlainText <==> mediaType == PlainTextType)
            && (k == Unsupported <==>
                  mediaType != PdfType && mediaType != DocxType && mediaType != PlainTextType && !IsTabular(mediaType))
  {
    PlainTextIsNotTabular();
  }

  /**
   * `process_file`: the text of an upload.  Pages and paragraphs are joined
   * with newlines; the function has no `try`, so a parser's exception escapes
   * it.
   */
  function ProcessFile(file: Upload, parsers: Parsers): Result<string>
  {
    match Classify(file.mediaType)
    case Pdf =>
      (match parsers.pdfPages(file.content)
       case Success(pages) => Success(Join(pages, "\n"))
       case Failure(e) => Failure(e))
    case WordDocument =>
      (match parsers.docxParagraphs(file.content)
       case Success(paragraphs) => Success(Join(paragraphs, "\n"))
       case Failure(e) => Failure(e))
    case Table(csv) => parsers.tableText(csv, file.content)
    case PlainText => Success(file.content)
    case Unsupported => Success(UnsupportedText)
  }

  /** Plain text is passed through, an unknown type gives the fixed sentinel, and the only failure is a parser's exception. */
  lemma ProcessFileSpec(file: Upload, parsers: Parsers)
    ensures file.mediaType == PlainTextType ==> ProcessFile(file, parsers) == Success(file.content)
    ensures (file.mediaType != PdfType && file.mediaType != DocxType && file.mediaType != PlainTextType
             && !IsTabular(file.mediaType)) ==> ProcessFile(file, parsers) == Success(UnsupportedText)
    ensures ProcessFile(file, parsers).Failure? <==>
              match Classify(file.mediaType)
              case Pdf => parsers.pdfPages(file.content).Failure?
              case WordDocument => parsers.docxParagraphs(file.content).Failure?
              case Table(csv) => parsers.tableText(csv, file.content).Failure?
              case _ => false
  {
    ClassifySpec(file.mediaType);
  }

  /** Python's `s[:n]`. */
  function Head(s: string, n: nat): (r: string)
    ensures |r| == if |s| < n then |s| else n
    ensures StartsWith(s, r)
  {
    if |s| < n then s else s[..n]
  }

  /**
   * `get_file_preview`.  Its dispatch order differs from `process_file`'s:
   * PDF, plain text, table, anything else (a Word document included); its
   * `try` turns a parser's exception into a diagnostic string.
   */
  function Preview(file: Upload, parsers: Parsers): (r: string)
    ensures file.mediaType == PdfType ==> r == PdfPreview
    ensures file.mediaType == PlainTextType ==>
              |r| == (if |file.content| < PreviewLength then |file.content| else PreviewLength) + |Ellipsis|
              && EndsWith(r, Ellipsis) && StartsWith(file.content, r[..|r| - |Ellipsis|])
    ensures file.mediaType != PdfType && file.mediaType != PlainTextType && !IsTabular(file.mediaType) ==>
              r == NoPreview
    ensures file.mediaType != PdfType && file.mediaType != PlainTextType && IsTabular(file.mediaType) ==>
              var html := parsers.tableHeadHtml(Contains(file.mediaType, "csv"), file.content);
              (html.Success? ==> r == html.value)
              && (html.Failure? ==> StartsWith(r, PreviewErrorPrefix) && EndsWith(r, html.error)
                                    && |r| == |PreviewErrorPrefix| + |html.error|)
  {
    if file.mediaType == PdfType then
      PdfPreview
    else if file.mediaType == PlainTextType then
      var r := Head(file.content, PreviewLength) + Ellipsis;
      assert r[..|r| - |Ellipsis|] == Head(file.content, PreviewLength);
      r
    else if IsTabular(file.mediaType) then
      match parsers.tableHeadHtml(Contains(file.mediaType, "csv"), file.content)
      case Success(html) => html
      case Failure(e) => PreviewErrorPrefix + e
    else
      NoPreview
  }

  /** The preview of a plain-text file never exceeds 1003 characters, and without its "..." it begins the text `process_file` returns. */
  lemma PlainPreviewBeginsContext(file: Upload, parsers: Parsers)
    requires file.mediaType == PlainTextType
    ensures |Preview(file, parsers)| <= PreviewLength + |Ellipsis|
    ensures ProcessFile(file, parsers).Success?
    ensures var p := Preview(file, parsers);
            StartsWith(ProcessFile(file, parsers).value, p[..|p| - |Ellipsis|])
  {
    ProcessFileSpec(file, parsers);
  }
}
