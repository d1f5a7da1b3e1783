/**
 * The document parser: choosing a reader from the upload's file name and
 * assembling the text of a Word document from its paragraphs.
 *
 * The PDF text extractor, the Word document loader and the plain-text file
 * reader are library code; they appear here as the three functions of a
 * `Readers` value, each of which returns text (or paragraphs) or the message
 * of the exception it raised.
 */
module DocParser {
  import opened Outcomes
  import opened Text

  newtype Byte = x: int | 0 <= x < 256

  /** The raw bytes of an uploaded file. */
  type Bytes = seq<Byte>

  /** An upload: the declared file name and the file's contents. */
  datatype Upload = Upload(filename: string, content: Bytes)

  /** The external readers the parser delegates to. */
  datatype Readers = Readers(
    pdfText: Bytes -> Result<string, string>,
    docxParagraphs: Bytes -> Result<seq<string>, string>,
    plainText: Bytes -> Result<string, string>)

  /** The three extraction paths. */
  datatype Format = Pdf | Docx | Txt

  /** The file types each extraction path accepts, compared exactly and case-sensitively. */
  function TypeNames(f: Format): set<string>
  {
    match f
    case Pdf => {"pdf"}
    case Docx => {"doc", "docx"}
    case Txt => {"txt"}
  }

  /** The message of the error raised for a file type no path accepts. */
  function UnsupportedMessage(fileType: string): string
  {
    "Unsupported file type: " + fileType
  }

  /** `filename.split('.')[-1]`. */
  function FileType(filename: string): string
  {
    var parts := Split(filename, '.');
    parts[|parts| - 1]
  }

  /**
   * The file type is exactly the text after the last dot: the one dot-free
   * suffix of the name that is the whole name or follows a dot.
   */
  lemma FileTypeIsTextAfterLastDot(filename: string, t: string)
    ensures FileType(filename) == t <==>
      '.' !in t && IsSuffix(t, filename) && (|t| == |filename| || filename[|filename| - |t| - 1] == '.')
  {
    LastPiece(filename, '.');
    var u := FileType(filename);
    if '.' !in t && IsSuffix(t, filename) && (|t| == |filename| || filename[|filename| - |t| - 1] == '.') {
      SuffixAfterLastUnique(filename, '.', t, u);
    }
  }

  /** A name without a dot is its own file type. */
  lemma FileTypeWithoutDot(filename: string)
    requires '.' !in filename
    ensures FileType(filename) == filename
  {
    FileTypeIsTextAfterLastDot(filename, filename);
  }

  /** Whatever precedes the last dot, the file type is the extension after it. */
  lemma FileTypeOfExtension(stem: string, ext: string)
    requires '.' !in ext
    ensures FileType(stem + "." + ext) == ext
  {
    var name := stem + "." + ext;
    assert name[|name| - |ext|..] == ext;
    assert name[|name| - |ext| - 1] == '.';
    FileTypeIsTextAfterLastDot(name, ext);
  }

  /** The if/elif chain of the parser: the path for the file type, or the unsupported-type error. */
  function Route(filename: string): (r: Result<Format, string>)
    ensures r.Success? ==> FileType(filename) in TypeNames(r.value)
    ensures r.Success? ==> forall g: Format :: FileType(filename) in TypeNames(g) ==> g == r.value
    ensures r.Failure? ==> forall g: Format :: FileType(filename) !in TypeNames(g)
    ensures r.Failure? ==> r.error == UnsupportedMessage(FileType(filename))
  {
    var fileType := FileType(filename);
    if fileType == "pdf" then Success(Pdf)
    else if fileType in ["doc", "docx"] then Success(Docx)
    else if fileType == "txt" then Success(Txt)
    else Failure(UnsupportedMessage(fileType))
  }

  /** Upper-case extensions are not recognised: `REPORT.PDF` is rejected as type `PDF`. */
  lemma UpperCaseRejected(stem: string)
    ensures Route(stem + ".PDF") == Failure("Unsupported file type: PDF")
    ensures Route(stem + ".TXT") == Failure("Unsupported file type: TXT")
    ensures Route(stem + ".DOCX") == Failure("Unsupported file type: DOCX")
  {
    FileTypeOfExtension(stem, "PDF");
    assert UnsupportedMessage("PDF") == "Unsupported file type: PDF";
    assert stem + ".PDF" == stem + "." + "PDF";
    FileTypeOfExtension(stem, "TXT");
    assert UnsupportedMessage("TXT") == "Unsupported file type: TXT";
    assert stem + ".TXT" == stem + "." + "TXT";
    FileTypeOfExtension(stem, "DOCX");
    assert UnsupportedMessage("DOCX") == "Unsupported file type: DOCX";
    assert stem + ".DOCX" == stem + "." + "DOCX";
  }

  /** A trailing dot gives the empty file type, which is rejected. */
  lemma TrailingDotRejected(stem: string)
    ensures Route(stem + ".") == Failure("Unsupported file type: ")
  {
    FileTypeOfExtension(stem, "");
    assert UnsupportedMessage("") == "Unsupported file type: ";
    assert stem + "." + "" == stem + ".";
  }

  /** The recognised lower-case extensions select their paths. */
  lemma ExtensionsRouted(stem: string)
    ensures Route(stem + ".pdf") == Success(Pdf)
    ensures Route(stem + ".doc") == Success(Docx)
    ensures Route(stem + ".docx") == Success(Docx)
    ensures Route(stem + ".txt") == Success(Txt)
  {
    FileTypeOfExtension(stem, "pdf");
    assert stem + ".pdf" == stem + "." + "pdf";
    FileTypeOfExtension(stem, "doc");
    assert stem + ".doc" == stem + "." + "doc";
    FileTypeOfExtension(stem, "docx");
    assert stem + ".docx" == stem + "." + "docx";
    FileTypeOfExtension(stem, "txt");
    assert stem + ".txt" == stem + "." + "txt";
  }

  /**
   * The text of a Word document: its paragraph texts in document order,
   * separated by single newlines.
   */
  function DocxText(paragraphs: seq<string>): (text: string)
    ensures |paragraphs| == 0 ==> text == ""
    ensures |paragraphs| == 1 ==> text == paragraphs[0]
    ensures |text| == TotalLength(paragraphs) + (if |paragraphs| == 0 then 0 else |paragraphs| - 1)
    ensures |paragraphs| >= 1 && (forall i :: 0 <= i < |paragraphs| ==> '\n' !in paragraphs[i]) ==>
      Split(text, '\n') == paragraphs
  {
    JoinLength(paragraphs, '\n');
    if |paragraphs| >= 1 && (forall i :: 0 <= i < |paragraphs| ==> '\n' !in paragraphs[i]) then
      SplitJoin(paragraphs, '\n');
      Join(paragraphs, '\n')
    else
      Join(paragraphs, '\n')
  }

  /**
   * The Word path: load the document, then join its paragraphs; a loading
   * error propagates unchanged.
   */
  function ExtractDocx(content: Bytes, readers: Readers): (r: Result<string, string>)
    ensures r.Success? <==> readers.docxParagraphs(content).Success?
    ensures r.Failure? ==> r.error == readers.docxParagraphs(content).error
    ensures r.Success? ==>
      var paragraphs := readers.docxParagraphs(content).value;
      |r.value| == TotalLength(paragraphs) + (if |paragraphs| == 0 then 0 else |paragraphs| - 1) &&
      (|paragraphs| == 1 ==> r.value == paragraphs[0]) &&
      (|paragraphs| >= 1 && (forall i :: 0 <= i < |paragraphs| ==> '\n' !in paragraphs[i]) ==>
        Split(r.value, '\n') == paragraphs)
  {
    match readers.docxParagraphs(content)
    case Success(paragraphs) => Success(DocxText(paragraphs))
    case Failure(e) => Failure(e)
  }

  /** Run the reader of one path on the file's contents. */
  function Extract(format: Format, content: Bytes, readers: Readers): Result<string, string>
  {
    match format
    case Pdf => readers.pdfText(content)
    case Docx => ExtractDocx(content, readers)
    case Txt => readers.plainText(content)
  }

  /**
   * Parse an upload: the path is chosen from the file name alone; an
   * unsupported type fails before any reader sees the contents.
   */
  function ParseDocument(file: Upload, readers: Readers): (r: Result<string, string>)
    ensures FileType(file.filename) == "pdf" ==> r == readers.pdfText(file.content)
    ensures FileType(file.filename) in {"doc", "docx"} ==> r == ExtractDocx(file.content, readers)
    ensures FileType(file.filename) == "txt" ==> r == readers.plainText(file.content)
    ensures FileType(file.filename) !in {"pdf", "doc", "docx", "txt"} ==>
      r == Failure(UnsupportedMessage(FileType(file.filename)))
  {
    match Route(file.filename)
    case Success(format) => Extract(format, file.content, readers)
    case Failure(e) => Failure(e)
  }

  /** The path is a function of the file name: two uploads with the same name use the same reader or fail alike. */
  lemma DispatchIgnoresContents(a: Upload, b: Upload, readers: Readers)
    requires a.filename == b.filename
    ensures Route(a.filename).Failure? ==>
      ParseDocument(a, readers) == ParseDocument(b, readers) == Failure(UnsupportedMessage(FileType(a.filename)))
    ensures Route(a.filename).Success? ==>
      ParseDocument(a, readers) == Extract(Route(a.filename).value, a.content, readers) &&
      ParseDocument(b, readers) == Extract(Route(a.filename).value, b.content, readers)
  {
  }
}
