/** The single-document stages of pdf2img.py: pdf2img (rasterise a PDF and save one image
    per page) and img2text (recognise every page and write the transcript). The
    rasteriser, the OCR engine, the PDF reader, the re-OCR tool and the text-layer
    reader are collaborators, given as a Backend. */
module Conversion {
  import opened Paths
  import opened Storage
  import opened TagDetection
  import opened Transcripts

  /** The resolution pdf2img asks the rasteriser for. */
  const Dpi: nat := 300

  /** The recognition languages of both OCR tools: traditional Chinese, simplified
      Chinese, English. */
  const OcrLanguages := "chi_tra+chi_sim+eng"

  /** A page of an opened PDF, as the text-layer reader hands it out. */
  datatype PdfPage = PdfPage(number: nat, data: seq<Byte>)

  /** The external tools, each a function that may fail with an exception:
      rasterize is pdf2image's convert_from_bytes(bytes, dpi);
      ocr is pytesseract.image_to_string with the fixed languages and the configuration
        "--psm 11 -c preserve_interword_spaces=1";
      readCatalog is pypdf's PdfReader(...).trailer["/Root"];
      reOcr is ocrmypdf.ocr, producing the content of the output PDF;
      openPages is pdfplumber.open(...).pages, and extractText is page.extract_text(). */
  datatype Backend = Backend(
    rasterize: (Content, nat) -> Result<seq<Image>>,
    ocr: Image -> Result<string>,
    readCatalog: Content -> Result<Catalog>,
    reOcr: (Content, string) -> Result<Content>,
    openPages: Content -> Result<seq<PdfPage>>,
    extractText: PdfPage -> Result<string>)

  /** What pdf2img returns: the page images and the base name. */
  datatype Converted = Converted(images: seq<Image>, baseName: string)

  /** The file system after a stage, and what the stage returned or raised. */
  datatype Step<T> = Step(fs: FileSystem, result: Result<T>)

  /** The paths of pages 1..n's images, in the order pdf2img saves them. */
  function ImagePaths(dir: Path, base: string, n: nat): (paths: seq<Path>)
  {
    seq(n, i requires 0 <= i < n => ImagePath(dir, base, i + 1))
  }

  /** The file system after saving images[0], images[1], ... as pages 1, 2, ... */
  function WriteImages(fs: FileSystem, dir: Path, base: string, images: seq<Image>, format: string): (written: FileSystem)
    decreases |images|
  {
    if images == [] then fs
    else
      var n := |images|;
      WriteImages(fs, dir, base, images[..n - 1], format).Write(ImagePath(dir, base, n), Picture(format, images[n - 1]))
  }

  /** Saving K images creates no directory and journals <dir>/<base>_1.jpg ...
      <dir>/<base>_K.jpg, in increasing page order. */
  lemma {:induction false} WriteImagesJournal(fs: FileSystem, dir: Path, base: string, images: seq<Image>, format: string)
    ensures var w := WriteImages(fs, dir, base, images, format);
      w.dirs == fs.dirs && w.journal == fs.journal + ImagePaths(dir, base, |images|)
    decreases |images|
  {
    if images != [] {
      var n := |images|;
      WriteImagesJournal(fs, dir, base, images[..n - 1], format);
      assert ImagePaths(dir, base, n) == ImagePaths(dir, base, n - 1) + [ImagePath(dir, base, n)];
    }
  }

  /** Saving K images writes K distinct files, <dir>/<base>_1.jpg ... <dir>/<base>_K.jpg,
      in increasing page order, each holding its page, and touches nothing else. */
  lemma {:induction false} WriteImagesEffect(fs: FileSystem, dir: Path, base: string, images: seq<Image>, format: string)
    requires '/' !in base
    ensures var w := WriteImages(fs, dir, base, images, format);
      && w.dirs == fs.dirs
      && w.journal == fs.journal + ImagePaths(dir, base, |images|)
      && (forall i :: 1 <= i <= |images| ==>
            ImagePath(dir, base, i) in w.files && w.files[ImagePath(dir, base, i)] == Picture(format, images[i - 1]))
      && (forall p :: (forall i :: 1 <= i <= |images| ==> p != ImagePath(dir, base, i)) ==> Unchanged(fs, w, p))
    decreases |images|
  {
    WriteImagesJournal(fs, dir, base, images, format);
    if images != [] {
      var n := |images|;
      var init := images[..n - 1];
      var before := WriteImages(fs, dir, base, init, format);
      var w := before.Write(ImagePath(dir, base, n), Picture(format, images[n - 1]));
      assert w == WriteImages(fs, dir, base, images, format);
      WriteImagesEffect(fs, dir, base, init, format);
      forall i | 1 <= i <= n
        ensures ImagePath(dir, base, i) in w.files && w.files[ImagePath(dir, base, i)] == Picture(format, images[i - 1])
      {
        if i < n {
          ImagePathsDistinct(dir, base, i, n);
          assert init[i - 1] == images[i - 1];
        }
      }
      forall p | (forall i :: 1 <= i <= n ==> p != ImagePath(dir, base, i))
        ensures Unchanged(fs, w, p)
      {
        assert p != ImagePath(dir, base, n);
        assert Unchanged(fs, before, p);
      }
    }
  }

  /** Different pages of one document get different image paths. */
  lemma ImagePathsDistinct(dir: Path, base: string, i: nat, j: nat)
    requires '/' !in base && i != j
    ensures ImagePath(dir, base, i) != ImagePath(dir, base, j)
  {
    if ImagePath(dir, base, i) == ImagePath(dir, base, j) {
      ArtifactNamesFlat(base, i);
      ArtifactNamesFlat(base, j);
      JoinSameFile(dir, ImageName(base, i), dir, ImageName(base, j));
      ImageNameInjective(base, i, base, j);
    }
  }

  /** The message pdf2img raises when the rasteriser returns no page. */
  const NoPagesConverted := "No pages converted from PDF"

  /** What pdf2img's generic handler puts before the caught exception's message. */
  const ConversionFailedPrefix := "PDF conversion failed: "

  /** The handlers of pdf2img: a FileNotFoundError is raised again as it is, an
      IndexError becomes a ValueError, and anything else, the ValueError for zero pages
      included, becomes an Exception that carries the original message. */
  function ConversionError(e: Error): (raised: Error)
  {
    if e.kind == FileNotFoundError then e
    else if e.kind == IndexError then Error(ValueError, "No pages found in the PDF")
    else Error(Exception, ConversionFailedPrefix + e.message)
  }

  /** Where the images go: the given directory, or "<base>_img". */
  function ImageDir(outputDir: Option<Path>, base: string): (dir: Path)
  {
    if outputDir.None? then DefaultImageDir(base) else outputDir.value
  }

  /** The body of pdf2img's try block. */
  function ConvertAndSave(fs: FileSystem, be: Backend, pdf: Path, outputDir: Option<Path>, format: string): (body: Step<Converted>)
  {
    if !fs.Exists(pdf) then Step(fs, Err(Error(FileNotFoundError, "PDF file not found: " + pdf)))
    else
      match fs.Read(pdf)
      case Err(e) => Step(fs, Err(e))
      case Ok(content) =>
        match be.rasterize(content, Dpi)
        case Err(e) => Step(fs, Err(e))
        case Ok(images) =>
          if images == [] then Step(fs, Err(Error(ValueError, NoPagesConverted)))
          else
            var base := BaseName(pdf);
            var dir := ImageDir(outputDir, base);
            match fs.MakeDirs(dir)
            case Err(e) => Step(fs, Err(e))
            case Ok(made) => Step(WriteImages(made, dir, base, images, format), Ok(Converted(images, base)))
  }

  /** pdf2img(pdf_path, output_dir, format): the try block with its handlers. */
  function PdfToImages(fs: FileSystem, be: Backend, pdf: Path, outputDir: Option<Path>, format: string): (converted: Step<Converted>)
  {
    var body := ConvertAndSave(fs, be, pdf, outputDir, format);
    match body.result
    case Ok(_) => body
    case Err(e) => Step(body.fs, Err(ConversionError(e)))
  }

  /** The try block of pdf2img: every failure is returned as raised. */
  method ConvertPages(fs: FileSystem, be: Backend, pdfPath: Path, outputDir: Option<Path>, format: string)
    returns (fs': FileSystem, r: Result<Converted>)
    ensures Step(fs', r) == ConvertAndSave(fs, be, pdfPath, outputDir, format)
  {
    fs' := fs;
    if !fs.Exists(pdfPath) {
      r := Err(Error(FileNotFoundError, "PDF file not found: " + pdfPath));
      return;
    }
    var content := fs.Read(pdfPath);
    if content.Err? {
      r := Err(content.error);
      return;
    }
    var converted := be.rasterize(content.value, Dpi);
    if converted.Err? {
      r := Err(converted.error);
      return;
    }
    var images := converted.value;
    if images == [] {
      r := Err(Error(ValueError, NoPagesConverted));
      return;
    }
    var baseName := BaseName(pdfPath);
    var dir := if outputDir.None? then DefaultImageDir(baseName) else outputDir.value;
    var made := fs.MakeDirs(dir);
    if made.Err? {
      r := Err(made.error);
      return;
    }
    fs' := SaveImages(made.value, dir, baseName, images, format);
    r := Ok(Converted(images, baseName));
  }

  /** The save loop of pdf2img: page i + 1 goes to <dir>/<base>_<i + 1>.jpg. */
  method SaveImages(fs: FileSystem, dir: Path, baseName: string, images: seq<Image>, format: string)
    returns (fs': FileSystem)
    ensures fs' == WriteImages(fs, dir, baseName, images, format)
  {
    fs' := fs;
    var i := 0;
    while i < |images|
      invariant 0 <= i <= |images|
      invariant fs' == WriteImages(fs, dir, baseName, images[..i], format)
    {
      assert images[..i + 1][..i] == images[..i];
      fs' := fs'.Write(ImagePath(dir, baseName, i + 1), Picture(format, images[i]));
      i := i + 1;
    }
    assert images[..i] == images;
  }

  /** pdf2img: the try block, then its handlers on whatever it raised. */
  method Pdf2Img(fs: FileSystem, be: Backend, pdfPath: Path, outputDir: Option<Path>, format: string)
    returns (fs': FileSystem, r: Result<Converted>)
    ensures Step(fs', r) == PdfToImages(fs, be, pdfPath, outputDir, format)
  {
    fs', r := ConvertPages(fs, be, pdfPath, outputDir, format);
    if r.Err? {
      r := Err(ConversionError(r.error));
    }
  }

  /** A missing PDF raises FileNotFoundError, unwrapped, naming the path, and nothing is
      written. */
  lemma MissingPdfNotWrapped(fs: FileSystem, be: Backend, pdf: Path, outputDir: Option<Path>, format: string)
    requires !fs.Exists(pdf)
    ensures var s := PdfToImages(fs, be, pdf, outputDir, format);
      && s.fs == fs
      && s.result.Err? && s.result.error.kind == FileNotFoundError
      && s.result.error.message == "PDF file not found: " + pdf
  {
  }

  /** A PDF that yields no pages is reported through the generic handler: an Exception,
      not a ValueError, and nothing is written. */
  lemma NoPagesSurfacesAsConversionFailure(fs: FileSystem, be: Backend, pdf: Path, outputDir: Option<Path>, format: string)
    requires pdf in fs.files && be.rasterize(fs.files[pdf], Dpi) == Ok([])
    ensures var s := PdfToImages(fs, be, pdf, outputDir, format);
      && s.fs == fs
      && s.result == Err(Error(Exception, ConversionFailedPrefix + NoPagesConverted))
  {
  }

  /** pdf2img either fails having written nothing, or succeeds exactly when the file
      exists, rasterises into at least one page and the image directory can be created. */
  lemma PdfToImagesFailsCleanly(fs: FileSystem, be: Backend, pdf: Path, outputDir: Option<Path>, format: string)
    ensures var s := PdfToImages(fs, be, pdf, outputDir, format);
      && (s.result.Err? ==> s.fs == fs)
      && (s.result.Ok? <==>
            && pdf in fs.files && be.rasterize(fs.files[pdf], Dpi).Ok? && be.rasterize(fs.files[pdf], Dpi).value != []
            && ImageDir(outputDir, BaseName(pdf)) != "")
  {
  }

  /** The default image directory "<base>_img" can always be created; an empty output
      directory cannot: os.makedirs raises FileNotFoundError once pages were converted,
      pdf2img raises it again unwrapped, and nothing is written. */
  lemma ImageDirCreation(fs: FileSystem, be: Backend, pdf: Path, format: string)
    ensures ImageDir(None, BaseName(pdf)) != ""
    ensures pdf in fs.files && be.rasterize(fs.files[pdf], Dpi).Ok? && be.rasterize(fs.files[pdf], Dpi).value != [] ==>
              PdfToImages(fs, be, pdf, Some(""), format) == Step(fs, Err(Error(FileNotFoundError, NoSuchFile(""))))
  {
    assert |DefaultImageDir(BaseName(pdf))| >= 4;
  }

  /** When the file rasterises into K >= 1 pages, pdf2img returns those images unchanged
      with the base name, creates the image directory (by default "<base>_img"), and
      writes exactly the K page images <dir>/<base>_1.jpg ... <dir>/<base>_K.jpg in page
      order, touching no other file. */
  lemma PdfToImagesWritesEveryPage(fs: FileSystem, be: Backend, pdf: Path, outputDir: Option<Path>, format: string)
    requires pdf in fs.files && be.rasterize(fs.files[pdf], Dpi).Ok?
    requires be.rasterize(fs.files[pdf], Dpi).value != []
    requires ImageDir(outputDir, BaseName(pdf)) != ""
    ensures var s := PdfToImages(fs, be, pdf, outputDir, format);
      var images, base := be.rasterize(fs.files[pdf], Dpi).value, BaseName(pdf);
      var dir := ImageDir(outputDir, base);
      && s.result == Ok(Converted(images, base))
      && s.fs.dirs == fs.dirs + {dir}
      && s.fs.journal == fs.journal + ImagePaths(dir, base, |images|)
      && (forall i :: 1 <= i <= |images| ==>
            ImagePath(dir, base, i) in s.fs.files
            && s.fs.files[ImagePath(dir, base, i)] == Picture(format, images[i - 1]))
      && (forall p :: (forall i :: 1 <= i <= |images| ==> p != ImagePath(dir, base, i)) ==> Unchanged(fs, s.fs, p))
  {
    var images, base := be.rasterize(fs.files[pdf], Dpi).value, BaseName(pdf);
    var dir := ImageDir(outputDir, base);
    assert PdfToImages(fs, be, pdf, outputDir, format).fs == WriteImages(fs.MakeDir(dir), dir, base, images, format);
    BaseNameIsStem(pdf);
    WriteImagesEffect(fs.MakeDir(dir), dir, base, images, format);
    var s := PdfToImages(fs, be, pdf, outputDir, format);
    assert s.result == Ok(Converted(images, base));
    assert s.fs.dirs == fs.dirs + {dir};
    assert s.fs.journal == fs.journal + ImagePaths(dir, base, |images|);
    forall p | (forall i :: 1 <= i <= |images| ==> p != ImagePath(dir, base, i))
      ensures Unchanged(fs, s.fs, p)
    {
      assert Unchanged(fs.MakeDir(dir), s.fs, p);
    }
  }

  /** The handlers of img2text: a ValueError is raised again as it is, anything else
      becomes an Exception that carries the original message. */
  function TextConversionError(e: Error): (raised: Error)
  {
    if e.kind == ValueError then e else Error(Exception, "Text conversion failed: " + e.message)
  }

  /** img2text(images, base_name, output_dir). */
  function ImagesToText(fs: FileSystem, be: Backend, images: seq<Image>, baseName: string, outputDir: Path): (recognised: Step<string>)
  {
    if images == [] then Step(fs, Err(Error(ValueError, "No images provided for text conversion")))
    else
      match fs.MakeDirs(outputDir)
      case Err(e) => Step(fs, Err(TextConversionError(e)))
      case Ok(made) =>
        match MapAll(be.ocr, images)
        case Err(e) => Step(made, Err(TextConversionError(e)))
        case Ok(texts) =>
          var transcript := Transcript(texts);
          Step(made.Write(TextPath(outputDir, baseName), Utf8Text(transcript)), Ok(transcript))
  }

  method Img2Text(fs: FileSystem, be: Backend, images: seq<Image>, baseName: string, outputDir: Path)
    returns (fs': FileSystem, r: Result<string>)
    ensures Step(fs', r) == ImagesToText(fs, be, images, baseName, outputDir)
  {
    fs' := fs;
    if images == [] {
      r := Err(TextConversionError(Error(ValueError, "No images provided for text conversion")));
      return;
    }
    var made := fs.MakeDirs(outputDir);
    if made.Err? {
      r := Err(TextConversionError(made.error));
      return;
    }
    fs' := made.value;
    var allText: seq<string> := [];
    ghost var texts: seq<string> := [];
    var i := 0;
    while i < |images|
      invariant 0 <= i <= |images|
      invariant MapAll(be.ocr, images[..i]) == Ok(texts)
      invariant allText == PageBlocks(texts)
    {
      assert images[..i + 1][..i] == images[..i];
      var text := be.ocr(images[i]);
      if text.Err? {
        MapAllFailurePersists(be.ocr, images, i + 1);
        r := Err(TextConversionError(text.error));
        return;
      }
      texts := texts + [text.value];
      allText := allText + [PageBlock(i + 1, text.value)];
      i := i + 1;
    }
    assert images[..i] == images;
    var combined := JoinWith("\n", allText);
    fs' := fs'.Write(TextPath(outputDir, baseName), Utf8Text(combined));
    r := Ok(combined);
  }

  /** An empty image list is rejected before anything happens: no directory is created
      and nothing is recognised or written. */
  lemma EmptyImagesRejected(fs: FileSystem, be: Backend, baseName: string, outputDir: Path)
    ensures ImagesToText(fs, be, [], baseName, outputDir)
            == Step(fs, Err(Error(ValueError, "No images provided for text conversion")))
  {
  }

  /** An empty output directory makes os.makedirs raise FileNotFoundError, which img2text
      reports as a text-conversion failure before recognising any page; nothing is
      written. */
  lemma EmptyTextDirRejected(fs: FileSystem, be: Backend, images: seq<Image>, baseName: string)
    requires images != []
    ensures ImagesToText(fs, be, images, baseName, "")
            == Step(fs, Err(Error(Exception, "Text conversion failed: " + NoSuchFile(""))))
  {
  }

  /** img2text succeeds exactly when there are images, the output directory can be created
      and every page is recognised; then
      it has created the output directory and written <output_dir>/<base>.txt once, last,
      holding the returned string, which is the transcript of the pages' texts in order.
      When it fails it has written nothing. */
  lemma TranscriptWrittenOnlyAfterAllPages(fs: FileSystem, be: Backend, images: seq<Image>, baseName: string, outputDir: Path)
    ensures var s := ImagesToText(fs, be, images, baseName, outputDir);
      && (s.result.Ok? <==> images != [] && outputDir != "" && forall i :: 0 <= i < |images| ==> be.ocr(images[i]).Ok?)
      && (s.result.Err? ==> s.fs.files == fs.files && s.fs.journal == fs.journal)
      && (s.result.Ok? ==>
            && s.fs.dirs == fs.dirs + {outputDir}
            && s.fs.files == fs.files[TextPath(outputDir, baseName) := Utf8Text(s.result.value)]
            && s.fs.journal == fs.journal + [TextPath(outputDir, baseName)]
            && s.result.value == Transcript(AllTexts(be.ocr, images)))
  {
    if forall i :: 0 <= i < |images| ==> be.ocr(images[i]).Ok? {
      MapAllSucceeds(be.ocr, images);
    }
  }

  /** Once the output directory is created, the first page that fails to be recognised
      decides the error: a ValueError passes as it is, anything else is reported as
      "Text conversion failed: <message>". */
  lemma FirstOcrFailureReported(fs: FileSystem, be: Backend, images: seq<Image>, baseName: string, outputDir: Path, k: nat)
    requires outputDir != ""
    requires k < |images| && be.ocr(images[k]).Err?
    requires forall i :: 0 <= i < k ==> be.ocr(images[i]).Ok?
    ensures var e := be.ocr(images[k]).error;
      ImagesToText(fs, be, images, baseName, outputDir).result
      == Err(if e.kind == ValueError then e else Error(Exception, "Text conversion failed: " + e.message))
  {
    MapAllFirstFailure(be.ocr, images, k);
  }
}
