/** The two batch drivers of pdf2img.py: process_pdfs_in_folder (rasterise and recognise
    every PDF) and tagged_pdf (copy a tagged PDF, re-recognise an untagged one, then read
    its text layer). Both run one document after another, catch each document's failure,
    report it with the document's path and go on with the next. */
module Batch {
  import opened Paths
  import opened Storage
  import opened TagDetection
  import opened Transcripts
  import opened Conversion

  /** The image directory process_pdfs_in_folder hands to pdf2img. */
  const ImageOutputDir: Path := "img_output"

  /** The format process_pdfs_in_folder saves page images in. */
  const ImageFormat := "JPEG"

  /** The strategy a driver applies to each document, with its output directories. */
  datatype Pipeline =
    | RasterOcr(textDir: Path)                 // process_pdfs_in_folder(input_dir, output_dir)
    | TextLayer(pdfDir: Path, textDir: Path)   // tagged_pdf(input_dir, output_dir, output_txt_dir)

  /** How one document ended: "Completed <base>.txt", or the exception that was caught. */
  datatype Outcome = Completed(textName: string) | Failed(error: Error)

  /** One line of a run's report. */
  datatype Report =
    | Document(pdf: Path, outcome: Outcome)   // one document's outcome
    | Processed(count: nat)                   // "Processed <n> PDFs"
    | Aborted(error: Error)                   // the run's own error, before any document

  datatype DocStep = DocStep(fs: FileSystem, outcome: Outcome)

  datatype Run = Run(fs: FileSystem, log: seq<Report>)

  /** The body of process_pdfs_in_folder's loop: pdf2img into "img_output", then img2text
      into the text directory. */
  function RasterOcrDocument(fs: FileSystem, be: Backend, pdf: Path, textDir: Path): (step: DocStep)
  {
    var converted := PdfToImages(fs, be, pdf, Some(ImageOutputDir), ImageFormat);
    match converted.result
    case Err(e) => DocStep(converted.fs, Failed(e))
    case Ok(c) =>
      var recognised := ImagesToText(converted.fs, be, c.images, c.baseName, textDir);
      match recognised.result
      case Err(e) => DocStep(recognised.fs, Failed(e))
      case Ok(_) => DocStep(recognised.fs, Completed(TextName(BaseName(pdf))))
  }

  /** The body of tagged_pdf's loop. The tag is decided once; a tagged PDF is copied as it
      is to <pdf_dir>/<base>_tagged.pdf, an untagged one is re-recognised into that file;
      that file's pages are then read and their texts joined with newlines into
      <text_dir>/<base>.txt. */
  function TagAndExtract(fs: FileSystem, be: Backend, pdf: Path, pdfDir: Path, textDir: Path): (step: DocStep)
  {
    var base := BaseName(pdf);
    match TaggedOutput(fs, be, pdf)
    case Err(e) => DocStep(fs, Failed(e))
    case Ok(output) =>
      var written := fs.Write(TaggedPath(pdfDir, base), output);
      match be.openPages(written.files[TaggedPath(pdfDir, base)])
      case Err(e) => DocStep(written, Failed(e))
      case Ok(pages) =>
        match MapAll(be.extractText, pages)
        case Err(e) => DocStep(written, Failed(e))
        case Ok(texts) =>
          DocStep(written.Write(TextPath(textDir, base), Utf8Text(JoinWith("\n", texts))),
                  Completed(TextName(base)))
  }

  /** The PDF tagged_pdf saves as <base>_tagged.pdf: the source itself when it is tagged,
      the re-OCR tool's output for it when it is not; detection is done once. */
  function TaggedOutput(fs: FileSystem, be: Backend, pdf: Path): (saved: Result<Content>)
  {
    match IsPdfTagged(fs, be.readCatalog, pdf)
    case Err(e) => Err(e)
    case Ok(tagged) =>
      var source := fs.files[pdf];
      if tagged then Ok(source) else be.reOcr(source, OcrLanguages)
  }

  function RunDocument(pl: Pipeline, be: Backend, fs: FileSystem, pdf: Path): (step: DocStep)
  {
    match pl
    case RasterOcr(textDir) => RasterOcrDocument(fs, be, pdf, textDir)
    case TextLayer(pdfDir, textDir) => TagAndExtract(fs, be, pdf, pdfDir, textDir)
  }

  /** The loop over the discovered PDFs: each document in turn, on the file system the
      previous ones left, one report line each. */
  function RunBatch(pl: Pipeline, be: Backend, fs: FileSystem, pdfs: seq<Path>): (run: Run)
    decreases |pdfs|
  {
    if pdfs == [] then Run(fs, [])
    else
      var before := RunBatch(pl, be, fs, pdfs[..|pdfs| - 1]);
      var step := RunDocument(pl, be, before.fs, pdfs[|pdfs| - 1]);
      Run(step.fs, before.log + [Document(pdfs[|pdfs| - 1], step.outcome)])
  }

  /** The output directories a driver creates, in order, before it looks for PDFs. The
      first one that cannot be created ends the preparation with its error; those before
      it exist by then. */
  function MakeOutputDirs(pl: Pipeline, fs: FileSystem): (prepared: Step<()>)
  {
    match pl
    case RasterOcr(textDir) =>
      (match fs.MakeDirs(textDir)
       case Err(e) => Step(fs, Err(e))
       case Ok(made) => Step(made, Ok(())))
    case TextLayer(pdfDir, textDir) =>
      match fs.MakeDirs(pdfDir)
      case Err(e) => Step(fs, Err(e))
      case Ok(first) =>
        match first.MakeDirs(textDir)
        case Err(e) => Step(first, Err(e))
        case Ok(made) => Step(made, Ok(()))
  }

  /** str() of the TypeError os.path.exists raises for input_dir=None, the drivers'
      default: os.stat accepts no None, and genericpath.exists only catches OSError and
      ValueError. */
  const NotAPath := "stat: path should be string, bytes, os.PathLike or integer, not NoneType"

  /** A whole driver run. The PDFs glob found in the input directory are given, in glob's
      order. An input directory that is None or missing, an output directory that cannot
      be created, or an empty list is reported and ends the run without processing
      anything. */
  function FolderRun(pl: Pipeline, be: Backend, fs: FileSystem, inputDir: Option<Path>, pdfs: seq<Path>): (run: Run)
  {
    match inputDir
    case None => Run(fs, [Aborted(Error(Exception, NotAPath))])
    case Some(dir) =>
      if !fs.Exists(dir) then
        Run(fs, [Aborted(Error(FileNotFoundError, "Input directory not found: " + dir))])
      else
        var prepared := MakeOutputDirs(pl, fs);
        if prepared.result.Err? then Run(prepared.fs, [Aborted(prepared.result.error)])
        else if pdfs == [] then Run(prepared.fs, [Aborted(Error(ValueError, "No PDF files found in " + dir))])
        else
          var done := RunBatch(pl, be, prepared.fs, pdfs);
          Run(done.fs, done.log + [Processed(|pdfs|)])
  }

  /** One document of process_pdfs_in_folder: the body of its try block. */
  method RasterOcrFile(fs: FileSystem, be: Backend, pdfPath: Path, outputDir: Path)
    returns (fs': FileSystem, outcome: Outcome)
    ensures DocStep(fs', outcome) == RasterOcrDocument(fs, be, pdfPath, outputDir)
  {
    var baseName := BaseName(pdfPath);
    var converted: Result<Converted>;
    fs', converted := Pdf2Img(fs, be, pdfPath, Some(ImageOutputDir), ImageFormat);
    if converted.Err? {
      outcome := Failed(converted.error);
      return;
    }
    var text: Result<string>;
    fs', text := Img2Text(fs', be, converted.value.images, converted.value.baseName, outputDir);
    outcome := if text.Ok? then Completed(TextName(baseName)) else Failed(text.error);
  }

  method ProcessPdfsInFolder(fs: FileSystem, be: Backend, inputDir: Option<Path>, pdfFiles: seq<Path>, outputDir: Path)
    returns (fs': FileSystem, log: seq<Report>)
    ensures Run(fs', log) == FolderRun(RasterOcr(outputDir), be, fs, inputDir, pdfFiles)
  {
    fs' := fs;
    if inputDir.None? {
      log := [Aborted(Error(Exception, NotAPath))];
      return;
    }
    if !fs.Exists(inputDir.value) {
      log := [Aborted(Error(FileNotFoundError, "Input directory not found: " + inputDir.value))];
      return;
    }
    var made := fs.MakeDirs(outputDir);
    if made.Err? {
      log := [Aborted(made.error)];
      return;
    }
    fs' := made.value;
    if pdfFiles == [] {
      log := [Aborted(Error(ValueError, "No PDF files found in " + inputDir.value))];
      return;
    }
    ghost var prepared := fs';
    log := [];
    var i := 0;
    while i < |pdfFiles|
      invariant 0 <= i <= |pdfFiles|
      invariant Run(fs', log) == RunBatch(RasterOcr(outputDir), be, prepared, pdfFiles[..i])
    {
      assert pdfFiles[..i + 1][..i] == pdfFiles[..i];
      var pdfPath := pdfFiles[i];
      var outcome: Outcome;
      fs', outcome := RasterOcrFile(fs', be, pdfPath, outputDir);
      log := log + [Document(pdfPath, outcome)];
      i := i + 1;
    }
    assert pdfFiles[..i] == pdfFiles;
    log := log + [Processed(|pdfFiles|)];
  }

  /** One document of tagged_pdf, with the loop over its pages. */
  method TagAndExtractDocument(fs: FileSystem, be: Backend, pdfPath: Path, outputDir: Path, outputTxtDir: Path)
    returns (fs': FileSystem, outcome: Outcome)
    ensures DocStep(fs', outcome) == TagAndExtract(fs, be, pdfPath, outputDir, outputTxtDir)
  {
    fs' := fs;
    var baseName := BaseName(pdfPath);
    var outputPdfPath := TaggedPath(outputDir, baseName);
    var outputTxtPath := TextPath(outputTxtDir, baseName);
    var tagged := IsPdfTagged(fs, be.readCatalog, pdfPath);
    if tagged.Err? {
      outcome := Failed(tagged.error);
      return;
    }
    var made: Result<Content>;
    if !tagged.value {
      made := be.reOcr(fs.files[pdfPath], OcrLanguages);
    } else {
      made := Ok(fs.files[pdfPath]);
    }
    assert made == TaggedOutput(fs, be, pdfPath);
    if made.Err? {
      outcome := Failed(made.error);
      return;
    }
    fs' := fs'.Write(outputPdfPath, made.value);
    var pdf := be.openPages(fs'.files[outputPdfPath]);
    if pdf.Err? {
      outcome := Failed(pdf.error);
      return;
    }
    var allText := ReadTextLayer(be, pdf.value);
    if allText.Err? {
      outcome := Failed(allText.error);
      return;
    }
    var combinedText := JoinWith("\n", allText.value);
    fs' := fs'.Write(outputTxtPath, Utf8Text(combinedText));
    outcome := Completed(TextName(baseName));
  }

  /** The page loop of tagged_pdf: each page's text layer in turn, the first failure
      ending the loop. */
  method ReadTextLayer(be: Backend, pages: seq<PdfPage>) returns (r: Result<seq<string>>)
    ensures r == MapAll(be.extractText, pages)
  {
    var allText: seq<string> := [];
    var i := 0;
    while i < |pages|
      invariant 0 <= i <= |pages|
      invariant MapAll(be.extractText, pages[..i]) == Ok(allText)
    {
      assert pages[..i + 1][..i] == pages[..i];
      var text := be.extractText(pages[i]);
      if text.Err? {
        MapAllFailurePersists(be.extractText, pages, i + 1);
        return Err(text.error);
      }
      allText := allText + [text.value];
      i := i + 1;
    }
    assert pages[..i] == pages;
    r := Ok(allText);
  }

  method TaggedPdf(fs: FileSystem, be: Backend, inputDir: Option<Path>, pdfFiles: seq<Path>, outputDir: Path, outputTxtDir: Path)
    returns (fs': FileSystem, log: seq<Report>)
    ensures Run(fs', log) == FolderRun(TextLayer(outputDir, outputTxtDir), be, fs, inputDir, pdfFiles)
  {
    fs' := fs;
    if inputDir.None? {
      log := [Aborted(Error(Exception, NotAPath))];
      return;
    }
    if !fs.Exists(inputDir.value) {
      log := [Aborted(Error(FileNotFoundError, "Input directory not found: " + inputDir.value))];
      return;
    }
    var made := fs'.MakeDirs(outputDir);
    if made.Err? {
      log := [Aborted(made.error)];
      return;
    }
    fs' := made.value;
    made := fs'.MakeDirs(outputTxtDir);
    if made.Err? {
      log := [Aborted(made.error)];
      return;
    }
    fs' := made.value;
    if pdfFiles == [] {
      log := [Aborted(Error(ValueError, "No PDF files found in " + inputDir.value))];
      return;
    }
    ghost var prepared := fs';
    log := [];
    var i := 0;
    while i < |pdfFiles|
      invariant 0 <= i <= |pdfFiles|
      invariant Run(fs', log) == RunBatch(TextLayer(outputDir, outputTxtDir), be, prepared, pdfFiles[..i])
    {
      assert pdfFiles[..i + 1][..i] == pdfFiles[..i];
      var pdfPath := pdfFiles[i];
      var outcome: Outcome;
      fs', outcome := TagAndExtractDocument(fs', be, pdfPath, outputDir, outputTxtDir);
      log := log + [Document(pdfPath, outcome)];
      i := i + 1;
    }
    assert pdfFiles[..i] == pdfFiles;
    log := log + [Processed(|pdfFiles|)];
  }
}
