/** What the batch drivers promise: one report line per discovered document and the
    count of discovered documents; isolation of each document's failure; the files of
    earlier documents surviving later ones; and, per document, what is written when it
    completes and what is left alone when it fails. */
module BatchProperties {
  import opened Paths
  import opened Storage
  import opened TagDetection
  import opened Transcripts
  import opened Conversion
  import opened Batch

  /** The files a pipeline may write for a document with this base name. */
  ghost predicate Owns(pl: Pipeline, base: string, p: Path)
  {
    match pl
    case RasterOcr(textDir) =>
      p == TextPath(textDir, base) || exists i: nat :: 1 <= i && p == ImagePath(ImageOutputDir, base, i)
    case TextLayer(pdfDir, textDir) =>
      p == TaggedPath(pdfDir, base) || p == TextPath(textDir, base)
  }

  /** An artifact's path names its document's base name, so documents with different base
      names never share an artifact. */
  lemma OwnerIsDetermined(pl: Pipeline, base: string, p: Path)
    requires '/' !in base
    ensures Owns(pl, base, p) ==> base == ArtifactBase(Basename(p))
  {
    if Owns(pl, base, p) {
      if pl.RasterOcr? && p != TextPath(pl.textDir, base) {
        var i: nat :| 1 <= i && p == ImagePath(ImageOutputDir, base, i);
        ArtifactNamesFlat(base, i);
        JoinBasename(ImageOutputDir, ImageName(base, i));
        ImageNameRecovers(base, i);
      } else {
        ArtifactNamesFlat(base, 0);
        TextNameRecovers(base);
        TaggedNameRecovers(base);
        JoinBasename(pl.textDir, TextName(base));
        if pl.TextLayer? {
          JoinBasename(pl.pdfDir, TaggedName(base));
        }
      }
    }
  }

  /** A document's page images are never its text file. */
  lemma ImagesApartFromText(imageDir: Path, textDir: Path, base: string)
    requires '/' !in base
    ensures forall i: nat :: ImagePath(imageDir, base, i) != TextPath(textDir, base)
  {
    forall i: nat
      ensures ImagePath(imageDir, base, i) != TextPath(textDir, base)
    {
      ArtifactNamesFlat(base, i);
      ArtifactNamesDistinct(base, base, i);
      JoinBasename(imageDir, ImageName(base, i));
      JoinBasename(textDir, TextName(base));
    }
  }

  /** A document's tagged output is never its text file. */
  lemma TaggedApartFromText(pdfDir: Path, textDir: Path, base: string)
    requires '/' !in base
    ensures TaggedPath(pdfDir, base) != TextPath(textDir, base)
  {
    ArtifactNamesFlat(base, 0);
    ArtifactNamesDistinct(base, base, 0);
    JoinBasename(pdfDir, TaggedName(base));
    JoinBasename(textDir, TextName(base));
  }

  /** What tagged_pdf saves for a document: detection failing is the document's error;
      a tagged source is taken verbatim; an untagged one is what the re-OCR tool makes of
      it, its failure included. */
  lemma TaggedOutputChoice(fs: FileSystem, be: Backend, pdf: Path)
    ensures var detected, r := IsPdfTagged(fs, be.readCatalog, pdf), TaggedOutput(fs, be, pdf);
      && (detected.Err? ==> r == Err(detected.error))
      && (detected.Ok? ==> pdf in fs.files)
      && (detected == Ok(true) ==> r == Ok(fs.files[pdf]))
      && (detected == Ok(false) ==> r == be.reOcr(fs.files[pdf], OcrLanguages))
  {
  }

  /** One document of tagged_pdf writes at most two files, <pdf_dir>/<base>_tagged.pdf
      and then <text_dir>/<base>.txt. When nothing could be saved, nothing is written;
      otherwise the tagged-output file holds what was saved; and the text file is
      written only when the document completes. */
  lemma TagAndExtractEffect(be: Backend, fs: FileSystem, pdf: Path, pdfDir: Path, textDir: Path)
    ensures var s, output := TagAndExtract(fs, be, pdf, pdfDir, textDir), TaggedOutput(fs, be, pdf);
      var tagged, text := TaggedPath(pdfDir, BaseName(pdf)), TextPath(textDir, BaseName(pdf));
      && s.fs.dirs == fs.dirs
      && (output.Err? ==> s == DocStep(fs, Failed(output.error)))
      && (output.Ok? ==> tagged in s.fs.files && s.fs.files[tagged] == output.value)
      && (forall p :: p != tagged && p != text ==> Unchanged(fs, s.fs, p))
      && (s.outcome.Failed? ==> Unchanged(fs, s.fs, text))
  {
    BaseNameIsStem(pdf);
    TaggedApartFromText(pdfDir, textDir, BaseName(pdf));
  }

  /** The branch of tagged_pdf: a tagged source is copied verbatim to
      <pdf_dir>/<base>_tagged.pdf, an untagged one is replaced there by the re-OCR tool's
      output; when detection or re-OCR fails the document fails with that error and
      nothing at all is written, its text file included. */
  lemma TaggedBranch(be: Backend, fs: FileSystem, pdf: Path, pdfDir: Path, textDir: Path)
    ensures var s, detected := TagAndExtract(fs, be, pdf, pdfDir, textDir), IsPdfTagged(fs, be.readCatalog, pdf);
      var tagged := TaggedPath(pdfDir, BaseName(pdf));
      && (detected.Err? ==> s == DocStep(fs, Failed(detected.error)))
      && (detected == Ok(true) ==> pdf in fs.files && tagged in s.fs.files && s.fs.files[tagged] == fs.files[pdf])
      && (detected == Ok(false) ==>
            var made := be.reOcr(fs.files[pdf], OcrLanguages);
            && (made.Err? ==> s == DocStep(fs, Failed(made.error)))
            && (made.Ok? ==> tagged in s.fs.files && s.fs.files[tagged] == made.value))
  {
    TaggedOutputChoice(fs, be, pdf);
    TagAndExtractEffect(be, fs, pdf, pdfDir, textDir);
  }

  /** One document's step writes only that document's artifacts. */
  lemma RunDocumentConfined(pl: Pipeline, be: Backend, fs: FileSystem, pdf: Path)
    ensures forall p :: !Owns(pl, BaseName(pdf), p) ==> Unchanged(fs, RunDocument(pl, be, fs, pdf).fs, p)
  {
    var base := BaseName(pdf);
    if pl.RasterOcr? {
      var converted := PdfToImages(fs, be, pdf, Some(ImageOutputDir), ImageFormat);
      PdfToImagesFailsCleanly(fs, be, pdf, Some(ImageOutputDir), ImageFormat);
      if converted.result.Ok? {
        PdfToImagesWritesEveryPage(fs, be, pdf, Some(ImageOutputDir), ImageFormat);
        var c := converted.result.value;
        TranscriptWrittenOnlyAfterAllPages(converted.fs, be, c.images, c.baseName, pl.textDir);
        assert c.baseName == base;
        forall p | !Owns(pl, base, p)
          ensures Unchanged(fs, RunDocument(pl, be, fs, pdf).fs, p)
        {
          assert forall i :: 1 <= i <= |c.images| ==> p != ImagePath(ImageOutputDir, base, i);
          assert Unchanged(fs, converted.fs, p);
        }
      }
    } else {
      TagAndExtractEffect(be, fs, pdf, pl.pdfDir, pl.textDir);
    }
  }

  /** A run writes only artifacts of the documents it was given. */
  lemma {:induction false} RunBatchConfined(pl: Pipeline, be: Backend, fs: FileSystem, pdfs: seq<Path>)
    ensures forall p :: (forall i :: 0 <= i < |pdfs| ==> !Owns(pl, BaseName(pdfs[i]), p))
                        ==> Unchanged(fs, RunBatch(pl, be, fs, pdfs).fs, p)
    decreases |pdfs|
  {
    if pdfs != [] {
      var init := pdfs[..|pdfs| - 1];
      RunBatchConfined(pl, be, fs, init);
      var before := RunBatch(pl, be, fs, init);
      RunDocumentConfined(pl, be, before.fs, pdfs[|pdfs| - 1]);
      forall p | (forall i :: 0 <= i < |pdfs| ==> !Owns(pl, BaseName(pdfs[i]), p))
        ensures Unchanged(fs, RunBatch(pl, be, fs, pdfs).fs, p)
      {
        assert forall i :: 0 <= i < |init| ==> init[i] == pdfs[i];
        assert Unchanged(fs, before.fs, p);
      }
    }
  }

  /** Running a list is running its first m documents and then the rest, on the file
      system the first ones left. */
  lemma {:induction false} RunBatchSplit(pl: Pipeline, be: Backend, fs: FileSystem, pdfs: seq<Path>, m: nat)
    requires m <= |pdfs|
    ensures var first := RunBatch(pl, be, fs, pdfs[..m]);
      var rest := RunBatch(pl, be, first.fs, pdfs[m..]);
      RunBatch(pl, be, fs, pdfs) == Run(rest.fs, first.log + rest.log)
    decreases |pdfs|
  {
    if m == |pdfs| {
      assert pdfs[..m] == pdfs;
      assert pdfs[m..] == [];
    } else {
      var init := pdfs[..|pdfs| - 1];
      RunBatchSplit(pl, be, fs, init, m);
      assert init[..m] == pdfs[..m];
      assert pdfs[m..][..|pdfs[m..]| - 1] == init[m..];
      assert pdfs[m..][|pdfs[m..]| - 1] == pdfs[|pdfs| - 1];
    }
  }

  /** The last report line of a run is the outcome of its last document on the file
      system the documents before it left behind. */
  lemma LastDocumentReported(pl: Pipeline, be: Backend, fs: FileSystem, pdfs: seq<Path>)
    requires pdfs != []
    ensures var before := RunBatch(pl, be, fs, pdfs[..|pdfs| - 1]);
      RunBatch(pl, be, fs, pdfs).log ==
        before.log + [Document(pdfs[|pdfs| - 1], RunDocument(pl, be, before.fs, pdfs[|pdfs| - 1]).outcome)]
  {
  }

  /** A run reports every document it was given, once each, in the given order, and the
      outcome reported for each is the one it had on the file system the documents before
      it left behind. */
  lemma {:induction false} RunBatchReportsEveryDocument(pl: Pipeline, be: Backend, fs: FileSystem, pdfs: seq<Path>)
    ensures var log := RunBatch(pl, be, fs, pdfs).log;
      && |log| == |pdfs|
      && forall i :: 0 <= i < |pdfs| ==>
           log[i] == Document(pdfs[i], RunDocument(pl, be, RunBatch(pl, be, fs, pdfs[..i]).fs, pdfs[i]).outcome)
    decreases |pdfs|
  {
    if pdfs != [] {
      var init := pdfs[..|pdfs| - 1];
      RunBatchReportsEveryDocument(pl, be, fs, init);
      LastDocumentReported(pl, be, fs, pdfs);
      var log := RunBatch(pl, be, fs, pdfs).log;
      forall i | 0 <= i < |pdfs|
        ensures log[i] == Document(pdfs[i], RunDocument(pl, be, RunBatch(pl, be, fs, pdfs[..i]).fs, pdfs[i]).outcome)
      {
        if i < |init| {
          assert init[..i] == pdfs[..i] && init[i] == pdfs[i];
          assert log[i] == RunBatch(pl, be, fs, init).log[i];
        } else {
          assert pdfs[..i] == init;
        }
      }
    }
  }

  /** Fault isolation: once document k has been processed, its artifacts stay as it left
      them whatever later documents do, failures included, as long as no later document
      has the same base name. */
  lemma EarlierArtifactsSurvive(pl: Pipeline, be: Backend, fs: FileSystem, pdfs: seq<Path>, k: nat)
    requires k < |pdfs|
    requires forall j :: k < j < |pdfs| ==> BaseName(pdfs[j]) != BaseName(pdfs[k])
    ensures forall p :: Owns(pl, BaseName(pdfs[k]), p) ==>
              Unchanged(RunBatch(pl, be, fs, pdfs[..k + 1]).fs, RunBatch(pl, be, fs, pdfs).fs, p)
  {
    var first := RunBatch(pl, be, fs, pdfs[..k + 1]);
    var later := pdfs[k + 1..];
    RunBatchSplit(pl, be, fs, pdfs, k + 1);
    RunBatchConfined(pl, be, first.fs, later);
    var base := BaseName(pdfs[k]);
    BaseNameIsStem(pdfs[k]);
    forall p | Owns(pl, base, p)
      ensures forall i :: 0 <= i < |later| ==> !Owns(pl, BaseName(later[i]), p)
    {
      OwnerIsDetermined(pl, base, p);
      forall i | 0 <= i < |later|
        ensures !Owns(pl, BaseName(later[i]), p)
      {
        assert later[i] == pdfs[k + 1 + i];
        BaseNameIsStem(later[i]);
        OwnerIsDetermined(pl, BaseName(later[i]), p);
      }
    }
  }

  /** The documents glob finds in one directory, "<dir>/<stem>.pdf" with distinct stems
      that do not start with '.', have distinct base names; so every document's artifacts
      survive the rest of the run. */
  lemma GlobbedDocumentsKeepArtifacts(pl: Pipeline, be: Backend, fs: FileSystem, inputDir: Path,
                                      stems: seq<string>, pdfs: seq<Path>, k: nat)
    requires |stems| == |pdfs| && k < |pdfs|
    requires forall j :: 0 <= j < |pdfs| ==> pdfs[j] == Join(inputDir, stems[j] + ".pdf")
    requires forall j :: 0 <= j < |stems| ==> '/' !in stems[j] && stems[j] != [] && stems[j][0] != '.'
    requires forall i, j :: 0 <= i < j < |stems| ==> stems[i] != stems[j]
    ensures forall p :: Owns(pl, BaseName(pdfs[k]), p) ==>
              Unchanged(RunBatch(pl, be, fs, pdfs[..k + 1]).fs, RunBatch(pl, be, fs, pdfs).fs, p)
  {
    forall j | 0 <= j < |pdfs|
      ensures BaseName(pdfs[j]) == stems[j]
    {
      GlobbedBaseName(inputDir, stems[j]);
    }
    EarlierArtifactsSurvive(pl, be, fs, pdfs, k);
  }

  /** The output directories a pipeline creates before it looks for PDFs. */
  function OutputDirs(pl: Pipeline): (dirs: set<Path>)
  {
    if pl.RasterOcr? then {pl.textDir} else {pl.pdfDir, pl.textDir}
  }

  /** Both drivers, when the input directory is None or missing, report that and stop,
      having changed nothing; when it holds no PDF, they report that and stop, having
      created their output directories and written no file. Neither processes any
      document. */
  lemma BatchPreconditions(pl: Pipeline, be: Backend, fs: FileSystem, inputDir: Option<Path>, pdfs: seq<Path>)
    ensures var r := FolderRun(pl, be, fs, inputDir, pdfs);
      && (inputDir.None? ==> r == Run(fs, [Aborted(Error(Exception, NotAPath))]))
      && (inputDir.Some? && !fs.Exists(inputDir.value) ==>
            r == Run(fs, [Aborted(Error(FileNotFoundError, "Input directory not found: " + inputDir.value))]))
      && (inputDir.Some? && fs.Exists(inputDir.value) && "" !in OutputDirs(pl) && pdfs == [] ==>
            && r.log == [Aborted(Error(ValueError, "No PDF files found in " + inputDir.value))]
            && r.fs.files == fs.files && r.fs.journal == fs.journal
            && r.fs.dirs == fs.dirs + OutputDirs(pl))
  {
  }

  /** An empty output directory name makes os.makedirs fail: the run reports that and
      stops before looking for PDFs, having written no file and processed no document. The
      only directory it may leave behind is the PDF directory of tagged_pdf, created first
      when only the text directory name is empty. */
  lemma EmptyOutputDirAborts(pl: Pipeline, be: Backend, fs: FileSystem, dir: Path, pdfs: seq<Path>)
    requires fs.Exists(dir) && "" in OutputDirs(pl)
    ensures var r := FolderRun(pl, be, fs, Some(dir), pdfs);
      && r.log == [Aborted(Error(FileNotFoundError, NoSuchFile("")))]
      && r.fs.files == fs.files && r.fs.journal == fs.journal
      && r.fs.dirs == fs.dirs + (if pl.TextLayer? && pl.pdfDir != "" then {pl.pdfDir} else {})
  {
  }

  /** A run over N >= 1 discovered documents reports each of them in order, with the
      outcome it had, and then the count N: documents discovered, not documents
      converted. */
  lemma CountIsDocumentsDiscovered(pl: Pipeline, be: Backend, fs: FileSystem, inputDir: Option<Path>, pdfs: seq<Path>)
    requires inputDir.Some? && fs.Exists(inputDir.value) && "" !in OutputDirs(pl) && pdfs != []
    ensures var prepared, log := MakeOutputDirs(pl, fs).fs, FolderRun(pl, be, fs, inputDir, pdfs).log;
      && |log| == |pdfs| + 1
      && log[|pdfs|] == Processed(|pdfs|)
      && forall i :: 0 <= i < |pdfs| ==>
           log[i] == Document(pdfs[i], RunDocument(pl, be, RunBatch(pl, be, prepared, pdfs[..i]).fs, pdfs[i]).outcome)
  {
    RunBatchReportsEveryDocument(pl, be, MakeOutputDirs(pl, fs).fs, pdfs);
  }

  /** A document that fails leaves no transcript behind: its text file is as it was
      before the document was processed. */
  lemma FailedDocumentLeavesNoTranscript(pl: Pipeline, be: Backend, fs: FileSystem, pdf: Path)
    requires RunDocument(pl, be, fs, pdf).outcome.Failed?
    ensures Unchanged(fs, RunDocument(pl, be, fs, pdf).fs, TextPath(pl.textDir, BaseName(pdf)))
  {
    var base := BaseName(pdf);
    if pl.RasterOcr? {
      var converted := PdfToImages(fs, be, pdf, Some(ImageOutputDir), ImageFormat);
      PdfToImagesFailsCleanly(fs, be, pdf, Some(ImageOutputDir), ImageFormat);
      if converted.result.Ok? {
        PdfToImagesWritesEveryPage(fs, be, pdf, Some(ImageOutputDir), ImageFormat);
        BaseNameIsStem(pdf);
        ImagesApartFromText(ImageOutputDir, pl.textDir, base);
        var c := converted.result.value;
        TranscriptWrittenOnlyAfterAllPages(converted.fs, be, c.images, c.baseName, pl.textDir);
        assert Unchanged(fs, converted.fs, TextPath(pl.textDir, base));
      }
    } else {
      TagAndExtractEffect(be, fs, pdf, pl.pdfDir, pl.textDir);
    }
  }

  /** A document of process_pdfs_in_folder completes exactly when its file rasterises into
      at least one page, its text directory name is not empty and every page is recognised;
      its transcript file then holds the "--- Page i ---" transcript of the recognised texts. */
  lemma RasterOcrCompletion(be: Backend, fs: FileSystem, pdf: Path, textDir: Path)
    ensures var s := RasterOcrDocument(fs, be, pdf, textDir);
      s.outcome.Completed? <==>
        && pdf in fs.files
        && be.rasterize(fs.files[pdf], Dpi).Ok?
        && be.rasterize(fs.files[pdf], Dpi).value != []
        && textDir != ""
        && forall i :: 0 <= i < |be.rasterize(fs.files[pdf], Dpi).value| ==>
             be.ocr(be.rasterize(fs.files[pdf], Dpi).value[i]).Ok?
    ensures var s := RasterOcrDocument(fs, be, pdf, textDir);
      s.outcome.Completed? ==>
        var images := be.rasterize(fs.files[pdf], Dpi).value;
        && s.outcome.textName == TextName(BaseName(pdf))
        && TextPath(textDir, BaseName(pdf)) in s.fs.files
        && s.fs.files[TextPath(textDir, BaseName(pdf))] == Utf8Text(Transcript(AllTexts(be.ocr, images)))
  {
    var converted := PdfToImages(fs, be, pdf, Some(ImageOutputDir), ImageFormat);
    PdfToImagesFailsCleanly(fs, be, pdf, Some(ImageOutputDir), ImageFormat);
    if converted.result.Ok? {
      PdfToImagesWritesEveryPage(fs, be, pdf, Some(ImageOutputDir), ImageFormat);
      var c := converted.result.value;
      TranscriptWrittenOnlyAfterAllPages(converted.fs, be, c.images, c.baseName, textDir);
    }
  }

  /** A document of tagged_pdf completes exactly when something was saved as its tagged
      output, that file opens and every page's text layer is read; its text file then
      holds those texts, in page order, joined with plain newlines and without page
      markers. */
  lemma TextLayerCompletion(be: Backend, fs: FileSystem, pdf: Path, pdfDir: Path, textDir: Path)
    ensures var s, output := TagAndExtract(fs, be, pdf, pdfDir, textDir), TaggedOutput(fs, be, pdf);
      s.outcome.Completed? <==>
        && output.Ok?
        && be.openPages(output.value).Ok?
        && forall i :: 0 <= i < |be.openPages(output.value).value| ==>
             be.extractText(be.openPages(output.value).value[i]).Ok?
    ensures var s, output := TagAndExtract(fs, be, pdf, pdfDir, textDir), TaggedOutput(fs, be, pdf);
      s.outcome.Completed? ==>
        var pages := be.openPages(output.value).value;
        && s.outcome.textName == TextName(BaseName(pdf))
        && TextPath(textDir, BaseName(pdf)) in s.fs.files
        && s.fs.files[TextPath(textDir, BaseName(pdf))] == Utf8Text(JoinWith("\n", AllTexts(be.extractText, pages)))
  {
    var output := TaggedOutput(fs, be, pdf);
    if output.Ok? {
      var pages := be.openPages(output.value);
      if pages.Ok? && forall i :: 0 <= i < |pages.value| ==> be.extractText(pages.value[i]).Ok? {
        MapAllSucceeds(be.extractText, pages.value);
      }
    }
  }
}
