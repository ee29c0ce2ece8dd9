# pdf2img: a verified model of the batch PDF-to-text pipeline

`pdf2img.py` turns a folder of PDFs into text files in one of two ways.

- `process_pdfs_in_folder` runs each PDF through two stages:
  - `pdf2img` rasterises every page at 300 dpi and saves `img_output/<base>_<i>.jpg`;
  - `img2text` runs OCR on every page image and writes a transcript made of `--- Page i ---` blocks to `<output_dir>/<base>.txt`.
- `tagged_pdf` first asks `is_pdf_tagged` whether the document catalog declares a Tagged PDF, following section 14.7 of ISO 32000-1. The answer decides what goes into `<output_dir>/<base>_tagged.pdf`:
  - a tagged PDF is copied there verbatim;
  - an untagged one is replaced there by what `ocrmypdf` makes of it.

  It then reads that file's text layer page by page and writes the page texts, joined with newlines, to `<output_txt_dir>/<base>.txt`.

Both drivers isolate faults. A document whose processing raises is reported with its path, and the loop goes on with the next one. The run ends by reporting how many documents were found.

This project models that decision and bookkeeping layer in Dafny:

- `paths.dfy` (module `Paths`): `os.path.basename`, CPython's `os.path.splitext`, `os.path.join`, decimal page numbers, and every artifact name derived from the base name, with their inverses.
- `storage.dfy` (module `Storage`): the file system as a value. It holds the files with their contents, the set of directories, and a journal of the order in which files were written. It also gives Python's exceptions as `Error(kind, message)` values.
- `tags.dfy` (module `TagDetection`): the document catalog and `is_pdf_tagged`.
- `transcripts.dfy` (module `Transcripts`): `str.join`, the page-block transcript, and "run a fallible step over every page, the first failure wins".
- `conversion.dfy` (module `Conversion`): `pdf2img` and `img2text`. Each is a method with its loop, proved equal to a specification function, which the lemmas are then about.
- `batch.dfy` (module `Batch`): the two drivers as methods with their loops, proved equal to one shared specification `FolderRun`.
- `batch_properties.dfy` (module `BatchProperties`) proves what the drivers promise:
  - one report entry per document;
  - the count of documents discovered;
  - artifacts confined to their own document;
  - earlier artifacts surviving later failures;
  - for each document, what is written when it completes and what is left alone when it fails.

The libraries the code calls are fields of a `Backend` value, each a total function returning a `Result`:

- `rasterize` is `convert_from_bytes`;
- `ocr` is `pytesseract.image_to_string` as img2text calls it, with its language string and its configuration built in;
- `readCatalog` is `PdfReader(...).trailer["/Root"]`;
- `reOcr` is `ocrmypdf.ocr`, and it is the one backend to which the model passes the language string `chi_tra+chi_sim+eng` (`Conversion.OcrLanguages`, from pdf2img.py:231);
- `openPages` is `pdfplumber.open(...).pages`;
- `extractText` is `page.extract_text`.

The PDFs that `glob` finds are an input sequence, taken in the order given.

Where the code and its surrounding documentation disagree, the model follows the code:

- `pdf2img`'s docstring says only the first page is converted and only an image is returned. The code converts every page and returns the images with the base name, and the model does that.
- The docstring promises a `ValueError` when no page is converted. The code raises one inside the `try`, where the generic handler catches it, so what surfaces is an `Exception` with the message `PDF conversion failed: No pages converted from PDF`. See `Conversion.NoPagesSurfacesAsConversionFailure`.
- The docstring of `process_pdfs_in_folder` gives its defaults as `sample_PDF` and `text_output_rebuilt`. In the code they are `None` and `"text_output"` (pdf2img.py:159). The model takes the input directory as an `Option`, so `None` is a possible input; see `BatchProperties.BatchPreconditions`.
- `mark_info.get("/Marked") == True` is Python equality. It also accepts pypdf's integer 1 and real 1.0, and `TagDetection.EqualsTrue` models that.

## Model

| member | source | states |
|---|---|---|
| Paths.RFind | pdf2img.py:55 | The index found is that of the last occurrence of the character, or -1 when there is none. |
| Paths.Basename | pdf2img.py:55 | `os.path.basename` gives the longest suffix of the path that holds no '/', and the character before it is '/'. |
| Paths.BaseNameIsStem | pdf2img.py:55 | The base name holds no '/' and is a prefix of the last path component. It is shorter exactly when the component has an extension (a last dot that is not one of the leading dots), and then the cut is at that last dot. |
| Paths.GlobbedBaseName | pdf2img.py:184 | For a file `<dir>/<stem>.pdf` that a `*.pdf` glob finds (the stem holds no '/' and does not start with '.'), the base name is exactly the stem. |
| Paths.PdfExtensionSplit | pdf2img.py:184 | `splitext` cuts `<stem>.pdf` exactly before `.pdf`. |
| Paths.JoinBasename | pdf2img.py:61 | The last component of `os.path.join(dir, name)` is `name` when `name` holds no '/'. |
| Paths.JoinSameFile | pdf2img.py:228-229 | Two joins that give the same path have the same file name. |
| Paths.RFindAt | pdf2img.py:55 | An occurrence with none after it is the one `rfind` returns. |
| Paths.NatToString | pdf2img.py:61 | `str(i)` is a non-empty string of decimal digits with no leading zero. |
| Paths.DecimalRoundTrip | pdf2img.py:61 | Reading `str(i)` back as a decimal gives `i`. |
| Paths.NatToStringInjective | pdf2img.py:61 | Different page numbers print differently. |
| Paths.ImageNameInjective | pdf2img.py:61 | `<base>_<i>.jpg` determines both the base name and the page number. |
| Paths.LastUnderscore | pdf2img.py:61 | In `<base>_<digits>` the last '_' is the one after the base. |
| Paths.ArtifactNamesDistinct | pdf2img.py:228-229 | Text names and tagged names each determine their base name. A page image or a tagged PDF never has a text file's name. |
| Paths.ArtifactNamesFlat | pdf2img.py:61 | For a base name without '/', the image, text and tagged names are single path components. |
| Paths.TextNameRecovers | pdf2img.py:147 | The base name is recovered from `<base>.txt`. |
| Paths.TaggedNameRecovers | pdf2img.py:228 | The base name is recovered from `<base>_tagged.pdf`. |
| Paths.ImageNameRecovers | pdf2img.py:61 | The base name is recovered from `<base>_<i>.jpg`. |
| Storage.FileSystem.Read | pdf2img.py:47-48 | Reading succeeds exactly when the path is a file and gives its content. Otherwise it raises `IsADirectoryError` (an `OSError`) for a directory, and `FileNotFoundError` for anything else. |
| TagDetection.IsPdfTagged | pdf2img.py:15-23 | Detection succeeds exactly when the file exists and its catalog parses, and then decides from the catalog alone. Read and parse errors pass up unchanged. As a function of the file system, it changes nothing. |
| TagDetection.TaggedIffMarkedOrStructured | pdf2img.py:18-23 | A document counts as tagged exactly when MarkInfo has `/Marked` equal to True, or the catalog has `/StructTreeRoot`. The code's test that MarkInfo is non-empty excludes nothing. |
| TagDetection.UnmarkedDefersToStructTree | pdf2img.py:18-22 | With no MarkInfo (no error), no `/Marked`, or `/Marked` false, only `/StructTreeRoot` decides. |
| Transcripts.JoinWithAppend | pdf2img.py:144 | Joining one more part appends the separator and that part. |
| Transcripts.JoinWithPrefix | pdf2img.py:144 | Joining the first k parts gives a prefix of joining them all. |
| Transcripts.PartAt | pdf2img.py:241 | Part k of a join appears whole, right after the first k parts and one separator. |
| Transcripts.PageMarkerInjective | pdf2img.py:139 | A `--- Page n ---` marker names exactly one page number. |
| Transcripts.TranscriptAppendPage | pdf2img.py:134-144 | Recognising one more page extends the transcript by a newline and that page's block, numbered one past the pages before it. |
| Transcripts.TranscriptPageAt | pdf2img.py:134-144 | Page k+1's block (its marker, its text, a newline) appears in the transcript right after the transcript of pages 1..k plus a newline. |
| Transcripts.TranscriptLeadGrows | pdf2img.py:134-144 | Block positions strictly increase, so the page markers come in the order 1, 2, ..., K. |
| Transcripts.MapAll | pdf2img.py:134-140 | On success there is one text per page, in page order, each being what that page's step returned. |
| Transcripts.MapAllSucceeds | pdf2img.py:134-140 | If every page's step succeeds, the whole succeeds, with exactly the pages' texts in page order. |
| Transcripts.MapAllFirstFailure | pdf2img.py:134-140 | The first failing page decides the error. |
| Transcripts.MapAllFailurePersists | pdf2img.py:238-240 | A failure among the first k pages is the failure of the whole loop, so the loop may stop there. |
| Conversion.WriteImagesJournal | pdf2img.py:60-63 | Saving K images creates no directory and writes `<dir>/<base>_1.jpg` ... `<dir>/<base>_K.jpg` in increasing page order. |
| Conversion.WriteImagesEffect | pdf2img.py:60-63 | Each of the K files holds its own page, and every other path is unchanged. |
| Conversion.ImagePathsDistinct | pdf2img.py:61 | Different pages go to different files. |
| Conversion.SaveImages | pdf2img.py:60-63 | The save loop writes exactly what `WriteImages` describes. |
| Conversion.ConvertPages | pdf2img.py:42-67 | The try block: the existence check, the read, rasterisation at 300 dpi, the zero-pages check, the image directory (`<base>_img` by default) and its creation, and the save loop, with every failure returned as raised. |
| Conversion.Pdf2Img | pdf2img.py:25-74 | The try block followed by its three handlers. |
| Conversion.MissingPdfNotWrapped | pdf2img.py:43-44 | A missing PDF raises `FileNotFoundError` with `PDF file not found: <path>`, re-raised unwrapped by the handler at pdf2img.py:69-70, and nothing is written. |
| Conversion.NoPagesSurfacesAsConversionFailure | pdf2img.py:51-74 | Zero pages surface as an `Exception` with `PDF conversion failed: No pages converted from PDF`, and nothing is written. |
| Conversion.PdfToImagesFailsCleanly | pdf2img.py:41-74 | On failure nothing is written. Success happens exactly when the file exists, yields at least one page, and the image directory name is not empty. |
| Conversion.ImageDirCreation | pdf2img.py:56-58 | The default directory `<base>_img` is never empty. An empty `output_dir` makes `os.makedirs` raise `FileNotFoundError` `No such file or directory: ''` after a successful rasterisation; the handler re-raises it unwrapped, and nothing is written. |
| Conversion.PdfToImagesWritesEveryPage | pdf2img.py:55-67 | For K >= 1 pages and a non-empty image directory name, pdf2img returns the images unchanged with the base name, creates the image directory, writes exactly `<dir>/<base>_1.jpg` ... `<dir>/<base>_K.jpg` in order, each holding its page, and touches no other file. |
| Conversion.Img2Text | pdf2img.py:76-157 | The method with its OCR loop computes `ImagesToText`: the same file system, and the same result or error. |
| Conversion.EmptyImagesRejected | pdf2img.py:79-80 | An empty image list raises `ValueError` `No images provided for text conversion` before any directory is created and before any OCR. |
| Conversion.TranscriptWrittenOnlyAfterAllPages | pdf2img.py:83-152 | img2text succeeds exactly when there are images, the output directory name is not empty, and every page is recognised. It then creates the output directory, writes `<output_dir>/<base>.txt` once, last, holding the returned transcript of the texts in page order. On failure no file is written. |
| Conversion.EmptyTextDirRejected | pdf2img.py:83 | For a non-empty image list, an empty output directory name makes `os.makedirs` fail. img2text then raises `Text conversion failed: No such file or directory: ''` (the handler at pdf2img.py:156-157 wraps it), before any OCR, and writes nothing. |
| Conversion.FirstOcrFailureReported | pdf2img.py:134-157 | Once the output directory exists, the first page that fails decides the error. A `ValueError` passes unchanged, and anything else becomes `Text conversion failed: <message>`. |
| Batch.RasterOcrFile | pdf2img.py:182-194 | One document of process_pdfs_in_folder: pdf2img into `img_output`, then img2text, and the outcome that gets reported. |
| Batch.ProcessPdfsInFolder | pdf2img.py:159-203 | The driver with its loop computes `FolderRun` for the raster-and-OCR pipeline. |
| Batch.TagAndExtractDocument | pdf2img.py:222-248 | One document of tagged_pdf, with its page loop, computes `TagAndExtract`. |
| Batch.ReadTextLayer | pdf2img.py:235-240 | The page loop reads the text layer of every page in order. The first page that cannot be read ends it with that error. |
| Batch.TaggedPdf | pdf2img.py:205-257 | The driver with its loop computes `FolderRun` for the text-layer pipeline. |
| BatchProperties.OwnerIsDetermined | pdf2img.py:228-229 | Any artifact path names its document's base name, so documents with different base names never share an artifact. |
| BatchProperties.ImagesApartFromText | pdf2img.py:188-189 | A document's page images are never its text file. |
| BatchProperties.TaggedApartFromText | pdf2img.py:228-229 | A document's tagged PDF is never its text file. |
| BatchProperties.TaggedOutputChoice | pdf2img.py:230-233 | What tagged_pdf saves: on a detection failure, that error; for a tagged source, the source itself; for an untagged one, the output of the re-OCR tool or its error. |
| BatchProperties.TagAndExtractEffect | pdf2img.py:228-243 | One tagged_pdf document writes at most its tagged PDF and its text file. If nothing could be saved, nothing is written. Otherwise the tagged file holds what was saved. A failed document leaves its text file as it was. |
| BatchProperties.TaggedBranch | pdf2img.py:230-233 | A tagged PDF is copied verbatim. An untagged one is replaced by the re-OCR output. A detection or re-OCR failure fails the document with that error and writes nothing. |
| BatchProperties.RunDocumentConfined | pdf2img.py:181-194 | One document's step writes only that document's own artifacts. |
| BatchProperties.RunBatchConfined | pdf2img.py:181-194 | A run writes only artifacts of the documents it was given. |
| BatchProperties.RunBatchSplit | pdf2img.py:181-194 | Running a list is running its first m documents, then the rest on the file system they left, with the two reports concatenated. |
| BatchProperties.RunBatchReportsEveryDocument | pdf2img.py:181-194 | The report has exactly one entry per document, in order. Entry i names document i and reports the outcome it had on the file system that documents 1..i-1 left, whether it completed or failed. |
| BatchProperties.EarlierArtifactsSurvive | pdf2img.py:192-194 | Once a document is processed, its artifacts stay as it left them whatever later documents do, failures included, provided no later document has the same base name. |
| BatchProperties.GlobbedDocumentsKeepArtifacts | pdf2img.py:176-194 | Documents that a glob finds in one directory have distinct base names, so every document's artifacts survive the rest of the run. |
| BatchProperties.BatchPreconditions | pdf2img.py:169-178 | An input directory of `None`, the default, makes `os.path.exists` raise `TypeError`; the run reports it as an unexpected error (pdf2img.py:202-203) and stops having changed nothing. A missing input directory is reported and the run stops having changed nothing. With non-empty output directory names and no PDF, the run reports that and stops, having created its output directories (pdf2img.py:212-213) and written no file. Both drivers behave alike. |
| BatchProperties.EmptyOutputDirAborts | pdf2img.py:173 | An empty output directory name makes `os.makedirs` raise `FileNotFoundError`. The run reports it (pdf2img.py:198-199) and stops before looking for PDFs, having written no file. Of tagged_pdf's two directories, created in order (pdf2img.py:212-213), the first is left created when only the second name is empty. |
| BatchProperties.CountIsDocumentsDiscovered | pdf2img.py:181-196 | For N >= 1 documents and non-empty output directory names, the run reports each document once, in order, with the outcome it had after the documents before it, and then the count N: documents discovered, not documents converted. |
| BatchProperties.FailedDocumentLeavesNoTranscript | pdf2img.py:182-194 | In either driver, a document that fails leaves its text file as it was before. |
| BatchProperties.RasterOcrCompletion | pdf2img.py:182-190 | A process_pdfs_in_folder document completes exactly when its file yields at least one page, the text directory name is not empty, and every page is recognised. Its text file then holds the transcript of the recognised texts. |
| BatchProperties.TextLayerCompletion | pdf2img.py:235-244 | A tagged_pdf document completes exactly when something was saved, that file opens, and every page's text layer is read. Its text file then holds those texts in page order, joined with plain newlines. |

## Left out

- `trial.py` is not part of this model. It holds network calls to language-model services and credential loading, none of it deterministic.
- Rasterisation, OCR, catalog parsing, `ocrmypdf` and `pdfplumber` are not modelled: they are foreign libraries. They are the `Backend` functions, on which nothing is assumed beyond returning a value or an error. Only the 300 dpi setting (passed to `rasterize`) and the language string `chi_tra+chi_sim+eng` (passed to `reOcr`) appear as constants. The same language string and the `--psm 11` configuration of the pytesseract call are part of what `ocr` stands for.
- JPEG encoding, `quality=100` and UTF-8 encoding are not modelled. A file's content records how it was produced: a picture in a named format, or text.
- The commented-out table-reconstruction block at pdf2img.py:92-131 is dead code and is left out. The Tesseract `--psm 11` configuration string is a detail of the OCR library.
- `print`, `time.time` and the `__main__` block are left out. Console reporting is a log of `Document(path, outcome)`, `Processed(n)` and `Aborted(error)` entries.
- `glob` ordering and directory listing are not modelled. The PDF list is an input sequence.
- Of the failures of `os.makedirs`, only the empty path is modelled (`FileNotFoundError`). A directory path that is a file, missing permissions and a full disk are not modelled, and neither are failures of file writes: they depend on the operating system. Otherwise `os.makedirs` is an idempotent "add to the set of directories", and a write always succeeds.
- The file system never holds the empty path, as `os.path.exists('')` is false; the model does not enforce it.
- The message of the `TypeError` that `os.path.exists(None)` raises is the one current CPython gives (`Batch.NotAPath`); other versions word it differently.
- `ocrmypdf.ocr` failing after writing part of its output file is not modelled: in the model, a failed re-OCR writes nothing.
- `page.extract_text()` returning `None` makes the source's `"\n".join` raise `TypeError`. The model folds this into `extractText` returning an error for that page.
- Operating-system error messages are not modelled beyond the classes the handlers distinguish. The model's messages use plain quotes around the path, not Python's `repr` quoting.
- Concurrency is left out: the code is sequential.
- That `is_pdf_tagged` runs once per document is structural only. `Batch.TaggedOutput` consults the detection exactly once, and there is no lemma about it.
- Transcripts.TranscriptPageAt: says where each page's marker sits in the transcript. It makes no claim that the marker text appears nowhere else, since recognised page text may itself contain `--- Page n ---`.
