/** Tag detection: does a PDF's document catalog declare it a Tagged PDF? The catalog
    entries consulted are /MarkInfo (whose /Marked flag says the document follows the
    Tagged PDF conventions, section 14.7.1 of ISO 32000-1) and /StructTreeRoot (the root of
    the logical structure tree, section 14.7.2 of ISO 32000-1). */
module TagDetection {
  import opened Paths
  import opened Storage

  /** The values a catalog entry can hold, as far as the comparison with True cares. */
  datatype PdfObject =
    | Boolean(b: bool)
    | Integer(i: int)
    | Real(r: real)
    | Name(name: string)
    | Other

  /** A document catalog: its keys, and the /MarkInfo dictionary when there is one. */
  datatype Catalog = Catalog(keys: set<string>, markInfo: Option<map<string, PdfObject>>)

  /** Python's `value == True` on the objects pypdf returns: booleans compare by value,
      and its integer and real objects are Python numbers, so 1 and 1.0 equal True. */
  predicate EqualsTrue(o: PdfObject)
  {
    match o
    case Boolean(b) => b
    case Integer(i) => i == 1
    case Real(r) => r == 1.0
    case _ => false
  }

  /** The decision of is_pdf_tagged: a non-empty MarkInfo whose /Marked equals True, or a
      /StructTreeRoot key in the catalog. */
  predicate IsTaggedCatalog(c: Catalog)
  {
    (c.markInfo.Some? && |c.markInfo.value| > 0
      && "/Marked" in c.markInfo.value && EqualsTrue(c.markInfo.value["/Marked"]))
    || "/StructTreeRoot" in c.keys
  }

  /** The two entries of the standard, without the code's emptiness test on MarkInfo. */
  ghost predicate DeclaresMarked(c: Catalog)
  {
    c.markInfo.Some? && "/Marked" in c.markInfo.value && EqualsTrue(c.markInfo.value["/Marked"])
  }

  /** The code's test agrees with the standard's two entries: the emptiness test on
      MarkInfo excludes nothing that the /Marked lookup would accept. */
  lemma TaggedIffMarkedOrStructured(c: Catalog)
    ensures IsTaggedCatalog(c) <==> DeclaresMarked(c) || "/StructTreeRoot" in c.keys
  {
    if DeclaresMarked(c) {
      assert "/Marked" in c.markInfo.value.Keys;
    }
  }

  /** With no MarkInfo, with one that lacks /Marked, or with /Marked false, only the
      structure tree root decides. */
  lemma UnmarkedDefersToStructTree(c: Catalog)
    requires c.markInfo.None? || "/Marked" !in c.markInfo.value
             || c.markInfo.value["/Marked"] == Boolean(false)
    ensures IsTaggedCatalog(c) == ("/StructTreeRoot" in c.keys)
  {
  }

  /** is_pdf_tagged(pdf_path): read the file, let the PDF reader find the catalog
      (`reader.trailer["/Root"]`), and decide. It changes nothing: it is a function of the
      file system. Reading and parsing are its only ways to fail, and their errors pass up
      unchanged. */
  function IsPdfTagged(fs: FileSystem, readCatalog: Content -> Result<Catalog>, pdf: Path): (r: Result<bool>)
    ensures r.Ok? <==> pdf in fs.files && readCatalog(fs.files[pdf]).Ok?
    ensures r.Ok? ==> r.value == IsTaggedCatalog(readCatalog(fs.files[pdf]).value)
    ensures r.Err? && pdf !in fs.files ==> r.error == fs.Read(pdf).error
    ensures r.Err? && pdf in fs.files ==> r.error == readCatalog(fs.files[pdf]).error
  {
    match fs.Read(pdf)
    case Err(e) => Err(e)
    case Ok(content) =>
      match readCatalog(content)
      case Err(e) => Err(e)
      case Ok(catalog) => Ok(IsTaggedCatalog(catalog))
  }
}
