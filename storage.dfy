/** The values the pipeline moves around: bytes, page images, file contents, the file
    system it reads and writes, and Python's exceptions as error values. */
module Storage {
  import opened Paths

  newtype Byte = x: int | 0 <= x < 256

  datatype Option<T> = None | Some(value: T)

  /** The exception classes that the handlers of pdf2img.py tell apart. */
  datatype ErrorKind =
    | FileNotFoundError
    | OSError      // any other operating-system error, such as IsADirectoryError
    | ValueError
    | IndexError
    | Exception    // every other class, among them the plain Exception the wrappers raise

  /** A raised exception: its class and str(e). */
  datatype Error = Error(kind: ErrorKind, message: string)

  datatype Result<T> = Ok(value: T) | Err(error: Error)

  /** One rasterised page. */
  datatype Image = Image(width: nat, height: nat, pixels: seq<Byte>)

  /** What a file holds, recorded by how it was produced: raw bytes (a PDF), an image saved
      in a named format, or text written with UTF-8 encoding. */
  datatype Content =
    | Bytes(data: seq<Byte>)
    | Picture(format: string, image: Image)
    | Utf8Text(text: string)

  /** str() of the FileNotFoundError the operating system raises for a path that names
      nothing. */
  function NoSuchFile(p: Path): (message: string)
  {
    "[Errno 2] No such file or directory: '" + p + "'"
  }

  /** The part of the file system the pipeline touches: the files with their contents,
      the directories, and the order in which files were written. */
  datatype FileSystem = FileSystem(files: map<Path, Content>, dirs: set<Path>, journal: seq<Path>)
  {
    /** os.path.exists */
    predicate Exists(p: Path)
    {
      p in files || p in dirs
    }

    /** os.makedirs(d, exist_ok=True): idempotent. */
    function MakeDir(d: Path): (after: FileSystem)
    {
      this.(dirs := dirs + {d})
    }

    /** os.makedirs(d, exist_ok=True): the directory is added, or is already there; the
        empty path names no directory at all, and creating it raises FileNotFoundError. */
    function MakeDirs(d: Path): (made: Result<FileSystem>)
    {
      if d == "" then Err(Error(FileNotFoundError, NoSuchFile(d))) else Ok(MakeDir(d))
    }

    /** Writing c to p: any earlier content is overwritten. */
    function Write(p: Path, c: Content): (after: FileSystem)
    {
      this.(files := files[p := c], journal := journal + [p])
    }

    /** open(p, "rb").read(), with the errors the operating system raises. */
    function Read(p: Path): (r: Result<Content>)
      ensures r.Ok? <==> p in files
      ensures r.Ok? ==> r.value == files[p]
      ensures r.Err? ==> r.error.kind == (if p in dirs then OSError else FileNotFoundError)
    {
      if p in files then Ok(files[p])
      else if p in dirs then Err(Error(OSError, "[Errno 21] Is a directory: '" + p + "'"))
      else Err(Error(FileNotFoundError, NoSuchFile(p)))
    }
  }

  /** p holds the same thing (or nothing) in both file systems. */
  predicate Unchanged(before: FileSystem, after: FileSystem, p: Path)
  {
    (p in before.files <==> p in after.files) && (p in before.files ==> before.files[p] == after.files[p])
  }
}
