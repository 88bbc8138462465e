/** The OCR extractor: it picks a reader by the upload's extension, renders
    each page of a PDF to a PNG next to the upload, runs OCR on it, joins the
    page texts under page markers and removes each rendered image again.

    The outside world appears as a `Disk` (the set of file paths that exist)
    and as `Tools`, the behaviour of ImageMagick, Tesseract and the PDF
    reader on a given path. */
module OcrExtraction {
  import opened RubyText

  // ------------------------------------------------------- File.extname

  /** The end of `s[..q]` once its trailing slashes are dropped. */
  function TrimSlashes(s: string, q: nat): (e: nat)
    requires q <= |s|
    ensures e <= q
    ensures forall k :: e <= k < q ==> s[k] == '/'
    ensures e == 0 || s[e - 1] != '/'
    decreases q
  {
    if q > 0 && s[q - 1] == '/' then TrimSlashes(s, q - 1) else q
  }

  /** The last index before `q` that holds `c`. */
  function LastBefore(s: string, c: char, q: nat): (r: Option<nat>)
    requires q <= |s|
    ensures r.None? ==> forall k :: 0 <= k < q ==> s[k] != c
    ensures r.Some? ==> r.value < q && s[r.value] == c
                        && forall k :: r.value < k < q ==> s[k] != c
    decreases q
  {
    if q == 0 then None
    else if s[q - 1] == c then Some(q - 1)
    else LastBefore(s, c, q - 1)
  }

  /** The first index in [i, q) that is not a dot, or q. */
  function SkipDots(s: string, i: nat, q: nat): (j: nat)
    requires i <= q <= |s|
    ensures i <= j <= q
    ensures forall k :: i <= k < j ==> s[k] == '.'
    ensures j == q || s[j] != '.'
    decreases q - i
  {
    if i < q && s[i] == '.' then SkipDots(s, i + 1, q) else i
  }

  /** Where the last path component of `s[..q]` begins. */
  function BaseStart(s: string, q: nat): (b: nat)
    requires q <= |s|
    ensures b <= q
    ensures forall k :: b <= k < q ==> s[k] != '/'
  {
    match LastBefore(s, '/', q)
    case None => 0
    case Some(k) => k + 1
  }

  /** `File.extname`: from the last dot of the last component (trailing
      slashes ignored) to its end, provided that dot is not one of the
      component's leading dots; "" when there is no such dot. A component
      that ends in a dot gives ".". */
  function ExtName(path: string): (r: string)
    ensures r == [] || (r[0] == '.' && '/' !in r && '.' !in r[1..])
  {
    var q := TrimSlashes(path, |path|);
    var b := BaseStart(path, q);
    var p := SkipDots(path, b, q);
    match LastBefore(path, '.', q)
    case Some(e) =>
      if e >= p then
        assert forall k :: 1 <= k < q - e ==> path[e..q][k] == path[e + k];
        path[e..q]
      else ""
    case None => ""
  }

  /** A name with a non-empty stem gets exactly the text after its last dot,
      dot included, as its extension. */
  lemma {:induction false} ExtNameOfSuffix(stem: string, x: string)
    requires 0 < |stem| && stem[|stem| - 1] != '/' && stem[|stem| - 1] != '.'
    requires '.' !in x && '/' !in x
    ensures ExtName(stem + "." + x) == "." + x
  {
    var path := stem + "." + x;
    var n := |stem|;
    assert path[|path| - 1] != '/';
    assert TrimSlashes(path, |path|) == |path|;
    assert path[n] == '.';
    assert forall k :: n < k < |path| ==> path[k] == x[k - n - 1];
    var dot := LastBefore(path, '.', |path|);
    assert dot == Some(n);
    var b := BaseStart(path, |path|);
    assert path[n - 1] == stem[n - 1];
    assert b <= n - 1;
    var p := SkipDots(path, b, |path|);
    assert p <= n - 1;
    assert path[n..] == "." + x;
  }

  /** The extension the extractor dispatches on: `File.extname` lower-cased.
      It is empty or a dot followed by a last-component suffix with no
      further dot, and no ASCII capital is left in it. */
  function FileExtension(path: string): (r: string)
    ensures |r| == |ExtName(path)|
    ensures r == [] || (r[0] == '.' && '/' !in r && '.' !in r[1..])
    ensures forall k :: 0 <= k < |r| ==> !('A' <= r[k] <= 'Z')
  {
    Downcase(ExtName(path))
  }

  /** Upper- and lower-case extensions name the same reader. */
  lemma {:induction false} FileExtensionOfSuffix(stem: string, x: string)
    requires 0 < |stem| && stem[|stem| - 1] != '/' && stem[|stem| - 1] != '.'
    requires '.' !in x && '/' !in x
    ensures FileExtension(stem + "." + x) == "." + Downcase(x)
  {
    ExtNameOfSuffix(stem, x);
    assert forall k :: 0 < k < |x| + 1 ==> ("." + x)[k] == x[k - 1];
  }

  // --------------------------------------------------------- dispatch

  datatype Route = PdfRoute | ImageRoute | UnsupportedRoute

  const ImageExtensions: seq<string> := [".jpg", ".jpeg", ".png", ".tiff", ".bmp"]

  /** The `case` in `extract`: ".pdf" is a PDF, the five image extensions
      are images, everything else is unsupported. Every extension that is
      routed somewhere is a dot and three or four lower-case letters, so
      only an extension already lower-cased can match. */
  function RouteOf(ext: string): (r: Route)
    ensures r == PdfRoute <==> ext == ".pdf"
    ensures r == ImageRoute <==> ext != ".pdf" && exists i :: 0 <= i < |ImageExtensions| && ext == ImageExtensions[i]
    ensures r != UnsupportedRoute ==>
              4 <= |ext| <= 5 && ext[0] == '.' && forall k :: 1 <= k < |ext| ==> 'a' <= ext[k] <= 'z'
  {
    if ext == ".pdf" then PdfRoute
    else if ext in ImageExtensions then ImageRoute
    else UnsupportedRoute
  }

  /** Whatever the case of its letters, an upload is routed as its
      lower-cased suffix is: ".pdf" as a PDF, each image extension as an
      image; a name without a dot is not supported. */
  lemma {:induction false} RouteIgnoresCase(stem: string, x: string)
    requires 0 < |stem| && stem[|stem| - 1] != '/' && stem[|stem| - 1] != '.'
    requires '.' !in x && '/' !in x
    ensures RouteOf(FileExtension(stem + "." + x)) == RouteOf("." + Downcase(x))
    ensures Downcase(x) == "pdf" ==> RouteOf(FileExtension(stem + "." + x)) == PdfRoute
    ensures forall i :: 0 <= i < |ImageExtensions| && "." + Downcase(x) == ImageExtensions[i] ==>
              RouteOf(FileExtension(stem + "." + x)) == ImageRoute
  {
    FileExtensionOfSuffix(stem, x);
  }

  lemma {:induction false} NoDotUnsupported(path: string)
    requires '.' !in path
    ensures FileExtension(path) == ""
    ensures RouteOf(FileExtension(path)) == UnsupportedRoute
  {
    var q := TrimSlashes(path, |path|);
    assert LastBefore(path, '.', q).None?;
  }

  // ------------------------------------------------- the outside world

  /** The result of a call that may raise. */
  datatype Outcome<T> = Ok(value: T) | Raise(msg: string)

  /** What the external programs do with a given path:
      `pageCount` is `MiniMagick::Image.open(path).pages.length`,
      `renders` says whether `convert -density 300 spec out` succeeds when
      its input file exists, `ocr` is `RTesseract.new(path).to_s` and
      `readerPages` the page texts `PDF::Reader` finds. */
  datatype Tools = Tools(
    pageCount: string -> Outcome<nat>,
    renders: string -> bool,
    ocr: string -> Outcome<string>,
    readerPages: string -> Outcome<seq<string>>)

  /** The file system, as the set of paths that exist. */
  class Disk {
    var files: set<string>

    constructor(files: set<string>)
      ensures this.files == files
    {
      this.files := files;
    }

    /** `File.exist?` */
    predicate Exists(f: string)
      reads this
    {
      f in files
    }

    /** The output file of a successful `convert`. */
    method Create(f: string)
      modifies this
      ensures files == old(files) + {f}
    {
      files := files + {f};
    }

    /** `File.delete` */
    method Delete(f: string)
      modifies this
      ensures files == old(files) - {f}
    {
      files := files - {f};
    }
  }

  // ------------------------------------------------ rendering one page

  /** The heading put before every page's text. */
  function PageMarker(n: nat): string {
    "\n\n=== PAGE " + NatToString(n) + " ===\n\n"
  }

  /** `pdf_path.sub(".pdf", "_page#{page_num}.png")` */
  function RasterPath(pdfPath: string, page: nat): string {
    ReplaceFirst(pdfPath, ".pdf", "_page" + NatToString(page) + ".png")
  }

  /** `"#{pdf_path}[#{page_num}]"`, ImageMagick's way to name one page. */
  function InputSpec(pdfPath: string, page: nat): string {
    pdfPath + "[" + NatToString(page) + "]"
  }

  /** The files after `convert` has been asked to render one page. */
  function AfterConvert(tools: Tools, pdfPath: string, page: nat, files: set<string>): set<string> {
    if pdfPath in files && tools.renders(InputSpec(pdfPath, page))
    then files + {RasterPath(pdfPath, page)}
    else files
  }

  /** When the path names ".pdf" the raster image is a different, longer
      path; when it does not, `sub` changes nothing and the image would be
      written over the upload itself. */
  lemma {:induction false} RasterPathShape(pdfPath: string, page: nat)
    ensures FindFirst(pdfPath, ".pdf", 0).Some? ==>
              |RasterPath(pdfPath, page)| == |pdfPath| + 5 + |NatToString(page)|
    ensures FindFirst(pdfPath, ".pdf", 0).None? ==> RasterPath(pdfPath, page) == pdfPath
  {
  }

  lemma {:induction false} RasterPathDiffers(pdfPath: string, page: nat)
    requires FindFirst(pdfPath, ".pdf", 0).Some?
    ensures RasterPath(pdfPath, page) != pdfPath
  {
    RasterPathShape(pdfPath, page);
  }

  /** `convert_pdf_page_to_image`: asks `convert` for the page and hands
      back the output path exactly when a file exists there afterwards. */
  method ConvertPdfPageToImage(disk: Disk, tools: Tools, pdfPath: string, page: nat)
    returns (imagePath: Option<string>)
    modifies disk
    ensures disk.files == AfterConvert(tools, pdfPath, page, old(disk.files))
    ensures imagePath.Some? <==> RasterPath(pdfPath, page) in disk.files
    ensures imagePath.Some? ==> imagePath.value == RasterPath(pdfPath, page)
  {
    var outputPath := RasterPath(pdfPath, page);
    var inputSpec := InputSpec(pdfPath, page);
    if disk.Exists(pdfPath) && tools.renders(inputSpec) {
      disk.Create(outputPath);
    }
    if disk.Exists(outputPath) {
      imagePath := Some(outputPath);
    } else {
      imagePath := None;
    }
  }

  // ------------------------------------------------- the page-by-page OCR

  /** Where the OCR of a PDF stands after some pages: still running with the
      text so far, or stopped by the OCR of page `page` raising. */
  datatype PdfState =
    | Running(text: string, files: set<string>)
    | Failed(page: nat, msg: string, files: set<string>)

  /** One turn of the page loop. */
  function PageStep(tools: Tools, pdfPath: string, st: PdfState, page: nat): PdfState {
    match st
    case Failed(_, _, _) => st
    case Running(text, files) =>
      var out := RasterPath(pdfPath, page);
      var converted := AfterConvert(tools, pdfPath, page, files);
      if out !in converted then Running(text, converted)
      else match tools.ocr(out)
        case Raise(m) => Failed(page, m, converted)
        case Ok(pageText) => Running(text + PageMarker(page + 1) + pageText, converted - {out})
  }

  /** The state after the first `n` pages. */
  function PdfUpTo(tools: Tools, pdfPath: string, files0: set<string>, n: nat): PdfState
    decreases n
  {
    if n == 0 then Running("", files0)
    else PageStep(tools, pdfPath, PdfUpTo(tools, pdfPath, files0, n - 1), n - 1)
  }

  /** `extract_from_pdf`: the text and the files it leaves behind. */
  function PdfResult(tools: Tools, pdfPath: string, files0: set<string>): (string, set<string>) {
    match tools.pageCount(pdfPath)
    case Raise(m) => ("Error: " + m, files0)
    case Ok(n) =>
      match PdfUpTo(tools, pdfPath, files0, n)
      case Running(text, files) => (text, files)
      case Failed(_, m, files) => ("Error: " + m, files)
  }

  /** Once a page has raised, later pages change nothing. */
  lemma {:induction false} FailedStays(tools: Tools, pdfPath: string, files0: set<string>, k: nat, n: nat)
    requires k <= n
    requires PdfUpTo(tools, pdfPath, files0, k).Failed?
    ensures PdfUpTo(tools, pdfPath, files0, n) == PdfUpTo(tools, pdfPath, files0, k)
    decreases n - k
  {
    if k < n {
      FailedStays(tools, pdfPath, files0, k, n - 1);
    }
  }

  /** What the page loop leaves on disk after `n` pages: while it runs,
      only files that were there before; when a page's OCR has raised, that
      page's image is left behind and is the only new file; and no file is
      removed unless it is the raster path of a page already seen. */
  ghost predicate FilesKept(tools: Tools, pdfPath: string, files0: set<string>, n: nat, st: PdfState) {
    && (st.Running? ==> st.files <= files0)
    && (st.Failed? ==> && st.page < n
                       && RasterPath(pdfPath, st.page) in st.files
                       && st.files <= files0 + {RasterPath(pdfPath, st.page)}
                       && tools.ocr(RasterPath(pdfPath, st.page)) == Raise(st.msg))
    && forall f :: f in files0 && f !in RasterPaths(pdfPath, n) ==> f in st.files
  }

  lemma {:induction false} FilesKeptStep(tools: Tools, pdfPath: string, files0: set<string>, n: nat, st: PdfState)
    requires FilesKept(tools, pdfPath, files0, n, st)
    ensures FilesKept(tools, pdfPath, files0, n + 1, PageStep(tools, pdfPath, st, n))
  {
    assert RasterPaths(pdfPath, n + 1) == RasterPaths(pdfPath, n) + {RasterPath(pdfPath, n)};
  }

  lemma {:induction false} PdfFiles(tools: Tools, pdfPath: string, files0: set<string>, n: nat)
    ensures FilesKept(tools, pdfPath, files0, n, PdfUpTo(tools, pdfPath, files0, n))
    decreases n
  {
    if n > 0 {
      PdfFiles(tools, pdfPath, files0, n - 1);
      FilesKeptStep(tools, pdfPath, files0, n - 1, PdfUpTo(tools, pdfPath, files0, n - 1));
    }
  }

  /** A page that renders and reads adds its marker and text, and its image
      is gone again afterwards. */
  lemma {:induction false} ReadStep(tools: Tools, pdfPath: string, text: string, files: set<string>, page: nat)
    requires pdfPath in files && FindFirst(pdfPath, ".pdf", 0).Some?
    requires tools.renders(InputSpec(pdfPath, page)) && tools.ocr(RasterPath(pdfPath, page)).Ok?
    ensures PageStep(tools, pdfPath, Running(text, files), page)
            == Running(text + (PageMarker(page + 1) + tools.ocr(RasterPath(pdfPath, page)).value),
                       files - {RasterPath(pdfPath, page)})
  {
    var out := RasterPath(pdfPath, page);
    assert AfterConvert(tools, pdfPath, page, files) == files + {out};
    assert files + {out} - {out} == files - {out};
  }

  /** The upload is never one of the images when its name holds ".pdf". */
  lemma {:induction false} UploadNotRaster(pdfPath: string, n: nat)
    requires FindFirst(pdfPath, ".pdf", 0).Some?
    ensures pdfPath !in RasterPaths(pdfPath, n)
    decreases n
  {
    if n > 0 {
      UploadNotRaster(pdfPath, n - 1);
      RasterPathDiffers(pdfPath, n - 1);
    }
  }

  /** When every page renders and reads, the text is every page's marker and
      text in page order, and exactly the images made on the way are gone. */
  lemma {:induction false} AllPagesRead(tools: Tools, pdfPath: string, files0: set<string>, n: nat)
    requires pdfPath in files0 && FindFirst(pdfPath, ".pdf", 0).Some?
    requires forall k :: 0 <= k < n ==> tools.renders(InputSpec(pdfPath, k))
    requires forall k :: 0 <= k < n ==> tools.ocr(RasterPath(pdfPath, k)).Ok?
    ensures PdfUpTo(tools, pdfPath, files0, n)
            == Running(Concat(OcrPages(tools, pdfPath, n)), files0 - RasterPaths(pdfPath, n))
    decreases n
  {
    if n > 0 {
      AllPagesRead(tools, pdfPath, files0, n - 1);
      UploadNotRaster(pdfPath, n - 1);
      var before := files0 - RasterPaths(pdfPath, n - 1);
      var text := Concat(OcrPages(tools, pdfPath, n - 1));
      ReadStep(tools, pdfPath, text, before, n - 1);
      assert before - {RasterPath(pdfPath, n - 1)} == files0 - RasterPaths(pdfPath, n);
      OcrPagesSnoc(tools, pdfPath, n);
    }
  }

  lemma {:induction false} OcrPagesSnoc(tools: Tools, pdfPath: string, n: nat)
    requires 0 < n
    requires forall k :: 0 <= k < n ==> tools.ocr(RasterPath(pdfPath, k)).Ok?
    ensures Concat(OcrPages(tools, pdfPath, n))
            == Concat(OcrPages(tools, pdfPath, n - 1))
               + (PageMarker(n) + tools.ocr(RasterPath(pdfPath, n - 1)).value)
  {
    var ps := OcrPages(tools, pdfPath, n);
    assert ps[..n - 1] == OcrPages(tools, pdfPath, n - 1);
  }

  /** Each page's marker followed by its OCR text. */
  function OcrPages(tools: Tools, pdfPath: string, n: nat): (ps: seq<string>)
    requires forall k :: 0 <= k < n ==> tools.ocr(RasterPath(pdfPath, k)).Ok?
    ensures |ps| == n
    ensures forall k :: 0 <= k < n ==> ps[k] == PageMarker(k + 1) + tools.ocr(RasterPath(pdfPath, k)).value
  {
    seq(n, k requires 0 <= k < n && tools.ocr(RasterPath(pdfPath, k)).Ok? =>
           PageMarker(k + 1) + tools.ocr(RasterPath(pdfPath, k)).value)
  }

  /** The raster paths of the first `n` pages. */
  function RasterPaths(pdfPath: string, n: nat): set<string>
    decreases n
  {
    if n == 0 then {} else RasterPaths(pdfPath, n - 1) + {RasterPath(pdfPath, n - 1)}
  }

  /** An upload whose name lacks ".pdf", say "scan.PDF", is rasterised onto
      itself: the first page's image replaces the upload, is read and is
      deleted, and every later page then finds no input. Only the first
      page's text survives, and the upload is gone. */
  lemma {:induction false} UpperCasePdfLosesUpload(tools: Tools, pdfPath: string, files0: set<string>, n: nat)
    requires pdfPath in files0 && FindFirst(pdfPath, ".pdf", 0).None?
    requires 1 <= n && tools.ocr(pdfPath).Ok?
    ensures PdfUpTo(tools, pdfPath, files0, n)
            == Running(PageMarker(1) + tools.ocr(pdfPath).value, files0 - {pdfPath})
    decreases n
  {
    RasterPathShape(pdfPath, n - 1);
    if n == 1 {
      RasterPathShape(pdfPath, 0);
      assert "" + PageMarker(1) + tools.ocr(pdfPath).value == PageMarker(1) + tools.ocr(pdfPath).value;
    } else {
      UpperCasePdfLosesUpload(tools, pdfPath, files0, n - 1);
    }
  }

  /** The same upload when Tesseract cannot read the file `convert` wrote
      over it: page 1 raises, the loop stops there and the upload stays. */
  lemma {:induction false} UpperCasePdfOcrFails(tools: Tools, pdfPath: string, files0: set<string>, n: nat)
    requires pdfPath in files0 && FindFirst(pdfPath, ".pdf", 0).None?
    requires 1 <= n && tools.ocr(pdfPath).Raise?
    ensures PdfUpTo(tools, pdfPath, files0, n) == Failed(0, tools.ocr(pdfPath).msg, files0)
  {
    RasterPathShape(pdfPath, 0);
    assert PdfUpTo(tools, pdfPath, files0, 1) == Failed(0, tools.ocr(pdfPath).msg, files0);
    FailedStays(tools, pdfPath, files0, 1, n);
  }

  /** What page `page` adds to the text when no OCR raises: its marker and
      OCR text when `convert` renders it, nothing when it does not. */
  function PagePiece(tools: Tools, pdfPath: string, page: nat): string
    requires tools.renders(InputSpec(pdfPath, page)) ==> tools.ocr(RasterPath(pdfPath, page)).Ok?
  {
    if tools.renders(InputSpec(pdfPath, page))
    then PageMarker(page + 1) + tools.ocr(RasterPath(pdfPath, page)).value
    else ""
  }

  /** The pieces of the first `n` pages, in page order. */
  function RenderedPages(tools: Tools, pdfPath: string, n: nat): (ps: seq<string>)
    requires forall k :: 0 <= k < n && tools.renders(InputSpec(pdfPath, k)) ==>
               tools.ocr(RasterPath(pdfPath, k)).Ok?
    ensures |ps| == n
    ensures forall k :: 0 <= k < n ==> ps[k] == PagePiece(tools, pdfPath, k)
  {
    seq(n, k requires 0 <= k < n && (tools.renders(InputSpec(pdfPath, k)) ==> tools.ocr(RasterPath(pdfPath, k)).Ok?) =>
           PagePiece(tools, pdfPath, k))
  }

  /** With no stale image on disk, one turn of the loop adds the page's
      piece and leaves the disk as it was. */
  lemma {:induction false} SkipOrReadStep(tools: Tools, pdfPath: string, files0: set<string>, text: string, page: nat)
    requires pdfPath in files0 && RasterPath(pdfPath, page) !in files0
    requires tools.renders(InputSpec(pdfPath, page)) ==> tools.ocr(RasterPath(pdfPath, page)).Ok?
    ensures PageStep(tools, pdfPath, Running(text, files0), page)
            == Running(text + PagePiece(tools, pdfPath, page), files0)
  {
    var out := RasterPath(pdfPath, page);
    if tools.renders(InputSpec(pdfPath, page)) {
      assert AfterConvert(tools, pdfPath, page, files0) == files0 + {out};
      assert files0 + {out} - {out} == files0;
    } else {
      assert AfterConvert(tools, pdfPath, page, files0) == files0;
      assert text + "" == text;
    }
  }

  /** When no page image is on disk beforehand and every page that renders
      also reads, the pages that do not render are skipped: the text is the
      marker and text of each rendered page, in page order, and the disk is
      left as it was. */
  lemma {:induction false} SomePagesRendered(tools: Tools, pdfPath: string, files0: set<string>, n: nat)
    requires pdfPath in files0
    requires forall k :: 0 <= k < n ==> RasterPath(pdfPath, k) !in files0
    requires forall k :: 0 <= k < n && tools.renders(InputSpec(pdfPath, k)) ==>
               tools.ocr(RasterPath(pdfPath, k)).Ok?
    ensures PdfUpTo(tools, pdfPath, files0, n) == Running(Concat(RenderedPages(tools, pdfPath, n)), files0)
    decreases n
  {
    if n > 0 {
      SomePagesRendered(tools, pdfPath, files0, n - 1);
      SkipOrReadStep(tools, pdfPath, files0, Concat(RenderedPages(tools, pdfPath, n - 1)), n - 1);
      RenderedPagesSnoc(tools, pdfPath, n);
    }
  }

  lemma {:induction false} RenderedPagesSnoc(tools: Tools, pdfPath: string, n: nat)
    requires 0 < n
    requires forall k :: 0 <= k < n && tools.renders(InputSpec(pdfPath, k)) ==>
               tools.ocr(RasterPath(pdfPath, k)).Ok?
    ensures Concat(RenderedPages(tools, pdfPath, n))
            == Concat(RenderedPages(tools, pdfPath, n - 1)) + PagePiece(tools, pdfPath, n - 1)
  {
    var ps := RenderedPages(tools, pdfPath, n);
    assert ps[..n - 1] == RenderedPages(tools, pdfPath, n - 1);
  }

  /** `extract_from_pdf`: counts the pages, then renders, reads and deletes
      one page at a time; the first error ends the loop. */
  method ExtractFromPdf(disk: Disk, tools: Tools, pdfPath: string) returns (r: string)
    modifies disk
    ensures (r, disk.files) == PdfResult(tools, pdfPath, old(disk.files))
  {
    ghost var files0 := disk.files;
    match tools.pageCount(pdfPath)
    case Raise(m) =>
      r := "Error: " + m;
    case Ok(n) =>
      var text := "";
      var page := 0;
      while page < n
        invariant page <= n
        invariant PdfUpTo(tools, pdfPath, files0, page) == Running(text, disk.files)
      {
        var imagePath := ConvertPdfPageToImage(disk, tools, pdfPath, page);
        if imagePath.Some? {
          match tools.ocr(imagePath.value)
          case Raise(m) =>
            FailedStays(tools, pdfPath, files0, page + 1, n);
            r := "Error: " + m;
            return;
          case Ok(pageText) =>
            text := text + PageMarker(page + 1) + pageText;
            if disk.Exists(imagePath.value) {
              disk.Delete(imagePath.value);
            }
        }
        page := page + 1;
      }
      r := text;
  }

  // ------------------------------------------------ the text layer

  /** The pieces `extract_text_from_pdf` appends: a marker before each page
      only when there is more than one page. */
  function TextPieces(pages: seq<string>): (ps: seq<string>)
    ensures |ps| == |pages|
    ensures |pages| > 1 ==> forall i :: 0 <= i < |pages| ==> ps[i] == PageMarker(i + 1) + pages[i]
    ensures |pages| <= 1 ==> ps == pages
  {
    if |pages| > 1 then seq(|pages|, i requires 0 <= i < |pages| => PageMarker(i + 1) + pages[i])
    else pages
  }

  /** `extract_text_from_pdf`: the embedded text of every page; "" when the
      reader raises. */
  method ExtractTextFromPdf(tools: Tools, pdfPath: string) returns (r: string)
    ensures tools.readerPages(pdfPath).Raise? ==> r == ""
    ensures tools.readerPages(pdfPath).Ok? ==> r == Concat(TextPieces(tools.readerPages(pdfPath).value))
  {
    match tools.readerPages(pdfPath)
    case Raise(_) =>
      r := "";
    case Ok(pages) =>
      var text := "";
      var index := 0;
      while index < |pages|
        invariant index <= |pages|
        invariant text == Concat(TextPieces(pages)[..index])
      {
        if |pages| > 1 {
          text := text + PageMarker(index + 1);
        }
        text := text + pages[index];
        assert TextPieces(pages)[..index + 1][..index] == TextPieces(pages)[..index];
        index := index + 1;
      }
      assert TextPieces(pages)[..|pages|] == TextPieces(pages);
      r := text;
  }

  /** A one-page document's text layer is that page's text, unmarked; with
      more pages, page i's text follows its own marker. */
  lemma {:induction false} TextLayerPages(pages: seq<string>, i: nat)
    requires i < |pages|
    ensures |pages| == 1 ==> Concat(TextPieces(pages)) == pages[0]
    ensures |pages| > 1 ==>
              var off := |Concat(TextPieces(pages)[..i])|;
              var piece := PageMarker(i + 1) + pages[i];
              && off + |piece| <= |Concat(TextPieces(pages))|
              && Concat(TextPieces(pages))[off..off + |piece|] == piece
  {
    if |pages| == 1 {
      assert TextPieces(pages)[..0] == [];
    } else {
      ConcatPiece(TextPieces(pages), i);
    }
  }

  // ------------------------------------------------------- images

  /** `extract_from_image`: the OCR text when Tesseract reads the image,
      otherwise "Error: " followed by the exception's message. */
  function ExtractFromImage(tools: Tools, imagePath: string): (r: string)
    ensures tools.ocr(imagePath).Ok? ==> r == tools.ocr(imagePath).value
    ensures tools.ocr(imagePath).Raise? ==>
              |r| == 7 + |tools.ocr(imagePath).msg| && r[..7] == "Error: " && r[7..] == tools.ocr(imagePath).msg
  {
    match tools.ocr(imagePath)
    case Ok(text) => text
    case Raise(m) => "Error: " + m
  }

  // ------------------------------------------------------- the service

  /** The extractor object: the upload's path and its lower-cased
      extension, fixed when it is made. */
  class OcrExtractor {
    const filePath: string
    const fileExtension: string

    constructor(filePath: string)
      ensures this.filePath == filePath
      ensures fileExtension == FileExtension(filePath)
    {
      this.filePath := filePath;
      this.fileExtension := FileExtension(filePath);
    }

    /** `extract`: PDFs are rasterised and read page by page, images are
        read directly, anything else gets a message naming the extension. */
    method Extract(disk: Disk, tools: Tools) returns (r: string)
      modifies disk
      ensures RouteOf(fileExtension) == PdfRoute ==>
                (r, disk.files) == PdfResult(tools, filePath, old(disk.files))
      ensures RouteOf(fileExtension) == ImageRoute ==>
                r == ExtractFromImage(tools, filePath) && disk.files == old(disk.files)
      ensures RouteOf(fileExtension) == UnsupportedRoute ==>
                r == "Unsupported file format: " + fileExtension && disk.files == old(disk.files)
    {
      match RouteOf(fileExtension)
      case PdfRoute =>
        r := ExtractFromPdf(disk, tools, filePath);
      case ImageRoute =>
        r := ExtractFromImage(tools, filePath);
      case UnsupportedRoute =>
        r := "Unsupported file format: " + fileExtension;
    }
  }
}
