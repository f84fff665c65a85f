/**
 * The A4 paginator of src/services/pdf.ts: a canvas of `canvasWidth` x
 * `canvasHeight` pixels is scaled to the 200 mm content width and either
 * placed on one page or cut into page-high slices, one image per page.
 * JavaScript numbers are exact reals here; the canvas library, the PNG
 * encoding and the jsPDF object are reduced to the list of placed images.
 * Also the download-name and data-URL helpers.
 */
module Pdf {
  import opened Wrappers
  import opened Text

  const PageWidth: real := 210.0
  const PageHeight: real := 297.0
  const Margin: real := 5.0
  /** `pageWidth - margin * 2` */
  const ImgWidth: real := PageWidth - Margin * 2.0
  /** `pageHeight - margin * 2` */
  const ContentHeight: real := PageHeight - Margin * 2.0

  /** One `pdf.addImage(data, 'PNG', x, y, width, height)`, with the canvas rows it shows. */
  datatype Image = Image(x: real, y: real, width: real, height: real, sourceY: real, sourceHeight: real)

  /** `Math.ceil` */
  function Ceil(x: real): (r: int)
    ensures r as real - 1.0 < x <= r as real
  {
    -((-x).Floor)
  }

  function Min(a: real, b: real): (r: real)
    ensures r <= a && r <= b && (r == a || r == b)
  {
    if a <= b then a else b
  }

  /** The scaled image height in millimetres (pdf.ts:53). */
  function ImgHeight(canvasWidth: real, canvasHeight: real): (r: real)
    requires canvasWidth > 0.0 && canvasHeight >= 0.0
    ensures r >= 0.0 && (r == 0.0 <==> canvasHeight == 0.0)
  {
    (canvasHeight * ImgWidth) / canvasWidth
  }

  /** `Math.ceil(imgHeight / contentHeight)` */
  function TotalPages(imgHeight: real): int {
    Ceil(imgHeight / ContentHeight)
  }

  /** `position` on page `k`: it starts at 0 and grows by `contentHeight` per page (pdf.ts:60, 98). */
  function Position(k: nat): real {
    k as real * ContentHeight
  }

  /** `(position / imgHeight) * canvas.height` (pdf.ts:70) */
  function SourceY(imgHeight: real, canvasHeight: real, k: nat): real
    requires imgHeight > 0.0
  {
    (Position(k) / imgHeight) * canvasHeight
  }

  /** `Math.min((contentHeight / imgHeight) * canvas.height, canvas.height - sourceY)` (pdf.ts:71-74) */
  function SourceHeight(imgHeight: real, canvasHeight: real, k: nat): real
    requires imgHeight > 0.0
  {
    Min((ContentHeight / imgHeight) * canvasHeight, canvasHeight - SourceY(imgHeight, canvasHeight, k))
  }

  /** `Math.min(contentHeight, imgHeight - position)` (pdf.ts:77) */
  function DestHeight(imgHeight: real, k: nat): real {
    Min(ContentHeight, imgHeight - Position(k))
  }

  /** The image the loop places on page `k` (pdf.ts:95). */
  function Slice(imgHeight: real, canvasHeight: real, k: nat): Image
    requires imgHeight > 0.0
  {
    Image(Margin, Margin, ImgWidth, DestHeight(imgHeight, k),
          SourceY(imgHeight, canvasHeight, k), SourceHeight(imgHeight, canvasHeight, k))
  }

  /** The first `n` pages of a sliced document: page `k` holds slice `k`. */
  function SlicedPages(imgHeight: real, canvasHeight: real, n: nat): (pages: seq<seq<Image>>)
    requires imgHeight > 0.0
    ensures |pages| == n && forall k :: 0 <= k < n ==> pages[k] == [Slice(imgHeight, canvasHeight, k)]
  {
    if n == 0 then [] else SlicedPages(imgHeight, canvasHeight, n - 1) + [[Slice(imgHeight, canvasHeight, n - 1)]]
  }

  /** The pages of the finished document, each the images placed on it, in order. */
  function Document(canvasWidth: real, canvasHeight: real): (pages: seq<seq<Image>>)
    requires canvasWidth > 0.0 && canvasHeight >= 0.0
    ensures ImgHeight(canvasWidth, canvasHeight) <= ContentHeight ==> |pages| == 1
    ensures ImgHeight(canvasWidth, canvasHeight) > ContentHeight ==>
              |pages| == TotalPages(ImgHeight(canvasWidth, canvasHeight)) && |pages| >= 2
    // every page carries exactly one image, at the margin and the full content width
    ensures forall p :: 0 <= p < |pages| ==>
              |pages[p]| == 1 && pages[p][0].x == Margin && pages[p][0].y == Margin &&
              pages[p][0].width == ImgWidth
  {
    var imgHeight := ImgHeight(canvasWidth, canvasHeight);
    if imgHeight <= ContentHeight then
      [[Image(Margin, Margin, ImgWidth, imgHeight, 0.0, canvasHeight)]]
    else
      SlicedPages(imgHeight, canvasHeight, TotalPages(imgHeight))
  }

  /**
   * `elementToPdf` from the scaled size on (pdf.ts:48-100): a jsPDF document starts with one
   * empty page, `addPage` appends one, `addImage` draws on the last.
   */
  method ElementToPdf(canvasWidth: real, canvasHeight: real) returns (pages: seq<seq<Image>>)
    requires canvasWidth > 0.0 && canvasHeight >= 0.0
    ensures pages == Document(canvasWidth, canvasHeight)
  {
    var imgHeight := (canvasHeight * ImgWidth) / canvasWidth;
    pages := [[]];
    if imgHeight <= ContentHeight {
      var image := Image(Margin, Margin, ImgWidth, imgHeight, 0.0, canvasHeight);
      assert pages[0] + [image] == [image];
      pages := [pages[0] + [image]];
      ShortDocument(canvasWidth, canvasHeight);
    } else {
      pages := AddSlices(imgHeight, canvasHeight, pages);
    }
  }

  /** The multi-page branch: one page per `contentHeight` of image, `position` advancing by it. */
  method AddSlices(imgHeight: real, canvasHeight: real, blank: seq<seq<Image>>) returns (pages: seq<seq<Image>>)
    requires imgHeight > ContentHeight && blank == [[]]
    ensures pages == SlicedPages(imgHeight, canvasHeight, TotalPages(imgHeight))
  {
    pages := blank;
    var position := 0.0;
    var totalPages := Ceil(imgHeight / ContentHeight);
    for page := 0 to totalPages
      invariant position == Position(page)
      invariant page == 0 ==> pages == [[]]
      invariant page > 0 ==> pages == SlicedPages(imgHeight, canvasHeight, page)
    {
      ghost var done := SlicedPages(imgHeight, canvasHeight, page);
      if page > 0 {
        pages := pages + [[]];
      }
      assert pages == done + [[]];
      var sourceY := (position / imgHeight) * canvasHeight;
      var sourceHeight := Min((ContentHeight / imgHeight) * canvasHeight, canvasHeight - sourceY);
      var destHeight := Min(ContentHeight, imgHeight - position);
      var image := Image(Margin, Margin, ImgWidth, destHeight, sourceY, sourceHeight);
      SliceFormula(imgHeight, canvasHeight, page, position);
      var last := |pages| - 1;
      assert pages[..last] == done && pages[last] == [] && [] + [image] == [image];
      pages := pages[..last] + [pages[last] + [image]];
      assert SlicedPages(imgHeight, canvasHeight, page + 1) == done + [[Slice(imgHeight, canvasHeight, page)]];
      position := position + ContentHeight;
    }
  }

  /** The loop's own computation of page `k`'s image is `Slice`. */
  lemma SliceFormula(imgHeight: real, canvasHeight: real, k: nat, position: real)
    requires imgHeight > 0.0 && position == Position(k)
    ensures Image(Margin, Margin, ImgWidth, Min(ContentHeight, imgHeight - position),
                  (position / imgHeight) * canvasHeight,
                  Min((ContentHeight / imgHeight) * canvasHeight, canvasHeight - (position / imgHeight) * canvasHeight))
            == Slice(imgHeight, canvasHeight, k)
  {
  }

  // ---------------------------------------------------------------------
  // properties of the slicing

  /** All placed images, page by page. */
  function Placed(pages: seq<seq<Image>>): (r: seq<Image>)
    ensures |r| == 0 <==> forall p :: 0 <= p < |pages| ==> pages[p] == []
  {
    if pages == [] then [] else Placed(pages[..|pages| - 1]) + pages[|pages| - 1]
  }

  function SumDest(images: seq<Image>): real {
    if images == [] then 0.0 else SumDest(images[..|images| - 1]) + images[|images| - 1].height
  }

  function SumSource(images: seq<Image>): real {
    if images == [] then 0.0 else SumSource(images[..|images| - 1]) + images[|images| - 1].sourceHeight
  }

  lemma ShortDocument(canvasWidth: real, canvasHeight: real)
    requires canvasWidth > 0.0 && canvasHeight >= 0.0
    requires ImgHeight(canvasWidth, canvasHeight) <= ContentHeight
    ensures Document(canvasWidth, canvasHeight) ==
            [[Image(Margin, Margin, ImgWidth, ImgHeight(canvasWidth, canvasHeight), 0.0, canvasHeight)]]
  {
    var doc := Document(canvasWidth, canvasHeight);
    assert doc[0] == [Image(Margin, Margin, ImgWidth, ImgHeight(canvasWidth, canvasHeight), 0.0, canvasHeight)];
  }

  /** A short image is placed whole on the one page at (5, 5), 200 mm wide (pdf.ts:56-57). */
  lemma SinglePage(canvasWidth: real, canvasHeight: real)
    requires canvasWidth > 0.0 && canvasHeight >= 0.0
    requires ImgHeight(canvasWidth, canvasHeight) <= 287.0
    ensures Document(canvasWidth, canvasHeight) ==
            [[Image(5.0, 5.0, 200.0, canvasHeight * 200.0 / canvasWidth, 0.0, canvasHeight)]]
  {
    ShortDocument(canvasWidth, canvasHeight);
  }

  /** How the page count brackets the height: all pages but the last are full. */
  lemma PageCountBounds(imgHeight: real)
    requires imgHeight > 0.0
    ensures TotalPages(imgHeight) >= 1
    ensures Position(TotalPages(imgHeight) - 1) < imgHeight <= Position(TotalPages(imgHeight))
  {
    var n := TotalPages(imgHeight);
    assert (n - 1) as real < imgHeight / ContentHeight <= n as real;
  }

  /** Page `k` of `n` shows a full page height except the last, which shows the rest. */
  lemma {:induction false} DestHeightAt(imgHeight: real, k: nat)
    requires imgHeight > ContentHeight && k < TotalPages(imgHeight)
    ensures k + 1 < TotalPages(imgHeight) ==> DestHeight(imgHeight, k) == ContentHeight
    ensures k + 1 == TotalPages(imgHeight) ==> DestHeight(imgHeight, k) == imgHeight - Position(k)
    ensures 0.0 < DestHeight(imgHeight, k) <= ContentHeight
  {
    PageCountBounds(imgHeight);
  }

  /** The source slice is the destination slice scaled back by `canvas.height / imgHeight`. */
  lemma {:induction false} SourceIsScaledDest(imgHeight: real, canvasHeight: real, k: nat)
    requires imgHeight > 0.0 && canvasHeight > 0.0
    ensures SourceY(imgHeight, canvasHeight, k) == (canvasHeight / imgHeight) * Position(k)
    ensures SourceHeight(imgHeight, canvasHeight, k) == (canvasHeight / imgHeight) * DestHeight(imgHeight, k)
  {
    var scale := canvasHeight / imgHeight;
    var position := Position(k);
    assert (position / imgHeight) * canvasHeight == scale * position;
    assert (ContentHeight / imgHeight) * canvasHeight == scale * ContentHeight;
    assert canvasHeight == scale * imgHeight;
    assert canvasHeight - scale * position == scale * (imgHeight - position);
    ScaleMin(scale, ContentHeight, imgHeight - position);
  }

  lemma ScaleMin(c: real, a: real, b: real)
    requires c > 0.0
    ensures Min(c * a, c * b) == c * Min(a, b)
  {
    if a <= b {
      assert c * a <= c * b;
    } else {
      assert c * b < c * a;
    }
  }

  /** Consecutive slices are contiguous, and the last one ends at the bottom of the canvas (pdf.ts:70-74, 98). */
  lemma Contiguous(imgHeight: real, canvasHeight: real, k: nat)
    requires imgHeight > ContentHeight && canvasHeight > 0.0 && k < TotalPages(imgHeight)
    ensures k + 1 < TotalPages(imgHeight) ==>
              SourceY(imgHeight, canvasHeight, k + 1) ==
              SourceY(imgHeight, canvasHeight, k) + SourceHeight(imgHeight, canvasHeight, k)
    ensures k + 1 == TotalPages(imgHeight) ==>
              SourceY(imgHeight, canvasHeight, k) + SourceHeight(imgHeight, canvasHeight, k) == canvasHeight
  {
    var scale := canvasHeight / imgHeight;
    var n := TotalPages(imgHeight);
    DestHeightAt(imgHeight, k);
    SourceIsScaledDest(imgHeight, canvasHeight, k);
    var d := DestHeight(imgHeight, k);
    if k + 1 < n {
      SourceIsScaledDest(imgHeight, canvasHeight, k + 1);
      assert Position(k) + d == Position(k + 1);
      Distribute(scale, Position(k), d, Position(k + 1));
    } else {
      assert Position(k) + d == imgHeight;
      Distribute(scale, Position(k), d, imgHeight);
      ScaleBack(scale, imgHeight, canvasHeight);
    }
  }

  /** Each source slice starts inside the canvas and does not run past its bottom (pdf.ts:71-74). */
  lemma SliceInCanvas(imgHeight: real, canvasHeight: real, k: nat)
    requires imgHeight > ContentHeight && canvasHeight > 0.0 && k < TotalPages(imgHeight)
    ensures 0.0 <= SourceY(imgHeight, canvasHeight, k) < canvasHeight
    ensures 0.0 < SourceHeight(imgHeight, canvasHeight, k) <= canvasHeight - SourceY(imgHeight, canvasHeight, k)
  {
    var scale := canvasHeight / imgHeight;
    PageCountBounds(imgHeight);
    DestHeightAt(imgHeight, k);
    SourceIsScaledDest(imgHeight, canvasHeight, k);
    var rest := imgHeight - Position(k);
    assert rest > 0.0;
    assert canvasHeight - scale * Position(k) == scale * rest;
    assert scale * rest > 0.0;
    assert scale * DestHeight(imgHeight, k) > 0.0;
    assert scale * DestHeight(imgHeight, k) <= scale * rest;
  }

  /** The first `n` slices, in page order. */
  function Slices(imgHeight: real, canvasHeight: real, n: nat): (r: seq<Image>)
    requires imgHeight > 0.0
    ensures |r| == n
  {
    if n == 0 then [] else Slices(imgHeight, canvasHeight, n - 1) + [Slice(imgHeight, canvasHeight, n - 1)]
  }

  lemma {:induction false} SliceAt(imgHeight: real, canvasHeight: real, n: nat, k: nat)
    requires imgHeight > 0.0 && k < n
    ensures Slices(imgHeight, canvasHeight, n)[k] == Slice(imgHeight, canvasHeight, k)
  {
    if k < n - 1 {
      SliceAt(imgHeight, canvasHeight, n - 1, k);
    }
  }

  lemma {:induction false} PlacedSlices(imgHeight: real, canvasHeight: real, n: nat)
    requires imgHeight > 0.0
    ensures Placed(SlicedPages(imgHeight, canvasHeight, n)) == Slices(imgHeight, canvasHeight, n)
  {
    if n > 0 {
      var pages := SlicedPages(imgHeight, canvasHeight, n);
      var init := SlicedPages(imgHeight, canvasHeight, n - 1);
      assert pages == init + [[Slice(imgHeight, canvasHeight, n - 1)]];
      assert pages[..n - 1] == init;
      PlacedSlices(imgHeight, canvasHeight, n - 1);
      assert Slices(imgHeight, canvasHeight, n) ==
             Slices(imgHeight, canvasHeight, n - 1) + [Slice(imgHeight, canvasHeight, n - 1)];
    }
  }

  /** The first `j` full pages show `j` page heights. */
  lemma {:induction false} SumDestFull(imgHeight: real, canvasHeight: real, j: nat)
    requires imgHeight > ContentHeight && j < TotalPages(imgHeight)
    ensures SumDest(Slices(imgHeight, canvasHeight, j)) == Position(j)
  {
    if j > 0 {
      var all := Slices(imgHeight, canvasHeight, j);
      var init := Slices(imgHeight, canvasHeight, j - 1);
      assert all == init + [Slice(imgHeight, canvasHeight, j - 1)];
      assert all[..j - 1] == init;
      SumDestFull(imgHeight, canvasHeight, j - 1);
      DestHeightAt(imgHeight, j - 1);
      assert SumDest(all) == SumDest(init) + DestHeight(imgHeight, j - 1);
    }
  }

  /** A slice's source height is its destination height scaled by `canvas.height / imgHeight`. */
  lemma SliceScaled(imgHeight: real, canvasHeight: real, k: nat)
    requires imgHeight > 0.0 && canvasHeight > 0.0
    ensures Slice(imgHeight, canvasHeight, k).sourceHeight == (canvasHeight / imgHeight) * Slice(imgHeight, canvasHeight, k).height
  {
    SourceIsScaledDest(imgHeight, canvasHeight, k);
  }

  /** Every image's source height is its destination height scaled by `c`. */
  predicate AllScaled(images: seq<Image>, c: real) {
    forall i :: 0 <= i < |images| ==> images[i].sourceHeight == c * images[i].height
  }

  lemma AllScaledAppend(images: seq<Image>, image: Image, c: real)
    requires AllScaled(images, c) && image.sourceHeight == c * image.height
    ensures AllScaled(images + [image], c)
  {
    var all := images + [image];
    forall i | 0 <= i < |all|
      ensures all[i].sourceHeight == c * all[i].height
    {
      if i < |images| {
        assert all[i] == images[i];
      }
    }
  }

  /** The slices of an image all carry the scale `canvas.height / imgHeight`. */
  lemma {:induction false} SlicesScaled(imgHeight: real, canvasHeight: real, n: nat)
    requires imgHeight > 0.0 && canvasHeight > 0.0
    ensures AllScaled(Slices(imgHeight, canvasHeight, n), canvasHeight / imgHeight)
  {
    if n > 0 {
      var init := Slices(imgHeight, canvasHeight, n - 1);
      var last := Slice(imgHeight, canvasHeight, n - 1);
      assert Slices(imgHeight, canvasHeight, n) == init + [last];
      SlicesScaled(imgHeight, canvasHeight, n - 1);
      SliceScaled(imgHeight, canvasHeight, n - 1);
      AllScaledAppend(init, last, canvasHeight / imgHeight);
    }
  }

  lemma Distribute(c: real, a: real, b: real, total: real)
    requires total == a + b
    ensures c * total == c * a + c * b
  {
  }

  /** Summing heights each scaled by `c` scales the sum by `c`. */
  lemma {:induction false} SumSourceScaled(images: seq<Image>, c: real)
    requires AllScaled(images, c)
    ensures SumSource(images) == c * SumDest(images)
  {
    if images != [] {
      var init := images[..|images| - 1];
      assert AllScaled(init, c) by {
        forall i | 0 <= i < |init|
          ensures init[i].sourceHeight == c * init[i].height
        {
          assert init[i] == images[i];
        }
      }
      SumSourceScaled(init, c);
      Distribute(c, SumDest(init), images[|images| - 1].height, SumDest(images));
    }
  }

  /** The destination heights of a tall image's slices add up to the image height. */
  lemma DestCoverage(imgHeight: real, canvasHeight: real)
    requires imgHeight > ContentHeight
    ensures SumDest(Slices(imgHeight, canvasHeight, TotalPages(imgHeight))) == imgHeight
  {
    var n := TotalPages(imgHeight);
    PageCountBounds(imgHeight);
    var all := Slices(imgHeight, canvasHeight, n);
    var init := Slices(imgHeight, canvasHeight, n - 1);
    assert all == init + [Slice(imgHeight, canvasHeight, n - 1)];
    assert all[..n - 1] == init;
    SumDestFull(imgHeight, canvasHeight, n - 1);
    DestHeightAt(imgHeight, n - 1);
    assert SumDest(all) == SumDest(init) + DestHeight(imgHeight, n - 1);
  }

  lemma ScaleBack(scale: real, whole: real, part: real)
    requires whole > 0.0 && scale == part / whole
    ensures scale * whole == part
  {
  }

  /** The slices of a tall image, summed. */
  lemma SlicesCoverage(imgHeight: real, canvasHeight: real)
    requires imgHeight > ContentHeight && canvasHeight > 0.0
    ensures SumDest(Slices(imgHeight, canvasHeight, TotalPages(imgHeight))) == imgHeight
    ensures SumSource(Slices(imgHeight, canvasHeight, TotalPages(imgHeight))) == canvasHeight
  {
    var all := Slices(imgHeight, canvasHeight, TotalPages(imgHeight));
    DestCoverage(imgHeight, canvasHeight);
    var scale := canvasHeight / imgHeight;
    SlicesScaled(imgHeight, canvasHeight, TotalPages(imgHeight));
    SumSourceScaled(all, scale);
    assert SumSource(all) == scale * imgHeight;
    ScaleBack(scale, imgHeight, canvasHeight);
  }

  /**
   * The destination heights add up to the scaled image height, and the source heights to the
   * canvas height: every row of the canvas is placed exactly once (pdf.ts:71-77, 95).
   */
  lemma Coverage(canvasWidth: real, canvasHeight: real)
    requires canvasWidth > 0.0 && canvasHeight >= 0.0
    ensures SumDest(Placed(Document(canvasWidth, canvasHeight))) == ImgHeight(canvasWidth, canvasHeight)
    ensures SumSource(Placed(Document(canvasWidth, canvasHeight))) == canvasHeight
  {
    var imgHeight := ImgHeight(canvasWidth, canvasHeight);
    var doc := Document(canvasWidth, canvasHeight);
    if imgHeight <= ContentHeight {
      assert doc[..0] == [];
    } else {
      PlacedSlices(imgHeight, canvasHeight, TotalPages(imgHeight));
      SlicesCoverage(imgHeight, canvasHeight);
    }
  }

  /** Every placed image fits one page, and is non-empty unless the canvas is (pdf.ts:56, 77). */
  lemma FitsPage(canvasWidth: real, canvasHeight: real, p: nat)
    requires canvasWidth > 0.0 && canvasHeight >= 0.0
    requires p < |Document(canvasWidth, canvasHeight)|
    ensures var img := Document(canvasWidth, canvasHeight)[p][0];
            img.height <= ContentHeight && (canvasHeight > 0.0 ==> img.height > 0.0)
  {
    var imgHeight := ImgHeight(canvasWidth, canvasHeight);
    if imgHeight > ContentHeight {
      DestHeightAt(imgHeight, p);
    }
  }

  // ---------------------------------------------------------------------
  // names and data URLs

  /** `fileName.endsWith(ext) ? fileName : fileName + ext` (pdf.ts:114, 129). */
  function DownloadName(fileName: string, ext: string): (r: string)
    ensures EndsWith(r, ext)
    ensures EndsWith(fileName, ext) ==> r == fileName
    ensures !EndsWith(fileName, ext) ==> r == fileName + ext
  {
    if EndsWith(fileName, ext) then fileName else fileName + ext
  }

  lemma DownloadNameIdempotent(fileName: string, ext: string)
    ensures DownloadName(DownloadName(fileName, ext), ext) == DownloadName(fileName, ext)
  {
  }

  /** `base64.split(',')[1]`: `None` stands for `undefined` when there is no comma (pdf.ts:142). */
  function PdfToBase64(dataUrl: string): Option<string> {
    Field(dataUrl, ',', 1)
  }

  /** The payload is the text between the first comma and the next one (or the end). */
  lemma PdfToBase64Payload(header: string, payload: string, rest: string)
    requires ',' !in header && ',' !in payload
    ensures PdfToBase64(header + "," + payload) == Some(payload)
    ensures PdfToBase64(header + "," + payload + "," + rest) == Some(payload)
  {
    SplitFront(header, ',', payload);
    SplitNone(payload, ',');
    assert header + "," + payload + "," + rest == header + [','] + (payload + [','] + rest);
    SplitFront(header, ',', payload + "," + rest);
    SplitFront(payload, ',', rest);
  }

  lemma PdfToBase64NoComma(s: string)
    requires ',' !in s
    ensures PdfToBase64(s).None?
  {
    SplitNone(s, ',');
  }
}
