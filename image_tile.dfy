/**
 * The tiled-image panel (UWPTiledImageSample/ImageTile.cs): `ArrangeOverride`
 * covers the panel with copies of a bitmap in column-major order, reusing the
 * existing child images by index, appending new ones and removing the surplus;
 * around it, the life cycle of the `sourceImage` child that opens the bitmap.
 *
 * Child images are opaque ids; `images` records, per id, the source the image
 * shows and the rectangle it was last arranged in.
 */
module TiledImage {
  import opened Wrappers

  type ImageId = nat

  /** A value of the `Source` property: a bitmap with its pixel size, or another kind of image source. */
  datatype ImageSource = Bitmap(handle: nat, pixelWidth: nat, pixelHeight: nat) | OtherSource(handle: nat)

  datatype Rect = Rect(x: nat, y: nat, width: nat, height: nat)

  /** The state of one `Image` element: its `Source` and its last `Arrange` rectangle. */
  datatype Image = Image(source: Option<ImageSource>, arranged: Option<Rect>)

  /** A handler that dereferences a null `sourceImage` throws instead of completing. */
  datatype HandlerOutcome = Completed | NullReference

  // ---------------------------------------------------------------------------
  // The tile grid

  /** The number of steps of `b` from 0 that stay below `a`: the least `q` with `q * b >= a`. */
  function CeilDiv(a: nat, b: nat): (q: nat)
    requires b > 0
    ensures q * b >= a
    ensures q > 0 ==> (q - 1) * b < a
    decreases a
  {
    if a == 0 then 0
    else if a <= b then 1
    else
      var q' := CeilDiv(a - b, b);
      assert (1 + q') * b == b + q' * b;
      1 + q'
  }

  lemma MulMonotone(x: nat, y: nat, b: nat)
    requires x <= y
    ensures x * b <= y * b
  {
    assert y * b == x * b + (y - x) * b;
  }

  lemma MulSucc(a: nat, b: nat)
    ensures (a + 1) * b == a * b + b
  {
  }

  /** For a positive factor, products compare as the other factors do. */
  lemma MulStrict(x: nat, y: nat, b: nat)
    requires b > 0
    ensures x < y <==> x * b < y * b
  {
    if x < y {
      MulMonotone(x + 1, y, b);
    } else {
      MulMonotone(y, x, b);
    }
  }

  /** `CeilDiv` is exactly the loop bound: `q * b < a` holds for the `q` below it and no other. */
  lemma {:induction false} CeilDivIsLeast(a: nat, b: nat, q: nat)
    requires b > 0
    ensures q * b < a <==> q < CeilDiv(a, b)
  {
    var c := CeilDiv(a, b);
    if q < c {
      MulMonotone(q, c - 1, b);
    } else {
      MulMonotone(c, q, b);
    }
  }

  /** The number of tiles of a `w`×`h` bitmap that `ArrangeOverride` places on a `width`×`height` panel. */
  function TileCount(width: nat, height: nat, w: nat, h: nat): nat
    requires w > 0 && h > 0
  {
    CeilDiv(width, w) * CeilDiv(height, h)
  }

  /** Tile `k` of a column-major grid with `rows` rows. */
  function TileRect(k: nat, rows: nat, w: nat, h: nat): Rect
    requires rows > 0
  {
    Rect((k / rows) * w, (k % rows) * h, w, h)
  }

  predicate Contains(r: Rect, px: nat, py: nat) {
    r.x <= px < r.x + r.width && r.y <= py < r.y + r.height
  }

  /** Euclidean division by a positive divisor, as the grid uses it. */
  lemma DivMod(k: nat, d: nat)
    requires d > 0
    ensures k == (k / d) * d + k % d && k % d < d
  {
  }

  lemma DivModOfGrid(col: nat, row: nat, rows: nat)
    requires row < rows
    ensures (col * rows + row) / rows == col
    ensures (col * rows + row) % rows == row
  {
    var k := col * rows + row;
    DivMod(k, rows);
    var q, r := k / rows, k % rows;
    MulStrict(q, col + 1, rows);
    MulStrict(col, q + 1, rows);
    assert (col + 1) * rows == col * rows + rows;
    assert (q + 1) * rows == q * rows + rows;
  }

  /** The tile at column `col` and row `row` is tile `col * rows + row`. */
  lemma {:induction false} TileRectOfGrid(col: nat, row: nat, rows: nat, w: nat, h: nat)
    requires row < rows
    ensures TileRect(col * rows + row, rows, w, h) == Rect(col * w, row * h, w, h)
  {
    DivModOfGrid(col, row, rows);
  }

  lemma PositiveFactor(x: nat, y: nat)
    requires x * y > 0
    ensures y > 0
  {
  }

  /** Every tile that `ArrangeOverride` places has its origin inside the panel. */
  lemma {:induction false} TileOriginInside(width: nat, height: nat, w: nat, h: nat, k: nat)
    requires w > 0 && h > 0 && k < TileCount(width, height, w, h)
    ensures CeilDiv(height, h) > 0
    ensures TileRect(k, CeilDiv(height, h), w, h).x < width
    ensures TileRect(k, CeilDiv(height, h), w, h).y < height
  {
    var cols, rows := CeilDiv(width, w), CeilDiv(height, h);
    PositiveFactor(cols, rows);
    var col, row := k / rows, k % rows;
    ColumnInRange(k, cols, rows);
    assert TileRect(k, rows, w, h) == Rect(col * w, row * h, w, h);
    CeilDivIsLeast(width, w, col);
    CeilDivIsLeast(height, h, row);
  }

  lemma ColumnInRange(k: nat, cols: nat, rows: nat)
    requires rows > 0 && k < cols * rows
    ensures k / rows < cols && k % rows < rows
  {
    DivMod(k, rows);
    MulStrict(k / rows, cols, rows);
  }

  lemma DivBounds(p: nat, w: nat)
    requires w > 0
    ensures (p / w) * w <= p < (p / w) * w + w
  {
    DivMod(p, w);
  }

  /** The tiles cover the panel: every pixel of it lies in some tile. */
  lemma {:induction false} TilesCoverPanel(width: nat, height: nat, w: nat, h: nat, px: nat, py: nat)
    requires w > 0 && h > 0 && px < width && py < height
    ensures CeilDiv(height, h) > 0
    ensures exists k :: 0 <= k < TileCount(width, height, w, h) && Contains(TileRect(k, CeilDiv(height, h), w, h), px, py)
  {
    var cols, rows := CeilDiv(width, w), CeilDiv(height, h);
    var col, row := px / w, py / h;
    assert col < cols && col * w <= px < col * w + w by {
      DivBounds(px, w);
      CeilDivIsLeast(width, w, col);
    }
    assert row < rows && row * h <= py < row * h + h by {
      DivBounds(py, h);
      CeilDivIsLeast(height, h, row);
    }
    var k := col * rows + row;
    assert k < TileCount(width, height, w, h) by {
      GridIndexInRange(col, row, cols, rows);
    }
    assert Contains(TileRect(k, rows, w, h), px, py) by {
      TileRectOfGrid(col, row, rows, w, h);
    }
  }

  lemma GridIndexInRange(col: nat, row: nat, cols: nat, rows: nat)
    requires col < cols && row < rows
    ensures col * rows + row < cols * rows
  {
    MulMonotone(col + 1, cols, rows);
  }

  /** The tiles do not overlap: a pixel lies in at most one tile. */
  lemma {:induction false} TilesDisjoint(rows: nat, w: nat, h: nat, k1: nat, k2: nat, px: nat, py: nat)
    requires rows > 0 && w > 0 && h > 0
    requires Contains(TileRect(k1, rows, w, h), px, py) && Contains(TileRect(k2, rows, w, h), px, py)
    ensures k1 == k2
  {
    SameCell(k1 / rows, k2 / rows, w, px);
    SameCell(k1 % rows, k2 % rows, h, py);
    assert k1 == (k1 / rows) * rows + k1 % rows;
    assert k2 == (k2 / rows) * rows + k2 % rows;
  }

  lemma SameCell(i: nat, j: nat, w: nat, p: nat)
    requires w > 0 && i * w <= p < i * w + w && j * w <= p < j * w + w
    ensures i == j
  {
    if i < j {
      MulMonotone(i + 1, j, w);
    } else if j < i {
      MulMonotone(j + 1, i, w);
    }
  }

  // ---------------------------------------------------------------------------
  // Child-list reconciliation

  predicate Distinct(s: seq<ImageId>) {
    forall i, j :: 0 <= i < j < |s| ==> s[i] != s[j]
  }

  /** The child that tile `k` goes to: the old child at `k`, or the image created for it. */
  function ChildAt(prev: seq<ImageId>, k: nat, next: ImageId): ImageId {
    if k < |prev| then prev[k] else next + (k - |prev|)
  }

  /**
   * The child list `ArrangeOverride` leaves for `n` tiles: the first `n` old
   * children, then images numbered from `next` for the tiles beyond them.
   */
  function Reconcile(prev: seq<ImageId>, n: nat, next: ImageId): (r: seq<ImageId>)
    ensures |r| == n
    ensures forall k :: 0 <= k < n ==> r[k] == ChildAt(prev, k, next)
  {
    if n <= |prev| then prev[..n] else prev + seq(n - |prev|, i => next + i)
  }

  /**
   * The child list while tiles `0 .. n - 1` are placed: the old list, extended
   * with new images once the tiles outnumber it; the surplus is removed afterwards.
   */
  function Grown(prev: seq<ImageId>, n: nat, next: ImageId): (r: seq<ImageId>)
    ensures |r| == (if n <= |prev| then |prev| else n)
  {
    if n <= |prev| then prev else Reconcile(prev, n, next)
  }

  /** Placing tile `n` reuses the child at `n` or appends one, and reconciles one more tile. */
  lemma {:induction false} GrownStep(prev: seq<ImageId>, n: nat, next: ImageId)
    ensures Reconcile(prev, n + 1, next) == Reconcile(prev, n, next) + [ChildAt(prev, n, next)]
    ensures n < |prev| ==> Grown(prev, n + 1, next) == Grown(prev, n, next)
    ensures n >= |prev| ==> Grown(prev, n + 1, next) == Grown(prev, n, next) + [next + (n - |prev|)]
    ensures Grown(prev, n, next)[..n] == Reconcile(prev, n, next)
  {
    var r, r' := Reconcile(prev, n, next), Reconcile(prev, n + 1, next);
    assert r' == r + [ChildAt(prev, n, next)] by {
      assert forall k :: 0 <= k < n ==> r'[k] == r[k];
    }
    if n >= |prev| {
      assert Grown(prev, n + 1, next) == r';
      assert Grown(prev, n, next) == r by {
        assert prev[..|prev|] == prev;
      }
    }
  }

  /**
   * Reconciliation reuses the old children by index, appends only ids not in
   * use, and keeps the list free of duplicates.
   */
  lemma {:induction false} ReconcileReusesPrefix(prev: seq<ImageId>, n: nat, next: ImageId)
    requires Distinct(prev) && forall k :: 0 <= k < |prev| ==> prev[k] < next
    ensures forall k :: 0 <= k < n ==> Reconcile(prev, n, next)[k] < next + (if n <= |prev| then 0 else n - |prev|)
    ensures forall k :: |prev| <= k < n ==> Reconcile(prev, n, next)[k] >= next
    ensures Distinct(Reconcile(prev, n, next))
  {
    var r := Reconcile(prev, n, next);
    forall i, j | 0 <= i < j < n ensures r[i] != r[j] {
      if j < |prev| {
        assert r[i] == prev[i] && r[j] == prev[j];
      } else if i < |prev| {
        assert r[i] == prev[i] < next <= r[j];
      } else {
        assert r[i] == next + (i - |prev|) && r[j] == next + (j - |prev|);
      }
    }
  }

  /**
   * The images after `ArrangeOverride` has shown tile `k` of the bitmap `src`
   * in `ids[k]`, for every `k`; every other image is untouched.
   */
  function Arranged(images: map<ImageId, Image>, ids: seq<ImageId>, src: Option<ImageSource>,
                    rows: nat, w: nat, h: nat): map<ImageId, Image>
    requires |ids| > 0 ==> rows > 0
    decreases |ids|
  {
    if ids == [] then images
    else
      var k := |ids| - 1;
      Arranged(images, ids[..k], src, rows, w, h)[ids[k] := Image(src, Some(TileRect(k, rows, w, h)))]
  }

  lemma ArrangedStep(images: map<ImageId, Image>, ids: seq<ImageId>, id: ImageId, src: Option<ImageSource>,
                     rows: nat, w: nat, h: nat)
    requires rows > 0
    ensures Arranged(images, ids + [id], src, rows, w, h)
         == Arranged(images, ids, src, rows, w, h)[id := Image(src, Some(TileRect(|ids|, rows, w, h)))]
  {
    assert (ids + [id])[..|ids|] == ids;
  }

  /** Arranging adds exactly the ids to the images. */
  lemma {:induction false} ArrangedDomain(images: map<ImageId, Image>, ids: seq<ImageId>, src: Option<ImageSource>,
                                          rows: nat, w: nat, h: nat)
    requires |ids| > 0 ==> rows > 0
    ensures forall id :: id in Arranged(images, ids, src, rows, w, h) <==> id in images || id in ids
    decreases |ids|
  {
    if ids != [] {
      var k := |ids| - 1;
      ArrangedDomain(images, ids[..k], src, rows, w, h);
      assert ids == ids[..k] + [ids[k]];
    }
  }

  /** Arranging leaves every image that is not among the ids as it was. */
  lemma {:induction false} ArrangedKeeps(images: map<ImageId, Image>, ids: seq<ImageId>, src: Option<ImageSource>,
                                         rows: nat, w: nat, h: nat)
    requires |ids| > 0 ==> rows > 0
    ensures forall id :: id in images && id !in ids ==>
      id in Arranged(images, ids, src, rows, w, h) && Arranged(images, ids, src, rows, w, h)[id] == images[id]
    decreases |ids|
  {
    if ids != [] {
      var k := |ids| - 1;
      ArrangedKeeps(images, ids[..k], src, rows, w, h);
      forall id | id in images && id !in ids
        ensures id !in ids[..k] && id != ids[k]
      {
        assert ids == ids[..k] + [ids[k]];
      }
    }
  }

  /** With distinct ids, each `ids[k]` ends up showing tile `k`. */
  lemma {:induction false} ArrangedTiles(images: map<ImageId, Image>, ids: seq<ImageId>, src: Option<ImageSource>,
                                         rows: nat, w: nat, h: nat)
    requires |ids| > 0 ==> rows > 0
    requires Distinct(ids)
    ensures forall k :: 0 <= k < |ids| ==>
      ids[k] in Arranged(images, ids, src, rows, w, h) &&
      Arranged(images, ids, src, rows, w, h)[ids[k]] == Image(src, Some(TileRect(k, rows, w, h)))
    decreases |ids|
  {
    if ids != [] {
      var last := |ids| - 1;
      var init := ids[..last];
      assert Distinct(init);
      ArrangedTiles(images, init, src, rows, w, h);
      forall k | 0 <= k < last
        ensures ids[k] == init[k] && ids[k] != ids[last]
      {
      }
    }
  }

  /**
   * What arranging `n` tiles leaves: distinct children, each showing its tile,
   * every other image untouched, and every image id below the next free one.
   */
  lemma ArrangeOutcome(prev: seq<ImageId>, images: map<ImageId, Image>, n: nat, next: ImageId,
                       src: Option<ImageSource>, rows: nat, w: nat, h: nat)
    requires n > 0 ==> rows > 0
    requires Distinct(prev) && forall k :: 0 <= k < |prev| ==> prev[k] in images
    requires forall id :: id in images ==> id < next
    ensures var r := Reconcile(prev, n, next);
      var m := Arranged(images, r, src, rows, w, h);
      && Distinct(r)
      && (forall k :: 0 <= k < n ==> r[k] in m && m[r[k]] == Image(src, Some(TileRect(k, rows, w, h))))
      && (forall id :: id in images && id !in r ==> id in m && m[id] == images[id])
      && (forall id :: id in m <==> id in images || id in r)
      && (forall id :: id in m ==> id < next + (if n <= |prev| then 0 else n - |prev|))
  {
    var r := Reconcile(prev, n, next);
    ReconcileReusesPrefix(prev, n, next);
    ArrangedDomain(images, r, src, rows, w, h);
    ArrangedKeeps(images, r, src, rows, w, h);
    ArrangedTiles(images, r, src, rows, w, h);
  }

  /** `Children.RemoveAt(i)`. */
  function RemoveAt(s: seq<ImageId>, i: nat): (r: seq<ImageId>)
    requires i < |s|
    ensures |r| == |s| - 1
    ensures forall k :: 0 <= k < i ==> r[k] == s[k]
    ensures forall k :: i <= k < |r| ==> r[k] == s[k + 1]
  {
    s[..i] + s[i + 1..]
  }

  // ---------------------------------------------------------------------------
  // The panel

  class ImageTile {
    /** The `Source` dependency property. */
    var source: Option<ImageSource>
    /** `Children`, in order. */
    var children: seq<ImageId>
    /** Every image element created so far, by id. */
    var images: map<ImageId, Image>
    /** The id the next `new Image` receives. */
    var nextId: ImageId
    /** The image added to open the source, until it opens, fails or the panel unloads. */
    var sourceImage: Option<ImageId>
    /** `Clip`. */
    var clip: Option<Rect>

    ghost predicate Valid()
      reads this
    {
      && (forall id :: id in images ==> id < nextId)
      && (forall k :: 0 <= k < |children| ==> children[k] in images)
      && Distinct(children)
      && (sourceImage.Some? ==> sourceImage.value in images)
    }

    constructor ()
      ensures Valid()
      ensures source == None && children == [] && sourceImage == None && clip == None
    {
      source := None;
      children := [];
      images := map[];
      nextId := 0;
      sourceImage := None;
      clip := None;
    }

    /**
     * The `Source` property stores `newSource` and calls `OnSourceChanged`,
     * which adds a new image showing it, to open the bitmap through the visual tree.
     */
    method OnSourceChanged(newSource: Option<ImageSource>)
      requires Valid()
      modifies this
      ensures Valid()
      ensures source == newSource
      ensures old(nextId) !in old(images)
      ensures sourceImage == Some(old(nextId))
      ensures children == old(children) + [old(nextId)]
      ensures images == old(images)[old(nextId) := Image(newSource, None)]
      ensures nextId == old(nextId) + 1 && clip == old(clip)
    {
      source := newSource;
      var image := nextId;
      nextId := nextId + 1;
      images := images[image := Image(source, None)];
      sourceImage := Some(image);
      children := children + [image];
    }

    /** The source image failed to open: forget it and remove every child. */
    method OnSourceImageFailed() returns (outcome: HandlerOutcome)
      requires Valid()
      modifies this
      ensures Valid()
      ensures outcome == NullReference <==> old(sourceImage) == None
      ensures outcome == NullReference ==> children == old(children)
      ensures outcome == Completed ==> children == []
      ensures sourceImage == None
      ensures source == old(source) && images == old(images) && nextId == old(nextId) && clip == old(clip)
    {
      if sourceImage.None? {
        return NullReference;
      }
      sourceImage := None;
      children := [];
      outcome := Completed;
    }

    /** The source image opened: forget it; the layout is arranged again later. */
    method OnSourceImageOpened() returns (outcome: HandlerOutcome)
      requires Valid()
      modifies this
      ensures Valid()
      ensures outcome == NullReference <==> old(sourceImage) == None
      ensures sourceImage == None
      ensures source == old(source) && children == old(children) && images == old(images)
      ensures nextId == old(nextId) && clip == old(clip)
    {
      if sourceImage.None? {
        return NullReference;
      }
      sourceImage := None;
      outcome := Completed;
    }

    /** The panel left the visual tree: forget a pending source image. */
    method OnUnloaded()
      requires Valid()
      modifies this
      ensures Valid()
      ensures sourceImage == None
      ensures source == old(source) && children == old(children) && images == old(images)
      ensures nextId == old(nextId) && clip == old(clip)
    {
      if sourceImage.None? {
        return;
      }
      sourceImage := None;
    }

    /** `Source` is a bitmap of non-zero pixel size, so `ArrangeOverride` tiles it. */
    predicate CanTile()
      reads this
    {
      source.Some? && source.value.Bitmap? && source.value.pixelWidth > 0 && source.value.pixelHeight > 0
    }

    /**
     * Tiles the panel of `finalWidth`×`finalHeight` with the bitmap in column-major
     * order, reusing children by index, appending new images and removing the surplus.
     */
    method ArrangeOverride(finalWidth: nat, finalHeight: nat)
      requires Valid()
      modifies this
      ensures Valid()
      ensures source == old(source) && sourceImage == old(sourceImage)
      ensures !CanTile() ==>
        children == old(children) && images == old(images) && nextId == old(nextId) && clip == old(clip)
      ensures CanTile() ==>
        var w, h := source.value.pixelWidth, source.value.pixelHeight;
        var n := TileCount(finalWidth, finalHeight, w, h);
        && children == Reconcile(old(children), n, old(nextId)) && |children| == n
        && (finalWidth == 0 || finalHeight == 0 ==> children == [])
        && nextId == old(nextId) + (if n <= |old(children)| then 0 else n - |old(children)|)
        && images == Arranged(old(images), children, source, CeilDiv(finalHeight, h), w, h)
        && (forall k :: 0 <= k < n ==>
              children[k] in images && images[children[k]] == Image(source, Some(TileRect(k, CeilDiv(finalHeight, h), w, h))))
        && (forall id :: id in old(images) && id !in children ==> id in images && images[id] == old(images)[id])
        && (forall id :: id in images <==> id in old(images) || id in children)
        && clip == Some(Rect(0, 0, finalWidth, finalHeight))
    {
      if !(source.Some? && source.value.Bitmap?) {
        return;
      }
      var bmp := source.value;
      var width, height := bmp.pixelWidth, bmp.pixelHeight;
      if width == 0 || height == 0 {
        return;
      }

      ghost var prev, firstFresh := children, nextId;
      var index := PlaceTiles(finalWidth, finalHeight);
      GrownStep(prev, index, firstFresh);
      RemoveSurplus(index);
      clip := Some(Rect(0, 0, finalWidth, finalHeight));
      ArrangeOutcome(prev, old(images), index, firstFresh, source, CeilDiv(finalHeight, height), width, height);
    }

    /** The two nested loops of `ArrangeOverride`: tile `k` goes to child `k`, column by column. */
    method PlaceTiles(finalWidth: nat, finalHeight: nat) returns (index: nat)
      requires CanTile()
      modifies this
      ensures source == old(source) && sourceImage == old(sourceImage) && clip == old(clip)
      ensures index == TileCount(finalWidth, finalHeight, source.value.pixelWidth, source.value.pixelHeight)
      ensures children == Grown(old(children), index, old(nextId))
      ensures nextId == old(nextId) + (|children| - |old(children)|)
      ensures images == Arranged(old(images), Reconcile(old(children), index, old(nextId)), source,
                                 CeilDiv(finalHeight, source.value.pixelHeight),
                                 source.value.pixelWidth, source.value.pixelHeight)
    {
      var bmp := source.value;
      var width, height := bmp.pixelWidth, bmp.pixelHeight;
      ghost var prev, firstFresh, prevImages := children, nextId, images;
      ghost var rows := CeilDiv(finalHeight, height);
      ghost var col := 0;
      index := 0;
      var x := 0;
      while x < finalWidth
        invariant source == Some(bmp) && sourceImage == old(sourceImage) && clip == old(clip)
        invariant x == col * width && col <= CeilDiv(finalWidth, width)
        invariant index == col * rows
        invariant index > 0 ==> rows > 0
        invariant children == Grown(prev, index, firstFresh) && nextId == firstFresh + (|children| - |prev|)
        invariant images == Arranged(prevImages, Reconcile(prev, index, firstFresh), source, rows, width, height)
        decreases finalWidth - x
      {
        CeilDivIsLeast(finalWidth, width, col);
        var y := 0;
        ghost var row := 0;
        while y < finalHeight
          invariant source == Some(bmp) && sourceImage == old(sourceImage) && clip == old(clip)
          invariant y == row * height && row <= rows
          invariant index == col * rows + row
          invariant index > 0 ==> rows > 0
          invariant children == Grown(prev, index, firstFresh) && nextId == firstFresh + (|children| - |prev|)
          invariant images == Arranged(prevImages, Reconcile(prev, index, firstFresh), source, rows, width, height)
          decreases finalHeight - y
        {
          CeilDivIsLeast(finalHeight, height, row);
          TileRectOfGrid(col, row, rows, width, height);
          PlaceTile(Rect(x, y, width, height), index, prev, firstFresh, prevImages, rows, width, height);
          index := index + 1;
          y := y + height;
          row := row + 1;
          MulSucc(row - 1, height);
        }
        CeilDivIsLeast(finalHeight, height, row);
        x := x + width;
        col := col + 1;
        MulSucc(col - 1, width);
        MulSucc(col - 1, rows);
      }
      CeilDivIsLeast(finalWidth, width, col);
    }

    /** Shows tile `index` in `children[index]`, reusing that child or appending a new image. */
    method PlaceTile(rect: Rect, index: nat, ghost prev: seq<ImageId>, ghost firstFresh: ImageId,
                     ghost prevImages: map<ImageId, Image>, ghost rows: nat, ghost w: nat, ghost h: nat)
      requires rows > 0 && rect == TileRect(index, rows, w, h)
      requires children == Grown(prev, index, firstFresh) && nextId == firstFresh + (|children| - |prev|)
      requires images == Arranged(prevImages, Reconcile(prev, index, firstFresh), source, rows, w, h)
      modifies this
      ensures children == Grown(prev, index + 1, firstFresh) && nextId == firstFresh + (|children| - |prev|)
      ensures images == Arranged(prevImages, Reconcile(prev, index + 1, firstFresh), source, rows, w, h)
      ensures source == old(source) && sourceImage == old(sourceImage) && clip == old(clip)
    {
      GrownStep(prev, index, firstFresh);
      ArrangedStep(prevImages, Reconcile(prev, index, firstFresh), ChildAt(prev, index, firstFresh), source, rows, w, h);
      if |children| > index {
        var image := children[index];
        images := images[image := Image(source, Some(rect))];
      } else {
        var image := nextId;
        nextId := nextId + 1;
        images := images[image := Image(source, Some(rect))];
        children := children + [image];
      }
    }

    /** The removal loop of `ArrangeOverride`: drops the child at `index` once per surplus child. */
    method RemoveSurplus(index: nat)
      requires index <= |children|
      modifies this`children
      ensures children == old(children)[..index]
    {
      var count := |children|;
      var i := index;
      while i < count
        invariant index <= i <= count
        invariant children == old(children)[..index] + old(children)[i..]
      {
        children := RemoveAt(children, index);
        i := i + 1;
      }
    }
  }
}
