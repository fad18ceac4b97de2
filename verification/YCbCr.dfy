/** Y'CbCr images (go/src/image/ycbcr.go, geom.go): where the samples of a pixel lie, for every subsample ratio. */
module YCbCr {
  import opened Prelude

  const MAX_INT := 0x7FFF_FFFF_FFFF_FFFF
  const WORD := 0x1_0000_0000_0000_0000

  predicate IsInt(x: int) {
    -MAX_INT - 1 <= x <= MAX_INT
  }

  /** The result of 64-bit arithmetic. */
  function Wrap(x: int): int {
    var w := x % WORD;
    if w <= MAX_INT then w else w - WORD
  }

  /** Integer division, which truncates toward zero. */
  function Quot(x: int, k: int): int
    requires k > 0
  {
    if x >= 0 then x / k else -(-x / k)
  }

  // ---------------------------------------------------------------- geometry

  datatype Point = Point(x: int, y: int)

  datatype Rectangle = Rectangle(min: Point, max: Point) {
    predicate Empty() {
      min.x >= max.x || min.y >= max.y
    }

    predicate Contains(p: Point) {
      min.x <= p.x < max.x && min.y <= p.y < max.y
    }

    predicate WellFormed() {
      min.x <= max.x && min.y <= max.y && IsInt(min.x) && IsInt(min.y) && IsInt(max.x) && IsInt(max.y)
    }
  }

  function Intersect(r: Rectangle, s: Rectangle): Rectangle {
    var t := Rectangle(Point(Max(r.min.x, s.min.x), Max(r.min.y, s.min.y)), Point(Min(r.max.x, s.max.x), Min(r.max.y, s.max.y)));
    if t.Empty() then Rectangle(Point(0, 0), Point(0, 0)) else t
  }

  /** The intersection holds the points of both, and is empty only if there are none. */
  lemma IntersectIs(r: Rectangle, s: Rectangle)
    ensures forall p: Point :: Intersect(r, s).Contains(p) <==> r.Contains(p) && s.Contains(p)
    ensures Intersect(r, s).Empty() <==> forall p: Point :: !(r.Contains(p) && s.Contains(p))
  {
    var t := Intersect(r, s);
    if !t.Empty() { assert t.Contains(t.min) && r.Contains(t.min) && s.Contains(t.min); }
  }

  /** mul3NonNeg, by two 64-bit multiplications whose high words must be zero. */
  function Mul3NonNeg(x: int, y: int, z: int): (a: int)
    ensures a == -1 || (x >= 0 && y >= 0 && z >= 0 && a == x * y * z && 0 <= a <= MAX_INT)
  {
    if x < 0 || y < 0 || z < 0 then -1
    else if x * y >= WORD then -1
    else
      Product(x, y, z);
      if x * y * z >= WORD then -1
      else if x * y * z > MAX_INT then -1
      else x * y * z
  }

  lemma Product(x: int, y: int, z: int)
    requires x >= 0 && y >= 0 && z >= 0
    ensures x * y >= 0 && x * y * z >= 0
  {
    assert x * y >= 0;
  }

  /** Exactly when there is no product. */
  lemma Mul3Fails(x: int, y: int, z: int)
    ensures Mul3NonNeg(x, y, z) == -1 <==> x < 0 || y < 0 || z < 0 || x * y >= WORD || x * y * z > MAX_INT
  {
    if x >= 0 && y >= 0 && z >= 0 { Product(x, y, z); }
  }

  /** mul3NonNeg promises the product unless an argument is negative or the product does not fit. It keeps that
      promise exactly when it is not asked for zero times what does not fit a word. */
  lemma Mul3IsProduct(x: int, y: int, z: int)
    ensures Mul3NonNeg(x, y, z) == (if x < 0 || y < 0 || z < 0 || x * y * z > MAX_INT then -1 else x * y * z)
            <==> !(z == 0 && x >= 0 && y >= 0 && x * y >= WORD)
  {
    if x >= 0 && y >= 0 && z >= 0 {
      Product(x, y, z);
      if z > 0 { assert x * y * z >= x * y by { GrowsBy(x * y, z); } }
    }
  }

  lemma GrowsBy(a: int, z: int)
    requires a >= 0 && z >= 1
    ensures a * z >= a
  {
  }

  /** Such arguments exist. */
  lemma ZeroTimesTooMuch()
    ensures Mul3NonNeg(0x4000_0000_0000_0000, 8, 0) == -1
  {
  }

  function Add2NonNeg(x: int, y: int): (a: int)
    ensures a == -1 || (x >= 0 && y >= 0 && (IsInt(x) && IsInt(y) ==> a == x + y && IsInt(a)))
    ensures IsInt(x) && IsInt(y) ==> (a == -1 <==> x < 0 || y < 0 || x + y > MAX_INT)
  {
    if x < 0 || y < 0 then -1
    else
      var a := Wrap(x + y);
      if a < 0 then -1 else a
  }

  // ---------------------------------------------------------------- the image

  datatype Ratio = Ratio444 | Ratio422 | Ratio420 | Ratio440 | Ratio411 | Ratio410

  /** How many pixels share a chroma sample, across and down. */
  function Across(s: Ratio): (f: nat)
    ensures f == 1 || f == 2 || f == 4
  {
    match s
    case Ratio422 | Ratio420 => 2
    case Ratio411 | Ratio410 => 4
    case _ => 1
  }

  function Down(s: Ratio): (f: nat)
    ensures f == 1 || f == 2
  {
    match s
    case Ratio420 | Ratio440 | Ratio410 => 2
    case _ => 1
  }

  /** A slice of one shared array. */
  datatype Slice = Slice(start: nat, length: nat)

  datatype Image = Image(y: Slice, cb: Slice, cr: Slice, yStride: int, cStride: int, ratio: Ratio, rect: Rectangle)

  /** One dimension of the chroma planes, as yCbCrSize computes it from the bounds lo and hi. */
  function ChromaSize(lo: int, hi: int, f: nat): int
    requires f == 1 || f == 2 || f == 4
  {
    if f == 1 then Wrap(hi - lo) else Wrap(Quot(Wrap(hi + (f - 1)), f) - Quot(lo, f))
  }

  /** How many samples there are, unless that does not fit. */
  function TotalLength(w: int, h: int, cw: int, ch: int): int {
    Add2NonNeg(Mul3NonNeg(1, w, h), Mul3NonNeg(2, cw, ch))
  }

  /** NewYCbCr; none if it panics. */
  function NewYCbCr(r: Rectangle, s: Ratio): Option<Image> {
    var w, h := Wrap(r.max.x - r.min.x), Wrap(r.max.y - r.min.y);
    var cw, ch := ChromaSize(r.min.x, r.max.x, Across(s)), ChromaSize(r.min.y, r.max.y, Down(s));
    if TotalLength(w, h, cw, ch) < 0 then None
    else
      Product(1, w, h);
      Product(1, cw, ch);
      var i0, i1 := w * h, w * h + cw * ch;
      Some(Image(Slice(0, i0), Slice(i0, cw * ch), Slice(i1, cw * ch), w, cw, s, r))
  }

  function YOffset(p: Image, x: int, y: int): int {
    (y - p.rect.min.y) * p.yStride + (x - p.rect.min.x)
  }

  function COffset(p: Image, x: int, y: int): int {
    var f, g := Across(p.ratio), Down(p.ratio);
    (Quot(y, g) - Quot(p.rect.min.y, g)) * p.cStride + (Quot(x, f) - Quot(p.rect.min.x, f))
  }

  /** The rest of a slice from i on. */
  function From(s: Slice, i: int): Option<Slice> {
    if 0 <= i <= s.length then Some(Slice(s.start + i, s.length - i)) else None
  }

  /** SubImage; none if a slice expression panics. */
  function SubImage(p: Image, r0: Rectangle): Option<Image> {
    var r := Intersect(r0, p.rect);
    if r.Empty() then
      Some(Image(Slice(0, 0), Slice(0, 0), Slice(0, 0), 0, 0, p.ratio, Rectangle(Point(0, 0), Point(0, 0))))
    else
      var yi, ci := YOffset(p, r.min.x, r.min.y), COffset(p, r.min.x, r.min.y);
      match (From(p.y, yi), From(p.cb, ci), From(p.cr, ci))
      case (Some(y), Some(cb), Some(cr)) => Some(Image(y, cb, cr, p.yStride, p.cStride, p.ratio, r))
      case _ => None
  }

  // ---------------------------------------------------------------- sizes

  lemma WrapIs(x: int)
    requires -WORD < x < WORD
    ensures Wrap(x) == if x > MAX_INT then x - WORD else if x < -MAX_INT - 1 then x + WORD else x
  {
  }

  /** When the image can be made, its width and height are exact. */
  lemma MadeSizes(r: Rectangle, s: Ratio)
    requires r.WellFormed() && NewYCbCr(r, s).Some?
    ensures var p := NewYCbCr(r, s).value;
            var cw, ch := ChromaSize(r.min.x, r.max.x, Across(s)), ChromaSize(r.min.y, r.max.y, Down(s));
            && p.yStride == r.max.x - r.min.x && p.y.length == p.yStride * (r.max.y - r.min.y)
            && p.cStride == cw >= 0 && ch >= 0 && p.cb.length == cw * ch == p.cr.length
            && p.rect == r && p.ratio == s && r.max.y - r.min.y <= MAX_INT && p.yStride <= MAX_INT
  {
    WrapIs(r.max.x - r.min.x);
    WrapIs(r.max.y - r.min.y);
  }

  /** The strides and lengths that the type's documentation gives for each ratio, where no cell is cut and no
      coordinate is negative. */
  lemma DocumentedSizes(r: Rectangle, s: Ratio)
    requires r.WellFormed() && NewYCbCr(r, s).Some? && r.min.x >= 0 && r.min.y >= 0
    requires r.min.x % 4 == 0 && r.max.x % 4 == 0 && r.min.y % 2 == 0 && r.max.y % 2 == 0
    ensures var p := NewYCbCr(r, s).value;
            && p.cb.length == p.cr.length
            && match s
               case Ratio444 => p.yStride == p.cStride && p.y.length == p.cb.length
               case Ratio422 => p.yStride == 2 * p.cStride && p.y.length == 2 * p.cb.length
               case Ratio420 => p.yStride == 2 * p.cStride && p.y.length == 4 * p.cb.length
               case Ratio440 => p.yStride == p.cStride && p.y.length == 2 * p.cb.length
               case Ratio411 => p.yStride == 4 * p.cStride && p.y.length == 4 * p.cb.length
               case Ratio410 => p.yStride == 4 * p.cStride && p.y.length == 8 * p.cb.length
  {
    hide NewYCbCr, Samples, ChromaSize, Quot, Wrap;
    SizesInCells(r, s);
  }

  lemma SizesInCells(r: Rectangle, s: Ratio)
    requires r.WellFormed() && NewYCbCr(r, s).Some? && r.min.x >= 0 && r.min.y >= 0
    requires r.min.x % 4 == 0 && r.max.x % 4 == 0 && r.min.y % 2 == 0 && r.max.y % 2 == 0
    ensures var p := NewYCbCr(r, s).value;
            && p.yStride == Across(s) * p.cStride && p.cb.length == p.cr.length
            && p.y.length == (Across(s) * Down(s)) * p.cb.length
  {
    hide NewYCbCr, Samples, ChromaSize, Quot, Wrap, Across, Down;
    MadeSizes(r, s);
    var p := NewYCbCr(r, s).value;
    var f, g := Across(s), Down(s);
    var cw, ch := ChromaSize(r.min.x, r.max.x, f), ChromaSize(r.min.y, r.max.y, g);
    EvenToo(r.min.x);
    EvenToo(r.max.x);
    WholeSize(r.min.x, r.max.x, f);
    WholeSize(r.min.y, r.max.y, g);
    Lengths(p.yStride, r.max.y - r.min.y, cw, ch, f, g);
  }

  lemma Lengths(w: int, h: int, cw: int, ch: int, f: int, g: int)
    requires w == f * cw && h == g * ch && (f == 1 || f == 2 || f == 4) && (g == 1 || g == 2)
    ensures w * h == (f * g) * (cw * ch)
  {
    Cells(cw, ch, f, g);
  }

  lemma EvenToo(x: int)
    ensures x % 4 == 0 ==> x % 2 == 0
  {
    var q := x / 4;
    assert x % 4 == 0 ==> x == 2 * (2 * q);
  }

  lemma WholeSize(lo: int, hi: int, f: nat)
    requires f == 1 || (f == 2 && lo % 2 == 0 && hi % 2 == 0) || (f == 4 && lo % 4 == 0 && hi % 4 == 0)
    requires IsInt(lo) && IsInt(hi) && 0 <= lo <= hi && hi - lo <= MAX_INT && ChromaSize(lo, hi, f) >= 0
    ensures hi - lo == f * ChromaSize(lo, hi, f)
  {
    hide ChromaSize;
    ChromaExact(lo, hi, f);
    WholeCells(lo, hi, f);
  }

  lemma WholeCells(lo: int, hi: int, f: nat)
    requires 0 <= lo <= hi && (f == 1 || (f == 2 && lo % 2 == 0 && hi % 2 == 0) || (f == 4 && lo % 4 == 0 && hi % 4 == 0))
    ensures hi - lo == f * Samples(lo, hi, f)
  {
  }

  lemma Cells(cw: int, ch: int, f: int, g: int)
    requires (f == 1 || f == 2 || f == 4) && (g == 1 || g == 2)
    ensures (f * cw) * (g * ch) == (f * g) * (cw * ch)
  {
    Multiple(cw, g * ch, f);
    Multiple(ch, cw, g);
    Multiple(g, cw * ch, f);
  }

  lemma Multiple(a: int, b: int, k: int)
    requires k == 1 || k == 2 || k == 4
    ensures (k * a) * b == k * (a * b)
  {
  }

  /** How many chroma samples the bounds ask for. */
  function Samples(lo: int, hi: int, f: nat): int
    requires f == 1 || f == 2 || f == 4
  {
    Quot(hi + (f - 1), f) - Quot(lo, f)
  }

  lemma ChromaExact(lo: int, hi: int, f: nat)
    requires IsInt(lo) && IsInt(hi) && 0 <= hi - lo <= MAX_INT && (f == 1 || f == 2 || f == 4) && ChromaSize(lo, hi, f) >= 0
    ensures ChromaSize(lo, hi, f) == Samples(lo, hi, f)
  {
    ChromaFits(lo, hi, f);
    Quotients(lo, hi, f);
    hide Quot, Wrap;
    WrapIs(hi - lo);
    WrapIs(hi + (f - 1));
    WrapIs(Quot(hi + (f - 1), f) - Quot(lo, f));
  }

  lemma ChromaFits(lo: int, hi: int, f: nat)
    requires IsInt(lo) && IsInt(hi) && 0 <= hi - lo <= MAX_INT && (f == 1 || f == 2 || f == 4)
    ensures ChromaSize(lo, hi, f) >= 0 <==> hi + (f - 1) <= MAX_INT
    ensures 0 <= Samples(lo, hi, f) <= MAX_INT
  {
    hide Quot, Wrap;
    Quotients(lo, hi, f);
    WrapIs(hi - lo);
    WrapIs(hi + (f - 1));
    if hi + (f - 1) <= MAX_INT {
      WrapIs(Quot(hi + (f - 1), f) - Quot(lo, f));
    } else {
      WrappedQuotient(lo, hi, f);
      WrapIs(Quot(hi + (f - 1) - WORD, f) - Quot(lo, f));
    }
  }

  /** Rounded-up bounds that do not overflow are not out of order. */
  lemma Quotients(lo: int, hi: int, f: nat)
    requires IsInt(lo) && IsInt(hi) && 0 <= hi - lo <= MAX_INT && (f == 1 || f == 2 || f == 4)
    ensures 0 <= Quot(hi + (f - 1), f) - Quot(lo, f) <= MAX_INT
    ensures f == 1 ==> Quot(hi + (f - 1), f) == hi && Quot(lo, f) == lo
  {
    if f == 2 {
      HalfBounds(lo, hi);
    } else if f == 4 {
      QuarterBounds(lo, hi);
    }
  }

  lemma HalfBounds(lo: int, hi: int)
    requires IsInt(lo) && IsInt(hi) && 0 <= hi - lo <= MAX_INT
    ensures 0 <= Quot(hi + 1, 2) - Quot(lo, 2) <= MAX_INT
  {
  }

  lemma QuarterBounds(lo: int, hi: int)
    requires IsInt(lo) && IsInt(hi) && 0 <= hi - lo <= MAX_INT
    ensures 0 <= Quot(hi + 3, 4) - Quot(lo, 4) <= MAX_INT
  {
  }

  /** A rounded-up bound that overflows becomes a small number. */
  lemma WrappedQuotient(lo: int, hi: int, f: nat)
    requires IsInt(lo) && IsInt(hi) && hi - lo <= MAX_INT && (f == 1 || f == 2 || f == 4) && hi + (f - 1) > MAX_INT
    ensures -MAX_INT - 1 <= Quot(hi + (f - 1) - WORD, f) - Quot(lo, f) < 0
  {
  }

  /** Width, height and the rounded-up bounds fit an int. */
  predicate BoundsFit(r: Rectangle, s: Ratio) {
    && r.max.x - r.min.x <= MAX_INT && r.max.y - r.min.y <= MAX_INT
    && r.max.x + (Across(s) - 1) <= MAX_INT && r.max.y + (Down(s) - 1) <= MAX_INT
  }

  /** NewYCbCr succeeds exactly when the bounds and the number of all samples fit an int. */
  lemma MadeExactly(r: Rectangle, s: Ratio)
    requires r.WellFormed()
    ensures NewYCbCr(r, s).Some? <==>
            BoundsFit(r, s)
            && (r.max.x - r.min.x) * (r.max.y - r.min.y)
               + 2 * Samples(r.min.x, r.max.x, Across(s)) * Samples(r.min.y, r.max.y, Down(s)) <= MAX_INT
  {
    hide Wrap, Quot, Across, Down, ChromaSize, Samples, TotalLength, NewYCbCr;
    MadeIff(r, s);
    var w, h := r.max.x - r.min.x, r.max.y - r.min.y;
    WrapIs(w);
    WrapIs(h);
    TotalNegative(Wrap(w), Wrap(h), ChromaSize(r.min.x, r.max.x, Across(s)), ChromaSize(r.min.y, r.max.y, Down(s)));
    if w <= MAX_INT && h <= MAX_INT {
      ChromaFits(r.min.x, r.max.x, Across(s));
      ChromaFits(r.min.y, r.max.y, Down(s));
      if BoundsFit(r, s) {
        ChromaExact(r.min.x, r.max.x, Across(s));
        ChromaExact(r.min.y, r.max.y, Down(s));
        TotalFits(w, h, Samples(r.min.x, r.max.x, Across(s)), Samples(r.min.y, r.max.y, Down(s)));
      }
    }
  }

  lemma MadeIff(r: Rectangle, s: Ratio)
    ensures NewYCbCr(r, s).Some? <==>
            TotalLength(Wrap(r.max.x - r.min.x), Wrap(r.max.y - r.min.y), ChromaSize(r.min.x, r.max.x, Across(s)),
                        ChromaSize(r.min.y, r.max.y, Down(s))) >= 0
  {
    hide TotalLength, Wrap, ChromaSize, Across, Down;
  }

  lemma TotalNegative(w: int, h: int, cw: int, ch: int)
    ensures w < 0 || h < 0 || cw < 0 || ch < 0 ==> TotalLength(w, h, cw, ch) < 0
  {
    Mul3Fails(1, w, h);
    Mul3Fails(2, cw, ch);
  }

  lemma TotalFits(w: int, h: int, cw: int, ch: int)
    requires 0 <= w <= MAX_INT && 0 <= h <= MAX_INT && 0 <= cw <= MAX_INT && 0 <= ch <= MAX_INT
    ensures TotalLength(w, h, cw, ch) >= 0 <==> w * h + 2 * cw * ch <= MAX_INT
  {
    Mul3Fails(1, w, h);
    Mul3Fails(2, cw, ch);
    Product(1, w, h);
    Product(2, cw, ch);
    hide Wrap;
  }

  /** Truncating toward zero puts up to f - 1 coordinates below zero into the cell of zero: there is a sample for the
      last coordinate unless the bounds end among them, or right behind them. */
  predicate EndsWell(hi: int, f: nat) {
    hi <= 1 - f || hi >= 1
  }

  lemma SampleInRange(lo: int, x: int, hi: int, f: nat)
    requires lo <= x < hi && (f == 1 || f == 2 || f == 4)
    ensures 0 <= Quot(x, f) - Quot(lo, f) <= Quot(hi - 1, f) - Quot(lo, f)
    ensures Quot(hi - 1, f) - Quot(lo, f) == if EndsWell(hi, f) then Samples(lo, hi, f) - 1 else Samples(lo, hi, f)
  {
    hide Quot;
    QuotMonotone(lo, x, f);
    QuotMonotone(x, hi - 1, f);
    LastSample(hi, f);
  }

  lemma QuotMonotone(x: int, y: int, f: nat)
    requires x <= y && (f == 1 || f == 2 || f == 4)
    ensures Quot(x, f) <= Quot(y, f)
  {
  }

  lemma LastSample(hi: int, f: nat)
    requires f == 1 || f == 2 || f == 4
    ensures Quot(hi - 1, f) == if EndsWell(hi, f) then Quot(hi + (f - 1), f) - 1 else Quot(hi + (f - 1), f)
  {
    if hi >= 1 {
      LastPositive(hi, f);
    } else if f == 2 {
      LastHalf(hi);
    } else if f == 4 {
      LastQuarter(hi);
    }
  }

  lemma LastPositive(hi: int, f: nat)
    requires hi >= 1 && (f == 1 || f == 2 || f == 4)
    ensures Quot(hi - 1, f) == Quot(hi + (f - 1), f) - 1
  {
  }

  lemma LastHalf(hi: int)
    requires hi <= 0
    ensures Quot(hi - 1, 2) == if hi <= -1 then Quot(hi + 1, 2) - 1 else Quot(hi + 1, 2)
  {
  }

  lemma LastQuarter(hi: int)
    requires hi <= 0
    ensures Quot(hi - 1, 4) == if hi <= -3 then Quot(hi + 3, 4) - 1 else Quot(hi + 3, 4)
  {
  }

  // ---------------------------------------------------------------- offsets

  /** Row-major indices are inside the plane, and determine row and column. */
  lemma RowMajor(row: int, col: int, rows: int, cols: int)
    requires 0 <= row < rows && 0 <= col < cols
    ensures 0 <= row * cols + col < rows * cols
  {
    assert row * cols + col < (row + 1) * cols <= rows * cols;
  }

  lemma RowMajorUnique(row: int, col: int, row2: int, col2: int, cols: int)
    requires 0 <= col < cols && 0 <= col2 < cols
    ensures row * cols + col == row2 * cols + col2 <==> row == row2 && col == col2
  {
    if row < row2 {
      assert row * cols + col < (row + 1) * cols <= row2 * cols;
    } else if row > row2 {
      assert row2 * cols + col2 < (row2 + 1) * cols <= row * cols;
    }
  }

  /** Every pixel has a luma sample of its own. */
  lemma LumaOffsets(r: Rectangle, s: Ratio, a: Point, b: Point)
    requires r.WellFormed() && NewYCbCr(r, s).Some? && r.Contains(a) && r.Contains(b)
    ensures var p := NewYCbCr(r, s).value;
            0 <= YOffset(p, a.x, a.y) < p.y.length && (YOffset(p, a.x, a.y) == YOffset(p, b.x, b.y) <==> a == b)
  {
    hide NewYCbCr;
    MadeSizes(r, s);
    var p := NewYCbCr(r, s).value;
    RowMajor(a.y - r.min.y, a.x - r.min.x, r.max.y - r.min.y, p.yStride);
    RowMajorUnique(a.y - r.min.y, a.x - r.min.x, b.y - r.min.y, b.x - r.min.x, p.yStride);
    Commutes(p.yStride, r.max.y - r.min.y);
    assert YOffset(p, a.x, a.y) == (a.y - r.min.y) * p.yStride + (a.x - r.min.x);
    assert YOffset(p, b.x, b.y) == (b.y - r.min.y) * p.yStride + (b.x - r.min.x);
  }

  /** The pixel's place in the grid of chroma samples. */
  function Column(p: Image, x: int): int {
    Quot(x, Across(p.ratio)) - Quot(p.rect.min.x, Across(p.ratio))
  }

  function Row(p: Image, y: int): int {
    Quot(y, Down(p.ratio)) - Quot(p.rect.min.y, Down(p.ratio))
  }

  predicate Safe(r: Rectangle, s: Ratio) {
    EndsWell(r.max.x, Across(s)) && EndsWell(r.max.y, Down(s))
  }

  lemma ChromaSizes(r: Rectangle, s: Ratio)
    requires r.WellFormed() && NewYCbCr(r, s).Some?
    ensures var p := NewYCbCr(r, s).value;
            var cw, ch := Samples(r.min.x, r.max.x, Across(s)), Samples(r.min.y, r.max.y, Down(s));
            p.cStride == cw && ch >= 0 && cw >= 0 && p.cb.length == cw * ch == p.cr.length && p.rect == r && p.ratio == s
  {
    hide NewYCbCr, ChromaSize;
    MadeSizes(r, s);
    ChromaExact(r.min.x, r.max.x, Across(s));
    ChromaExact(r.min.y, r.max.y, Down(s));
  }

  /** For a safe rectangle every chroma offset is inside its plane, and two pixels share one exactly when they lie
      in the same cell. */
  lemma ChromaOffsets(r: Rectangle, s: Ratio, a: Point, b: Point)
    requires r.WellFormed() && NewYCbCr(r, s).Some? && r.Contains(a) && r.Contains(b) && Safe(r, s)
    ensures var p := NewYCbCr(r, s).value;
            && 0 <= COffset(p, a.x, a.y) < p.cb.length == p.cr.length
            && (COffset(p, a.x, a.y) == COffset(p, b.x, b.y) <==>
                Quot(a.x, Across(s)) == Quot(b.x, Across(s)) && Quot(a.y, Down(s)) == Quot(b.y, Down(s)))
  {
    hide NewYCbCr, Samples, Quot, EndsWell;
    ChromaSizes(r, s);
    var p := NewYCbCr(r, s).value;
    SampleInRange(r.min.x, a.x, r.max.x, Across(s));
    SampleInRange(r.min.x, b.x, r.max.x, Across(s));
    SampleInRange(r.min.y, a.y, r.max.y, Down(s));
    RowMajor(Row(p, a.y), Column(p, a.x), Samples(r.min.y, r.max.y, Down(s)), p.cStride);
    RowMajorUnique(Row(p, a.y), Column(p, a.x), Row(p, b.y), Column(p, b.x), p.cStride);
    Commutes(p.cStride, Samples(r.min.y, r.max.y, Down(s)));
  }

  lemma Commutes(a: int, b: int)
    ensures a * b == b * a
  {
  }

  /** For the other rectangles the last pixel has none: a rectangle keeps all its offsets inside exactly when it is safe. */
  lemma OffsetsInsideIffSafe(r: Rectangle, s: Ratio)
    requires r.WellFormed() && NewYCbCr(r, s).Some? && !r.Empty()
    ensures var p := NewYCbCr(r, s).value;
            (forall a: Point | r.Contains(a) :: 0 <= COffset(p, a.x, a.y) < p.cb.length) <==> Safe(r, s)
  {
    hide NewYCbCr, COffset, Safe;
    var p := NewYCbCr(r, s).value;
    if Safe(r, s) {
      forall a: Point | r.Contains(a)
        ensures 0 <= COffset(p, a.x, a.y) < p.cb.length
      {
        ChromaOffsets(r, s, a, a);
      }
    } else {
      LastPixelOutside(r, s);
      assert r.Contains(Point(r.max.x - 1, r.max.y - 1));
    }
  }

  lemma LastPixelOutside(r: Rectangle, s: Ratio)
    requires r.WellFormed() && NewYCbCr(r, s).Some? && !r.Empty() && !Safe(r, s)
    ensures var p := NewYCbCr(r, s).value; COffset(p, r.max.x - 1, r.max.y - 1) >= p.cb.length
  {
    hide NewYCbCr, Samples, Quot, EndsWell;
    ChromaSizes(r, s);
    var p := NewYCbCr(r, s).value;
    SampleInRange(r.min.x, r.max.x - 1, r.max.x, Across(s));
    SampleInRange(r.min.y, r.max.y - 1, r.max.y, Down(s));
    LastIndex(Row(p, r.max.y - 1), Column(p, r.max.x - 1), Samples(r.min.y, r.max.y, Down(s)), p.cStride);
  }

  lemma LastIndex(row: int, col: int, rows: int, cols: int)
    requires rows >= 0 && cols >= 0 && rows - 1 <= row <= rows && cols - 1 <= col <= cols && row >= 0 && col >= 0
    requires row == rows || col == cols
    ensures row * cols + col >= cols * rows
  {
    if row == rows {
      assert row * cols == cols * rows;
    } else {
      assert (rows - 1) * cols + cols == cols * rows;
    }
  }

  /** Such rectangles exist: the documentation says nothing about negative coordinates. */
  lemma NegativeRectangleFails()
    ensures var r := Rectangle(Point(-3, 0), Point(0, 1)); r.WellFormed() && NewYCbCr(r, Ratio422).Some? && !Safe(r, Ratio422)
  {
    hide NewYCbCr;
    MadeExactly(Rectangle(Point(-3, 0), Point(0, 1)), Ratio422);
  }

  /** Without negative coordinates rectangles are safe, and cells are the blocks of the subsample grid. */
  lemma NonNegativeIsSafe(r: Rectangle, s: Ratio, a: Point)
    requires r.min.x >= 0 && r.min.y >= 0 && r.Contains(a)
    ensures Safe(r, s) && Quot(a.x, Across(s)) == a.x / Across(s) && Quot(a.y, Down(s)) == a.y / Down(s)
  {
  }

  // ---------------------------------------------------------------- sub-images

  /** The samples of a pixel, as indices into the shared array. */
  function LumaAt(p: Image, a: Point): int {
    p.y.start + YOffset(p, a.x, a.y)
  }

  function ChromaAt(p: Image, a: Point): (int, int) {
    (p.cb.start + COffset(p, a.x, a.y), p.cr.start + COffset(p, a.x, a.y))
  }

  lemma OffsetsShift(p: Image, q: Rectangle, a: Point)
    ensures var sub := p.(rect := q);
            && YOffset(p, q.min.x, q.min.y) + YOffset(sub, a.x, a.y) == YOffset(p, a.x, a.y)
            && COffset(p, q.min.x, q.min.y) + COffset(sub, a.x, a.y) == COffset(p, a.x, a.y)
  {
    hide Quot;
    var sub := p.(rect := q);
    Distributes(q.min.y - p.rect.min.y, a.y - q.min.y, p.yStride);
    Distributes(Row(p, q.min.y), Row(sub, a.y), p.cStride);
  }

  lemma Distributes(a: int, b: int, c: int)
    ensures a * c + b * c == (a + b) * c
  {
  }

  /** A sub-image has the same samples as its parent at every point that both cover. */
  lemma SubImageShares(p: Image, r: Rectangle, a: Point)
    requires SubImage(p, r).Some? && r.Contains(a) && p.rect.Contains(a)
    ensures var q := SubImage(p, r).value;
            q.rect.Contains(a) && LumaAt(q, a) == LumaAt(p, a) && ChromaAt(q, a) == ChromaAt(p, a)
  {
    hide YOffset, COffset;
    IntersectIs(r, p.rect);
    OffsetsShift(p, Intersect(r, p.rect), a);
    OffsetsIgnoreSlices(p.(rect := Intersect(r, p.rect)), SubImage(p, r).value, a);
  }

  lemma OffsetsIgnoreSlices(p: Image, q: Image, a: Point)
    requires p.rect == q.rect && p.yStride == q.yStride && p.cStride == q.cStride && p.ratio == q.ratio
    ensures YOffset(p, a.x, a.y) == YOffset(q, a.x, a.y) && COffset(p, a.x, a.y) == COffset(q, a.x, a.y)
  {
  }

  /** A sub-image of none of the image has no rectangle, no strides and no samples. */
  lemma EmptySubImage(p: Image, r: Rectangle)
    requires forall a: Point :: !(r.Contains(a) && p.rect.Contains(a))
    ensures var z := Point(0, 0);
            SubImage(p, r) == Some(Image(Slice(0, 0), Slice(0, 0), Slice(0, 0), 0, 0, p.ratio, Rectangle(z, z)))
  {
    IntersectIs(r, p.rect);
    var t := Intersect(r, p.rect);
    if !t.Empty() { HasCorner(t); }
    hide YOffset, COffset;
  }

  lemma HasCorner(r: Rectangle)
    requires !r.Empty()
    ensures r.Contains(r.min)
  {
  }

  /** Of an image that was made for a safe rectangle, every sub-image exists. */
  lemma SubImageExists(bounds: Rectangle, s: Ratio, r: Rectangle)
    requires bounds.WellFormed() && NewYCbCr(bounds, s).Some? && Safe(bounds, s)
    ensures SubImage(NewYCbCr(bounds, s).value, r).Some?
  {
    hide NewYCbCr, YOffset, COffset;
    MadeSizes(bounds, s);
    IntersectIs(r, bounds);
    var t := Intersect(r, bounds);
    if !t.Empty() {
      assert t.Contains(t.min);
      LumaOffsets(bounds, s, t.min, t.min);
      ChromaOffsets(bounds, s, t.min, t.min);
    }
  }
}
