/** Intersection over union of bounding boxes, over the real numbers. */
module BoundingBoxes {
  import opened Numerals

  // Corners, as the locator stores them.
  datatype Box = Box(left: real, top: real, right: real, bottom: real)

  predicate ValidBox(b: Box) {
    b.right > b.left && b.bottom > b.top
  }

  function Min(a: real, b: real): real {
    if a < b then a else b
  }

  function Max(a: real, b: real): real {
    if a > b then a else b
  }

  function Area(b: Box): real {
    Times(b.right - b.left, b.bottom - b.top)
  }

  function Times(w: real, h: real): real {
    w * h
  }

  // How much two intervals share.
  function Shared(low: real, high: real, low': real, high': real): real {
    Max(0.0, Min(high, high') - Max(low, low'))
  }

  function Intersection(a: Box, b: Box): real {
    Times(Shared(a.left, a.right, b.left, b.right), Shared(a.top, a.bottom, b.top, b.bottom))
  }

  function Union(a: Box, b: Box): real {
    Area(a) + Area(b) - Intersection(a, b)
  }

  // --- Lengths and areas -----------------------------------------------------------------------------

  lemma ProductBound(w: real, h: real, w': real, h': real)
    requires 0.0 <= w <= w' && 0.0 <= h <= h'
    ensures 0.0 <= Times(w, h) <= Times(w', h')
  {
    assert w * h <= w' * h;
    assert w' * h <= w' * h';
  }

  lemma PositiveProduct(w: real, h: real)
    requires w >= 0.0 && h >= 0.0
    ensures Times(w, h) > 0.0 <==> w > 0.0 && h > 0.0
  {
  }

  // The intersection is no larger than either box.
  lemma IntersectionBound(a: Box, b: Box)
    requires ValidBox(a) && ValidBox(b)
    ensures 0.0 <= Intersection(a, b) <= Area(a) && Intersection(a, b) <= Area(b)
    ensures Area(a) > 0.0 && Area(b) > 0.0
  {
    hide Times;
    var w, h := Shared(a.left, a.right, b.left, b.right), Shared(a.top, a.bottom, b.top, b.bottom);
    ProductBound(w, h, a.right - a.left, a.bottom - a.top);
    ProductBound(w, h, b.right - b.left, b.bottom - b.top);
    PositiveProduct(a.right - a.left, a.bottom - a.top);
    PositiveProduct(b.right - b.left, b.bottom - b.top);
  }

  // Sides no longer than a box's, yet of the same area, are the box's own sides.
  lemma SameProduct(w: real, h: real, w': real, h': real)
    requires 0.0 <= w <= w' && 0.0 <= h <= h' && w' > 0.0 && h' > 0.0 && Times(w, h) == Times(w', h')
    ensures w == w' && h == h'
  {
    ProductBound(w, h, w', h);
    ProductBound(w, h, w, h');
    PositiveProduct(w', h' - h);
    PositiveProduct(w' - w, h');
    Distributes(w', h', h);
    Distributes(h', w', w);
    hide Times;
  }

  lemma Distributes(w: real, h: real, k: real)
    ensures Times(w, h - k) == Times(w, h) - Times(w, k) && Times(h - k, w) == Times(h, w) - Times(k, w)
  {
  }

  lemma UnionPositive(a: Box, b: Box)
    requires ValidBox(a) && ValidBox(b)
    ensures Union(a, b) > 0.0 && Intersection(a, b) <= Union(a, b)
  {
    hide Times;
    IntersectionBound(a, b);
  }

  // Invalid boxes have no overlap; for valid ones the denominator is positive.
  function Iou(a: Box, b: Box): real {
    if !ValidBox(a) || !ValidBox(b) then 0.0
    else
      UnionPositive(a, b);
      Intersection(a, b) / Union(a, b)
  }

  // --- Laws ------------------------------------------------------------------------------------------

  // A point strictly inside both boxes.
  predicate Inside(x: real, y: real, b: Box) {
    b.left < x < b.right && b.top < y < b.bottom
  }

  ghost predicate Overlap(a: Box, b: Box) {
    exists x: real, y: real :: Inside(x, y, a) && Inside(x, y, b)
  }

  lemma Symmetric(a: Box, b: Box)
    ensures Iou(a, b) == Iou(b, a)
  {
    if ValidBox(a) && ValidBox(b) {
      assert Intersection(a, b) == Intersection(b, a);
    }
  }

  lemma QuotientBounds(n: real, d: real)
    requires 0.0 <= n <= d && d > 0.0
    ensures 0.0 <= n / d <= 1.0
    ensures n / d == 0.0 <==> n == 0.0
    ensures n / d == 1.0 <==> n == d
  {
    assert n / d * d == n;
  }

  lemma InUnitInterval(a: Box, b: Box)
    ensures 0.0 <= Iou(a, b) <= 1.0
  {
    hide Times;
    if ValidBox(a) && ValidBox(b) {
      IntersectionBound(a, b);
      UnionPositive(a, b);
      QuotientBounds(Intersection(a, b), Union(a, b));
    }
  }

  // The value is 1 exactly for equal boxes.
  lemma OneExactly(a: Box, b: Box)
    requires ValidBox(a) && ValidBox(b)
    ensures Iou(a, b) == 1.0 <==> a == b
  {
    hide Times;
    IntersectionBound(a, b);
    UnionPositive(a, b);
    QuotientBounds(Intersection(a, b), Union(a, b));
    if Intersection(a, b) == Union(a, b) {
      var w, h := Shared(a.left, a.right, b.left, b.right), Shared(a.top, a.bottom, b.top, b.bottom);
      SameProduct(w, h, a.right - a.left, a.bottom - a.top);
      SameProduct(w, h, b.right - b.left, b.bottom - b.top);
    }
  }

  // The value is 0 exactly for boxes whose interiors have no point in common.
  lemma ZeroExactly(a: Box, b: Box)
    requires ValidBox(a) && ValidBox(b)
    ensures Iou(a, b) == 0.0 <==> !Overlap(a, b)
  {
    hide Times;
    IntersectionBound(a, b);
    UnionPositive(a, b);
    QuotientBounds(Intersection(a, b), Union(a, b));
    var w, h := Shared(a.left, a.right, b.left, b.right), Shared(a.top, a.bottom, b.top, b.bottom);
    PositiveProduct(w, h);
    if w > 0.0 && h > 0.0 {
      var x, y := Max(a.left, b.left) + w / 2.0, Max(a.top, b.top) + h / 2.0;
      assert Inside(x, y, a) && Inside(x, y, b);
    }
  }

  // A box inside another scores the share of it that it covers.
  lemma NestedIsShare(inner: Box, outer: Box)
    requires ValidBox(inner) && ValidBox(outer)
    requires outer.left <= inner.left && inner.right <= outer.right && outer.top <= inner.top
        && inner.bottom <= outer.bottom
    ensures Area(outer) > 0.0 && Iou(inner, outer) == Area(inner) / Area(outer)
  {
    IntersectionBound(outer, inner);
    assert Intersection(inner, outer) == Area(inner);
  }

  // --- Comparison --------------------------------------------------------------------------------------

  datatype Failure = BboxMissing | BboxInvalid | BboxIouBelowThreshold

  // A case fails on its box exactly when a box is missing, invalid, or overlaps too little.
  method CompareBbox(expected: Option<Box>, actual: Option<Box>, threshold: real, failures: seq<Failure>)
    returns (iou: Option<real>, failures': seq<Failure>)
    ensures failures' == failures <==>
              expected.Some? && actual.Some? && ValidBox(expected.value) && ValidBox(actual.value)
              && Iou(expected.value, actual.value) >= threshold
    ensures iou.Some? <==> expected.Some? && actual.Some? && ValidBox(expected.value) && ValidBox(actual.value)
    ensures iou.Some? ==> iou.value == Iou(expected.value, actual.value)
    ensures failures' != failures ==>
              failures' == failures + [if expected.None? || actual.None? then BboxMissing
                                       else if iou.None? then BboxInvalid else BboxIouBelowThreshold]
  {
    iou, failures' := None, failures;
    if expected.None? || actual.None? {
      failures' := failures' + [BboxMissing];
      return;
    }
    if !ValidBox(expected.value) || !ValidBox(actual.value) {
      failures' := failures' + [BboxInvalid];
      return;
    }
    var value := Iou(expected.value, actual.value);
    if value < threshold {
      failures' := failures' + [BboxIouBelowThreshold];
    }
    iou := Some(value);
  }
}
