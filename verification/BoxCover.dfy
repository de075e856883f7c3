/** Intersection and union of boxes as what they cover, point by point. */
module BoxCover {
  import opened BoundingBoxes
  import opened Numerals

  // Left and top edges belong to a box, right and bottom edges do not.
  predicate Covers(b: Box, x: real, y: real) {
    b.left <= x < b.right && b.top <= y < b.bottom
  }

  function Common(a: Box, b: Box): Box {
    Box(Max(a.left, b.left), Max(a.top, b.top), Min(a.right, b.right), Min(a.bottom, b.bottom))
  }

  // The boxes cut an overlapping box into what lies left of, right of, above and below the other one.
  function Outside(b: Box, a: Box): seq<Box> {
    var c := Common(a, b);
    if !ValidBox(c) then [b]
    else [Box(b.left, b.top, c.left, b.bottom), Box(c.right, b.top, b.right, b.bottom),
          Box(c.left, b.top, c.right, c.top), Box(c.left, c.bottom, c.right, b.bottom)]
  }

  function Areas(boxes: seq<Box>): real {
    if boxes == [] then 0.0 else Areas(boxes[..|boxes| - 1]) + Area(boxes[|boxes| - 1])
  }

  // The intersection is the area of what both boxes cover.
  lemma IntersectionIsCovered(a: Box, b: Box)
    requires ValidBox(a) && ValidBox(b)
    ensures forall x: real, y: real :: Covers(Common(a, b), x, y) <==> Covers(a, x, y) && Covers(b, x, y)
    ensures Intersection(a, b) == if ValidBox(Common(a, b)) then Area(Common(a, b)) else 0.0
  {
    var c := Common(a, b);
    assert Shared(a.left, a.right, b.left, b.right) == Max(0.0, c.right - c.left);
    assert Shared(a.top, a.bottom, b.top, b.bottom) == Max(0.0, c.bottom - c.top);
  }

  // What one box covers outside the other is covered by these pieces, each point of it by one of them only.
  lemma OutsideIsCovered(a: Box, b: Box, x: real, y: real)
    requires ValidBox(a) && ValidBox(b)
    ensures (exists i :: 0 <= i < |Outside(b, a)| && Covers(Outside(b, a)[i], x, y)) <==>
        Covers(b, x, y) && !Covers(a, x, y)
    ensures forall i, k :: 0 <= i < k < |Outside(b, a)| ==>
        !(Covers(Outside(b, a)[i], x, y) && Covers(Outside(b, a)[k], x, y))
    ensures forall i :: 0 <= i < |Outside(b, a)| ==>
              Outside(b, a)[i].left <= Outside(b, a)[i].right && Outside(b, a)[i].top <= Outside(b, a)[i].bottom
  {
    var pieces, c := Outside(b, a), Common(a, b);
    if Covers(b, x, y) && !Covers(a, x, y) {
      if !ValidBox(c) || x < c.left {
        assert Covers(pieces[0], x, y);
      } else if x >= c.right {
        assert Covers(pieces[1], x, y);
      } else if y < c.top {
        assert Covers(pieces[2], x, y);
      } else {
        assert Covers(pieces[3], x, y);
      }
    }
  }

  lemma WidthsAdd(w: real, w': real, h: real)
    ensures Times(w + w', h) == Times(w, h) + Times(w', h) && Times(h, w + w') == Times(h, w) + Times(h, w')
  {
  }

  // So their areas are the area of the box but for the intersection.
  lemma OutsideAdds(a: Box, b: Box)
    requires ValidBox(a) && ValidBox(b)
    ensures Areas(Outside(b, a)) == Area(b) - Intersection(a, b)
  {
    IntersectionIsCovered(a, b);
    var c, pieces := Common(a, b), Outside(b, a);
    if ValidBox(c) {
      var h := b.bottom - b.top;
      WidthsAdd(c.left - b.left, c.right - c.left, h);
      WidthsAdd(c.right - b.left, b.right - c.right, h);
      WidthsAdd(c.top - b.top, c.bottom - c.top, c.right - c.left);
      WidthsAdd(c.bottom - b.top, b.bottom - c.bottom, c.right - c.left);
      FourAreas(pieces);
    } else {
      assert pieces[..0] == [];
    }
    hide Times, Intersection, Shared;
  }

  lemma FourAreas(boxes: seq<Box>)
    requires |boxes| == 4
    ensures Areas(boxes) == Area(boxes[0]) + Area(boxes[1]) + Area(boxes[2]) + Area(boxes[3])
  {
    hide Area;
    assert boxes[..1][..0] == [] && boxes[..2][..1] == boxes[..1] && boxes[..3][..2] == boxes[..2];
    assert Areas(boxes[..1]) == Areas([]) + Area(boxes[0]);
    assert Areas(boxes[..2]) == Areas(boxes[..1]) + Area(boxes[1]);
    assert Areas(boxes[..3]) == Areas(boxes[..2]) + Area(boxes[2]);
  }

  // The value is the area that both cover by the area that either covers, the latter cut into disjoint boxes.
  lemma IouIsCovered(a: Box, b: Box)
    requires ValidBox(a) && ValidBox(b)
    ensures Iou(a, b) * (Area(a) + Areas(Outside(b, a))) == if ValidBox(Common(a, b)) then Area(Common(a, b)) else 0.0
    ensures Area(a) + Areas(Outside(b, a)) > 0.0
  {
    OutsideAdds(a, b);
    IntersectionIsCovered(a, b);
    UnionPositive(a, b);
    hide Times, Intersection, Shared, Areas, Outside, Common;
  }
}
