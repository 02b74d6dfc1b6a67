/** The integer arithmetic of the square thumbnail crop: a non-square picture is cut
    down to a square of its shorter side, centred, before it is resized to 300x300. */
module Imaging {
  import opened Wrappers

  /** A crop rectangle as PIL takes it: `(left, top, right, bottom)`, right and bottom
      exclusive. */
  datatype Box = Box(left: int, top: int, right: int, bottom: int)

  function Min(a: int, b: int): int {
    if a <= b then a else b
  }

  /** `b` is a square of side `m` lying inside a `width` x `height` picture. */
  predicate SquareInside(b: Box, m: int, width: int, height: int) {
    b.right - b.left == m && b.bottom - b.top == m &&
    0 <= b.left && b.right <= width && 0 <= b.top && b.bottom <= height
  }

  /** `b` leaves equal margins on both sides of each axis, up to the one odd pixel,
      which goes to the right or bottom margin. */
  predicate Centred(b: Box, width: int, height: int) {
    0 <= (width - b.right) - b.left <= 1 && 0 <= (height - b.bottom) - b.top <= 1
  }

  /** The crop box for a `width` x `height` thumbnail, or `None` when the picture is
      already square and is not cropped. */
  function CenterCrop(width: nat, height: nat): (box: Option<Box>)
    ensures box.None? <==> width == height
    ensures box.Some? ==> SquareInside(box.value, Min(width, height), width, height)
    ensures box.Some? ==> Centred(box.value, width, height)
    ensures box.Some? ==> (width < height ==> box.value.left == 0 && box.value.right == width)
    ensures box.Some? ==> (height < width ==> box.value.top == 0 && box.value.bottom == height)
  {
    if width == height then None
    else
      var side := Min(width, height);
      var left := (width - side) / 2;
      var top := (height - side) / 2;
      Some(Box(left, top, left + side, top + side))
  }

  /** The crop box is the only centred square of the shorter side: any box with those
      properties is the one `CenterCrop` computes. */
  lemma CenteredSquareIsCrop(width: nat, height: nat, b: Box)
    requires width != height
    requires SquareInside(b, Min(width, height), width, height)
    requires Centred(b, width, height)
    ensures CenterCrop(width, height) == Some(b)
  {
    var side := Min(width, height);
    var crop := CenterCrop(width, height);
    assert crop.Some?;
    HalfOfSplit(width - side, b.left, width - b.right);
    HalfOfSplit(height - side, b.top, height - b.bottom);
    assert crop.value.left == b.left && crop.value.right == b.right;
    assert crop.value.top == b.top && crop.value.bottom == b.bottom;
  }

  /** Splitting `n` into `a + (a or a + 1)` makes `a` the floor of `n / 2`. */
  lemma HalfOfSplit(n: int, a: int, rest: int)
    requires 0 <= a && n == a + rest && 0 <= rest - a <= 1
    ensures a == n / 2
  {
  }
}
