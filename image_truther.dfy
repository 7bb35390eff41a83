/** The annotation tool of image_truther.py: the operator marks the buoy
    with a circle (centre and radius) by dragging with the mouse and by the
    h/j/k/l (move) and n/m (shrink/grow) keys, confirms with space, or quits
    with q, leaving the current image's name in a save file from which a
    later run resumes. */
module Truthing {
  import opened Grids

  /** Image coordinates: x grows to the right, y grows downwards. */
  datatype Point = Point(x: int, y: int)

  /** OpenCV mouse event codes. */
  const EventMouseMove: int := 0
  const EventLButtonDown: int := 1
  const EventLButtonUp: int := 4

  /** What a key press leads to.  Only SaveMask corresponds to
      handle_keycode returning True. */
  datatype KeyAction =
    | SaveMask(maskName: string, center: Point, radius: int)  // space: write the circle as a mask, next image
    | SaveAndQuit(savedName: string)                         // q: remember this image and exit
    | Stay                                                   // any other key: keep annotating

  /** Keys whose handling reads the circle centre (None makes them fail). */
  predicate NeedsCenter(keycode: int)
  {
    keycode in {' ' as int, 'h' as int, 'l' as int, 'j' as int, 'k' as int}
  }

  /** int(math.sqrt(n)) for a non-negative integer n: the integer square
      root, exact for the image-sized distances the tool computes. */
  function IntSqrt(n: nat): (r: nat)
    ensures r * r <= n < (r + 1) * (r + 1)
  {
    if n < 4 then (if n == 0 then 0 else 1)
    else
      var s := 2 * IntSqrt(n / 4);
      DoubledRoot(n, IntSqrt(n / 4));
      if (s + 1) * (s + 1) <= n then s + 1 else s
  }

  /** A root of n/4, doubled, is within 2 of a root of n. */
  lemma DoubledRoot(n: nat, t: nat)
    requires t * t <= n / 4 < (t + 1) * (t + 1)
    ensures (2 * t) * (2 * t) <= n < (2 * t + 2) * (2 * t + 2)
  {
    var q := n / 4;
    assert n == 4 * q + n % 4;
    assert (2 * t) * (2 * t) == 4 * (t * t);
    assert (2 * t + 2) * (2 * t + 2) == 4 * ((t + 1) * (t + 1));
    assert q + 1 <= (t + 1) * (t + 1);
  }

  class ImageTruther {
    const closeupRadius: int
    var buoyCenter: Option<Point>
    var buoyRadius: int
    var mouseDragging: bool
    var mousePos: Point

    /** The radius is never negative, and a drag is always anchored at a
        centre. */
    ghost predicate Valid()
      reads this
    {
      buoyRadius >= 0 && (mouseDragging ==> buoyCenter.Some?)
    }

    constructor (closeupRadius: int)
      ensures Valid()
      ensures this.closeupRadius == closeupRadius
      ensures buoyCenter == None && buoyRadius == 0 && !mouseDragging && mousePos == Point(0, 0)
    {
      this.closeupRadius := closeupRadius;
      buoyCenter := None;
      buoyRadius := 0;
      mouseDragging := false;
      mousePos := Point(0, 0);
    }

    /** The reset iterate_images performs before showing each image. */
    method ResetForImage()
      modifies this
      ensures Valid()
      ensures buoyCenter == None && buoyRadius == 0 && !mouseDragging
      ensures mousePos == old(mousePos)
    {
      buoyCenter := None;
      buoyRadius := 0;
      mouseDragging := false;
    }

    /** mouse_callback: pressing the left button sets the centre and starts
        a drag with radius 0; releasing ends the drag; moving records the
        cursor and, while dragging, sets the radius to the truncated
        distance from the centre to the cursor. */
    method MouseCallback(event: int, x: int, y: int)
      requires Valid()
      modifies this
      ensures Valid()
      ensures event == EventLButtonDown ==>
        && buoyCenter == Some(Point(x, y)) && mouseDragging && buoyRadius == 0
        && mousePos == old(mousePos)
      ensures event == EventLButtonUp ==>
        && !mouseDragging
        && buoyCenter == old(buoyCenter) && buoyRadius == old(buoyRadius) && mousePos == old(mousePos)
      ensures event == EventMouseMove ==>
        && mousePos == Point(x, y)
        && buoyCenter == old(buoyCenter) && mouseDragging == old(mouseDragging)
        && (!old(mouseDragging) ==> buoyRadius == old(buoyRadius))
      ensures event == EventMouseMove && old(mouseDragging) ==>
        var dx, dy := x - buoyCenter.value.x, y - buoyCenter.value.y;
        buoyRadius * buoyRadius <= dx * dx + dy * dy < (buoyRadius + 1) * (buoyRadius + 1)
      ensures event !in {EventLButtonDown, EventLButtonUp, EventMouseMove} ==>
        && buoyCenter == old(buoyCenter) && buoyRadius == old(buoyRadius)
        && mouseDragging == old(mouseDragging) && mousePos == old(mousePos)
    {
      if event == EventLButtonDown {
        buoyCenter := Some(Point(x, y));
        mouseDragging := true;
        buoyRadius := 0;
      } else if event == EventLButtonUp {
        mouseDragging := false;
      } else if event == EventMouseMove {
        mousePos := Point(x, y);
        if mouseDragging {
          var dx, dy := x - buoyCenter.value.x, y - buoyCenter.value.y;
          buoyRadius := IntSqrt(dx * dx + dy * dy);
        }
      }
    }

    /** handle_keycode: q saves the image name and quits, space saves the
        circle as the mask "mask.<image name>" and moves on, h/l move the
        centre left/right, j/k move it down/up, m grows the radius and n
        shrinks it without going below 0.  Only space reports True. */
    method HandleKeycode(keycode: int, imgName: string) returns (action: KeyAction)
      requires Valid()
      requires NeedsCenter(keycode) ==> buoyCenter.Some?
      modifies this
      ensures Valid()
      ensures action.SaveMask? <==> keycode == ' ' as int
      ensures mouseDragging == old(mouseDragging) && mousePos == old(mousePos)
      ensures keycode == 'q' as int ==>
        action == SaveAndQuit(imgName) && buoyCenter == old(buoyCenter) && buoyRadius == old(buoyRadius)
      ensures keycode == ' ' as int ==>
        && action == SaveMask("mask." + imgName, old(buoyCenter).value, old(buoyRadius))
        && buoyCenter == old(buoyCenter) && buoyRadius == old(buoyRadius)
      ensures keycode == 'h' as int ==>
        action == Stay && buoyRadius == old(buoyRadius) &&
        buoyCenter == Some(Point(old(buoyCenter).value.x - 1, old(buoyCenter).value.y))
      ensures keycode == 'l' as int ==>
        action == Stay && buoyRadius == old(buoyRadius) &&
        buoyCenter == Some(Point(old(buoyCenter).value.x + 1, old(buoyCenter).value.y))
      ensures keycode == 'j' as int ==>
        action == Stay && buoyRadius == old(buoyRadius) &&
        buoyCenter == Some(Point(old(buoyCenter).value.x, old(buoyCenter).value.y + 1))
      ensures keycode == 'k' as int ==>
        action == Stay && buoyRadius == old(buoyRadius) &&
        buoyCenter == Some(Point(old(buoyCenter).value.x, old(buoyCenter).value.y - 1))
      ensures keycode == 'm' as int ==>
        action == Stay && buoyCenter == old(buoyCenter) && buoyRadius == old(buoyRadius) + 1
      ensures keycode == 'n' as int ==>
        && action == Stay && buoyCenter == old(buoyCenter)
        && buoyRadius == (if old(buoyRadius) - 1 > 0 then old(buoyRadius) - 1 else 0)
      ensures keycode !in {'q' as int, ' ' as int, 'h' as int, 'l' as int, 'j' as int, 'k' as int, 'm' as int, 'n' as int} ==>
        action == Stay && buoyCenter == old(buoyCenter) && buoyRadius == old(buoyRadius)
    {
      action := Stay;
      if keycode == 'q' as int {
        action := SaveAndQuit(imgName);
      } else if keycode == ' ' as int {
        action := SaveMask("mask." + imgName, buoyCenter.value, buoyRadius);
      } else if keycode == 'h' as int {
        buoyCenter := Some(Point(buoyCenter.value.x - 1, buoyCenter.value.y));
      } else if keycode == 'l' as int {
        buoyCenter := Some(Point(buoyCenter.value.x + 1, buoyCenter.value.y));
      } else if keycode == 'j' as int {
        buoyCenter := Some(Point(buoyCenter.value.x, buoyCenter.value.y + 1));
      } else if keycode == 'k' as int {
        buoyCenter := Some(Point(buoyCenter.value.x, buoyCenter.value.y - 1));
      } else if keycode == 'm' as int {
        buoyRadius := buoyRadius + 1;
      } else if keycode == 'n' as int {
        buoyRadius := if buoyRadius - 1 > 0 then buoyRadius - 1 else 0;
      }
    }

    /** The part of the image display_closeup_window copies around the
        current cursor position, with the slice ends clamped to the image's
        width and height (see CloseupBounds for the code as written). */
    function Closeup(imgWidth: int, imgHeight: int): (b: Bounds)
      reads this
      ensures forall p :: Shows(b, p, imgWidth, imgHeight) ==> 0 <= p.x < imgWidth && 0 <= p.y < imgHeight
      ensures closeupRadius > 0 && 0 <= mousePos.x < imgWidth && 0 <= mousePos.y < imgHeight ==>
        Shows(b, mousePos, imgWidth, imgHeight)
    {
      IntendedCloseupContainsCursor(mousePos, imgWidth, imgHeight, closeupRadius);
      IntendedCloseupBounds(mousePos, imgWidth, imgHeight, closeupRadius)
    }
  }

  /** The slice ends of the close-up img[y1:y2, x1:x2], as computed. */
  datatype Bounds = Bounds(x1: int, x2: int, y1: int, y2: int)

  /** Python's reading of a slice end i on a sequence of length n: a
      negative end counts from the right, and the result is clamped to
      [0, n]. */
  function SliceIndex(i: int, n: int): (r: int)
    requires n >= 0
    ensures 0 <= r <= n
    ensures 0 <= i <= n ==> r == i
    ensures -n <= i < 0 ==> r == n + i
    ensures i < -n ==> r == 0
    ensures i > n ==> r == n
  {
    if i < 0 then (if i + n < 0 then 0 else i + n) else if i > n then n else i
  }

  /** Whether the close-up of a width x height image shows pixel p: the
      slice keeps the columns from the first normalised end up to, but
      excluding, the second, and the same for rows. */
  predicate Shows(b: Bounds, p: Point, width: int, height: int)
  {
    width >= 0 && height >= 0 &&
    SliceIndex(b.x1, width) <= p.x < SliceIndex(b.x2, width) &&
    SliceIndex(b.y1, height) <= p.y < SliceIndex(b.y2, height)
  }

  /** The four clamps of display_closeup_window as written: the slice ends
      are clamped to the last column and row, width - 1 and height - 1.
      The lower clamp keeps the start ends non-negative; the upper ends are
      negative for a cursor more than the radius left of or above the
      image (see CloseupWrapsNegativeEnd). */
  function CloseupBounds(mouse: Point, width: int, height: int, radius: int): (b: Bounds)
    ensures 0 <= b.x1 && b.x2 <= width - 1 && 0 <= b.y1 && b.y2 <= height - 1
    ensures b.x2 - b.x1 <= 2 * radius && b.y2 - b.y1 <= 2 * radius
  {
    Bounds(if mouse.x - radius >= 0 then mouse.x - radius else 0,
           if mouse.x + radius <= width - 1 then mouse.x + radius else width - 1,
           if mouse.y - radius >= 0 then mouse.y - radius else 0,
           if mouse.y + radius <= height - 1 then mouse.y + radius else height - 1)
  }

  /** As written, the close-up shows the cursor whenever the cursor is
      off the last column and the last row, and it is the full
      radius-wide range whenever no clamp applies. */
  lemma CloseupContainsCursor(mouse: Point, width: int, height: int, radius: int)
    requires radius > 0
    requires 0 <= mouse.x < width - 1 && 0 <= mouse.y < height - 1
    ensures Shows(CloseupBounds(mouse, width, height, radius), mouse, width, height)
    ensures var b := CloseupBounds(mouse, width, height, radius);
      radius <= mouse.x && mouse.x + radius <= width - 1 ==> b.x1 == mouse.x - radius && b.x2 == mouse.x + radius
  {
  }

  /** As written, the close-up never shows the image's last column or last
      row: a cursor there is missing from its own close-up. */
  lemma CloseupMissesLastColumnAndRow(mouse: Point, width: int, height: int, radius: int)
    requires 0 <= mouse.x < width && 0 <= mouse.y < height
    requires mouse.x == width - 1 || mouse.y == height - 1
    ensures !Shows(CloseupBounds(mouse, width, height, radius), mouse, width, height)
  {
  }

  /** As written, a cursor more than the radius left of the image gives a
      negative slice end x2 = mouse.x + radius, which Python counts from the
      right: the close-up then copies every column before width + x2, far
      more than twice the radius when the image is wide. */
  lemma CloseupWrapsNegativeEnd(mouse: Point, width: int, height: int, radius: int)
    requires radius >= 0 && width > 0 && height > 0
    requires -width <= mouse.x + radius < 0
    ensures CloseupBounds(mouse, width, height, radius).x2 == mouse.x + radius
    ensures var b := CloseupBounds(mouse, width, height, radius);
      forall p: Point :: Shows(b, p, width, height) <==>
        0 <= p.x < width + mouse.x + radius && SliceIndex(b.y1, height) <= p.y < SliceIndex(b.y2, height)
  {
    var b := CloseupBounds(mouse, width, height, radius);
    assert SliceIndex(b.x1, width) == 0;
    assert SliceIndex(b.x2, width) == width + mouse.x + radius;
  }

  /** The close-up with its slice ends clamped to width and height, so that
      the last column and row can be shown. */
  function IntendedCloseupBounds(mouse: Point, width: int, height: int, radius: int): (b: Bounds)
    ensures 0 <= b.x1 && b.x2 <= width && 0 <= b.y1 && b.y2 <= height
    ensures b.x2 - b.x1 <= 2 * radius && b.y2 - b.y1 <= 2 * radius
  {
    Bounds(if mouse.x - radius >= 0 then mouse.x - radius else 0,
           if mouse.x + radius <= width then mouse.x + radius else width,
           if mouse.y - radius >= 0 then mouse.y - radius else 0,
           if mouse.y + radius <= height then mouse.y + radius else height)
  }

  /** The corrected close-up shows the cursor wherever it is in the image,
      and only pixels of the image. */
  lemma IntendedCloseupContainsCursor(mouse: Point, width: int, height: int, radius: int)
    ensures forall p :: Shows(IntendedCloseupBounds(mouse, width, height, radius), p, width, height) ==>
      0 <= p.x < width && 0 <= p.y < height
    ensures radius > 0 && 0 <= mouse.x < width && 0 <= mouse.y < height ==>
      Shows(IntendedCloseupBounds(mouse, width, height, radius), mouse, width, height)
  {
  }

  /** list.index: the position of the first occurrence. */
  function IndexOf(s: seq<string>, x: string): (r: int)
    requires x in s
    ensures 0 <= r < |s| && s[r] == x && x !in s[..r]
  {
    if s[0] == x then 0
    else
      var r := 1 + IndexOf(s[1..], x);
      assert s[..r] == [s[0]] + s[1..][..r - 1];
      r
  }

  /** Why a resume cannot start. */
  datatype ResumeError = SavedNameMissing

  /** The list of images run processes: all of them, or, when a saved name
      is given, the suffix of the sorted list from that name on. */
  function Resume(sortedNames: seq<string>, lastImage: Option<string>): (r: Result<seq<string>, ResumeError>)
    ensures lastImage.None? ==> r == Ok(sortedNames)
    ensures lastImage.Some? ==> (r.Ok? <==> lastImage.value in sortedNames)
    ensures lastImage.Some? && r.Ok? ==>
      && 0 < |r.value| <= |sortedNames| && r.value[0] == lastImage.value
      && r.value == sortedNames[|sortedNames| - |r.value|..]
      && lastImage.value !in sortedNames[..|sortedNames| - |r.value|]
  {
    match lastImage
    case None => Ok(sortedNames)
    case Some(name) =>
      if name in sortedNames then Ok(sortedNames[IndexOf(sortedNames, name)..])
      else Err(SavedNameMissing)
  }

  /** Quitting on an image and resuming continues from that very image. */
  lemma QuitThenResume(sortedNames: seq<string>, i: int)
    requires 0 <= i < |sortedNames|
    requires forall a, b | 0 <= a < b < |sortedNames| :: sortedNames[a] != sortedNames[b]
    ensures Resume(sortedNames, Some(sortedNames[i])) == Ok(sortedNames[i..])
  {
    var r := IndexOf(sortedNames, sortedNames[i]);
  }
}
