/**
 Viewport classification of the chat client (detectDevice in chat.js). Only the
 window width decides the device class; the height and the touch capability
 are read but never consulted.
 */
module Layout {

  datatype Device =
    | MobilePortrait
    | MobileLandscape
    | TabletPortrait
    | TabletLandscape
    | DesktopSmall
    | DesktopLarge

  /** The class name the client adds to the page body. */
  function ClassName(d: Device): string {
    match d
    case MobilePortrait => "mobile-portrait"
    case MobileLandscape => "mobile-landscape"
    case TabletPortrait => "tablet-portrait"
    case TabletLandscape => "tablet-landscape"
    case DesktopSmall => "desktop-small"
    case DesktopLarge => "desktop-large"
  }

  /** Position of a class in the order of growing widths. */
  function Rank(d: Device): (r: nat)
    ensures r < 6
  {
    match d
    case MobilePortrait => 0
    case MobileLandscape => 1
    case TabletPortrait => 2
    case TabletLandscape => 3
    case DesktopSmall => 4
    case DesktopLarge => 5
  }

  function DetectDevice(width: int, height: int, isTouch: bool): (d: Device)
    ensures d == MobilePortrait <==> width <= 479
    ensures d == MobileLandscape <==> 480 <= width <= 575
    ensures d == TabletPortrait <==> 576 <= width <= 767
    ensures d == TabletLandscape <==> 768 <= width <= 991
    ensures d == DesktopSmall <==> 992 <= width <= 1199
    ensures d == DesktopLarge <==> width > 1199
  {
    if width <= 479 then MobilePortrait
    else if width <= 575 then MobileLandscape
    else if width <= 767 then TabletPortrait
    else if width <= 991 then TabletLandscape
    else if width <= 1199 then DesktopSmall
    else DesktopLarge
  }

  // ---------------------------------------------------------------------
  // Reference definition: a table of inclusive upper bounds

  /** Inclusive upper width of every class but the last, in rank order. */
  const UpperBounds: seq<int> := [479, 575, 767, 991, 1199]

  /** Index of the first bound at least `width`, or |bounds| when none is. */
  function FirstBoundAtLeast(bounds: seq<int>, width: int): (k: nat)
    ensures k <= |bounds|
    ensures forall i :: 0 <= i < k ==> bounds[i] < width
    ensures k < |bounds| ==> width <= bounds[k]
  {
    if |bounds| == 0 then 0
    else if width <= bounds[0] then 0
    else 1 + FirstBoundAtLeast(bounds[1..], width)
  }

  /** The cascade of comparisons is the table lookup. */
  lemma DetectDeviceIsTableLookup(width: int, height: int, isTouch: bool)
    ensures Rank(DetectDevice(width, height, isTouch)) == FirstBoundAtLeast(UpperBounds, width)
  {
    var k := FirstBoundAtLeast(UpperBounds, width);
    assert UpperBounds[0] == 479 && UpperBounds[1] == 575 && UpperBounds[2] == 767;
    assert UpperBounds[3] == 991 && UpperBounds[4] == 1199;
  }

  /** Wider windows never get a smaller class. */
  lemma DetectDeviceMonotone(w1: int, w2: int, h1: int, h2: int, t1: bool, t2: bool)
    requires w1 <= w2
    ensures Rank(DetectDevice(w1, h1, t1)) <= Rank(DetectDevice(w2, h2, t2))
  {
  }

  /** Height and touch capability never change the class. */
  lemma DeviceIgnoresHeightAndTouch(width: int, h1: int, h2: int, t1: bool, t2: bool)
    ensures DetectDevice(width, h1, t1) == DetectDevice(width, h2, t2)
  {
  }

  /** Distinct classes are announced under distinct names. */
  lemma ClassNamesDistinct(d1: Device, d2: Device)
    requires d1 != d2
    ensures ClassName(d1) != ClassName(d2)
  {
  }
}
