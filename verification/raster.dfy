/**
  RGBA pixel buffers as the page's canvases hold them: four bytes per pixel
  (red, green, blue, alpha), row by row. This module holds the canvas itself,
  the "has content" scan run when a stroke ends, and the binarization pass that
  turns a resampled overlay into a black-and-white inpainting mask.
 */
module Raster {

  /** Every byte is zero: a cleared, fully transparent canvas. */
  predicate Blank(s: seq<bv8>)
  {
    forall k :: 0 <= k < |s| ==> s[k] == 0
  }

  /** `s` after writing `p` over it from the start, clipped to the length of `s`. */
  function Overlaid(s: seq<bv8>, p: seq<bv8>): (r: seq<bv8>)
    ensures |r| == |s|
  {
    seq(|s|, k requires 0 <= k < |s| => if k < |p| then p[k] else s[k])
  }

  /** `n` transparent bytes. */
  function Transparent(n: nat): (r: seq<bv8>)
    ensures |r| == n && Blank(r)
  {
    seq(n, _ => 0)
  }

  /** A canvas: a fixed size and its pixel buffer of exactly `4 * width * height` bytes. */
  class Canvas {
    const width: nat
    const height: nat
    const data: array<bv8>

    predicate Valid()
    {
      data.Length == 4 * (width * height)
    }

    /** A fresh canvas of the given size is fully transparent. */
    constructor (w: nat, h: nat)
      ensures width == w && height == h && Valid()
      ensures fresh(data) && data[..] == Transparent(4 * (w * h))
    {
      width, height := w, h;
      data := new bv8[4 * (w * h)](_ => 0);
    }

    function Pixels(): seq<bv8>
      reads data
    {
      data[..]
    }

    /** `ctx.clearRect(0, 0, canvas.width, canvas.height)` */
    method ClearRect()
      modifies data
      ensures Blank(data[..])
    {
      forall k | 0 <= k < data.Length {
        data[k] := 0;
      }
    }

    /**
      Writes pixels produced by the browser (a stroke, a resampled image); the
      canvas keeps its size whatever the browser produced.
     */
    method PutPixels(p: seq<bv8>)
      modifies data
      ensures data[..] == Overlaid(old(data[..]), p)
    {
      forall k | 0 <= k < data.Length && k < |p| {
        data[k] := p[k];
      }
    }
  }

  // ---------------------------------------------------------------------------
  // The "has content" scan of stopInpaint / stopSketch
  // ---------------------------------------------------------------------------

  /** Pixel `k` read as one 32-bit word through a `Uint32Array` view (little-endian). */
  function Word(s: seq<bv8>, k: nat): bv32
    requires 4 * k + 4 <= |s|
  {
    (s[4 * k] as bv32)
    | ((s[4 * k + 1] as bv32) << 8)
    | ((s[4 * k + 2] as bv32) << 16)
    | ((s[4 * k + 3] as bv32) << 24)
  }

  /** Some pixel word is non-zero. */
  ghost predicate HasContent(s: seq<bv8>)
  {
    exists k: nat :: 4 * k + 4 <= |s| && Word(s, k) != 0
  }

  /** A pixel word is zero exactly when its four bytes are. */
  lemma WordZero(s: seq<bv8>, k: nat)
    requires 4 * k + 4 <= |s|
    ensures Word(s, k) == 0 <==> s[4 * k] == 0 && s[4 * k + 1] == 0 && s[4 * k + 2] == 0 && s[4 * k + 3] == 0
  {
    var a, b, c, d := s[4 * k] as bv32, s[4 * k + 1] as bv32, s[4 * k + 2] as bv32, s[4 * k + 3] as bv32;
    assert a < 256 && b < 256 && c < 256 && d < 256;
  }

  /**
    Scanning words and scanning bytes agree: a buffer of whole pixels has
    content exactly when one of its bytes is non-zero.
   */
  lemma ContentIffNonZeroByte(s: seq<bv8>)
    requires |s| % 4 == 0
    ensures HasContent(s) <==> exists i :: 0 <= i < |s| && s[i] != 0
  {
    if HasContent(s) {
      var k: nat :| 4 * k + 4 <= |s| && Word(s, k) != 0;
      WordZero(s, k);
    }
    if i :| 0 <= i < |s| && s[i] != 0 {
      var k: nat := i / 4;
      assert 4 * k <= i < 4 * k + 4;
      WordZero(s, k);
      assert Word(s, k) != 0;
    }
  }

  /** A cleared canvas reports no content. */
  lemma BlankHasNoContent(s: seq<bv8>)
    requires Blank(s)
    ensures !HasContent(s)
  {
    forall k: nat | 4 * k + 4 <= |s|
      ensures Word(s, k) == 0
    {
      WordZero(s, k);
    }
  }

  /** A canvas with one painted (non-transparent) pixel reports content. */
  lemma PaintedPixelIsContent(s: seq<bv8>, p: nat)
    requires 4 * p + 4 <= |s| && s[4 * p + 3] != 0
    ensures HasContent(s)
  {
    WordZero(s, p);
  }

  /** `new Uint32Array(buffer).some(color => color !== 0)` */
  method AnyNonZeroWord(data: array<bv8>) returns (found: bool)
    ensures found <==> HasContent(data[..])
  {
    var k: nat := 0;
    while 4 * k + 4 <= data.Length
      invariant 4 * k <= data.Length
      invariant forall j: nat :: j < k ==> Word(data[..], j) == 0
      decreases data.Length - 4 * k
    {
      if Word(data[..], k) != 0 {
        return true;
      }
      k := k + 1;
    }
    return false;
  }

  // ---------------------------------------------------------------------------
  // Mask binarization (handleInpaint)
  // ---------------------------------------------------------------------------

  const White: seq<bv8> := [255, 255, 255, 255]
  const Black: seq<bv8> := [0, 0, 0, 255]

  /** Opaque white for a pixel with any alpha, opaque black for a transparent one. */
  function PixelMask(alpha: bv8): seq<bv8>
  {
    if alpha > 0 then White else Black
  }

  /** The four bytes of pixel `p`. */
  function PixelAt(s: seq<bv8>, p: nat): seq<bv8>
    requires 4 * p + 4 <= |s|
  {
    s[4 * p..4 * p + 4]
  }

  /** The buffer after the binarization loop, pixel by pixel. */
  function Binarized(s: seq<bv8>): (r: seq<bv8>)
    requires |s| % 4 == 0
    ensures |r| == |s|
    decreases |s|
  {
    if |s| == 0 then [] else Binarized(s[..|s| - 4]) + PixelMask(s[|s| - 1])
  }

  /** Each pixel of the mask is the mask colour of the same pixel's alpha. */
  lemma {:induction false} BinarizedPixel(s: seq<bv8>, p: nat)
    requires |s| % 4 == 0 && 4 * p + 4 <= |s|
    ensures PixelAt(Binarized(s), p) == PixelMask(s[4 * p + 3])
    decreases |s|
  {
    var init := s[..|s| - 4];
    if 4 * p + 4 == |s| {
      assert Binarized(s) == Binarized(init) + PixelMask(s[|s| - 1]);
    } else {
      BinarizedPixel(init, p);
      assert init[4 * p + 3] == s[4 * p + 3];
      assert Binarized(s) == Binarized(init) + PixelMask(s[|s| - 1]);
      assert Binarized(s)[4 * p..4 * p + 4] == Binarized(init)[4 * p..4 * p + 4];
    }
  }

  /** Every pixel is opaque white or opaque black. */
  ghost predicate TwoColour(s: seq<bv8>)
  {
    forall p: nat :: 4 * p + 4 <= |s| ==> PixelAt(s, p) == White || PixelAt(s, p) == Black
  }

  /**
    The mask holds only opaque white and opaque black, keeps the buffer's
    length, and is white exactly where the overlay had any alpha.
   */
  lemma BinarizedIsTwoColour(s: seq<bv8>)
    requires |s| % 4 == 0
    ensures |Binarized(s)| == |s| && TwoColour(Binarized(s))
    ensures forall p: nat :: 4 * p + 4 <= |s| ==>
              (PixelAt(Binarized(s), p) == White <==> s[4 * p + 3] > 0)
              && (PixelAt(Binarized(s), p) == Black <==> s[4 * p + 3] == 0)
  {
    forall p: nat | 4 * p + 4 <= |s|
      ensures (PixelAt(Binarized(s), p) == White <==> s[4 * p + 3] > 0)
              && (PixelAt(Binarized(s), p) == Black <==> s[4 * p + 3] == 0)
    {
      BinarizedPixel(s, p);
      assert White[0] != Black[0];
    }
  }

  /** Binarizing one more pixel appends that pixel's mask colour. */
  lemma BinarizedStep(s: seq<bv8>, p: nat)
    requires 4 * p + 4 <= |s|
    ensures |s[..4 * p]| % 4 == 0 && |s[..4 * p + 4]| % 4 == 0
    ensures Binarized(s[..4 * p + 4]) == Binarized(s[..4 * p]) + PixelMask(s[4 * p + 3])
  {
    var t := s[..4 * p + 4];
    assert t[..|t| - 4] == s[..4 * p];
  }

  /** One more pixel binarized, in terms of the whole buffer: binarized prefix, untouched rest. */
  lemma {:induction false} BinarizeStepWhole(before: seq<bv8>, cur: seq<bv8>, next: seq<bv8>, p: nat)
    requires 4 * p + 4 <= |before|
    requires |before[..4 * p]| % 4 == 0
    requires cur == Binarized(before[..4 * p]) + before[4 * p..]
    requires next == cur[..4 * p] + PixelMask(cur[4 * p + 3]) + cur[4 * p + 4..]
    ensures |before[..4 * p + 4]| % 4 == 0
    ensures next == Binarized(before[..4 * p + 4]) + before[4 * p + 4..]
  {
    var head := Binarized(before[..4 * p]);
    assert cur[..4 * p] == head;
    assert cur[4 * p + 3] == before[4 * p + 3];
    assert cur[4 * p + 4..] == before[4 * p + 4..];
    BinarizedStep(before, p);
  }

  /** One iteration of the binarization loop: pixel `i / 4` gets its mask colour, nothing else changes. */
  method BinarizePixel(data: array<bv8>, i: nat)
    requires i + 4 <= data.Length
    modifies data
    ensures data[..] == old(data[..])[..i] + PixelMask(old(data[i + 3])) + old(data[..])[i + 4..]
  {
    if data[i + 3] > 0 {
      data[i] := 255;
      data[i + 1] := 255;
      data[i + 2] := 255;
    } else {
      data[i] := 0;
      data[i + 1] := 0;
      data[i + 2] := 0;
    }
    data[i + 3] := 255;
  }

  /** The loop of handleInpaint that turns the mask canvas's pixels into the black-and-white mask. */
  method BinarizeMask(mask: Canvas)
    requires mask.Valid()
    modifies mask.data
    ensures mask.data[..] == Binarized(old(mask.data[..]))
  {
    var data := mask.data;
    ghost var before := data[..];
    var i := 0;
    ghost var p: nat := 0;
    while i < data.Length
      invariant i == 4 * p && i <= data.Length
      invariant |before[..i]| % 4 == 0
      invariant data[..] == Binarized(before[..i]) + before[i..]
    {
      ghost var cur := data[..];
      BinarizePixel(data, i);
      BinarizeStepWhole(before, cur, data[..], p);
      i, p := i + 4, p + 1;
    }
    assert before[..i] == before;
  }
}
