/**
 * Images as grids of 8-bit samples, and the two transforms of the toolkit
 * that are plain integer arithmetic over every sample: the negative and
 * the binary threshold.
 */
module Images {

  /** A raster: rows of samples. A grayscale image has one sample per pixel. */
  type Image = seq<seq<int>>

  /** A sample of an 8-bit image. */
  predicate IsSample(v: int) {
    0 <= v <= 255
  }

  /** Every sample of `img` is an 8-bit value. */
  predicate WellFormed(img: Image) {
    forall i, j :: 0 <= i < |img| && 0 <= j < |img[i]| ==> IsSample(img[i][j])
  }

  /** `a` and `b` have the same rows with the same number of samples each. */
  predicate SameShape(a: Image, b: Image) {
    |a| == |b| && forall i :: 0 <= i < |a| ==> |a[i]| == |b[i]|
  }

  /** Every sample is black (0) or white (255). */
  predicate IsBinary(img: Image) {
    forall i, j :: 0 <= i < |img| && 0 <= j < |img[i]| ==> img[i][j] == 0 || img[i][j] == 255
  }

  /** The negative of an image: the array expression `255 - array` over 8-bit samples. */
  function Negate(img: Image): (r: Image)
    ensures SameShape(r, img)
    ensures forall i, j :: 0 <= i < |img| && 0 <= j < |img[i]| ==> r[i][j] + img[i][j] == 255
  {
    seq(|img|, i requires 0 <= i < |img| => seq(|img[i]|, j requires 0 <= j < |img[i]| => 255 - img[i][j]))
  }

  /** The negative of an 8-bit image is again an 8-bit image, so the uint8 subtraction never wraps. */
  lemma NegateWellFormed(img: Image)
    requires WellFormed(img)
    ensures WellFormed(Negate(img))
  {
    var r := Negate(img);
    forall i, j | 0 <= i < |r| && 0 <= j < |r[i]|
      ensures IsSample(r[i][j])
    {
      assert r[i][j] == 255 - img[i][j];
    }
  }

  /** Taking the negative twice gives back the input. */
  lemma NegateInvolution(img: Image)
    ensures Negate(Negate(img)) == img
  {
    var r := Negate(Negate(img));
    assert |r| == |img|;
    forall i | 0 <= i < |img|
      ensures r[i] == img[i]
    {
      assert |r[i]| == |img[i]|;
      forall j | 0 <= j < |img[i]|
        ensures r[i][j] == img[i][j]
      {
        assert Negate(img)[i][j] == 255 - img[i][j];
      }
    }
  }

  /** Thresholding a grayscale image: `np.where(array >= threshold, 255, 0)`; any integer threshold is accepted. */
  function Binarize(img: Image, threshold: int): (r: Image)
    ensures SameShape(r, img)
    ensures forall i, j :: 0 <= i < |img| && 0 <= j < |img[i]| ==> (r[i][j] == 255 <==> img[i][j] >= threshold)
  {
    seq(|img|, i requires 0 <= i < |img| =>
      seq(|img[i]|, j requires 0 <= j < |img[i]| => if img[i][j] >= threshold then 255 else 0))
  }

  /** A thresholded image holds only black and white samples, so it is an 8-bit image. */
  lemma BinarizeBinary(img: Image, threshold: int)
    ensures IsBinary(Binarize(img, threshold))
    ensures WellFormed(Binarize(img, threshold))
  {
    var r := Binarize(img, threshold);
    forall i, j | 0 <= i < |r| && 0 <= j < |r[i]|
      ensures r[i][j] == 0 || r[i][j] == 255
    {
      assert r[i][j] == if img[i][j] >= threshold then 255 else 0;
    }
  }

  /** A threshold below every sample value gives an all-white image; one above them all an all-black one. */
  lemma BinarizeOutOfRange(img: Image, threshold: int)
    requires WellFormed(img)
    ensures threshold <= 0 ==> forall i, j :: 0 <= i < |img| && 0 <= j < |img[i]| ==> Binarize(img, threshold)[i][j] == 255
    ensures threshold > 255 ==> forall i, j :: 0 <= i < |img| && 0 <= j < |img[i]| ==> Binarize(img, threshold)[i][j] == 0
  {
  }

  /**
   * Thresholding a thresholded image again at the same threshold changes
   * nothing, for every threshold on an 8-bit image and for a threshold in
   * 1..255 on any image.
   */
  lemma BinarizeIdempotent(img: Image, threshold: int)
    requires WellFormed(img) || 1 <= threshold <= 255
    ensures Binarize(Binarize(img, threshold), threshold) == Binarize(img, threshold)
  {
    var b := Binarize(img, threshold);
    var r := Binarize(b, threshold);
    forall i | 0 <= i < |b|
      ensures r[i] == b[i]
    {
      forall j | 0 <= j < |b[i]|
        ensures r[i][j] == b[i][j]
      {
        assert b[i][j] == if img[i][j] >= threshold then 255 else 0;
        assert WellFormed(img) ==> IsSample(img[i][j]);
      }
    }
  }
}
