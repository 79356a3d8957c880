/**
 * The operations the toolkit hands to its runner. Each one receives the
 * source image and either returns a new image or raises. Pillow's filters and
 * its LANCZOS resampling are an opaque library, passed in as a function; the
 * integer transforms (negative, threshold) are computed here.
 */
module Transforms {
  import opened Wrappers
  import opened Images
  import opened Params

  /** The Pillow operations the toolkit calls, by name and argument. */
  datatype Filter =
    | GaussianBlur(radius: int)
    | Blur
    | FindEdges
    | EdgeEnhance
    | EdgeEnhanceMore
    | Lanczos(size: Size)

  /** An exception raised during an operation: a `ValueError`, or any other kind. */
  datatype Fault = ValueError(message: string) | OtherError(message: string)

  /** Pillow, seen from the toolkit: it applies a filter or raises. */
  type Library = (Filter, Image) -> Result<Image, Fault>

  /** The operations of the processing panel that the model covers, with the text of their entry fields. */
  datatype Transform =
    | Negative
    | Smoothing(kernelText: string)
    | Resize(sizeText: string)
    | Threshold(thresholdText: string)
    | EdgeDetection(edgeMethod: string)

  /** The filter for the selected edge method: Sobel and Prewitt by name, anything else the strongest enhancement. */
  function EdgeFilter(edgeMethod: string): (f: Filter)
    ensures f == FindEdges <==> edgeMethod == "sobel"
    ensures f == EdgeEnhance <==> edgeMethod == "prewitt"
    ensures f == EdgeEnhanceMore <==> edgeMethod != "sobel" && edgeMethod != "prewitt"
  {
    if edgeMethod == "sobel" then FindEdges
    else if edgeMethod == "prewitt" then EdgeEnhance
    else EdgeEnhanceMore
  }

  /**
   * Runs one operation on `img`; a `ValueError` the operation catches becomes
   * its fallback result. The negative and the threshold never raise; only
   * the operations that call Pillow can.
   */
  function Apply(t: Transform, lib: Library, img: Image): (r: Result<Image, Fault>)
    ensures t.Negative? || t.Threshold? ==> r.Ok?
    ensures r.Err? ==> t.Smoothing? || t.Resize? || t.EdgeDetection?
    ensures t.Resize? && r.Err? ==> r.error.OtherError?
  {
    match t
    case Negative => Ok(Negate(img))
    case Smoothing(text) =>
      (match ParseInt(text)
       case None => lib(Blur, img)
       case Some(k) =>
         (match lib(GaussianBlur(SmoothingRadius(k)), img)
          case Err(ValueError(_)) => lib(Blur, img)
          case other => other))
    case Resize(text) =>
      (match ParseSize(text)
       case None => Ok(img)
       case Some(size) =>
         (match lib(Lanczos(size), img)
          case Err(ValueError(_)) => Ok(img)
          case other => other))
    case Threshold(text) =>
      (match ParseInt(text)
       case None => Ok(img)
       case Some(threshold) => Ok(Binarize(img, threshold)))
    case EdgeDetection(edgeMethod) => lib(EdgeFilter(edgeMethod), img)
  }

  /** The negative never raises and never calls the library; applying it twice restores the image. */
  lemma NegativeTwice(lib: Library, img: Image)
    ensures Apply(Negative, lib, img).Ok?
    ensures Apply(Negative, lib, Apply(Negative, lib, img).value) == Ok(img)
  {
    NegateInvolution(img);
  }

  /**
   * A resize or threshold entry that does not convert makes the operation
   * return its input unchanged instead of raising.
   */
  lemma BadParameterKeepsImage(t: Transform, lib: Library, img: Image)
    requires (t.Resize? && ParseSize(t.sizeText) == None) || (t.Threshold? && ParseInt(t.thresholdText) == None)
    ensures Apply(t, lib, img) == Ok(img)
  {
  }

  /** A threshold that converts yields a black-and-white image, white exactly where the sample reaches it. */
  lemma ThresholdResult(text: string, lib: Library, img: Image)
    requires ParseInt(text).Some?
    ensures Apply(Threshold(text), lib, img) == Ok(Binarize(img, ParseInt(text).value))
    ensures var r := Apply(Threshold(text), lib, img).value;
      && SameShape(r, img) && IsBinary(r) && WellFormed(r)
      && forall i, j :: 0 <= i < |img| && 0 <= j < |img[i]| ==> (r[i][j] == 255 <==> img[i][j] >= ParseInt(text).value)
  {
    BinarizeBinary(img, ParseInt(text).value);
  }

  /**
   * A resize entry that parses asks Pillow for a LANCZOS resize to that size,
   * and returns the input unchanged if Pillow raises a `ValueError`.
   */
  lemma ResizeResult(text: string, lib: Library, img: Image)
    requires ParseSize(text).Some?
    ensures var f := Lanczos(ParseSize(text).value);
      Apply(Resize(text), lib, img) == (if lib(f, img).Err? && lib(f, img).error.ValueError? then Ok(img) else lib(f, img))
  {
  }

  /** Edge detection hands the image to the filter of its method, and whatever Pillow returns or raises is the result. */
  lemma EdgeDetectionResult(edgeMethod: string, lib: Library, img: Image)
    ensures Apply(EdgeDetection(edgeMethod), lib, img) == lib(EdgeFilter(edgeMethod), img)
    ensures edgeMethod == "canny" ==> Apply(EdgeDetection(edgeMethod), lib, img) == lib(EdgeEnhanceMore, img)
  {
  }

  /** The three operations that catch `ValueError` never let one escape to the runner. */
  lemma NoValueErrorEscapes(t: Transform, lib: Library, img: Image)
    requires t.Negative? || t.Resize? || t.Threshold?
    ensures !(Apply(t, lib, img).Err? && Apply(t, lib, img).error.ValueError?)
  {
  }

  /** Smoothing with an entry that converts asks for a Gaussian blur of radius at least 1, and falls back to the plain blur on a `ValueError`. */
  lemma SmoothingResult(text: string, lib: Library, img: Image)
    ensures ParseInt(text) == None ==> Apply(Smoothing(text), lib, img) == lib(Blur, img)
    ensures ParseInt(text).Some? ==>
      var f := GaussianBlur(SmoothingRadius(ParseInt(text).value));
      && f.radius >= 1
      && Apply(Smoothing(text), lib, img) == (if lib(f, img).Err? && lib(f, img).error.ValueError? then lib(Blur, img) else lib(f, img))
  {
  }
}
