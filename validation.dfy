/**
 * `validate_image` of model_utils.py: a side-effect-free precedence of
 * checks on the opened image, returning `(ok, message)`. Opening the file
 * is PIL's business; its outcome is the `ImageProbe`.
 */
module ImageValidation {

  /** What `Image.open` gave: an image of some size and colour mode, or an exception. */
  datatype ImageProbe = Opened(width: nat, height: nat, mode: string) | OpenFailed(error: string)

  /** The smallest accepted side, in pixels. */
  const MinSide: nat := 50

  const SupportedModes: seq<string> := ["RGB", "RGBA", "L"]

  const ValidMessage: string := "Image is valid"
  const TooSmallMessage: string := "Image is too small."
  const UnsupportedMessage: string := "Unsupported image format."
  const ErrorPrefix: string := "Error validating image: "

  /** Either side is below the minimum. */
  predicate TooSmall(p: ImageProbe)
  {
    p.Opened? && (p.width < MinSide || p.height < MinSide)
  }

  /** What the check is for: a readable image, at least 50 x 50, in RGB, RGBA or grey-scale. */
  ghost predicate Suitable(p: ImageProbe)
  {
    p.Opened? && MinSide <= p.width && MinSide <= p.height && p.mode in SupportedModes
  }

  /** A message that reports the image could not be read. */
  ghost predicate IsErrorMessage(m: string)
  {
    |ErrorPrefix| <= |m| && m[..|ErrorPrefix|] == ErrorPrefix
  }

  /**
   * Accepts exactly the suitable images. The size check comes before the
   * mode check, so an image that is too small is reported as too small
   * whatever its mode.
   */
  function ValidateImage(probe: ImageProbe): (r: (bool, string))
    ensures r.0 <==> Suitable(probe)
    ensures r.0 ==> r.1 == ValidMessage
    ensures TooSmall(probe) ==> r == (false, TooSmallMessage)
    ensures probe.Opened? && !TooSmall(probe) && probe.mode !in SupportedModes
            ==> r == (false, UnsupportedMessage)
    ensures probe.OpenFailed? ==> r == (false, ErrorPrefix + probe.error)
  {
    match probe
    case OpenFailed(e) => (false, ErrorPrefix + e)
    case Opened(width, height, mode) =>
      if width < MinSide || height < MinSide then (false, TooSmallMessage)
      else if mode !in SupportedModes then (false, UnsupportedMessage)
      else (true, ValidMessage)
  }

  /** The message alone tells a caller which check decided the outcome. */
  lemma MessageIdentifiesCause(probe: ImageProbe)
    ensures ValidateImage(probe).1 == ValidMessage <==> Suitable(probe)
    ensures ValidateImage(probe).1 == TooSmallMessage <==> TooSmall(probe)
    ensures ValidateImage(probe).1 == UnsupportedMessage
            <==> probe.Opened? && !TooSmall(probe) && probe.mode !in SupportedModes
    ensures IsErrorMessage(ValidateImage(probe).1) <==> probe.OpenFailed?
  {
    var m := ValidateImage(probe).1;
    assert !IsErrorMessage(ValidMessage) by { assert ValidMessage[0] != ErrorPrefix[0]; }
    assert !IsErrorMessage(TooSmallMessage) by { assert TooSmallMessage[0] != ErrorPrefix[0]; }
    assert !IsErrorMessage(UnsupportedMessage) by { assert UnsupportedMessage[0] != ErrorPrefix[0]; }
    if probe.OpenFailed? {
      assert m[..|ErrorPrefix|] == ErrorPrefix;
      assert m[0] == 'E';
      assert m != ValidMessage && m != TooSmallMessage && m != UnsupportedMessage;
    }
  }
}
