/** The PIN check: the submitted PIN and the configured one are compared as
    strings after trimming. */
module PinRoute {
  import opened Base
  import opened Text

  datatype Verdict = Missing | Accepted | Rejected

  /** `String(process.env.APP_PIN)`: an unset variable becomes the text
      "undefined". */
  function ExpectedPin(appPin: Option<string>): (s: string)
    ensures appPin.Some? ==> s == appPin.value
    ensures appPin.None? ==> s == "undefined"
  {
    appPin.GetOr("undefined")
  }

  /** POST /verify-pin. An absent or empty PIN is refused before any
      comparison; otherwise the PIN is accepted exactly when the trimmed
      submission equals the trimmed configured value. */
  function VerifyPin(pin: Option<string>, appPin: Option<string>): (v: Verdict)
    ensures v == Missing <==> pin.None? || pin.value == ""
    ensures v == Accepted <==> pin.Some? && pin.value != "" && Trim(pin.value) == Trim(ExpectedPin(appPin))
    ensures v == Rejected <==> pin.Some? && pin.value != "" && Trim(pin.value) != Trim(ExpectedPin(appPin))
  {
    if pin.None? || pin.value == "" then Missing
    else if Trim(pin.value) == Trim(ExpectedPin(appPin)) then Accepted
    else Rejected
  }

  /** Whitespace around either PIN never changes the verdict, as long as
      the submission is not empty to begin with. */
  lemma PaddingIrrelevant(pin: string, appPin: string, a: string, b: string, c: string, d: string)
    requires pin != ""
    requires AllSpace(a) && AllSpace(b) && AllSpace(c) && AllSpace(d)
    ensures VerifyPin(Some(a + pin + b), Some(c + appPin + d)) == VerifyPin(Some(pin), Some(appPin))
  {
    TrimIgnoresPadding(a, pin, b);
    TrimIgnoresPadding(c, appPin, d);
  }

  /** With no PIN configured, the submission "undefined" (or any padding of
      it) is accepted. */
  lemma UnsetPinAcceptsUndefined(a: string, b: string)
    requires AllSpace(a) && AllSpace(b)
    ensures VerifyPin(Some(a + "undefined" + b), None) == Accepted
  {
    UndefinedIsTrimmed();
    AcceptsPadded(a, "undefined", b, None);
  }

  /** A submission accepted as it is stays accepted when padded. */
  lemma AcceptsPadded(a: string, pin: string, b: string, appPin: Option<string>)
    requires AllSpace(a) && AllSpace(b) && pin != ""
    requires Trim(pin) == Trim(ExpectedPin(appPin))
    ensures VerifyPin(Some(a + pin + b), appPin) == Accepted
  {
    assert |a + pin + b| > 0;
    TrimIgnoresPadding(a, pin, b);
  }

  lemma UndefinedIsTrimmed()
    ensures Trim("undefined") == "undefined"
  {
    assert Trimmed("undefined");
    TrimOfTrimmed("undefined");
  }

  /** A submission made only of whitespace is not refused as missing: it is
      compared, and matches a configured PIN that is itself blank. */
  lemma BlankPinMatchesBlankConfig(pin: string, appPin: string)
    requires pin != "" && AllSpace(pin) && AllSpace(appPin)
    ensures VerifyPin(Some(pin), Some(appPin)) == Accepted
  {
    assert pin + [] + [] == pin;
    assert appPin + [] + [] == appPin;
    TrimOfPadded(pin, [], []);
    TrimOfPadded(appPin, [], []);
  }
}
