/** The install-prompt state of app/composables/usePwaInstall.ts
    (`createInstallState`): whether the "install the app" banner shows, and
    how installing, dismissing and an installed app change that. The clock
    and the user's answer to the browser's prompt are inputs, and the
    browser's storage slot for the dismissal is a field. */
module PwaInstall {
  import opened Wrappers
  import opened JsText

  /** `DISMISS_TTL_MS`: seven days in milliseconds. */
  const DismissTtlMs: int := 1000 * 60 * 60 * 24 * 7

  // ---------------------------------------------------------------------
  // Decimal integers: `String(n)` and `Number.parseInt(s, 10)`

  predicate IsDigit(c: char) {
    '0' <= c <= '9'
  }

  predicate AllDigits(z: string) {
    forall i :: 0 <= i < |z| ==> IsDigit(z[i])
  }

  function DigitValue(c: char): nat
    requires IsDigit(c)
  {
    (c as int) - ('0' as int)
  }

  function DigitChar(d: nat): (c: char)
    requires d < 10
    ensures IsDigit(c) && DigitValue(c) == d
  {
    (('0' as int) + d) as char
  }

  /** The number a string of decimal digits denotes. */
  function DigitsValue(z: string): nat
    requires AllDigits(z)
    decreases |z|
  {
    if z == [] then 0 else DigitsValue(z[..|z| - 1]) * 10 + DigitValue(z[|z| - 1])
  }

  /** The decimal digits of `n`, without leading zeros. */
  function Digits(n: nat): (z: string)
    ensures z != [] && AllDigits(z)
    ensures z[0] != '0' || n == 0
  {
    if n < 10 then [DigitChar(n)] else Digits(n / 10) + [DigitChar(n % 10)]
  }

  /** Reading the digits of `n` back gives `n`. */
  lemma {:induction false} DigitsRoundTrip(n: nat)
    ensures DigitsValue(Digits(n)) == n
  {
    if n >= 10 {
      DigitsRoundTrip(n / 10);
      var z := Digits(n);
      assert z[..|z| - 1] == Digits(n / 10);
    }
  }

  /** `String(n)` for an integer `n` below `1e21` in magnitude. */
  function DecimalString(n: int): (s: string)
    ensures s != [] && (s[0] == '-' || IsDigit(s[0]))
  {
    if n < 0 then "-" + Digits(-n) else Digits(n)
  }

  /** The longest prefix made of decimal digits. */
  function LeadingDigits(s: string): (z: string)
    ensures |z| <= |s| && z == s[..|z|] && AllDigits(z)
    ensures |z| < |s| ==> !IsDigit(s[|z|])
  {
    if s == [] || !IsDigit(s[0]) then [] else [s[0]] + LeadingDigits(s[1..])
  }

  /** The digit prefix of `z + rest` is `z` when `z` is all digits and
      `rest` does not continue with one. */
  lemma {:induction false} LeadingDigitsOf(z: string, rest: string)
    requires AllDigits(z)
    requires rest == [] || !IsDigit(rest[0])
    ensures LeadingDigits(z + rest) == z
  {
    if z != [] {
      assert (z + rest)[0] == z[0] && (z + rest)[1..] == z[1..] + rest;
      LeadingDigitsOf(z[1..], rest);
    } else {
      assert z + rest == rest;
    }
  }

  /** `Number.parseInt(s, 10)`: leading white space is skipped, then one
      optional sign, then the longest run of decimal digits is read; there
      is no number (`NaN`) when that run is empty. */
  function ParseInt(s: string): (r: Option<int>)
    ensures TrimStart(s) == [] ==> r == None
  {
    ParseSigned(TrimStart(s))
  }

  /** `parseInt` once the leading white space is gone. */
  function ParseSigned(t: string): Option<int> {
    var signed := t != [] && (t[0] == '-' || t[0] == '+');
    var z := LeadingDigits(if signed then t[1..] else t);
    var magnitude: int := DigitsValue(z);
    if z == [] then None
    else if signed && t[0] == '-' then Some(-magnitude)
    else Some(magnitude)
  }

  /** `parseInt` reads back what `String` writes. */
  lemma ParseIntOfDecimal(n: int)
    ensures ParseInt(DecimalString(n)) == Some(n)
  {
    var s := DecimalString(n);
    var z := Digits(if n < 0 then -n else n);
    assert !IsWhitespace(s[0]);
    assert TrimStart(s) == s;
    LeadingDigitsOf(z, []);
    assert z + [] == z;
    if n < 0 {
      assert s[1..] == z;
    }
    DigitsRoundTrip(if n < 0 then -n else n);
  }

  /** `parseInt` stops at the first character that is not a digit and
      ignores the rest. */
  lemma ParseIntStopsAtNonDigit(z: string, rest: string)
    requires z != [] && AllDigits(z)
    requires rest == [] || !IsDigit(rest[0])
    ensures ParseInt(z + rest) == Some(DigitsValue(z))
  {
    var s := z + rest;
    assert s[0] == z[0];
    assert !IsWhitespace(s[0]);
    assert TrimStart(s) == s;
    LeadingDigitsOf(z, rest);
  }

  /** `parseInt` skips leading white space. */
  lemma ParseIntSkipsWhitespace(w: string, s: string)
    requires AllWhitespace(w)
    ensures ParseInt(w + s) == ParseInt(s)
  {
    TrimStartOfWhitespace(w, s);
    assert ParseInt(w + s) == ParseSigned(TrimStart(w + s));
  }

  /** Text without a single digit is not a number. */
  lemma ParseIntNoDigits(s: string)
    requires forall i :: 0 <= i < |s| ==> !IsDigit(s[i])
    ensures ParseInt(s) == None
  {
    var t := TrimStart(s);
    assert forall i :: 0 <= i < |t| ==> t[i] == s[|s| - |t| + i];
  }

  // ---------------------------------------------------------------------
  // Hydrating the dismissal

  /** `dismissedUntil` after `hydrateDismissal` reads `stored` from storage:
      a stored value that is present, non-empty and parses replaces it. */
  function HydratedUntil(stored: Option<string>, current: int): (r: int)
    ensures stored.None? || stored.value == [] ==> r == current
    ensures stored.Some? && stored.value != [] && ParseInt(stored.value).Some? ==> r == ParseInt(stored.value).value
    ensures stored.Some? && ParseInt(stored.value).None? ==> r == current
  {
    if stored.Some? && stored.value != [] then
      match ParseInt(stored.value)
      case Some(parsed) => parsed
      case None => current
    else current
  }

  /** A dismissal written to storage is what the next page load reads back. */
  lemma DismissalSurvivesReload(until: int, current: int)
    ensures HydratedUntil(Some(DecimalString(until)), current) == until
  {
    ParseIntOfDecimal(until);
  }

  // ---------------------------------------------------------------------
  // The state machine

  /** What becomes of the browser's install prompt: the user accepts it,
      dismisses it, or `prompt()` or `userChoice` fails. */
  datatype PromptResult = Accepted | Dismissed | Failed

  class InstallPrompt {
    var canInstall: bool
    var isInstalling: bool
    var wasInstalled: bool
    var dismissedUntil: int
    /** The module-level `deferredPrompt` is set. */
    var hasPrompt: bool
    /** What storage holds under the dismissal key. */
    var storage: Option<string>

    /** `createInstallState`, with storage holding `stored`. */
    constructor (stored: Option<string>)
      ensures !canInstall && !isInstalling && !wasInstalled && !hasPrompt
      ensures dismissedUntil == 0 && storage == stored
    {
      canInstall := false;
      isInstalling := false;
      wasInstalled := false;
      dismissedUntil := 0;
      hasPrompt := false;
      storage := stored;
    }

    /** `shouldShow` at the instant `now`. */
    predicate ShouldShow(now: int)
      reads this
    {
      if !canInstall || wasInstalled then false
      else now >= dismissedUntil && !isInstalling
    }

    /** Once the banner shows, it keeps showing as time goes on while the
        state stays as it is. */
    lemma ShowsLater(now: int, later: int)
      requires ShouldShow(now) && now <= later
      ensures ShouldShow(later)
    {
    }

    /** `setDismissedUntil`: the new deadline, also written to storage. */
    method SetDismissedUntil(timestamp: int)
      modifies this`dismissedUntil, this`storage
      ensures dismissedUntil == timestamp
      ensures storage == Some(DecimalString(timestamp))
    {
      dismissedUntil := timestamp;
      storage := Some(DecimalString(timestamp));
    }

    /** `hydrateDismissal`. */
    method HydrateDismissal()
      modifies this`dismissedUntil
      ensures dismissedUntil == HydratedUntil(storage, old(dismissedUntil))
    {
      var stored := storage;
      if stored.Some? && stored.value != [] {
        var parsed := ParseInt(stored.value);
        if parsed.Some? {
          dismissedUntil := parsed.value;
        }
      }
    }

    /** `install`, where the user's answer arrives at `now`. Without a
        deferred prompt nothing happens; otherwise the prompt is used up
        whatever the answer, and `raised` tells whether the call ends in an
        exception. */
    method Install(now: int, result: PromptResult) returns (raised: bool)
      modifies this
      ensures !old(hasPrompt) ==>
        !raised && canInstall == old(canInstall) && isInstalling == old(isInstalling) &&
        wasInstalled == old(wasInstalled) && dismissedUntil == old(dismissedUntil) &&
        hasPrompt == old(hasPrompt) && storage == old(storage)
      ensures old(hasPrompt) ==>
        raised == (result == Failed) && !hasPrompt && !canInstall && !isInstalling &&
        wasInstalled == (old(wasInstalled) || result == Accepted) &&
        dismissedUntil == (if result == Dismissed then now + DismissTtlMs else old(dismissedUntil)) &&
        storage == (if result == Dismissed then Some(DecimalString(now + DismissTtlMs)) else old(storage))
      ensures old(hasPrompt) ==> forall t :: !ShouldShow(t)
    {
      if !hasPrompt {
        return false;
      }
      isInstalling := true;
      if result == Accepted {
        wasInstalled := true;
      } else if result == Dismissed {
        SetDismissedUntil(now + DismissTtlMs);
      }
      hasPrompt := false;
      canInstall := false;
      isInstalling := false;
      raised := result == Failed;
    }

    /** `dismiss`: hide the banner for a week from `now`. */
    method Dismiss(now: int)
      modifies this`dismissedUntil, this`storage
      ensures dismissedUntil == now + DismissTtlMs
      ensures storage == Some(DecimalString(now + DismissTtlMs))
      ensures forall t :: t < now + DismissTtlMs ==> !ShouldShow(t)
      ensures ShouldShow(now + DismissTtlMs) <==> canInstall && !wasInstalled && !isInstalling
    {
      SetDismissedUntil(now + DismissTtlMs);
    }

    /** `markInstalled`: the banner never shows again. */
    method MarkInstalled()
      modifies this`wasInstalled, this`hasPrompt, this`canInstall
      ensures wasInstalled && !hasPrompt && !canInstall
      ensures forall t :: !ShouldShow(t)
    {
      wasInstalled := true;
      hasPrompt := false;
      canInstall := false;
    }

    /** `setInstallAvailable`: the browser offered a prompt. */
    method SetInstallAvailable()
      modifies this`hasPrompt, this`canInstall
      ensures hasPrompt && canInstall
      ensures forall t :: ShouldShow(t) <==> !wasInstalled && !isInstalling && t >= dismissedUntil
    {
      hasPrompt := true;
      canInstall := true;
    }
  }
}
