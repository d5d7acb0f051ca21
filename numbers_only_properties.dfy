/** What the directive promises about its keystroke and paste decisions and its
    initialisation, stated over all configurations and inputs. */
module NumbersOnlyProperties {
  import opened Wrappers
  import DecimalPattern
  import opened NumbersOnly

  /** A configuration with the default pattern and the given bounds. */
  function DefaultConfig(keys: seq<string>, min: Option<real>, max: Option<real>): Config {
    Config(DefaultDecimal, keys, min, max)
  }

  // ---------------------------------------------------------------------------
  // Exempt keys.
  // ---------------------------------------------------------------------------

  /** Special keys, Ctrl/Cmd+V, Ctrl/Cmd+X, Ctrl+C and Ctrl+A are never suppressed,
      whatever the configuration and the field's value. */
  lemma ExemptKeysNeverSuppressed(cfg: Config, current: string, key: string, ctrl: bool, meta: bool)
    requires key in cfg.specialKeys
          || ((key == "v" || key == "x") && (ctrl || meta))
          || ((key == "c" || key == "a") && ctrl)
    ensures !SuppressKey(cfg, current, key, ctrl, meta)
  {
  }

  /** Cmd+C, Cmd+A and upper-case letters with a modifier are not exempt: they go
      through filtering exactly like an unmodified key. */
  lemma NonExemptShortcutsAreFiltered(cfg: Config, current: string, key: string, ctrl: bool, meta: bool)
    requires key !in cfg.specialKeys
    requires ((key == "c" || key == "a") && meta && !ctrl) || key == "V" || key == "X" || key == "C" || key == "A"
    ensures SuppressKey(cfg, current, key, ctrl, meta) == SuppressKey(cfg, current, key, false, false)
  {
  }

  /** With the default configuration and no bounds, Cmd+C in a field holding "1" is suppressed. */
  lemma CmdCopySuppressed()
    ensures SuppressKey(DefaultConfig(InitialSpecialKeys, None, None), "1", "c", false, true)
  {
  }

  // ---------------------------------------------------------------------------
  // The pattern-only branch.
  // ---------------------------------------------------------------------------

  /** With both bounds falsy and not both defined, a non-exempt key is suppressed
      exactly when the extended value fails the pattern. This covers a bound of 0
      with the other absent; when both bounds are 0 the range branch also runs, and
      `BothBoundsMeansPatternAndRange` gives the decision. */
  lemma NoBoundsMeansPatternOnly(cfg: Config, current: string, key: string, ctrl: bool, meta: bool)
    requires Falsy(cfg.min) && Falsy(cfg.max)
    requires !(cfg.min.Some? && cfg.max.Some?)
    requires key != "" && !IsExempt(cfg.specialKeys, key, ctrl, meta)
    ensures SuppressKey(cfg, current, key, ctrl, meta) <==> !PatternMatches(cfg.pattern, current + key)
  {
  }

  /** Typing 1, 2, . and 5 in turn into an empty field suppresses nothing. */
  lemma TypingDecimalSuppressesNothing()
    ensures !SuppressKey(DefaultConfig(InitialSpecialKeys, None, None), "", "1", false, false)
    ensures !SuppressKey(DefaultConfig(InitialSpecialKeys, None, None), "1", "2", false, false)
    ensures !SuppressKey(DefaultConfig(InitialSpecialKeys, None, None), "12", ".", false, false)
    ensures !SuppressKey(DefaultConfig(InitialSpecialKeys, None, None), "12.", "5", false, false)
  {
    assert ("12")[1..] == "2";
    assert DecimalPattern.Matches("12.") by {
      assert ("12.")[0..] == "12.";
      assert ("12.")[1..] == "2.";
      assert ("2.")[1..] == ".";
      assert DecimalPattern.IntTail(".") by {
        assert ("."[1..]) == "";
      }
    }
    assert "12." + "5" == "12.5";
    assert DecimalPattern.Matches("12.5") by {
      assert ("12.5")[0..] == "12.5";
      assert ("12.5")[1..] == "2.5";
      assert ("2.5")[1..] == ".5";
      assert DecimalPattern.IntTail(".5") by {
        assert (".5")[1..] == "5";
        assert DecimalPattern.AllDigits("5");
      }
    }
  }

  /** A letter after a digit is suppressed. */
  lemma LetterAfterDigitSuppressed()
    ensures SuppressKey(DefaultConfig(InitialSpecialKeys, None, None), "1", "a", false, false)
  {
  }

  /** Minus into an empty field with no bounds is allowed exactly when
      initialisation added it to the special keys. */
  lemma MinusIntoEmptyField(canAllowMinus: bool)
    ensures SuppressKey(DefaultConfig(KeysAfterInit(InitialSpecialKeys, canAllowMinus), None, None), "", "-", false, false)
            <==> !canAllowMinus
  {
  }

  // ---------------------------------------------------------------------------
  // The range branch.
  // ---------------------------------------------------------------------------

  /** With both bounds present, a non-exempt key is allowed exactly when the
      extended value matches the pattern and its number lies in [min, max];
      this holds whether or not the pattern-only branch also runs. */
  lemma BothBoundsMeansPatternAndRange(cfg: Config, current: string, key: string, ctrl: bool, meta: bool)
    requires cfg.min.Some? && cfg.max.Some?
    requires key != "" && !IsExempt(cfg.specialKeys, key, ctrl, meta)
    ensures !SuppressKey(cfg, current, key, ctrl, meta) <==>
              PatternMatches(cfg.pattern, current + key)
              && InRange(DecimalPattern.Value(current + key), cfg.min.value, cfg.max.value)
  {
  }

  /** With both bounds present, an extended value that fails the pattern is
      suppressed whatever its numeric value. */
  lemma NonMatchingSuppressedUnderBounds(cfg: Config, current: string, key: string, ctrl: bool, meta: bool)
    requires cfg.min.Some? && cfg.max.Some?
    requires key != "" && !IsExempt(cfg.specialKeys, key, ctrl, meta)
    requires !PatternMatches(cfg.pattern, current + key)
    ensures SuppressKey(cfg, current, key, ctrl, meta)
  {
  }

  /** With min 0 and max 100, "15" then "0" is suppressed, "5" then "0" is not. */
  lemma RangeExamples()
    ensures SuppressKey(DefaultConfig(InitialSpecialKeys, Some(0.0), Some(100.0)), "15", "0", false, false)
    ensures !SuppressKey(DefaultConfig(InitialSpecialKeys, Some(0.0), Some(100.0)), "5", "0", false, false)
  {
    var cfg := DefaultConfig(InitialSpecialKeys, Some(0.0), Some(100.0));
    assert "0" !in InitialSpecialKeys;
    assert "15" + "0" == "150" && "5" + "0" == "50";
    DecimalPattern.ValueOf150();
    DecimalPattern.ValueOf50();
    BothBoundsMeansPatternAndRange(cfg, "15", "0", false, false);
    BothBoundsMeansPatternAndRange(cfg, "5", "0", false, false);
  }

  /** With min 0.1 and max 1, typing `5` after `"0."` is allowed: `"0.5"` is 0.5. */
  lemma FractionInRangeAllowed()
    ensures !SuppressKey(DefaultConfig(InitialSpecialKeys, Some(0.1), Some(1.0)), "0.", "5", false, false)
  {
    var cfg := DefaultConfig(InitialSpecialKeys, Some(0.1), Some(1.0));
    assert "5" !in InitialSpecialKeys;
    assert "0." + "5" == "0.5";
    DecimalPattern.ValueOfHalf();
    DecimalPattern.HalfMatches();
    BothBoundsMeansPatternAndRange(cfg, "0.", "5", false, false);
  }

  /** With both bounds 0, only the value 0 can be typed: "0" is allowed, "1" is not. */
  lemma BothZeroBounds()
    ensures !SuppressKey(DefaultConfig(InitialSpecialKeys, Some(0.0), Some(0.0)), "", "0", false, false)
    ensures SuppressKey(DefaultConfig(InitialSpecialKeys, Some(0.0), Some(0.0)), "", "1", false, false)
  {
    var cfg := DefaultConfig(InitialSpecialKeys, Some(0.0), Some(0.0));
    assert "0" !in InitialSpecialKeys && "1" !in InitialSpecialKeys;
    assert "" + "0" == "0" && "" + "1" == "1";
    DecimalPattern.ValueOfSingleDigit('0');
    DecimalPattern.ValueOfSingleDigit('1');
    assert "0" == ['0'] && "1" == ['1'];
    BothBoundsMeansPatternAndRange(cfg, "", "0", false, false);
    BothBoundsMeansPatternAndRange(cfg, "", "1", false, false);
  }

  // ---------------------------------------------------------------------------
  // A single truthy bound.
  // ---------------------------------------------------------------------------

  /** When exactly one bound is present and it is non-zero, no key is suppressed. */
  lemma SingleTruthyBoundDisablesFiltering(cfg: Config, current: string, key: string, ctrl: bool, meta: bool)
    requires (cfg.min.Some? && cfg.max.None? && !Falsy(cfg.min))
          || (cfg.max.Some? && cfg.min.None? && !Falsy(cfg.max))
    ensures !SuppressKey(cfg, current, key, ctrl, meta)
  {
  }

  // ---------------------------------------------------------------------------
  // Paste.
  // ---------------------------------------------------------------------------

  /** A paste is blocked exactly when some character is outside digits, `.` and `?`,
      and the text fails the pattern. */
  lemma PasteBlockedIff(cfg: Config, text: string)
    ensures SuppressPaste(cfg, text) <==>
              (exists i :: 0 <= i < |text| && !InPasteClass(text[i])) && !PatternMatches(cfg.pattern, text)
  {
    HasForeignCharIff(text);
  }

  /** Text made only of digits, `.` and `?` is never blocked, whatever the pattern. */
  lemma PasteOfClassCharsNeverBlocked(cfg: Config, text: string)
    requires forall i :: 0 <= i < |text| ==> InPasteClass(text[i])
    ensures !SuppressPaste(cfg, text)
  {
  }

  /** The paste decision reads only the pattern: not the keys, not the bounds. */
  lemma PasteIgnoresKeysAndBounds(cfg: Config, keys: seq<string>, min: Option<real>, max: Option<real>, text: string)
    ensures SuppressPaste(cfg, text) == SuppressPaste(Config(cfg.pattern, keys, min, max), text)
  {
  }

  /** Default-pattern pastes that pass: "12.34", "1.2.3", "??", "" and "-5". */
  lemma PasteExamplesPass()
    ensures !SuppressPaste(DefaultConfig(InitialSpecialKeys, None, None), "12.34")
    ensures !SuppressPaste(DefaultConfig(InitialSpecialKeys, None, None), "1.2.3")
    ensures !SuppressPaste(DefaultConfig(InitialSpecialKeys, None, None), "??")
    ensures !SuppressPaste(DefaultConfig(InitialSpecialKeys, None, None), "")
    ensures !SuppressPaste(DefaultConfig(InitialSpecialKeys, None, None), "-5")
  {
    var cfg := DefaultConfig(InitialSpecialKeys, None, None);
    PasteOfClassCharsNeverBlocked(cfg, "12.34");
    PasteOfClassCharsNeverBlocked(cfg, "1.2.3");
    PasteOfClassCharsNeverBlocked(cfg, "??");
    PasteOfClassCharsNeverBlocked(cfg, "");
    assert DecimalPattern.Matches("-5") by {
      assert "-5"[1..] == "5" && "5"[1..] == "";
    }
  }

  /** A default-pattern paste of "12a" is blocked. */
  lemma PasteExampleBlocked()
    ensures SuppressPaste(DefaultConfig(InitialSpecialKeys, None, None), "12a")
  {
    PasteBlockedIff(DefaultConfig(InitialSpecialKeys, None, None), "12a");
    assert !InPasteClass("12a"[2]);
    assert !DecimalPattern.Matches("12a") by {
      assert "12a"[0..] == "12a" && "12a"[1..] == "2a" && "2a"[1..] == "a";
      assert !DecimalPattern.IntTail("a");
    }
  }

  // ---------------------------------------------------------------------------
  // Initialisation.
  // ---------------------------------------------------------------------------

  /** Initialising again adds no new key: the key set after two initialisations
      equals the key set after one. */
  lemma InitTwiceSameKeySet(keys: seq<string>, canAllowMinus: bool, k: string)
    ensures k in KeysAfterInit(KeysAfterInit(keys, canAllowMinus), canAllowMinus) <==> k in KeysAfterInit(keys, canAllowMinus)
  {
  }

  /** Initialising twice with minus allowed pushes `-` twice: the list keeps a
      duplicate entry. */
  lemma InitTwiceDuplicatesMinus(keys: seq<string>)
    ensures KeysAfterInit(KeysAfterInit(keys, true), true) == keys + ["-", "-"]
  {
  }

  /** After initialisation, the minus key is exempt exactly when `canAllowMinus` was
      set (or minus was already a special key). */
  lemma MinusExemptAfterInit(keys: seq<string>, canAllowMinus: bool, ctrl: bool, meta: bool)
    ensures IsExempt(KeysAfterInit(keys, canAllowMinus), "-", ctrl, meta) <==> "-" in keys || canAllowMinus
  {
  }

  /** Initialising a freshly bound directive: the special keys gain `-` exactly when
      minus is allowed, and `maxLength` becomes `length` exactly when `length` is
      truthy and the element exists. */
  method InitFreshDirective(regex: Pattern, min: Option<real>, max: Option<real>, length: Option<int>,
                            canAllowMinus: bool, hasElement: bool, attr: Option<int>)
      returns (d: NumbersOnlyDirective)
    ensures ("-" in d.specialKeys) <==> canAllowMinus
    ensures forall k :: k in InitialSpecialKeys ==> k in d.specialKeys
    ensures d.maxLengthAttr == if LengthTruthy(length) && hasElement then length else attr
  {
    d := new NumbersOnlyDirective(regex, min, max, length, canAllowMinus, hasElement, attr);
    assert "-" !in InitialSpecialKeys;
    d.Init();
  }

  /** The handlers write no field: two calls with the same inputs agree, and the
      directive's settings are the same before and after. */
  method HandlersAreRepeatable(d: NumbersOnlyDirective, current: string, key: string, ctrl: bool, meta: bool, text: string)
      returns (first: bool, second: bool, pasteFirst: bool, pasteSecond: bool)
    ensures first == second && pasteFirst == pasteSecond
    ensures d.Settings() == old(d.Settings())
    ensures first == SuppressKey(d.Settings(), current, key, ctrl, meta)
    ensures pasteFirst == SuppressPaste(d.Settings(), text)
  {
    first := d.OnKeyDown(current, key, ctrl, meta);
    pasteFirst := d.BlockPaste(text);
    second := d.OnKeyDown(current, key, ctrl, meta);
    pasteSecond := d.BlockPaste(text);
  }
}
