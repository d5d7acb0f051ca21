/** The `appNumbersOnly` directive: configuration, the keystroke and paste
    decisions, and the directive object whose initialisation updates its fields. */
module NumbersOnly {
  import opened Wrappers
  import DecimalPattern

  /** The `regex` input: the default pattern, or a caller-supplied regular
      expression taken as the predicate its `match` computes. */
  datatype Pattern = DefaultDecimal | Custom(accepts: string -> bool)

  predicate PatternMatches(p: Pattern, s: string) {
    match p
    case DefaultDecimal => DecimalPattern.Matches(s)
    case Custom(accepts) => accepts(s)
  }

  /** The keys allowed before initialisation, in source order. */
  const InitialSpecialKeys: seq<string> := [
    "Enter", "Backspace", "Delete", "Tab", "End", "Home",
    "ArrowLeft", "ArrowRight", "ArrowUp", "ArrowDown"
  ]

  /** JavaScript falsiness of a numeric bound: absent (`undefined`) or zero. */
  predicate Falsy(bound: Option<real>) {
    bound.None? || bound.value == 0.0
  }

  /** JavaScript truthiness of the `length` input: present and non-zero. */
  predicate LengthTruthy(length: Option<int>) {
    length.Some? && length.value != 0
  }

  /** What the two event handlers read from the directive. */
  datatype Config = Config(pattern: Pattern, specialKeys: seq<string>, min: Option<real>, max: Option<real>)

  /** Keys handled without any filtering: the special keys, Ctrl/Cmd+V and
      Ctrl/Cmd+X, and Ctrl+C and Ctrl+A (Cmd+C and Cmd+A are not in the list). */
  predicate IsExempt(specialKeys: seq<string>, key: string, ctrl: bool, meta: bool) {
    key in specialKeys
    || (key == "v" && ctrl) || (key == "v" && meta)
    || (key == "x" && ctrl) || (key == "x" && meta)
    || (key == "c" && ctrl)
    || (key == "a" && ctrl)
  }

  /** `Number(next) <= Number(max) && Number(next) >= Number(min)`; NaN fails both. */
  predicate InRange(v: Option<real>, lo: real, hi: real) {
    v.Some? && v.value <= hi && v.value >= lo
  }

  /** The branch guarded by `!MIN && !MAX`: suppress a non-empty `next` that fails the pattern. */
  predicate PatternBranchSuppresses(cfg: Config, next: string) {
    Falsy(cfg.min) && Falsy(cfg.max) && next != "" && !PatternMatches(cfg.pattern, next)
  }

  /** The branch guarded by `MIN !== undefined && MAX !== undefined`: suppress
      unless `next` is in range, and, in range, when a non-empty `next` fails the pattern. */
  predicate RangeBranchSuppresses(cfg: Config, next: string) {
    cfg.min.Some? && cfg.max.Some? &&
    if InRange(DecimalPattern.Value(next), cfg.min.value, cfg.max.value) then
      next != "" && !PatternMatches(cfg.pattern, next)
    else
      true
  }

  /** The keydown decision: true when the handler calls `preventDefault()`.
      The key is always appended to the current value; the caret is not consulted. */
  function SuppressKey(cfg: Config, current: string, key: string, ctrl: bool, meta: bool): (r: bool)
    ensures IsExempt(cfg.specialKeys, key, ctrl, meta) ==> !r
  {
    if IsExempt(cfg.specialKeys, key, ctrl, meta) then false
    else PatternBranchSuppresses(cfg, current + key) || RangeBranchSuppresses(cfg, current + key)
  }

  /** The character class `[^\d\.?\d]` of the paste check excludes exactly these. */
  predicate InPasteClass(c: char) {
    DecimalPattern.IsDigit(c) || c == '.' || c == '?'
  }

  /** Whether `/[^\d\.?\d]/` finds a match: some character outside the paste class. */
  predicate HasForeignChar(text: string)
    decreases |text|
  {
    text != [] && (!InPasteClass(text[0]) || HasForeignChar(text[1..]))
  }

  lemma {:induction false} HasForeignCharIff(text: string)
    ensures HasForeignChar(text) <==> exists i :: 0 <= i < |text| && !InPasteClass(text[i])
    decreases |text|
  {
    if text != [] {
      HasForeignCharIff(text[1..]);
      if i :| 0 <= i < |text[1..]| && !InPasteClass(text[1..][i]) {
        assert !InPasteClass(text[i + 1]);
      }
      if i :| 0 <= i < |text| && !InPasteClass(text[i]) {
        if i > 0 {
          assert text[1..][i - 1] == text[i];
        }
      }
    }
  }

  /** The paste decision: true when the handler calls `preventDefault()`. */
  function SuppressPaste(cfg: Config, text: string): (r: bool)
    ensures r ==> exists i :: 0 <= i < |text| && !InPasteClass(text[i])
  {
    HasForeignCharIff(text);
    HasForeignChar(text) && !PatternMatches(cfg.pattern, text)
  }

  /** The special-key list after initialisation. */
  function KeysAfterInit(keys: seq<string>, canAllowMinus: bool): (r: seq<string>)
    ensures keys <= r
    ensures forall k :: k in r && k !in keys ==> k == "-"
    ensures "-" in r <==> "-" in keys || canAllowMinus
    ensures |r| == |keys| + (if canAllowMinus then 1 else 0)
    ensures canAllowMinus ==> r[|keys|] == "-"
  {
    if canAllowMinus then keys + ["-"] else keys
  }

  /** One directive instance bound to one input element. */
  class NumbersOnlyDirective {
    var regex: Pattern
    var specialKeys: seq<string>
    var min: Option<real>
    var max: Option<real>
    var maxDigits: Option<int>
    var canAllowMinus: bool
    /** Whether `el.nativeElement` is present. */
    var hasElement: bool
    /** The element's `maxLength` attribute as the directive last wrote it. */
    var maxLengthAttr: Option<int>

    /** A directive with its inputs bound, before initialisation. */
    constructor (regex: Pattern, min: Option<real>, max: Option<real>, maxDigits: Option<int>,
                 canAllowMinus: bool, hasElement: bool, maxLengthAttr: Option<int>)
      ensures this.regex == regex && this.min == min && this.max == max
      ensures this.maxDigits == maxDigits && this.canAllowMinus == canAllowMinus
      ensures this.hasElement == hasElement && this.maxLengthAttr == maxLengthAttr
      ensures specialKeys == InitialSpecialKeys
    {
      this.regex := regex;
      this.specialKeys := InitialSpecialKeys;
      this.min := min;
      this.max := max;
      this.maxDigits := maxDigits;
      this.canAllowMinus := canAllowMinus;
      this.hasElement := hasElement;
      this.maxLengthAttr := maxLengthAttr;
    }

    function Settings(): Config
      reads this
    {
      Config(regex, specialKeys, min, max)
    }

    /** `ngOnInit`: writes `maxLength` when `length` is truthy and the element
        exists, and appends `-` to the special keys when minus is allowed. */
    method Init()
      modifies this`specialKeys, this`maxLengthAttr
      ensures specialKeys == KeysAfterInit(old(specialKeys), canAllowMinus)
      ensures maxLengthAttr == if LengthTruthy(maxDigits) && hasElement then maxDigits else old(maxLengthAttr)
    {
      if LengthTruthy(maxDigits) && hasElement {
        maxLengthAttr := maxDigits;
      }
      if canAllowMinus {
        specialKeys := specialKeys + ["-"];
      }
    }

    /** `onKeyDown`: the two filtering branches run one after the other, and either
        may suppress the key; no field is written. */
    method OnKeyDown(current: string, key: string, ctrl: bool, meta: bool) returns (prevent: bool)
      ensures prevent == SuppressKey(Settings(), current, key, ctrl, meta)
    {
      prevent := false;
      if IsExempt(specialKeys, key, ctrl, meta) {
        return;
      }
      if Falsy(min) && Falsy(max) {
        var next := current + key;
        if next != "" && !PatternMatches(regex, next) {
          prevent := true;
        }
      }
      if min.Some? && max.Some? {
        var next := current + key;
        if InRange(DecimalPattern.Value(next), min.value, max.value) {
          if next != "" && !PatternMatches(regex, next) {
            prevent := true;
          }
        } else {
          prevent := true;
        }
      }
    }

    /** `blockPaste`: no field is written. */
    method BlockPaste(text: string) returns (prevent: bool)
      ensures prevent == SuppressPaste(Settings(), text)
    {
      prevent := false;
      if HasForeignChar(text) && !PatternMatches(regex, text) {
        prevent := true;
      }
    }
  }
}
