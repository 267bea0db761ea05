/** The numeric entries of the backup document, one constructor per key.
    `buildJsonBackup` writes them and `parseAndValidateJson` reads them back
    in the same order; naming them once lets both sides, and the proofs
    relating the two, speak about "every field" instead of nine or thirteen
    separate lines. */
module Fields {
  import opened Settings
  import opened JsonScan

  /** Letters, digits and the underscore: the characters of every key the
      firmware writes. None of them is a quote, a colon, a comma, a minus
      sign, a blank, a brace, a bracket or NUL. */
  predicate KeyChar(c: char) {
    'a' <= c <= 'z' || 'A' <= c <= 'Z' || '0' <= c <= '9' || c == '_'
  }

  /** A non-empty key made of key characters. */
  predicate KeyName(key: string) {
    |key| > 0 && forall k :: 0 <= k < |key| ==> KeyChar(key[k])
  }

  /** `KeyName` in a form the verifier evaluates on a literal. */
  predicate KeyCharsFrom(s: string, i: nat)
    decreases |s| - i
  {
    i >= |s| || (KeyChar(s[i]) && KeyCharsFrom(s, i + 1))
  }

  lemma {:induction false} KeyCharsFromIsKeyName(s: string, i: nat)
    requires KeyCharsFrom(s, i)
    ensures forall k :: i <= k < |s| ==> KeyChar(s[k])
    decreases |s| - i
  {
    if i < |s| {
      KeyCharsFromIsKeyName(s, i + 1);
    }
  }

  /** The keys the firmware passes are keys the scanners accept. */
  lemma KeyNameIsPlain(key: string)
    requires KeyName(key)
    ensures PlainKey(key) && ':' !in key
  {
    forall k | 0 <= k < |key| ensures key[k] != '"' && key[k] != '\0' && key[k] != ':' {
      assert KeyChar(key[k]);
    }
  }

  // ---------------------------------------------------------------- cars

  /** The numeric fields of a car object, in the order they are written. */
  datatype CarField =
    | MinSpeed | Brake | DragBrake | MaxSpeed | CurveInput
    | CurveDiff | AntiSpin | FreqPwm | BrakeButton

  const CAR_FIELDS: seq<CarField> :=
    [MinSpeed, Brake, DragBrake, MaxSpeed, CurveInput, CurveDiff, AntiSpin, FreqPwm, BrakeButton]

  /** The JSON key of a car field. */
  function CarKey(f: CarField): string {
    match f
    case MinSpeed => "minSpeed"
    case Brake => "brake"
    case DragBrake => "dragBrake"
    case MaxSpeed => "maxSpeed"
    case CurveInput => "curveInput"
    case CurveDiff => "curveDiff"
    case AntiSpin => "antiSpin"
    case FreqPwm => "freqPWM"
    case BrakeButton => "brakeButton"
  }

  /** The member of `CarParam` a car field stands for. */
  function CarValue(c: CarParam, f: CarField): U16 {
    match f
    case MinSpeed => c.minSpeed
    case Brake => c.brake
    case DragBrake => c.dragBrake
    case MaxSpeed => c.maxSpeed
    case CurveInput => c.throttleCurveVertex.inputThrottle
    case CurveDiff => c.throttleCurveVertex.curveSpeedDiff
    case AntiSpin => c.antiSpin
    case FreqPwm => c.freqPWM
    case BrakeButton => c.brakeButtonReduction
  }

  /** The assignment `c.<member> = v` of the validator. */
  function SetCar(c: CarParam, f: CarField, v: U16): (r: CarParam)
    ensures CarValue(r, f) == v
    ensures forall g :: g != f ==> CarValue(r, g) == CarValue(c, g)
    ensures r.carName == c.carName && r.carNumber == c.carNumber
  {
    match f
    case MinSpeed => c.(minSpeed := v)
    case Brake => c.(brake := v)
    case DragBrake => c.(dragBrake := v)
    case MaxSpeed => c.(maxSpeed := v)
    case CurveInput => c.(throttleCurveVertex := c.throttleCurveVertex.(inputThrottle := v))
    case CurveDiff => c.(throttleCurveVertex := c.throttleCurveVertex.(curveSpeedDiff := v))
    case AntiSpin => c.(antiSpin := v)
    case FreqPwm => c.(freqPWM := v)
    case BrakeButton => c.(brakeButtonReduction := v)
  }

  /** The least value the validator accepts for a car field. */
  function CarLow(f: CarField): int {
    match f
    case MaxSpeed => 5
    case CurveDiff => THROTTLE_CURVE_SPEED_DIFF_MIN_VALUE
    case FreqPwm => FREQ_MIN_VALUE / 100
    case _ => 0
  }

  /** The greatest value the validator accepts for a car field. */
  function CarHigh(f: CarField, lim: Limits): int {
    match f
    case MinSpeed => MIN_SPEED_MAX_VALUE
    case Brake => BRAKE_MAX_VALUE
    case DragBrake => DRAG_MAX_VALUE
    case MaxSpeed => 100
    case CurveInput => lim.throttleNormalized
    case CurveDiff => THROTTLE_CURVE_SPEED_DIFF_MAX_VALUE
    case AntiSpin => ANTISPIN_MAX_VALUE
    case FreqPwm => FREQ_MAX_VALUE / 100
    case BrakeButton => 100
  }

  /** Every accepted value fits the `uint16_t` member it is stored in. */
  lemma CarRangeFitsU16(f: CarField, lim: Limits)
    requires ValidLimits(lim)
    ensures 0 <= CarLow(f) && CarHigh(f, lim) < 0x1_0000
  {
  }

  /** The per-field ranges are exactly the settings' car limits. */
  lemma CarInLimitsByField(c: CarParam, lim: Limits)
    ensures CarInLimits(c, lim) <==> forall f :: CarLow(f) <= CarValue(c, f) <= CarHigh(f, lim)
  {
    if forall f :: CarLow(f) <= CarValue(c, f) <= CarHigh(f, lim) {
      assert CarLow(MinSpeed) <= CarValue(c, MinSpeed) <= CarHigh(MinSpeed, lim);
      assert CarLow(Brake) <= CarValue(c, Brake) <= CarHigh(Brake, lim);
      assert CarLow(DragBrake) <= CarValue(c, DragBrake) <= CarHigh(DragBrake, lim);
      assert CarLow(MaxSpeed) <= CarValue(c, MaxSpeed) <= CarHigh(MaxSpeed, lim);
      assert CarLow(CurveInput) <= CarValue(c, CurveInput) <= CarHigh(CurveInput, lim);
      assert CarLow(CurveDiff) <= CarValue(c, CurveDiff) <= CarHigh(CurveDiff, lim);
      assert CarLow(AntiSpin) <= CarValue(c, AntiSpin) <= CarHigh(AntiSpin, lim);
      assert CarLow(FreqPwm) <= CarValue(c, FreqPwm) <= CarHigh(FreqPwm, lim);
      assert CarLow(BrakeButton) <= CarValue(c, BrakeButton) <= CarHigh(BrakeButton, lim);
    }
  }

  /** Two cars with the same name, number and numeric fields are equal. */
  lemma CarExt(c: CarParam, d: CarParam)
    requires c.carName == d.carName && c.carNumber == d.carNumber
    requires forall f :: CarValue(c, f) == CarValue(d, f)
    ensures c == d
  {
    assert CarValue(c, MinSpeed) == CarValue(d, MinSpeed);
    assert CarValue(c, Brake) == CarValue(d, Brake);
    assert CarValue(c, DragBrake) == CarValue(d, DragBrake);
    assert CarValue(c, MaxSpeed) == CarValue(d, MaxSpeed);
    assert CarValue(c, CurveInput) == CarValue(d, CurveInput);
    assert CarValue(c, CurveDiff) == CarValue(d, CurveDiff);
    assert CarValue(c, AntiSpin) == CarValue(d, AntiSpin);
    assert CarValue(c, FreqPwm) == CarValue(d, FreqPwm);
    assert CarValue(c, BrakeButton) == CarValue(d, BrakeButton);
  }

  /** The list names every field once. */
  lemma CarFieldsComplete(f: CarField)
    ensures f in CAR_FIELDS
  {
  }

  lemma AllCarFields()
    ensures forall f :: f in CAR_FIELDS
  {
    forall f ensures f in CAR_FIELDS { CarFieldsComplete(f); }
  }

  lemma CarFieldsDistinct()
    ensures forall i, j :: 0 <= i < j < |CAR_FIELDS| ==> CAR_FIELDS[i] != CAR_FIELDS[j]
  {
  }

  /** Car keys are words of key characters, distinct from each other and from the
      `name` key. */
  lemma CarKeyIsName(f: CarField)
    ensures KeyName(CarKey(f))
    ensures CarKey(f) != "name"
  {
    match f {
    case MinSpeed => assert KeyCharsFrom("minSpeed", 0);
    case Brake => assert KeyCharsFrom("brake", 0);
    case DragBrake => assert KeyCharsFrom("dragBrake", 0);
    case MaxSpeed => assert KeyCharsFrom("maxSpeed", 0);
    case CurveInput => assert KeyCharsFrom("curveInput", 0);
    case CurveDiff => assert KeyCharsFrom("curveDiff", 0);
    case AntiSpin => assert KeyCharsFrom("antiSpin", 0);
    case FreqPwm => assert KeyCharsFrom("freqPWM", 0);
    case BrakeButton => assert KeyCharsFrom("brakeButton", 0);
    }
    KeyCharsFromIsKeyName(CarKey(f), 0);
  }

  lemma CarKeyInjective(f: CarField, g: CarField)
    requires f != g
    ensures CarKey(f) != CarKey(g)
  {
  }

  /** Every car key is longer than a car name can be. */
  lemma CarKeyLong(f: CarField)
    ensures |CarKey(f)| >= CAR_NAME_MAX_SIZE
  {
  }

  // ------------------------------------------------------------- globals

  /** The numeric top-level entries, in the order they are written. */
  datatype GlobalField =
    | Version | SelectedCarNumber | MinTriggerRaw | MaxTriggerRaw | ViewMode
    | ScreensaverTimeout | SoundMode | GridCarSelectEnabled | RaceViewMode
    | Language | TextCase | ListFontSize | StartupDelay

  const GLOBAL_FIELDS: seq<GlobalField> :=
    [ Version, SelectedCarNumber, MinTriggerRaw, MaxTriggerRaw, ViewMode,
      ScreensaverTimeout, SoundMode, GridCarSelectEnabled, RaceViewMode,
      Language, TextCase, ListFontSize, StartupDelay ]

  /** The JSON key of a top-level entry. */
  function GlobalKey(g: GlobalField): string {
    match g
    case Version => "version"
    case SelectedCarNumber => "selectedCarNumber"
    case MinTriggerRaw => "minTrigger_raw"
    case MaxTriggerRaw => "maxTrigger_raw"
    case ViewMode => "viewMode"
    case ScreensaverTimeout => "screensaverTimeout"
    case SoundMode => "soundMode"
    case GridCarSelectEnabled => "gridCarSelectEnabled"
    case RaceViewMode => "raceViewMode"
    case Language => "language"
    case TextCase => "textCase"
    case ListFontSize => "listFontSize"
    case StartupDelay => "startupDelay"
  }

  /** The number written under a top-level key: the record member, or for
      `version` the firmware's `STORED_VAR_VERSION`. */
  function GlobalValue(sv: StoredVar, lim: Limits, g: GlobalField): int {
    match g
    case Version => lim.storedVarVersion
    case SelectedCarNumber => sv.selectedCarNumber
    case MinTriggerRaw => sv.minTriggerRaw
    case MaxTriggerRaw => sv.maxTriggerRaw
    case ViewMode => sv.viewMode
    case ScreensaverTimeout => sv.screensaverTimeout
    case SoundMode => sv.soundMode
    case GridCarSelectEnabled => sv.gridCarSelectEnabled
    case RaceViewMode => sv.raceViewMode
    case Language => sv.language
    case TextCase => sv.textCase
    case ListFontSize => sv.listFontSize
    case StartupDelay => sv.startupDelay
  }

  /** The entries the validator range-checks before storing; the trigger
      calibration is stored unchecked and the version is never stored. */
  predicate Checked(g: GlobalField) {
    !(g.Version? || g.MinTriggerRaw? || g.MaxTriggerRaw?)
  }

  /** Least accepted value of a checked entry. */
  function GlobalLow(g: GlobalField, lim: Limits): int {
    match g
    case ScreensaverTimeout => 0
    case SoundMode => SOUND_MODE_OFF
    case Language => lim.langNor
    case TextCase => lim.textCaseUpper
    case ListFontSize => lim.fontSizeLarge
    case StartupDelay => lim.startupDelayMin
    case _ => 0
  }

  /** Greatest accepted value of a checked entry. */
  function GlobalHigh(g: GlobalField, lim: Limits): int {
    match g
    case SelectedCarNumber => CAR_MAX_COUNT - 1
    case ViewMode => 1
    case ScreensaverTimeout => SCREENSAVER_TIMEOUT_MAX
    case SoundMode => SOUND_MODE_ALL
    case GridCarSelectEnabled => 1
    case RaceViewMode => 2
    case Language => lim.langAcd
    case TextCase => lim.textCasePascal
    case ListFontSize => lim.fontSizeSmall
    case StartupDelay => lim.startupDelayMax
    case _ => 0
  }

  /** The range of the record member behind an entry: `int16_t` for the
      trigger calibration, `uint16_t` for the rest. */
  predicate FitsMember(g: GlobalField, v: int) {
    if g.MinTriggerRaw? || g.MaxTriggerRaw? then -0x8000 <= v < 0x8000 else 0 <= v < 0x1_0000
  }

  /** The assignment `sv-><member> = v`; the version has no member. */
  function SetGlobal(sv: StoredVar, g: GlobalField, v: int): (r: StoredVar)
    requires FitsMember(g, v)
    ensures forall lim :: !g.Version? ==> GlobalValue(r, lim, g) == v
    ensures forall lim, h :: h != g ==> GlobalValue(r, lim, h) == GlobalValue(sv, lim, h)
    ensures r.carParam == sv.carParam
    ensures r.screensaverLine1 == sv.screensaverLine1 && r.screensaverLine2 == sv.screensaverLine2
  {
    match g
    case Version => sv
    case SelectedCarNumber => sv.(selectedCarNumber := v)
    case MinTriggerRaw => sv.(minTriggerRaw := v)
    case MaxTriggerRaw => sv.(maxTriggerRaw := v)
    case ViewMode => sv.(viewMode := v)
    case ScreensaverTimeout => sv.(screensaverTimeout := v)
    case SoundMode => sv.(soundMode := v)
    case GridCarSelectEnabled => sv.(gridCarSelectEnabled := v)
    case RaceViewMode => sv.(raceViewMode := v)
    case Language => sv.(language := v)
    case TextCase => sv.(textCase := v)
    case ListFontSize => sv.(listFontSize := v)
    case StartupDelay => sv.(startupDelay := v)
  }

  /** Two records with the same cars, screensaver lines and stored entries
      are equal. */
  lemma StoredVarExt(a: StoredVar, b: StoredVar, lim: Limits)
    requires a.carParam == b.carParam
    requires a.screensaverLine1 == b.screensaverLine1 && a.screensaverLine2 == b.screensaverLine2
    requires forall g: GlobalField :: !g.Version? ==> GlobalValue(a, lim, g) == GlobalValue(b, lim, g)
    ensures a == b
  {
    assert GlobalValue(a, lim, SelectedCarNumber) == GlobalValue(b, lim, SelectedCarNumber);
    assert GlobalValue(a, lim, MinTriggerRaw) == GlobalValue(b, lim, MinTriggerRaw);
    assert GlobalValue(a, lim, MaxTriggerRaw) == GlobalValue(b, lim, MaxTriggerRaw);
    assert GlobalValue(a, lim, ViewMode) == GlobalValue(b, lim, ViewMode);
    assert GlobalValue(a, lim, ScreensaverTimeout) == GlobalValue(b, lim, ScreensaverTimeout);
    assert GlobalValue(a, lim, SoundMode) == GlobalValue(b, lim, SoundMode);
    assert GlobalValue(a, lim, GridCarSelectEnabled) == GlobalValue(b, lim, GridCarSelectEnabled);
    assert GlobalValue(a, lim, RaceViewMode) == GlobalValue(b, lim, RaceViewMode);
    assert GlobalValue(a, lim, Language) == GlobalValue(b, lim, Language);
    assert GlobalValue(a, lim, TextCase) == GlobalValue(b, lim, TextCase);
    assert GlobalValue(a, lim, ListFontSize) == GlobalValue(b, lim, ListFontSize);
    assert GlobalValue(a, lim, StartupDelay) == GlobalValue(b, lim, StartupDelay);
  }

  /** The stored entries do not depend on the cars or the screensaver lines. */
  lemma GlobalValueOfUpdate(sv: StoredVar, cars: seq<CarParam>, line1: string, line2: string, lim: Limits)
    ensures forall g :: GlobalValue(sv.(carParam := cars, screensaverLine1 := line1, screensaverLine2 := line2), lim, g)
                        == GlobalValue(sv, lim, g)
  {
  }

  lemma GlobalFieldsComplete(g: GlobalField)
    ensures g in GLOBAL_FIELDS
  {
  }

  lemma GlobalFieldsDistinct()
    ensures forall i, j :: 0 <= i < j < |GLOBAL_FIELDS| ==> GLOBAL_FIELDS[i] != GLOBAL_FIELDS[j]
  {
  }

  /** Top-level keys are words of key characters, distinct from the other top-level
      keys: the screensaver lines and the cars array. */
  lemma GlobalKeyIsName(g: GlobalField)
    ensures KeyName(GlobalKey(g))
    ensures GlobalKey(g) != "screensaverLine1" && GlobalKey(g) != "screensaverLine2"
    ensures GlobalKey(g) != "cars"
  {
    GlobalKeyChars(g);
    KeyCharsFromIsKeyName(GlobalKey(g), 0);
  }

  /** The long top-level keys, checked five characters at a time. */
  lemma LongGlobalKeyChars()
    ensures KeyCharsFrom("selectedCarNumber", 0)
    ensures KeyCharsFrom("screensaverTimeout", 0)
    ensures KeyCharsFrom("gridCarSelectEnabled", 0)
  {
    assert KeyCharsFrom("selectedCarNumber", 15);
    assert KeyCharsFrom("selectedCarNumber", 10);
    assert KeyCharsFrom("selectedCarNumber", 5);
    assert KeyCharsFrom("screensaverTimeout", 15);
    assert KeyCharsFrom("screensaverTimeout", 10);
    assert KeyCharsFrom("screensaverTimeout", 5);
    assert KeyCharsFrom("gridCarSelectEnabled", 15);
    assert KeyCharsFrom("gridCarSelectEnabled", 10);
    assert KeyCharsFrom("gridCarSelectEnabled", 5);
  }

  /** Every top-level key is made of key characters. */
  lemma GlobalKeyChars(g: GlobalField)
    ensures KeyCharsFrom(GlobalKey(g), 0)
  {
    match g {
    case Version => assert KeyCharsFrom("version", 0);
    case SelectedCarNumber => LongGlobalKeyChars();
    case MinTriggerRaw => assert KeyCharsFrom("minTrigger_raw", 0);
    case MaxTriggerRaw => assert KeyCharsFrom("maxTrigger_raw", 0);
    case ViewMode => assert KeyCharsFrom("viewMode", 0);
    case ScreensaverTimeout => LongGlobalKeyChars();
    case SoundMode => assert KeyCharsFrom("soundMode", 0);
    case GridCarSelectEnabled => LongGlobalKeyChars();
    case RaceViewMode => assert KeyCharsFrom("raceViewMode", 0);
    case Language => assert KeyCharsFrom("language", 0);
    case TextCase => assert KeyCharsFrom("textCase", 0);
    case ListFontSize => assert KeyCharsFrom("listFontSize", 0);
    case StartupDelay => assert KeyCharsFrom("startupDelay", 0);
    }
  }

  lemma GlobalKeyInjective(g: GlobalField, h: GlobalField)
    requires g != h
    ensures GlobalKey(g) != GlobalKey(h)
  {
  }

  /** The keys of the text entries and of the cars array are words of key characters
      too. */
  lemma TextKeysAreNames()
    ensures KeyName("name") && KeyName("cars")
    ensures KeyName("screensaverLine1") && KeyName("screensaverLine2")
  {
    assert KeyCharsFrom("name", 0);
    KeyCharsFromIsKeyName("name", 0);
    assert KeyCharsFrom("cars", 0);
    KeyCharsFromIsKeyName("cars", 0);
    assert KeyCharsFrom("screensaverLine1", 10);
    KeyCharsFromIsKeyName("screensaverLine1", 0);
    assert KeyCharsFrom("screensaverLine2", 10);
    KeyCharsFromIsKeyName("screensaverLine2", 0);
  }
}
