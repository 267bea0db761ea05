/** The persisted settings record of the ESC firmware (`slot_ESC.h`): car
    profiles, global settings, their defaults and the limits the restore
    validator enforces. */
module Settings {

  /** C `uint16_t` and `int16_t`. */
  type U16 = x: int | 0 <= x < 0x1_0000
  type I16 = x: int | -0x8000 <= x < 0x8000

  /** Assignment of an integer to a `uint16_t` field: reduction modulo 2^16. */
  function ToU16(v: int): (r: U16)
    ensures 0 <= v < 0x1_0000 ==> r == v
    ensures (v - r) % 0x1_0000 == 0
  {
    v % 0x1_0000
  }

  /** The cast `(int16_t)v`: two's-complement wrap into [-2^15, 2^15). */
  function ToI16(v: int): (r: I16)
    ensures -0x8000 <= v < 0x8000 ==> r == v
    ensures (v - r) % 0x1_0000 == 0
  {
    var u := v % 0x1_0000;
    if u >= 0x8000 then u - 0x1_0000 else u
  }

  // Race view types
  const RACE_VIEW_OFF := 0
  const RACE_VIEW_FULL := 1
  const RACE_VIEW_SIMPLE := 2
  const RACE_VIEW_DEFAULT := RACE_VIEW_FULL

  // Default car parameter values
  const MIN_SPEED_DEFAULT := 20
  const BRAKE_DEFAULT := 95
  const DRAG_BRAKE_DEFAULT := 100
  const ANTISPIN_DEFAULT := 30
  const MAX_SPEED_DEFAULT := 100
  const THROTTLE_CURVE_SPEED_DIFF_DEFAULT := 50
  const PWM_FREQ_DEFAULT := 30            // in units of 100 Hz
  const BRAKE_BUTTON_REDUCTION_DEFAULT := 50

  // Parameter limits
  const MIN_SPEED_MAX_VALUE := 90
  const DRAG_MAX_VALUE := 100
  const FREQ_MAX_VALUE := 5000            // Hz
  const BRAKE_MAX_VALUE := 100
  const THROTTLE_CURVE_SPEED_DIFF_MAX_VALUE := 90
  const THROTTLE_CURVE_SPEED_DIFF_MIN_VALUE := 10
  const ANTISPIN_MAX_VALUE := 255
  const FREQ_MIN_VALUE := 1000            // Hz

  // Screensaver and sound
  const SCREENSAVER_TIMEOUT_DEFAULT := 20
  const SCREENSAVER_TIMEOUT_MAX := 120
  const SOUND_MODE_OFF := 0
  const SOUND_MODE_BOOT := 1
  const SOUND_MODE_ALL := 2
  const SOUND_MODE_DEFAULT := SOUND_MODE_ALL

  // Car profiles and the rename alphabet
  const CAR_MAX_COUNT := 20
  const CAR_NAME_MAX_SIZE := 5            // 4 characters and a terminator
  const RENAME_CAR_MIN_ASCII := 32
  const RENAME_CAR_MAX_ASCII := 122

  /** Build-time constants that live in headers outside this model
      (`THROTTLE_NORMALIZED`, `SCREENSAVER_TEXT_MAX`, `STORED_VAR_VERSION`,
      and the `LANG_*`, `TEXT_CASE_*`, `FONT_SIZE_*`, `STARTUP_DELAY_*`
      enumeration bounds). */
  datatype Limits = Limits(
    throttleNormalized: int,
    screensaverTextMax: int,
    storedVarVersion: int,
    langNor: int, langAcd: int,
    textCaseUpper: int, textCasePascal: int,
    fontSizeLarge: int, fontSizeSmall: int,
    startupDelayMin: int, startupDelayMax: int)

  /** The limits are C constants: the throttle scale fits a `uint16_t` field
      and the screensaver buffer has room for at least the terminator. */
  predicate ValidLimits(lim: Limits) {
    && 0 <= lim.throttleNormalized < 0x1_0000
    && lim.screensaverTextMax >= 1
  }

  /** Vertex of the two-segment throttle curve. */
  datatype ThrottleCurveVertex = ThrottleCurveVertex(inputThrottle: U16, curveSpeedDiff: U16)

  /** One car profile. `carName` holds the characters of the C string, up to
      (not including) its terminator. */
  datatype CarParam = CarParam(
    minSpeed: U16,
    brake: U16,
    dragBrake: U16,
    maxSpeed: U16,
    throttleCurveVertex: ThrottleCurveVertex,
    antiSpin: U16,
    carName: string,
    carNumber: U16,
    freqPWM: U16,
    brakeButtonReduction: U16)

  /** The non-volatile settings record. Text fields hold C-string contents. */
  datatype StoredVar = StoredVar(
    carParam: seq<CarParam>,
    selectedCarNumber: U16,
    minTriggerRaw: I16,
    maxTriggerRaw: I16,
    viewMode: U16,
    screensaverTimeout: U16,
    soundMode: U16,
    gridCarSelectEnabled: U16,
    raceViewMode: U16,
    language: U16,
    textCase: U16,
    listFontSize: U16,
    startupDelay: U16,
    screensaverLine1: string,
    screensaverLine2: string)

  /** The record holds exactly `CAR_MAX_COUNT` profiles (a C array). */
  predicate WellShaped(sv: StoredVar) {
    |sv.carParam| == CAR_MAX_COUNT
  }

  /** A character the rename editor can produce. */
  predicate NameChar(c: char) {
    RENAME_CAR_MIN_ASCII <= c as int <= RENAME_CAR_MAX_ASCII
  }

  /** A name whose characters and terminator fit the array
      `char carName[CAR_NAME_MAX_SIZE]`. */
  predicate NameFits(name: string) {
    |name| < CAR_NAME_MAX_SIZE
  }

  /** A name the rename editor can produce: at most 4 characters, each from
      the rename alphabet, leaving room for the terminator. */
  predicate ValidCarName(name: string) {
    && |name| < CAR_NAME_MAX_SIZE
    && forall k :: 0 <= k < |name| ==> NameChar(name[k])
  }

  /** The ranges the restore validator demands of every numeric car field. */
  predicate CarInLimits(c: CarParam, lim: Limits) {
    && c.minSpeed <= MIN_SPEED_MAX_VALUE
    && c.brake <= BRAKE_MAX_VALUE
    && c.dragBrake <= DRAG_MAX_VALUE
    && 5 <= c.maxSpeed <= 100
    && c.throttleCurveVertex.inputThrottle <= lim.throttleNormalized
    && THROTTLE_CURVE_SPEED_DIFF_MIN_VALUE <= c.throttleCurveVertex.curveSpeedDiff <= THROTTLE_CURVE_SPEED_DIFF_MAX_VALUE
    && c.antiSpin <= ANTISPIN_MAX_VALUE
    && FREQ_MIN_VALUE / 100 <= c.freqPWM <= FREQ_MAX_VALUE / 100
    && c.brakeButtonReduction <= 100
  }

  /** A car profile built from the default constants, with the given slot
      number and name. */
  function DefaultCar(i: nat, name: string, lim: Limits): (c: CarParam)
    requires i < CAR_MAX_COUNT
    requires ValidLimits(lim)
    ensures CarInLimits(c, lim)
    ensures c.carNumber == i && c.carName == name
    ensures c.minSpeed < c.maxSpeed
    ensures 0 <= c.throttleCurveVertex.inputThrottle <= lim.throttleNormalized
  {
    CarParam(
      MIN_SPEED_DEFAULT, BRAKE_DEFAULT, DRAG_BRAKE_DEFAULT, MAX_SPEED_DEFAULT,
      ThrottleCurveVertex(lim.throttleNormalized / 2, THROTTLE_CURVE_SPEED_DIFF_DEFAULT),
      ANTISPIN_DEFAULT, name, i, PWM_FREQ_DEFAULT, BRAKE_BUTTON_REDUCTION_DEFAULT)
  }

  /** The default constants respect the limits declared beside them. */
  lemma DefaultsWithinLimits()
    ensures MIN_SPEED_DEFAULT <= MIN_SPEED_MAX_VALUE && MIN_SPEED_DEFAULT < MAX_SPEED_DEFAULT
    ensures BRAKE_DEFAULT <= BRAKE_MAX_VALUE
    ensures DRAG_BRAKE_DEFAULT <= DRAG_MAX_VALUE
    ensures ANTISPIN_DEFAULT <= ANTISPIN_MAX_VALUE
    ensures THROTTLE_CURVE_SPEED_DIFF_MIN_VALUE <= THROTTLE_CURVE_SPEED_DIFF_DEFAULT <= THROTTLE_CURVE_SPEED_DIFF_MAX_VALUE
    ensures FREQ_MIN_VALUE / 100 <= PWM_FREQ_DEFAULT <= FREQ_MAX_VALUE / 100
    ensures RACE_VIEW_OFF <= RACE_VIEW_DEFAULT <= RACE_VIEW_SIMPLE
    ensures SCREENSAVER_TIMEOUT_DEFAULT <= SCREENSAVER_TIMEOUT_MAX
    ensures SOUND_MODE_OFF <= SOUND_MODE_DEFAULT <= SOUND_MODE_ALL
  {
  }

  /** The rename alphabet excludes the object delimiters the restore scanner
      looks for, and the C terminator. */
  lemma NameCharIsNotDelimiter(c: char)
    requires NameChar(c)
    ensures c != '{' && c != '}' && c != '\0'
  {
  }
}
