/** `parseAndValidateJson` and `handleRestore` of `wifi_backup.cpp`: reading
    an uploaded backup into a settings record. Top-level entries are lenient
    (a missing or unacceptable entry keeps the current value); the car array
    is all-or-nothing (the first missing or unacceptable piece rejects the
    whole upload with a message naming it). */
module Restore {
  import opened Wrappers
  import opened CText
  import opened JsonScan
  import opened Settings
  import opened Fields

  // ------------------------------------------------------------- globals

  /** The number under a top-level key, as `parseJsonInt` reads it. */
  function GlobalInput(json: string, g: GlobalField): Option<int> {
    GlobalKeyIsName(g);
    KeyNameIsPlain(GlobalKey(g));
    ParseJsonInt(json, GlobalKey(g))
  }

  /** Whether the validator stores a parsed value: the trigger calibration
      always, the version never, the rest when `inRange` accepts it. */
  predicate Accepts(g: GlobalField, v: int, lim: Limits) {
    if g.Version? then false
    else if g.MinTriggerRaw? || g.MaxTriggerRaw? then true
    else InRange(v, GlobalLow(g, lim), GlobalHigh(g, lim))
  }

  /** The value a stored entry receives: `(int16_t)v` for the trigger
      calibration, the `uint16_t` conversion for the rest. */
  function Stored(g: GlobalField, v: int): (r: int)
    ensures FitsMember(g, r)
  {
    if g.MinTriggerRaw? || g.MaxTriggerRaw? then ToI16(v) else ToU16(v)
  }

  /** One `if (parseJsonInt(json, key, v) && inRange(...)) sv->member = v;`
      line of the validator. */
  function ApplyGlobal(sv: StoredVar, json: string, g: GlobalField, lim: Limits): StoredVar {
    var p := GlobalInput(json, g);
    if p.Some? && Accepts(g, p.value, lim) then SetGlobal(sv, g, Stored(g, p.value)) else sv
  }

  /** The top-level lines of the validator from `GLOBAL_FIELDS[k]` on. */
  function ParseGlobalsFrom(json: string, sv: StoredVar, lim: Limits, k: nat): (r: StoredVar)
    requires k <= |GLOBAL_FIELDS|
    ensures r.carParam == sv.carParam
    ensures r.screensaverLine1 == sv.screensaverLine1 && r.screensaverLine2 == sv.screensaverLine2
    ensures forall g :: g !in GLOBAL_FIELDS[k..] ==> GlobalValue(r, lim, g) == GlobalValue(sv, lim, g)
    ensures forall g :: g in GLOBAL_FIELDS[k..] && !g.Version? ==>
              GlobalValue(r, lim, g) ==
                (var p := GlobalInput(json, g);
                 if p.Some? && Accepts(g, p.value, lim) then Stored(g, p.value) else GlobalValue(sv, lim, g))
    decreases |GLOBAL_FIELDS| - k
  {
    if k == |GLOBAL_FIELDS| then sv
    else
      GlobalFieldsDistinct();
      assert GLOBAL_FIELDS[k..] == [GLOBAL_FIELDS[k]] + GLOBAL_FIELDS[k + 1..];
      ParseGlobalsFrom(json, ApplyGlobal(sv, json, GLOBAL_FIELDS[k], lim), lim, k + 1)
  }

  /** The lenient top-level part of `parseAndValidateJson`, starting from the
      current settings: an entry is replaced exactly when its key parses and
      the validator accepts the number; the version is read and ignored. */
  function ParseGlobals(json: string, cur: StoredVar, lim: Limits): (r: StoredVar)
    ensures r.carParam == cur.carParam
    ensures r.screensaverLine1 == cur.screensaverLine1 && r.screensaverLine2 == cur.screensaverLine2
    ensures forall g :: GlobalInput(json, g).None? && !g.Version? ==>
              GlobalValue(r, lim, g) == GlobalValue(cur, lim, g)
    ensures forall g :: GlobalInput(json, g).Some? && !Accepts(g, GlobalInput(json, g).value, lim) ==>
              GlobalValue(r, lim, g) == GlobalValue(cur, lim, g)
    ensures forall g :: GlobalInput(json, g).Some? && Accepts(g, GlobalInput(json, g).value, lim) ==>
              GlobalValue(r, lim, g) == Stored(g, GlobalInput(json, g).value)
  {
    assert GLOBAL_FIELDS[0..] == GLOBAL_FIELDS;
    forall g ensures g in GLOBAL_FIELDS { GlobalFieldsComplete(g); }
    ParseGlobalsFrom(json, cur, lim, 0)
  }

  /** One screensaver line: `parseJsonStr` into a buffer of
      `SCREENSAVER_TEXT_MAX` bytes, then `strncpy` of the whole buffer, so the
      line becomes the parsed text; a missing entry keeps the current line. */
  function ParseText(json: string, key: string, current: string, lim: Limits): (r: string)
    requires PlainKey(key)
    requires ValidLimits(lim)
    ensures ParseJsonStr(json, key, lim.screensaverTextMax).None? ==> r == current
    ensures ParseJsonStr(json, key, lim.screensaverTextMax).Some? ==>
              r == ParseJsonStr(json, key, lim.screensaverTextMax).value && |r| < lim.screensaverTextMax
  {
    match ParseJsonStr(json, key, lim.screensaverTextMax)
    case None => current
    case Some(text) => text
  }

  // ---------------------------------------------------------------- cars

  /** The number under a car key inside one car object. */
  function CarInput(carJson: string, f: CarField): Option<int> {
    CarKeyIsName(f);
    KeyNameIsPlain(CarKey(f));
    ParseJsonInt(carJson, CarKey(f))
  }

  /** What the scanner returned for each numeric field of one car. */
  type CarInputs = CarField -> Option<int>

  /** The scanner's result for every numeric field of `carJson`. */
  function InputsOf(carJson: string): (r: CarInputs)
    ensures forall f :: r(f) == CarInput(carJson, f)
  {
    f => CarInput(carJson, f)
  }

  /** A parsed field the validator accepts: present and within its range. */
  predicate Acceptable(p: Option<int>, f: CarField, lim: Limits) {
    p.Some? && InRange(p.value, CarLow(f), CarHigh(f, lim))
  }

  /** A car field of `carJson` the validator accepts. */
  predicate FieldOk(carJson: string, f: CarField, lim: Limits) {
    Acceptable(CarInput(carJson, f), f, lim)
  }

  /** Why an upload is rejected. Every rejection names its cause; the car
      causes also name the slot. */
  datatype Rejection =
    | MissingCars
    | MalformedCars
    | MissingProfile(car: nat)
    | MissingName(car: nat)
    | InvalidField(field: CarField, car: nat)

  /** The text `parseAndValidateJson` stores in `errorMsg`. */
  function Message(e: Rejection): string {
    match e
    case MissingCars => "Error: missing cars array"
    case MalformedCars => "Error: malformed cars array"
    case MissingProfile(i) => "Error: missing car profile " + Dec(i)
    case MissingName(i) => "Error: missing name in car " + Dec(i)
    case InvalidField(f, i) => "Error: invalid " + CarKey(f) + " in car " + Dec(i)
  }

  /** A rejection raised while reading the car objects. */
  predicate CarRejection(e: Rejection) {
    e.MissingProfile? || e.MissingName? || e.InvalidField?
  }

  /** Index of the first of `fields[k..]` the validator does not accept, or
      `|fields|` when it accepts them all. */
  function FirstBadField(inputs: CarInputs, lim: Limits, fields: seq<CarField>, k: nat): (r: nat)
    requires k <= |fields|
    ensures k <= r <= |fields|
    ensures forall j :: k <= j < r ==> Acceptable(inputs(fields[j]), fields[j], lim)
    ensures r < |fields| ==> !Acceptable(inputs(fields[r]), fields[r], lim)
    decreases |fields| - k
  {
    if k == |fields| || !Acceptable(inputs(fields[k]), fields[k], lim) then k
    else FirstBadField(inputs, lim, fields, k + 1)
  }

  /** The numeric fields `fields[k..]` of car `i`, in order, each stored into
      `c` as soon as it is accepted; the first field that is missing or out
      of range ends the restore and is named in the rejection. */
  function ParseCarFields(inputs: CarInputs, i: nat, c: CarParam, lim: Limits, fields: seq<CarField>, k: nat)
    : (r: Result<CarParam, Rejection>)
    requires ValidLimits(lim)
    requires k <= |fields|
    ensures r.Ok? <==> FirstBadField(inputs, lim, fields, k) == |fields|
    ensures r.Err? ==> r.error == InvalidField(fields[FirstBadField(inputs, lim, fields, k)], i)
    ensures r.Ok? ==> r.value.carName == c.carName && r.value.carNumber == c.carNumber
    decreases |fields| - k
  {
    if k == |fields| then Ok(c)
    else
      var f := fields[k];
      if !Acceptable(inputs(f), f, lim) then Err(InvalidField(f, i))
      else
        CarRangeFitsU16(f, lim);
        ParseCarFields(inputs, i, SetCar(c, f, ToU16(inputs(f).value)), lim, fields, k + 1)
  }

  /** After a successful read every field of `fields[k..]` holds the number
      parsed for it, and every other field keeps its value. */
  lemma {:induction false} ParseCarFieldsValues(inputs: CarInputs, i: nat, c: CarParam, lim: Limits,
                                                fields: seq<CarField>, k: nat)
    requires ValidLimits(lim)
    requires k <= |fields|
    requires ParseCarFields(inputs, i, c, lim, fields, k).Ok?
    ensures forall f :: f in fields[k..] ==>
              inputs(f) == Some(CarValue(ParseCarFields(inputs, i, c, lim, fields, k).value, f))
    ensures forall f :: f !in fields[k..] ==>
              CarValue(ParseCarFields(inputs, i, c, lim, fields, k).value, f) == CarValue(c, f)
    decreases |fields| - k
  {
    if k < |fields| {
      var f := fields[k];
      assert Acceptable(inputs(f), f, lim);
      CarRangeFitsU16(f, lim);
      var c1 := SetCar(c, f, ToU16(inputs(f).value));
      assert inputs(f) == Some(CarValue(c1, f));
      ParseCarFieldsValues(inputs, i, c1, lim, fields, k + 1);
      assert fields[k..] == [f] + fields[k + 1..];
    }
  }

  /** Over a list naming every field, the read succeeds exactly when every
      field is acceptable, and then every field holds its parsed number. */
  lemma ParseAllCarFields(inputs: CarInputs, i: nat, c: CarParam, lim: Limits, fields: seq<CarField>)
    requires ValidLimits(lim)
    requires forall f :: f in fields
    ensures ParseCarFields(inputs, i, c, lim, fields, 0).Ok? <==> forall f :: Acceptable(inputs(f), f, lim)
    ensures ParseCarFields(inputs, i, c, lim, fields, 0).Ok? ==>
              forall f :: inputs(f) == Some(CarValue(ParseCarFields(inputs, i, c, lim, fields, 0).value, f))
  {
    var r := ParseCarFields(inputs, i, c, lim, fields, 0);
    assert fields[0..] == fields;
    if r.Ok? {
      ParseCarFieldsValues(inputs, i, c, lim, fields, 0);
      forall f ensures Acceptable(inputs(f), f, lim) {
        assert f in fields;
        var j :| 0 <= j < |fields| && fields[j] == f;
      }
    }
  }

  /** The car name as `parseJsonStr` reads it into the 16-byte buffer. */
  function NameInput(carJson: string): Option<string> {
    TextKeysAreNames();
    KeyNameIsPlain("name");
    ParseJsonStr(carJson, "name", 16)
  }

  /** The name `strncpy(c.carName, tempName, CAR_NAME_MAX_SIZE)` leaves in
      the array, as written: the first `CAR_NAME_MAX_SIZE` characters. A name
      of that length or longer fills the whole array and leaves no room for
      its terminator. */
  function CopiedNameAsWritten(name: string): (r: string)
    ensures |r| <= |name| && r == name[..|r|]
    ensures NameFits(name) ==> r == name
    ensures !NameFits(name) ==> |r| == CAR_NAME_MAX_SIZE
  {
    Take(name, CAR_NAME_MAX_SIZE)
  }

  /** The copy the array's declared size calls for: at most
      `CAR_NAME_MAX_SIZE - 1` characters, so the terminator always fits. */
  function CopiedName(name: string): (r: string)
    ensures NameFits(r) && |r| <= |name| && r == name[..|r|]
    ensures NameFits(name) ==> r == name
    ensures !NameFits(name) ==> |r| == CAR_NAME_MAX_SIZE - 1
  {
    Take(name, CAR_NAME_MAX_SIZE - 1)
  }

  /** The two copies agree exactly on the names that fit the array. */
  lemma CopiedNameDiffers(name: string)
    ensures CopiedName(name) == CopiedNameAsWritten(name) <==> NameFits(name)
  {
  }

  /** One car object of the array, read into slot `i` whose current contents
      are `c0`: the name (at most 15 characters through a 16-byte buffer,
      then copied into the name array with room for its terminator by the
      corrected `CopiedName`; `ParseCarAsWritten` is the copy as written),
      the slot number, then the numeric fields. A rejection always names
      slot `i`. */
  function ParseCar(carJson: string, i: nat, c0: CarParam, lim: Limits): (r: Result<CarParam, Rejection>)
    requires ValidLimits(lim)
    requires i < 0x1_0000
    ensures r.Err? ==> CarRejection(r.error) && r.error.car == i
    ensures r.Ok? ==> RestoredCar(r.value, i, lim)
  {
    match NameInput(carJson)
    case None => Err(MissingName(i))
    case Some(name) =>
      var c := c0.(carName := CopiedName(name), carNumber := i);
      var r := ParseCarFields(InputsOf(carJson), i, c, lim, CAR_FIELDS, 0);
      if r.Err? then r
      else
        AllCarFields();
        ParseAllCarFields(InputsOf(carJson), i, c, lim, CAR_FIELDS);
        CarInLimitsByField(r.value, lim);
        r
  }

  /** A car object is accepted exactly when it has a name and every numeric
      field is present and in range; a missing name is reported first, then
      a field that fails. An accepted car takes the first four characters of
      the name, the slot number and every parsed number. */
  lemma ParseCarSpec(carJson: string, i: nat, c0: CarParam, lim: Limits)
    requires ValidLimits(lim)
    requires i < 0x1_0000
    ensures NameInput(carJson).None? ==> ParseCar(carJson, i, c0, lim) == Err(MissingName(i))
    ensures NameInput(carJson).Some? ==>
              (ParseCar(carJson, i, c0, lim).Ok? <==> forall f :: Acceptable(InputsOf(carJson)(f), f, lim))
    ensures NameInput(carJson).Some? && ParseCar(carJson, i, c0, lim).Err? ==>
              && ParseCar(carJson, i, c0, lim).error.InvalidField?
              && !Acceptable(InputsOf(carJson)(ParseCar(carJson, i, c0, lim).error.field),
                             ParseCar(carJson, i, c0, lim).error.field, lim)
    ensures ParseCar(carJson, i, c0, lim).Ok? ==>
              && ParseCar(carJson, i, c0, lim).value.carName == CopiedName(NameInput(carJson).value)
              && ParseCar(carJson, i, c0, lim).value.carNumber == i
              && forall f :: InputsOf(carJson)(f) == Some(CarValue(ParseCar(carJson, i, c0, lim).value, f))
  {
    if NameInput(carJson).Some? {
      var c := c0.(carName := CopiedName(NameInput(carJson).value), carNumber := i);
      AllCarFields();
      ParseAllCarFields(InputsOf(carJson), i, c, lim, CAR_FIELDS);
    }
  }

  /** `ParseCar` as the source writes it: the name is copied by
      `strncpy(c.carName, tempName, CAR_NAME_MAX_SIZE)`, so an uploaded name
      of five or more characters fills the whole array. */
  function ParseCarAsWritten(carJson: string, i: nat, c0: CarParam, lim: Limits): (r: Result<CarParam, Rejection>)
    requires ValidLimits(lim)
    requires i < 0x1_0000
    ensures r.Err? ==> CarRejection(r.error) && r.error.car == i
    ensures r.Ok? ==> NameInput(carJson).Some? && r.value.carName == CopiedNameAsWritten(NameInput(carJson).value)
    ensures r.Ok? ==> r.value.carNumber == i && CarInLimits(r.value, lim)
  {
    match NameInput(carJson)
    case None => Err(MissingName(i))
    case Some(name) =>
      var c := c0.(carName := CopiedNameAsWritten(name), carNumber := i);
      var r := ParseCarFields(InputsOf(carJson), i, c, lim, CAR_FIELDS, 0);
      if r.Err? then r
      else
        AllCarFields();
        ParseAllCarFields(InputsOf(carJson), i, c, lim, CAR_FIELDS);
        CarInLimitsByField(r.value, lim);
        r
  }

  /** The numeric fields never read or write the name: reading them over a
      renamed car gives the same rejection, or the same car renamed. */
  lemma {:induction false} ParseCarFieldsRenamed(inputs: CarInputs, i: nat, c: CarParam, lim: Limits,
                                                 fields: seq<CarField>, k: nat, n: string)
    requires ValidLimits(lim)
    requires k <= |fields|
    ensures ParseCarFields(inputs, i, c, lim, fields, k).Err? ==>
              ParseCarFields(inputs, i, c.(carName := n), lim, fields, k) == ParseCarFields(inputs, i, c, lim, fields, k)
    ensures ParseCarFields(inputs, i, c, lim, fields, k).Ok? ==>
              ParseCarFields(inputs, i, c.(carName := n), lim, fields, k)
                == Ok(ParseCarFields(inputs, i, c, lim, fields, k).value.(carName := n))
    decreases |fields| - k
  {
    if k < |fields| && Acceptable(inputs(fields[k]), fields[k], lim) {
      var f := fields[k];
      CarRangeFitsU16(f, lim);
      var v := ToU16(inputs(f).value);
      assert SetCar(c.(carName := n), f, v) == SetCar(c, f, v).(carName := n);
      ParseCarFieldsRenamed(inputs, i, SetCar(c, f, v), lim, fields, k + 1, n);
    }
  }

  /** The corrected read and the read as written accept and reject exactly
      the same car objects, with the same rejection, and an accepted car
      differs only in its name, which is the same exactly when the uploaded
      name fits the array. */
  lemma ParseCarAsWrittenDiffers(carJson: string, i: nat, c0: CarParam, lim: Limits)
    requires ValidLimits(lim)
    requires i < 0x1_0000
    ensures ParseCarAsWritten(carJson, i, c0, lim).Ok? <==> ParseCar(carJson, i, c0, lim).Ok?
    ensures ParseCar(carJson, i, c0, lim).Err? ==> ParseCarAsWritten(carJson, i, c0, lim) == ParseCar(carJson, i, c0, lim)
    ensures ParseCar(carJson, i, c0, lim).Ok? ==>
              ParseCarAsWritten(carJson, i, c0, lim).value
                == ParseCar(carJson, i, c0, lim).value.(carName := CopiedNameAsWritten(NameInput(carJson).value))
    ensures ParseCar(carJson, i, c0, lim).Ok? ==>
              (ParseCarAsWritten(carJson, i, c0, lim) == ParseCar(carJson, i, c0, lim) <==> NameFits(NameInput(carJson).value))
  {
    if NameInput(carJson).Some? {
      var name := NameInput(carJson).value;
      var c := c0.(carName := CopiedName(name), carNumber := i);
      var rc := ParseCarFields(InputsOf(carJson), i, c, lim, CAR_FIELDS, 0);
      assert ParseCar(carJson, i, c0, lim) == rc;
      assert c.(carName := CopiedNameAsWritten(name)) == c0.(carName := CopiedNameAsWritten(name), carNumber := i);
      ParseCarFieldsRenamed(InputsOf(carJson), i, c, lim, CAR_FIELDS, 0, CopiedNameAsWritten(name));
      CopiedNameDiffers(name);
      if rc.Ok? {
        assert rc.value.carName == CopiedName(name);
        assert rc.value == rc.value.(carName := CopiedNameAsWritten(name)) <==> CopiedName(name) == CopiedNameAsWritten(name);
      }
    }
  }

  /** What a car slot holds after a successful read. */
  predicate RestoredCar(c: CarParam, i: nat, lim: Limits) {
    && c.carNumber == i
    && CarInLimits(c, lim)
    && NameFits(c.carName)
  }

  /** The next car object from `searchPos`: the first `{` and the first `}`
      after it, or `None` when either is missing. */
  function NextObject(json: string, searchPos: nat): (r: Option<(nat, nat)>)
    requires searchPos <= |json|
    ensures r.Some? ==> searchPos <= r.value.0 <= r.value.1 < |json|
  {
    var objStart := IndexOfChar(json, '{', searchPos);
    if objStart < 0 then None
    else
      var objEnd := IndexOfChar(json, '}', objStart);
      if objEnd < 0 then None else Some((objStart, objEnd))
  }

  /** `cars` are restored cars numbered from `i`. */
  predicate AllRestored(cars: seq<CarParam>, i: nat, lim: Limits)
    decreases |cars|
  {
    |cars| == 0 || (RestoredCar(cars[0], i, lim) && AllRestored(cars[1..], i + 1, lim))
  }

  /** The recursive and the indexed reading of `AllRestored` agree. */
  lemma {:induction false} AllRestoredAt(cars: seq<CarParam>, i: nat, lim: Limits)
    ensures AllRestored(cars, i, lim) <==> forall j :: 0 <= j < |cars| ==> RestoredCar(cars[j], i + j, lim)
    decreases |cars|
  {
    if |cars| > 0 {
      AllRestoredAt(cars[1..], i + 1, lim);
      assert forall j :: 1 <= j < |cars| ==> cars[j] == cars[1..][j - 1];
    }
  }

  /** The text of the next car object: from the next `{` to the next `}`
      after it, both included. */
  function CarObject(json: string, searchPos: nat): (r: string)
    requires searchPos <= |json|
    requires NextObject(json, searchPos).Some?
  {
    json[NextObject(json, searchPos).value.0..NextObject(json, searchPos).value.1 + 1]
  }

  /** One round of the car loop: the next car object read as car `i`, and
      the search goes on past its `}`. */
  function NextCar(json: string, searchPos: nat, i: nat, c0: CarParam, lim: Limits)
    : (r: Result<(CarParam, nat), Rejection>)
    requires ValidLimits(lim)
    requires searchPos <= |json|
    requires i < CAR_MAX_COUNT
    ensures r.Ok? ==> searchPos < r.value.1 <= |json| && RestoredCar(r.value.0, i, lim)
    ensures r.Err? ==> CarRejection(r.error) && r.error.car == i
    ensures NextObject(json, searchPos).None? ==> r == Err(MissingProfile(i))
    ensures NextObject(json, searchPos).Some? ==>
              (r.Ok? <==> ParseCar(CarObject(json, searchPos), i, c0, lim).Ok?)
    ensures r.Ok? ==>
              && r.value.0 == ParseCar(CarObject(json, searchPos), i, c0, lim).value
              && r.value.1 == NextObject(json, searchPos).value.1 + 1
  {
    match NextObject(json, searchPos)
    case None => Err(MissingProfile(i))
    case Some((objStart, objEnd)) =>
      match ParseCar(CarObject(json, searchPos), i, c0, lim)
      case Err(e) => Err(e)
      case Ok(c) => Ok((c, objEnd + 1))
  }

  /** Car slots `i` onwards, one round each. */
  function ParseCars(json: string, searchPos: nat, i: nat, cur: seq<CarParam>, lim: Limits)
    : (r: Result<seq<CarParam>, Rejection>)
    requires ValidLimits(lim)
    requires searchPos <= |json|
    requires i <= |cur| == CAR_MAX_COUNT
    ensures r.Ok? ==> |r.value| == CAR_MAX_COUNT - i
    ensures r.Ok? ==> AllRestored(r.value, i, lim)
    ensures r.Err? ==> CarRejection(r.error) && i <= r.error.car < CAR_MAX_COUNT
    decreases CAR_MAX_COUNT - i
  {
    if i == CAR_MAX_COUNT then Ok([])
    else
      match NextCar(json, searchPos, i, cur[i], lim)
      case Err(e) => Err(e)
      case Ok((c, next)) =>
        match ParseCars(json, next, i + 1, cur, lim)
        case Err(e) => Err(e)
        case Ok(rest) =>
          var cars := [c] + rest;
          assert cars[1..] == rest;
          Ok(cars)
  }

  /** Where the first `"cars"` starts, or -1. */
  function CarsKeyAt(json: string): (r: int)
    ensures r == -1 || 0 <= r < |json|
  {
    TextKeysAreNames();
    KeyNameIsPlain("cars");
    IndexOfStr(json, Quoted("cars"), 0)
  }

  /** Where the search for car objects starts: at the first `[` after the
      first `"cars"`. */
  function CarsArrayStart(json: string): (r: Result<nat, Rejection>)
    ensures r == Err(MissingCars) <==> CarsKeyAt(json) < 0
    ensures r == Err(MalformedCars) <==> CarsKeyAt(json) >= 0 && IndexOfChar(json, '[', CarsKeyAt(json)) < 0
    ensures r.Err? ==> r.error.MissingCars? || r.error.MalformedCars?
    ensures r.Ok? ==> r.value < |json| && json[r.value] == '['
  {
    var carStart := CarsKeyAt(json);
    if carStart < 0 then Err(MissingCars)
    else
      var searchPos := IndexOfChar(json, '[', carStart);
      if searchPos < 0 then Err(MalformedCars) else Ok(searchPos)
  }

  /** The first screensaver line read over `current`. */
  function Line1(json: string, current: string, lim: Limits): string
    requires ValidLimits(lim)
  {
    TextKeysAreNames();
    KeyNameIsPlain("screensaverLine1");
    ParseText(json, "screensaverLine1", current, lim)
  }

  /** The second screensaver line read over `current`. */
  function Line2(json: string, current: string, lim: Limits): string
    requires ValidLimits(lim)
  {
    TextKeysAreNames();
    KeyNameIsPlain("screensaverLine2");
    ParseText(json, "screensaverLine2", current, lim)
  }

  /** `parseAndValidateJson`: the lenient top-level entries, the screensaver
      lines, then the car array, which must hold `CAR_MAX_COUNT` acceptable
      objects after the `[` that follows the first `"cars"`. A failure leaves
      nothing behind: the result is either a whole settings record or a
      rejection. */
  function ParseAndValidate(json: string, cur: StoredVar, lim: Limits): (r: Result<StoredVar, Rejection>)
    requires ValidLimits(lim)
    requires WellShaped(cur)
    ensures r == Err(MissingCars) <==> CarsKeyAt(json) < 0
    ensures r == Err(MalformedCars) <==> CarsKeyAt(json) >= 0 && IndexOfChar(json, '[', CarsKeyAt(json)) < 0
    ensures r.Err? && !r.error.MissingCars? && !r.error.MalformedCars? ==> CarRejection(r.error)
    ensures r.Ok? ==> WellShaped(r.value) && AllRestored(r.value.carParam, 0, lim)
  {
    var sv := ParseGlobals(json, cur, lim);
    match CarsArrayStart(json)
    case Err(e) => Err(e)
    case Ok(searchPos) =>
      match ParseCars(json, searchPos, 0, cur.carParam, lim)
      case Err(e) => Err(e)
      case Ok(cars) =>
        Ok(sv.(carParam := cars,
               screensaverLine1 := Line1(json, cur.screensaverLine1, lim),
               screensaverLine2 := Line2(json, cur.screensaverLine2, lim)))
  }

  /** An accepted upload carries the top-level entries as the lenient
      reading left them and the screensaver lines as `parseJsonStr` read them
      (or the current lines when absent). */
  lemma ParseAndValidateEntries(json: string, cur: StoredVar, lim: Limits)
    requires ValidLimits(lim)
    requires WellShaped(cur)
    requires ParseAndValidate(json, cur, lim).Ok?
    ensures forall g :: GlobalValue(ParseAndValidate(json, cur, lim).value, lim, g) ==
                        GlobalValue(ParseGlobals(json, cur, lim), lim, g)
    ensures ParseAndValidate(json, cur, lim).value.screensaverLine1 == Line1(json, cur.screensaverLine1, lim)
    ensures ParseAndValidate(json, cur, lim).value.screensaverLine2 == Line2(json, cur.screensaverLine2, lim)
  {
    var sv := ParseGlobals(json, cur, lim);
    var r := ParseAndValidate(json, cur, lim).value;
    assert r == sv.(carParam := r.carParam,
                    screensaverLine1 := Line1(json, cur.screensaverLine1, lim),
                    screensaverLine2 := Line2(json, cur.screensaverLine2, lim));
    GlobalValueOfUpdate(sv, r.carParam, r.screensaverLine1, r.screensaverLine2, lim);
  }

  // ------------------------------------------------------------- handler

  /** An HTTP reply: status code and plain-text body. */
  datatype Reply = Reply(status: nat, body: string)

  /** What `handleRestore` leaves behind: the settings in RAM, the reply, whether
      the settings were written to EEPROM (which is followed by a restart),
      and the upload buffer. */
  datatype RestoreOutcome = RestoreOutcome(stored: StoredVar, reply: Reply, saved: bool, buffer: string)

  const NO_FILE_MESSAGE := "Error: no file uploaded"
  const RESTORED_MESSAGE := "OK - Settings restored! Restarting..."

  /** `handleRestore` on the accumulated upload `buffer` with the current
      settings `stored`: an empty upload is refused; otherwise the validated
      record replaces the settings and is saved, or the rejection's message is
      sent and nothing changes. The buffer is cleared in every case. */
  function HandleRestore(buffer: string, stored: StoredVar, lim: Limits): (o: RestoreOutcome)
    requires ValidLimits(lim)
    requires WellShaped(stored)
    ensures o.buffer == []
    ensures o.saved <==> o.reply.status == 200
    ensures o.saved <==> |buffer| > 0 && ParseAndValidate(buffer, stored, lim).Ok?
    ensures !o.saved ==> o.stored == stored
    ensures WellShaped(o.stored)
    ensures o.saved ==> o.stored == ParseAndValidate(buffer, stored, lim).value
                        && o.reply.body == RESTORED_MESSAGE
    ensures |buffer| == 0 ==> o.reply == Reply(400, NO_FILE_MESSAGE)
    ensures |buffer| > 0 && ParseAndValidate(buffer, stored, lim).Err? ==>
              o.reply == Reply(400, Message(ParseAndValidate(buffer, stored, lim).error))
  {
    if |buffer| == 0 then RestoreOutcome(stored, Reply(400, NO_FILE_MESSAGE), false, buffer)
    else
      match ParseAndValidate(buffer, stored, lim)
      case Ok(sv) => RestoreOutcome(sv, Reply(200, RESTORED_MESSAGE), true, [])
      case Err(e) => RestoreOutcome(stored, Reply(400, Message(e)), false, [])
  }
}
