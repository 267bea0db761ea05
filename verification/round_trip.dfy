/** The backup document read back by the restore validator: a record whose
    texts the document can carry comes back from `parseAndValidateJson`
    exactly as `buildJsonBackup` wrote it. */
module RoundTrip {
  import opened Wrappers
  import opened CText
  import opened JsonScan
  import opened Settings
  import opened Fields
  import opened Backup
  import opened JsonFind
  import opened Restore

  // ---------------------------------------------------------- text pieces

  /** A text without NUL is its own C-string contents. */
  lemma CStrOfPlain(s: string)
    requires '\0' !in s
    ensures CStr(s) == s
  {
    FirstNulAtLeast(s, 0, |s|);
    assert s[0..|s|] == s;
  }

  /** A name the rename editor can produce holds no NUL. */
  lemma ValidNameHasNoNul(name: string)
    requires ValidCarName(name)
    ensures '\0' !in name && '}' !in name && CStr(name) == name
  {
    forall k | 0 <= k < |name| ensures name[k] != '\0' && name[k] != '}' {
      NameCharIsNotDelimiter(name[k]);
    }
    CStrOfPlain(name);
  }

  /** The opening line of the document and of every car object is clean
      for every key. */
  lemma OpeningClean(key: string)
    requires KeyName(key)
    ensures Clean("{\n", key)
  {
    ShortNoOcc("{\n", key);
    QuotedKeyChars(key, '\n');
  }

  lemma CarKeysDistinct()
    ensures Distinct(CarKeys())
  {
    CarFieldsDistinct();
    forall i, j | 0 <= i < j < |CarKeys()| ensures CarKeys()[i] != CarKeys()[j] {
      CarKeyInjective(CAR_FIELDS[i], CAR_FIELDS[j]);
    }
  }

  // ---------------------------------------------------------------- cars

  /** A car profile the document carries: a restored profile of slot `i`
      whose name the rename editor can produce and holds no quote. */
  predicate CarCarried(c: CarParam, i: nat, lim: Limits) {
    && RestoredCar(c, i, lim)
    && ValidCarName(c.carName)
    && '"' !in c.carName
  }

  /** A written car object is its opening line, the `name` line, the
      numeric lines and the closing brace. */
  lemma CarBodyLayout(c: CarParam)
    ensures var name := StrLine(FIELD_INDENT, "name", CStr(c.carName));
            var nums := NumLines(FIELD_INDENT, CarKeys(), CarValues(c), "\n");
              && CarBody(c) == "{\n" + name + (nums + "    }")
              && CarBody(c) == ("{\n" + name) + nums + "    }"
  {
    var name := StrLine(FIELD_INDENT, "name", CStr(c.carName));
    var nums := NumLines(FIELD_INDENT, CarKeys(), CarValues(c), "\n");
    assert CarInner(c) == name + nums;
    Assoc("{\n", name, nums);
    Assoc("{\n" + name, nums, "    }");
  }

  /** The `name` entry of a written car object reads back as the name. */
  lemma NameOfCarBody(c: CarParam)
    requires ValidCarName(c.carName) && '"' !in c.carName
    ensures NameInput(CarBody(c)) == Some(c.carName)
  {
    OpeningClean("name");
    CarBodyLayout(c);
    var y := NumLines(FIELD_INDENT, CarKeys(), CarValues(c), "\n") + "    }";
    NameAfter(CarBody(c), "{\n", c.carName, y);
  }

  /** A name line after text clean for the key `name` reads back as the
      name. */
  lemma NameAfter(s: string, x: string, name: string, y: string)
    requires s == x + StrLine(FIELD_INDENT, "name", CStr(name)) + y
    requires Clean(x, "name") && ValidCarName(name) && '"' !in name
    ensures NameInput(s) == Some(name)
  {
    ValidNameHasNoNul(name);
    TextKeysAreNames();
    IndentsAreSpaces();
    FindStr(s, x, FIELD_INDENT, "name", name, y, 16);
  }

  /** The document does not escape quotes: a name the rename editor can
      produce but that holds a double quote comes back cut at its first
      quote, so the restored name differs from the written one. */
  lemma QuoteCutsName(c: CarParam, u: string, w: string)
    requires ValidCarName(c.carName) && c.carName == u + "\"" + w && '"' !in u
    ensures NameInput(CarBody(c)) == Some(u)
    ensures CopiedName(NameInput(CarBody(c)).value) != c.carName
  {
    OpeningClean("name");
    CarBodyLayout(c);
    var y := NumLines(FIELD_INDENT, CarKeys(), CarValues(c), "\n") + "    }";
    NameCutAfter(CarBody(c), "{\n", c.carName, u, w, y);
  }

  /** An uploaded car object with a five-character name: the 16-byte read
      keeps the whole name, the copy as written then fills the five-byte
      array with no terminator left, and the corrected copy keeps it. */
  lemma LongNameFillsArray(s: string)
    requires s == "{\n" + StrLine(FIELD_INDENT, "name", "ABCDE") + "    }"
    ensures NameInput(s) == Some("ABCDE")
    ensures !NameFits(CopiedNameAsWritten(NameInput(s).value))
    ensures NameFits(CopiedName(NameInput(s).value))
  {
    OpeningClean("name");
    TextKeysAreNames();
    IndentsAreSpaces();
    assert '"' !in "ABCDE" && '\0' !in "ABCDE";
    FindStr(s, "{\n", FIELD_INDENT, "name", "ABCDE", "    }", 16);
  }

  /** A name line whose name holds a quote, after text clean for the key
      `name`, reads back as the part before the quote. */
  lemma NameCutAfter(s: string, x: string, name: string, u: string, w: string, y: string)
    requires s == x + StrLine(FIELD_INDENT, "name", CStr(name)) + y
    requires Clean(x, "name") && ValidCarName(name)
    requires name == u + "\"" + w && '"' !in u
    ensures NameInput(s) == Some(u)
  {
    ValidNameHasNoNul(name);
    assert '\0' !in u by {
      assert forall k :: 0 <= k < |u| ==> u[k] == name[k];
    }
    TextKeysAreNames();
    IndentsAreSpaces();
    FindStrCut(s, x, FIELD_INDENT, "name", u, w, y, 16);
  }

  /** Every numeric entry of a written car object reads back as the field. */
  lemma FieldOfCarBody(c: CarParam, f: CarField)
    requires ValidCarName(c.carName) && '"' !in c.carName
    ensures CarInput(CarBody(c), f) == Some(CarValue(c, f) as int)
  {
    CarFieldsComplete(f);
    var k :| 0 <= k < |CAR_FIELDS| && CAR_FIELDS[k] == f;
    EntryOfCarBody(c, k);
    assert CarKeys()[k] == CarKey(f);
    assert CarValues(c)[k] == CarValue(c, f) as int;
  }

  /** The `k`-th numeric entry of a written car object reads back as its
      value. */
  lemma EntryOfCarBody(c: CarParam, k: nat)
    requires ValidCarName(c.carName) && '"' !in c.carName
    requires k < |CAR_FIELDS|
    ensures PlainKey(CarKeys()[k]) && ParseJsonInt(CarBody(c), CarKeys()[k]) == Some(CarValues(c)[k])
  {
    ValidNameHasNoNul(c.carName);
    TextKeysAreNames();
    var key := CarKeys()[k];
    CarKeyIsName(CAR_FIELDS[k]);
    CarKeyLong(CAR_FIELDS[k]);
    var line := StrLine(FIELD_INDENT, "name", CStr(c.carName));
    OpeningClean(key);
    IndentsAreSpaces();
    StrLineClean(FIELD_INDENT, "name", CStr(c.carName), key);
    CleanConcat("{\n", line, key);
    CarBodyLayout(c);
    CarKeysAreNames();
    CarKeysDistinct();
    FindInNumLines(CarBody(c), "{\n" + line, FIELD_INDENT, CarKeys(), CarValues(c), "\n", "    }", k);
  }

  /** `parseAndValidateJson` restores a written car object as the profile
      that was written, whatever the slot held before. */
  lemma CarRoundTrip(c: CarParam, i: nat, c0: CarParam, lim: Limits)
    requires ValidLimits(lim)
    requires i < CAR_MAX_COUNT
    requires CarCarried(c, i, lim)
    ensures ParseCar(CarBody(c), i, c0, lim) == Ok(c)
  {
    var s := CarBody(c);
    NameOfCarBody(c);
    CarInLimitsByField(c, lim);
    forall f ensures InputsOf(s)(f) == Some(CarValue(c, f) as int) && Acceptable(InputsOf(s)(f), f, lim) {
      FieldOfCarBody(c, f);
    }
    ParseCarSpec(s, i, c0, lim);
    var r := ParseCar(s, i, c0, lim).value;
    CarExt(r, c);
  }

  // ---------------------------------------------------------- cars array

  /** The text of a car object as the object scan sees it: opens with `{`,
      closes with its only `}`, holds no NUL. */
  predicate ObjectText(b: string) {
    && |b| > 1 && b[0] == '{' && b[|b| - 1] == '}'
    && '}' !in b[..|b| - 1] && '\0' !in b
  }

  /** A written car object opens with `{`, closes with its only `}` and
      holds no NUL. */
  lemma CarBodyShape(c: CarParam)
    requires ValidCarName(c.carName)
    ensures ObjectText(CarBody(c))
  {
    ValidNameHasNoNul(c.carName);
    StrayIsStray();
    CarInnerLacks(c, '}');
    CarInnerLacks(c, '\0');
    Braced(CarInner(c));
  }

  lemma StrayIsStray()
    ensures Stray('}') && Stray('\0')
  {
  }

  /** Text between an opening `{` line and a closing `}` with no brace or
      NUL of its own is an object. */
  lemma Braced(x: string)
    requires '}' !in x && '\0' !in x
    ensures ObjectText("{\n" + x + "    }")
  {
    var b := "{\n" + x + "    }";
    assert b[..|b| - 1] == "{\n" + x + "    ";
  }

  /** The object scan from `searchPos` finds `body` when it is the next
      object of the text and nothing before it holds a `{` or a NUL. */
  lemma ObjectAt(json: string, p: string, body: string, sep: string, rest: string, searchPos: nat)
    requires json == p + ("    " + body + sep) + rest
    requires ObjectText(body)
    requires searchPos <= |p|
    requires '{' !in json[searchPos..|p|] && '\0' !in json[searchPos..|p|]
    ensures NextObject(json, searchPos) == Some((|p| + 4, |p| + 3 + |body|))
    ensures json[|p| + 4..|p| + 4 + |body|] == body
    ensures json[|p| + 4 + |body|..|p| + 4 + |body| + |sep|] == sep
  {
    assert json[|p| + 4 + |body|..|p| + 4 + |body| + |sep|] == sep;
    var a := |p| + 4;
    var e := |p| + 3 + |body|;
    assert json[|p|..a] == "    ";
    assert json[searchPos..a] == json[searchPos..|p|] + "    ";
    assert json[a..a + |body|] == body;
    IndexOfCharIs(json, '{', searchPos, a);
    assert json[a..e] == body[..|body| - 1];
    IndexOfCharIs(json, '}', a, e);
  }

  /** The object the car loop hands to the car parser is the text from the
      `{` the scan found to its `}`. */
  lemma CarObjectIs(json: string, searchPos: nat, objStart: nat, objEnd: nat, body: string)
    requires searchPos <= |json|
    requires NextObject(json, searchPos) == Some((objStart, objEnd))
    requires objEnd < |json| && json[objStart..objEnd + 1] == body
    ensures CarObject(json, searchPos) == body
  {
  }

  /** A round of the car loop whose object parses as `c` goes on past the
      object's `}`. */
  lemma NextCarIs(json: string, searchPos: nat, i: nat, c0: CarParam, lim: Limits,
                  objStart: nat, objEnd: nat, c: CarParam, next: nat)
    requires ValidLimits(lim)
    requires searchPos <= |json| && i < CAR_MAX_COUNT
    requires NextObject(json, searchPos) == Some((objStart, objEnd)) && next == objEnd + 1
    requires ParseCar(CarObject(json, searchPos), i, c0, lim) == Ok(c)
    ensures NextCar(json, searchPos, i, c0, lim) == Ok((c, next))
  {
    var r := NextCar(json, searchPos, i, c0, lim);
    assert r.Ok?;
    assert r.value.0 == c;
    assert r.value.1 == next;
  }

  /** One round of the car loop of the validator: the next object parses
      as `c` and the remaining slots as `rest`. */
  lemma ParseCarsStep(json: string, searchPos: nat, i: nat, cur: seq<CarParam>, lim: Limits,
                      next: nat, c: CarParam, rest: seq<CarParam>, cars: seq<CarParam>)
    requires ValidLimits(lim)
    requires searchPos <= |json|
    requires i < |cur| == CAR_MAX_COUNT
    requires NextCar(json, searchPos, i, cur[i], lim) == Ok((c, next))
    requires ParseCars(json, next, i + 1, cur, lim) == Ok(rest)
    requires cars == [c] + rest
    ensures ParseCars(json, searchPos, i, cur, lim) == Ok(cars)
  {
  }

  /** A suffix of a sequence is its first element before the shorter suffix. */
  lemma SuffixCons<T>(s: seq<T>, i: nat)
    requires i < |s|
    ensures s[i..] == [s[i]] + s[i + 1..]
  {
  }

  /** The two ways of reading `p + (chunk + tail) + t`. */
  lemma Regroup(json: string, p: string, chunk: string, tail: string, t: string)
    requires json == p + (chunk + tail) + t
    ensures json == p + chunk + (tail + t)
    ensures json == (p + chunk) + tail + t
  {
    Assoc(p, chunk, tail);
    Assoc(p + chunk, tail, t);
  }

  /** Objects `bodies[i..]` laid out as `buildJsonBackup` lays out the
      array: indented, each followed by a comma except the last. */
  function Slots(bodies: seq<string>, i: nat): string
    requires i <= |bodies|
    decreases |bodies| - i
  {
    if i == |bodies| then ""
    else "    " + bodies[i] + (if i < |bodies| - 1 then ",\n" else "\n") + Slots(bodies, i + 1)
  }

  function Bodies(cars: seq<CarParam>): (r: seq<string>)
    ensures |r| == |cars|
  {
    seq(|cars|, j requires 0 <= j < |cars| => CarBody(cars[j]))
  }

  /** The written array is the slots of the written objects. */
  lemma {:induction false} CarsArrayIsSlots(cars: seq<CarParam>, i: nat)
    requires i <= |cars|
    ensures CarsArray(cars, i) == Slots(Bodies(cars), i)
    decreases |cars| - i
  {
    if i < |cars| {
      CarsArrayIsSlots(cars, i + 1);
      assert Bodies(cars)[i] == CarBody(cars[i]);
    }
  }

  /** Where one slot `"    " + body + sep` of an array sits in `json`: the
      object scan from `searchPos` finds `body` at `objStart..objEnd`, and
      past it only the separator comes before the rest. */
  lemma ChunkAt(json: string, p: string, body: string, sep: string, tail: string, t: string,
                searchPos: nat, objStart: nat, objEnd: nat)
    requires json == p + (("    " + body + sep) + tail) + t
    requires ObjectText(body)
    requires '{' !in sep && '\0' !in sep
    requires searchPos <= |p|
    requires '{' !in json[searchPos..|p|] && '\0' !in json[searchPos..|p|]
    requires objStart == |p| + 4 && objEnd == |p| + 3 + |body|
    ensures NextObject(json, searchPos) == Some((objStart, objEnd))
    ensures objEnd < |json| && json[objStart..objEnd + 1] == body
    ensures json == (p + ("    " + body + sep)) + tail + t
    ensures objEnd + 1 <= |p + ("    " + body + sep)|
    ensures '{' !in json[objEnd + 1..|p + ("    " + body + sep)|]
    ensures '\0' !in json[objEnd + 1..|p + ("    " + body + sep)|]
  {
    var chunk := "    " + body + sep;
    Regroup(json, p, chunk, tail, t);
    ObjectAt(json, p, body, sep, tail + t, searchPos);
    assert |p + chunk| == |p| + 4 + |body| + |sep|;
  }

  /** The first slot of `bodies[i..]` and the slots after it. */
  lemma SlotsUnfold(bodies: seq<string>, i: nat, sep: string)
    requires i < |bodies|
    requires sep == (if i < |bodies| - 1 then ",\n" else "\n")
    ensures Slots(bodies, i) == ("    " + bodies[i] + sep) + Slots(bodies, i + 1)
    ensures '{' !in sep && '\0' !in sep
  {
  }

  /** The first round of the car loop over slots laid out after `p`: it
      reads `bodies[i]` as `cars[i]` and resumes at `next`, where the slots
      after it begin beyond `q`. */
  lemma FirstSlot(json: string, p: string, bodies: seq<string>, cars: seq<CarParam>,
                  i: nat, t: string, searchPos: nat, cur: seq<CarParam>, lim: Limits,
                  sep: string, q: string, next: nat)
    requires ValidLimits(lim)
    requires |bodies| == |cars| == |cur| == CAR_MAX_COUNT && i < CAR_MAX_COUNT
    requires ObjectText(bodies[i]) && ParseCar(bodies[i], i, cur[i], lim) == Ok(cars[i])
    requires sep == (if i < |bodies| - 1 then ",\n" else "\n")
    requires q == p + ("    " + bodies[i] + sep) && next == |p| + 4 + |bodies[i]|
    requires json == p + Slots(bodies, i) + t
    requires searchPos <= |p|
    requires '{' !in json[searchPos..|p|] && '\0' !in json[searchPos..|p|]
    ensures NextCar(json, searchPos, i, cur[i], lim) == Ok((cars[i], next))
    ensures json == q + Slots(bodies, i + 1) + t
    ensures next <= |q| && '{' !in json[next..|q|] && '\0' !in json[next..|q|]
  {
    var body := bodies[i];
    var objStart: nat := |p| + 4;
    var objEnd: nat := |p| + 3 + |body|;
    SlotsUnfold(bodies, i, sep);
    ChunkAt(json, p, body, sep, Slots(bodies, i + 1), t, searchPos, objStart, objEnd);
    CarObjectIs(json, searchPos, objStart, objEnd, body);
    NextCarIs(json, searchPos, i, cur[i], lim, objStart, objEnd, cars[i], next);
  }

  /** The objects `bodies[i..]`, laid out after `p`, read back as `cars[i..]`
      when each reads back as its car and the text from `searchPos` to them
      holds no `{` or NUL. */
  lemma {:induction false} SlotsRoundTrip(json: string, p: string, bodies: seq<string>, cars: seq<CarParam>,
                                          i: nat, t: string, searchPos: nat, cur: seq<CarParam>, lim: Limits)
    requires ValidLimits(lim)
    requires |bodies| == |cars| == |cur| == CAR_MAX_COUNT && i <= CAR_MAX_COUNT
    requires forall j :: i <= j < |bodies| ==> ObjectText(bodies[j])
    requires forall j :: i <= j < |bodies| ==> ParseCar(bodies[j], j, cur[j], lim) == Ok(cars[j])
    requires json == p + Slots(bodies, i) + t
    requires searchPos <= |p|
    requires '{' !in json[searchPos..|p|] && '\0' !in json[searchPos..|p|]
    ensures ParseCars(json, searchPos, i, cur, lim) == Ok(cars[i..])
    decreases CAR_MAX_COUNT - i
  {
    if i < CAR_MAX_COUNT {
      var sep := if i < |bodies| - 1 then ",\n" else "\n";
      var q := p + ("    " + bodies[i] + sep);
      var next := |p| + 4 + |bodies[i]|;
      FirstSlot(json, p, bodies, cars, i, t, searchPos, cur, lim, sep, q, next);
      SlotsRoundTrip(json, q, bodies, cars, i + 1, t, next, cur, lim);
      SuffixCons(cars, i);
      ParseCarsStep(json, searchPos, i, cur, lim, next, cars[i], cars[i + 1..], cars[i..]);
    } else {
      assert cars[i..] == [];
    }
  }

  /** Each written car object is an object that reads back as its car. */
  lemma BodiesRead(cars: seq<CarParam>, bodies: seq<string>, cur: seq<CarParam>, lim: Limits)
    requires ValidLimits(lim)
    requires |cars| == CAR_MAX_COUNT && |cur| == CAR_MAX_COUNT && bodies == Bodies(cars)
    requires forall j :: 0 <= j < |cars| ==> CarCarried(cars[j], j, lim)
    ensures forall j :: 0 <= j < |bodies| ==> ObjectText(bodies[j])
    ensures forall j :: 0 <= j < |bodies| ==> ParseCar(bodies[j], j, cur[j], lim) == Ok(cars[j])
  {
    forall j | 0 <= j < |bodies|
      ensures ObjectText(bodies[j]) && ParseCar(bodies[j], j, cur[j], lim) == Ok(cars[j])
    {
      CarBodyShape(cars[j]);
      CarRoundTrip(cars[j], j, cur[j], lim);
    }
  }

  /** The written array of `CAR_MAX_COUNT` carried profiles, after `p`,
      reads back as those profiles. */
  lemma CarsRoundTrip(json: string, p: string, cars: seq<CarParam>, t: string,
                      searchPos: nat, cur: seq<CarParam>, lim: Limits)
    requires ValidLimits(lim)
    requires |cars| == CAR_MAX_COUNT && |cur| == CAR_MAX_COUNT
    requires forall j :: 0 <= j < |cars| ==> CarCarried(cars[j], j, lim)
    requires json == p + CarsArray(cars, 0) + t
    requires searchPos <= |p|
    requires '{' !in json[searchPos..|p|] && '\0' !in json[searchPos..|p|]
    ensures ParseCars(json, searchPos, 0, cur, lim) == Ok(cars)
  {
    var bodies := Bodies(cars);
    BodiesRead(cars, bodies, cur, lim);
    CarsArrayIsSlots(cars, 0);
    SlotsRoundTrip(json, p, bodies, cars, 0, t, searchPos, cur, lim);
    assert cars[0..] == cars;
  }
}
