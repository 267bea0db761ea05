/** `buildJsonBackup` of `wifi_backup.cpp`: the settings record rendered as
    the JSON text the web page offers for download. */
module Backup {
  import opened CText
  import opened JsonScan
  import opened Settings
  import opened Fields

  /** Indentation of the top-level entries and of the entries of a car. */
  const GLOBAL_INDENT := "  "
  const FIELD_INDENT := "      "

  /** One numeric entry line. `%u` of an unsigned value prints what `%d`
      prints, so both are rendered with `SDec`. */
  function NumLine(indent: string, key: string, value: int, ending: string): string {
    indent + Quoted(key) + ": " + SDec(value) + ending
  }

  /** Numeric entries, one per line; every line ends in `",\n"` except the
      last, which ends in `lastEnding`. */
  function NumLines(indent: string, keys: seq<string>, values: seq<int>, lastEnding: string): string
    requires |keys| == |values|
    decreases |keys|
  {
    if |keys| == 0 then ""
    else NumLine(indent, keys[0], values[0], if |keys| == 1 then lastEnding else ",\n")
           + NumLines(indent, keys[1..], values[1..], lastEnding)
  }

  /** One `"key": "%s",` entry line. */
  function StrLine(indent: string, key: string, text: string): string {
    indent + Quoted(key) + ": \"" + text + "\",\n"
  }

  /** The numeric top-level keys, in the order they are written. */
  function GlobalKeys(): (r: seq<string>)
    ensures |r| == |GLOBAL_FIELDS|
    ensures forall k :: 0 <= k < |r| ==> r[k] == GlobalKey(GLOBAL_FIELDS[k])
  {
    seq(|GLOBAL_FIELDS|, k requires 0 <= k < |GLOBAL_FIELDS| => GlobalKey(GLOBAL_FIELDS[k]))
  }

  /** The values written under `GlobalKeys()`. */
  function GlobalValues(sv: StoredVar, lim: Limits): (r: seq<int>)
    ensures |r| == |GLOBAL_FIELDS|
    ensures forall k :: 0 <= k < |r| ==> r[k] == GlobalValue(sv, lim, GLOBAL_FIELDS[k])
  {
    seq(|GLOBAL_FIELDS|, k requires 0 <= k < |GLOBAL_FIELDS| => GlobalValue(sv, lim, GLOBAL_FIELDS[k]))
  }

  /** The numeric keys of a car object, in the order they are written. */
  function CarKeys(): (r: seq<string>)
    ensures |r| == |CAR_FIELDS|
    ensures forall k :: 0 <= k < |r| ==> r[k] == CarKey(CAR_FIELDS[k])
  {
    seq(|CAR_FIELDS|, k requires 0 <= k < |CAR_FIELDS| => CarKey(CAR_FIELDS[k]))
  }

  /** The values written under `CarKeys()`. */
  function CarValues(c: CarParam): (r: seq<int>)
    ensures |r| == |CAR_FIELDS|
    ensures forall k :: 0 <= k < |r| ==> r[k] == CarValue(c, CAR_FIELDS[k])
  {
    seq(|CAR_FIELDS|, k requires 0 <= k < |CAR_FIELDS| => CarValue(c, CAR_FIELDS[k]) as int)
  }

  /** The entry lines of one car object. */
  function CarInner(c: CarParam): string {
    StrLine(FIELD_INDENT, "name", CStr(c.carName)) + NumLines(FIELD_INDENT, CarKeys(), CarValues(c), "\n")
  }

  /** One car object, from its `{` to its `}`. */
  function CarBody(c: CarParam): string {
    "{\n" + CarInner(c) + "    }"
  }

  /** Slot `i` of the array: the indented object and its separator. */
  function CarChunk(cars: seq<CarParam>, i: nat): string
    requires i < |cars|
  {
    "    " + CarBody(cars[i]) + (if i < |cars| - 1 then ",\n" else "\n")
  }

  /** The objects of `cars[i..]`. */
  function CarsArray(cars: seq<CarParam>, i: nat): string
    requires i <= |cars|
    decreases |cars| - i
  {
    if i == |cars| then "" else CarChunk(cars, i) + CarsArray(cars, i + 1)
  }

  /** Opening of the cars array. */
  const CARS_OPEN := "  \"cars\": [\n"
  /** End of the document. */
  const DOC_CLOSE := "  ]\n}\n"

  /** Everything before the cars array. */
  function Header(sv: StoredVar, lim: Limits): string {
    "{\n" + NumLines(GLOBAL_INDENT, GlobalKeys(), GlobalValues(sv, lim), ",\n")
      + StrLine(GLOBAL_INDENT, "screensaverLine1", CStr(sv.screensaverLine1))
      + StrLine(GLOBAL_INDENT, "screensaverLine2", CStr(sv.screensaverLine2))
      + CARS_OPEN
  }

  /** The whole backup document. */
  function BackupJson(sv: StoredVar, lim: Limits): string
    requires WellShaped(sv)
  {
    Header(sv, lim) + CarsArray(sv.carParam, 0) + DOC_CLOSE
  }

  /** The objects of `cars[..n]`, as the loop of `buildJsonBackup` has
      appended them after `n` rounds. */
  function CarsUpTo(cars: seq<CarParam>, n: nat): string
    requires n <= |cars|
  {
    if n == 0 then "" else CarsUpTo(cars, n - 1) + CarChunk(cars, n - 1)
  }

  /** After `n` rounds, the rounds still to come append exactly the rest of
      the array. */
  lemma {:induction false} CarsUpToThenRest(cars: seq<CarParam>, n: nat)
    requires n <= |cars|
    ensures CarsUpTo(cars, n) + CarsArray(cars, n) == CarsArray(cars, 0)
    decreases n
  {
    if n > 0 {
      CarsUpToThenRest(cars, n - 1);
      Assoc(CarsUpTo(cars, n - 1), CarChunk(cars, n - 1), CarsArray(cars, n));
    }
  }

  /** After every round the loop has appended the whole array. */
  lemma CarsUpToAll(cars: seq<CarParam>)
    ensures CarsUpTo(cars, |cars|) == CarsArray(cars, 0)
  {
    CarsUpToThenRest(cars, |cars|);
    assert CarsArray(cars, |cars|) == "";
    assert CarsUpTo(cars, |cars|) + "" == CarsUpTo(cars, |cars|);
  }

  /** Appending slot `i` to the first `i` slots gives the first `i + 1`. */
  lemma CarsUpToStep(head: string, cars: seq<CarParam>, i: nat)
    requires i < |cars|
    ensures head + CarsUpTo(cars, i) + CarChunk(cars, i) == head + CarsUpTo(cars, i + 1)
  {
    Assoc(head, CarsUpTo(cars, i), CarChunk(cars, i));
  }

  /** The car loop of `buildJsonBackup`: one object per slot, each followed
      by a comma except the last. */
  method AppendCars(head: string, cars: seq<CarParam>) returns (json: string)
    ensures json == head + CarsArray(cars, 0)
  {
    json := head;
    var i := 0;
    while i < |cars|
      invariant 0 <= i <= |cars|
      invariant json == head + CarsUpTo(cars, i)
    {
      CarsUpToStep(head, cars, i);
      json := json + CarChunk(cars, i);
      i := i + 1;
    }
    CarsUpToAll(cars);
  }

  /** `buildJsonBackup`: the header, the `CAR_MAX_COUNT` car objects and the
      closing brackets. The result is the document `BackupJson` describes,
      and it is a C string. */
  method BuildJsonBackup(sv: StoredVar, lim: Limits) returns (json: string)
    requires WellShaped(sv)
    ensures json == BackupJson(sv, lim)
    ensures '\0' !in json
  {
    json := "{\n";
    json := json + NumLines(GLOBAL_INDENT, GlobalKeys(), GlobalValues(sv, lim), ",\n");
    json := json + StrLine(GLOBAL_INDENT, "screensaverLine1", CStr(sv.screensaverLine1));
    json := json + StrLine(GLOBAL_INDENT, "screensaverLine2", CStr(sv.screensaverLine2));
    json := json + CARS_OPEN;
    json := AppendCars(json, sv.carParam);
    json := json + DOC_CLOSE;
    BackupJsonHasNoNul(sv, lim);
  }

  /** A character the document writes only inside the texts it copies: not
      a letter of a key, not part of a number, not punctuation or layout.
      NUL, the braces and the brackets are such characters. */
  predicate Stray(ch: char) {
    !KeyChar(ch) && !IsNumChar(ch) && ch !in " \n\":,"
  }

  /** A stray character is not part of the indentation or line endings. */
  lemma StrayFacts(ch: char)
    requires Stray(ch)
    ensures ch !in GLOBAL_INDENT && ch !in FIELD_INDENT && ch !in "\n" && ch !in ",\n"
  {
  }

  lemma SDecLacks(v: int, ch: char)
    requires Stray(ch)
    ensures ch !in SDec(v)
  {
    forall k | 0 <= k < |SDec(v)| ensures SDec(v)[k] != ch {
      SDecChars(v, k);
    }
  }

  /** A numeric line holds no stray character. */
  lemma NumLineLacks(indent: string, key: string, value: int, ending: string, ch: char)
    requires Stray(ch) && ch !in indent && ch !in ending
    requires KeyName(key)
    ensures ch !in NumLine(indent, key, value, ending)
  {
    SDecLacks(value, ch);
  }

  /** A text line holds a stray character only if its text does. */
  lemma StrLineLacks(indent: string, key: string, text: string, ch: char)
    requires Stray(ch) && ch !in indent && ch !in text
    requires KeyName(key)
    ensures ch !in StrLine(indent, key, text)
  {
  }

  lemma {:induction false} NumLinesLack(indent: string, keys: seq<string>, values: seq<int>,
                                        lastEnding: string, ch: char)
    requires |keys| == |values|
    requires Stray(ch) && ch !in indent && ch !in lastEnding
    requires forall k :: 0 <= k < |keys| ==> KeyName(keys[k])
    ensures ch !in NumLines(indent, keys, values, lastEnding)
    decreases |keys|
  {
    if |keys| > 0 {
      NumLineLacks(indent, keys[0], values[0], if |keys| == 1 then lastEnding else ",\n", ch);
      NumLinesLack(indent, keys[1..], values[1..], lastEnding, ch);
    }
  }

  lemma CarKeysAreNames()
    ensures forall k :: 0 <= k < |CarKeys()| ==> KeyName(CarKeys()[k])
  {
    forall k | 0 <= k < |CarKeys()| ensures KeyName(CarKeys()[k]) {
      CarKeyIsName(CAR_FIELDS[k]);
    }
  }

  lemma GlobalKeysAreNames()
    ensures forall k :: 0 <= k < |GlobalKeys()| ==> KeyName(GlobalKeys()[k])
  {
    forall k | 0 <= k < |GlobalKeys()| ensures KeyName(GlobalKeys()[k]) {
      GlobalKeyIsName(GLOBAL_FIELDS[k]);
    }
  }

  /** Inside a car object only the copied name can hold a stray character. */
  lemma CarInnerLacks(c: CarParam, ch: char)
    requires Stray(ch) && ch !in CStr(c.carName)
    ensures ch !in CarInner(c)
  {
    TextKeysAreNames();
    StrLineLacks(FIELD_INDENT, "name", CStr(c.carName), ch);
    StrayFacts(ch);
    CarKeysAreNames();
    NumLinesLack(FIELD_INDENT, CarKeys(), CarValues(c), "\n", ch);
  }

  /** The fixed pieces of the document hold no NUL, and only the object
      delimiters hold braces. */
  lemma PiecesFacts()
    ensures '\0' !in GLOBAL_INDENT && '\0' !in FIELD_INDENT && '\0' !in "{\n"
    ensures '\0' !in CARS_OPEN && '\0' !in DOC_CLOSE && '\0' !in "    "
    ensures '\0' !in "    }" && '\0' !in ",\n" && '\0' !in "\n"
    ensures '}' !in GLOBAL_INDENT && '}' !in FIELD_INDENT && '}' !in "\n"
  {
  }

  lemma CarChunkHasNoNul(cars: seq<CarParam>, i: nat)
    requires i < |cars|
    ensures '\0' !in CarChunk(cars, i)
  {
    CarInnerLacks(cars[i], '\0');
    PiecesFacts();
  }

  lemma {:induction false} CarsArrayHasNoNul(cars: seq<CarParam>, i: nat)
    requires i <= |cars|
    ensures '\0' !in CarsArray(cars, i)
    decreases |cars| - i
  {
    if i < |cars| {
      CarChunkHasNoNul(cars, i);
      CarsArrayHasNoNul(cars, i + 1);
      LacksConcat(CarChunk(cars, i), CarsArray(cars, i + 1), '\0');
    }
  }

  lemma LacksConcat(a: string, b: string, ch: char)
    requires ch !in a && ch !in b
    ensures ch !in a + b
  {
  }

  lemma HeaderHasNoNul(sv: StoredVar, lim: Limits)
    ensures '\0' !in Header(sv, lim)
  {
    GlobalKeysAreNames();
    PiecesFacts();
    NumLinesLack(GLOBAL_INDENT, GlobalKeys(), GlobalValues(sv, lim), ",\n", '\0');
    TextKeysAreNames();
    StrLineLacks(GLOBAL_INDENT, "screensaverLine1", CStr(sv.screensaverLine1), '\0');
    StrLineLacks(GLOBAL_INDENT, "screensaverLine2", CStr(sv.screensaverLine2), '\0');
  }

  /** The document is a C string: no NUL inside. */
  lemma BackupJsonHasNoNul(sv: StoredVar, lim: Limits)
    requires WellShaped(sv)
    ensures '\0' !in BackupJson(sv, lim)
  {
    HeaderHasNoNul(sv, lim);
    CarsArrayHasNoNul(sv.carParam, 0);
    PiecesFacts();
  }
}
