/** The whole backup document read back: `parseAndValidateJson` applied to
    the text `buildJsonBackup` writes gives back the record that was
    written, whatever the current settings are, as long as every value is
    one the validator accepts and the texts can travel between quotes. */
module DocRoundTrip {
  import opened Wrappers
  import opened CText
  import opened JsonScan
  import opened Settings
  import opened Fields
  import opened Backup
  import opened JsonFind
  import opened Restore
  import opened RoundTrip

  /** A screensaver line the document carries: no quote, no NUL, and short
      enough for the `SCREENSAVER_TEXT_MAX` buffer with its terminator. */
  predicate TextCarried(t: string, lim: Limits) {
    && '"' !in t && '\0' !in t
    && |t| < lim.screensaverTextMax
    && t != "cars"
  }

  /** A record whose backup restores to itself: `CAR_MAX_COUNT` carried car
      profiles numbered by slot, checked entries within the validator's
      ranges, and carried screensaver lines. The first line must not be the
      word `screensaverLine2`, which the search for the second line's key
      would otherwise find first. */
  predicate Restorable(sv: StoredVar, lim: Limits) {
    && WellShaped(sv)
    && (forall g :: Checked(g) ==> InRange(GlobalValue(sv, lim, g), GlobalLow(g, lim), GlobalHigh(g, lim)))
    && (forall j :: 0 <= j < |sv.carParam| ==> CarCarried(sv.carParam[j], j, lim))
    && TextCarried(sv.screensaverLine1, lim) && TextCarried(sv.screensaverLine2, lim)
    && sv.screensaverLine1 != "screensaverLine2"
  }

  // -------------------------------------------------------------- layout

  /** The regroupings of the document the proofs below use. */
  lemma Regroup7(a: string, b: string, c: string, d: string, e: string, f: string, g: string)
    ensures a + b + c + d + e + f + g == a + b + (c + d + e + f + g)
    ensures a + b + c + d + e + f + g == (a + b) + c + (d + e + f + g)
    ensures a + b + c + d + e + f + g == (a + b + c) + d + (e + f + g)
    ensures a + b + c + d + e + f + g == (a + b + c + d) + e + (f + g)
  {
  }

  lemma Regroup6(a: string, b: string, c: string, d: string, e: string, f: string)
    ensures a + b + c + d + e + f == a + b + (c + d + e + f)
    ensures a + b + c + d + e + f == (a + b) + c + (d + e + f)
    ensures a + b + c + d + e + f == (a + b + c) + d + (e + f)
  {
  }

  /** The numeric top-level lines. */
  function GlobalLines(sv: StoredVar, lim: Limits): string {
    NumLines(GLOBAL_INDENT, GlobalKeys(), GlobalValues(sv, lim), ",\n")
  }

  /** The two screensaver lines. */
  function TextLine1(sv: StoredVar): string {
    StrLine(GLOBAL_INDENT, "screensaverLine1", CStr(sv.screensaverLine1))
  }

  function TextLine2(sv: StoredVar): string {
    StrLine(GLOBAL_INDENT, "screensaverLine2", CStr(sv.screensaverLine2))
  }

  /** The document is its opening, the numeric lines, the two text lines,
      the opening of the array, the objects and the closing. */
  lemma DocLayout(sv: StoredVar, lim: Limits)
    requires WellShaped(sv)
    ensures Header(sv, lim) == "{\n" + GlobalLines(sv, lim) + TextLine1(sv) + TextLine2(sv) + CARS_OPEN
    ensures BackupJson(sv, lim)
         == "{\n" + GlobalLines(sv, lim) + TextLine1(sv) + TextLine2(sv) + CARS_OPEN
            + CarsArray(sv.carParam, 0) + DOC_CLOSE
  {
  }

  lemma GlobalKeysDistinct()
    ensures Distinct(GlobalKeys())
  {
    GlobalFieldsDistinct();
    forall i, j | 0 <= i < j < |GlobalKeys()| ensures GlobalKeys()[i] != GlobalKeys()[j] {
      GlobalKeyInjective(GLOBAL_FIELDS[i], GLOBAL_FIELDS[j]);
    }
  }

  /** Every stored entry is a 16-bit number, so `%d` and `toInt` carry it. */
  lemma GlobalValueFits(sv: StoredVar, lim: Limits, g: GlobalField)
    requires !g.Version?
    ensures FitsMember(g, GlobalValue(sv, lim, g))
    ensures LONG_MIN <= GlobalValue(sv, lim, g) <= LONG_MAX
  {
  }

  // -------------------------------------------------------------- globals

  /** The `k`-th numeric top-level line reads back as its value. */
  lemma GlobalEntry(json: string, sv: StoredVar, lim: Limits, k: nat, rest: string)
    requires k < |GLOBAL_FIELDS|
    requires json == "{\n" + GlobalLines(sv, lim) + rest
    requires LONG_MIN <= GlobalValues(sv, lim)[k] <= LONG_MAX
    ensures PlainKey(GlobalKeys()[k]) && ParseJsonInt(json, GlobalKeys()[k]) == Some(GlobalValues(sv, lim)[k])
  {
    GlobalKeysAreNames();
    GlobalKeysDistinct();
    IndentsAreSpaces();
    OpeningClean(GlobalKeys()[k]);
    FindInNumLines(json, "{\n", GLOBAL_INDENT, GlobalKeys(), GlobalValues(sv, lim), ",\n", rest, k);
  }

  /** Every stored top-level entry of the document reads back as the
      record's value. */
  lemma GlobalRead(json: string, sv: StoredVar, lim: Limits, g: GlobalField, rest: string)
    requires !g.Version?
    requires json == "{\n" + GlobalLines(sv, lim) + rest
    ensures GlobalInput(json, g) == Some(GlobalValue(sv, lim, g))
  {
    GlobalFieldsComplete(g);
    var k :| 0 <= k < |GLOBAL_FIELDS| && GLOBAL_FIELDS[k] == g;
    GlobalValueFits(sv, lim, g);
    assert GlobalKeys()[k] == GlobalKey(g);
    assert GlobalValues(sv, lim)[k] == GlobalValue(sv, lim, g);
    GlobalEntry(json, sv, lim, k, rest);
  }

  /** The lenient top-level reading of the document restores every stored
      entry of a record whose checked entries are in range. */
  lemma GlobalsRead(json: string, sv: StoredVar, cur: StoredVar, lim: Limits, rest: string)
    requires json == "{\n" + GlobalLines(sv, lim) + rest
    requires forall g :: Checked(g) ==> InRange(GlobalValue(sv, lim, g), GlobalLow(g, lim), GlobalHigh(g, lim))
    ensures forall g: GlobalField :: !g.Version? ==> GlobalValue(ParseGlobals(json, cur, lim), lim, g) == GlobalValue(sv, lim, g)
  {
    forall g: GlobalField | !g.Version?
      ensures GlobalInput(json, g) == Some(GlobalValue(sv, lim, g))
      ensures Accepts(g, GlobalValue(sv, lim, g), lim)
      ensures Stored(g, GlobalValue(sv, lim, g)) == GlobalValue(sv, lim, g)
    {
      GlobalRead(json, sv, lim, g, rest);
      GlobalValueFits(sv, lim, g);
    }
  }

  // ------------------------------------------------------ screensaver lines

  /** A text line after clean text reads back as its text, which fits the
      screensaver buffer. */
  lemma TextAfter(json: string, x: string, key: string, t: string, y: string, lim: Limits)
    requires json == x + StrLine(GLOBAL_INDENT, key, CStr(t)) + y
    requires KeyName(key) && Clean(x, key)
    requires ValidLimits(lim) && TextCarried(t, lim)
    ensures PlainKey(key) && ParseJsonStr(json, key, lim.screensaverTextMax) == Some(t)
  {
    KeyNameIsPlain(key);
    CStrOfPlain(t);
    IndentsAreSpaces();
    FindStr(json, x, GLOBAL_INDENT, key, t, y, lim.screensaverTextMax);
  }

  /** The numeric top-level lines hold no key other than their own. */
  lemma GlobalLinesClean(sv: StoredVar, lim: Limits, key: string)
    requires KeyName(key)
    requires forall g :: GlobalKey(g) != key
    ensures Clean("{\n" + GlobalLines(sv, lim), key)
  {
    GlobalKeysAreNames();
    IndentsAreSpaces();
    OpeningClean(key);
    NumLinesClean(GLOBAL_INDENT, GlobalKeys(), GlobalValues(sv, lim), ",\n", key);
    CleanConcat("{\n", GlobalLines(sv, lim), key);
  }

  lemma Line1Read(json: string, sv: StoredVar, cur: StoredVar, lim: Limits, rest: string)
    requires ValidLimits(lim) && TextCarried(sv.screensaverLine1, lim)
    requires json == ("{\n" + GlobalLines(sv, lim)) + TextLine1(sv) + rest
    ensures Line1(json, cur.screensaverLine1, lim) == sv.screensaverLine1
  {
    TextKeysAreNames();
    forall g ensures GlobalKey(g) != "screensaverLine1" { GlobalKeyIsName(g); }
    GlobalLinesClean(sv, lim, "screensaverLine1");
    TextAfter(json, "{\n" + GlobalLines(sv, lim), "screensaverLine1", sv.screensaverLine1, rest, lim);
  }

  lemma Line2Read(json: string, sv: StoredVar, cur: StoredVar, lim: Limits, rest: string)
    requires ValidLimits(lim)
    requires TextCarried(sv.screensaverLine1, lim) && TextCarried(sv.screensaverLine2, lim)
    requires sv.screensaverLine1 != "screensaverLine2"
    requires json == ("{\n" + GlobalLines(sv, lim) + TextLine1(sv)) + TextLine2(sv) + rest
    ensures Line2(json, cur.screensaverLine2, lim) == sv.screensaverLine2
  {
    var key := "screensaverLine2";
    TextKeysAreNames();
    forall g ensures GlobalKey(g) != key { GlobalKeyIsName(g); }
    GlobalLinesClean(sv, lim, key);
    CStrOfPlain(sv.screensaverLine1);
    IndentsAreSpaces();
    StrLineClean(GLOBAL_INDENT, "screensaverLine1", sv.screensaverLine1, key);
    CleanConcat("{\n" + GlobalLines(sv, lim), TextLine1(sv), key);
    TextAfter(json, "{\n" + GlobalLines(sv, lim) + TextLine1(sv), key, sv.screensaverLine2, rest, lim);
  }

  // ----------------------------------------------------------- cars array

  /** Nothing before the opening of the array mentions `"cars"`. */
  lemma BeforeCarsClean(sv: StoredVar, lim: Limits)
    requires TextCarried(sv.screensaverLine1, lim) && TextCarried(sv.screensaverLine2, lim)
    ensures Clean("{\n" + GlobalLines(sv, lim) + TextLine1(sv) + TextLine2(sv), "cars")
  {
    var key := "cars";
    TextKeysAreNames();
    forall g ensures GlobalKey(g) != key { GlobalKeyIsName(g); }
    GlobalLinesClean(sv, lim, key);
    CStrOfPlain(sv.screensaverLine1);
    CStrOfPlain(sv.screensaverLine2);
    IndentsAreSpaces();
    StrLineClean(GLOBAL_INDENT, "screensaverLine1", sv.screensaverLine1, key);
    StrLineClean(GLOBAL_INDENT, "screensaverLine2", sv.screensaverLine2, key);
    CleanConcat("{\n" + GlobalLines(sv, lim), TextLine1(sv), key);
    CleanConcat("{\n" + GlobalLines(sv, lim) + TextLine1(sv), TextLine2(sv), key);
  }

  /** Where the pieces of the opening of the array sit. */
  lemma CarsOpenLayout()
    ensures |CARS_OPEN| == 12
    ensures CARS_OPEN[..2] == GLOBAL_INDENT && CARS_OPEN[2..8] == Quoted("cars")
    ensures CARS_OPEN[10] == '['
    ensures '[' !in CARS_OPEN[2..10] && '\0' !in CARS_OPEN
    ensures '{' !in CARS_OPEN[10..]
  {
  }

  /** The search for the array finds the `[` of the opening line. */
  lemma CarsStartRead(json: string, x: string, y: string)
    requires json == x + CARS_OPEN + y
    requires Clean(x, "cars")
    ensures CarsArrayStart(json) == Ok(|x| + 10)
  {
    TextKeysAreNames();
    IndentsAreSpaces();
    CarsOpenLayout();
    KeyFirstAtLine(json, x, CARS_OPEN, y, GLOBAL_INDENT, "cars");
    QuotedKeyFirstAt(json, "cars", |x| + 2);
    assert CarsKeyAt(json) == |x| + 2;
    Within(x, CARS_OPEN, y, 2, 10);
    assert json[|x| + 10] == CARS_OPEN[10];
    IndexOfCharIs(json, '[', |x| + 2, |x| + 10);
  }

  /** The end of the opening line, where the object scan starts, holds
      no brace and no NUL. */
  lemma ArrayOpenTail(json: string, x: string, y: string)
    requires json == x + CARS_OPEN + y
    ensures |x| + 12 <= |json|
    ensures '{' !in json[|x| + 10..|x| + 12] && '\0' !in json[|x| + 10..|x| + 12]
  {
    CarsOpenLayout();
    Within(x, CARS_OPEN, y, 10, 12);
  }

  /** The array is read from its `[`: every written object comes back. */
  lemma CarsRead(json: string, p: string, x: string, sv: StoredVar, cur: StoredVar, lim: Limits, searchPos: nat)
    requires ValidLimits(lim) && WellShaped(cur) && Restorable(sv, lim)
    requires json == p + CarsArray(sv.carParam, 0) + DOC_CLOSE
    requires |p| == |x| + 12 && searchPos == |x| + 10
    requires '{' !in json[|x| + 10..|x| + 12] && '\0' !in json[|x| + 10..|x| + 12]
    ensures ParseCars(json, searchPos, 0, cur.carParam, lim) == Ok(sv.carParam)
  {
    CarsRoundTrip(json, p, sv.carParam, DOC_CLOSE, searchPos, cur.carParam, lim);
  }

  // ------------------------------------------------------------ document

  /** The validator's result is assembled from its parts: the lenient
      entries, the two lines and the array. */
  lemma Assemble(json: string, sv: StoredVar, cur: StoredVar, lim: Limits, searchPos: nat)
    requires ValidLimits(lim) && WellShaped(cur)
    requires forall g: GlobalField :: !g.Version? ==>
               GlobalValue(ParseGlobals(json, cur, lim), lim, g) == GlobalValue(sv, lim, g)
    requires Line1(json, cur.screensaverLine1, lim) == sv.screensaverLine1
    requires Line2(json, cur.screensaverLine2, lim) == sv.screensaverLine2
    requires CarsArrayStart(json) == Ok(searchPos)
    requires searchPos <= |json|
    requires ParseCars(json, searchPos, 0, cur.carParam, lim) == Ok(sv.carParam)
    ensures ParseAndValidate(json, cur, lim) == Ok(sv)
  {
    ParseAndValidateEntries(json, cur, lim);
    StoredVarExt(ParseAndValidate(json, cur, lim).value, sv, lim);
  }

  /** The top-level entries and the screensaver lines of a document split
      at the opening of its array read back as the record's. */
  lemma HeaderRead(json: string, sv: StoredVar, cur: StoredVar, lim: Limits, x: string, y: string)
    requires ValidLimits(lim) && Restorable(sv, lim)
    requires json == x + CARS_OPEN + y
    requires x == "{\n" + GlobalLines(sv, lim) + TextLine1(sv) + TextLine2(sv)
    ensures forall g: GlobalField :: !g.Version? ==>
              GlobalValue(ParseGlobals(json, cur, lim), lim, g) == GlobalValue(sv, lim, g)
    ensures Line1(json, cur.screensaverLine1, lim) == sv.screensaverLine1
    ensures Line2(json, cur.screensaverLine2, lim) == sv.screensaverLine2
  {
    var a, b, c, d := "{\n", GlobalLines(sv, lim), TextLine1(sv), TextLine2(sv);
    Regroup6(a, b, c, d, CARS_OPEN, y);
    GlobalsRead(json, sv, cur, lim, c + d + CARS_OPEN + y);
    Line1Read(json, sv, cur, lim, d + CARS_OPEN + y);
    Line2Read(json, sv, cur, lim, CARS_OPEN + y);
  }

  /** The array of a document split at the opening of its array is found
      at the `[` of that line and reads back as the record's cars. */
  lemma ArrayRead(json: string, sv: StoredVar, cur: StoredVar, lim: Limits, x: string, y: string, pos: nat)
    requires ValidLimits(lim) && WellShaped(cur) && Restorable(sv, lim)
    requires json == x + CARS_OPEN + y
    requires x == "{\n" + GlobalLines(sv, lim) + TextLine1(sv) + TextLine2(sv)
    requires y == CarsArray(sv.carParam, 0) + DOC_CLOSE
    requires pos == |x| + 10
    ensures CarsArrayStart(json) == Ok(pos)
    ensures ParseCars(json, pos, 0, cur.carParam, lim) == Ok(sv.carParam)
  {
    BeforeCarsClean(sv, lim);
    CarsStartRead(json, x, y);
    ArrayOpenTail(json, x, y);
    CarsOpenLayout();
    assert json == (x + CARS_OPEN) + CarsArray(sv.carParam, 0) + DOC_CLOSE by {
      Assoc(x + CARS_OPEN, CarsArray(sv.carParam, 0), DOC_CLOSE);
    }
    CarsRead(json, x + CARS_OPEN, x, sv, cur, lim, pos);
  }

  /** A document split at the opening of its array, with the record's
      lines before and its objects after, reads back piece by piece. */
  lemma DocParts(json: string, sv: StoredVar, cur: StoredVar, lim: Limits, x: string, y: string, pos: nat)
    requires ValidLimits(lim) && WellShaped(cur) && Restorable(sv, lim)
    requires json == x + CARS_OPEN + y
    requires x == "{\n" + GlobalLines(sv, lim) + TextLine1(sv) + TextLine2(sv)
    requires y == CarsArray(sv.carParam, 0) + DOC_CLOSE
    requires pos == |x| + 10
    ensures forall g: GlobalField :: !g.Version? ==>
              GlobalValue(ParseGlobals(json, cur, lim), lim, g) == GlobalValue(sv, lim, g)
    ensures Line1(json, cur.screensaverLine1, lim) == sv.screensaverLine1
    ensures Line2(json, cur.screensaverLine2, lim) == sv.screensaverLine2
    ensures pos <= |json|
    ensures CarsArrayStart(json) == Ok(pos)
    ensures ParseCars(json, pos, 0, cur.carParam, lim) == Ok(sv.carParam)
  {
    HeaderRead(json, sv, cur, lim, x, y);
    ArrayRead(json, sv, cur, lim, x, y, pos);
  }

  /** `parseAndValidateJson` restores the backup `buildJsonBackup` wrote of
      a restorable record exactly, whatever the current settings. */
  lemma BackupRoundTrip(sv: StoredVar, cur: StoredVar, lim: Limits)
    requires ValidLimits(lim) && WellShaped(cur)
    requires Restorable(sv, lim)
    ensures ParseAndValidate(BackupJson(sv, lim), cur, lim) == Ok(sv)
  {
    var x := "{\n" + GlobalLines(sv, lim) + TextLine1(sv) + TextLine2(sv);
    var y := CarsArray(sv.carParam, 0) + DOC_CLOSE;
    assert BackupJson(sv, lim) == x + CARS_OPEN + y by {
      DocLayout(sv, lim);
      Regroup7("{\n", GlobalLines(sv, lim), TextLine1(sv), TextLine2(sv), CARS_OPEN,
               CarsArray(sv.carParam, 0), DOC_CLOSE);
    }
    var pos := |x| + 10;
    DocParts(BackupJson(sv, lim), sv, cur, lim, x, y, pos);
    Assemble(BackupJson(sv, lim), sv, cur, lim, pos);
  }

  /** Uploading a downloaded backup of a restorable record through
      `handleRestore` installs that record, saves it and answers 200. */
  lemma RestoreOfBackup(sv: StoredVar, stored: StoredVar, lim: Limits)
    requires ValidLimits(lim) && WellShaped(stored)
    requires Restorable(sv, lim)
    ensures HandleRestore(BackupJson(sv, lim), stored, lim)
         == RestoreOutcome(sv, Reply(200, RESTORED_MESSAGE), true, [])
  {
    BackupRoundTrip(sv, stored, lim);
    assert |BackupJson(sv, lim)| > 0 by {
      DocLayout(sv, lim);
    }
  }
}
