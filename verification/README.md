# ESPEED32 settings backup and hardware conversions, in Dafny

This project models three parts of the ESPEED32 slot-car controller firmware. The models are pure Dafny functions and lemmas.

* **The Wi-Fi settings backup** (`source/ESPEED32/wifi_backup.cpp`).
  * `buildJsonBackup` renders the non-volatile settings record as a JSON-like text.
  * `parseJsonInt` and `parseJsonStr` are the hand-rolled key scanners that read the text back. They are not a JSON parser. Each finds the first `"key"` anywhere in the text and reads what follows the next colon. Arduino `String::indexOf` is modelled as `strchr`/`strstr`, so a search stops at an embedded NUL. `toInt` is `strtol`, saturating at the 32-bit `long` range.
  * `inRange` is the range test.
  * `parseAndValidateJson` starts from the current settings.
    * It is lenient for the top-level entries: a missing or unacceptable entry keeps its current value, and the version is read and ignored.
    * It is all-or-nothing for the `CAR_MAX_COUNT` car objects: the first missing object, missing name, or missing or out-of-range field rejects the upload. The rejection message names the field and the car.
  * `handleRestore` commits a validated record or replies with the rejection. It clears the upload buffer in every case.
* **The settings record** (`source/ESPEED32_V3_0/slot_ESC.h`): car profiles, the stored record, defaults, validator limits and the rename alphabet.
* **The integer hardware conversions** of the two `HAL.cpp` files:
  * ADC count to millivolts, through the supply divider;
  * ADC count to motor milliamps;
  * the 12-bit (TLE493D-W2B6) and 14-bit (TLE493D-P3B6) two's-complement sensor fields;
  * the 3:1 moving-average filter and the sign fold used before the angle is taken;
  * the PWM channel-to-pin dispatch.

C integer behaviour is written out explicitly:
* `uint16_t` and `uint32_t` assignment reduce modulo 2^16 and 2^32 (`Settings.ToU16`, `Hal.ToU32`).
* `(int16_t)` is a two's-complement wrap (`Settings.ToI16`).
* `/` truncates toward zero (`Hal.CDiv`).
* `>>` on a negative `int16_t` is an arithmetic shift, i.e. floor division by 4.
* A Dafny `char` stands for one byte (0 to 255) of a C string or Arduino `String`. Every length in the model counts bytes: the 16-byte name buffer, the five-byte name array, `SCREENSAVER_TEXT_MAX` and the `maxLen - 1` cut of `parseJsonStr`.

Module layout:
* `Wrappers`: `Option` and `Result`.
* `CText`: C-string and Arduino `String` helpers.
* `JsonScan`: the key scanners and `inRange`.
* `Settings` and `Fields`: the record and its per-field access.
* `Backup`: the writer.
* `Restore`: the validator and the handler.
* `JsonFind`, `RoundTrip` and `DocRoundTrip`: proofs that the writer's output reads back.
* `Hal` and `HalV206`: the hardware conversions.

The main results:
* `DocRoundTrip.BackupRoundTrip` shows that validating the text `buildJsonBackup` writes gives back exactly the written record, whatever the current settings are. This holds for every restorable record: in range, with rename-alphabet names, no `"` or NUL in any text, and screensaver lines that cannot be mistaken for keys (see `DocRoundTrip.BackupRoundTrip` under "## Left out"). Some records outside this set are accepted by the validator but do not come back, for example a first screensaver line `cars` with a second line `[{}`.
* `RoundTrip.QuoteCutsName` shows what happens otherwise. The rename alphabet contains `"`, and a name holding one is cut at the quote on restore.
* The name copy of the restore can leave the five-byte name array without a terminator (see "## Findings"). The model keeps the copy as written beside a corrected one (`Restore.ParseCarAsWritten` reads a car with the copy as written). The validator uses the corrected copy.

## Model

| member | source | states |
|---|---|---|
| CText.IndexOfChar | source/ESPEED32/wifi_backup.cpp:173-177 | `indexOf(c, from)` is -1 or the least index at or after `from` holding `c`. No NUL lies between `from` and that index. When the result is -1, `c` is absent from the C string starting at `from`. |
| CText.IndexOfCharIs | source/ESPEED32/wifi_backup.cpp:246 | Conversely, if `k` holds the first `c` after `from` and no NUL precedes it, the search returns exactly `k`. |
| CText.IndexOfStr | source/ESPEED32/wifi_backup.cpp:151-153 | `indexOf(needle, from)` is -1 or the first index at or after `from` where the needle occurs, with no earlier occurrence. The result -1 means no occurrence starts inside the C string. |
| CText.IndexOfStrIs | source/ESPEED32/wifi_backup.cpp:243 | Conversely, the first occurrence after `from`, with no NUL before it, is the index the search returns. |
| CText.Dec | source/ESPEED32/wifi_backup.cpp:109 | `%u` writes a non-empty run of digits without a leading zero, and its decimal value is the number printed. |
| CText.SDec | source/ESPEED32/wifi_backup.cpp:110-111 | `%d` writes a minus sign exactly for negative values, followed by the digits of the magnitude. |
| CText.Saturate | source/ESPEED32/wifi_backup.cpp:161 | `strtol` clamps an out-of-range value to the nearest 32-bit `long` and leaves in-range values unchanged. |
| CText.ToInt | source/ESPEED32/wifi_backup.cpp:161 | `toInt` (`atol`) always yields a 32-bit `long`. It skips leading white space and takes an optional `+` or `-`. Text with no digit after that reads as 0: empty text, text starting with any other character, and a sign not followed by a digit (`"-"` included). |
| CText.ToIntSkipsSpace | source/ESPEED32/wifi_backup.cpp:161 | A leading white-space character never changes what `toInt` reads. |
| CText.ToIntSDec | source/ESPEED32/wifi_backup.cpp:108-111 | `toInt` reads back every 32-bit value that `%d` wrote. |
| CText.ToIntDec | source/ESPEED32/wifi_backup.cpp:109 | `toInt` reads back every value up to `LONG_MAX` that `%u` wrote. |
| CText.ToIntPlus | source/ESPEED32/wifi_backup.cpp:161 | `toInt` reads `+` followed by the digits of a `long` as that number. |
| CText.Take | source/ESPEED32/wifi_backup.cpp:179-181 | Copying into a buffer of `size` characters keeps the whole text when it fits, and otherwise exactly its first `size` characters. |
| CText.CStr | source/ESPEED32/wifi_backup.cpp:121-122 | `%s` of a character array prints the characters before its first NUL, or all of them when it holds none. |
| JsonScan.SkipBlanks | source/ESPEED32/wifi_backup.cpp:157 | The skip passes only spaces, CR and LF, and stops at the first other character or at the end. |
| JsonScan.NumberRunEnd | source/ESPEED32/wifi_backup.cpp:159 | The run collects only digits and minus signs, and is maximal. |
| JsonScan.KeyColon | source/ESPEED32/wifi_backup.cpp:151-155 | The first step of both scanners yields -1 or the index of a colon. |
| JsonScan.ParseJsonInt | source/ESPEED32/wifi_backup.cpp:150-163 | `parseJsonInt` fails when the quoted key is absent or has no colon after it. Any value it reads is a 32-bit `long`. |
| JsonScan.ParseJsonIntSpec | source/ESPEED32/wifi_backup.cpp:150-163 | `parseJsonInt` succeeds exactly when the key, a colon after it, and a non-empty maximal run of digits and `-` after blanks all exist. The value is then `toInt` of that run. A failure is `None`, so no value is written. |
| JsonScan.ParseJsonStr | source/ESPEED32/wifi_backup.cpp:169-183 | `parseJsonStr` fails without a key or colon. A text it reads fits the buffer with its terminator and holds no quote and no NUL. |
| JsonScan.ParseJsonStrSpec | source/ESPEED32/wifi_backup.cpp:169-183 | `parseJsonStr` succeeds exactly when the key, its colon and two quotes after the colon exist. The text is what lies between the first two quotes, cut to `maxLen - 1` characters. |
| JsonScan.InRange | source/ESPEED32/wifi_backup.cpp:189-191 | `inRange` accepts exactly the closed interval from `lo` to `hi`. |
| Settings.ToU16 | source/ESPEED32/wifi_backup.cpp:211 | Storing a number in a `uint16_t` member keeps values that fit and otherwise reduces modulo 2^16. |
| Settings.ToI16 | source/ESPEED32/wifi_backup.cpp:212-215 | `(int16_t)v` keeps values that fit and otherwise wraps modulo 2^16 into the signed range. |
| Settings.DefaultCar | source/ESPEED32_V3_0/slot_ESC.h:37-45 | A profile built from the default constants passes every limit the restore validator checks, has `minSpeed < maxSpeed`, and has its curve vertex in `[0, THROTTLE_NORMALIZED]`. |
| Settings.DefaultsWithinLimits | source/ESPEED32_V3_0/slot_ESC.h:30-79 | Every default constant lies within the limits declared beside it: speed, brake, drag, anti-spin, curve, PWM frequency, race view, screensaver timeout and sound mode. |
| Settings.NameCharIsNotDelimiter | source/ESPEED32_V3_0/slot_ESC.h:83-95 | A character of the rename alphabet (ASCII 32 to 122) is never `{`, `}` or NUL. |
| Fields.SetCar | source/ESPEED32/wifi_backup.cpp:272-315 | Storing one numeric car field changes that field only. |
| Fields.CarInLimitsByField | source/ESPEED32/wifi_backup.cpp:272-315 | A profile passes the car checks exactly when each numeric field lies in its own `[low, high]` range. |
| Fields.CarRangeFitsU16 | source/ESPEED32/wifi_backup.cpp:272-315 | Every accepted car value fits the `uint16_t` member it is stored in. |
| Fields.CarExt | source/ESPEED32_V3_0/slot_ESC.h:144-155 | Two profiles with the same name, slot number and numeric fields are the same profile. |
| Fields.CarKeyInjective | source/ESPEED32/wifi_backup.cpp:128-137 | Different car fields are written under different keys. |
| Fields.SetGlobal | source/ESPEED32/wifi_backup.cpp:210-233 | Assigning one top-level member changes that member only. The cars and screensaver lines are untouched. |
| Fields.StoredVarExt | source/ESPEED32/wifi_backup.cpp:108-122 | Two records with the same cars, the same screensaver lines and the same top-level members are equal. |
| Fields.GlobalKeyInjective | source/ESPEED32/wifi_backup.cpp:108-120 | Different top-level entries are written under different keys. |
| Backup.CarsUpToThenRest | source/ESPEED32/wifi_backup.cpp:125-141 | After `n` rounds of the car loop, the rounds still to come append exactly the remaining objects. |
| Backup.AppendCars | source/ESPEED32/wifi_backup.cpp:125-141 | The loop appends one object per slot, in slot order, each followed by `,` except the last. |
| Backup.BuildJsonBackup | source/ESPEED32/wifi_backup.cpp:102-144 | The text built is the document of `CAR_MAX_COUNT` objects that the restore proofs read, and it holds no NUL, so no search stops early. |
| Backup.BackupJsonHasNoNul | source/ESPEED32/wifi_backup.cpp:102-144 | The whole document is a single C string. |
| Restore.Stored | source/ESPEED32/wifi_backup.cpp:210-233 | A stored top-level value always fits its member: the trigger calibration as `int16_t`, the rest as `uint16_t`. |
| Restore.ParseGlobalsFrom | source/ESPEED32/wifi_backup.cpp:210-233 | Applying the entries from the `k`-th on replaces each such entry exactly when its key parses and the validator accepts the number. Earlier entries, the cars and the lines are untouched. |
| Restore.ParseGlobals | source/ESPEED32/wifi_backup.cpp:202-233 | Starting from the current settings, an absent entry keeps its value, a rejected number keeps its value, and an accepted number is stored (trigger calibration unchecked as `int16_t`). The version is never stored. Cars and screensaver lines are untouched. |
| Restore.ParseText | source/ESPEED32/wifi_backup.cpp:236-240 | A screensaver line becomes the text `parseJsonStr` reads, shorter than `SCREENSAVER_TEXT_MAX`, or keeps its current value when the entry is absent. |
| Restore.FirstBadField | source/ESPEED32/wifi_backup.cpp:272-315 | Finds the first field, in the validator's order, that is missing or out of range. Every field before it is acceptable. |
| Restore.ParseCarFields | source/ESPEED32/wifi_backup.cpp:272-315 | The numeric fields of a car are read in order. The read succeeds exactly when no field is bad, and otherwise fails naming the first bad field and the car. |
| Restore.ParseCarFieldsValues | source/ESPEED32/wifi_backup.cpp:272-315 | After a successful read, every field read holds its parsed number and every other field is unchanged. |
| Restore.ParseCarFieldsRenamed | source/ESPEED32/wifi_backup.cpp:272-315 | The numeric fields never touch the name: reading them into a renamed car gives the same rejection, or the same car with the new name. |
| Restore.ParseAllCarFields | source/ESPEED32/wifi_backup.cpp:272-315 | Over all nine fields, the read succeeds exactly when every field is present and in range, and then every field holds its parsed number. |
| Restore.CopiedNameAsWritten | source/ESPEED32/wifi_backup.cpp:263-268 | As written, the copy into the name array keeps a name that fits. A name of `CAR_NAME_MAX_SIZE` or more characters fills all five bytes, leaving none for the terminator. |
| Restore.CopiedName | source/ESPEED32/wifi_backup.cpp:263-268 | The corrected copy always leaves room for the terminator. It keeps every name that fits and otherwise keeps the first four characters. |
| Restore.CopiedNameDiffers | source/ESPEED32/wifi_backup.cpp:267-268 | The corrected and the as-written copy agree exactly on the names that fit the array. |
| Restore.ParseCar | source/ESPEED32/wifi_backup.cpp:257-315 | A car that reads successfully has slot number `i` and passes every range check. A rejection names car `i`. The name is copied by the corrected copy, so it fits the array with its terminator. |
| Restore.ParseCarSpec | source/ESPEED32/wifi_backup.cpp:262-315 | A missing name is reported before anything else. Otherwise the car is accepted exactly when every numeric field is acceptable, and a failure names a field that is not. An accepted car holds the slot number, every parsed number and the corrected copy of the name. |
| Restore.ParseCarAsWritten | source/ESPEED32/wifi_backup.cpp:257-315 | The car read with the name copied by `strncpy(..., CAR_NAME_MAX_SIZE)` as written: an accepted car holds the slot number, passes every range check and holds the uploaded name cut to five characters. A rejection names car `i`. |
| Restore.ParseCarAsWrittenDiffers | source/ESPEED32/wifi_backup.cpp:262-268 | The read as written and the corrected read accept the same car objects and give the same rejections. An accepted car differs only in its name, and the two names are equal exactly when the uploaded name fits the array. |
| Restore.NextObject | source/ESPEED32/wifi_backup.cpp:251-253 | The next car object lies between the first `{` at or after the search position and the first `}` after it. |
| Restore.NextCar | source/ESPEED32/wifi_backup.cpp:249-258 | One round reads only the text from the next `{` to the `}` after it, and the next round resumes past that `}`. A missing object is reported as the missing profile `i`. |
| Restore.ParseCars | source/ESPEED32/wifi_backup.cpp:249-316 | A successful read yields one restored profile per remaining slot, numbered in order, each read by `Restore.ParseCar` with the corrected name copy. A failure names a car in the remaining range. |
| Restore.CarsKeyAt | source/ESPEED32/wifi_backup.cpp:243 | The `"cars"` search yields -1 or an index inside the text. |
| Restore.CarsArrayStart | source/ESPEED32/wifi_backup.cpp:243-247 | The error is "missing cars array" exactly when `"cars"` is absent, and "malformed cars array" exactly when no `[` follows it. Otherwise the search starts at that `[`. |
| Restore.ParseAndValidate | source/ESPEED32/wifi_backup.cpp:198-319 | The validator reports the two array errors exactly in their cases, and every other failure is a car rejection. Success yields a whole record of `CAR_MAX_COUNT` restored profiles numbered by slot, whose names come from the corrected copy. |
| Restore.ParseAndValidateEntries | source/ESPEED32/wifi_backup.cpp:209-240 | In an accepted upload the top-level entries are those of the lenient reading, and the screensaver lines are those `parseJsonStr` read (or the current lines when absent). |
| Restore.HandleRestore | source/ESPEED32/wifi_backup.cpp:353-373 | The settings are saved, with status 200, exactly when the upload is non-empty and validates. Otherwise the settings are unchanged and the reply is 400 with "no file uploaded" or the rejection's message. The buffer is cleared in every case. |
| JsonFind.FindNum | source/ESPEED32/wifi_backup.cpp:150-163 | A written numeric line, after text that cannot contain its key, reads back as its value. |
| JsonFind.FindStr | source/ESPEED32/wifi_backup.cpp:169-183 | A written text line without quotes, after text that cannot contain its key, reads back as its text cut to the buffer. |
| JsonFind.FindStrCut | source/ESPEED32/wifi_backup.cpp:175-181 | A written text line holding a quote reads back only as the part before the quote. |
| RoundTrip.NameOfCarBody | source/ESPEED32/wifi_backup.cpp:128 | The `name` line of a written car object reads back as the name, when the name has no quote. |
| RoundTrip.FieldOfCarBody | source/ESPEED32/wifi_backup.cpp:129-137 | Every numeric line of a written car object reads back as the field's value. |
| RoundTrip.QuoteCutsName | source/ESPEED32/wifi_backup.cpp:264-268 | A name from the rename alphabet that holds `"` is written unescaped and reads back as the part before the quote, so the restored name differs from the saved one. |
| RoundTrip.LongNameFillsArray | source/ESPEED32/wifi_backup.cpp:262-268 | An uploaded car object named `ABCDE` passes the 16-byte read whole. The as-written copy then leaves the five-byte array without a terminator, and the corrected copy does not. |
| RoundTrip.CarRoundTrip | source/ESPEED32/wifi_backup.cpp:262-315 | A car object written for an in-range profile with a quote-free name is restored as exactly that profile, whatever the slot held before. |
| RoundTrip.CarsRoundTrip | source/ESPEED32/wifi_backup.cpp:249-316 | The written array of `CAR_MAX_COUNT` such profiles, after text free of `{` and NUL, is restored as exactly those profiles. |
| DocRoundTrip.GlobalsRead | source/ESPEED32/wifi_backup.cpp:210-233 | The lenient reading of a written document gives every top-level member its written value. |
| DocRoundTrip.Line1Read | source/ESPEED32/wifi_backup.cpp:236-238 | The first screensaver line of a written document reads back as written. |
| DocRoundTrip.Line2Read | source/ESPEED32/wifi_backup.cpp:239-240 | The second screensaver line of a written document reads back as written. |
| DocRoundTrip.CarsStartRead | source/ESPEED32/wifi_backup.cpp:243-247 | In a written document the car search starts at the `[` of the `"cars"` line. |
| DocRoundTrip.BackupRoundTrip | source/ESPEED32/wifi_backup.cpp:102-319 | Validating a written document gives back exactly the record that was written, whatever the current settings. This needs a restorable record: in-range values, names from the rename alphabet, no `"` or NUL in any text, and screensaver lines other than the words `cars` and `screensaverLine2`. |
| DocRoundTrip.RestoreOfBackup | source/ESPEED32/wifi_backup.cpp:353-373 | Uploading the backup of a restorable record commits exactly that record, replies 200 with the restart message and clears the buffer. |
| Hal.ToU32 | source/ESPEED32/HAL.cpp:71 | `(uint32_t)value` keeps values that fit and otherwise reduces modulo 2^32. |
| Hal.CDiv | source/ESPEED32/HAL.cpp:117 | C division by a positive number truncates toward zero: it rounds down for a non-negative dividend and up for a negative one. |
| Hal.RangeIs3574 | source/ESPEED32_V2_06/HAL.h:33-35 | The calibrated ADC range `(3300 * 1200) / 1108` is 3574 mV. |
| Hal.PinMillivolts | source/ESPEED32/HAL.cpp:154 | Within the 12-bit ADC range, the pin voltage never exceeds the calibrated range. |
| Hal.PinMillivoltsFloor | source/ESPEED32/HAL.cpp:154 | Within the ADC range, the pin voltage is the exact scaled value rounded down, because no `uint32_t` step wraps. |
| Hal.PinMillivoltsMonotone | source/ESPEED32/HAL.cpp:154 | A larger count never reads as fewer millivolts. |
| Hal.ReadVoltageDivider | source/ESPEED32/HAL.cpp:150-160 | `HAL_ReadVoltageDivider` computes in `uint32_t` and returns `uint16_t`. When no step wraps, the reading is the pin voltage times `(rvfbl + rvfbh) / rvfbl` rounded down, and never below the pin voltage. |
| Hal.BoardDivider | source/ESPEED32/HAL.cpp:150-160 | With the board's 2200 and 10000 ohm resistors, every 12-bit count reads exactly, at least the pin voltage and at most 19819 mV. The reading never decreases as the count grows. |
| Hal.MotorCurrentInRange | source/ESPEED32/HAL.cpp:170-181 | The current is `pin_mV * 7.752` rounded down, at most 27705 mA, 0 for a zero count, and non-decreasing in the count. |
| Hal.ReadMotorCurrent | source/ESPEED32/HAL.cpp:170-181 | `HAL_ReadMotorCurrent`: within the 12-bit ADC range the reading is at most 27705 mA and is `pin_mV * 7752 / 1000` rounded down, so neither the `uint32_t` product nor the `uint16_t` return truncates. |
| Hal.MotorCurrentExact | source/ESPEED32/HAL.cpp:170-181 | Within the ADC range the `uint16_t` return never truncates the computed current. |
| Hal.Signed12 | source/ESPEED32/HAL.cpp:110 | The `x -= 4096` correction yields a value in [-2048, 2047] that agrees with the raw word modulo 4096. |
| Hal.W2B6X | source/ESPEED32/HAL.cpp:109-110 | The decoded X field lies in [-2048, 2047]. |
| Hal.W2B6Y | source/ESPEED32/HAL.cpp:112-113 | The decoded Y field lies in [-2048, 2047]. |
| Hal.HighWordBits | source/ESPEED32/HAL.cpp:109 | The C expression `(data[0] << 4) \| (data[4] >> 4)` is `data[0] * 16 + data[4] / 16`. |
| Hal.LowWordBits | source/ESPEED32/HAL.cpp:112 | The C expression `(data[1] << 4) \| (data[4] & 0x0F)` is `data[1] * 16 + data[4] % 16`. |
| Hal.W2B6Fields | source/ESPEED32/HAL.cpp:109-113 | X and Y are the 12-bit two's-complement values of their byte and nibble, and reducing them modulo 4096 gives those bits back. The W2B6 decode of source/ESPEED32_V2_06/HAL.cpp:139-143 is identical. |
| Hal.Smooth | source/ESPEED32/HAL.cpp:117 | One filter step lands between the old average and the sample, so it never overshoots. |
| Hal.SmoothSteady | source/ESPEED32/HAL.cpp:117 | A steady sample is a fixed point of the filter. |
| Hal.SmoothAllBounded | source/ESPEED32/HAL.cpp:116-118 | Starting from the static zero and fed samples in a range containing zero, the average stays in that range. |
| Hal.W2B6Step | source/ESPEED32/HAL.cpp:109-118 | One trigger read keeps both averages in [-2048, 2047]. The same step is at source/ESPEED32_V2_06/HAL.cpp:139-147. |
| Hal.RunW2B6 | source/ESPEED32/HAL.cpp:100-118 | Over any run of reads, both averages stay in [-2048, 2047] (no `int16_t` overflow). The X average is the filter applied to the decoded X samples. |
| Hal.AnalogWrite | source/ESPEED32/HAL.cpp:68-81 | A write happens exactly for the two motor channels. Channel 0 drives the IN pin and channel 1 the INH pin, with the value cast to `uint32_t`. Any other channel writes nothing. The dispatch of source/ESPEED32_V2_06/HAL.cpp:86-98 is identical. |
| Hal.AnalogWriteSeparates | source/ESPEED32/HAL.cpp:68-81 | The two channels drive the same pin only if they are the same channel, and an 8-bit duty value reaches the pin unchanged. |
| HalV206.Signed14 | source/ESPEED32_V2_06/HAL.cpp:124 | 14-bit sign extension yields a value in [-8192, 8191] that agrees with its bits modulo 16384. |
| HalV206.P3B6Field | source/ESPEED32_V2_06/HAL.cpp:124-125 | A decoded P3B6 field lies in [-8192, 8191]. |
| HalV206.P3B6Word | source/ESPEED32_V2_06/HAL.cpp:124 | The shifted word fits 16 bits. |
| HalV206.P3B6WordBits | source/ESPEED32_V2_06/HAL.cpp:124 | The C expression `(buf[0] << 8) \| ((buf[1] & 0x3F) << 2)` equals `buf[0] * 256 + (buf[1] % 64) * 4`. |
| HalV206.CastShift | source/ESPEED32_V2_06/HAL.cpp:124 | Casting four times a 14-bit value to `int16_t` and shifting right by two sign-extends it from 14 bits. |
| HalV206.P3B6FieldIs | source/ESPEED32_V2_06/HAL.cpp:124-125 | Each field is the 14-bit two's-complement value with the first byte as its top eight bits and the low six bits of the second below them. Reducing the field modulo 16384 gives those bits back. |
| HalV206.P3B6X | source/ESPEED32_V2_06/HAL.cpp:124 | X, from `buf[0]` and `buf[1]`, lies in [-8192, 8191]. |
| HalV206.P3B6Y | source/ESPEED32_V2_06/HAL.cpp:125 | Y, from `buf[2]` and `buf[3]`, lies in [-8192, 8191]. |
| HalV206.XSign | source/ESPEED32_V2_06/HAL.cpp:127 | `xSign` is -1 exactly when X is negative, and 1 otherwise. |
| HalV206.XSignFolds | source/ESPEED32_V2_06/HAL.cpp:127-128 | The folded `Y * xSign` is non-negative exactly when Y is zero or lies on the same side of zero as X. A 14-bit Y stays within [-8192, 8192] after folding. |
| HalV206.ReadP3B6 | source/ESPEED32_V2_06/HAL.cpp:115-128 | One P3B6 read yields two fields in [-8192, 8191] and the folded Y that the angle is taken from. |
| HalV206.SupplyReading | source/ESPEED32_V2_06/HAL.cpp:177-190 | This file's divider reads the supply exactly, at least the pin voltage, at most 19819 mV, and non-decreasing in the count. |

## Findings

| source | as written | input that shows it | evidently intended | confidence | as-written member | corrected member |
|---|---|---|---|---|---|---|
| source/ESPEED32/wifi_backup.cpp:267-268 | `strncpy(c.carName, tempName, CAR_NAME_MAX_SIZE)` copies up to five characters into the five-byte `carName` array. | A car object with `"name": "ABCDE"`: the name passes the 16-byte read whole and fills all five bytes, so `carName` is not NUL-terminated. A later `%s` of it (the backup, line 128) reads past the array. | Copy at most `CAR_NAME_MAX_SIZE - 1` characters, as the header's "4 chars + null" (source/ESPEED32_V3_0/slot_ESC.h:83) declares. | medium, not executed | Restore.CopiedNameAsWritten, Restore.ParseCarAsWritten, RoundTrip.LongNameFillsArray | Restore.CopiedName (used by Restore.ParseCar), Restore.ParseCarAsWrittenDiffers |

## Left out

- The web page, the WebServer routes, upload chunking (`handleRestoreUpload`), OTA, the access-point setup, the OLED drawing and the button loop: I/O and foreign libraries. `handleRestore` receives the accumulated upload as a parameter.
- `saveEEPROM`, `delay` and `ESP.restart`: hardware I/O. They appear only as the `saved` flag of `Restore.RestoreOutcome`.
- `g_storedVar` as a shared global: settings are values passed in and returned. Cross-core concurrency is not modelled.
- `String::reserve` and heap exhaustion in Arduino `String` concatenation: allocation is not modelled.
- The 128-byte `sprintf` buffer of `buildJsonBackup`: every line is assumed to fit. The screensaver lines are bounded by `SCREENSAVER_TEXT_MAX`, whose value is a parameter.
- `source/ESPEED32/slot_ESC.h` and `source/ESPEED32/HAL.h` are not part of this model. The record follows `source/ESPEED32_V3_0/slot_ESC.h`, plus the members `wifi_backup.cpp` reads (`language`, `textCase`, `listFontSize`, `startupDelay` and the two screensaver lines). The HAL constants follow `source/ESPEED32_V2_06/HAL.h`.
- `THROTTLE_NORMALIZED`, `SCREENSAVER_TEXT_MAX`, `STORED_VAR_VERSION` and the `LANG_*`, `TEXT_CASE_*`, `FONT_SIZE_*` and `STARTUP_DELAY_*` bounds are fields of the `Settings.Limits` parameter, because their headers are not part of this model.
- UTF-8: text is a sequence of bytes, each a `char`. Multi-byte characters are not decoded, so a non-ASCII upload is cut byte by byte, as in the source.
- The `atan2` and floating-point angle conversion of the trigger reading: floating point. The model stops at the integer averages and the folded Y.
- `analogRead`, `Wire1.requestFrom`/`Wire1.read`, the `ledc*` calls, `pinMode` and the buzzer sounds: hardware I/O. The ADC count and the register bytes are parameters, and a PWM write is the returned `Hal.PwmWrite`.
- The AS5600, MT6701 and analog trigger variants: foreign sensor libraries.
- `source/ESPEED32_V3_0/half_bridge.cpp`: a wrapper over a foreign driver library.
- Restore.ParseCar: copies at most four name characters (the corrected copy) where `wifi_backup.cpp:267-268` copies five. For an uploaded name of five to fifteen characters the source leaves five unterminated bytes; this model keeps the first four. `Restore.ParseCarAsWritten` models the copy as written, and `Restore.ParseCarAsWrittenDiffers` proves the two reads differ only in that name.
- Restore.ParseCarSpec: characterizes the corrected read of `Restore.ParseCar`, so an accepted name is the corrected copy, not the five-byte copy of the source.
- Restore.ParseCars: built on `Restore.ParseCar`, so its promise that every restored name fits the array holds for the corrected copy only. The as-written whole-array and whole-upload reads are not modelled separately. Slot by slot, `Restore.ParseCarAsWrittenDiffers` shows that the read as written accepts and rejects the same car objects and differs only in names of five or more characters.
- Restore.ParseAndValidate: built on `Restore.ParseCars`, so the names of an accepted record are the corrected copies, and `NameFits` does not hold in the source for uploaded names of five to fifteen characters.
- DocRoundTrip.BackupRoundTrip: stated only for restorable records.
  - Every checked value must be in range, and every profile in range and numbered by its slot.
  - Every car name must be one the rename editor can produce: at most four characters, each from ASCII 32 to 122.
  - Names and screensaver lines must contain no `"` and no NUL.
  - A screensaver line must not be the word `cars`, and the first line must not be the word `screensaverLine2`.
  - The writer does not escape anything and the scanners take the first match anywhere in the text, so outside these records the restore need not reproduce the backup. `RoundTrip.QuoteCutsName` shows one such case.
- Hal.ReadVoltageDivider: its contract states the reading only when no `uint32_t` or `uint16_t` step wraps. The body models the wrap, and `Hal.BoardDivider` shows the board's resistors never reach it.
- Hal.RunW2B6: states the X average in closed form. The Y average is stated only by its range, since it is built the same way.
