# id3-win1252-utf8 in Dafny

A verified model of the core of id3-win1252-utf8, a tool that repairs ID3 tag
text whose Cyrillic letters show up as accented Latin ones (À, Á, ê, …). The
repair works one codepoint at a time. Every codepoint in the Windows-1252 /
ISO-8859-1 accented-letter block [0xC0, 0xFF] is shifted by 0x350 (848) into the Basic
Cyrillic block [0x410, 0x44F]. Every other codepoint is kept.

Modules:

- `Win1252Range` (`win1252_range.dfy`) is the range classifier `Test`. It also counts accepted values over a window.
- `Win1252Converter` (`win1252_converter.dfy`) holds the per-codepoint operator `Win1252ToUtf8`, its mapping over a string (`Convert`) and `apply` as written (`Apply`). It also holds the JDK constructor `String(int[], int, int)` that `apply` calls (`NewString`) and the corrected `apply` (`ApplyFixed`).
- `ConverterScenarios` (`converter_scenarios.dfy`) holds the concrete conversions the unit tests expect.
- `AppConfig` (`app_config.dfy`) is the run configuration as an immutable record. It has the defaults, the setters, `needBackup()`, and the commit guard of `FileHandler.save`.
- `Results` (`results.dfy`) holds the `Option` and `Result` types.

A Java `String` is modelled as the sequence of codepoints `String.codePoints()`
yields (integers 0..0x10FFFF; a lone surrogate is its own codepoint, as in
Java). Such a stream never holds a high surrogate directly followed by a low
one (`NoSplitPair`), because `codePoints()` reads that pair as one
supplementary codepoint. `String.length()` is `Utf16Length`: two units per
supplementary-plane codepoint and one for every other codepoint.

The per-codepoint operator is not injective on all codepoints: 0xC0 and 0x410 both map to 0x410
(`Win1252ToUtf8NotInjective`). The model proves the exact collision condition
instead. It is injective on the legacy range, and on every input outside the
Cyrillic target block. The operator is idempotent on all inputs, and so is the
string conversion.

## Model

| member | source | states |
|---|---|---|
| Win1252Range.Test | src/main/java/io/github/olegzzz/id3/handler/Win1252Range.java:34-35 | the closed interval [0xC0, 0xFF], characterised as the bytes whose two high bits are set; `CountAccepted` counts it against the closed form `Overlap` |
| Win1252Range.TestBoundaries | src/main/java/io/github/olegzzz/id3/handler/Win1252Range.java:30-35 | 0xBF and 0x100 are rejected; 0xC0 and 0xFF are accepted; the range holds 64 values |
| Win1252Range.TestRejectsOutside | src/main/java/io/github/olegzzz/id3/handler/Win1252Range.java:34-35 | every negative value and every value above 0xFF is classified false |
| Win1252Range.CountAccepted | src/test/java/io/github/olegzzz/id3/handler/Win1252RangeTest.java:37 | counting the accepted values of [lo, hi] one by one gives the size of the intersection of [lo, hi] with [0xC0, 0xFF] |
| Win1252Range.WindowCount | src/test/java/io/github/olegzzz/id3/handler/Win1252RangeTest.java:36-38 | over [START-10, END+10] exactly END-START+1 = 64 values are accepted |
| Win1252Range.CoveringWindowCount | src/main/java/io/github/olegzzz/id3/handler/Win1252Range.java:30-35 | any window covering the range accepts exactly 64 values |
| Win1252Converter.OffsetValue | src/main/java/io/github/olegzzz/id3/handler/Win1252Converter.java:32-33 | the offset 0x410 - 0xC0 is 0x350 = 848, and the range's end lands on 0x44F |
| Win1252Converter.Win1252ToUtf8 | src/main/java/io/github/olegzzz/id3/handler/Win1252Converter.java:35-42 | an in-range codepoint c becomes c + 848, inside [0x410, 0x44F]; any other stays itself; no result is in the legacy range |
| Win1252Converter.Win1252ToUtf8Idempotent | src/main/java/io/github/olegzzz/id3/handler/Win1252Converter.java:37-42 | applying the operator twice equals applying it once |
| Win1252Converter.Win1252ToUtf8Collision | src/main/java/io/github/olegzzz/id3/handler/Win1252Converter.java:37-42 | two inputs map to the same value exactly when they are equal or one is a legacy codepoint and the other its Cyrillic image |
| Win1252Converter.Win1252ToUtf8Injective | src/main/java/io/github/olegzzz/id3/handler/Win1252Converter.java:37-42 | distinct legacy codepoints, and distinct codepoints outside the target block, give distinct results |
| Win1252Converter.Win1252ToUtf8NotInjective | src/main/java/io/github/olegzzz/id3/handler/Win1252Converter.java:37-42 | 0xC0 and 0x410 both map to 0x410, so the operator is not injective on all codepoints |
| Win1252Converter.Win1252ToUtf8Inverse | src/main/java/io/github/olegzzz/id3/handler/Win1252Converter.java:37-42 | the inverse shift undoes the operator outside the target block, and the operator undoes the inverse outside the legacy range |
| Win1252Converter.Convert | src/main/java/io/github/olegzzz/id3/handler/Win1252Converter.java:46 | the mapped codepoint stream has the input's length, holds the operator's result at every position, and contains no legacy codepoint |
| Win1252Converter.ConvertConcat | src/main/java/io/github/olegzzz/id3/handler/Win1252Converter.java:46 | converting a concatenation equals concatenating the conversions, so order is preserved and nothing is inserted or dropped |
| Win1252Converter.ConvertIdempotent | src/main/java/io/github/olegzzz/id3/handler/Win1252Converter.java:33-46 | converting an already converted string changes nothing |
| Win1252Converter.ConvertUnchangedIff | src/main/java/io/github/olegzzz/id3/handler/Win1252Converter.java:37-46 | a string is returned unchanged if and only if it has no codepoint in [0xC0, 0xFF] |
| Win1252Converter.ConvertRoundTrip | src/main/java/io/github/olegzzz/id3/handler/Win1252Converter.java:37-46 | a string without Cyrillic-block codepoints is recovered from its conversion by the inverse shift, and the converse holds for strings without legacy codepoints |
| Win1252Converter.Utf16Length | src/main/java/io/github/olegzzz/id3/handler/Win1252Converter.java:46 | the UTF-16 length is at least the codepoint count, and equal to it exactly when every codepoint is below 0x10000 |
| Win1252Converter.ConvertKeepsUtf16Length | src/main/java/io/github/olegzzz/id3/handler/Win1252Converter.java:46 | conversion leaves the UTF-16 length `s.length()` unchanged |
| Win1252Converter.ConvertKeepsNoSplitPair | src/main/java/io/github/olegzzz/id3/handler/Win1252Converter.java:46 | the converted stream of a `codePoints()` stream is again one: no surrogate is created or removed |
| Win1252Converter.Reread | src/main/java/io/github/olegzzz/id3/handler/Win1252Converter.java:46 | reading back the string the constructor writes keeps the UTF-16 length, always yields a well-formed `codePoints()` stream, and leaves a stream that already is one unchanged |
| Win1252Converter.NewString | src/main/java/io/github/olegzzz/id3/handler/Win1252Converter.java:46 | the constructor fails with an index error exactly when offset/count leave the array, and with an argument error when the window holds a non-codepoint; otherwise the string has the window's UTF-16 length, and for a window without split pairs it reads back as exactly the window |
| Win1252Converter.NewStringPairsSurrogates | src/main/java/io/github/olegzzz/id3/handler/Win1252Converter.java:46 | the lone surrogates 0xD800, 0xDC00 written side by side read back as the one codepoint 0x10000 |
| Win1252Converter.Apply | src/main/java/io/github/olegzzz/id3/handler/Win1252Converter.java:44-47 | `apply` as written succeeds exactly on BMP-only input, and then returns the converted string for every `codePoints()` stream; otherwise it throws an index error |
| Win1252Converter.ApplyIdempotent | src/main/java/io/github/olegzzz/id3/handler/Win1252Converter.java:44-47 | when `apply` succeeds on a `codePoints()` stream, applying it again to the result returns the same result |
| Win1252Converter.ApplyFixed | src/main/java/io/github/olegzzz/id3/handler/Win1252Converter.java:44-47 | with the codepoint count as the count, `apply` succeeds on every input, with the converted string for every `codePoints()` stream |
| Win1252Converter.ApplyRejectsSupplementary | src/main/java/io/github/olegzzz/id3/handler/Win1252Converter.java:46 | for [0xC0, 0x1F600] `apply` as written throws, while the fix returns [0x410, 0x1F600] |
| Win1252Converter.ApplyFixedExtendsApply | src/main/java/io/github/olegzzz/id3/handler/Win1252Converter.java:44-47 | the fix and the code as written agree exactly on the BMP-only inputs |
| ConverterScenarios.SkipsPlainText | src/test/java/io/github/olegzzz/id3/handler/Win1252ConverterTest.java:43-47 | " Foo" is returned as " Foo" |
| ConverterScenarios.ConvertsMixedText | src/test/java/io/github/olegzzz/id3/handler/Win1252ConverterTest.java:50-55 | "SomÀÁêe" becomes "SomАБкe" |
| ConverterScenarios.ConvertsLegacyText | src/test/java/io/github/olegzzz/id3/handler/Win1252ConverterTest.java:57-63 | "ÀÁê" becomes "АБк" |
| ConverterScenarios.ConvertsBoundaries | src/main/java/io/github/olegzzz/id3/handler/Win1252Range.java:34-35 | 0xBF and 0x100 stay; 0xC0 becomes 0x410 and 0xFF becomes 0x44F |
| AppConfig.Default | src/main/java/io/github/olegzzz/id3/config/AppConfig.java:30-44 | a fresh config is a dry run with backups on, verbose on and no file |
| AppConfig.SetNoBackups | src/main/java/io/github/olegzzz/id3/config/AppConfig.java:46-48 | `noBackups` takes the given value and the other fields keep theirs |
| AppConfig.SetDryRun | src/main/java/io/github/olegzzz/id3/config/AppConfig.java:50-52 | `dryRun` takes the given value and the other fields keep theirs |
| AppConfig.SetFile | src/main/java/io/github/olegzzz/id3/config/AppConfig.java:54-56 | `file` takes the given location and the other fields keep theirs |
| AppConfig.SetVerbose | src/main/java/io/github/olegzzz/id3/config/AppConfig.java:74-76 | `verbose` takes the given value and the other fields keep theirs |
| AppConfig.DryRunNeedsNoBackup | src/main/java/io/github/olegzzz/id3/config/AppConfig.java:58-60 | in a dry run `needBackup()` is false whatever `noBackups` holds |
| AppConfig.NeedBackup | src/main/java/io/github/olegzzz/id3/config/AppConfig.java:58-60 | `needBackup()`; characterised by `DryRunNeedsNoBackup`, `DefaultNeedsNoBackup`, `BackupPrecedesCommit`, `NeedBackupIgnoresFileAndVerbose` and `WritingRunBacksUp` |
| AppConfig.WillCommit | src/main/java/io/github/olegzzz/id3/handler/FileHandler.java:110 | the commit guard of `save`; `BackupPrecedesCommit` relates it to `NeedBackup` |
| AppConfig.DefaultNeedsNoBackup | src/main/java/io/github/olegzzz/id3/config/AppConfig.java:40-60 | the default config asks for no backup, and it commits nothing under the `save` guard at src/main/java/io/github/olegzzz/id3/handler/FileHandler.java:110 |
| AppConfig.BackupPrecedesCommit | src/main/java/io/github/olegzzz/id3/handler/FileHandler.java:83-117 | a backup is requested only when the commit guard of `save` passes, and when the guard passes a backup is requested exactly when backups are not switched off |
| AppConfig.NeedBackupIgnoresFileAndVerbose | src/main/java/io/github/olegzzz/id3/config/AppConfig.java:58-60 | the backup decision does not depend on `file` or `verbose` |
| AppConfig.WritingRunBacksUp | src/main/java/io/github/olegzzz/id3/config/AppConfig.java:58-60 | with `dryRun` and `noBackups` both false a backup is needed; with `noBackups` true it never is |
| AppConfig.SettersOverride | src/main/java/io/github/olegzzz/id3/config/AppConfig.java:46-80 | for every field, including `file`, setting it to its current value is a no-op, and a second setting overrides the first, so the getter returns the value set last |
| AppConfig.SettersCommute | src/main/java/io/github/olegzzz/id3/config/AppConfig.java:46-76 | setters of different fields commute |

## Left out

- `FileHandler` is left out: backup copies, MP3 read and commit, directory walk with `parallelStream`, and logging. These are filesystem I/O and concurrency, done through library types (`Tag`, `FieldKey`) that are not part of this model. Only the commit guard of `save` is kept (`AppConfig.WillCommit`).
- The field-level gate `Win1252Predicate` is left out. Its source is not part of this model, so its exact definition is not modelled. `ConvertUnchangedIff` states the property such a gate relies on.
- `AppConfigBuilder` is left out: command-line parsing, file existence and permission checks, and log level changes are foreign calls and I/O.
- `App` is left out. It is the entry point: help printing and `System.exit`.
- The UTF-16 decoding of the input string is left out: the input is taken as its `codePoints()` stream. How the constructor writes UTF-16 units and `codePoints()` pairs them again is modelled by `Reread`.
- Win1252Converter.NewString: the JDK is not part of this model. The constructor is modelled from its documented behaviour: the bounds check, the codepoint check, and the UTF-16 encoding read back through `codePoints()` (`Reread`). The JDK's exact exception subclasses are not distinguished.
- Java's 32-bit `int` is not modelled. Every value the operator and the predicate handle lies far inside its range, so no wrap-around can happen.
- The getters `isNoBackups`, `isDryRun`, `isVerbose` and `getFile` are the record's fields; each setter's contract states what its getter then returns.
- Statelessness of the predicate and the converter holds by construction: every member is a pure function.
- `AppConfig.NeedBackup` is a predicate whose body is the source's expression. It is characterised by the `AppConfig` lemmas rather than a contract of its own.

## Findings

| source | as written | input that shows it | evidently intended | confidence | as-written member | corrected member |
|---|---|---|---|---|---|---|
| src/main/java/io/github/olegzzz/id3/handler/Win1252Converter.java:46 | `new String(codePoints, 0, s.length())` passes the UTF-16 length as the codepoint count, which is larger than the array whenever the string has a supplementary-plane character, so the constructor throws `IndexOutOfBoundsException` | the string "À😀" (codepoints 0xC0, 0x1F600; UTF-16 length 3, array length 2) | pass the array's length, so every string converts, giving "А😀" | high; not executed | Win1252Converter.ApplyRejectsSupplementary | Win1252Converter.ApplyFixed |
