# emoji-java: emoji records, HTML codes and loading, in Dafny

This project models the record-to-entity step of the emoji-java library:
`EmojiLoader.buildEmojiFromJSON`, which turns one record of the emoji database
into an `Emoji` (or `null`), the `Emoji` getters it fills in, and
`EmojiLoader.loadEmojis`, which builds every record of the database. The
behaviour modelled is the one `EmojiLoaderTest.java` pins down.
Each row cites the `EmojiLoaderTest` assertion that fixes the behaviour.

Modules, leaf first:

- `Optional` (`optional.dfy`): `Option` for missing fields and Java's `null`,
  and `Present`, which keeps the present values of a sequence in order.
- `Sequences` (`sequences.dfy`): `IndexOf` and `Distinct`.
- `Utf16` (`utf16.dfy`): a Java `String` as a sequence of UTF-16 code units.
  It also gives `String.codePointAt`, `Character.charCount`, `Character.toChars`
  and the surrogate-pair arithmetic. `CodePoints` reads a string one whole code
  point at a time, so a surrogate pair counts as one code point.
- `Numerals` (`numerals.dfy`): `String.format("%d")` and `String.format("%x")`
  of a non-negative number, in ASCII digits. Output is lower-case with no
  leading zeros. A reader parses the digits back.
- `HtmlEntities` (`html_entities.dfy`): `&#<decimal>;` and `&#x<hex>;`
  references, one per code point, and a reader that splits such a string back
  into code points.
- `EmojiLoader` (`emoji_loader.dfy`):
  - the raw record, whose fields are all optional;
  - the `Emoji` entity and its invariant `Valid`;
  - `BuildEmojiFromJson`;
  - the constructor's code-point walk `ComputeHtmlCodes`;
  - the loader `LoadEmojis`.
- `HtmlCodesTest` and `EmojiLoaderTest` (`html_codes_test.dfy`,
  `emoji_loader_test.dfy`): the records and expected values of the unit
  tests, stated as lemmas.

Java strings are `seq<CodeUnit>` with `CodeUnit` in `0..0xFFFF`. The HTML
forms hold only ASCII characters, so they are Dafny `string`s. A test emoji
such as `😄` is written as its code point `\U{1F604}` and encoded to UTF-16
with `Utf16.FromString`. The result is the surrogate pair `D83D DE04`.

## Model

| member | source | states |
|---|---|---|
| EmojiLoader.BuildEmojiFromJson | src/test/java/com/vdurmont/emoji/EmojiLoaderTest.java:36-107 | no emoji exactly when `emoji` is missing (or empty); otherwise the emoji's unicode, description, aliases and tags are the record's, in order. A missing description stays `None`, missing aliases or tags become empty lists, and the entity is `Valid`, so its HTML forms are derived from its text |
| EmojiLoader.BuildToJson | src/test/java/com/vdurmont/emoji/EmojiLoaderTest.java:50-65 | every valid emoji is rebuilt exactly from the record it is written back as, so the builder drops and reorders nothing |
| EmojiLoader.ToJsonBuild | src/test/java/com/vdurmont/emoji/EmojiLoaderTest.java:50-65 | building a record and writing the emoji back gives the same record with only the defaults filled in |
| EmojiLoader.FitzpatrickFlag | src/test/java/com/vdurmont/emoji/EmojiLoaderTest.java:133-199 | `skin_tones` true, false and absent give `supportsFitzpatrick` true, false and false |
| EmojiLoader.ComputeHtmlCodes | src/test/java/com/vdurmont/emoji/EmojiLoaderTest.java:109-131 | the constructor's walk with `codePointAt` and `charCount`, appending one decimal and one hex reference per code point, produces exactly `HtmlDecimal` and `HtmlHexadecimal` of the text |
| EmojiLoader.LoadEmojis | src/test/java/com/vdurmont/emoji/EmojiLoaderTest.java:24-34 | an empty record list loads to an empty list. In general the result is the emojis the records build, in record order, never more emojis than records, every one `Valid` |
| EmojiLoader.WalkOnce | src/test/java/com/vdurmont/emoji/EmojiLoaderTest.java:127-130 | one turn of the walk reads the code point at the offset, steps forward by its `charCount`, records it as seen and appends its decimal and hexadecimal reference to the two HTML forms, so the walk keeps "HTML so far = references of the code points read so far" |
| EmojiLoader.CollectedMembers | src/test/java/com/vdurmont/emoji/EmojiLoaderTest.java:89-107 | an emoji is loaded if and only if some record builds it, so a record that builds `null` contributes nothing |
| EmojiLoader.SkippedRecord | src/test/java/com/vdurmont/emoji/EmojiLoaderTest.java:89-107 | appending a record that builds no emoji leaves the loaded list unchanged |
| EmojiLoader.CollectedStep | src/test/java/com/vdurmont/emoji/EmojiLoaderTest.java:30 | loading one more record appends exactly what that record builds, and nothing when it builds no emoji |
| EmojiLoader.CollectedAppend | src/test/java/com/vdurmont/emoji/EmojiLoaderTest.java:30 | loading two record lists one after the other gives the two loaded lists concatenated, so the order of the records is kept |
| Utf16.ToCodePoint | src/test/java/com/vdurmont/emoji/EmojiLoaderTest.java:129 | a surrogate pair stands for a supplementary code point (at least U+10000), and splitting that code point gives back the same pair |
| Utf16.CharCount | src/test/java/com/vdurmont/emoji/EmojiLoaderTest.java:127-130 | a code point takes two code units exactly when it is supplementary (at least U+10000), and one otherwise |
| Utf16.CodePointAt | src/test/java/com/vdurmont/emoji/EmojiLoaderTest.java:127-130 | at a high surrogate followed by a low one the code point is the pair's supplementary code point. Anywhere else, an unpaired surrogate included, it is the unit itself |
| Utf16.CodePoints | src/test/java/com/vdurmont/emoji/EmojiLoaderTest.java:127-130 | a string reads as at most as many code points as it has units, and as none exactly when it is empty |
| Utf16.CodePointsRoundTrip | src/test/java/com/vdurmont/emoji/EmojiLoaderTest.java:127-130 | re-encoding the code points of any string gives back every unit, unpaired surrogates included |
| Utf16.FromCodePointsRoundTrip | src/test/java/com/vdurmont/emoji/EmojiLoaderTest.java:127-130 | encoding Unicode scalar values to UTF-16 and reading them back gives the same code points: one per supplementary character, not two |
| Utf16.SurrogatePairIsOneCodePoint | src/test/java/com/vdurmont/emoji/EmojiLoaderTest.java:129 | a high surrogate followed by a low surrogate reads as exactly one code point |
| Utf16.FromString | src/test/java/com/vdurmont/emoji/EmojiLoaderTest.java:40 | a string literal becomes a Java string whose code points are exactly the literal's characters |
| Numerals.Digits | src/test/java/com/vdurmont/emoji/EmojiLoaderTest.java:129-130 | the digits of a number are each below the base, there is at least one, and the first is zero only for the number zero |
| Numerals.DigitsValue | src/test/java/com/vdurmont/emoji/EmojiLoaderTest.java:129-130 | the digits of `n` denote `n` |
| Numerals.NoLeadingZeros | src/test/java/com/vdurmont/emoji/EmojiLoaderTest.java:130 | a numeral starts with the zero digit exactly when it is the numeral of zero, which is that single digit |
| Numerals.NumeralRoundTrip | src/test/java/com/vdurmont/emoji/EmojiLoaderTest.java:129-130 | parsing a rendered numeral gives back its number |
| Numerals.Decimal | src/test/java/com/vdurmont/emoji/EmojiLoaderTest.java:129 | `%d` is a non-empty run of `0`-`9` without a leading zero, that is exactly `0` for zero and parses back to the number |
| Numerals.Hex | src/test/java/com/vdurmont/emoji/EmojiLoaderTest.java:130 | `%x` is a non-empty run of `0`-`9`/`a`-`f`, lower case, without a leading zero, that is exactly `0` for zero and parses back to the number |
| HtmlEntities.ReferencesRoundTrip | src/test/java/com/vdurmont/emoji/EmojiLoaderTest.java:127-130 | the references of a code-point sequence read back as exactly that sequence: one reference per code point, in order, with no separator |
| HtmlEntities.ParseReferenceStep | src/test/java/com/vdurmont/emoji/EmojiLoaderTest.java:129-130 | a reference at the front of a string reads as its code point, and reading resumes just after its `;` |
| HtmlEntities.ReferenceNumerals | src/test/java/com/vdurmont/emoji/EmojiLoaderTest.java:129-130 | a reference is `&#` and the canonical decimal numeral, or `&#x` and the canonical lower-case hex numeral, of its code point, then `;` |
| HtmlEntities.Reference | src/test/java/com/vdurmont/emoji/EmojiLoaderTest.java:129-130 | one reference starts with its opener (`&#` or `&#x`), then one or more digits of its notation only, and ends with `;` |
| HtmlEntities.References | src/test/java/com/vdurmont/emoji/EmojiLoaderTest.java:129-130 | the references of a code-point sequence, joined without separators, take at least four characters per code point and are empty exactly when the sequence is |
| HtmlEntities.ReferencesSnoc | src/test/java/com/vdurmont/emoji/EmojiLoaderTest.java:129-130 | appending a code point appends exactly its reference |
| HtmlEntities.HtmlDecimal | src/test/java/com/vdurmont/emoji/EmojiLoaderTest.java:129 | the decimal HTML form holds at least four characters per code point and is empty exactly when the text is |
| HtmlEntities.HtmlHexadecimal | src/test/java/com/vdurmont/emoji/EmojiLoaderTest.java:130 | the hexadecimal HTML form holds at least four characters per code point and is empty exactly when the text is |
| HtmlEntities.HtmlDecimalReadsBack | src/test/java/com/vdurmont/emoji/EmojiLoaderTest.java:129 | the decimal HTML form of a string reads back as the string's code points, one reference per code point |
| HtmlEntities.HtmlHexadecimalReadsBack | src/test/java/com/vdurmont/emoji/EmojiLoaderTest.java:130 | the hexadecimal HTML form of a string reads back as the string's code points, one reference per code point |
| HtmlCodesTest.DecimalOfSmile | src/test/java/com/vdurmont/emoji/EmojiLoaderTest.java:129 | `%d` of U+1F604 is `128516` |
| HtmlCodesTest.HexOfSmile | src/test/java/com/vdurmont/emoji/EmojiLoaderTest.java:130 | `%x` of U+1F604 is `1f604` |
| HtmlCodesTest.ReferencesOfSmile | src/test/java/com/vdurmont/emoji/EmojiLoaderTest.java:129-130 | the references of U+1F604 alone are `&#128516;` and `&#x1f604;` |
| EmojiLoaderTest.SmileIsOneCodePoint | src/test/java/com/vdurmont/emoji/EmojiLoaderTest.java:114 | `😄` is the UTF-16 surrogate pair `D83D DE04` and reads as the single code point U+1F604 |
| EmojiLoaderTest.LoadEmptyDatabase | src/test/java/com/vdurmont/emoji/EmojiLoaderTest.java:24-34 | an empty array loads no emojis |
| EmojiLoaderTest.BuildSmile | src/test/java/com/vdurmont/emoji/EmojiLoaderTest.java:36-66 | the test record builds an emoji with unicode `😄`, the given description, aliases `["smile"]` and tags `["happy","joy","laugh","pleased"]` in that order |
| EmojiLoaderTest.BuildBlushWithoutDescription | src/test/java/com/vdurmont/emoji/EmojiLoaderTest.java:68-87 | a record without a description builds an emoji whose description is `None` |
| EmojiLoaderTest.BuildGrinningWithoutEmoji | src/test/java/com/vdurmont/emoji/EmojiLoaderTest.java:89-107 | a record without `emoji` builds nothing, although every other field is present |
| EmojiLoaderTest.SmileHtmlCodes | src/test/java/com/vdurmont/emoji/EmojiLoaderTest.java:127-130 | the HTML forms of `😄` are exactly `&#128516;` and `&#x1f604;`, one reference and not one per code unit |
| EmojiLoaderTest.BuildSmileHtmlCodes | src/test/java/com/vdurmont/emoji/EmojiLoaderTest.java:109-131 | the emoji built from the test record has `htmlDecimal` `&#128516;` and `htmlHexadecimal` `&#x1f604;` |
| EmojiLoaderTest.ManWithSkinTones | src/test/java/com/vdurmont/emoji/EmojiLoaderTest.java:133-154 | `skin_tones: true` builds an emoji that supports Fitzpatrick modifiers |
| EmojiLoaderTest.ManWithoutSkinTones | src/test/java/com/vdurmont/emoji/EmojiLoaderTest.java:156-177 | `skin_tones: false` builds an emoji that does not support them |
| EmojiLoaderTest.SmileWithoutSkinTonesField | src/test/java/com/vdurmont/emoji/EmojiLoaderTest.java:179-199 | a record without `skin_tones` builds an emoji that does not support them |

## Left out

- JSON text parsing (`JSONObject`, `JSONArray`), the `InputStream` and its UTF-8 decoding in `loadEmojis` are left out: they are an external library and I/O. The input is an already parsed `RawRecord`, and the stream is a `seq<RawRecord>`. For the same reason a stream that is not a JSON array at all, which fails the whole load, is not modelled.
- Any re-encoding of the emoji text inside the `Emoji` constructor is left out. The model carries the record's Java string as it is. The two agree for every well-formed string, and every test string is well-formed.
- `category`, `unicode_version` and `ios_version` are carried through as opaque optional strings. Nothing beyond being carried through unchanged (`ToJsonBuild`) is stated about them, and no test asserts anything about them.
- An empty `emoji` text builds no emoji, following the library's rule that an emoji's text is never empty. The tests only exercise a missing `emoji`.
- Missing `aliases` or `tags` become empty lists, following the library's record format. No test omits them.
- The loader skips records that build no emoji and keeps record order. `EmojiLoaderTest` asserts only the empty-list case, so `CollectedMembers`, `SkippedRecord` and `CollectedAppend` state the loader's skip-and-keep-order rule rather than a test assertion.
- The emoji trie, the longest-match text scanner, Fitzpatrick modifier matching, the alias index with its duplicate-alias policy, and the alias and remove formatters are left out; they are separate components and `EmojiLoaderTest` does not exercise them.
- Numerals.Decimal: assumes a default locale whose zero digit is `0`. Java's `String.format("%d", …)` offsets each digit from the default locale's zero digit, so under a locale such as `fa-IR` the decimal HTML form would use Persian digits. The model always writes ASCII `0`-`9`, as the test at EmojiLoaderTest.java:129 also assumes. `%x` is not localised, so `Numerals.Hex` is exact.
- Static database initialisation and thread safety are left out. The model is pure and has no shared state.
- The reader `HtmlEntities.ParseReferences` is the model's partner for the HTML forms, not a function of the library. It reads an unsigned run of digits of any length, and it accepts numerals with leading zeros.
