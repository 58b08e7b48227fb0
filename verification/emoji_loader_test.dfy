/** The records of the loader's unit tests and what the model says about
    them: each lemma states the assertions of one test. */
module EmojiLoaderTest {
  import opened Optional
  import opened Utf16
  import opened HtmlEntities
  import opened EmojiLoader
  import opened HtmlCodesTest

  /** U+1F604 SMILING FACE WITH OPEN MOUTH AND SMILING EYES, as a Java string. */
  const Smile: JString := FromString("\U{1F604}")

  /** U+1F60A SMILING FACE WITH SMILING EYES. */
  const Blush: JString := FromString("\U{1F60A}")

  /** U+1F468 MAN. */
  const Man: JString := FromString("\U{1F468}")

  /** A Java string of plain text: below U+10000 each character is one
      code unit. */
  function Text(s: string): (j: JString)
    requires forall i | 0 <= i < |s| :: s[i] < '\U{10000}'
    ensures |j| == |s|
  {
    seq(|s|, i requires 0 <= i < |s| => s[i] as int as CodeUnit)
  }

  /** The fields of the `buildEmojiFromJSON` test record. */
  const SmileDescription: JString := Text("grinning face with smiling eyes")
  const SmileAliases: seq<JString> := [Text("smile")]
  const SmileTags: seq<JString> := [Text("happy"), Text("joy"), Text("laugh"), Text("pleased")]
  const SmileysAndEmotion: JString := Text("Smileys & Emotion")
  const Version6: JString := Text("6.0")

  /** The record of the `buildEmojiFromJSON` test. */
  const SmileRecord: RawRecord := RawRecord(
    Some(Smile), Some(SmileDescription), Some(SmileysAndEmotion),
    Some(SmileAliases), Some(SmileTags), Some(Version6), Some(Version6), None)

  /** The record of the test without a description. */
  const BlushRecord: RawRecord := RawRecord(
    Some(Blush), None, Some(SmileysAndEmotion),
    Some([Text("blush")]), Some([Text("proud")]), Some(Version6), Some(Version6), None)

  /** The record of the test without an emoji. */
  const GrinningRecord: RawRecord := RawRecord(
    None, Some(Text("grinning face")), Some(SmileysAndEmotion),
    Some([Text("grinning")]), Some([Text("smile"), Text("happy")]),
    Some(Text("6.1")), Some(Version6), None)

  /** The record of the Fitzpatrick tests, without `skin_tones`. */
  const ManRecord: RawRecord := RawRecord(
    Some(Man), Some(Text("man")), Some(Text("People & Body")),
    Some([Text("man")]), Some([Text("mustache"), Text("father"), Text("dad")]),
    Some(Version6), Some(Version6), None)

  /** In a Java string the smile is a surrogate pair, yet it is one code
      point, U+1F604. */
  lemma SmileIsOneCodePoint()
    ensures Smile == [0xD83D, 0xDE04]
    ensures CodePoints(Smile) == [0x1F604]
  {
  }

  /** Loading an empty array gives no emojis. */
  lemma LoadEmptyDatabase()
    ensures Collected([]) == []
  {
  }

  /** The built emoji keeps the record's text, description, alias and tags,
      in order. */
  lemma BuildSmile()
    ensures BuildEmojiFromJson(SmileRecord).Some?
    ensures BuildEmojiFromJson(SmileRecord).value.unicode == Smile
    ensures BuildEmojiFromJson(SmileRecord).value.description == Some(SmileDescription)
    ensures BuildEmojiFromJson(SmileRecord).value.aliases == SmileAliases
    ensures BuildEmojiFromJson(SmileRecord).value.tags == SmileTags
  {
    SmileIsOneCodePoint();
    assert SmileRecord.emoji == Some(Smile);
  }

  /** A record without a description still builds, with no description. */
  lemma BuildBlushWithoutDescription()
    ensures BuildEmojiFromJson(BlushRecord).Some?
    ensures BuildEmojiFromJson(BlushRecord).value.description == None
  {
  }

  /** A record without an emoji builds nothing, whatever else it holds. */
  lemma BuildGrinningWithoutEmoji()
    ensures BuildEmojiFromJson(GrinningRecord) == None
  {
  }

  /** The HTML forms of the smile hold one reference, for U+1F604, not one
      per code unit. */
  lemma SmileHtmlCodes()
    ensures HtmlDecimal(Smile) == "&#128516;"
    ensures HtmlHexadecimal(Smile) == "&#x1f604;"
  {
    SmileIsOneCodePoint();
    ReferencesOfSmile();
  }

  /** The emoji the smile record builds carries those HTML forms. */
  lemma BuildSmileHtmlCodes()
    ensures BuildEmojiFromJson(SmileRecord).Some?
    ensures BuildEmojiFromJson(SmileRecord).value.htmlDecimal == "&#128516;"
    ensures BuildEmojiFromJson(SmileRecord).value.htmlHexadecimal == "&#x1f604;"
  {
    SmileIsOneCodePoint();
    assert SmileRecord.emoji == Some(Smile);
    SmileHtmlCodes();
  }

  lemma ManWithSkinTones()
    ensures BuildEmojiFromJson(ManRecord.(skinTones := Some(true))).Some?
    ensures BuildEmojiFromJson(ManRecord.(skinTones := Some(true))).value.supportsFitzpatrick
  {
  }

  lemma ManWithoutSkinTones()
    ensures BuildEmojiFromJson(ManRecord.(skinTones := Some(false))).Some?
    ensures !BuildEmojiFromJson(ManRecord.(skinTones := Some(false))).value.supportsFitzpatrick
  {
  }

  lemma SmileWithoutSkinTonesField()
    ensures BuildEmojiFromJson(SmileRecord).Some?
    ensures !BuildEmojiFromJson(SmileRecord).value.supportsFitzpatrick
  {
  }
}
