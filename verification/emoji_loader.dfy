/** The emoji entity and the loader that builds entities from the records
    of the emoji database: `Emoji`, `EmojiLoader.buildEmojiFromJSON` and
    `EmojiLoader.loadEmojis`. */
module EmojiLoader {
  import opened Optional
  import opened Utf16
  import opened HtmlEntities

  /** One record of the database, as the JSON reader hands it over. Every
      field may be missing; strings are Java strings. */
  datatype RawRecord = RawRecord(
    emoji: Option<JString>,
    description: Option<JString>,
    category: Option<JString>,
    aliases: Option<seq<JString>>,
    tags: Option<seq<JString>>,
    unicodeVersion: Option<JString>,
    iosVersion: Option<JString>,
    skinTones: Option<bool>)

  /** An emoji with its metadata; the field names are those of its getters.
      `None` in `description` is Java's `null`. */
  datatype Emoji = Emoji(
    unicode: JString,
    description: Option<JString>,
    category: Option<JString>,
    aliases: seq<JString>,
    tags: seq<JString>,
    unicodeVersion: Option<JString>,
    iosVersion: Option<JString>,
    supportsFitzpatrick: bool,
    htmlDecimal: string,
    htmlHexadecimal: string)

  /** What every constructed emoji satisfies: its text is not empty, and its
      two HTML forms are derived from that text. */
  predicate Valid(e: Emoji) {
    && |e.unicode| > 0
    && e.htmlDecimal == HtmlDecimal(e.unicode)
    && e.htmlHexadecimal == HtmlHexadecimal(e.unicode)
  }

  /** The `skin_tones` flag read with a default: only an explicit `true`
      turns Fitzpatrick support on. */
  function SupportsFitzpatrick(skinTones: Option<bool>): bool {
    match skinTones
    case Some(flag) => flag
    case None => false
  }

  /** The HTML forms as the `Emoji` constructor computes them: walk the
      text with `codePointAt`, advance by `charCount`, and append one decimal
      and one hexadecimal reference per code point. */
  method ComputeHtmlCodes(unicode: JString) returns (htmlDec: string, htmlHex: string)
    ensures htmlDec == HtmlDecimal(unicode)
    ensures htmlHex == HtmlHexadecimal(unicode)
  {
    htmlDec, htmlHex := "", "";
    ghost var seen: seq<CodePoint> := [];
    var offset := 0;
    while offset < |unicode|
      invariant 0 <= offset <= |unicode|
      invariant CodePoints(unicode) == seen + CodePoints(unicode[offset..])
      invariant htmlDec == References(seen, DecimalNotation)
      invariant htmlHex == References(seen, HexNotation)
      decreases |unicode| - offset
    {
      offset, htmlDec, htmlHex, seen := WalkOnce(unicode, offset, htmlDec, htmlHex, seen);
    }
    assert CodePoints(unicode[offset..]) == [];
    assert seen == CodePoints(unicode) by {
      assert seen + [] == seen;
    }
  }

  /** One turn of the constructor's loop: read the code point at `offset`,
      append its two references and step past its code units. */
  method WalkOnce(unicode: JString, offset: nat, htmlDec: string, htmlHex: string, ghost seen: seq<CodePoint>)
    returns (next: nat, nextDec: string, nextHex: string, ghost nextSeen: seq<CodePoint>)
    requires offset < |unicode|
    requires CodePoints(unicode) == seen + CodePoints(unicode[offset..])
    requires htmlDec == References(seen, DecimalNotation)
    requires htmlHex == References(seen, HexNotation)
    ensures offset < next <= |unicode|
    ensures next == offset + CharCount(CodePointAt(unicode, offset))
    ensures nextSeen == seen + [CodePointAt(unicode, offset)]
    ensures nextDec == htmlDec + Reference(CodePointAt(unicode, offset), DecimalNotation)
    ensures nextHex == htmlHex + Reference(CodePointAt(unicode, offset), HexNotation)
    ensures CodePoints(unicode) == nextSeen + CodePoints(unicode[next..])
    ensures nextDec == References(nextSeen, DecimalNotation)
    ensures nextHex == References(nextSeen, HexNotation)
  {
    var codePoint := CodePointAt(unicode, offset);
    WalkStep(unicode, offset, seen);
    nextDec := AppendReference(htmlDec, seen, codePoint, DecimalNotation);
    nextHex := AppendReference(htmlHex, seen, codePoint, HexNotation);
    nextSeen := seen + [codePoint];
    next := offset + CharCount(codePoint);
  }

  /** Appends the reference of `c` to the references of `seen`. */
  method AppendReference(html: string, ghost seen: seq<CodePoint>, c: CodePoint, notation: Notation)
    returns (extended: string)
    requires html == References(seen, notation)
    ensures extended == html + Reference(c, notation)
    ensures extended == References(seen + [c], notation)
  {
    ReferencesSnoc(seen, c, notation);
    extended := html + Reference(c, notation);
  }

  /** One step of the constructor's walk: the code point at `offset` joins
      the ones already seen. */
  lemma WalkStep(unicode: JString, offset: nat, seen: seq<CodePoint>)
    requires offset < |unicode|
    requires CodePoints(unicode) == seen + CodePoints(unicode[offset..])
    ensures offset + CharCount(CodePointAt(unicode, offset)) <= |unicode|
    ensures CodePoints(unicode)
         == (seen + [CodePointAt(unicode, offset)])
            + CodePoints(unicode[offset + CharCount(CodePointAt(unicode, offset))..])
  {
    CodePointsFrom(unicode, offset);
  }

  /** `EmojiLoader.buildEmojiFromJSON`: no emoji when the record has no
      (or an empty) `emoji` text; otherwise an emoji that carries the record's
      fields, with an empty list for missing aliases or tags, no Fitzpatrick
      support unless `skin_tones` says so, and the HTML forms computed once
      from the text. */
  function BuildEmojiFromJson(json: RawRecord): (r: Option<Emoji>)
    ensures r.None? <==> json.emoji.None? || json.emoji == Some([])
    ensures r.Some? ==> Valid(r.value)
    ensures r.Some? ==> r.value.unicode == json.emoji.value
    ensures r.Some? ==> r.value.description == json.description
    ensures r.Some? ==> r.value.aliases == json.aliases.GetOr([])
    ensures r.Some? ==> r.value.tags == json.tags.GetOr([])
    ensures r.Some? ==> (r.value.supportsFitzpatrick <==> json.skinTones.Some? && json.skinTones.value)
  {
    match json.emoji
    case None => None
    case Some(unicode) =>
      if |unicode| == 0 then None
      else
        Some(Emoji(
          unicode,
          json.description,
          json.category,
          json.aliases.GetOr([]),
          json.tags.GetOr([]),
          json.unicodeVersion,
          json.iosVersion,
          SupportsFitzpatrick(json.skinTones),
          HtmlDecimal(unicode),
          HtmlHexadecimal(unicode)))
  }

  /** The record an emoji is written back as, with every field present. */
  function ToJson(e: Emoji): (json: RawRecord)
    ensures json.emoji == Some(e.unicode)
  {
    RawRecord(
      Some(e.unicode),
      e.description,
      e.category,
      Some(e.aliases),
      Some(e.tags),
      e.unicodeVersion,
      e.iosVersion,
      Some(e.supportsFitzpatrick))
  }

  /** The record with its defaults made explicit, as the loader reads it. */
  function WithDefaults(json: RawRecord): (full: RawRecord)
    ensures full.aliases.Some? && full.tags.Some? && full.skinTones.Some?
  {
    json.(
      aliases := Some(json.aliases.GetOr([])),
      tags := Some(json.tags.GetOr([])),
      skinTones := Some(SupportsFitzpatrick(json.skinTones)))
  }

  /** Every valid emoji is what its own record builds: the builder drops
      nothing an emoji holds. */
  lemma BuildToJson(e: Emoji)
    requires Valid(e)
    ensures BuildEmojiFromJson(ToJson(e)) == Some(e)
  {
  }

  /** Building then writing back gives the record with its defaults filled
      in: the builder keeps every field it is given, in order. */
  lemma ToJsonBuild(json: RawRecord)
    requires json.emoji.Some? && |json.emoji.value| > 0
    ensures ToJson(BuildEmojiFromJson(json).value) == WithDefaults(json)
  {
  }

  /** `skin_tones` true, false and absent give support true, false and false. */
  lemma FitzpatrickFlag(json: RawRecord)
    requires json.emoji.Some? && |json.emoji.value| > 0
    ensures json.skinTones == Some(true) ==> BuildEmojiFromJson(json).value.supportsFitzpatrick
    ensures json.skinTones == Some(false) ==> !BuildEmojiFromJson(json).value.supportsFitzpatrick
    ensures json.skinTones == None ==> !BuildEmojiFromJson(json).value.supportsFitzpatrick
  {
  }

  /** What each record builds, record by record. */
  function BuildAll(records: seq<RawRecord>): (built: seq<Option<Emoji>>)
    ensures |built| == |records|
  {
    seq(|records|, i requires 0 <= i < |records| => BuildEmojiFromJson(records[i]))
  }

  /** The emojis the records build, in record order; records that build no
      emoji contribute nothing. */
  function Collected(records: seq<RawRecord>): seq<Emoji> {
    Present(BuildAll(records))
  }

  /** Loading concatenated record lists loads each list in turn. */
  lemma CollectedAppend(a: seq<RawRecord>, b: seq<RawRecord>)
    ensures Collected(a + b) == Collected(a) + Collected(b)
  {
    assert BuildAll(a + b) == BuildAll(a) + BuildAll(b) by {
      forall i | 0 <= i < |a| + |b|
        ensures BuildAll(a + b)[i] == (BuildAll(a) + BuildAll(b))[i]
      {
        if i < |a| {
          assert (a + b)[i] == a[i];
        } else {
          assert (a + b)[i] == b[i - |a|];
        }
      }
    }
    PresentAppend(BuildAll(a), BuildAll(b));
  }

  /** An emoji is loaded exactly when some record builds it. */
  lemma CollectedMembers(records: seq<RawRecord>, e: Emoji)
    ensures e in Collected(records) <==>
              exists i | 0 <= i < |records| :: BuildEmojiFromJson(records[i]) == Some(e)
  {
    var built := BuildAll(records);
    PresentMembers(built, e);
    if e in Collected(records) {
      var i :| 0 <= i < |built| && built[i] == Some(e);
      assert BuildEmojiFromJson(records[i]) == Some(e);
    }
    if i :| 0 <= i < |records| && BuildEmojiFromJson(records[i]) == Some(e) {
      assert built[i] == Some(e);
    }
  }

  /** A record that builds no emoji leaves the loaded list as it was. */
  lemma SkippedRecord(records: seq<RawRecord>, json: RawRecord)
    requires BuildEmojiFromJson(json).None?
    ensures Collected(records + [json]) == Collected(records)
  {
    CollectedAppend(records, [json]);
    assert BuildAll([json]) == [None];
  }

  /** Loading one more record appends what that record builds, if anything. */
  lemma CollectedStep(records: seq<RawRecord>, i: nat)
    requires i < |records|
    ensures Collected(records[..i + 1]) == Collected(records[..i]) + Present([BuildEmojiFromJson(records[i])])
  {
    assert records[..i + 1] == records[..i] + [records[i]];
    CollectedAppend(records[..i], [records[i]]);
    assert BuildAll([records[i]]) == [BuildEmojiFromJson(records[i])];
  }

  /** `EmojiLoader.loadEmojis` on an already parsed array: builds each
      record in turn and keeps the emojis that come out, in record order. */
  method LoadEmojis(records: seq<RawRecord>) returns (emojis: seq<Emoji>)
    ensures emojis == Collected(records)
    ensures |records| == 0 ==> emojis == []
    ensures |emojis| <= |records|
    ensures forall k | 0 <= k < |emojis| :: Valid(emojis[k])
  {
    emojis := [];
    var i := 0;
    while i < |records|
      invariant 0 <= i <= |records|
      invariant emojis == Collected(records[..i])
      invariant |emojis| <= i
      invariant forall k | 0 <= k < |emojis| :: Valid(emojis[k])
    {
      var emoji := BuildEmojiFromJson(records[i]);
      CollectedStep(records, i);
      if emoji.Some? {
        assert Present([emoji]) == [emoji.value];
        emojis := emojis + [emoji.value];
      } else {
        assert Present([emoji]) == [];
      }
      i := i + 1;
    }
    assert records[..i] == records;
  }
}
