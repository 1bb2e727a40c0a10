/** Decomposition of a PDF form-field name such as
    `form1[0].Page1[0].Part2[0].Line1a_FamilyName[0]` into page, part,
    descriptor, item and description, as `parseFieldName` does with regular
    expressions. Each expression's match rule is written out below. */
module FieldNames {
  import opened Results
  import opened JsText

  datatype ParsedFieldName = ParsedFieldName(
    raw: string,
    page: Option<string>,
    part: Option<string>,
    descriptor: string,
    item: Option<string>,
    description: Option<string>)

  /** `/<Tag>(\d+)\[/i` matches with its tag starting at `j`: the (lower-case)
      tag in any ASCII case, then a maximal run of at least one digit, then `[`.
      A shorter digit run cannot be followed by `[`, so greediness costs nothing. */
  predicate TagAt(s: string, tag: string, j: int) {
    && 0 <= j && j + |tag| <= |s|
    && ToLower(s[j..j + |tag|]) == tag
    && var d := LeadingDigits(s[j + |tag|..]);
       |d| > 0 && j + |tag| + |d| < |s| && s[j + |tag| + |d|] == '['
  }

  /** The digits captured by a tag match at `j`. */
  function TagDigits(s: string, tag: string, j: nat): string
    requires j + |tag| <= |s|
  {
    LeadingDigits(s[j + |tag|..])
  }

  /** The leftmost tag match at or after `from`. The optional `\.?` in front of
      the tag never moves the capture: a match that uses the dot starts one
      position earlier but captures the same digits. */
  function FindTag(s: string, tag: string, from: nat): (r: Option<nat>)
    ensures r.Some? ==> from <= r.value && TagAt(s, tag, r.value)
    ensures r.Some? ==> forall j | from <= j < r.value :: !TagAt(s, tag, j)
    ensures r.None? ==> forall j | from <= j :: !TagAt(s, tag, j)
    decreases |s| - from
  {
    if from + |tag| > |s| then None
    else if TagAt(s, tag, from) then Some(from)
    else FindTag(s, tag, from + 1)
  }

  /** `"Page" + m[1]` for the first match of `/\.?Page(\d+)\[/i`, when there is one. */
  function TagValue(s: string, tag: string, prefix: string): Option<string> {
    match FindTag(s, tag, 0)
    case None => None
    case Some(j) => Some(prefix + TagDigits(s, tag, j))
  }

  /** A value exists exactly when the tag occurs, and it is the prefix
      followed by the digits of the leftmost occurrence. */
  lemma TagValueIsFirstMatch(s: string, tag: string, prefix: string)
    ensures TagValue(s, tag, prefix).Some? <==> exists j :: TagAt(s, tag, j)
    ensures TagValue(s, tag, prefix).Some? ==> exists j ::
      && TagAt(s, tag, j) && (forall i | 0 <= i < j :: !TagAt(s, tag, i))
      && TagValue(s, tag, prefix).value == prefix + TagDigits(s, tag, j)
  {
  }

  /** `segments[segments.length - 1]` of `s.split(".")`: the text after the last dot. */
  function LastSegment(s: string): (r: string)
    ensures '.' !in r
    ensures |r| <= |s| && r == s[|s| - |r|..]
    ensures |r| == |s| || s[|s| - |r| - 1] == '.'
  {
    var segments := Split(s, ".");
    var last := segments[|segments| - 1];
    JoinEndsWithLast(segments, ".");
    NoDotInPiece(last);
    assert |segments| > 1 ==> s[|s| - |last| - 1] == s[|s| - |last| - 1..|s| - |last|][0];
    last
  }

  lemma NoDotInPiece(piece: string)
    requires !Includes(piece, ".")
    ensures '.' !in piece
  {
    if '.' in piece {
      var i :| 0 <= i < |piece| && piece[i] == '.';
      assert piece[i..i + 1] == ".";
      IncludesAt(piece, ".", i);
    }
  }

  /** A joined list ends with its last element, preceded by the separator when
      there is more than one element. */
  lemma {:induction false} JoinEndsWithLast(parts: seq<string>, sep: string)
    requires |parts| >= 1
    ensures var j, last := Join(parts, sep), parts[|parts| - 1];
      && |last| <= |j| && j[|j| - |last|..] == last
      && (|parts| > 1 ==> |last| + |sep| <= |j| && j[|j| - |last| - |sep|..|j| - |last|] == sep)
      && (|parts| == 1 ==> j == last)
  {
    if |parts| > 1 {
      JoinEndsWithLast(parts[1..], sep);
      assert parts[1..][|parts[1..]| - 1] == parts[|parts| - 1];
      if |parts| == 2 {
        assert Join(parts[1..], sep) == parts[1];
      }
    }
  }

  /** `/\[\d+\]$/` matches at `k`: `[`, at least one digit, `]` ending the string. */
  predicate IndexSuffixAt(seg: string, k: int) {
    0 <= k && k + 2 < |seg| && seg[k] == '[' && seg[|seg| - 1] == ']' && AllDigits(seg[k + 1..|seg| - 1])
  }

  /** The longest all-digit suffix. */
  function TrailingDigits(s: string): (r: string)
    ensures |r| <= |s| && r == s[|s| - |r|..] && AllDigits(r)
    ensures |r| == |s| || !IsDigit(s[|s| - |r| - 1])
  {
    var n := TrailingDigitCount(s);
    var r := s[|s| - n..];
    assert forall i | 0 <= i < |r| :: r[i] == s[|s| - n + i];
    r
  }

  /** How many digits end the string. */
  function TrailingDigitCount(s: string): (n: nat)
    ensures n <= |s|
    ensures forall i | |s| - n <= i < |s| :: IsDigit(s[i])
    ensures n == |s| || !IsDigit(s[|s| - n - 1])
  {
    if s != [] && IsDigit(s[|s| - 1]) then
      var init := s[..|s| - 1];
      var n := TrailingDigitCount(init) + 1;
      assert forall i | |s| - n <= i < |s| - 1 :: s[i] == init[i];
      n
    else 0
  }

  /** `seg.replace(/\[\d+\]$/, "")`: removes one trailing `[N]`, and only that. */
  function StripIndex(seg: string): (r: string)
    ensures |r| <= |seg| && r == seg[..|r|]
    ensures r != seg ==> IndexSuffixAt(seg, |r|)
    ensures r == seg ==> forall k :: !IndexSuffixAt(seg, k)
  {
    if |seg| >= 3 && seg[|seg| - 1] == ']' then
      var body := seg[..|seg| - 1];
      var d := TrailingDigits(body);
      var k := |body| - |d| - 1;
      if |d| > 0 && k >= 0 && seg[k] == '[' then
        assert seg[k + 1..|seg| - 1] == d;
        seg[..k]
      else
        assert forall i | k + 1 <= i < |seg| - 1 :: seg[i] == d[i - (k + 1)];
        NoIndexSuffix(seg, k + 1);
        seg
    else seg
  }

  /** When the digits before the closing bracket run back to `start` and are
      not preceded by `[`, no index suffix exists. */
  lemma NoIndexSuffix(seg: string, start: int)
    requires 0 <= start < |seg|
    requires forall i | start <= i < |seg| - 1 :: IsDigit(seg[i])
    requires start == 0 || !IsDigit(seg[start - 1])
    requires !(start + 1 < |seg| && start >= 1 && seg[start - 1] == '[')
    ensures forall k :: !IndexSuffixAt(seg, k)
  {
    forall k | 0 <= k && k + 2 < |seg| && seg[k] == '[' && seg[|seg| - 1] == ']'
      ensures !AllDigits(seg[k + 1..|seg| - 1])
    {
      assert k + 1 < start;
      assert seg[k + 1..|seg| - 1][start - 1 - (k + 1)] == seg[start - 1];
    }
  }

  predicate IsAsciiLetter(c: char) {
    ('a' <= c <= 'z') || ('A' <= c <= 'Z')
  }

  /** `m[1]` of `/^Line(\d+[a-z]?)/i`. */
  function ItemOf(descriptor: string): Option<string> {
    if |descriptor| >= 4 && ToLower(descriptor[..4]) == "line" then
      var d := LeadingDigits(descriptor[4..]);
      if |d| == 0 then None
      else if 4 + |d| < |descriptor| && IsAsciiLetter(descriptor[4 + |d|]) then Some(d + [descriptor[4 + |d|]])
      else Some(d)
    else None
  }

  /** An item exists exactly when the descriptor starts with "Line" (any
      case) and a digit; it is all the digits that follow, plus the letter
      right after them when there is one. */
  lemma ItemIsLineNumber(descriptor: string)
    ensures var r := ItemOf(descriptor);
      && (r.Some? <==> |descriptor| >= 4 && ToLower(descriptor[..4]) == "line" && |LeadingDigits(descriptor[4..])| > 0)
      && (r.Some? ==>
        var d := LeadingDigits(descriptor[4..]);
        && d <= r.value && |d| > 0
        && (|r.value| == |d| + 1 <==> (4 + |d| < |descriptor| && IsAsciiLetter(descriptor[4 + |d|])))
        && (|r.value| == |d| + 1 ==> r.value[|d|] == descriptor[4 + |d|])
        && |r.value| <= |d| + 1)
  {
  }

  /** `/_(.+)$/` matches at `k`: an underscore followed by at least one
      character and then the end, with no line terminator in between (a `.`
      does not match one). */
  predicate DescriptionAt(s: string, k: int) {
    0 <= k && k + 1 < |s| && s[k] == '_' && forall i | k + 1 <= i < |s| :: !IsLineTerminator(s[i])
  }

  function FindDescription(s: string, from: nat): (r: Option<nat>)
    ensures r.Some? ==> from <= r.value && DescriptionAt(s, r.value)
    ensures r.Some? ==> forall k | from <= k < r.value :: !DescriptionAt(s, k)
    ensures r.None? ==> forall k | from <= k :: !DescriptionAt(s, k)
    decreases |s| - from
  {
    if from + 1 >= |s| then None
    else if DescriptionAt(s, from) then Some(from)
    else FindDescription(s, from + 1)
  }

  /** `m[1]` of `/_(.+)$/`. */
  function DescriptionOf(descriptor: string): Option<string> {
    match FindDescription(descriptor, 0)
    case None => None
    case Some(k) => Some(descriptor[k + 1..])
  }

  /** A description exists exactly when some underscore starts a match, and it
      is the non-empty text after the leftmost such underscore. */
  lemma DescriptionAfterFirstUnderscore(descriptor: string)
    ensures var r := DescriptionOf(descriptor);
      && (r.Some? <==> exists k :: DescriptionAt(descriptor, k))
      && (r.Some? ==> r.value != [] && exists k ::
        && DescriptionAt(descriptor, k) && (forall i | 0 <= i < k :: !DescriptionAt(descriptor, i))
        && r.value == descriptor[k + 1..])
  {
  }

  /** `parseFieldName`. */
  function ParseFieldName(rawName: string): ParsedFieldName {
    var descriptor := StripIndex(LastSegment(rawName));
    ParsedFieldName(
      rawName,
      TagValue(rawName, "page", "Page"),
      TagValue(rawName, "part", "Part"),
      descriptor,
      ItemOf(descriptor),
      DescriptionOf(descriptor))
  }

  /** What `parseFieldName` returns: the raw name unchanged; a page (and a
      part) exactly when the name holds a `Page<digits>[` (`Part<digits>[`)
      in any case, spelled "Page" ("Part") plus the digits of the leftmost
      one; the descriptor is the last dot-separated segment without one
      trailing `[N]`; item and description come from the descriptor. */
  lemma ParsedParts(rawName: string)
    ensures var r := ParseFieldName(rawName);
      && r.raw == rawName
      && (r.page.Some? <==> exists j :: TagAt(rawName, "page", j))
      && (r.part.Some? <==> exists j :: TagAt(rawName, "part", j))
      && (r.page.Some? ==> exists j ::
            TagAt(rawName, "page", j) && (forall i | 0 <= i < j :: !TagAt(rawName, "page", i))
            && r.page.value == "Page" + TagDigits(rawName, "page", j))
      && (r.part.Some? ==> exists j ::
            TagAt(rawName, "part", j) && (forall i | 0 <= i < j :: !TagAt(rawName, "part", i))
            && r.part.value == "Part" + TagDigits(rawName, "part", j))
      && '.' !in r.descriptor
      && r.descriptor == StripIndex(LastSegment(rawName))
      && r.item == ItemOf(r.descriptor) && r.description == DescriptionOf(r.descriptor)
  {
    TagValueIsFirstMatch(rawName, "page", "Page");
    TagValueIsFirstMatch(rawName, "part", "Part");
  }

  /** The segment after a dot with no dot behind it is the last segment. */
  lemma LastSegmentAfter(s: string, k: nat)
    requires k < |s| && s[k] == '.' && '.' !in s[k + 1..]
    ensures LastSegment(s) == s[k + 1..]
  {
  }

  /** A trailing `[N]` that starts at `k` is exactly what is removed. */
  lemma StripIndexAt(seg: string, k: nat)
    requires IndexSuffixAt(seg, k)
    ensures StripIndex(seg) == seg[..k]
  {
  }

  lemma LowerWord(w: string, lower: string)
    requires |w| == |lower| && forall i | 0 <= i < |w| :: LowerChar(w[i]) == lower[i]
    ensures ToLower(w) == lower
  {
  }

  /** The descriptor of the documented example, `Line1a_FamilyName`, yields
      item "1a" and description "FamilyName". */
  lemma ItemAndDescriptionExample()
    ensures ItemOf("Line1a_FamilyName") == Some("1a")
    ensures DescriptionOf("Line1a_FamilyName") == Some("FamilyName")
  {
    ItemExample("Line1a_FamilyName");
    DescriptionExample("Line1a_FamilyName");
  }

  lemma ItemExample(desc: string)
    requires desc == "Line1a_FamilyName"
    ensures ItemOf(desc) == Some("1a")
  {
    assert desc[..4] == "Line";
    LowerWord("Line", "line");
    assert desc[4..] == "1" + desc[5..];
    LeadingDigitsOf("1", desc[5..]);
    assert desc[5] == 'a' && IsAsciiLetter(desc[5]);
    assert "1" + [desc[5]] == "1a";
  }

  lemma DescriptionExample(desc: string)
    requires desc == "Line1a_FamilyName"
    ensures DescriptionOf(desc) == Some("FamilyName")
  {
    assert DescriptionAt(desc, 6);
    forall k | 0 <= k < 6 ensures !DescriptionAt(desc, k) {
      assert desc[k] != '_';
    }
    assert desc[7..] == "FamilyName";
  }
}
