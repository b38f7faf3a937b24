/**
 * The "Label：value" splitter applied to the education detail lines.
 * A line is shown with a bold label when its earliest colon (full-width
 * or ASCII) lies within the first twenty code units; otherwise it is
 * shown unchanged.
 */
module DetailText {
  import opened Wrappers

  /** A UTF-16 code unit: JavaScript strings are indexed and measured in these. */
  newtype CodeUnit = u: int | 0 <= u < 0x1_0000

  type Text = seq<CodeUnit>

  /** U+FF1A FULLWIDTH COLON, tried first. */
  const FullWidthColon: CodeUnit := 0xFF1A
  /** U+003A COLON, tried second. */
  const Colon: CodeUnit := 0x3A
  /** The separators in the order the splitter tries them. */
  const Separators: seq<CodeUnit> := [FullWidthColon, Colon]
  /** A separator splits the line only when its index is below this bound. */
  const LabelLimit: nat := 20

  predicate IsSeparator(u: CodeUnit)
  {
    u == FullWidthColon || u == Colon
  }

  /**
   * What the splitter renders: a bold label with its separator followed by the
   * value, or the text as it is. The label is the field `title`, since `label`
   * is a reserved word in Dafny.
   */
  datatype Detail =
    | Labelled(title: Text, separator: CodeUnit, value: Text)
    | Plain(text: Text)

  /** The code units a rendered detail shows, in reading order. */
  function Shown(d: Detail): Text
  {
    match d
    case Labelled(title, sep, value) => title + [sep] + value
    case Plain(text) => text
  }

  /** The renderings the splitter can produce: a short separator-free label, or a text with no separator in its first LabelLimit units. */
  predicate WellFormed(d: Detail)
  {
    match d
    case Labelled(title, sep, _) =>
      |title| < LabelLimit && IsSeparator(sep) &&
      forall j | 0 <= j < |title| :: !IsSeparator(title[j])
    case Plain(text) =>
      forall j | 0 <= j < |text| && j < LabelLimit :: !IsSeparator(text[j])
  }

  /** `String.prototype.indexOf` for a single code unit: the first index holding `u`, or -1. */
  function IndexOf(text: Text, u: CodeUnit): (r: int)
    ensures -1 <= r < |text|
    ensures r == -1 <==> u !in text
    ensures r >= 0 ==> text[r] == u && forall j | 0 <= j < r :: text[j] != u
  {
    if |text| == 0 then -1
    else if text[0] == u then 0
    else
      var k := IndexOf(text[1..], u);
      assert forall j | 1 <= j < |text| :: text[j] == text[1..][j - 1];
      if k == -1 then -1 else k + 1
  }

  /** The earliest index holding either separator, defined independently of IndexOf. */
  function FirstSeparator(text: Text): (r: Option<nat>)
    ensures r.None? <==> forall j | 0 <= j < |text| :: !IsSeparator(text[j])
    ensures r.Some? ==> r.value < |text| && IsSeparator(text[r.value]) &&
                        forall j | 0 <= j < r.value :: !IsSeparator(text[j])
  {
    if |text| == 0 then None
    else if IsSeparator(text[0]) then Some(0)
    else
      assert forall j | 1 <= j < |text| :: text[j] == text[1..][j - 1];
      match FirstSeparator(text[1..])
      case None => None
      case Some(k) => Some(k + 1)
  }

  /** An index holding a separator with none before it is the earliest separator. */
  lemma FirstSeparatorUnique(text: Text, i: nat)
    requires i < |text| && IsSeparator(text[i])
    requires forall j | 0 <= j < i :: !IsSeparator(text[j])
    ensures FirstSeparator(text) == Some(i)
  {
  }

  /** The specification of the splitter. */
  function Parse(text: Text): Detail
  {
    match FirstSeparator(text)
    case Some(i) =>
      if i < LabelLimit then Labelled(text[..i], text[i], text[i + 1..]) else Plain(text)
    case None => Plain(text)
  }

  /** `renderDetailText` as written: one indexOf per separator, keeping the smaller index found. */
  method RenderDetailText(text: Text) returns (d: Detail)
    ensures d == Parse(text)
  {
    var splitIndex := -1;
    var separatorUsed: Text := [];
    for k := 0 to |Separators|
      invariant -1 <= splitIndex < |text|
      invariant splitIndex == -1 ==> separatorUsed == []
      invariant splitIndex != -1 ==> separatorUsed == [text[splitIndex]] && text[splitIndex] in Separators[..k]
      invariant forall j | 0 <= j < (if splitIndex == -1 then |text| else splitIndex) :: text[j] !in Separators[..k]
    {
      var sep := Separators[k];
      var idx := IndexOf(text, sep);
      if idx != -1 {
        if splitIndex == -1 || idx < splitIndex {
          splitIndex := idx;
          separatorUsed := [sep];
        }
      }
    }
    assert Separators[..|Separators|] == Separators;
    if splitIndex == -1 {
      assert FirstSeparator(text) == None;
    } else {
      FirstSeparatorUnique(text, splitIndex);
    }
    if splitIndex != -1 && splitIndex < LabelLimit {
      var title := text[..splitIndex];
      var value := text[splitIndex + 1..];
      d := Labelled(title, separatorUsed[0], value);
    } else {
      d := Plain(text);
    }
  }

  /** Label, separator and value put back together give the original line. */
  lemma ShownParse(text: Text)
    ensures Shown(Parse(text)) == text
    ensures WellFormed(Parse(text))
  {
  }

  /** Conversely, every rendering the splitter can produce is what it produces for the text it shows. */
  lemma ParseShown(d: Detail)
    requires WellFormed(d)
    ensures Parse(Shown(d)) == d
  {
    match d
    case Labelled(title, sep, value) =>
      var text := title + [sep] + value;
      assert text[|title|] == sep;
      assert forall j | 0 <= j < |title| :: text[j] == title[j];
      FirstSeparatorUnique(text, |title|);
      assert text[..|title|] == title;
      assert text[|title| + 1..] == value;
    case Plain(text) =>
      match FirstSeparator(text)
      case Some(i) =>
      case None =>
  }

  /** A line is split exactly when one of its first LabelLimit code units is a separator. */
  lemma ParsePlainIff(text: Text)
    ensures Parse(text).Plain? <==> forall j | 0 <= j < |text| && j < LabelLimit :: !IsSeparator(text[j])
    ensures Parse(text).Plain? ==> Parse(text).text == text
  {
  }

  /** In the split case the label is the text before the earliest separator, shorter than LabelLimit and free of separators. */
  lemma ParseLabelled(text: Text)
    requires Parse(text).Labelled?
    ensures var d := Parse(text);
      |d.title| < LabelLimit && FirstSeparator(text) == Some(|d.title|) &&
      d.separator == text[|d.title|] && IsSeparator(d.separator) &&
      d.title == text[..|d.title|] && d.value == text[|d.title| + 1..] &&
      forall j | 0 <= j < |d.title| :: !IsSeparator(d.title[j])
  {
  }

  /** The UTF-16 encoding of one character: one code unit in the Basic Multilingual Plane, a surrogate pair above it. */
  function Encode(c: char): (r: Text)
    ensures 1 <= |r| <= 2
    ensures |r| == 1 <==> c as int < 0x1_0000
  {
    if c as int < 0x1_0000 then [c as int as CodeUnit]
    else
      var v := c as int - 0x1_0000;
      [(0xD800 + v / 0x400) as CodeUnit, (0xDC00 + v % 0x400) as CodeUnit]
  }

  /** A Dafny string as the JavaScript string holding the same characters. */
  function Utf16(s: string): Text
  {
    if s == [] then [] else Encode(s[0]) + Utf16(s[1..])
  }

  lemma {:induction false} Utf16Append(a: string, b: string)
    ensures Utf16(a + b) == Utf16(a) + Utf16(b)
  {
    if a == [] {
      assert a + b == b;
    } else {
      assert (a + b)[1..] == a[1..] + b;
      Utf16Append(a[1..], b);
    }
  }

  /** Text of Basic Multilingual Plane characters has one code unit per character. */
  lemma {:induction false} Utf16Bmp(s: string)
    requires forall i | 0 <= i < |s| :: s[i] as int < 0x1_0000
    ensures |Utf16(s)| == |s|
    ensures forall i | 0 <= i < |s| :: Utf16(s)[i] as int == s[i] as int
  {
    if s != [] {
      Utf16Bmp(s[1..]);
    }
  }

  /** A string without either colon character encodes to code units none of which is a separator. */
  lemma {:induction false} Utf16NoSeparator(s: string)
    requires ':' !in s && '：' !in s
    ensures forall j | 0 <= j < |Utf16(s)| :: !IsSeparator(Utf16(s)[j])
  {
    if s != [] {
      assert s[0] != ':' && s[0] != '：';
      Utf16NoSeparator(s[1..]);
      assert Utf16(s) == Encode(s[0]) + Utf16(s[1..]);
    }
  }

  /** Only the first LabelLimit code units decide whether a line is split: appending text keeps the split... */
  lemma {:induction false} ParseExtendLabelled(text: Text, rest: Text)
    requires Parse(text).Labelled?
    ensures var d := Parse(text);
            Parse(text + rest) == Labelled(d.title, d.separator, d.value + rest)
  {
    var d := Parse(text);
    ShownParse(text);
    var e := Labelled(d.title, d.separator, d.value + rest);
    assert Shown(e) == text + rest;
    ParseShown(e);
  }

  /** ...and appending to a line whose first LabelLimit units hold no separator keeps it plain. */
  lemma {:induction false} ParseExtendPlain(text: Text, rest: Text)
    requires |text| >= LabelLimit && Parse(text).Plain?
    ensures Parse(text + rest) == Plain(text + rest)
  {
  }

  /** A line of BMP characters whose colon-free label of fewer than LabelLimit characters is followed by a colon is split there. */
  lemma LabelledLine(title: string, sep: char, rest: string)
    requires |title| < LabelLimit && ':' !in title && '：' !in title
    requires forall i | 0 <= i < |title| :: title[i] as int < 0x1_0000
    requires sep == ':' || sep == '：'
    ensures Parse(Utf16(title + [sep] + rest)) == Labelled(Utf16(title), sep as int as CodeUnit, Utf16(rest))
  {
    var head := title + [sep];
    Utf16Append(title, [sep]);
    Utf16Append(head, rest);
    Utf16Bmp(title);
    Utf16NoSeparator(title);
    var d := Labelled(Utf16(title), sep as int as CodeUnit, []);
    assert Utf16([sep]) == [sep as int as CodeUnit];
    assert Shown(d) == Utf16(head);
    ParseShown(d);
    ParseExtendLabelled(Utf16(head), Utf16(rest));
  }

  /** The Chinese master's detail line, "研究方向：…", is split after its four-character label at the full-width colon, whatever follows. */
  lemma ChineseFocusLine(rest: string)
    ensures Parse(Utf16("研究方向：" + rest)) == Labelled(Utf16("研究方向"), FullWidthColon, Utf16(rest))
  {
    assert "研究方向：" == "研究方向" + ['：'];
    LabelledLine("研究方向", '：', rest);
  }

  /** The English master's detail line, "Focus: …", is split after "Focus" at the ASCII colon, whatever follows. */
  lemma EnglishFocusLine(rest: string)
    ensures Parse(Utf16("Focus:" + rest)) == Labelled(Utf16("Focus"), Colon, Utf16(rest))
  {
    assert "Focus:" == "Focus" + [':'];
    LabelledLine("Focus", ':', rest);
  }

  /** A line whose first LabelLimit characters are colon-free BMP characters is rendered unchanged. */
  lemma PlainLine(head: string, rest: string)
    requires |head| == LabelLimit && ':' !in head && '：' !in head
    requires forall i | 0 <= i < |head| :: head[i] as int < 0x1_0000
    ensures Parse(Utf16(head + rest)) == Plain(Utf16(head + rest))
  {
    Utf16Append(head, rest);
    Utf16Bmp(head);
    Utf16NoSeparator(head);
    ParsePlainIff(Utf16(head));
    ParseExtendPlain(Utf16(head), Utf16(rest));
  }

  /** The English bachelor's detail line, "Top 10% Academic Performance; …", has no colon in its first twenty units and is rendered unchanged, whatever follows them. */
  lemma EnglishRankLine(rest: string)
    ensures var t := Utf16("Top 10% Academic Per" + rest);
            Parse(t) == Plain(t)
  {
    PlainLine("Top 10% Academic Per", rest);
  }
}
