/** The overlay configuration and its text form. */
module ConfigText {
  import opened Common
  import opened Numerals

  const MIN_FONT_SIZE: int := 14
  const MAX_FONT_SIZE: int := 64
  const MAX_MARGIN: int := 240
  const COLORS: int := 0x100_0000

  datatype Corner = TopLeft | TopRight | BottomLeft | BottomRight

  datatype OverlayConfig = OverlayConfig(corner: Corner, fontSize: int, marginX: int, marginY: int,
                                         showLabel: bool, labelColor: nat, valueColor: nat)

  const DEFAULT: OverlayConfig := OverlayConfig(BottomLeft, 22, 10, 4, true, 0xB366FF, 0xFFFFFF)

  predicate AsNear(v: int, r: int, x: int)
  {
    Abs(v - r) <= Abs(v - x)
  }

  /** The nearest value in range. */
  function Clamp(v: int, low: int, high: int): (r: int)
    requires low <= high
    ensures low <= r <= high && forall x :: low <= x <= high ==> AsNear(v, r, x)
  {
    if v < low then low else if v > high then high else v
  }

  predicate IsSane(c: OverlayConfig)
  {
    && 14 <= c.fontSize <= 64 && 0 <= c.marginX <= 240 && 0 <= c.marginY <= 240
    && c.labelColor < 0x100_0000 && c.valueColor < 0x100_0000
  }

  /** `sanitize_config`. */
  function Sanitize(c: OverlayConfig): (s: OverlayConfig)
    ensures IsSane(s) && (IsSane(c) ==> s == c)
  {
    OverlayConfig(c.corner, Clamp(c.fontSize, MIN_FONT_SIZE, MAX_FONT_SIZE), Clamp(c.marginX, 0, MAX_MARGIN),
                  Clamp(c.marginY, 0, MAX_MARGIN), c.showLabel, c.labelColor % COLORS, c.valueColor % COLORS)
  }

  // ---------- Hexadecimal numerals ----------

  function HexChar(d: nat): char
    requires d < 16
  {
    if d < 10 then '0' + d as char else 'A' + (d - 10) as char
  }

  /** `hex`: the value of a hexadecimal digit, or -1. */
  function HexDigit(c: char): (d: int)
    ensures -1 <= d < 16
  {
    if '0' <= c <= '9' then c as int - '0' as int
    else if 'a' <= c <= 'f' then c as int - 'a' as int + 10
    else if 'A' <= c <= 'F' then c as int - 'A' as int + 10
    else -1
  }

  /** The last `n` hexadecimal digits of `v`, in upper case. */
  function HexText(n: nat, v: nat): (s: string)
    ensures |s| == n && forall i :: 0 <= i < n ==> HexDigit(s[i]) >= 0
    decreases n, v
  {
    if n == 0 then "" else HexText(n - 1, v / 16) + [HexChar(v % 16)]
  }

  predicate IsHex(s: string)
  {
    forall i :: 0 <= i < |s| ==> HexDigit(s[i]) >= 0
  }

  function HexValue(s: string): nat
    requires IsHex(s)
  {
    if s == "" then 0 else HexValue(s[..|s| - 1]) * 16 + HexDigit(s[|s| - 1])
  }

  function Pow16(n: nat): (p: nat)
    ensures p > 0
  {
    if n == 0 then 1 else 16 * Pow16(n - 1)
  }

  lemma OneMoreDigit(s: string, d: nat)
    requires IsHex(s) && d < 16
    ensures IsHex(s + [HexChar(d)]) && HexValue(s + [HexChar(d)]) == HexValue(s) * 16 + d
  {
    var t := s + [HexChar(d)];
    assert t[..|s|] == s && HexDigit(t[|s|]) == d;
  }

  lemma {:induction false} HexRoundTrip(n: nat, v: nat)
    requires v < Pow16(n)
    ensures HexValue(HexText(n, v)) == v
    decreases n, v
  {
    if n > 0 {
      HexRoundTrip(n - 1, v / 16);
      OneMoreDigit(HexText(n - 1, v / 16), v % 16);
    }
  }

  /** `c` in lower case and `d` in upper case are the same hexadecimal digit. */
  predicate SameDigit(c: char, d: char)
  {
    c == d || ('a' <= c <= 'f' && d as int == c as int - 32) || ('A' <= c <= 'F' && d as int == c as int + 32)
  }

  /** Upper and lower case read alike, digit by digit. */
  lemma {:induction false} HexCaseReadsAlike(s: string, t: string)
    requires |s| == |t| && forall i :: 0 <= i < |s| ==> SameDigit(s[i], t[i])
    ensures IsHex(s) <==> IsHex(t)
    ensures IsHex(s) ==> HexValue(s) == HexValue(t)
  {
    forall i | 0 <= i < |s| ensures HexDigit(s[i]) == HexDigit(t[i]) {
      assert SameDigit(s[i], t[i]);
    }
    if s != "" {
      HexCaseReadsAlike(s[..|s| - 1], t[..|t| - 1]);
    }
  }

  lemma {:induction false} HexBound(s: string)
    requires IsHex(s)
    ensures HexValue(s) < Pow16(|s|)
  {
    if s != "" {
      HexBound(s[..|s| - 1]);
    }
  }

  // ---------- Parsing ----------

  predicate IsSpace(c: char)
  {
    c == ' ' || '\t' <= c <= '\r'
  }

  function TrimLeft(s: string): (r: string)
    ensures |r| <= |s|
  {
    if s != "" && IsSpace(s[0]) then TrimLeft(s[1..]) else s
  }

  function TrimRight(s: string): (r: string)
    ensures |r| <= |s|
  {
    if s != "" && IsSpace(s[|s| - 1]) then TrimRight(s[..|s| - 1]) else s
  }

  function Trim(s: string): string
  {
    TrimRight(TrimLeft(s))
  }

  /** Where `c` first occurs, or the length. */
  function IndexOf(s: string, c: char): (i: nat)
    ensures i <= |s| && (i < |s| ==> s[i] == c) && forall j :: 0 <= j < i ==> s[j] != c
  {
    if s == "" || s[0] == c then 0 else 1 + IndexOf(s[1..], c)
  }

  lemma IndexIs(s: string, c: char, i: nat)
    requires i < |s| && s[i] == c && forall j :: 0 <= j < i ==> s[j] != c
    ensures IndexOf(s, c) == i
  {
  }

  function ParseCorner(value: string): Corner
  {
    if value == "top_left" then TopLeft
    else if value == "top_right" then TopRight
    else if value == "bottom_right" then BottomRight
    else BottomLeft
  }

  function CornerName(c: Corner): string
  {
    match c
    case TopLeft => "top_left"
    case TopRight => "top_right"
    case BottomRight => "bottom_right"
    case BottomLeft => "bottom_left"
  }

  /** `parse_color`: six digits after an optional hash, else the colour stays. */
  function ParseColor(text: string, color: nat): nat
  {
    var digits := if text != "" && text[0] == '#' then text[1..] else text;
    if |digits| == 6 && IsHex(digits) then HexValue(digits) else color
  }

  /** The C library's `strtof` on a whole text, where it gives a finite number. */
  type Strtof = string -> Option<int>

  ghost predicate ReadsNumerals(strtof: Strtof)
  {
    forall n: nat :: n <= MAX_MARGIN ==> strtof(Decimal(n)) == Some(n)
  }

  function ApplyField(strtof: Strtof, key: string, value: string, c: OverlayConfig): OverlayConfig
  {
    if key == "corner" then c.(corner := ParseCorner(value))
    else if key == "font_size" then
      match strtof(value) case None => c case Some(v) => c.(fontSize := Clamp(v, MIN_FONT_SIZE, MAX_FONT_SIZE))
    else if key == "margin_x" then match strtof(value) case None => c case Some(v) => c.(marginX := v)
    else if key == "margin_y" then match strtof(value) case None => c case Some(v) => c.(marginY := v)
    else if key == "show_label" then
      if value == "0" || value == "false" then c.(showLabel := false)
      else if value == "1" || value == "true" then c.(showLabel := true)
      else c
    else if key == "label_color" then c.(labelColor := ParseColor(value, c.labelColor))
    else if key == "value_color" then c.(valueColor := ParseColor(value, c.valueColor))
    else c
  }

  predicate IsIgnored(line: string)
  {
    line == "" || line[0] == '#' || line[0] == ';' || line[0] == '['
  }

  function ApplyLine(strtof: Strtof, raw: string, c: OverlayConfig): OverlayConfig
  {
    var line := Trim(raw);
    var at := IndexOf(line, '=');
    if IsIgnored(line) || at == |line| then c
    else ApplyField(strtof, Trim(line[..at]), Trim(line[at + 1..]), c)
  }

  /** The first line, and what follows its end. */
  function FirstLine(text: string): string
  {
    text[..IndexOf(text, '\n')]
  }

  function AfterLine(text: string): (rest: string)
    ensures text != "" ==> |rest| < |text|
  {
    var i := IndexOf(text, '\n');
    if i < |text| then text[i + 1..] else ""
  }

  function ApplyLines(strtof: Strtof, text: string, c: OverlayConfig): OverlayConfig
    decreases |text|
  {
    if text == "" then c else ApplyLines(strtof, AfterLine(text), ApplyLine(strtof, FirstLine(text), c))
  }

  function Parse(strtof: Strtof, text: string): (c: OverlayConfig)
    ensures IsSane(c)
  {
    Sanitize(ApplyLines(strtof, text, DEFAULT))
  }

  method TrimText(value: string) returns (r: string)
    ensures r == Trim(value)
  {
    r := value;
    while r != "" && IsSpace(r[0])
      invariant TrimLeft(r) == TrimLeft(value)
      decreases |r|
    {
      r := r[1..];
    }
    while r != "" && IsSpace(r[|r| - 1])
      invariant TrimRight(r) == Trim(value)
      decreases |r|
    {
      r := r[..|r| - 1];
    }
  }

  /** `parse_config_text`. */
  method ParseConfigText(strtof: Strtof, text: string) returns (c: OverlayConfig)
    ensures c == Parse(strtof, text)
  {
    var cfg, rest := DEFAULT, text;
    while rest != ""
      invariant ApplyLines(strtof, rest, cfg) == ApplyLines(strtof, text, DEFAULT)
      decreases |rest|
    {
      var line := TrimText(FirstLine(rest));
      var at := IndexOf(line, '=');
      if !IsIgnored(line) && at < |line| {
        var key := TrimText(line[..at]);
        var value := TrimText(line[at + 1..]);
        cfg := ApplyField(strtof, key, value, cfg);
      }
      rest := AfterLine(rest);
    }
    c := Sanitize(cfg);
  }

  // ---------- Printing ----------

  function Entry(key: string, value: string): string
  {
    key + "=" + value + "\n"
  }

  function ColorText(color: nat): string
  {
    "#" + HexText(6, color % COLORS)
  }

  function ColorEntries(c: OverlayConfig): string
  {
    Entry("label_color", ColorText(c.labelColor)) + Entry("value_color", ColorText(c.valueColor))
  }

  function LookEntries(c: OverlayConfig): string
  {
    Entry("show_label", ShownText(c.showLabel)) + ColorEntries(c)
  }

  function PlaceEntries(c: OverlayConfig): string
    requires c.marginX >= 0 && c.marginY >= 0
  {
    Entry("margin_x", Decimal(c.marginX)) + (Entry("margin_y", Decimal(c.marginY)) + LookEntries(c))
  }

  /** `serialize_config`. */
  function Serialize(c: OverlayConfig): string
    requires c.fontSize >= 0 && c.marginX >= 0 && c.marginY >= 0
  {
    "[overlay]\n" + (Entry("corner", CornerName(c.corner)) + (Entry("font_size", Decimal(c.fontSize)) + PlaceEntries(c)))
  }

  // ---------- Round trip ----------

  /** No white space and no equals sign: nothing that parsing would cut at. */
  predicate IsPlain(s: string)
  {
    s != "" && forall i :: 0 <= i < |s| ==> !IsSpace(s[i]) && s[i] != '='
  }

  /** White space within a line, the carriage return of a foreign line end included. */
  predicate IsBlank(s: string)
  {
    forall i :: 0 <= i < |s| ==> IsSpace(s[i]) && s[i] != '\n'
  }

  lemma {:induction false} TrimBlanks(before: string, s: string, after: string)
    requires IsBlank(before) && IsBlank(after)
    requires s != "" && !IsSpace(s[0]) && !IsSpace(s[|s| - 1])
    ensures Trim(before + s + after) == s
    decreases |before|, |after|
  {
    var text := before + s + after;
    if before != "" {
      assert IsSpace(text[0]) && text[1..] == before[1..] + s + after;
      TrimBlanks(before[1..], s, after);
    } else if after != "" {
      var fewer := after[..|after| - 1];
      assert TrimLeft(text) == text && TrimLeft(s + fewer) == s + fewer;
      assert IsSpace(text[|text| - 1]) && text[..|text| - 1] == s + fewer;
      assert before + s + fewer == s + fewer;
      TrimBlanks(before, s, fewer);
    } else {
      assert text == s;
    }
  }

  /** A whole line, whatever follows it. */
  lemma LineIsApplied(strtof: Strtof, raw: string, rest: string, config: OverlayConfig)
    requires forall i :: 0 <= i < |raw| ==> raw[i] != '\n'
    ensures ApplyLines(strtof, raw + "\n" + rest, config) == ApplyLines(strtof, rest, ApplyLine(strtof, raw, config))
  {
    var text := raw + "\n" + rest;
    IndexIs(text, '\n', |raw|);
    assert FirstLine(text) == raw && AfterLine(text) == rest;
  }

  lemma AssignmentIsCut(key: string, b: string, c: string, value: string)
    requires IsPlain(key) && IsPlain(value) && IsBlank(b) && IsBlank(c)
    ensures var line, at := key + b + "=" + c + value, |key| + |b|;
            IndexOf(line, '=') == at && Trim(line[..at]) == key && Trim(line[at + 1..]) == value
  {
    var line, at := key + b + "=" + c + value, |key| + |b|;
    IndexIs(line, '=', at);
    TrimBlanks("", key, b);
    assert line[..at] == "" + key + b;
    TrimBlanks(c, value, "");
    assert line[at + 1..] == c + value + "";
  }

  /** Blanks around a key, an equals sign and a value do not matter. */
  lemma PaddedEntryIsRead(strtof: Strtof, a: string, key: string, b: string, c: string, value: string, d: string,
                          config: OverlayConfig)
    requires IsBlank(a) && IsBlank(b) && IsBlank(c) && IsBlank(d)
    requires IsPlain(key) && IsPlain(value) && !IsIgnored(key)
    ensures ApplyLine(strtof, a + (key + b + "=" + c + value) + d, config) == ApplyField(strtof, key, value, config)
  {
    var line := key + b + "=" + c + value;
    assert line[0] == key[0] && line[|line| - 1] == value[|value| - 1];
    TrimBlanks(a, line, d);
    AssignmentIsCut(key, b, c, value);
  }

  lemma EntryIsLine(key: string, value: string, rest: string)
    ensures "" + (key + "" + "=" + "" + value) + "" == key + "=" + value
    ensures Entry(key, value) + rest == (key + "=" + value) + "\n" + rest
  {
  }

  /** A printed entry is read as one assignment. */
  lemma EntryIsRead(strtof: Strtof, key: string, value: string, rest: string, c: OverlayConfig)
    requires IsPlain(key) && IsPlain(value) && !IsIgnored(key)
    ensures ApplyLines(strtof, Entry(key, value) + rest, c) == ApplyLines(strtof, rest, ApplyField(strtof, key, value, c))
  {
    PaddedEntryIsRead(strtof, "", key, "", "", value, "", c);
    LineIsApplied(strtof, key + "=" + value, rest, c);
    EntryIsLine(key, value, rest);
  }

  lemma DecimalIsPlain(n: nat)
    ensures IsPlain(Decimal(n))
  {
  }

  lemma SixDigitsAreRead(digits: string, color: nat)
    requires |digits| == 6 && IsHex(digits)
    ensures IsPlain("#" + digits) && ParseColor("#" + digits, color) == HexValue(digits)
  {
    assert ("#" + digits)[1..] == digits;
  }

  /** Six digits hold every colour. */
  lemma ColorDigits(v: nat)
    requires v < COLORS
    ensures HexValue(HexText(6, v)) == v
  {
    assert Pow16(6) == COLORS;
    HexRoundTrip(6, v);
  }

  lemma LowColor(v: nat)
    requires v < COLORS
    ensures v % COLORS == v
  {
  }

  lemma ColorIsRead(v: nat, color: nat)
    requires v < COLORS
    ensures IsPlain(ColorText(v)) && ParseColor(ColorText(v), color) == v
  {
    ColorDigits(v % COLORS);
    SixDigitsAreRead(HexText(6, v % COLORS), color);
    LowColor(v);
  }

  lemma KeysArePlain()
    ensures IsPlain("corner") && !IsIgnored("corner") && IsPlain("font_size") && !IsIgnored("font_size")
    ensures IsPlain("margin_x") && !IsIgnored("margin_x") && IsPlain("margin_y") && !IsIgnored("margin_y")
    ensures IsPlain("show_label") && !IsIgnored("show_label")
    ensures IsPlain("label_color") && !IsIgnored("label_color") && IsPlain("value_color") && !IsIgnored("value_color")
  {
  }

  lemma HeaderIsSkipped(strtof: Strtof, rest: string, c: OverlayConfig)
    ensures ApplyLines(strtof, "[overlay]\n" + rest, c) == ApplyLines(strtof, rest, c)
  {
    var text := "[overlay]\n" + rest;
    IndexIs(text, '\n', 9);
    assert FirstLine(text) == "[overlay]" && AfterLine(text) == rest;
    assert Trim("[overlay]") == "[overlay]";
  }

  lemma CornerIsRead(corner: Corner)
    ensures IsPlain(CornerName(corner)) && ParseCorner(CornerName(corner)) == corner
  {
  }

  lemma ColorTextsAreRead(strtof: Strtof, t: string, u: string, d: OverlayConfig)
    requires IsPlain(t) && IsPlain(u)
    ensures ApplyLines(strtof, Entry("label_color", t) + Entry("value_color", u), d) ==
            d.(labelColor := ParseColor(t, d.labelColor), valueColor := ParseColor(u, d.valueColor))
  {
    KeysArePlain();
    var last := Entry("value_color", u);
    EntryIsRead(strtof, "label_color", t, last, d);
    assert last == last + "";
    EntryIsRead(strtof, "value_color", u, "", d.(labelColor := ParseColor(t, d.labelColor)));
  }

  lemma ColorsAreRead(strtof: Strtof, c: OverlayConfig, d: OverlayConfig)
    requires IsSane(c)
    ensures ApplyLines(strtof, ColorEntries(c), d) == d.(labelColor := c.labelColor, valueColor := c.valueColor)
  {
    ColorIsRead(c.labelColor, d.labelColor);
    ColorIsRead(c.valueColor, d.valueColor);
    ColorTextsAreRead(strtof, ColorText(c.labelColor), ColorText(c.valueColor), d);
  }

  function ShownText(shown: bool): string
  {
    if shown then "1" else "0"
  }

  function ShownWord(shown: bool): string
  {
    if shown then "true" else "false"
  }

  /** Digits and words switch the label alike; any other value leaves it. */
  lemma ShownIsApplied(strtof: Strtof, shown: bool, value: string, d: OverlayConfig)
    ensures IsPlain(ShownText(shown)) && IsPlain(ShownWord(shown))
    ensures value == ShownText(shown) || value == ShownWord(shown) ==>
              ApplyField(strtof, "show_label", value, d) == d.(showLabel := shown)
    ensures (forall b :: value != ShownText(b) && value != ShownWord(b)) ==>
              ApplyField(strtof, "show_label", value, d) == d
  {
    assert ShownText(true) == "1" && ShownText(false) == "0";
    assert ShownWord(true) == "true" && ShownWord(false) == "false";
  }

  lemma LooksAreRead(strtof: Strtof, c: OverlayConfig, d: OverlayConfig)
    requires IsSane(c)
    ensures ApplyLines(strtof, LookEntries(c), d) ==
            d.(showLabel := c.showLabel, labelColor := c.labelColor, valueColor := c.valueColor)
  {
    KeysArePlain();
    ShownIsApplied(strtof, c.showLabel, ShownText(c.showLabel), d);
    EntryIsRead(strtof, "show_label", ShownText(c.showLabel), ColorEntries(c), d);
    ColorsAreRead(strtof, c, d.(showLabel := c.showLabel));
  }

  lemma NumberIsApplied(strtof: Strtof, n: nat, d: OverlayConfig)
    requires ReadsNumerals(strtof) && n <= MAX_MARGIN
    ensures ApplyField(strtof, "margin_x", Decimal(n), d) == d.(marginX := n)
    ensures ApplyField(strtof, "margin_y", Decimal(n), d) == d.(marginY := n)
  {
  }

  lemma PlacesAreRead(strtof: Strtof, c: OverlayConfig, d: OverlayConfig)
    requires ReadsNumerals(strtof) && IsSane(c)
    ensures ApplyLines(strtof, PlaceEntries(c), d) == c.(corner := d.corner, fontSize := d.fontSize)
  {
    KeysArePlain();
    DecimalIsPlain(c.marginX);
    DecimalIsPlain(c.marginY);
    var looks, d1 := LookEntries(c), d.(marginX := c.marginX);
    NumberIsApplied(strtof, c.marginX, d);
    NumberIsApplied(strtof, c.marginY, d1);
    EntryIsRead(strtof, "margin_x", Decimal(c.marginX), Entry("margin_y", Decimal(c.marginY)) + looks, d);
    EntryIsRead(strtof, "margin_y", Decimal(c.marginY), looks, d1);
    LooksAreRead(strtof, c, d1.(marginY := c.marginY));
  }

  /** Printing a sane configuration and reading it back gives it again. */
  lemma ParseAfterSerialize(strtof: Strtof, c: OverlayConfig)
    requires ReadsNumerals(strtof) && IsSane(c)
    ensures Parse(strtof, Serialize(c)) == c
  {
    KeysArePlain();
    var sized := Entry("font_size", Decimal(c.fontSize)) + PlaceEntries(c);
    HeaderIsSkipped(strtof, Entry("corner", CornerName(c.corner)) + sized, DEFAULT);
    CornerIsRead(c.corner);
    EntryIsRead(strtof, "corner", CornerName(c.corner), sized, DEFAULT);
    var d := DEFAULT.(corner := c.corner);
    DecimalIsPlain(c.fontSize);
    EntryIsRead(strtof, "font_size", Decimal(c.fontSize), PlaceEntries(c), d);
    PlacesAreRead(strtof, c, d.(fontSize := c.fontSize));
  }

  /** A printed configuration is far below the size that is read back. */
  lemma SerializeIsShort(c: OverlayConfig)
    requires IsSane(c)
    ensures |Serialize(c)| <= 160
  {
    assert Pow10(3) == 1000;
    DecimalLength(c.fontSize, 3);
    DecimalLength(c.marginX, 3);
    DecimalLength(c.marginY, 3);
  }
}
