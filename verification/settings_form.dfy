/** Reading the settings form that the settings page posts. */
module SettingsForm {
  import opened Common
  import opened ConfigText
  import opened Numerals

  const MAX_BODY: nat := 512

  // ---------- Percent-encoding (section 2.1 of RFC 3986, with `+` for a space) ----------

  predicate IsPrintable(c: char)
  {
    ' ' <= c <= '~'
  }

  /** The first character of a non-empty text, decoded, and how much of the text it took. */
  function FirstDecoded(s: string): Option<(char, nat)>
    requires s != ""
  {
    if s[0] == '%' then
      if |s| < 3 || HexDigit(s[1]) < 0 || HexDigit(s[2]) < 0 then None
      else Some(((HexDigit(s[1]) * 16 + HexDigit(s[2])) as char, 3))
    else Some((if s[0] == '+' then ' ' else s[0], 1))
  }

  function Prepend(s: string, r: Option<string>): Option<string>
  {
    if r.None? then None else Some(s + r.value)
  }

  function Unescape(s: string): (r: Option<string>)
    ensures r.Some? ==> forall i :: 0 <= i < |r.value| ==> IsPrintable(r.value[i])
    decreases |s|
  {
    if s == "" then Some("") else
    var first := FirstDecoded(s);
    if first.None? || !IsPrintable(first.value.0) then None else
    Prepend([first.value.0], Unescape(s[first.value.1..]))
  }

  lemma NothingPrepended(r: Option<string>)
    ensures Prepend("", r) == r
  {
    if r.Some? {
      assert "" + r.value == r.value;
    }
  }

  lemma PrependedTwice(s: string, t: string, r: Option<string>)
    ensures Prepend(s, Prepend(t, r)) == Prepend(s + t, r)
  {
    if r.Some? {
      assert s + (t + r.value) == s + t + r.value;
    }
  }

  /** `unescape`. */
  method UnescapeText(text: string) returns (r: Option<string>)
    ensures r == Unescape(text)
  {
    var result, i := "", 0;
    assert text[0..] == text;
    NothingPrepended(Unescape(text));
    while i < |text|
      invariant i <= |text| && Unescape(text) == Prepend(result, Unescape(text[i..]))
    {
      var c, taken := text[i], 1;
      if c == '%' {
        if i + 2 >= |text| || HexDigit(text[i + 1]) < 0 || HexDigit(text[i + 2]) < 0 {
          return None;
        }
        c, taken := (HexDigit(text[i + 1]) * 16 + HexDigit(text[i + 2])) as char, 3;
      } else if c == '+' {
        c := ' ';
      }
      assert FirstDecoded(text[i..]) == Some((c, taken));
      assert text[i..][taken..] == text[i + taken..];
      if !IsPrintable(c) {
        return None;
      }
      PrependedTwice(result, [c], Unescape(text[i + taken..]));
      result := result + [c];
      i := i + taken;
    }
    assert text[i..] == "" && result + "" == result;
    r := Some(result);
  }

  predicate IsUnreserved(c: char)
  {
    'a' <= c <= 'z' || 'A' <= c <= 'Z' || '0' <= c <= '9' || c == '-' || c == '.' || c == '_' || c == '~'
  }

  /** What a browser sends for one printable character. */
  function EscapeChar(c: char): string
    requires IsPrintable(c)
  {
    if c == ' ' then "+"
    else if IsUnreserved(c) then [c]
    else ['%', HexChar(c as int / 16), HexChar(c as int % 16)]
  }

  function Escape(s: string): string
    requires forall i :: 0 <= i < |s| ==> IsPrintable(s[i])
  {
    if s == "" then "" else EscapeChar(s[0]) + Escape(s[1..])
  }

  lemma EscapedCharDecodes(c: char, rest: string)
    requires IsPrintable(c)
    ensures FirstDecoded(EscapeChar(c) + rest) == Some((c, |EscapeChar(c)|))
  {
  }

  lemma OneMoreChar(text: string, c: char, n: nat, tail: string, decoded: string)
    requires text != "" && n <= |text| && FirstDecoded(text) == Some((c, n)) && IsPrintable(c)
    requires text[n..] == tail && Unescape(tail) == Some(decoded)
    ensures Unescape(text) == Some([c] + decoded)
  {
  }

  /** Whatever printable text a browser encodes is decoded to itself. */
  lemma {:induction false} UnescapeAfterEscape(s: string)
    requires forall i :: 0 <= i < |s| ==> IsPrintable(s[i])
    ensures Unescape(Escape(s)) == Some(s)
  {
    if s != "" {
      var c, tail, code := s[0], Escape(s[1..]), EscapeChar(s[0]);
      UnescapeAfterEscape(s[1..]);
      EscapedCharDecodes(c, tail);
      assert (code + tail)[|code|..] == tail;
      OneMoreChar(code + tail, c, |code|, tail, s[1..]);
      assert [c] + s[1..] == s;
    }
  }

  // ---------- Numbers ----------

  /** The number that a text of one to three digits writes, when it lies in range. */
  function IntegerIn(s: string, low: int, high: int): (r: Option<int>)
    ensures r.Some? ==> low <= r.value <= high
  {
    if s == "" || |s| > 3 || !IsDigits(s) then None else
    var n := DecimalValue(s);
    if n < low || n > high then None else Some(n)
  }

  /** `integer`. */
  method Integer(s: string, low: int, high: int) returns (r: Option<int>)
    ensures r == IntegerIn(s, low, high)
  {
    if s == "" || |s| > 3 {
      return None;
    }
    var n: nat := 0;
    for i := 0 to |s|
      invariant IsDigits(s[..i]) && n == DecimalValue(s[..i])
    {
      if s[i] < '0' || s[i] > '9' {
        return None;
      }
      assert s[..i + 1][..i] == s[..i];
      n := n * 10 + (s[i] as int - '0' as int);
    }
    assert s[..|s|] == s;
    r := if n < low || n > high then None else Some(n);
  }

  // ---------- Fields ----------

  function Split(body: string): (parts: seq<string>)
    ensures parts != []
  {
    var amp := IndexOf(body, '&');
    if amp == |body| then [body] else [body[..amp]] + Split(body[amp + 1..])
  }

  function DecodePart(part: string): Option<(string, string)>
  {
    var eq := IndexOf(part, '=');
    if eq == |part| then None else
    var key, value := Unescape(part[..eq]), Unescape(part[eq + 1..]);
    if key.None? || value.None? then None else Some((key.value, value.value))
  }

  type Fields = map<string, string>

  /** The fields of the parts, in order, on top of those in `m`; none when one is malformed or repeated. */
  function Collect(parts: seq<string>, m: Fields): Option<Fields>
  {
    if parts == [] then Some(m) else
    var field := DecodePart(parts[0]);
    if field.None? || field.value.0 in m then None
    else Collect(parts[1..], m[field.value.0 := field.value.1])
  }

  method ReadPart(part: string) returns (field: Option<(string, string)>)
    ensures field == DecodePart(part)
  {
    var eq := IndexOf(part, '=');
    if eq == |part| {
      return None;
    }
    var key := UnescapeText(part[..eq]);
    var value := UnescapeText(part[eq + 1..]);
    if key.None? || value.None? {
      return None;
    }
    field := Some((key.value, value.value));
  }

  /** The fields loop of `parse_settings_form`. */
  method CollectFields(body: string) returns (r: Option<Fields>)
    requires body != ""
    ensures r == Collect(Split(body), map[])
  {
    var rest, fields: Fields := body, map[];
    while rest != ""
      invariant Collect(Split(rest), fields) == Collect(Split(body), map[])
      decreases |rest|
    {
      var amp := IndexOf(rest, '&');
      assert Split(rest)[0] == rest[..amp];
      var field := ReadPart(rest[..amp]);
      if field.None? || field.value.0 in fields {
        return None;
      }
      fields := fields[field.value.0 := field.value.1];
      if amp == |rest| {
        assert Split(rest)[1..] == [];
        return Some(fields);
      }
      assert Split(rest)[1..] == Split(rest[amp + 1..]);
      rest := rest[amp + 1..];
      if rest == "" {
        return None;
      }
    }
    r := None;
  }

  // ---------- The configuration ----------

  predicate HasAllKeys(m: Fields)
  {
    && "corner" in m && "font_size" in m && "margin_x" in m && "margin_y" in m && "show_label" in m
    && "label_color" in m && "value_color" in m
  }

  function FormCorner(value: string): Option<Corner>
  {
    if value == "top_left" then Some(TopLeft)
    else if value == "top_right" then Some(TopRight)
    else if value == "bottom_left" then Some(BottomLeft)
    else if value == "bottom_right" then Some(BottomRight)
    else None
  }

  function FormColor(value: string): Option<nat>
  {
    if |value| == 7 && value[0] == '#' && IsHex(value[1..]) then Some(HexValue(value[1..])) else None
  }

  function ConfigOf(m: Fields): Option<OverlayConfig>
  {
    if |m| != 7 || !HasAllKeys(m) then None else
    var corner, size := FormCorner(m["corner"]), IntegerIn(m["font_size"], MIN_FONT_SIZE, MAX_FONT_SIZE);
    var x, y := IntegerIn(m["margin_x"], 0, MAX_MARGIN), IntegerIn(m["margin_y"], 0, MAX_MARGIN);
    var shown := IntegerIn(m["show_label"], 0, 1);
    var labelColor, valueColor := FormColor(m["label_color"]), FormColor(m["value_color"]);
    if corner.None? || size.None? || x.None? || y.None? || shown.None? || labelColor.None? || valueColor.None? then None
    else Some(OverlayConfig(corner.value, size.value, x.value, y.value, shown.value != 0, labelColor.value, valueColor.value))
  }

  function ParseForm(body: string): Option<OverlayConfig>
  {
    if body == "" || |body| > 512 then None else
    var fields := Collect(Split(body), map[]);
    if fields.None? then None else ConfigOf(fields.value)
  }

  /** `parse_settings_form`. */
  method ParseSettingsForm(body: string) returns (r: Option<OverlayConfig>)
    ensures r == ParseForm(body)
  {
    if body == "" || |body| > MAX_BODY {
      return None;
    }
    var fields := CollectFields(body);
    if fields.None? {
      return None;
    }
    var m := fields.value;
    if |m| != 7 || !HasAllKeys(m) {
      return None;
    }
    var corner := FormCorner(m["corner"]);
    if corner.None? {
      return None;
    }
    var size := Integer(m["font_size"], MIN_FONT_SIZE, MAX_FONT_SIZE);
    var x := Integer(m["margin_x"], 0, MAX_MARGIN);
    var y := Integer(m["margin_y"], 0, MAX_MARGIN);
    var shown := Integer(m["show_label"], 0, 1);
    if size.None? || x.None? || y.None? || shown.None? {
      return None;
    }
    var labelColor, valueColor := FormColor(m["label_color"]), FormColor(m["value_color"]);
    if labelColor.None? || valueColor.None? {
      return None;
    }
    r := Some(OverlayConfig(corner.value, size.value, x.value, y.value, shown.value != 0,
                            labelColor.value, valueColor.value));
  }

  lemma FormColorIsColor(value: string)
    ensures FormColor(value).Some? ==> FormColor(value).value < COLORS
  {
    if FormColor(value).Some? {
      HexBound(value[1..]);
      assert Pow16(6) == COLORS;
    }
  }

  /** An accepted form needs no sanitizing. */
  lemma AcceptedIsSane(body: string)
    ensures ParseForm(body).Some? ==> IsSane(ParseForm(body).value)
  {
    var parsed := ParseForm(body);
    if parsed.Some? {
      var m := Collect(Split(body), map[]).value;
      FormColorIsColor(m["label_color"]);
      FormColorIsColor(m["value_color"]);
    }
  }

  // ---------- The order of the fields does not matter ----------

  /** The part is a well-formed field that `m` holds. */
  predicate IsFieldOf(part: string, m: Fields)
  {
    var field := DecodePart(part);
    field.Some? && field.value.0 in m && m[field.value.0] == field.value.1
  }

  /** `m` holds the parts, one field each, on top of `m0`. */
  ghost predicate Represents(m: Fields, parts: seq<string>, m0: Fields)
  {
    && |m| == |m0| + |parts|
    && (forall k :: k in m0 ==> k in m && m[k] == m0[k])
    && (forall i :: 0 <= i < |parts| ==> IsFieldOf(parts[i], m))
    && (forall k :: k in m ==> k in m0 || HasKey(parts, k))
  }

  ghost predicate HasKey(parts: seq<string>, k: string)
  {
    exists i :: 0 <= i < |parts| && DecodePart(parts[i]).Some? && DecodePart(parts[i]).value.0 == k
  }

  lemma {:induction false} KeysAreFew(keys: set<string>, parts: seq<string>, extra: set<string>)
    requires forall k :: k in keys ==> k in extra || HasKey(parts, k)
    ensures |keys| <= |extra| + |parts|
  {
    if parts == [] {
      Subset(keys, extra);
    } else {
      var field := DecodePart(parts[0]);
      var more := if field.Some? then extra + {field.value.0} else extra;
      forall k | k in keys
        ensures k in more || HasKey(parts[1..], k)
      {
        if k !in extra {
          var i :| 0 <= i < |parts| && DecodePart(parts[i]).Some? && DecodePart(parts[i]).value.0 == k;
          if i > 0 {
            assert parts[1..][i - 1] == parts[i];
          }
        }
      }
      KeysAreFew(keys, parts[1..], more);
    }
  }

  lemma {:induction false} Subset(a: set<string>, b: set<string>)
    requires a <= b
    ensures |a| <= |b|
  {
    if a != {} {
      var k :| k in a;
      Subset(a - {k}, b - {k});
    }
  }

  lemma {:induction false} CollectedRepresents(parts: seq<string>, m0: Fields, m: Fields)
    requires Collect(parts, m0) == Some(m)
    ensures Represents(m, parts, m0)
    decreases |parts|
  {
    if parts != [] {
      var field := DecodePart(parts[0]).value;
      var m1 := m0[field.0 := field.1];
      assert m1.Keys == m0.Keys + {field.0};
      CollectedRepresents(parts[1..], m1, m);
      forall i | 0 <= i < |parts|
        ensures IsFieldOf(parts[i], m)
      {
        if i > 0 {
          assert parts[i] == parts[1..][i - 1];
        }
      }
      forall k | k in m
        ensures k in m0 || HasKey(parts, k)
      {
        if k !in m1 {
          var i :| 0 <= i < |parts[1..]| && DecodePart(parts[1..][i]).Some? && DecodePart(parts[1..][i]).value.0 == k;
          assert parts[i + 1] == parts[1..][i];
        } else if k !in m0 {
          assert parts[0] == parts[0];
        }
      }
    }
  }

  lemma {:induction false} RepresentedIsCollected(parts: seq<string>, m0: Fields, m: Fields)
    requires Represents(m, parts, m0)
    ensures Collect(parts, m0) == Some(m)
    decreases |parts|
  {
    if parts == [] {
      assert m.Keys == m0.Keys;
      assert m == m0;
    } else {
      assert IsFieldOf(parts[0], m);
      var field := DecodePart(parts[0]).value;
      FirstIsNew(parts, m0, m);
      var m1 := m0[field.0 := field.1];
      assert m1.Keys == m0.Keys + {field.0};
      forall i | 0 <= i < |parts[1..]|
        ensures IsFieldOf(parts[1..][i], m)
      {
        assert parts[1..][i] == parts[i + 1];
      }
      forall k | k in m
        ensures k in m1 || HasKey(parts[1..], k)
      {
        KeyAfterFirst(parts, m0, m, k);
      }
      RepresentedIsCollected(parts[1..], m1, m);
    }
  }

  lemma KeyAfterFirst(parts: seq<string>, m0: Fields, m: Fields, k: string)
    requires Represents(m, parts, m0) && parts != [] && k in m && IsFieldOf(parts[0], m)
    ensures k in m0 || k == DecodePart(parts[0]).value.0 || HasKey(parts[1..], k)
  {
    if k !in m0 {
      var i :| 0 <= i < |parts| && DecodePart(parts[i]).Some? && DecodePart(parts[i]).value.0 == k;
      if i > 0 {
        assert parts[1..][i - 1] == parts[i];
      }
    }
  }

  lemma FirstIsNew(parts: seq<string>, m0: Fields, m: Fields)
    requires Represents(m, parts, m0) && parts != [] && IsFieldOf(parts[0], m)
    ensures DecodePart(parts[0]).value.0 !in m0
  {
    if DecodePart(parts[0]).value.0 in m0 {
      forall k | k in m.Keys
        ensures k in m0.Keys || HasKey(parts[1..], k)
      {
        KeyAfterFirst(parts, m0, m, k);
      }
      KeysAreFew(m.Keys, parts[1..], m0.Keys);
    }
  }

  lemma SameParts(p: seq<string>, q: seq<string>, x: string)
    requires multiset(p) == multiset(q)
    ensures |p| == |q| && (x in p <==> x in q)
  {
    assert |multiset(p)| == |p| && |multiset(q)| == |q|;
    assert x in multiset(p) <==> x in multiset(q);
  }

  lemma CollectIgnoresOrder(p: seq<string>, q: seq<string>, m: Fields)
    requires multiset(p) == multiset(q) && Collect(p, map[]) == Some(m)
    ensures Collect(q, map[]) == Some(m)
  {
    CollectedRepresents(p, map[], m);
    SameParts(p, q, "");
    forall i | 0 <= i < |q|
      ensures IsFieldOf(q[i], m)
    {
      SameParts(p, q, q[i]);
      var j :| 0 <= j < |p| && p[j] == q[i];
      assert IsFieldOf(p[j], m);
    }
    forall k | k in m
      ensures HasKey(q, k)
    {
      assert HasKey(p, k);
      var i :| 0 <= i < |p| && DecodePart(p[i]).Some? && DecodePart(p[i]).value.0 == k;
      SameParts(p, q, p[i]);
      var j :| 0 <= j < |q| && q[j] == p[i];
    }
    RepresentedIsCollected(q, map[], m);
  }

  function TotalLength(parts: seq<string>): nat
  {
    if parts == [] then 0 else |parts[0]| + 1 + TotalLength(parts[1..])
  }

  lemma {:induction false} SplitLength(body: string)
    ensures TotalLength(Split(body)) == |body| + 1
    decreases |body|
  {
    var amp := IndexOf(body, '&');
    if amp < |body| {
      SplitLength(body[amp + 1..]);
      assert Split(body)[1..] == Split(body[amp + 1..]);
    } else {
      assert Split(body)[1..] == [];
    }
  }

  lemma {:induction false} LengthWithout(parts: seq<string>, j: nat)
    requires j < |parts|
    ensures TotalLength(parts) == |parts[j]| + 1 + TotalLength(parts[..j] + parts[j + 1..])
  {
    if j == 0 {
      assert parts[..0] + parts[1..] == parts[1..];
    } else {
      LengthWithout(parts[1..], j - 1);
      var rest := parts[..j] + parts[j + 1..];
      assert rest[1..] == parts[1..][..j - 1] + parts[1..][j..];
    }
  }

  lemma PartsWithout(parts: seq<string>, j: nat)
    requires j < |parts|
    ensures multiset(parts[..j] + parts[j + 1..]) == multiset(parts) - multiset{parts[j]}
  {
    assert parts == parts[..j] + [parts[j]] + parts[j + 1..];
  }

  lemma {:induction false} LengthIgnoresOrder(p: seq<string>, q: seq<string>)
    requires multiset(p) == multiset(q)
    ensures TotalLength(p) == TotalLength(q)
    decreases |p|
  {
    SameParts(p, q, "");
    if p != [] {
      SameParts(p, q, p[0]);
      var j :| 0 <= j < |q| && q[j] == p[0];
      PartsWithout(p, 0);
      PartsWithout(q, j);
      assert p[..0] + p[1..] == p[1..];
      LengthIgnoresOrder(p[1..], q[..j] + q[j + 1..]);
      LengthWithout(q, j);
    }
  }

  /** Two bodies with the same fields, in any order, are both refused or both give the same configuration. */
  lemma FormIgnoresOrder(a: string, b: string)
    requires multiset(Split(a)) == multiset(Split(b))
    ensures ParseForm(a) == ParseForm(b)
  {
    var p, q := Split(a), Split(b);
    LengthIgnoresOrder(p, q);
    SplitLength(a);
    SplitLength(b);
    if Collect(p, map[]).Some? {
      CollectIgnoresOrder(p, q, Collect(p, map[]).value);
    } else if Collect(q, map[]).Some? {
      CollectIgnoresOrder(q, p, Collect(q, map[]).value);
    }
  }

  // ---------- What the settings page posts is accepted ----------

  predicate AllPrintable(s: string)
  {
    forall i :: 0 <= i < |s| ==> IsPrintable(s[i])
  }

  lemma {:induction false} EscapeHidesMarks(s: string)
    requires AllPrintable(s)
    ensures forall i :: 0 <= i < |Escape(s)| ==> Escape(s)[i] != '&' && Escape(s)[i] != '='
  {
    if s != "" {
      EscapeHidesMarks(s[1..]);
    }
  }

  function Part(key: string, value: string): string
    requires AllPrintable(key) && AllPrintable(value)
  {
    Escape(key) + "=" + Escape(value)
  }

  lemma PartIsDecoded(key: string, value: string)
    requires AllPrintable(key) && AllPrintable(value)
    ensures DecodePart(Part(key, value)) == Some((key, value))
    ensures forall i :: 0 <= i < |Part(key, value)| ==> Part(key, value)[i] != '&'
  {
    EscapeHidesMarks(key);
    EscapeHidesMarks(value);
    var part, at := Part(key, value), |Escape(key)|;
    IndexIs(part, '=', at);
    assert part[..at] == Escape(key) && part[at + 1..] == Escape(value);
    UnescapeAfterEscape(key);
    UnescapeAfterEscape(value);
  }

  function Join(parts: seq<string>): string
    requires parts != []
  {
    if |parts| == 1 then parts[0] else parts[0] + "&" + Join(parts[1..])
  }

  /** Every body is the join of its parts, and no other parts join to it. */
  lemma {:induction false} SplitAfterJoin(parts: seq<string>)
    requires parts != []
    requires forall i :: 0 <= i < |parts| ==> forall j :: 0 <= j < |parts[i]| ==> parts[i][j] != '&'
    ensures Split(Join(parts)) == parts
    decreases |parts|
  {
    var body := Join(parts);
    if |parts| == 1 {
      assert IndexOf(body, '&') == |body|;
    } else {
      SplitAfterJoin(parts[1..]);
      IndexIs(body, '&', |parts[0]|);
      assert body[..|parts[0]|] == parts[0] && body[|parts[0]| + 1..] == Join(parts[1..]);
      assert parts == [parts[0]] + parts[1..];
    }
  }

  type Pairs = seq<(string, string)>

  function Parts(pairs: Pairs): (parts: seq<string>)
    requires forall i :: 0 <= i < |pairs| ==> AllPrintable(pairs[i].0) && AllPrintable(pairs[i].1)
    ensures |parts| == |pairs| && forall i :: 0 <= i < |pairs| ==> parts[i] == Part(pairs[i].0, pairs[i].1)
  {
    seq(|pairs|, i requires 0 <= i < |pairs| => Part(pairs[i].0, pairs[i].1))
  }

  predicate IsPostable(pairs: Pairs)
  {
    forall i :: 0 <= i < |pairs| ==> AllPrintable(pairs[i].0) && AllPrintable(pairs[i].1)
  }

  ghost predicate AreFieldsOf(pairs: Pairs, m: Fields)
  {
    && |m| == |pairs| && (forall i :: 0 <= i < |pairs| ==> pairs[i].0 in m && m[pairs[i].0] == pairs[i].1)
    && forall k :: k in m ==> exists i :: 0 <= i < |pairs| && pairs[i].0 == k
  }

  /** Encoded fields with different keys are collected as they were. */
  lemma PostedIsCollected(pairs: Pairs, m: Fields)
    requires pairs != [] && IsPostable(pairs) && AreFieldsOf(pairs, m)
    ensures Collect(Split(Join(Parts(pairs))), map[]) == Some(m)
  {
    var parts := Parts(pairs);
    forall i | 0 <= i < |parts|
      ensures DecodePart(parts[i]) == Some(pairs[i]) && IsFieldOf(parts[i], m)
      ensures forall j :: 0 <= j < |parts[i]| ==> parts[i][j] != '&'
    {
      PartIsDecoded(pairs[i].0, pairs[i].1);
    }
    forall k | k in m
      ensures HasKey(parts, k)
    {
      var i :| 0 <= i < |pairs| && pairs[i].0 == k;
      assert DecodePart(parts[i]).value.0 == k;
    }
    SplitAfterJoin(parts);
    RepresentedIsCollected(parts, map[], m);
  }

  lemma IntegerReadsDecimal(n: nat, low: int, high: int)
    requires low <= n <= high < 1000
    ensures IntegerIn(Decimal(n), low, high) == Some(n)
  {
    assert Pow10(3) == 1000;
    DecimalLength(n, 3);
    DecimalRoundTrip(n);
  }

  lemma ColorReadsHex(v: nat)
    requires v < COLORS
    ensures FormColor("#" + HexText(6, v)) == Some(v)
  {
    assert ("#" + HexText(6, v))[1..] == HexText(6, v);
    ColorDigits(v);
  }

  lemma ShownReads(shown: bool)
    ensures IntegerIn(ShownText(shown), 0, 1) == Some(if shown then 1 else 0)
  {
    assert "1"[..0] == "" && "0"[..0] == "";
  }

  /** `m` holds exactly the seven fields of `c`. */
  predicate ShowsConfig(m: Fields, c: OverlayConfig)
    requires IsSane(c)
  {
    && |m| == 7 && HasAllKeys(m)
    && m["corner"] == CornerName(c.corner) && m["font_size"] == Decimal(c.fontSize)
    && m["margin_x"] == Decimal(c.marginX) && m["margin_y"] == Decimal(c.marginY)
    && m["show_label"] == ShownText(c.showLabel)
    && m["label_color"] == "#" + HexText(6, c.labelColor) && m["value_color"] == "#" + HexText(6, c.valueColor)
  }

  lemma CornerReads(corner: Corner)
    ensures FormCorner(CornerName(corner)) == Some(corner)
  {
  }

  /** The seven fields of a sane configuration are accepted and give it back. */
  lemma FieldsAreRead(m: Fields, c: OverlayConfig)
    requires IsSane(c) && ShowsConfig(m, c)
    ensures ConfigOf(m) == Some(c)
  {
    CornerReads(c.corner);
    IntegerReadsDecimal(c.fontSize, MIN_FONT_SIZE, MAX_FONT_SIZE);
    IntegerReadsDecimal(c.marginX, 0, MAX_MARGIN);
    IntegerReadsDecimal(c.marginY, 0, MAX_MARGIN);
    ShownReads(c.showLabel);
    ColorReadsHex(c.labelColor);
    ColorReadsHex(c.valueColor);
  }

  lemma JoinIsLong(parts: seq<string>)
    requires parts != []
    ensures |Join(parts)| >= |parts[0]|
  {
  }

  /** Fields posted in any order are read as those fields. */
  lemma PostedIsRead(pairs: Pairs, m: Fields)
    requires pairs != [] && IsPostable(pairs) && AreFieldsOf(pairs, m) && |Join(Parts(pairs))| <= MAX_BODY
    ensures ParseForm(Join(Parts(pairs))) == ConfigOf(m)
  {
    PostedIsCollected(pairs, m);
    JoinIsLong(Parts(pairs));
  }
}
