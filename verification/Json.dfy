/**
 JSON text as the cursors use it: ASCII only, every other code point escaped (RFC 8259 section 7).

 A string is a sequence of code points, lone surrogates included.  The parser joins an escaped high
 surrogate with an escaped low one that follows it, so printing and parsing a string gives it back
 exactly when no high surrogate in it is followed by a low one.
 */
module Json {
  import opened Options

  type CodePoint = c: int | 0 <= c < 0x110000
  type Text = seq<CodePoint>

  datatype Value =
    | Null
    | Bool(b: bool)
    | Number(n: nat)
    | String(text: Text)
    | Array(items: seq<Value>)
    | Object(members: seq<Member>)

  datatype Member = Member(name: Text, value: Value)

  // ---------------------------------------------------------------- surrogates

  predicate High(c: CodePoint) { 0xD800 <= c < 0xDC00 }
  predicate Low(c: CodePoint) { 0xDC00 <= c < 0xE000 }

  function Joined(high: CodePoint, low: CodePoint): CodePoint
    requires High(high) && Low(low)
  {
    0x10000 + (high - 0xD800) * 0x400 + (low - 0xDC00)
  }

  /** A string as it comes back from its JSON text: surrogate pairs are joined. */
  function Canonical(t: Text): Text {
    if t == [] then []
    else if |t| >= 2 && High(t[0]) && Low(t[1]) then [Joined(t[0], t[1])] + Canonical(t[2..])
    else [t[0]] + Canonical(t[1..])
  }

  ghost predicate Unpaired(t: Text) {
    forall i | 0 <= i < |t| - 1 :: !(High(t[i]) && Low(t[i + 1]))
  }

  lemma {:induction false} CanonicalLength(t: Text)
    ensures |Canonical(t)| <= |t|
    ensures |Canonical(t)| == |t| <==> Unpaired(t)
    decreases |t|
  {
    if t == [] {
    } else if |t| >= 2 && High(t[0]) && Low(t[1]) {
      CanonicalLength(t[2..]);
    } else {
      CanonicalLength(t[1..]);
      assert Unpaired(t) <==> Unpaired(t[1..]) by {
        if Unpaired(t[1..]) {
          forall i | 0 <= i < |t| - 1 ensures !(High(t[i]) && Low(t[i + 1])) {
            if i > 0 { assert t[1..][i - 1] == t[i]; }
          }
        }
      }
    }
  }

  /** Parsing keeps a string exactly when it holds no surrogate pair. */
  lemma {:induction false} CanonicalExactly(t: Text)
    ensures Canonical(t) == t <==> Unpaired(t)
    decreases |t|
  {
    CanonicalLength(t);
    if t != [] && Unpaired(t) {
      assert Unpaired(t[1..]);
      CanonicalExactly(t[1..]);
      assert t == [t[0]] + t[1..];
    }
  }

  // ---------------------------------------------------------------- printing strings

  function HexDigit(d: nat): char
    requires d < 16
  {
    if d < 10 then '0' + d as char else 'a' + (d - 10) as char
  }

  function HexValue(c: char): (r: Option<nat>)
    ensures r.Some? ==> r.value < 16
  {
    if '0' <= c <= '9' then Some((c - '0') as int)
    else if 'a' <= c <= 'f' then Some((c - 'a') as int + 10)
    else if 'A' <= c <= 'F' then Some((c - 'A') as int + 10)
    else None
  }

  function Unit(u: nat): (s: string)
    requires u < 0x10000
    ensures |s| == 6
  {
    ['\\', 'u', HexDigit(u / 0x1000), HexDigit(u / 0x100 % 16), HexDigit(u / 16 % 16), HexDigit(u % 16)]
  }

  /** One code point between the quotes. */
  function Escape(c: CodePoint): string {
    if c == 0x22 then "\\\"" else if c == 0x5C then "\\\\"
    else if c == 0x0A then "\\n" else if c == 0x0D then "\\r" else if c == 0x09 then "\\t"
    else if c == 0x0C then "\\f" else if c == 0x08 then "\\b"
    else if 0x20 <= c <= 0x7E then [c as char]
    else if c < 0x10000 then Unit(c)
    else Unit(0xD800 + (c - 0x10000) / 0x400) + Unit(0xDC00 + (c - 0x10000) % 0x400)
  }

  function EscapeAll(t: Text): string {
    if t == [] then "" else Escape(t[0]) + EscapeAll(t[1..])
  }

  function PrintString(t: Text): string {
    "\"" + EscapeAll(t) + "\""
  }

  // ---------------------------------------------------------------- parsing strings

  /** The code unit a `\u` escape at the front of s stands for. */
  function UnitAt(s: string): (u: Option<nat>)
    ensures u.Some? ==> |s| >= 6 && u.value < 0x10000
  {
    if |s| < 6 || s[0] != '\\' || s[1] != 'u' then None
    else
      var a, b, c, d := HexValue(s[2]), HexValue(s[3]), HexValue(s[4]), HexValue(s[5]);
      if a.None? || b.None? || c.None? || d.None? then None
      else Some(((a.value * 16 + b.value) * 16 + c.value) * 16 + d.value)
  }

  function SimpleEscape(c: char): Option<CodePoint> {
    if c == '"' then Some(0x22) else if c == '\\' then Some(0x5C) else if c == '/' then Some(0x2F)
    else if c == 'n' then Some(0x0A) else if c == 'r' then Some(0x0D) else if c == 't' then Some(0x09)
    else if c == 'f' then Some(0x0C) else if c == 'b' then Some(0x08) else None
  }

  /** One code point off the front of a string body, with what follows it. */
  function ParseChar(s: string): (r: Option<(CodePoint, string)>)
    requires s != ""
    ensures r.Some? ==> |r.value.1| < |s|
  {
    if s[0] != '\\' then
      if s[0] == '"' || (s[0] as int) < 0x20 then None else Some((s[0] as int, s[1..]))
    else if |s| < 2 then None
    else if s[1] != 'u' then
      var e := SimpleEscape(s[1]);
      if e.None? then None else Some((e.value, s[2..]))
    else
      var u := UnitAt(s);
      if u.None? then None
      else
        var next := UnitAt(s[6..]);
        if High(u.value) && next.Some? && Low(next.value) then Some((Joined(u.value, next.value), s[12..]))
        else Some((u.value, s[6..]))
  }

  /** The rest of a string whose opening quote has been read. */
  function ParseChars(s: string): (r: Option<(Text, string)>)
    ensures r.Some? ==> |r.value.1| < |s|
    decreases |s|
  {
    if s == "" then None
    else if s[0] == '"' then Some(([], s[1..]))
    else
      var c := ParseChar(s);
      if c.None? then None
      else
        var rest := ParseChars(c.value.1);
        if rest.None? then None else Some(([c.value.0] + rest.value.0, rest.value.1))
  }

  // ---------------------------------------------------------------- the string round trip

  lemma HexRoundTrip(d: nat)
    requires d < 16
    ensures HexValue(HexDigit(d)) == Some(d)
  {
  }

  lemma Quarters(u: nat)
    requires u < 0x10000
    ensures u / 0x1000 < 16
    ensures u == ((u / 0x1000 * 16 + u / 0x100 % 16) * 16 + u / 16 % 16) * 16 + u % 16
  {
    assert u / 0x100 == u / 0x1000 * 16 + u / 0x100 % 16;
    assert u / 16 == u / 0x100 * 16 + u / 16 % 16;
  }

  lemma UnitRoundTrip(u: nat, rest: string)
    requires u < 0x10000
    ensures UnitAt(Unit(u) + rest) == Some(u) && (Unit(u) + rest)[6..] == rest
  {
    hide HexDigit, HexValue;
    var a, b, c, d := u / 0x1000, u / 0x100 % 16, u / 16 % 16, u % 16;
    Quarters(u);
    HexRoundTrip(a);
    HexRoundTrip(b);
    HexRoundTrip(c);
    HexRoundTrip(d);
    var s := ['\\', 'u', HexDigit(a), HexDigit(b), HexDigit(c), HexDigit(d)] + rest;
    assert Unit(u) + rest == s;
  }

  /** The unit an escaped string starts with, if it starts with a `\u` escape. */
  function FirstUnit(t: Text): Option<nat> {
    if t == [] || 0x20 <= t[0] <= 0x7E || t[0] in {0x08, 0x09, 0x0A, 0x0C, 0x0D} then None
    else if t[0] < 0x10000 then Some(t[0])
    else Some(0xD800 + (t[0] - 0x10000) / 0x400)
  }

  lemma Regroup(a: string, b: string, c: string, d: string)
    ensures a + b + c + d == a + (b + c + d)
  {
  }

  lemma FirstUnitAt(t: Text, rest: string)
    ensures UnitAt(EscapeAll(t) + "\"" + rest) == FirstUnit(t)
  {
    hide HexDigit, HexValue, Escape, UnitAt;
    if t == [] {
      NoUnit("\"" + rest);
      assert EscapeAll(t) + "\"" + rest == "\"" + rest;
    } else {
      Regroup(Escape(t[0]), EscapeAll(t[1..]), "\"", rest);
      EscapedUnit(t, EscapeAll(t[1..]) + "\"" + rest);
    }
  }

  lemma NoUnit(s: string)
    requires s != "" && (s[0] != '\\' || (|s| >= 2 && s[1] != 'u'))
    ensures UnitAt(s).None?
  {
  }

  lemma EscapedUnit(t: Text, tail: string)
    requires t != []
    ensures UnitAt(Escape(t[0]) + tail) == FirstUnit(t)
  {
    hide HexDigit, HexValue, UnitAt;
    if FirstUnit(t).None? {
      NoUnit(Escape(t[0]) + tail);
    } else if t[0] < 0x10000 {
      UnitRoundTrip(t[0], tail);
    } else {
      var low := Unit(0xDC00 + (t[0] - 0x10000) % 0x400);
      assert Escape(t[0]) + tail == Unit(FirstUnit(t).value) + (low + tail);
      UnitRoundTrip(FirstUnit(t).value, low + tail);
    }
  }

  /** A code point that needs no `\u` escape. */
  predicate Short(c: CodePoint) {
    0x20 <= c <= 0x7E || c in {0x08, 0x09, 0x0A, 0x0C, 0x0D}
  }

  lemma ShortRoundTrip(c: CodePoint, tail: string)
    requires Short(c)
    ensures Escape(c) + tail != "" && (Escape(c) + tail)[0] != '"'
    ensures ParseChar(Escape(c) + tail) == Some((c, tail))
  {
    var s := Escape(c) + tail;
    if c == 0x22 || c == 0x5C || c < 0x20 {
      assert s[2..] == tail;
    } else {
      assert s[1..] == tail;
    }
  }

  /** One `\u` escape, with no low surrogate after a high one. */
  lemma UnitParsed(u: nat, tail: string)
    requires u < 0x10000
    requires High(u) ==> UnitAt(tail).None? || !Low(UnitAt(tail).value)
    ensures ParseChar(Unit(u) + tail) == Some((u, tail))
  {
    hide HexDigit, HexValue, UnitAt;
    UnitRoundTrip(u, tail);
  }

  lemma PairParsed(high: CodePoint, low: CodePoint, tail: string)
    requires High(high) && Low(low)
    ensures ParseChar(Unit(high) + (Unit(low) + tail)) == Some((Joined(high, low), tail))
  {
    hide HexDigit, HexValue, UnitAt;
    var s := Unit(high) + (Unit(low) + tail);
    UnitRoundTrip(high, Unit(low) + tail);
    UnitRoundTrip(low, tail);
    assert s[12..] == s[6..][6..];
  }

  lemma SplitPair(c: CodePoint)
    requires c >= 0x10000
    ensures High(0xD800 + (c - 0x10000) / 0x400) && Low(0xDC00 + (c - 0x10000) % 0x400)
    ensures Joined(0xD800 + (c - 0x10000) / 0x400, 0xDC00 + (c - 0x10000) % 0x400) == c
  {
  }

  lemma {:induction false} CharsRoundTrip(t: Text, rest: string)
    ensures ParseChars(EscapeAll(t) + "\"" + rest) == Some((Canonical(t), rest))
    decreases |t|
  {
    hide Unit, UnitAt, ParseChar, Escape, Joined;
    var s := EscapeAll(t) + "\"" + rest;
    if t == [] {
      assert s == "\"" + rest;
    } else if |t| >= 2 && High(t[0]) && Low(t[1]) {
      CharsRoundTrip(t[2..], rest);
      PairStep(t, rest);
    } else {
      CharsRoundTrip(t[1..], rest);
      CharStep(t, rest);
    }
  }

  lemma PairStep(t: Text, rest: string)
    requires |t| >= 2 && High(t[0]) && Low(t[1])
    ensures EscapeAll(t) + "\"" + rest != "" && (EscapeAll(t) + "\"" + rest)[0] == '\\'
    ensures ParseChar(EscapeAll(t) + "\"" + rest) == Some((Joined(t[0], t[1]), EscapeAll(t[2..]) + "\"" + rest))
  {
    hide UnitAt, ParseChar, HexDigit, Joined;
    var tail := EscapeAll(t[2..]) + "\"" + rest;
    assert t[1..][1..] == t[2..];
    assert EscapeAll(t) == Escape(t[0]) + (Escape(t[1]) + EscapeAll(t[2..]));
    assert EscapeAll(t) + "\"" + rest == Unit(t[0]) + (Unit(t[1]) + tail);
    PairParsed(t[0], t[1], tail);
  }

  lemma LongParsed(c: CodePoint, tail: string)
    requires c >= 0x10000
    ensures Escape(c) + tail != "" && (Escape(c) + tail)[0] == '\\'
    ensures ParseChar(Escape(c) + tail) == Some((c, tail))
  {
    hide UnitAt, ParseChar, HexDigit, Joined;
    SplitPair(c);
    var high, low := 0xD800 + (c - 0x10000) / 0x400, 0xDC00 + (c - 0x10000) % 0x400;
    assert Escape(c) + tail == Unit(high) + (Unit(low) + tail);
    PairParsed(high, low, tail);
  }

  lemma CharParsed(c: CodePoint, tail: string)
    requires High(c) ==> UnitAt(tail).None? || !Low(UnitAt(tail).value)
    ensures Escape(c) + tail != "" && (Escape(c) + tail)[0] != '"'
    ensures ParseChar(Escape(c) + tail) == Some((c, tail))
  {
    hide UnitAt, ParseChar, HexDigit, Joined;
    if Short(c) {
      ShortRoundTrip(c, tail);
    } else if c < 0x10000 {
      UnitParsed(c, tail);
    } else {
      LongParsed(c, tail);
    }
  }

  lemma CharStep(t: Text, rest: string)
    requires t != [] && !(|t| >= 2 && High(t[0]) && Low(t[1]))
    ensures EscapeAll(t) + "\"" + rest != "" && (EscapeAll(t) + "\"" + rest)[0] != '"'
    ensures ParseChar(EscapeAll(t) + "\"" + rest) == Some((t[0], EscapeAll(t[1..]) + "\"" + rest))
  {
    hide UnitAt, ParseChar, Escape, Joined;
    var tail := EscapeAll(t[1..]) + "\"" + rest;
    Regroup(Escape(t[0]), EscapeAll(t[1..]), "\"", rest);
    FirstUnitAt(t[1..], rest);
    CharParsed(t[0], tail);
  }

  lemma UnitOf(a: char, b: char, c: char, d: char, rest: string)
    requires HexValue(a).Some? && HexValue(b).Some? && HexValue(c).Some? && HexValue(d).Some?
    ensures UnitAt(['\\', 'u', a, b, c, d] + rest)
         == Some(((HexValue(a).value * 16 + HexValue(b).value) * 16 + HexValue(c).value) * 16 + HexValue(d).value)
  {
    hide HexValue;
  }

  /** The pair section 7 of RFC 8259 gives for the G clef is read back as that one code point. */
  lemma StandardParse(rest: string)
    ensures ParseChar(['\\', 'u', 'D', '8', '3', '4'] + (['\\', 'u', 'D', 'D', '1', 'E'] + rest))
        == Some((0x1D11E, rest))
  {
    hide UnitAt, HexValue;
    var low := ['\\', 'u', 'D', 'D', '1', 'E'] + rest;
    var s := ['\\', 'u', 'D', '8', '3', '4'] + low;
    ClefDigits();
    UnitOf('D', '8', '3', '4', low);
    UnitOf('D', 'D', '1', 'E', rest);
    assert s[6..] == low;
    assert s[12..] == low[6..] == rest;
  }

  lemma ClefDigits()
    ensures HexValue('D') == Some(13) && HexValue('8') == Some(8) && HexValue('3') == Some(3)
    ensures HexValue('4') == Some(4) && HexValue('1') == Some(1) && HexValue('E') == Some(14)
  {
  }

  lemma EscapeJoined(high: CodePoint, low: CodePoint)
    requires High(high) && Low(low)
    ensures Escape(Joined(high, low)) == Escape(high) + Escape(low)
  {
    hide Unit;
    var c := Joined(high, low);
    assert (c - 0x10000) / 0x400 == high - 0xD800 && (c - 0x10000) % 0x400 == low - 0xDC00;
  }

  lemma EscapeFirst(c: CodePoint, t: Text)
    ensures EscapeAll([c] + t) == Escape(c) + EscapeAll(t)
  {
    hide Escape;
    assert ([c] + t)[1..] == t;
  }

  lemma PairPrintsAlike(high: CodePoint, low: CodePoint, canonical: Text, rest: Text)
    requires High(high) && Low(low) && EscapeAll(canonical) == EscapeAll(rest)
    ensures EscapeAll([Joined(high, low)] + canonical) == EscapeAll([high] + ([low] + rest))
  {
    hide Escape, Joined;
    EscapeJoined(high, low);
    EscapeFirst(Joined(high, low), canonical);
    EscapeFirst(low, rest);
    EscapeFirst(high, [low] + rest);
    assert Escape(high) + (Escape(low) + EscapeAll(rest)) == Escape(high) + Escape(low) + EscapeAll(rest);
  }

  /** A surrogate pair prints as the code point it stands for does. */
  lemma {:induction false} CanonicalPrintsAlike(t: Text)
    ensures EscapeAll(Canonical(t)) == EscapeAll(t)
    decreases |t|
  {
    hide Escape, Joined;
    if t == [] {
    } else if |t| >= 2 && High(t[0]) && Low(t[1]) {
      CanonicalPrintsAlike(t[2..]);
      PairPrintsAlike(t[0], t[1], Canonical(t[2..]), t[2..]);
      assert t == [t[0]] + ([t[1]] + t[2..]);
    } else {
      CanonicalPrintsAlike(t[1..]);
      EscapeFirst(t[0], Canonical(t[1..]));
    }
  }

  // ---------------------------------------------------------------- values

  predicate IsDigit(c: char) { '0' <= c <= '9' }

  function Decimal(n: nat): (s: string)
    ensures s != "" && (forall i | 0 <= i < |s| :: IsDigit(s[i])) && (n > 0 ==> s[0] != '0')
  {
    if n < 10 then [HexDigit(n)] else Decimal(n / 10) + [HexDigit(n % 10)]
  }

  /** Compact form: no space after a comma or a colon. */
  function Print(v: Value): string
    decreases v
  {
    match v
    case Null => "null"
    case Bool(b) => if b then "true" else "false"
    case Number(n) => Decimal(n)
    case String(t) => PrintString(t)
    case Array(items) => if items == [] then "[]" else "[" + PrintItems(items)
    case Object(members) => if members == [] then "{}" else "{" + PrintMembers(members)
  }

  function PrintItems(items: seq<Value>): string
    requires items != []
    decreases items
  {
    Print(items[0]) + if |items| == 1 then "]" else "," + PrintItems(items[1..])
  }

  function PrintMembers(members: seq<Member>): string
    requires members != []
    decreases members
  {
    PrintString(members[0].name) + ":" + Print(members[0].value)
    + if |members| == 1 then "}" else "," + PrintMembers(members[1..])
  }

  predicate IsSpace(c: char) { c == ' ' || c == '\t' || c == '\n' || c == '\r' }

  function Skip(s: string): (r: string)
    ensures |r| <= |s|
  {
    if s != "" && IsSpace(s[0]) then Skip(s[1..]) else s
  }

  /** The digits at the front of s, read after a number n. */
  function ParseDigits(n: nat, s: string): (r: (nat, string))
    ensures |r.1| <= |s|
    decreases |s|
  {
    if s != "" && IsDigit(s[0]) then ParseDigits(n * 10 + (s[0] - '0') as int, s[1..]) else (n, s)
  }

  /** A value at the front of s, with what follows it; a number may not start with a needless zero. */
  function ParseValue(s: string): (r: Option<(Value, string)>)
    ensures r.Some? ==> |r.value.1| < |s|
    decreases |s|, 1
  {
    if s == "" then None
    else if s[0] == '"' then
      var t := ParseChars(s[1..]);
      if t.None? then None else Some((String(t.value.0), t.value.1))
    else if s[0] == '[' then
      var inside := Skip(s[1..]);
      if inside != "" && inside[0] == ']' then Some((Array([]), inside[1..]))
      else
        var items := ParseItems(inside);
        if items.None? then None else Some((Array(items.value.0), items.value.1))
    else if s[0] == '{' then
      var inside := Skip(s[1..]);
      if inside != "" && inside[0] == '}' then Some((Object([]), inside[1..]))
      else
        var members := ParseMembers(inside);
        if members.None? then None else Some((Object(members.value.0), members.value.1))
    else if "null" <= s then Some((Null, s[4..]))
    else if "true" <= s then Some((Bool(true), s[4..]))
    else if "false" <= s then Some((Bool(false), s[5..]))
    else if s[0] == '0' then Some((Number(0), s[1..]))
    else if IsDigit(s[0]) then
      var n := ParseDigits(0, s);
      if |n.1| == |s| then None else Some((Number(n.0), n.1))
    else None
  }

  function ParseItems(s: string): (r: Option<(seq<Value>, string)>)
    ensures r.Some? ==> |r.value.1| < |s|
    decreases |s|, 2
  {
    var first := ParseValue(s);
    if first.None? then None
    else
      var next := Skip(first.value.1);
      if next == "" then None
      else if next[0] == ']' then Some(([first.value.0], next[1..]))
      else if next[0] != ',' then None
      else
        var rest := ParseItems(Skip(next[1..]));
        if rest.None? then None else Some(([first.value.0] + rest.value.0, rest.value.1))
  }

  /** One member: its name, a colon and its value. */
  function ParseMember(s: string): (r: Option<(Member, string)>)
    ensures r.Some? ==> |r.value.1| < |s|
    decreases |s|, 2
  {
    if s == "" || s[0] != '"' then None
    else
      var name := ParseChars(s[1..]);
      if name.None? then None
      else
        var colon := Skip(name.value.1);
        if colon == "" || colon[0] != ':' then None
        else
          var v := ParseValue(Skip(colon[1..]));
          if v.None? then None else Some((Member(name.value.0, v.value.0), v.value.1))
  }

  function ParseMembers(s: string): (r: Option<(seq<Member>, string)>)
    ensures r.Some? ==> |r.value.1| < |s|
    decreases |s|, 3
  {
    var first := ParseMember(s);
    if first.None? then None
    else
      var next := Skip(first.value.1);
      if next == "" then None
      else if next[0] == '}' then Some(([first.value.0], next[1..]))
      else if next[0] != ',' then None
      else
        var rest := ParseMembers(Skip(next[1..]));
        if rest.None? then None else Some(([first.value.0] + rest.value.0, rest.value.1))
  }

  /** A whole document: one value with nothing but space around it. */
  function Parse(s: string): Option<Value> {
    var v := ParseValue(Skip(s));
    if v.None? || Skip(v.value.1) != "" then None else Some(v.value.0)
  }

  /** A value as it comes back from its text: the surrogate pairs in its strings and names are joined. */
  function CanonicalValue(v: Value): Value
    decreases v
  {
    match v
    case Null | Bool(_) | Number(_) => v
    case String(t) => String(Canonical(t))
    case Array(items) => Array(CanonicalItems(items))
    case Object(members) => Object(CanonicalMembers(members))
  }

  function CanonicalItems(items: seq<Value>): seq<Value>
    decreases items
  {
    if items == [] then [] else [CanonicalValue(items[0])] + CanonicalItems(items[1..])
  }

  function CanonicalMembers(members: seq<Member>): seq<Member>
    decreases members
  {
    if members == [] then []
    else [Member(Canonical(members[0].name), CanonicalValue(members[0].value))] + CanonicalMembers(members[1..])
  }

  // ---------------------------------------------------------------- the value round trip

  lemma {:induction false} DigitsRoundTrip(n: nat, rest: string)
    requires rest != "" ==> !IsDigit(rest[0])
    ensures ParseDigits(0, Decimal(n) + rest) == (n, rest)
  {
    DigitsParsed(n, rest);
    assert ParseDigits(n, rest) == (n, rest);
  }

  lemma {:induction false} DigitsParsed(n: nat, rest: string)
    ensures ParseDigits(0, Decimal(n) + rest) == ParseDigits(n, rest)
    decreases n
  {
    var d := HexDigit(n % 10);
    assert IsDigit(d) && (d - '0') as int == n % 10;
    if n < 10 {
      assert Decimal(n) + rest == [d] + rest;
    } else {
      assert Decimal(n) + rest == Decimal(n / 10) + ([d] + rest);
      DigitsParsed(n / 10, [d] + rest);
      assert ([d] + rest)[1..] == rest;
    }
  }

  lemma NumberParsed(n: nat, rest: string)
    requires rest != "" ==> !IsDigit(rest[0])
    ensures ParseValue(Decimal(n) + rest) == Some((Number(n), rest))
  {
    var s := Decimal(n) + rest;
    assert IsDigit(Decimal(n)[0]) && s[0] == Decimal(n)[0];
    DigitsRoundTrip(n, rest);
    if n == 0 {
      assert Decimal(0) == "0" && s[1..] == rest;
    }
  }

  lemma WordParsed(v: Value, rest: string)
    requires v.Null? || v.Bool?
    ensures ParseValue(Print(v) + rest) == Some((v, rest))
  {
    var s := Print(v) + rest;
    assert s[|Print(v)|..] == rest;
    assert Print(v) <= s;
    assert s[0] == Print(v)[0];
    if v == Null {
    } else if v == Bool(true) {
      assert !("null" <= s);
    } else {
      assert !("null" <= s) && !("true" <= s);
    }
  }

  lemma StringParsed(t: Text, rest: string)
    ensures PrintString(t) + rest != "" && (PrintString(t) + rest)[0] == '"'
    ensures ParseChars((PrintString(t) + rest)[1..]) == Some((Canonical(t), rest))
  {
    hide Escape, ParseChar;
    CharsRoundTrip(t, rest);
    Regroup("\"", EscapeAll(t), "\"", rest);
  }

  /** A printed value starts with a character that is neither space nor a closing bracket. */
  lemma PrintStarts(v: Value)
    ensures Print(v) != "" && !IsSpace(Print(v)[0]) && Print(v)[0] != ']' && Print(v)[0] != '}'
  {
    if v.Number? {
      assert IsDigit(Decimal(v.n)[0]);
    }
  }

  lemma SkipNothing(s: string)
    requires s != "" ==> !IsSpace(s[0])
    ensures Skip(s) == s
  {
  }

  /** Printing then parsing gives every value back with its surrogate pairs joined, whatever follows it. */
  lemma {:induction false} ValueRoundTrip(v: Value, rest: string)
    requires v.Number? && rest != "" ==> !IsDigit(rest[0])
    ensures ParseValue(Print(v) + rest) == Some((CanonicalValue(v), rest))
    decreases v
  {
    hide PrintString, ParseDigits;
    match v
    case Null | Bool(_) => WordParsed(v, rest);
    case Number(n) => NumberParsed(n, rest);
    case String(t) => StringParsed(t, rest);
    case Array(items) =>
      if items != [] { ItemsRoundTrip(items, rest); }
      ArrayParsed(items, rest);
    case Object(members) =>
      if members != [] { MembersRoundTrip(members, rest); }
      ObjectParsed(members, rest);
  }

  lemma BracketParsed(inside: string, items: seq<Value>, rest: string)
    requires inside != "" && !IsSpace(inside[0])
    requires if items == [] then inside == "]" + rest else inside[0] != ']' && ParseItems(inside) == Some((items, rest))
    ensures ParseValue("[" + inside) == Some((Array(items), rest))
  {
    hide ParseChars, ParseDigits;
    SkipNothing(inside);
    assert ("[" + inside)[1..] == inside;
    if items == [] { assert ("]" + rest)[1..] == rest; }
  }

  lemma BraceParsed(inside: string, members: seq<Member>, rest: string)
    requires inside != "" && !IsSpace(inside[0])
    requires if members == [] then inside == "}" + rest
        else inside[0] != '}' && ParseMembers(inside) == Some((members, rest))
    ensures ParseValue("{" + inside) == Some((Object(members), rest))
  {
    hide ParseChars, ParseDigits;
    SkipNothing(inside);
    assert ("{" + inside)[1..] == inside;
    if members == [] { assert ("}" + rest)[1..] == rest; }
  }

  lemma ArrayParsed(items: seq<Value>, rest: string)
    requires items != [] ==> ParseItems(PrintItems(items) + rest) == Some((CanonicalItems(items), rest))
    ensures ParseValue(Print(Array(items)) + rest) == Some((Array(CanonicalItems(items)), rest))
  {
    var inside := if items == [] then "]" + rest else PrintItems(items) + rest;
    assert Print(Array(items)) + rest == "[" + inside;
    if items != [] { PrintStarts(items[0]); }
    BracketParsed(inside, CanonicalItems(items), rest);
  }

  lemma ObjectParsed(members: seq<Member>, rest: string)
    requires members != [] ==> ParseMembers(PrintMembers(members) + rest) == Some((CanonicalMembers(members), rest))
    ensures ParseValue(Print(Object(members)) + rest) == Some((Object(CanonicalMembers(members)), rest))
  {
    hide PrintString;
    var inside := if members == [] then "}" + rest else PrintMembers(members) + rest;
    assert Print(Object(members)) + rest == "{" + inside;
    if members != [] { MembersFront(members, rest); }
    BraceParsed(inside, CanonicalMembers(members), rest);
  }

  lemma LastItem(s: string, v: Value, rest: string)
    requires ParseValue(s) == Some((v, "]" + rest))
    ensures ParseItems(s) == Some(([v], rest))
  {
    hide ParseValue;
    SkipNothing("]" + rest);
    assert ("]" + rest)[1..] == rest;
  }

  lemma MoreItems(s: string, v: Value, tail: string, more: seq<Value>, rest: string)
    requires ParseValue(s) == Some((v, "," + tail)) && tail != "" && !IsSpace(tail[0])
    requires ParseItems(tail) == Some((more, rest))
    ensures ParseItems(s) == Some(([v] + more, rest))
  {
    hide ParseValue;
    SkipNothing("," + tail);
    SkipNothing(tail);
    assert ("," + tail)[1..] == tail;
  }

  /** What is printed after the first item. */
  function AfterItem(items: seq<Value>): string
    requires items != []
  {
    if |items| == 1 then "]" else "," + PrintItems(items[1..])
  }

  lemma ItemsFront(items: seq<Value>, rest: string)
    requires items != []
    ensures PrintItems(items) + rest == Print(items[0]) + (AfterItem(items) + rest)
    ensures PrintItems(items) != "" && !IsSpace(PrintItems(items)[0])
  {
    PrintStarts(items[0]);
  }

  lemma {:induction false} ItemsRoundTrip(items: seq<Value>, rest: string)
    requires items != []
    ensures ParseItems(PrintItems(items) + rest) == Some((CanonicalItems(items), rest))
    decreases items
  {
    hide Print, ParseValue, ParseItems, Skip;
    var s, parsed := PrintItems(items) + rest, CanonicalValue(items[0]);
    ItemsFront(items, rest);
    ValueRoundTrip(items[0], AfterItem(items) + rest);
    assert CanonicalItems(items) == [parsed] + CanonicalItems(items[1..]);
    if |items| == 1 {
      assert CanonicalItems(items) == [parsed];
      LastItem(s, parsed, rest);
    } else {
      var tail := PrintItems(items[1..]) + rest;
      assert AfterItem(items) + rest == "," + tail;
      ItemsFront(items[1..], rest);
      ItemsRoundTrip(items[1..], rest);
      MoreItems(s, parsed, tail, CanonicalItems(items[1..]), rest);
    }
  }

  lemma LastMember(s: string, m: Member, rest: string)
    requires ParseMember(s) == Some((m, "}" + rest))
    ensures ParseMembers(s) == Some(([m], rest))
  {
    hide ParseMember;
    SkipNothing("}" + rest);
    assert ("}" + rest)[1..] == rest;
  }

  lemma MoreMembers(s: string, m: Member, tail: string, more: seq<Member>, rest: string)
    requires ParseMember(s) == Some((m, "," + tail)) && tail != "" && tail[0] == '"'
    requires ParseMembers(tail) == Some((more, rest))
    ensures ParseMembers(s) == Some(([m] + more, rest))
  {
    hide ParseMember;
    SkipNothing("," + tail);
    SkipNothing(tail);
    assert ("," + tail)[1..] == tail;
  }

  /** What is printed after the first member. */
  function AfterMember(members: seq<Member>): string
    requires members != []
  {
    if |members| == 1 then "}" else "," + PrintMembers(members[1..])
  }

  lemma RegroupMember(a: string, b: string, c: string, d: string, rest: string)
    ensures (a + b + c + d) + rest == a + (b + (c + (d + rest)))
  {
  }

  lemma Quoted(t: Text)
    ensures PrintString(t) != "" && PrintString(t)[0] == '"'
  {
  }

  lemma MembersFront(members: seq<Member>, rest: string)
    requires members != []
    ensures PrintMembers(members) + rest
         == PrintString(members[0].name) + (":" + (Print(members[0].value) + (AfterMember(members) + rest)))
    ensures PrintMembers(members) != "" && PrintMembers(members)[0] == '"'
  {
    hide PrintString, Print, EscapeAll;
    var name, value := PrintString(members[0].name), Print(members[0].value);
    assert PrintMembers(members) == name + ":" + value + AfterMember(members);
    RegroupMember(name, ":", value, AfterMember(members), rest);
    Quoted(members[0].name);
  }

  lemma FirstMember(members: seq<Member>, rest: string)
    requires members != []
    requires var v, after := members[0].value, AfterMember(members) + rest;
      ParseValue(Print(v) + after) == Some((CanonicalValue(v), after))
    ensures ParseMember(PrintMembers(members) + rest)
         == Some((Member(Canonical(members[0].name), CanonicalValue(members[0].value)), AfterMember(members) + rest))
  {
    hide PrintString, ParseMember, AfterMember;
    MembersFront(members, rest);
    MemberParsed(members[0].name, members[0].value, AfterMember(members) + rest);
  }

  lemma {:induction false} MembersRoundTrip(members: seq<Member>, rest: string)
    requires members != []
    ensures ParseMembers(PrintMembers(members) + rest) == Some((CanonicalMembers(members), rest))
    decreases members
  {
    hide PrintString, Print, ParseMember, ParseMembers, ParseValue, Skip;
    var m := members[0];
    var s, parsed := PrintMembers(members) + rest, Member(Canonical(m.name), CanonicalValue(m.value));
    ValueRoundTrip(m.value, AfterMember(members) + rest);
    FirstMember(members, rest);
    assert CanonicalMembers(members) == [parsed] + CanonicalMembers(members[1..]);
    if |members| == 1 {
      assert CanonicalMembers(members) == [parsed];
      LastMember(s, parsed, rest);
    } else {
      var tail := PrintMembers(members[1..]) + rest;
      assert AfterMember(members) + rest == "," + tail;
      MembersFront(members[1..], rest);
      MembersRoundTrip(members[1..], rest);
      MoreMembers(s, parsed, tail, CanonicalMembers(members[1..]), rest);
    }
  }

  lemma MemberParsed(name: Text, v: Value, rest: string)
    requires ParseValue(Print(v) + rest) == Some((CanonicalValue(v), rest))
    ensures ParseMember(PrintString(name) + (":" + (Print(v) + rest)))
        == Some((Member(Canonical(name), CanonicalValue(v)), rest))
  {
    hide PrintString;
    var tail := ":" + (Print(v) + rest);
    StringParsed(name, tail);
    assert tail[1..] == Print(v) + rest;
    PrintStarts(v);
    SkipNothing(tail);
    SkipNothing(tail[1..]);
  }

  /** A printed document parses back to itself up to its surrogate pairs. */
  lemma RoundTrip(v: Value)
    ensures Parse(Print(v)) == Some(CanonicalValue(v))
  {
    PrintStarts(v);
    SkipNothing(Print(v));
    ValueRoundTrip(v, "");
    assert Print(v) + "" == Print(v);
  }

  // ---------------------------------------------------------------- the form of an escape

  predicate LowerHex(c: char) { '0' <= c <= '9' || 'a' <= c <= 'f' }

  /** A `\u` escape of this unit in four lower-case digits. */
  predicate IsUnit(s: string, u: int) {
    && |s| == 6 && s[0] == '\\' && s[1] == 'u' && (forall i | 2 <= i < 6 :: LowerHex(s[i]))
    && UnitAt(s).Some? && UnitAt(s).value == u
  }

  /**
   Printable ASCII stands for itself, but for the quote and the backslash; those and five controls have their short
   escapes; every other code point is one lower-case escape, and past the first plane the pair that stands for it.
   */
  lemma EscapeExactly(c: CodePoint)
    ensures 0x20 <= c <= 0x7E && c != 0x22 && c != 0x5C ==> Escape(c) == [c as char]
    ensures Escape(0x22) == ['\\', '"'] && Escape(0x5C) == ['\\', '\\']
    ensures Escape(0x08) == ['\\', 'b'] && Escape(0x09) == ['\\', 't'] && Escape(0x0A) == ['\\', 'n']
    ensures Escape(0x0C) == ['\\', 'f'] && Escape(0x0D) == ['\\', 'r']
    ensures (c < 0x20 && c !in {0x08, 0x09, 0x0A, 0x0C, 0x0D}) || 0x7F <= c < 0x10000 ==> IsUnit(Escape(c), c)
    ensures c >= 0x10000 ==> |Escape(c)| == 12
    ensures c >= 0x10000 ==>
      exists high: CodePoint, low: CodePoint :: High(high) && Low(low) && Joined(high, low) == c
        && IsUnit(Escape(c)[..6], high) && IsUnit(Escape(c)[6..], low)
  {
    hide HexDigit, UnitAt, HexValue;
    if (c < 0x20 && c !in {0x08, 0x09, 0x0A, 0x0C, 0x0D}) || 0x7F <= c < 0x10000 { UnitForm(c); }
    if c >= 0x10000 {
      var high: CodePoint, low: CodePoint := 0xD800 + (c - 0x10000) / 0x400, 0xDC00 + (c - 0x10000) % 0x400;
      UnitForm(high);
      UnitForm(low);
      assert Escape(c)[..6] == Unit(high) && Escape(c)[6..] == Unit(low);
      assert High(high) && Low(low) && Joined(high, low) == c;
    }
  }

  lemma UnitForm(u: nat)
    requires u < 0x10000
    ensures IsUnit(Unit(u), u)
  {
    hide HexValue, UnitAt;
    UnitRoundTrip(u, "");
    assert Unit(u) + "" == Unit(u);
  }

  /** Compact form: nothing but the brackets, commas and colons beside the values, and never a space between them. */
  lemma {:induction false} ItemsTight(items: seq<Value>)
    requires items != []
    ensures |PrintItems(items)| == ItemsWidth(items)
    decreases |items|
  {
    hide Print;
    if |items| > 1 { ItemsTight(items[1..]); }
  }

  function ItemsWidth(items: seq<Value>): nat {
    if items == [] then 0 else |Print(items[0])| + 1 + ItemsWidth(items[1..])
  }

  function MembersWidth(members: seq<Member>): nat {
    if members == [] then 0
    else |EscapeAll(members[0].name)| + 2 + 1 + |Print(members[0].value)| + 1 + MembersWidth(members[1..])
  }

  lemma {:induction false} MembersTight(members: seq<Member>)
    requires members != []
    ensures |PrintMembers(members)| == MembersWidth(members)
    decreases |members|
  {
    hide Print, EscapeAll;
    if |members| > 1 { MembersTight(members[1..]); }
  }

  // ---------------------------------------------------------------- what a parsed string cannot hold

  /** A high surrogate is read alone only where no low one is escaped next. */
  lemma HighAlone(s: string)
    requires s != "" && ParseChar(s).Some? && High(ParseChar(s).value.0)
    ensures var next := UnitAt(ParseChar(s).value.1); next.None? || !Low(next.value)
  {
    hide UnitAt;
  }

  /** A low surrogate is only ever read from its escape. */
  lemma LowEscaped(s: string)
    requires s != "" && ParseChar(s).Some? && Low(ParseChar(s).value.0)
    ensures UnitAt(s).Some? && Low(UnitAt(s).value)
  {
    hide UnitAt;
  }

  /** So no parsed string holds a high surrogate followed by a low one. */
  lemma {:induction false} ParsedUnpaired(s: string)
    requires ParseChars(s).Some?
    ensures Unpaired(ParseChars(s).value.0)
    decreases |s|
  {
    hide ParseChar, UnitAt, High, Low;
    if s != "" && s[0] != '"' {
      var c := ParseChar(s);
      var next := c.value.1;
      ParsedUnpaired(next);
      var t, rest := ParseChars(s).value.0, ParseChars(next).value.0;
      if rest != [] && High(t[0]) && Low(rest[0]) {
        HighAlone(s);
        LowEscaped(next);
      }
      forall i | 0 <= i < |t| - 1 ensures !(High(t[i]) && Low(t[i + 1])) {
        if i > 0 { assert t[i] == rest[i - 1] && t[i + 1] == rest[i]; }
      }
    }
  }

  lemma ParsedText(s: string)
    requires ParseChars(s).Some?
    ensures Canonical(ParseChars(s).value.0) == ParseChars(s).value.0
  {
    ParsedUnpaired(s);
    CanonicalExactly(ParseChars(s).value.0);
  }

  /** Reading joins every pair there is: a parsed value is its own canonical form. */
  lemma {:induction false} ParsedCanonical(s: string)
    requires ParseValue(s).Some?
    ensures CanonicalValue(ParseValue(s).value.0) == ParseValue(s).value.0
    decreases |s|, 1
  {
    hide ParseChars, Canonical, ParseDigits;
    if s[0] == '"' {
      ParsedText(s[1..]);
    } else if s[0] == '[' {
      var inside := Skip(s[1..]);
      if !(inside != "" && inside[0] == ']') { ItemsCanonical(inside); }
    } else if s[0] == '{' {
      var inside := Skip(s[1..]);
      if !(inside != "" && inside[0] == '}') { MembersCanonical(inside); }
    }
  }

  lemma {:induction false} ItemsCanonical(s: string)
    requires ParseItems(s).Some?
    ensures CanonicalItems(ParseItems(s).value.0) == ParseItems(s).value.0
    decreases |s|, 2
  {
    hide ParseValue, CanonicalValue;
    ParsedCanonical(s);
    var next := Skip(ParseValue(s).value.1);
    if next[0] != ']' { ItemsCanonical(Skip(next[1..])); }
  }

  lemma {:induction false} MemberCanonical(s: string)
    requires ParseMember(s).Some?
    ensures var m := ParseMember(s).value.0; Canonical(m.name) == m.name && CanonicalValue(m.value) == m.value
    decreases |s|, 2
  {
    hide ParseValue, CanonicalValue, ParseChars, Canonical;
    ParsedText(s[1..]);
    var colon := Skip(ParseChars(s[1..]).value.1);
    ParsedCanonical(Skip(colon[1..]));
  }

  lemma {:induction false} MembersCanonical(s: string)
    requires ParseMembers(s).Some?
    ensures CanonicalMembers(ParseMembers(s).value.0) == ParseMembers(s).value.0
    decreases |s|, 3
  {
    hide ParseMember, CanonicalValue, Canonical;
    MemberCanonical(s);
    var next := Skip(ParseMember(s).value.1);
    if next[0] != '}' { MembersCanonical(Skip(next[1..])); }
  }

  /** Every document read is its own canonical form. */
  lemma DocumentCanonical(s: string)
    requires Parse(s).Some?
    ensures CanonicalValue(Parse(s).value) == Parse(s).value
  {
    hide ParseValue, CanonicalValue;
    ParsedCanonical(Skip(s));
  }
}
