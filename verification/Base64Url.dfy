/** The URL-safe base64 alphabet with its padding stripped and put back (RFC 4648 sections 3.2 and 5). */
module Base64Url {
  import opened Options

  type Byte = b: int | 0 <= b < 256
  type Sextet = v: int | 0 <= v < 64

  function Digit(v: Sextet): (c: char)
    ensures Value(c) == Some(v) && c != '='
  {
    if v < 26 then 'A' + v as char
    else if v < 52 then 'a' + (v - 26) as char
    else if v < 62 then '0' + (v - 52) as char
    else if v == 62 then '-'
    else '_'
  }

  /** The decoder translates the two URL-safe characters and goes on accepting the two they stand for. */
  function Value(c: char): Option<Sextet> {
    if 'A' <= c <= 'Z' then Some((c - 'A') as int)
    else if 'a' <= c <= 'z' then Some((c - 'a') as int + 26)
    else if '0' <= c <= '9' then Some((c - '0') as int + 52)
    else if c == '-' || c == '+' then Some(62)
    else if c == '_' || c == '/' then Some(63)
    else None
  }

  /** One to three bytes as four characters, padded. */
  function Block(b: seq<Byte>): (s: string)
    requires 1 <= |b| <= 3
    ensures |s| == 4
  {
    if |b| == 1 then [Digit(b[0] / 4), Digit(b[0] % 4 * 16), '=', '=']
    else if |b| == 2 then [Digit(b[0] / 4), Digit(b[0] % 4 * 16 + b[1] / 16), Digit(b[1] % 16 * 4), '=']
    else [Digit(b[0] / 4), Digit(b[0] % 4 * 16 + b[1] / 16), Digit(b[1] % 16 * 4 + b[2] / 64), Digit(b[2] % 64)]
  }

  /** Standard padded encoding. */
  function Encode(bytes: seq<Byte>): string {
    if bytes == [] then ""
    else if |bytes| <= 3 then Block(bytes)
    else Block(bytes[..3]) + Encode(bytes[3..])
  }

  function DecodeBlock(s: string): (r: Option<seq<Byte>>)
    requires |s| == 4
    ensures r.Some? ==> 1 <= |r.value| <= 3
  {
    var a, b, c, d := Value(s[0]), Value(s[1]), Value(s[2]), Value(s[3]);
    if a.None? || b.None? then None
    else if s[2] == '=' && s[3] == '=' then Some([a.value * 4 + b.value / 16])
    else if c.None? then None
    else if s[3] == '=' then Some([a.value * 4 + b.value / 16, b.value % 16 * 16 + c.value / 4])
    else if d.None? then None
    else Some([a.value * 4 + b.value / 16, b.value % 16 * 16 + c.value / 4, c.value % 4 * 64 + d.value])
  }

  /** Strict decoding of padded text: padding only at the end, and every other character in the alphabet. */
  function Decode(s: string): Option<seq<Byte>> {
    if s == "" then Some([])
    else if |s| < 4 then None
    else if |s| == 4 then DecodeBlock(s)
    else
      var first, rest := DecodeBlock(s[..4]), Decode(s[4..]);
      if first.None? || rest.None? || |first.value| < 3 then None else Some(first.value + rest.value)
  }

  lemma BlockRoundTrip(b: seq<Byte>)
    requires 1 <= |b| <= 3
    ensures DecodeBlock(Block(b)) == Some(b)
  {
    if |b| == 1 {
      assert b == [b[0]];
    } else if |b| == 2 {
      assert b == [b[0], b[1]];
    } else {
      assert b == [b[0], b[1], b[2]];
    }
  }

  lemma {:induction false} DecodeEncode(bytes: seq<Byte>)
    ensures Decode(Encode(bytes)) == Some(bytes)
    ensures |Encode(bytes)| % 4 == 0 && (bytes == [] <==> Encode(bytes) == [])
    decreases |bytes|
  {
    hide Block, DecodeBlock;
    if bytes == [] {
    } else if |bytes| <= 3 {
      BlockRoundTrip(bytes);
    } else {
      var head, tail := Block(bytes[..3]), Encode(bytes[3..]);
      BlockRoundTrip(bytes[..3]);
      DecodeEncode(bytes[3..]);
      assert (head + tail)[..4] == head && (head + tail)[4..] == tail;
      assert bytes == bytes[..3] + bytes[3..];
      LengthByFours(head + tail);
    }
  }

  lemma LengthByFours(s: string)
    requires |s| >= 4 && |s[4..]| % 4 == 0
    ensures |s| % 4 == 0
  {
  }

  /** Trailing padding stripped. */
  function Strip(s: string): string {
    if s != "" && s[|s| - 1] == '=' then Strip(s[..|s| - 1]) else s
  }

  /** As many padding characters as bring the length to a multiple of four. */
  function Pad(s: string): string {
    s + seq((4 - |s| % 4) % 4, _ => '=')
  }

  /** The padding characters at the end of the encoding of n bytes. */
  function Padding(n: nat): nat {
    if n == 0 then 0 else if n <= 3 then 3 - n else Padding(n - 3)
  }

  ghost predicate PaddedBy(s: string, n: nat) {
    && n <= 2 && n <= |s|
    && (s != "" ==> n < |s| && s[|s| - n - 1] != '=')
    && forall i | |s| - n <= i < |s| :: s[i] == '='
  }

  /** An encoding ends in its padding and nothing before that is padding. */
  lemma {:induction false} PaddingAtTheEnd(bytes: seq<Byte>)
    ensures PaddedBy(Encode(bytes), Padding(|bytes|))
    decreases |bytes|
  {
    hide Digit, Value;
    if |bytes| > 3 {
      PaddingAtTheEnd(bytes[3..]);
      DecodeEncode(bytes[3..]);
      PaddedSuffix(Block(bytes[..3]), Encode(bytes[3..]), Padding(|bytes|));
    }
  }

  lemma PaddedSuffix(head: string, tail: string, n: nat)
    requires tail != "" && PaddedBy(tail, n)
    ensures PaddedBy(head + tail, n)
  {
    var s := head + tail;
    assert forall i | |head| <= i < |s| :: s[i] == tail[i - |head|];
  }

  /** Strip takes off exactly a run of padding that follows some other character. */
  lemma {:induction false} StripSuffix(s: string, n: nat)
    requires n < |s| && s[|s| - n - 1] != '=' && forall i | |s| - n <= i < |s| :: s[i] == '='
    ensures Strip(s) == s[..|s| - n]
    decreases n
  {
    if n > 0 {
      StripSuffix(s[..|s| - 1], n - 1);
      assert s[..|s| - 1][..|s| - n] == s[..|s| - n];
    } else {
      assert s[..|s|] == s;
    }
  }

  lemma MissingPadding(length: nat, n: nat)
    requires n <= 2 && n <= length && length % 4 == 0
    ensures (4 - (length - n) % 4) % 4 == n
  {
  }

  lemma PadStripped(s: string, n: nat)
    requires |s| % 4 == 0 && PaddedBy(s, n)
    ensures Pad(Strip(s)) == s
  {
    if s != "" {
      StripSuffix(s, n);
      MissingPadding(|s|, n);
      assert Pad(s[..|s| - n]) == s;
    }
  }

  /** Stripping loses nothing: with its padding put back the text is the padded encoding again. */
  lemma PaddingRestored(bytes: seq<Byte>)
    ensures Pad(Strip(Encode(bytes))) == Encode(bytes)
  {
    hide PaddedBy, Pad;
    DecodeEncode(bytes);
    PaddingAtTheEnd(bytes);
    PadStripped(Encode(bytes), Padding(|bytes|));
  }

  /** The strict reader undoes the unpadded form. */
  lemma UnpaddedRoundTrip(bytes: seq<Byte>)
    ensures Decode(Pad(Strip(Encode(bytes)))) == Some(bytes)
  {
    PaddingRestored(bytes);
    DecodeEncode(bytes);
  }

  // ---------------------------------------------------------------- the alphabet itself

  const UPPER := "ABCDEFGHIJKLMNOPQRSTUVWXYZ"
  const LOWER := "abcdefghijklmnopqrstuvwxyz"
  const NUMERALS := "0123456789"

  /** Table 2 of section 5 of RFC 4648. */
  function Alphabet(): (s: string)
    ensures |s| == 64
  {
    UPPER + LOWER + NUMERALS + "-_"
  }

  lemma DigitListed(v: Sextet)
    ensures Digit(v) == Alphabet()[v]
  {
    hide Alphabet;
    if v < 26 {
      UpperListed(v);
    } else if v < 52 {
      LowerListed(v - 26);
    } else if v < 62 {
      NumeralListed(v - 52);
    } else {
      SymbolListed(v - 62);
    }
  }

  lemma UpperListed(i: nat)
    requires i < 26
    ensures UPPER[i] == 'A' + i as char && Alphabet()[i] == UPPER[i]
  {
    assert |UPPER| == 26;
  }

  lemma LowerListed(i: nat)
    requires i < 26
    ensures LOWER[i] == 'a' + i as char && Alphabet()[26 + i] == LOWER[i]
  {
    assert |UPPER| == 26 && |LOWER| == 26;
  }

  lemma NumeralListed(i: nat)
    requires i < 10
    ensures NUMERALS[i] == '0' + i as char && Alphabet()[52 + i] == NUMERALS[i]
  {
    assert |UPPER| == 26 && |LOWER| == 26 && |NUMERALS| == 10;
  }

  lemma SymbolListed(i: nat)
    requires i < 2
    ensures Alphabet()[62 + i] == "-_"[i]
  {
    assert |UPPER| == 26 && |LOWER| == 26 && |NUMERALS| == 10;
  }

  /** Bytes as one number. */
  function Number(b: seq<int>, base: nat): int {
    if b == [] then 0 else Number(b[..|b| - 1], base) * base + b[|b| - 1]
  }

  /**
   A block is its bytes as one number, zeros for those it lacks, in four digits of the table; padding stands for as
   many digits as there are bytes lacking.
   */
  lemma BlockIsNumber(b: seq<Byte>) returns (v: seq<Sextet>)
    requires 1 <= |b| <= 3
    ensures |v| == 4 && forall i | 0 <= i < |b| + 1 :: Block(b)[i] == Alphabet()[v[i]]
    ensures forall i | |b| + 1 <= i < 4 :: Block(b)[i] == '='
    ensures Number(v, 64) == Number(b + seq(3 - |b|, _ => 0), 256)
  {
    hide Digit, Alphabet, Number, Value;
    var full: seq<Byte> := b + seq(3 - |b|, _ => 0);
    v := Regrouped(full);
    forall i | 0 <= i < 4 { DigitListed(v[i]); }
  }

  /** Three bytes and the four digits of their number. */
  lemma Regrouped(b: seq<Byte>) returns (v: seq<Sextet>)
    requires |b| == 3
    ensures |v| == 4 && Number(v, 64) == Number(b, 256)
    ensures v == [b[0] / 4, b[0] % 4 * 16 + b[1] / 16, b[1] % 16 * 4 + b[2] / 64, b[2] % 64]
  {
    hide Number;
    v := [b[0] / 4, b[0] % 4 * 16 + b[1] / 16, b[1] % 16 * 4 + b[2] / 64, b[2] % 64];
    NumberOf3(b, 256);
    NumberOf4(v, 64);
    Carried(b[0], b[1], b[2]);
  }

  lemma Carried(x: Byte, y: Byte, z: Byte)
    ensures ((x / 4 * 64 + (x % 4 * 16 + y / 16) as int) * 64 + (y % 16 * 4 + z / 64)) * 64 + z % 64
         == (x as int * 256 + y) * 256 + z
  {
  }

  lemma NumberOf3(b: seq<int>, base: nat)
    requires |b| == 3
    ensures Number(b, base) == (b[0] * base + b[1]) * base + b[2]
  {
    assert b[..2][..1] == [b[0]];
    assert Number([b[0]], base) == b[0];
    assert Number(b[..2], base) == b[0] * base + b[1];
  }

  lemma NumberOf4(b: seq<int>, base: nat)
    requires |b| == 4
    ensures Number(b, base) == ((b[0] * base + b[1]) * base + b[2]) * base + b[3]
  {
    NumberOf3(b[..3], base);
  }

  predicate Plain(c: char) {
    'A' <= c <= 'Z' || 'a' <= c <= 'z' || '0' <= c <= '9' || c == '-' || c == '_'
  }

  /**
   An encoding holds only letters, digits, hyphens and underscores, and at its end the padding the number of
   bytes calls for.
   */
  lemma {:induction false} EncodedPlain(bytes: seq<Byte>)
    ensures var s, n := Encode(bytes), Padding(|bytes|);
      && |s| == (|bytes| + 2) / 3 * 4 && n <= 2 && n <= |s|
      && (forall i | 0 <= i < |s| - n :: Plain(s[i])) && (forall i | |s| - n <= i < |s| :: s[i] == '=')
    decreases |bytes|
  {
    hide Block, Plain;
    if |bytes| > 3 {
      EncodedPlain(bytes[3..]);
      BlockPlain(bytes[..3]);
      assert |Encode(bytes)| == 4 + |Encode(bytes[3..])|;
      var head, tail, n := Block(bytes[..3]), Encode(bytes[3..]), Padding(|bytes|);
      assert n <= |tail|;
      PlainThen(head, tail, n);
    } else if bytes != [] {
      BlockPlain(bytes);
    }
  }

  lemma PlainThen(head: string, tail: string, n: nat)
    requires n <= |tail| && (forall i | 0 <= i < |head| :: Plain(head[i]))
    requires (forall i | 0 <= i < |tail| - n :: Plain(tail[i])) && forall i | |tail| - n <= i < |tail| :: tail[i] == '='
    ensures var s := head + tail;
      && (forall i | 0 <= i < |s| - n :: Plain(s[i])) && forall i | |s| - n <= i < |s| :: s[i] == '='
  {
    hide Plain;
  }

  lemma BlockPlain(b: seq<Byte>)
    requires 1 <= |b| <= 3
    ensures forall i | 0 <= i < |b| + 1 :: Plain(Block(b)[i])
    ensures forall i | |b| + 1 <= i < 4 :: Block(b)[i] == '='
  {
    forall v: Sextet ensures Plain(Digit(v)) {}
    hide Digit;
  }

  // ---------------------------------------------------------------- the forgiving decoder

  /**
   Decoding that passes over characters outside the alphabet and stops at the padding that fills a
   block: pos characters of the block have been read, left holds their bits not yet given out.
   */
  function Loose(s: string, pos: nat, left: nat, pads: nat): Option<seq<Byte>>
    requires pos < 4 && left < [1, 64, 16, 4][pos]
  {
    if s == "" then if pos == 0 then Some([]) else None
    else if s[0] == '=' then
      if pos >= 2 && pos + pads + 1 >= 4 then Some([])
      else Loose(s[1..], pos, left, if pos >= 2 then pads + 1 else pads)
    else
      var v := Value(s[0]);
      if v.None? then Loose(s[1..], pos, left, pads)
      else if pos == 0 then Loose(s[1..], 1, v.value, 0)
      else if pos == 1 then Prepend(left * 4 + v.value / 16, Loose(s[1..], 2, v.value % 16, 0))
      else if pos == 2 then Prepend(left * 16 + v.value / 4, Loose(s[1..], 3, v.value % 4, 0))
      else Prepend(left * 64 + v.value, Loose(s[1..], 0, 0, 0))
  }

  function Prepend(b: Byte, rest: Option<seq<Byte>>): Option<seq<Byte>> {
    if rest.None? then None else Some([b] + rest.value)
  }

  /** The first two characters of a block. */
  lemma LoosePair(s: string)
    requires |s| >= 2 && Value(s[0]).Some? && Value(s[1]).Some?
    ensures Loose(s, 0, 0, 0)
        == Prepend(Value(s[0]).value * 4 + Value(s[1]).value / 16, Loose(s[2..], 2, Value(s[1]).value % 16, 0))
  {
    hide Value;
    NotPadding(s[0]);
    NotPadding(s[1]);
    var a: nat, b: nat := Value(s[0]).value, Value(s[1]).value;
    assert s[1..][1..] == s[2..];
    assert Loose(s, 0, 0, 0) == Loose(s[1..], 1, a, 0);
    assert Loose(s[1..], 1, a, 0) == Prepend(a * 4 + b / 16, Loose(s[1..][1..], 2, b % 16, 0));
  }

  lemma NotPadding(c: char)
    ensures Value(c).Some? ==> c != '='
  {
  }

  /** Characters three and four of a block without padding. */
  lemma LooseTail(s: string, left: nat)
    requires |s| >= 2 && Value(s[0]).Some? && Value(s[1]).Some? && left < 16
    ensures Loose(s, 2, left, 0)
         == Prepend(left * 16 + Value(s[0]).value / 4,
                    Prepend(Value(s[0]).value % 4 * 64 + Value(s[1]).value, Loose(s[2..], 0, 0, 0)))
  {
    hide Value;
    NotPadding(s[0]);
    NotPadding(s[1]);
    var c: nat, d: nat := Value(s[0]).value, Value(s[1]).value;
    assert s[1..][1..] == s[2..];
    assert Loose(s, 2, left, 0) == Prepend(left * 16 + c / 4, Loose(s[1..], 3, c % 4, 0));
    assert Loose(s[1..], 3, c % 4, 0) == Prepend(c % 4 * 64 + d, Loose(s[1..][1..], 0, 0, 0));
  }

  /** Padding that fills a block ends the reading. */
  lemma LoosePadding(s: string, left: nat)
    requires |s| == 2 && s[1] == '=' && left < 16 && (s[0] == '=' || Value(s[0]).Some?)
    ensures Loose(s, 2, left, 0) == if s[0] == '=' then Some([]) else Some([left * 16 + Value(s[0]).value / 4])
  {
    hide Value;
    NotPadding(s[0]);
    if s[0] == '=' {
      assert Loose(s[1..], 2, left, 1) == Some([]);
    } else {
      var c: nat := Value(s[0]).value;
      assert Loose(s, 2, left, 0) == Prepend(left * 16 + c / 4, Loose(s[1..], 3, c % 4, 0));
      assert Loose(s[1..], 3, c % 4, 0) == Some([]);
      var b: Byte := left * 16 + c / 4;
      assert [b] + [] == [b];
    }
  }

  lemma LooseBlock(s: string)
    requires |s| >= 4 && DecodeBlock(s[..4]).Some?
    requires |s| == 4 || |DecodeBlock(s[..4]).value| == 3
    ensures Loose(s, 0, 0, 0) ==
      var first, rest := DecodeBlock(s[..4]).value, Loose(s[4..], 0, 0, 0);
      if |s| == 4 then Some(first) else if rest.None? then None else Some(first + rest.value)
  {
    hide Value, Loose;
    NotPadding(s[2]);
    NotPadding(s[3]);
    LoosePair(s);
    var left := Value(s[1]).value % 16;
    assert s[2..][2..] == s[4..];
    var first, rest := DecodeBlock(s[..4]).value, Loose(s[4..], 0, 0, 0);
    if s[3] == '=' {
      LoosePadding(s[2..], left);
      assert first == [first[0]] + first[1..];
    } else {
      LooseTail(s[2..], left);
      LooseEmpty();
      assert s[2..][0] == s[2] && s[2..][1] == s[3];
      assert first == [first[0], first[1], first[2]];
      assert Loose(s, 0, 0, 0) == Prepend(first[0], Prepend(first[1], Prepend(first[2], rest)));
      if |s| == 4 { assert s[4..] == "" && rest == Some([]) && first + rest.value == first; }
      if rest.Some? { assert [first[0]] + ([first[1]] + ([first[2]] + rest.value)) == first + rest.value; }
    }
  }

  lemma LooseEmpty()
    ensures Loose("", 0, 0, 0) == Some([])
  {
  }

  /** The forgiving decoder agrees with the strict one on everything the strict one accepts. */
  lemma {:induction false} LooseExtendsStrict(s: string)
    requires Decode(s).Some?
    ensures Loose(s, 0, 0, 0) == Decode(s)
    decreases |s|
  {
    hide DecodeBlock, Value, Prepend;
    if |s| > 4 {
      LooseExtendsStrict(s[4..]);
      LooseBlock(s);
    } else if s != "" {
      assert s[..4] == s;
      LooseBlock(s);
    }
  }

  /** The text of n bytes has four characters for every three bytes, a last group counted by its own bytes. */
  lemma {:induction false} UnpaddedLength(bytes: seq<Byte>)
    ensures 3 * |Strip(Encode(bytes))| == 4 * |bytes| + Padding(|bytes|)
  {
    hide PaddedBy;
    PaddingAtTheEnd(bytes);
    PaddedLength(bytes);
    StripPadded(Encode(bytes), Padding(|bytes|));
  }

  lemma StripPadded(s: string, n: nat)
    requires PaddedBy(s, n) && (s == "" ==> n == 0)
    ensures |Strip(s)| == |s| - n
  {
    if s != "" { StripSuffix(s, n); }
  }

  lemma {:induction false} PaddedLength(bytes: seq<Byte>)
    ensures 3 * |Encode(bytes)| == 4 * (|bytes| + Padding(|bytes|))
    decreases |bytes|
  {
    hide Block;
    if |bytes| > 3 {
      PaddedLength(bytes[3..]);
    }
  }
}
