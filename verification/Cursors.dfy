/**
 Opaque page cursors: compact JSON, base64url, padding stripped, and back.

 The host listings carry the noun of the listing and the last sort key; the activity feed carries the
 query scope, the high water and the last entry, with a checksum over them.
 */
module Cursors {
  import opened Options
  import opened Json
  import B64 = Base64Url

  datatype Refusal = InvalidCursor

  // ---------------------------------------------------------------- the shared transport

  predicate Ascii(s: string) { forall i | 0 <= i < |s| :: s[i] as int < 128 }

  function Bytes(s: string): (b: seq<B64.Byte>)
    requires Ascii(s)
    ensures |b| == |s|
  {
    seq(|s|, i requires 0 <= i < |s| => s[i] as int)
  }

  function Chars(b: seq<B64.Byte>): Option<string> {
    if exists i | 0 <= i < |b| :: b[i] >= 128 then None
    else Some(seq(|b|, i requires 0 <= i < |b| => b[i] as char))
  }

  function Wire(v: Value): string {
    PrintAscii(v);
    B64.Strip(B64.Encode(Bytes(Print(v))))
  }

  function Document(bytes: Option<seq<B64.Byte>>): Option<Value> {
    if bytes.None? then None
    else
      var text := Chars(bytes.value);
      if text.None? then None else Parse(text.value)
  }

  /** Read by the decoder that accepts nothing outside the alphabet. */
  function ReadStrict(text: string): Option<Value> {
    Document(B64.Decode(B64.Pad(text)))
  }

  /** Read by the decoder that passes over foreign ASCII characters. */
  function ReadLoose(text: string): Option<Value> {
    if !Ascii(text) then None else Document(B64.Loose(B64.Pad(text), 0, 0, 0))
  }

  lemma {:induction false} EscapeAllAscii(t: Text)
    ensures Ascii(EscapeAll(t))
  {
    hide Ascii, Escape;
    if t != [] {
      EscapeAscii(t[0]);
      EscapeAllAscii(t[1..]);
      AsciiJoined(Escape(t[0]), EscapeAll(t[1..]));
    } else {
      AsciiEmpty();
    }
  }

  lemma EscapeAscii(c: CodePoint)
    ensures Ascii(Escape(c))
  {
  }

  lemma AsciiJoined(a: string, b: string)
    requires Ascii(a) && Ascii(b)
    ensures Ascii(a + b)
  {
  }

  lemma AsciiEmpty()
    ensures Ascii("")
  {
  }

  lemma {:induction false} PrintAscii(v: Value)
    ensures Ascii(Print(v))
    decreases v
  {
    match v
    case Null | Bool(_) | Number(_) =>
    case String(t) => EscapeAllAscii(t);
    case Array(items) => if items != [] { ItemsAscii(items); }
    case Object(members) => if members != [] { MembersAscii(members); }
  }

  lemma {:induction false} ItemsAscii(items: seq<Value>)
    requires items != []
    ensures Ascii(PrintItems(items))
    decreases items
  {
    PrintAscii(items[0]);
    if |items| > 1 { ItemsAscii(items[1..]); }
  }

  lemma {:induction false} MembersAscii(members: seq<Member>)
    requires members != []
    ensures Ascii(PrintMembers(members))
    decreases members
  {
    EscapeAllAscii(members[0].name);
    PrintAscii(members[0].value);
    if |members| > 1 { MembersAscii(members[1..]); }
  }

  lemma CharsOfBytes(s: string)
    requires Ascii(s)
    ensures Chars(Bytes(s)) == Some(s)
  {
    assert Chars(Bytes(s)).value == s;
  }

  /** Both readers give a printed document back up to its surrogate pairs. */
  lemma WireRoundTrip(v: Value)
    ensures ReadStrict(Wire(v)) == Some(CanonicalValue(v))
    ensures ReadLoose(Wire(v)) == Some(CanonicalValue(v))
  {
    hide Bytes, Chars, Ascii, Parse;
    PrintAscii(v);
    var bytes := Bytes(Print(v));
    B64.UnpaddedRoundTrip(bytes);
    B64.LooseExtendsStrict(B64.Pad(Wire(v)));
    CharsOfBytes(Print(v));
    RoundTrip(v);
    WireAscii(v);
  }

  lemma WireAscii(v: Value)
    ensures Ascii(Wire(v))
  {
    PrintAscii(v);
    EncodeAscii(Bytes(Print(v)));
    StripAscii(B64.Encode(Bytes(Print(v))));
  }

  lemma {:induction false} EncodeAscii(bytes: seq<B64.Byte>)
    ensures Ascii(B64.Encode(bytes))
    decreases |bytes|
  {
    hide Ascii, B64.Block;
    if |bytes| > 3 {
      BlockAscii(bytes[..3]);
      EncodeAscii(bytes[3..]);
      AsciiJoined(B64.Block(bytes[..3]), B64.Encode(bytes[3..]));
    } else if bytes != [] {
      BlockAscii(bytes);
    } else {
      AsciiEmpty();
    }
  }

  lemma BlockAscii(bytes: seq<B64.Byte>)
    requires 1 <= |bytes| <= 3
    ensures Ascii(B64.Block(bytes))
  {
  }

  lemma {:induction false} StripAscii(s: string)
    requires Ascii(s)
    ensures Ascii(B64.Strip(s))
    decreases |s|
  {
    if s != "" && s[|s| - 1] == '=' { StripAscii(s[..|s| - 1]); }
  }

  // ---------------------------------------------------------------- host listing cursors

  function Strings(key: seq<Text>): seq<Value> {
    seq(|key|, i requires 0 <= i < |key| => String(key[i]))
  }

  function EncodeKey(noun: Text, key: seq<Text>): string {
    Wire(Array([String(noun), Array(Strings(key))]))
  }

  /** Reads a listing's key back; a text not written for this noun and this number of keys is no cursor of it. */
  function DecodeKey(noun: Text, value: string, size: nat): Result<seq<Text>, Refusal> {
    match ReadLoose(value)
    case Some(Array(pair)) =>
      if |pair| != 2 || pair[0] != String(noun) || !pair[1].Array? then Err(InvalidCursor)
      else
        var key := pair[1].items;
        if |key| != size || exists i | 0 <= i < |key| :: !key[i].String? then Err(InvalidCursor)
        else Ok(seq(|key|, i requires 0 <= i < |key| => key[i].text))
    case _ => Err(InvalidCursor)
  }

  function CanonicalTexts(key: seq<Text>): seq<Text> {
    seq(|key|, i requires 0 <= i < |key| => Canonical(key[i]))
  }

  lemma {:induction false} CanonicalItemsAt(items: seq<Value>)
    ensures |CanonicalItems(items)| == |items|
    ensures forall i | 0 <= i < |items| :: CanonicalItems(items)[i] == CanonicalValue(items[i])
  {
    if items != [] { CanonicalItemsAt(items[1..]); }
  }

  /** What any listing gets from any listing's cursor, for every noun, key and size. */
  lemma KeyRoundTrip(noun: Text, key: seq<Text>, asked: Text, size: nat)
    ensures DecodeKey(asked, EncodeKey(noun, key), size)
         == if Canonical(noun) == asked && size == |key| then Ok(CanonicalTexts(key)) else Err(InvalidCursor)
  {
    hide ReadLoose, Wire, Canonical;
    var pair := [String(noun), Array(Strings(key))];
    WireRoundTrip(Array(pair));
    CanonicalItemsAt(pair);
    CanonicalItemsAt(Strings(key));
    var read := CanonicalItems(pair);
    assert read[0] == String(Canonical(noun)) && read[1] == Array(CanonicalItems(Strings(key)));
    assert forall i | 0 <= i < |key| :: CanonicalItems(Strings(key))[i] == String(Canonical(key[i]));
    if Canonical(noun) == asked && size == |key| {
      assert DecodeKey(asked, EncodeKey(noun, key), size).value == CanonicalTexts(key);
    }
  }

  /** A listing gets its own key back exactly when no string in the cursor holds a surrogate pair. */
  lemma KeyReturned(noun: Text, key: seq<Text>)
    ensures DecodeKey(noun, EncodeKey(noun, key), |key|) == Ok(key)
        <==> Unpaired(noun) && forall i | 0 <= i < |key| :: Unpaired(key[i])
  {
    hide DecodeKey, EncodeKey, Unpaired, Canonical;
    KeyRoundTrip(noun, key, noun, |key|);
    CanonicalExactly(noun);
    forall i | 0 <= i < |key| ensures Canonical(key[i]) == key[i] <==> Unpaired(key[i]) { CanonicalExactly(key[i]); }
    assert CanonicalTexts(key) == key <==> forall i | 0 <= i < |key| :: Canonical(key[i]) == key[i];
  }

  /** A cursor made for another listing or with another number of keys is refused. */
  lemma ForeignKeyRefused(noun: Text, key: seq<Text>, asked: Text, size: nat)
    requires Unpaired(noun) && (noun != asked || |key| != size)
    ensures DecodeKey(asked, EncodeKey(noun, key), size) == Err(InvalidCursor)
  {
    hide DecodeKey, EncodeKey, Unpaired, Canonical;
    KeyRoundTrip(noun, key, asked, size);
    CanonicalExactly(noun);
  }

  // ---------------------------------------------------------------- activity cursors

  /** The position an activity page stopped at, and the query it belongs to. */
  datatype Cursor = Cursor(scope: Text, highWater: nat, at: Text, eventId: Text, entryId: Text)

  type Checksum = t: Text | |t| == 64 && Unpaired(t)
    ghost witness seq(64, _ => 0x30)

  const SCOPE: Text := [115, 99, 111, 112, 101]
  const HIGH_WATER: Text := [104, 105, 103, 104, 95, 119, 97, 116, 101, 114]
  const AT: Text := [97, 116]
  const EVENT_ID: Text := [101, 118, 101, 110, 116, 95, 105, 100]
  const ENTRY_ID: Text := [101, 110, 116, 114, 121, 95, 105, 100]
  const V: Text := [118]
  const MAX_HIGH_WATER := 9223372036854775807

  /** No surrogate at all, which the length-limited string fields demand. */
  ghost predicate Scalars(t: Text) { forall i | 0 <= i < |t| :: !High(t[i]) && !Low(t[i]) }

  /** What the cursor's own field limits demand. */
  ghost predicate WellFormed(c: Cursor) {
    && c.highWater <= MAX_HIGH_WATER
    && |c.at| <= 32 && Scalars(c.at)
    && |c.eventId| == 26 && Scalars(c.eventId)
    && |c.entryId| == 26 && Scalars(c.entryId)
  }

  predicate UlidChar(c: CodePoint) {
    var upper := if 0x61 <= c <= 0x7A then c - 0x20 else c;
    0x30 <= c <= 0x39 || (0x41 <= upper <= 0x5A && upper !in {0x49, 0x4C, 0x4F, 0x55})
  }

  predicate IsUlid(t: Text) {
    |t| == 26 && t[0] <= 0x37 && forall i | 0 <= i < 26 :: UlidChar(t[i])
  }

  /** The 32 symbols of an identifier, in either case. */
  const SYMBOLS := "0123456789ABCDEFGHJKMNPQRSTVWXYZ"
  const LOWER_SYMBOLS := "0123456789abcdefghjkmnpqrstvwxyz"

  predicate Symbol(c: CodePoint) {
    |SYMBOLS| == |LOWER_SYMBOLS| == 32
    && exists i | 0 <= i < 32 :: c == SYMBOLS[i] as int || c == LOWER_SYMBOLS[i] as int
  }

  /** Where the symbols stand among the code points: four letters are passed over. */
  lemma SymbolAt(i: nat)
    requires i < 32
    ensures |SYMBOLS| == 32 && |LOWER_SYMBOLS| == 32
    ensures var passed := if i < 10 then 0 else if i < 18 then 7 else if i < 20 then 8 else if i < 22 then 9
                          else if i < 27 then 10 else 11;
      && SYMBOLS[i] as int == 0x30 + i + passed
      && LOWER_SYMBOLS[i] as int == 0x30 + i + passed + if i < 10 then 0 else 0x20
  {
  }

  /** An identifier is 26 symbols, the first of them no more than a seven. */
  lemma UlidExactly(t: Text)
    ensures IsUlid(t) <==> |t| == 26 && t[0] <= '7' as int && forall i | 0 <= i < 26 :: Symbol(t[i])
  {
    hide UlidChar, Symbol;
    forall i | 0 <= i < |t| ensures UlidChar(t[i]) <==> Symbol(t[i]) { SymbolExactly(t[i]); }
  }

  lemma SymbolExactly(c: CodePoint)
    ensures UlidChar(c) <==> Symbol(c)
  {
    forall i | 0 <= i < 32
      ensures |SYMBOLS| == |LOWER_SYMBOLS| == 32 && UlidChar(SYMBOLS[i] as int) && UlidChar(LOWER_SYMBOLS[i] as int)
    {
      SymbolAt(i);
    }
    if UlidChar(c) { var i := SymbolIndex(c); }
  }

  /** The index of a symbol. */
  lemma SymbolIndex(c: CodePoint) returns (i: nat)
    requires UlidChar(c)
    ensures i < 32 && |SYMBOLS| == |LOWER_SYMBOLS| == 32 && (c == SYMBOLS[i] as int || c == LOWER_SYMBOLS[i] as int)
  {
    var upper := if c >= 0x61 then c - 0x20 else c;
    i := if upper <= 0x39 then upper - 0x30 else if upper <= 0x48 then upper - 0x37 else if upper <= 0x4B
      then upper - 0x38
         else if upper <= 0x4E then upper - 0x39 else if upper <= 0x54 then upper - 0x3A else upper - 0x3B;
    SymbolAt(i);
  }

  /** The members in the order they are written. */
  function Data(c: Cursor): seq<Member> {
    [Member(V, Number(1)), Member(SCOPE, String(c.scope)), Member(HIGH_WATER, Number(c.highWater)),
     Member(AT, String(c.at)), Member(EVENT_ID, String(c.eventId)), Member(ENTRY_ID, String(c.entryId))]
  }

  /** An object's members as a dictionary: the last of a repeated name stands. */
  function Dictionary(members: seq<Member>): map<Text, Value> {
    if members == [] then map[]
    else
      var last := members[|members| - 1];
      Dictionary(members[..|members| - 1])[last.name := last.value]
  }

  function Field(d: map<Text, Value>, name: Text): seq<Member> {
    if name in d then [Member(name, d[name])] else []
  }

  /** The cursor's own fields with their names in order, as the checksum is taken over them. */
  function Sorted(d: map<Text, Value>): string {
    Print(Object(Field(d, AT) + Field(d, ENTRY_ID) + Field(d, EVENT_ID) + Field(d, HIGH_WATER) + Field(d, SCOPE)
                 + Field(d, V)))
  }

  /** Strict validation: no unknown field, every field of its own type, and the version optional. */
  ghost function Validate(d: map<Text, Value>): Option<Cursor> {
    if !(d.Keys <= {V, SCOPE, HIGH_WATER, AT, EVENT_ID, ENTRY_ID})
      || !({SCOPE, HIGH_WATER, AT, EVENT_ID, ENTRY_ID} <= d.Keys)
    then None
    else if V in d && d[V] != Number(1) then None
    else if !d[SCOPE].String? || !d[HIGH_WATER].Number? || !d[AT].String? || !d[EVENT_ID].String?
      || !d[ENTRY_ID].String?
    then None
    else
      var c := Cursor(d[SCOPE].text, d[HIGH_WATER].n, d[AT].text, d[EVENT_ID].text, d[ENTRY_ID].text);
      if WellFormed(c) then Some(c) else None
  }

  ghost function EncodeCursor(digest: string -> Checksum, c: Cursor): string {
    Wire(Array([Object(Data(c)), String(digest(Sorted(Dictionary(Data(c)))))]))
  }

  /** The two halves of a cursor's document. */
  function Payload(value: string): Option<(map<Text, Value>, Value)> {
    match ReadStrict(value)
    case Some(Array(pair)) =>
      if |pair| == 2 && pair[0].Object? then Some((Dictionary(pair[0].members), pair[1])) else None
    case _ => None
  }

  ghost function DecodeCursor(digest: string -> Checksum, value: string, scope: Text): Result<Cursor, Refusal> {
    var payload := Payload(value);
    if payload.None? then Err(InvalidCursor)
    else
      var (data, checksum) := payload.value;
      var c := Validate(data);
      if c.None? || checksum != String(digest(Sorted(data))) || c.value.scope != scope then Err(InvalidCursor)
      else if !IsUlid(c.value.eventId) || !IsUlid(c.value.entryId) then Err(InvalidCursor)
      else Ok(c.value)
  }

  lemma NamesDistinct()
    ensures V != SCOPE && V != HIGH_WATER && V != AT && V != EVENT_ID && V != ENTRY_ID
    ensures SCOPE != HIGH_WATER && SCOPE != AT && SCOPE != EVENT_ID && SCOPE != ENTRY_ID
    ensures HIGH_WATER != AT && HIGH_WATER != EVENT_ID && HIGH_WATER != ENTRY_ID
    ensures AT != EVENT_ID && AT != ENTRY_ID && EVENT_ID != ENTRY_ID
  {
    assert |V| == 1 && |SCOPE| == 5 && |HIGH_WATER| == 10 && |AT| == 2 && |EVENT_ID| == 8 && |ENTRY_ID| == 8;
    assert EVENT_ID[1] != ENTRY_ID[1];
  }

  ghost predicate DistinctNames(members: seq<Member>) {
    forall i, j | 0 <= i < j < |members| :: members[i].name != members[j].name
  }

  lemma {:induction false} DictionaryAt(members: seq<Member>)
    requires DistinctNames(members)
    ensures Dictionary(members).Keys == set i | 0 <= i < |members| :: members[i].name
    ensures forall i | 0 <= i < |members| ::
        members[i].name in Dictionary(members) && Dictionary(members)[members[i].name] == members[i].value
    decreases |members|
  {
    if members != [] {
      var front := members[..|members| - 1];
      DictionaryAt(front);
      assert forall i | 0 <= i < |front| :: front[i] == members[i];
    }
  }

  lemma DataDictionary(c: Cursor)
    ensures Dictionary(Data(c)) == map[V := Number(1), SCOPE := String(c.scope), HIGH_WATER := Number(c.highWater),
                                       AT := String(c.at), EVENT_ID := String(c.eventId), ENTRY_ID := String(c.entryId)]
  {
    hide Dictionary;
    NamesDistinct();
    var members := Data(c);
    DictionaryAt(members);
    var d := Dictionary(members);
    assert d[members[0].name] == Number(1) && d[members[1].name] == String(c.scope)
      && d[members[2].name] == Number(c.highWater);
    assert d[members[3].name] == String(c.at) && d[members[4].name] == String(c.eventId)
      && d[members[5].name] == String(c.entryId);
    DataNames(c);
  }

  lemma DataNames(c: Cursor)
    ensures (set i | 0 <= i < |Data(c)| :: Data(c)[i].name) == {V, SCOPE, HIGH_WATER, AT, EVENT_ID, ENTRY_ID}
  {
    var members := Data(c);
    assert members[0].name == V && members[1].name == SCOPE && members[2].name == HIGH_WATER;
    assert members[3].name == AT && members[4].name == EVENT_ID && members[5].name == ENTRY_ID;
  }

  lemma DataValid(c: Cursor)
    requires WellFormed(c)
    ensures Validate(Dictionary(Data(c))) == Some(c)
  {
    hide WellFormed;
    DataDictionary(c);
    NamesDistinct();
  }

  /** What the checksum of a written cursor is taken over. */
  function SortedData(c: Cursor): seq<Member> {
    [Member(AT, String(c.at)), Member(ENTRY_ID, String(c.entryId)), Member(EVENT_ID, String(c.eventId)),
     Member(HIGH_WATER, Number(c.highWater)), Member(SCOPE, String(c.scope)), Member(V, Number(1))]
  }

  lemma DataSorted(c: Cursor)
    ensures Sorted(Dictionary(Data(c))) == Print(Object(SortedData(c)))
  {
    hide Print;
    DataDictionary(c);
    NamesDistinct();
    var d := Dictionary(Data(c));
    assert Field(d, AT) + Field(d, ENTRY_ID) + Field(d, EVENT_ID) + Field(d, HIGH_WATER) + Field(d, SCOPE)
           + Field(d, V) == SortedData(c);
  }

  function Joined(c: Cursor): Cursor { c.(scope := Canonical(c.scope)) }

  /** The checksum does not see whether a scope's surrogate pairs are joined. */
  lemma SortedJoined(c: Cursor)
    ensures Sorted(Dictionary(Data(Joined(c)))) == Sorted(Dictionary(Data(c)))
  {
    hide Dictionary, Sorted, Canonical;
    DataSorted(c);
    DataSorted(Joined(c));
    CanonicalPrintsAlike(c.scope);
    PrintAlike(SortedData(c), SortedData(Joined(c)));
  }

  lemma {:induction false} PrintAlike(a: seq<Member>, b: seq<Member>)
    requires |a| == |b| > 0
    requires forall i | 0 <= i < |a| :: a[i].name == b[i].name && Print(a[i].value) == Print(b[i].value)
    ensures PrintMembers(a) == PrintMembers(b)
    decreases |a|
  {
    if |a| > 1 { PrintAlike(a[1..], b[1..]); }
  }

  lemma ScalarsUnpaired(t: Text)
    requires Scalars(t)
    ensures Canonical(t) == t
  {
    CanonicalExactly(t);
  }

  lemma NamesUnpaired()
    ensures Canonical(V) == V && Canonical(SCOPE) == SCOPE && Canonical(HIGH_WATER) == HIGH_WATER
    ensures Canonical(AT) == AT && Canonical(EVENT_ID) == EVENT_ID && Canonical(ENTRY_ID) == ENTRY_ID
  {
    hide Canonical;
    ScalarsUnpaired(V);
    ScalarsUnpaired(SCOPE);
    ScalarsUnpaired(HIGH_WATER);
    ScalarsUnpaired(AT);
    ScalarsUnpaired(EVENT_ID);
    ScalarsUnpaired(ENTRY_ID);
  }

  lemma {:induction false} CanonicalMembersAt(members: seq<Member>)
    ensures |CanonicalMembers(members)| == |members|
    ensures forall i | 0 <= i < |members| ::
      CanonicalMembers(members)[i] == Member(Canonical(members[i].name), CanonicalValue(members[i].value))
  {
    if members != [] { CanonicalMembersAt(members[1..]); }
  }

  lemma DataCanonical(c: Cursor)
    requires WellFormed(c)
    ensures CanonicalMembers(Data(c)) == Data(Joined(c))
  {
    hide Canonical;
    CanonicalMembersAt(Data(c));
    NamesUnpaired();
    IdsUnpaired(c);
  }

  lemma EncodedPayload(digest: string -> Checksum, c: Cursor)
    requires WellFormed(c)
    ensures Payload(EncodeCursor(digest, c))
        == Some((Dictionary(Data(Joined(c))), String(digest(Sorted(Dictionary(Data(c)))))))
  {
    hide WellFormed, ReadStrict, Wire, Canonical, Sorted, Data, Joined, Dictionary;
    var check := digest(Sorted(Dictionary(Data(c))));
    var pair := [Object(Data(c)), String(check)];
    WireRoundTrip(Array(pair));
    CanonicalItemsAt(pair);
    DataCanonical(c);
    CanonicalExactly(check);
    assert CanonicalItems(pair) == [Object(Data(Joined(c))), String(check)];
  }

  /** What any query gets from any written cursor: the cursor back, or a refusal outside its scope. */
  lemma CursorRoundTrip(digest: string -> Checksum, c: Cursor, scope: Text)
    requires WellFormed(c)
    ensures DecodeCursor(digest, EncodeCursor(digest, c), scope)
         == if Canonical(c.scope) == scope && IsUlid(c.eventId) && IsUlid(c.entryId)
            then Ok(c.(scope := scope)) else Err(InvalidCursor)
  {
    hide WellFormed, Payload, EncodeCursor, Canonical, Sorted, Data, Dictionary, Validate, IsUlid;
    EncodedPayload(digest, c);
    SortedJoined(c);
    assert WellFormed(Joined(c)) by { WellFormedJoined(c); }
    DataValid(Joined(c));
  }

  lemma WellFormedJoined(c: Cursor)
    ensures WellFormed(Joined(c)) <==> WellFormed(c)
  {
  }

  /** A query gets its own cursor back exactly when both ids are ULIDs and its scope holds no surrogate pair. */
  lemma CursorReturned(digest: string -> Checksum, c: Cursor)
    requires WellFormed(c)
    ensures DecodeCursor(digest, EncodeCursor(digest, c), c.scope) == Ok(c)
        <==> Unpaired(c.scope) && IsUlid(c.eventId) && IsUlid(c.entryId)
  {
    hide WellFormed, EncodeCursor, DecodeCursor, Canonical, IsUlid, Unpaired;
    CursorRoundTrip(digest, c, c.scope);
    CanonicalExactly(c.scope);
  }

  /** The members the checksum of validated data is taken over: the version may be missing. */
  lemma ValidSorted(d: map<Text, Value>)
    requires Validate(d).Some?
    ensures Sorted(d) == Print(Object(SortedData(Validate(d).value)))
         || Sorted(d) == Print(Object(SortedData(Validate(d).value)[..5]))
  {
    hide Print, WellFormed;
    var c := Validate(d).value;
    var front := Field(d, AT) + Field(d, ENTRY_ID) + Field(d, EVENT_ID) + Field(d, HIGH_WATER) + Field(d, SCOPE);
    assert front == SortedData(c)[..5];
    assert front + Field(d, V) == if V in d then SortedData(c) else SortedData(c)[..5];
  }

  lemma SortedDetermines(d: map<Text, Value>, e: map<Text, Value>)
    requires Validate(d).Some? && Validate(e).Some? && Sorted(d) == Sorted(e)
    ensures Joined(Validate(d).value) == Joined(Validate(e).value)
  {
    hide Sorted, Print, Canonical, WellFormed, Validate;
    ValidSorted(d);
    ValidSorted(e);
    var a, b := Validate(d).value, Validate(e).value;
    assert SortedData(a)[..6] == SortedData(a) && SortedData(b)[..6] == SortedData(b);
    assert WellFormed(a) && WellFormed(b) by { ValidFits(d); ValidFits(e); }
    PrintDetermines(a, if Sorted(d) == Print(Object(SortedData(a))) then 6 else 5,
                    b, if Sorted(e) == Print(Object(SortedData(b))) then 6 else 5);
  }

  lemma ValidFits(d: map<Text, Value>)
    requires Validate(d).Some?
    ensures WellFormed(Validate(d).value)
  {
    hide WellFormed;
  }

  /** Objects printed alike hold the same values up to surrogate pairs. */
  lemma PrintedAlike(x: seq<Member>, y: seq<Member>)
    requires Print(Object(x)) == Print(Object(y))
    ensures |x| == |y| && forall i | 0 <= i < |x| :: CanonicalValue(x[i].value) == CanonicalValue(y[i].value)
  {
    hide Print, Canonical;
    RoundTrip(Object(x));
    RoundTrip(Object(y));
    CanonicalMembersAt(x);
    CanonicalMembersAt(y);
    assert CanonicalMembers(x) == CanonicalMembers(y);
    forall i | 0 <= i < |x| ensures CanonicalValue(x[i].value) == CanonicalValue(y[i].value) {
      assert CanonicalMembers(x)[i].value == CanonicalValue(x[i].value);
      assert CanonicalMembers(y)[i].value == CanonicalValue(y[i].value);
    }
  }

  lemma PrintDetermines(a: Cursor, n: nat, b: Cursor, m: nat)
    requires 5 <= n <= 6 && 5 <= m <= 6 && WellFormed(a) && WellFormed(b)
    requires Print(Object(SortedData(a)[..n])) == Print(Object(SortedData(b)[..m]))
    ensures Joined(a) == Joined(b)
  {
    hide Print, Canonical, WellFormed;
    var x, y := SortedData(a)[..n], SortedData(b)[..m];
    PrintedAlike(x, y);
    assert x[0].value == String(a.at) && y[0].value == String(b.at);
    assert x[1].value == String(a.entryId) && y[1].value == String(b.entryId);
    assert x[2].value == String(a.eventId) && y[2].value == String(b.eventId);
    assert x[3].value == Number(a.highWater) && y[3].value == Number(b.highWater);
    assert x[4].value == String(a.scope) && y[4].value == String(b.scope);
    IdsUnpaired(a);
    IdsUnpaired(b);
  }

  lemma IdsUnpaired(c: Cursor)
    requires WellFormed(c)
    ensures Canonical(c.at) == c.at && Canonical(c.eventId) == c.eventId && Canonical(c.entryId) == c.entryId
  {
    hide Canonical, Scalars;
    ScalarsUnpaired(c.at);
    ScalarsUnpaired(c.eventId);
    ScalarsUnpaired(c.entryId);
  }

  // ---------------------------------------------------------------- what a checksum fixes

  ghost predicate CanonicalTexted(members: seq<Member>) {
    forall i | 0 <= i < |members| :: CanonicalValue(members[i].value) == members[i].value
  }

  /** Every value of a dictionary is the value of some member. */
  lemma {:induction false} DictionaryFrom(members: seq<Member>, name: Text)
    requires CanonicalTexted(members) && name in Dictionary(members)
    ensures CanonicalValue(Dictionary(members)[name]) == Dictionary(members)[name]
    decreases |members|
  {
    var last := members[|members| - 1];
    if last.name != name { DictionaryFrom(members[..|members| - 1], name); }
  }

  lemma PairCanonical(pair: seq<Value>)
    requires CanonicalItems(pair) == pair && |pair| == 2 && pair[0].Object?
    ensures CanonicalTexted(pair[0].members)
  {
    CanonicalItemsAt(pair);
    CanonicalMembersAt(pair[0].members);
  }

  lemma DocumentRead(bytes: Option<seq<B64.Byte>>)
    requires Document(bytes).Some?
    ensures CanonicalValue(Document(bytes).value) == Document(bytes).value
  {
    hide Parse, CanonicalValue, Chars;
    DocumentCanonical(Chars(bytes.value).value);
  }

  /** The scope of an accepted cursor holds no surrogate pair. */
  lemma AcceptedCanonical(digest: string -> Checksum, value: string, scope: Text)
    requires DecodeCursor(digest, value, scope).Ok?
    ensures Joined(DecodeCursor(digest, value, scope).value) == DecodeCursor(digest, value, scope).value
  {
    hide WellFormed, Sorted, IsUlid, Canonical, Document, CanonicalItems, CanonicalMembers, Dictionary;
    DocumentRead(B64.Decode(B64.Pad(value)));
    var pair := ReadStrict(value).value.items;
    PairCanonical(pair);
    DictionaryFrom(pair[0].members, SCOPE);
  }

  /** Two different texts with one digest. */
  ghost predicate Collide(digest: string -> Checksum, a: string, b: string) {
    a != b && digest(a) == digest(b)
  }

  /**
   Two accepted cursors with one checksum agree in every field, or the texts they were checked by are a digest
   collision.
   */
  lemma TamperEvident(digest: string -> Checksum, one: string, two: string, scope1: Text, scope2: Text)
    requires DecodeCursor(digest, one, scope1).Ok? && DecodeCursor(digest, two, scope2).Ok?
    requires Payload(one).value.1 == Payload(two).value.1
    ensures DecodeCursor(digest, one, scope1).value == DecodeCursor(digest, two, scope2).value
         || Collide(digest, Sorted(Payload(one).value.0), Sorted(Payload(two).value.0))
  {
    hide WellFormed, Payload, Sorted, IsUlid, Validate, Joined;
    AcceptedCanonical(digest, one, scope1);
    AcceptedCanonical(digest, two, scope2);
    if Sorted(Payload(one).value.0) == Sorted(Payload(two).value.0) {
      SortedDetermines(Payload(one).value.0, Payload(two).value.0);
    }
  }
}
