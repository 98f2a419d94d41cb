/** The stable text of a request body: two bodies have the same text exactly when they are
    equal up to the order of object keys. */
module StableJson {

  /** A UTF-16 code unit, as JavaScript strings hold them. */
  type Unit = u: nat | u < 0x10000
  type Text = seq<Unit>

  const NEWLINE: Unit := 10
  const QUOTE: Unit := 34
  const COMMA: Unit := 44
  const COLON: Unit := 58
  const OPEN_LIST: Unit := 91
  const BACKSLASH: Unit := 92
  const CLOSE_LIST: Unit := 93
  const LOWER_B: Unit := 98
  const LOWER_E: Unit := 101
  const LOWER_F: Unit := 102
  const LOWER_N: Unit := 110
  const LOWER_R: Unit := 114
  const LOWER_T: Unit := 116
  const LOWER_U: Unit := 117
  const OPEN_OBJECT: Unit := 123
  const CLOSE_OBJECT: Unit := 125
  const NULL_TEXT: Text := [LOWER_N, LOWER_U, 108, 108]
  const TRUE_TEXT: Text := [LOWER_T, LOWER_R, LOWER_U, LOWER_E]
  const FALSE_TEXT: Text := [LOWER_F, 97, 108, 115, LOWER_E]

  /** A number is its canonical decimal text. */
  datatype Json =
    | Null
    | Bool(value: bool)
    | Num(text: Text)
    | Str(chars: Text)
    | Arr(items: seq<Json>)
    | Obj(entries: seq<Entry>)

  datatype Entry = Entry(key: Text, value: Json)

  predicate Digit(u: Unit) {
    48 <= u <= 57
  }

  /** Digits, plus, minus, point and exponent mark. */
  predicate NumberUnit(u: Unit) {
    Digit(u) || u == 43 || u == 45 || u == 46 || u == LOWER_E
  }

  predicate NumberText(t: Text) {
    t != [] && (Digit(t[0]) || t[0] == 45) && forall i :: 0 <= i < |t| ==> NumberUnit(t[i])
  }

  ghost predicate DistinctKeys(entries: seq<Entry>) {
    forall i, j :: 0 <= i < j < |entries| ==> entries[i].key != entries[j].key
  }

  ghost predicate WellFormed(v: Json)
    decreases v
  {
    match v
    case Num(text) => NumberText(text)
    case Arr(items) => forall i :: 0 <= i < |items| ==> WellFormed(items[i])
    case Obj(entries) =>
      DistinctKeys(entries) && forall i :: 0 <= i < |entries| ==> WellFormed(entries[i].value)
    case _ => true
  }

  /** Equal up to the order of object keys. */
  ghost predicate Same(a: Json, b: Json)
    decreases a, 0
  {
    match a
    case Arr(items) =>
      && b.Arr? && |items| == |b.items|
      && forall i :: 0 <= i < |items| ==> Same(items[i], b.items[i])
    case Obj(entries) =>
      && b.Obj?
      && (forall i :: 0 <= i < |entries| ==> Matched(entries[i], b.entries))
      && (forall j :: 0 <= j < |b.entries| ==> HasKey(b.entries[j].key, entries))
    case _ => a == b
  }

  ghost predicate Matched(e: Entry, entries: seq<Entry>)
    decreases e.value, 1
  {
    exists j :: 0 <= j < |entries| && e.key == entries[j].key && Same(e.value, entries[j].value)
  }

  ghost predicate HasKey(key: Text, entries: seq<Entry>) {
    exists i :: 0 <= i < |entries| && entries[i].key == key
  }

  // ------------------------------------------------------------------ quoting

  predicate High(u: Unit) {
    0xD800 <= u < 0xDC00
  }

  predicate Low(u: Unit) {
    0xDC00 <= u < 0xE000
  }

  predicate Pair(s: Text) {
    |s| >= 2 && High(s[0]) && Low(s[1])
  }

  function Hex(d: nat): (u: Unit)
    requires d < 16
    ensures u != NEWLINE
  {
    if d < 10 then 48 + d else 87 + d
  }

  /** How one code unit outside a surrogate pair is quoted. */
  function Escape(u: Unit): (t: Text)
    ensures t != [] && t[0] != QUOTE && !High(t[0]) && NEWLINE !in t
  {
    if u == QUOTE || u == BACKSLASH then [BACKSLASH, u]
    else if u == 8 then [BACKSLASH, LOWER_B]
    else if u == 9 then [BACKSLASH, LOWER_T]
    else if u == NEWLINE then [BACKSLASH, LOWER_N]
    else if u == 12 then [BACKSLASH, LOWER_F]
    else if u == 13 then [BACKSLASH, LOWER_R]
    else if u < 32 || High(u) || Low(u) then
      [BACKSLASH, LOWER_U, Hex(u / 4096), Hex(u / 256 % 16), Hex(u / 16 % 16), Hex(u % 16)]
    else [u]
  }

  function Escaped(s: Text): Text {
    if s == [] then [] else if Pair(s) then s[..2] + Escaped(s[2..]) else Escape(s[0]) + Escaped(s[1..])
  }

  function Quote(s: Text): Text {
    [QUOTE] + Escaped(s) + [QUOTE]
  }

  // ------------------------------------------------------------------ reading a quoted string back

  function DigitValue(u: Unit): (d: nat)
    ensures d < 16
  {
    if 48 <= u <= 57 then u - 48 else if 97 <= u <= 102 then u - 87 else 0
  }

  /** The unit that a short escape stands for. */
  function ShortMeaning(u: Unit): Unit {
    if u == LOWER_B then 8 else if u == LOWER_T then 9 else if u == LOWER_N then 10
    else if u == LOWER_F then 12 else if u == LOWER_R then 13 else u
  }

  /** How a JSON reader takes the inside of a string (section 7 of RFC 8259). */
  function Unescaped(t: Text): Text {
    if t == [] then []
    else if t[0] != BACKSLASH then [t[0]] + Unescaped(t[1..])
    else if |t| >= 6 && t[1] == LOWER_U then
      [4096 * DigitValue(t[2]) + 256 * DigitValue(t[3]) + 16 * DigitValue(t[4]) + DigitValue(t[5])] + Unescaped(t[6..])
    else if |t| >= 2 then [ShortMeaning(t[1])] + Unescaped(t[2..])
    else []
  }

  lemma HexRoundTrip(d: nat)
    requires d < 16
    ensures DigitValue(Hex(d)) == d
  {
  }

  lemma EscapeReadsBack(u: Unit, rest: Text)
    ensures Unescaped(Escape(u) + rest) == [u] + Unescaped(rest)
  {
    var t := Escape(u);
    assert (t + rest)[|t|..] == rest;
    if |t| == 6 {
      HexRoundTrip(u / 4096);
      HexRoundTrip(u / 256 % 16);
      HexRoundTrip(u / 16 % 16);
      HexRoundTrip(u % 16);
      HexValue(u);
    }
  }

  lemma PlainReadsBack(u: Unit, rest: Text)
    requires u != BACKSLASH
    ensures Unescaped([u] + rest) == [u] + Unescaped(rest)
  {
    assert ([u] + rest)[1..] == rest;
  }

  lemma PairReadsBack(high: Unit, low: Unit, rest: Text)
    requires high != BACKSLASH && low != BACKSLASH
    ensures Unescaped([high, low] + rest) == [high, low] + Unescaped(rest)
  {
    PlainReadsBack(low, rest);
    PlainReadsBack(high, [low] + rest);
    assert [high, low] + rest == [high] + ([low] + rest);
  }

  /** Any string of code units is read back as it was written. */
  lemma {:induction false} EscapingReadsBack(s: Text)
    ensures Unescaped(Escaped(s)) == s
  {
    if Pair(s) {
      EscapingReadsBack(s[2..]);
      PairReadsBack(s[0], s[1], Escaped(s[2..]));
      assert s[..2] == [s[0], s[1]];
    } else if s != [] {
      EscapingReadsBack(s[1..]);
      EscapeReadsBack(s[0], Escaped(s[1..]));
    }
  }

  /** A surrogate here has its partner beside it. */
  ghost predicate Partnered(t: Text, i: nat)
    requires i < |t|
  {
    && (0xD800 <= t[i] < 0xDC00 ==> i + 1 < |t| && 0xDC00 <= t[i + 1] < 0xE000)
    && (0xDC00 <= t[i] < 0xE000 ==> i > 0 && 0xD800 <= t[i - 1] < 0xDC00)
  }

  /** Every surrogate has its partner, so an encoder to bytes replaces nothing. */
  ghost predicate Encodable(t: Text) {
    forall i :: 0 <= i < |t| ==> Partnered(t, i)
  }

  lemma EncodableJoins(a: Text, b: Text)
    requires Encodable(a) && Encodable(b)
    ensures Encodable(a + b)
  {
    forall i | 0 <= i < |a + b| ensures Partnered(a + b, i) {
      if i < |a| {
        assert Partnered(a, i);
      } else {
        assert Partnered(b, i - |a|);
      }
    }
  }

  /** The inside of a quoted string has no lone surrogate, whatever the string holds. */
  lemma {:induction false} EscapedIsEncodable(s: Text)
    ensures Encodable(Escaped(s))
  {
    if Pair(s) {
      EscapedIsEncodable(s[2..]);
      assert Partnered(s[..2], 0) && Partnered(s[..2], 1);
      EncodableJoins(s[..2], Escaped(s[2..]));
    } else if s != [] {
      EscapedIsEncodable(s[1..]);
      EncodableJoins(Escape(s[0]), Escaped(s[1..]));
    }
  }

  // ------------------------------------------------------------------ key order

  predicate Less(a: Text, b: Text) {
    b != [] && (a == [] || a[0] < b[0] || (a[0] == b[0] && Less(a[1..], b[1..])))
  }

  lemma {:induction false} LessIsTotal(a: Text, b: Text)
    ensures Less(a, b) || a == b || Less(b, a)
    ensures !(Less(a, b) && Less(b, a)) && !Less(a, a)
  {
    if a != [] && b != [] {
      LessIsTotal(a[1..], b[1..]);
      assert a == [a[0]] + a[1..] && b == [b[0]] + b[1..];
    }
    if a != [] {
      LessIsTotal(a[1..], a[1..]);
    }
  }

  lemma {:induction false} LessIsTransitive(a: Text, b: Text, c: Text)
    requires Less(a, b) && Less(b, c)
    ensures Less(a, c)
  {
    if a != [] && a[0] == b[0] == c[0] {
      LessIsTransitive(a[1..], b[1..], c[1..]);
    }
  }

  function Insert(e: Entry, s: seq<Entry>): seq<Entry> {
    if s == [] then [e] else if Less(s[0].key, e.key) then [s[0]] + Insert(e, s[1..]) else [e] + s
  }

  function SortByKey(s: seq<Entry>): (sorted: seq<Entry>)
    ensures forall e :: e in sorted <==> e in s
  {
    if s == [] then [] else
      InsertMembers(s[0], SortByKey(s[1..]));
      Insert(s[0], SortByKey(s[1..]))
  }

  lemma {:induction false} InsertMembers(e: Entry, s: seq<Entry>)
    ensures forall x :: x in Insert(e, s) <==> x == e || x in s
  {
    if s != [] {
      InsertMembers(e, s[1..]);
    }
  }

  predicate Ascending(s: seq<Entry>) {
    forall i, j :: 0 <= i < j < |s| ==> Less(s[i].key, s[j].key)
  }

  lemma {:induction false} InsertAscends(e: Entry, s: seq<Entry>)
    requires Ascending(s) && forall i :: 0 <= i < |s| ==> s[i].key != e.key
    ensures Ascending(Insert(e, s))
  {
    if s != [] {
      LessIsTotal(s[0].key, e.key);
      if Less(s[0].key, e.key) {
        InsertAscends(e, s[1..]);
        InsertMembers(e, s[1..]);
        forall i | 0 <= i < |Insert(e, s[1..])| ensures Less(s[0].key, Insert(e, s[1..])[i].key) {
          assert Insert(e, s[1..])[i] in Insert(e, s[1..]);
        }
      } else {
        forall i | 0 < i < |s| ensures Less(e.key, s[i].key) {
          LessIsTransitive(e.key, s[0].key, s[i].key);
        }
      }
    }
  }

  lemma {:induction false} SortAscends(s: seq<Entry>)
    requires DistinctKeys(s)
    ensures Ascending(SortByKey(s))
  {
    if s != [] {
      SortAscends(s[1..]);
      var rest := SortByKey(s[1..]);
      forall i | 0 <= i < |rest| ensures rest[i].key != s[0].key {
        assert rest[i] in s[1..];
      }
      InsertAscends(s[0], rest);
    }
  }

  // ------------------------------------------------------------------ the text

  function Stable(v: Json): Text
    decreases v, 1
  {
    match v
    case Null => NULL_TEXT
    case Bool(value) => if value then TRUE_TEXT else FALSE_TEXT
    case Num(text) => text
    case Str(chars) => Quote(chars)
    case Arr(items) => [OPEN_LIST] + Items(items) + [CLOSE_LIST]
    case Obj(entries) => [OPEN_OBJECT] + Fields(SortByKey(entries), v) + [CLOSE_OBJECT]
  }

  function Items(s: seq<Json>): Text
    decreases s
  {
    if s == [] then [] else if |s| == 1 then Stable(s[0]) else Stable(s[0]) + [COMMA] + Items(s[1..])
  }

  /** `owner` is the object whose fields these are. */
  function Fields(s: seq<Entry>, ghost owner: Json): Text
    requires forall e :: e in s ==> e.value < owner
    decreases owner, 0, |s|
  {
    if s == [] then []
    else if |s| == 1 then Field(s[0], owner)
    else Field(s[0], owner) + [COMMA] + Fields(s[1..], owner)
  }

  function Field(e: Entry, ghost owner: Json): Text
    requires e.value < owner
    decreases owner, 0, 0
  {
    Quote(e.key) + [COLON] + Stable(e.value)
  }

  // ------------------------------------------------------------------ unique readability

  lemma Cancel(a: Text, x: Text, b: Text, y: Text)
    requires a + x == b + y && |a| == |b|
    ensures a == b && x == y
  {
    assert a == (a + x)[..|a|] && x == (a + x)[|a|..];
    assert b == (b + y)[..|b|] && y == (b + y)[|b|..];
  }

  lemma HexValue(u: Unit)
    ensures u == 4096 * (u / 4096) + 256 * (u / 256 % 16) + 16 * (u / 16 % 16) + u % 16
  {
    assert u == 16 * (u / 16) + u % 16;
    assert u / 16 == 16 * (u / 256) + u / 16 % 16;
    assert u / 256 == 16 * (u / 4096) + u / 256 % 16;
  }

  lemma HexIsExact(u: Unit, v: Unit)
    requires u / 4096 == v / 4096 && u / 256 % 16 == v / 256 % 16
    requires u / 16 % 16 == v / 16 % 16 && u % 16 == v % 16
    ensures u == v
  {
    HexValue(u);
    HexValue(v);
  }

  lemma EscapeReadable(u: Unit, x: Text, v: Unit, y: Text)
    requires Escape(u) + x == Escape(v) + y
    ensures u == v && x == y
  {
    var a, b := Escape(u), Escape(v);
    assert (a + x)[0] == a[0] && (b + y)[0] == b[0];
    if |a| > 1 {
      assert (a + x)[1] == a[1];
    }
    if |b| > 1 {
      assert (b + y)[1] == b[1];
    }
    assert |a| == |b|;
    Cancel(a, x, b, y);
    if |a| == 6 {
      assert a[2] == b[2] && a[3] == b[3] && a[4] == b[4] && a[5] == b[5];
      HexIsExact(u, v);
    }
  }

  lemma {:induction false} EscapedReadable(a: Text, x: Text, b: Text, y: Text)
    requires Escaped(a) + [QUOTE] + x == Escaped(b) + [QUOTE] + y
    ensures a == b && x == y
  {
    var left, right := Escaped(a) + [QUOTE] + x, Escaped(b) + [QUOTE] + y;
    EscapedHead(a, x);
    EscapedHead(b, y);
    if a == [] {
      Cancel([QUOTE], x, [QUOTE], y);
    } else if Pair(a) {
      assert left[0] == right[0] && left[1] == right[1];
      assert left[2..] == right[2..];
      EscapedReadable(a[2..], x, b[2..], y);
      assert a == a[..2] + a[2..] && b == b[..2] + b[2..];
    } else {
      var ra, rb := Escaped(a[1..]) + [QUOTE] + x, Escaped(b[1..]) + [QUOTE] + y;
      EscapeReadable(a[0], ra, b[0], rb);
      EscapedReadable(a[1..], x, b[1..], y);
      assert a == [a[0]] + a[1..] && b == [b[0]] + b[1..];
    }
  }

  /** The first token of a quoted text tells which case it is. */
  lemma EscapedHead(s: Text, x: Text)
    ensures s == [] ==> Escaped(s) + [QUOTE] + x == [QUOTE] + x
    ensures Pair(s) ==>
      var t := Escaped(s) + [QUOTE] + x;
      |t| > 2 && t[0] == s[0] && t[1] == s[1] && t[2..] == Escaped(s[2..]) + [QUOTE] + x
    ensures s != [] && !Pair(s) ==>
      var t := Escaped(s) + [QUOTE] + x;
      t[0] != QUOTE && !High(t[0]) && t == Escape(s[0]) + (Escaped(s[1..]) + [QUOTE] + x)
  {
    if Pair(s) {
      PairHead(s, Escaped(s[2..]), x);
    } else if s != [] {
      PlainHead(Escape(s[0]), Escaped(s[1..]), x);
    }
  }

  lemma PairHead(s: Text, rest: Text, x: Text)
    requires |s| >= 2
    ensures
      var t := s[..2] + rest + [QUOTE] + x;
      t[0] == s[0] && t[1] == s[1] && t[2..] == rest + [QUOTE] + x
  {
  }

  lemma PlainHead(first: Text, rest: Text, x: Text)
    requires first != []
    ensures
      var t := first + rest + [QUOTE] + x;
      t[0] == first[0] && t == first + (rest + [QUOTE] + x)
  {
    assert first + rest + [QUOTE] + x == first + (rest + [QUOTE] + x);
  }

  lemma QuoteReadable(a: Text, x: Text, b: Text, y: Text)
    requires Quote(a) + x == Quote(b) + y
    ensures a == b && x == y
  {
    assert Quote(a) + x == [QUOTE] + (Escaped(a) + [QUOTE] + x);
    assert Quote(b) + y == [QUOTE] + (Escaped(b) + [QUOTE] + y);
    Cancel([QUOTE], Escaped(a) + [QUOTE] + x, [QUOTE], Escaped(b) + [QUOTE] + y);
    EscapedReadable(a, x, b, y);
  }

  /** What may follow a value: nothing, a comma or a closing bracket. */
  predicate Delimited(x: Text) {
    x == [] || x[0] == COMMA || x[0] == CLOSE_LIST || x[0] == CLOSE_OBJECT
  }

  lemma NumberReadable(a: Text, x: Text, b: Text, y: Text)
    requires NumberText(a) && NumberText(b) && Delimited(x) && Delimited(y)
    requires a + x == b + y
    ensures a == b && x == y
  {
    NumberNotCutShort(a, x, b, y);
    NumberNotCutShort(b, y, a, x);
    Cancel(a, x, b, y);
  }

  lemma NumberNotCutShort(a: Text, x: Text, b: Text, y: Text)
    requires NumberText(b) && Delimited(x) && a + x == b + y
    ensures |a| >= |b|
  {
    assert forall i :: 0 <= i < |b| ==> NumberUnit((b + y)[i]);
    assert x != [] ==> (a + x)[|a|] == x[0];
  }

  /** The first unit of a value's text tells its kind. */
  function Mark(v: Json): Unit
    requires WellFormed(v)
  {
    match v
    case Null => LOWER_N
    case Bool(value) => if value then LOWER_T else LOWER_F
    case Num(text) => text[0]
    case Str(_) => QUOTE
    case Arr(_) => OPEN_LIST
    case Obj(_) => OPEN_OBJECT
  }

  lemma MarkIsFirst(v: Json, x: Text)
    requires WellFormed(v)
    ensures Stable(v) != [] && (Stable(v) + x)[0] == Mark(v)
  {
  }

  /** Two texts that start with values, each properly ended, and agree, hold the same value. */
  lemma {:induction false} ValueReadable(a: Json, x: Text, b: Json, y: Text)
    requires WellFormed(a) && WellFormed(b) && Delimited(x) && Delimited(y)
    requires Stable(a) + x == Stable(b) + y
    ensures Same(a, b) && x == y
    decreases a, 1
  {
    MarkIsFirst(a, x);
    MarkIsFirst(b, y);
    match a
    case Num(text) =>
      NumberReadable(text, x, b.text, y);
    case Str(chars) =>
      QuoteReadable(chars, x, b.chars, y);
    case Arr(items) =>
      var left, right := [CLOSE_LIST] + x, [CLOSE_LIST] + y;
      Peel(OPEN_LIST, Items(items), CLOSE_LIST, x, Items(b.items), y);
      ItemsReadable(items, left, b.items, right);
      Cancel([CLOSE_LIST], x, [CLOSE_LIST], y);
    case Obj(entries) =>
      var s, t := SortByKey(entries), SortByKey(b.entries);
      var left, right := [CLOSE_OBJECT] + x, [CLOSE_OBJECT] + y;
      Peel(OPEN_OBJECT, Fields(s, a), CLOSE_OBJECT, x, Fields(t, b), y);
      FieldsReadable(s, left, a, t, right, b);
      Cancel([CLOSE_OBJECT], x, [CLOSE_OBJECT], y);
      SameSorted(entries, b.entries);
    case _ =>
      Cancel(Stable(a), x, Stable(b), y);
  }

  lemma Peel(open: Unit, p: Text, close: Unit, x: Text, q: Text, y: Text)
    requires [open] + p + [close] + x == [open] + q + [close] + y
    ensures p + ([close] + x) == q + ([close] + y)
  {
    assert [open] + p + [close] + x == [open] + (p + ([close] + x));
    assert [open] + q + [close] + y == [open] + (q + ([close] + y));
    Cancel([open], p + ([close] + x), [open], q + ([close] + y));
  }

  /** A list of values followed by a closing bracket. */
  lemma {:induction false} ItemsReadable(s: seq<Json>, x: Text, t: seq<Json>, y: Text)
    requires forall i :: 0 <= i < |s| ==> WellFormed(s[i])
    requires forall i :: 0 <= i < |t| ==> WellFormed(t[i])
    requires x != [] && x[0] == CLOSE_LIST && y != [] && y[0] == CLOSE_LIST
    requires Items(s) + x == Items(t) + y
    ensures |s| == |t| && (forall i :: 0 <= i < |s| ==> Same(s[i], t[i])) && x == y
    decreases s, 0
  {
    ItemsHead(s, x);
    ItemsHead(t, y);
    if s != [] {
      MarkIsFirst(s[0], ItemsTail(s, x));
      ValueReadable(s[0], ItemsTail(s, x), t[0], ItemsTail(t, y));
      if |s| > 1 {
        Cancel([COMMA], Items(s[1..]) + x, [COMMA], Items(t[1..]) + y);
        ItemsReadable(s[1..], x, t[1..], y);
      }
    } else if t != [] {
      MarkIsFirst(t[0], ItemsTail(t, y));
    }
  }

  function ItemsTail(s: seq<Json>, x: Text): Text {
    if |s| <= 1 then x else [COMMA] + (Items(s[1..]) + x)
  }

  lemma Regroup(p: Text, mark: Unit, rest: Text, x: Text)
    ensures p + [mark] + rest + x == p + ([mark] + (rest + x))
  {
  }

  lemma ItemsHead(s: seq<Json>, x: Text)
    ensures Items(s) + x == if s == [] then x else Stable(s[0]) + ItemsTail(s, x)
  {
    if |s| > 1 {
      Regroup(Stable(s[0]), COMMA, Items(s[1..]), x);
    }
  }

  ghost predicate SameFields(s: seq<Entry>, t: seq<Entry>) {
    |s| == |t| && forall i :: 0 <= i < |s| ==> s[i].key == t[i].key && Same(s[i].value, t[i].value)
  }

  lemma SameFieldsFromFirst(s: seq<Entry>, t: seq<Entry>)
    requires s != [] && t != [] && SameFields(s[1..], t[1..])
    requires s[0].key == t[0].key && Same(s[0].value, t[0].value)
    ensures SameFields(s, t)
  {
    forall i | 0 <= i < |s| ensures s[i].key == t[i].key && Same(s[i].value, t[i].value) {
      if i > 0 {
        assert s[1..][i - 1] == s[i] && t[1..][i - 1] == t[i];
      }
    }
  }

  ghost predicate Owned(s: seq<Entry>, owner: Json) {
    forall e :: e in s ==> e.value < owner && WellFormed(e.value)
  }

  function FieldsTail(s: seq<Entry>, ghost owner: Json, x: Text): Text
    requires forall e :: e in s ==> e.value < owner
  {
    if |s| <= 1 then x else [COMMA] + (Fields(s[1..], owner) + x)
  }

  lemma FieldsHead(s: seq<Entry>, owner: Json, x: Text)
    requires Owned(s, owner)
    ensures Fields(s, owner) + x ==
      if s == [] then x else Quote(s[0].key) + ([COLON] + (Stable(s[0].value) + FieldsTail(s, owner, x)))
  {
    if |s| > 0 {
      if |s| > 1 {
        Regroup(Field(s[0], owner), COMMA, Fields(s[1..], owner), x);
      }
      Regroup(Quote(s[0].key), COLON, Stable(s[0].value), FieldsTail(s, owner, x));
    }
  }

  lemma {:induction false} FieldReadable(e: Entry, x: Text, f: Entry, y: Text)
    requires WellFormed(e.value) && WellFormed(f.value) && Delimited(x) && Delimited(y)
    requires Quote(e.key) + ([COLON] + (Stable(e.value) + x)) == Quote(f.key) + ([COLON] + (Stable(f.value) + y))
    ensures e.key == f.key && Same(e.value, f.value) && x == y
    decreases e.value, 2
  {
    var left, right := Stable(e.value) + x, Stable(f.value) + y;
    QuoteReadable(e.key, [COLON] + left, f.key, [COLON] + right);
    Cancel([COLON], left, [COLON], right);
    ValueReadable(e.value, x, f.value, y);
  }

  /** The sorted fields of an object followed by a closing bracket. */
  lemma {:induction false} FieldsReadable(s: seq<Entry>, x: Text, a: Json, t: seq<Entry>, y: Text, b: Json)
    requires Owned(s, a) && Owned(t, b)
    requires x != [] && x[0] == CLOSE_OBJECT && y != [] && y[0] == CLOSE_OBJECT
    requires Fields(s, a) + x == Fields(t, b) + y
    ensures SameFields(s, t) && x == y
    decreases a, 0, |s|
  {
    FieldsHead(s, a, x);
    FieldsHead(t, b, y);
    if s != [] && t != [] {
      var left, right := FieldsTail(s, a, x), FieldsTail(t, b, y);
      FieldReadable(s[0], left, t[0], right);
      if |s| > 1 {
        Cancel([COMMA], Fields(s[1..], a) + x, [COMMA], Fields(t[1..], b) + y);
        FieldsReadable(s[1..], x, a, t[1..], y, b);
        SameFieldsFromFirst(s, t);
      }
    }
  }

  lemma SameSorted(es: seq<Entry>, fs: seq<Entry>)
    requires SameFields(SortByKey(es), SortByKey(fs))
    ensures Same(Obj(es), Obj(fs))
  {
    var s, t := SortByKey(es), SortByKey(fs);
    forall i | 0 <= i < |es| ensures Matched(es[i], fs) {
      assert es[i] in s;
      var k :| 0 <= k < |s| && s[k] == es[i];
      assert t[k] in fs;
    }
    forall j | 0 <= j < |fs| ensures HasKey(fs[j].key, es) {
      assert fs[j] in t;
      var k :| 0 <= k < |t| && t[k] == fs[j];
      assert s[k] in es;
    }
  }

  // ------------------------------------------------------------------ the other direction

  lemma MatchedIn(e: Entry, part: seq<Entry>, whole: seq<Entry>)
    requires Matched(e, part) && forall x :: x in part ==> x in whole
    ensures Matched(e, whole)
  {
    var j :| 0 <= j < |part| && e.key == part[j].key && Same(e.value, part[j].value);
    assert part[j] in whole;
  }

  lemma HasKeyIn(key: Text, part: seq<Entry>, whole: seq<Entry>)
    requires HasKey(key, part) && forall x :: x in part ==> x in whole
    ensures HasKey(key, whole)
  {
    var i :| 0 <= i < |part| && part[i].key == key;
    assert part[i] in whole;
  }

  /** An entry behind the first is matched behind the first. */
  lemma MatchedBehind(s: seq<Entry>, t: seq<Entry>, k: nat)
    requires Ascending(s) && 0 < k < |s| && t != [] && s[0].key == t[0].key && Matched(s[k], t)
    ensures Matched(s[k], t[1..])
  {
    var j :| 0 <= j < |t| && s[k].key == t[j].key && Same(s[k].value, t[j].value);
    LessIsTotal(s[0].key, s[k].key);
    assert t[1..][j - 1] == t[j];
  }

  lemma HasKeyBehind(s: seq<Entry>, t: seq<Entry>, k: nat)
    requires Ascending(t) && 0 < k < |t| && s != [] && s[0].key == t[0].key && HasKey(t[k].key, s)
    ensures HasKey(t[k].key, s[1..])
  {
    var i :| 0 <= i < |s| && s[i].key == t[k].key;
    LessIsTotal(t[0].key, t[k].key);
    assert s[1..][i - 1] == s[i];
  }

  /** The first entries of matching ascending lists match. */
  lemma FirstsMatch(s: seq<Entry>, t: seq<Entry>)
    requires Ascending(s) && Ascending(t) && s != [] && t != []
    requires Matched(s[0], t) && HasKey(t[0].key, s)
    ensures s[0].key == t[0].key && Same(s[0].value, t[0].value)
  {
    var j :| 0 <= j < |t| && s[0].key == t[j].key && Same(s[0].value, t[j].value);
    var i :| 0 <= i < |s| && s[i].key == t[0].key;
    LessIsTotal(s[0].key, t[0].key);
  }

  /** Matching ascending lists agree position by position. */
  lemma {:induction false} MatchedSorted(s: seq<Entry>, t: seq<Entry>)
    requires Ascending(s) && Ascending(t)
    requires forall i :: 0 <= i < |s| ==> Matched(s[i], t)
    requires forall j :: 0 <= j < |t| ==> HasKey(t[j].key, s)
    ensures SameFields(s, t)
  {
    assert |s| > 0 ==> Matched(s[0], t);
    assert |t| > 0 ==> HasKey(t[0].key, s);
    if s != [] {
      FirstsMatch(s, t);
      forall k | 0 <= k < |s| - 1 ensures Matched(s[1..][k], t[1..]) {
        MatchedBehind(s, t, k + 1);
      }
      forall k | 0 <= k < |t| - 1 ensures HasKey(t[1..][k].key, s[1..]) {
        HasKeyBehind(s, t, k + 1);
      }
      MatchedSorted(s[1..], t[1..]);
      SameFieldsFromFirst(s, t);
    }
  }

  /** Values equal up to key order have the same text. */
  lemma {:induction false} SameText(a: Json, b: Json)
    requires WellFormed(a) && WellFormed(b) && Same(a, b)
    ensures Stable(a) == Stable(b)
    decreases a, 1
  {
    match a
    case Arr(items) =>
      SameItems(items, b.items);
    case Obj(entries) =>
      var s, t := SortByKey(entries), SortByKey(b.entries);
      SortAscends(entries);
      SortAscends(b.entries);
      forall i | 0 <= i < |s| ensures Matched(s[i], t) {
        assert s[i] in entries;
        MatchedIn(s[i], b.entries, t);
      }
      forall j | 0 <= j < |t| ensures HasKey(t[j].key, s) {
        assert t[j] in b.entries;
        HasKeyIn(t[j].key, entries, s);
      }
      MatchedSorted(s, t);
      SameFieldsText(s, a, t, b);
    case _ =>
  }

  lemma {:induction false} SameItems(s: seq<Json>, t: seq<Json>)
    requires |s| == |t|
    requires forall i :: 0 <= i < |s| ==> WellFormed(s[i]) && WellFormed(t[i]) && Same(s[i], t[i])
    ensures Items(s) == Items(t)
    decreases s, 0
  {
    if s != [] {
      SameText(s[0], t[0]);
      SameItems(s[1..], t[1..]);
    }
  }

  lemma {:induction false} SameFieldsText(s: seq<Entry>, a: Json, t: seq<Entry>, b: Json)
    requires Owned(s, a) && Owned(t, b) && SameFields(s, t)
    ensures Fields(s, a) == Fields(t, b)
    decreases a, 0, |s|
  {
    if s != [] {
      SameText(s[0].value, t[0].value);
      SameFieldsText(s[1..], a, t[1..], b);
    }
  }

  /** The text is a canonical form: it tells apart exactly what differs beyond key order. */
  lemma StableIsCanonical(a: Json, b: Json)
    requires WellFormed(a) && WellFormed(b)
    ensures Stable(a) == Stable(b) <==> Same(a, b)
  {
    if Stable(a) == Stable(b) {
      ValueReadable(a, [], b, []);
    }
    if Same(a, b) {
      SameText(a, b);
    }
  }

  lemma QuoteOne(u: Unit, t: Text)
    requires Escape(u) == t
    ensures Quote([u]) == [34] + t + [34]
  {
    assert [u][1..] == [] && Escaped([u]) == Escape(u) + Escaped([]);
  }

  lemma SortTwo(b: Entry, a: Entry)
    requires Less(a.key, b.key)
    ensures SortByKey([b, a]) == [a, b]
  {
    assert [b, a][1..] == [a] && [a][1..] == [];
    assert SortByKey([a]) == Insert(a, SortByKey([])) == [a];
    assert Insert(b, [a]) == [a] + Insert(b, []) == [a] + [b];
  }

  lemma TwoFields(a: Entry, b: Entry, owner: Json)
    requires a.value < owner && b.value < owner
    ensures Fields([a, b], owner) == Field(a, owner) + [COMMA] + Field(b, owner)
  {
    assert [a, b][1..] == [b];
  }

  /** A list of true and a line break. */
  lemma ListExample()
    ensures Stable(Arr([Bool(true), Str([10])])) == [91, 116, 114, 117, 101, 44, 34, 92, 110, 34, 93]
  {
    var items := [Bool(true), Str([10])];
    QuoteOne(10, [92, 110]);
    assert items[1..] == [Str([10])];
    assert Items(items) == TRUE_TEXT + [COMMA] + Quote([10]);
  }

  /** An object with the keys b and a, holding null and true: the smaller key comes first, and there
      is no space. */
  lemma ObjectExample()
    ensures Stable(Obj([Entry([98], Null), Entry([97], Bool(true))])) ==
      [123, 34, 97, 34, 58, 116, 114, 117, 101, 44, 34, 98, 34, 58, 110, 117, 108, 108, 125]
  {
    var a, b := Entry([97], Bool(true)), Entry([98], Null);
    QuoteOne(97, [97]);
    QuoteOne(98, [98]);
    SortTwo(b, a);
    TwoFields(a, b, Obj([b, a]));
  }

  // ------------------------------------------------------------------ the fingerprinted payload

  /** What a request's fingerprint is the digest of. */
  function Payload(path: Text, body: Json): Text {
    path + [NEWLINE] + Stable(body)
  }

  lemma {:induction false} EscapedOnOneLine(s: Text)
    ensures NEWLINE !in Escaped(s)
  {
    if Pair(s) {
      EscapedOnOneLine(s[2..]);
    } else if s != [] {
      EscapedOnOneLine(s[1..]);
    }
  }

  lemma {:induction false} StableOnOneLine(v: Json)
    requires WellFormed(v)
    ensures NEWLINE !in Stable(v)
    decreases v, 1
  {
    match v
    case Str(chars) => EscapedOnOneLine(chars);
    case Arr(items) => ItemsOnOneLine(items);
    case Obj(entries) => FieldsOnOneLine(SortByKey(entries), v);
    case _ =>
  }

  lemma {:induction false} ItemsOnOneLine(s: seq<Json>)
    requires forall i :: 0 <= i < |s| ==> WellFormed(s[i])
    ensures NEWLINE !in Items(s)
    decreases s, 0
  {
    if s != [] {
      StableOnOneLine(s[0]);
      ItemsOnOneLine(s[1..]);
    }
  }

  lemma {:induction false} FieldsOnOneLine(s: seq<Entry>, owner: Json)
    requires Owned(s, owner)
    ensures NEWLINE !in Fields(s, owner)
    decreases owner, 0, |s|
  {
    if s != [] {
      EscapedOnOneLine(s[0].key);
      StableOnOneLine(s[0].value);
      FieldsOnOneLine(s[1..], owner);
    }
  }

  /** The last line break separates path and body, whatever the path holds. */
  lemma LastBreakSplits(p: Text, a: Text, q: Text, b: Text)
    requires NEWLINE !in a && NEWLINE !in b && p + [NEWLINE] + a == q + [NEWLINE] + b
    ensures p == q && a == b
  {
    BreakNotEarlier(p, a, q, b);
    BreakNotEarlier(q, b, p, a);
    Cancel(p + [NEWLINE], a, q + [NEWLINE], b);
    Cancel(p, [NEWLINE], q, [NEWLINE]);
  }

  lemma BreakNotEarlier(p: Text, a: Text, q: Text, b: Text)
    requires NEWLINE !in a && p + [NEWLINE] + a == q + [NEWLINE] + b
    ensures |p| >= |q|
  {
    assert (q + [NEWLINE] + b)[|q|] == NEWLINE;
    assert forall i :: |p| < i < |p + [NEWLINE] + a| ==> (p + [NEWLINE] + a)[i] == a[i - |p| - 1];
  }

  /** Requests share a payload exactly when path and body are the same up to key order. */
  lemma PayloadIdentifiesRequest(p: Text, a: Json, q: Text, b: Json)
    requires WellFormed(a) && WellFormed(b)
    ensures Payload(p, a) == Payload(q, b) <==> p == q && Same(a, b)
  {
    StableIsCanonical(a, b);
    if Payload(p, a) == Payload(q, b) {
      StableOnOneLine(a);
      StableOnOneLine(b);
      LastBreakSplits(p, Stable(a), q, Stable(b));
    }
  }
}
