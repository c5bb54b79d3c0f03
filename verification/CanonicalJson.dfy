/** The bytes that are signed: json.dumps with sorted keys, compact separators and no ASCII
    escaping (canonical_bytes in backend/reviews/services/signing.py and, on its own, in
    scripts/verify_certificate.py). */
module CanonicalJson {
  import opened Order
  import opened Sections

  /** A JSON text as written: the fields of an object have an order. */
  datatype Json =
    | Null
    | Bool(b: bool)
    | Int(n: int)
    | Str(s: string)
    | Arr(items: Items)
    | Obj(fields: Fields)

  datatype Items = NoItems | Item(head: Json, tail: Items)

  datatype Fields = NoFields | Field(key: string, value: Json, rest: Fields)

  // ---- writing, each function in front of a given tail ----

  function Digit(d: nat): char
    requires d < 16
  {
    if d < 10 then (48 + d) as char else (87 + d) as char
  }

  function WriteNat(n: nat, tail: string): string {
    if n < 10 then [Digit(n)] + tail else WriteNat(n / 10, [Digit(n % 10)] + tail)
  }

  function WriteInt(n: int, tail: string): string {
    if n < 0 then ['-'] + WriteNat(-n, tail) else WriteNat(n, tail)
  }

  /** The letter after the backslash, for the characters that have one. */
  function ShortEscape(c: char): Option<char> {
    if c == '"' || c == '\\' then Some(c)
    else if c == '\n' then Some('n')
    else if c == '\r' then Some('r')
    else if c == '\t' then Some('t')
    else if c as int == 8 then Some('b')
    else if c as int == 12 then Some('f')
    else None
  }

  function WriteChar(c: char, tail: string): string {
    if ShortEscape(c).Some? then ['\\', ShortEscape(c).value] + tail
    else if c as int < 32 then ['\\', 'u', '0', '0', Digit(c as int / 16), Digit(c as int % 16)] + tail
    else [c] + tail
  }

  /** The characters of a string and its closing quote. */
  function WriteChars(s: string, tail: string): string {
    if s == "" then ['"'] + tail else WriteChar(s[0], WriteChars(s[1..], tail))
  }

  function WriteStr(s: string, tail: string): string { ['"'] + WriteChars(s, tail) }

  function Write(j: Json, tail: string): string {
    match j
    case Null => ['n', 'u', 'l', 'l'] + tail
    case Bool(b) => (if b then ['t', 'r', 'u', 'e'] else ['f', 'a', 'l', 's', 'e']) + tail
    case Int(n) => WriteInt(n, tail)
    case Str(s) => WriteStr(s, tail)
    case Arr(items) => ['['] + WriteItems(items, tail)
    case Obj(fields) => ['{'] + WriteFields(fields, tail)
  }

  /** The items and the closing bracket. */
  function WriteItems(items: Items, tail: string): string {
    match items
    case NoItems => [']'] + tail
    case Item(head, more) =>
      Write(head, if more.NoItems? then [']'] + tail else [','] + WriteItems(more, tail))
  }

  /** The fields and the closing brace. */
  function WriteFields(fields: Fields, tail: string): string {
    match fields
    case NoFields => ['}'] + tail
    case Field(key, value, more) =>
      WriteStr(key, [':'] + Write(value, if more.NoFields? then ['}'] + tail else [','] + WriteFields(more, tail)))
  }

  /** `json.dumps(j, separators=(',', ':'), ensure_ascii=False)`. */
  function Print(j: Json): string { Write(j, "") }

  // ---- reading it back (sections 4 to 7 of RFC 8259, without optional white space) ----

  predicate IsDigit(c: char) { '0' <= c <= '9' }

  /** The number that the digits at the start continue, and what follows them. */
  function ReadDigits(sofar: nat, t: string): (nat, string)
    decreases |t|
  {
    if t != "" && IsDigit(t[0]) then ReadDigits(10 * sofar + (t[0] as int - 48), t[1..]) else (sofar, t)
  }

  function HexValue(c: char): Option<nat> {
    if '0' <= c <= '9' then Some(c as int - 48)
    else if 'a' <= c <= 'f' then Some(c as int - 87)
    else if 'A' <= c <= 'F' then Some(c as int - 55)
    else None
  }

  function Unescape(c: char): Option<char> {
    if c == '"' || c == '\\' || c == '/' then Some(c)
    else if c == 'n' then Some('\n')
    else if c == 'r' then Some('\r')
    else if c == 't' then Some('\t')
    else if c == 'b' then Some(8 as char)
    else if c == 'f' then Some(12 as char)
    else None
  }

  /** Four hexadecimal digits that stand for one character. */
  function ReadHex(t: string): Option<char>
    requires |t| >= 4
  {
    match (HexValue(t[0]), HexValue(t[1]), HexValue(t[2]), HexValue(t[3]))
    case (Some(a), Some(b), Some(c), Some(d)) =>
      var code := ((a * 16 + b) * 16 + c) * 16 + d;
      if code < 0xD800 || 0xE000 <= code < 0x10000 then Some(code as char) else None
    case _ => None
  }

  /** One character of a string, and what follows it. */
  function ReadChar(t: string): (r: Option<(char, string)>)
    ensures r.Some? ==> |r.value.1| < |t|
  {
    if t == "" || t[0] == '"' || t[0] as int < 32 then None
    else if t[0] != '\\' then Some((t[0], t[1..]))
    else if |t| >= 6 && t[1] == 'u' then
      match ReadHex(t[2..6])
      case Some(c) => Some((c, t[6..]))
      case None => None
    else if |t| >= 2 && Unescape(t[1]).Some? then Some((Unescape(t[1]).value, t[2..]))
    else None
  }

  /** The characters up to the closing quote, and what follows that. */
  function ReadChars(t: string): (r: Option<(string, string)>)
    ensures r.Some? ==> |r.value.1| < |t|
    decreases |t|
  {
    if t != "" && t[0] == '"' then Some(("", t[1..]))
    else
      match ReadChar(t)
      case None => None
      case Some((c, u)) =>
        match ReadChars(u)
        case None => None
        case Some((s, rest)) => Some(([c] + s, rest))
  }

  function ReadStr(t: string): (r: Option<(string, string)>)
    ensures r.Some? ==> |r.value.1| < |t|
  {
    if t != "" && t[0] == '"' then ReadChars(t[1..]) else None
  }

  function ReadInt(t: string): (r: Option<(Json, string)>)
    ensures r.Some? ==> |r.value.1| < |t|
  {
    if t != "" && IsDigit(t[0]) then
      DigitsShorten(t[0] as int - 48, t[1..]);
      var (n, rest) := ReadDigits(t[0] as int - 48, t[1..]);
      Some((Int(n), rest))
    else if |t| > 1 && t[0] == '-' && IsDigit(t[1]) then
      DigitsShorten(0, t[1..]);
      var (n, rest) := ReadDigits(0, t[1..]);
      Some((Int(-(n as int)), rest))
    else None
  }

  lemma {:induction false} DigitsShorten(sofar: nat, t: string)
    ensures |ReadDigits(sofar, t).1| <= |t|
    decreases |t|
  {
    if t != "" && IsDigit(t[0]) { DigitsShorten(10 * sofar + (t[0] as int - 48), t[1..]); }
  }

  function ReadWord(t: string, word: string, j: Json): (r: Option<(Json, string)>)
    requires word != ""
    ensures r.Some? ==> |r.value.1| < |t|
  {
    if word <= t then Some((j, t[|word|..])) else None
  }

  function Read(t: string): (r: Option<(Json, string)>)
    ensures r.Some? ==> |r.value.1| < |t|
    decreases |t|, 1
  {
    if t == "" then None
    else if t[0] == 'n' then ReadWord(t, ['n', 'u', 'l', 'l'], Null)
    else if t[0] == 't' then ReadWord(t, ['t', 'r', 'u', 'e'], Bool(true))
    else if t[0] == 'f' then ReadWord(t, ['f', 'a', 'l', 's', 'e'], Bool(false))
    else if t[0] == '"' then
      match ReadStr(t)
      case None => None
      case Some((s, rest)) => Some((Str(s), rest))
    else if t[0] == '[' then
      if |t| > 1 && t[1] == ']' then Some((Arr(NoItems), t[2..]))
      else
        match ReadItems(t[1..])
        case None => None
        case Some((items, rest)) => Some((Arr(items), rest))
    else if t[0] == '{' then
      if |t| > 1 && t[1] == '}' then Some((Obj(NoFields), t[2..]))
      else
        match ReadFields(t[1..])
        case None => None
        case Some((fields, rest)) => Some((Obj(fields), rest))
    else ReadInt(t)
  }

  function ReadItems(t: string): (r: Option<(Items, string)>)
    ensures r.Some? ==> |r.value.1| < |t|
    decreases |t|, 2
  {
    match Read(t)
    case None => None
    case Some((head, u)) =>
      if u != "" && u[0] == ']' then Some((Item(head, NoItems), u[1..]))
      else if u != "" && u[0] == ',' then
        match ReadItems(u[1..])
        case None => None
        case Some((more, rest)) => Some((Item(head, more), rest))
      else None
  }

  function ReadFields(t: string): (r: Option<(Fields, string)>)
    ensures r.Some? ==> |r.value.1| < |t|
    decreases |t|, 2
  {
    match ReadStr(t)
    case None => None
    case Some((key, u)) =>
      if u == "" || u[0] != ':' then None
      else
        match Read(u[1..])
        case None => None
        case Some((value, w)) =>
          if w != "" && w[0] == '}' then Some((Field(key, value, NoFields), w[1..]))
          else if w != "" && w[0] == ',' then
            match ReadFields(w[1..])
            case None => None
            case Some((more, rest)) => Some((Field(key, value, more), rest))
          else None
  }

  // ---- reading what was written ----

  /** What may follow a value: anything that does not continue a number. */
  predicate Follows(tail: string) { tail == "" || !IsDigit(tail[0]) }

  lemma {:induction false} NatReadsBack(n: nat, tail: string)
    ensures ReadDigits(0, WriteNat(n, tail)) == ReadDigits(n, tail)
    ensures WriteNat(n, tail) != "" && IsDigit(WriteNat(n, tail)[0])
    decreases n
  {
    if n < 10 {
      assert ([Digit(n)] + tail)[1..] == tail;
    } else {
      var d := n % 10;
      NatReadsBack(n / 10, [Digit(d)] + tail);
      assert ([Digit(d)] + tail)[1..] == tail;
      assert 10 * (n / 10) + d == n;
    }
  }

  lemma IntReadsBack(n: int, tail: string)
    requires Follows(tail)
    ensures ReadInt(WriteInt(n, tail)) == Some((Int(n), tail))
  {
    var m := if n < 0 then -n else n;
    var t := WriteNat(m, tail);
    NatReadsBack(m, tail);
    assert ReadDigits(m, tail) == (m, tail);
    if n < 0 {
      assert (['-'] + t)[1..] == t;
    } else {
      assert ReadDigits(0, t) == ReadDigits(t[0] as int - 48, t[1..]);
    }
  }

  lemma CharReadsBack(c: char, tail: string)
    ensures ReadChar(WriteChar(c, tail)) == Some((c, tail)) && WriteChar(c, tail)[0] != '"'
  {
    var t := WriteChar(c, tail);
    if ShortEscape(c).Some? {
      assert t[2..] == tail;
    } else if c as int < 32 {
      assert t[2..6] == ['0', '0', Digit(c as int / 16), Digit(c as int % 16)] && t[6..] == tail;
    } else {
      assert t[1..] == tail;
    }
  }

  lemma {:induction false} CharsReadBack(s: string, tail: string)
    ensures ReadChars(WriteChars(s, tail)) == Some((s, tail))
  {
    if s == "" {
      assert (['"'] + tail)[1..] == tail;
    } else {
      CharsReadBack(s[1..], tail);
      CharReadsBack(s[0], WriteChars(s[1..], tail));
      assert s == [s[0]] + s[1..];
    }
  }

  lemma StrReadsBack(s: string, tail: string)
    ensures ReadStr(WriteStr(s, tail)) == Some((s, tail))
  {
    CharsReadBack(s, tail);
    assert WriteStr(s, tail)[1..] == WriteChars(s, tail);
  }

  lemma ValueStarts(j: Json, tail: string)
    ensures Write(j, tail) != "" && Write(j, tail)[0] !in {']', '}', ',', ':'}
  {
    if j.Int? && j.n >= 0 { NatReadsBack(j.n, tail); }
  }

  /** Reading gives back what was written, whatever follows that does not continue a number. */
  lemma {:induction false} ReadsBack(j: Json, tail: string)
    requires Follows(tail)
    ensures Read(Write(j, tail)) == Some((j, tail))
    decreases j, 1
  {
    var t := Write(j, tail);
    match j
    case Null => assert t[4..] == tail;
    case Bool(b) => assert t[if b then 4 else 5..] == tail;
    case Int(n) => IntReadBack(n, tail);
    case Str(s) => StrReadsBack(s, tail);
    case Arr(items) => ListReadsBack(items, tail);
    case Obj(fields) => ObjectReadsBack(fields, tail);
  }

  lemma {:induction false} ListReadsBack(items: Items, tail: string)
    ensures Read(['['] + WriteItems(items, tail)) == Some((Arr(items), tail))
    decreases items, 2
  {
    var t := ['['] + WriteItems(items, tail);
    assert t[1..] == WriteItems(items, tail);
    if items.NoItems? {
      assert t[2..] == tail;
    } else {
      ItemsReadBack(items, tail);
      ItemsStart(items, tail);
    }
  }

  lemma {:induction false} ObjectReadsBack(fields: Fields, tail: string)
    ensures Read(['{'] + WriteFields(fields, tail)) == Some((Obj(fields), tail))
    decreases fields, 2
  {
    var t := ['{'] + WriteFields(fields, tail);
    assert t[1..] == WriteFields(fields, tail);
    if fields.NoFields? {
      assert t[2..] == tail;
    } else {
      FieldsReadBack(fields, tail);
    }
  }

  lemma IntReadBack(n: int, tail: string)
    requires Follows(tail)
    ensures Read(WriteInt(n, tail)) == Some((Int(n), tail))
  {
    IntReadsBack(n, tail);
    if n >= 0 { NatReadsBack(n, tail); }
  }

  lemma ItemsStart(items: Items, tail: string)
    requires items.Item?
    ensures WriteItems(items, tail) != "" && WriteItems(items, tail)[0] != ']'
  {
    ValueStarts(items.head, if items.tail.NoItems? then [']'] + tail else [','] + WriteItems(items.tail, tail));
  }

  lemma {:induction false} ItemsReadBack(items: Items, tail: string)
    requires items.Item?
    ensures ReadItems(WriteItems(items, tail)) == Some((items, tail))
    decreases items, 0
  {
    var more := items.tail;
    if more.NoItems? {
      ReadsBack(items.head, [']'] + tail);
      assert ([']'] + tail)[1..] == tail;
    } else {
      var u := WriteItems(more, tail);
      ReadsBack(items.head, [','] + u);
      assert ([','] + u)[1..] == u;
      ItemsReadBack(more, tail);
    }
  }

  lemma {:induction false} FieldsReadBack(fields: Fields, tail: string)
    requires fields.Field?
    ensures ReadFields(WriteFields(fields, tail)) == Some((fields, tail))
    decreases fields, 0
  {
    var more := fields.rest;
    var u := if more.NoFields? then ['}'] + tail else [','] + WriteFields(more, tail);
    var w := Write(fields.value, u);
    StrReadsBack(fields.key, [':'] + w);
    assert ([':'] + w)[1..] == w;
    ReadsBack(fields.value, u);
    if more.NoFields? {
      assert u[1..] == tail;
    } else {
      assert u[1..] == WriteFields(more, tail);
      FieldsReadBack(more, tail);
    }
  }

  /** `json.loads(json.dumps(j))` is `j`, so two texts that differ are never written alike. */
  lemma PrintIsInjective(j: Json, k: Json)
    ensures Read(Print(j)) == Some((j, ""))
    ensures Print(j) == Print(k) ==> j == k
  {
    ReadsBack(j, "");
    ReadsBack(k, "");
  }

  // ---- nothing shorter says the same ----

  lemma {:induction false} NatLength(n: nat, x: string, y: string)
    ensures |WriteNat(n, x)| - |x| == |WriteNat(n, y)| - |y|
  {
    if n >= 10 { NatLength(n / 10, [Digit(n % 10)] + x, [Digit(n % 10)] + y); }
  }

  lemma {:induction false} CharsLength(s: string, x: string, y: string)
    ensures |WriteChars(s, x)| - |x| == |WriteChars(s, y)| - |y|
  {
    if s != "" { CharsLength(s[1..], x, y); }
  }

  /** What is written for a value takes the same space whatever follows. */
  lemma {:induction false} WriteLength(j: Json, x: string, y: string)
    ensures |Write(j, x)| - |x| == |Write(j, y)| - |y|
  {
    match j
    case Null =>
    case Bool(_) =>
    case Int(n) => NatLength(if n < 0 then -n else n, x, y);
    case Str(s) => CharsLength(s, x, y);
    case Arr(items) => ItemsLength(items, x, y);
    case Obj(fields) => FieldsLength(fields, x, y);
  }

  lemma {:induction false} ItemsLength(items: Items, x: string, y: string)
    ensures |WriteItems(items, x)| - |x| == |WriteItems(items, y)| - |y|
  {
    match items
    case NoItems =>
    case Item(head, more) =>
      ItemsLength(more, x, y);
      WriteLength(head, if more.NoItems? then [']'] + x else [','] + WriteItems(more, x),
                  if more.NoItems? then [']'] + y else [','] + WriteItems(more, y));
  }

  lemma {:induction false} FieldsLength(fields: Fields, x: string, y: string)
    ensures |WriteFields(fields, x)| - |x| == |WriteFields(fields, y)| - |y|
  {
    match fields
    case NoFields =>
    case Field(key, value, more) =>
      var u := if more.NoFields? then ['}'] + x else [','] + WriteFields(more, x);
      var w := if more.NoFields? then ['}'] + y else [','] + WriteFields(more, y);
      FieldsLength(more, x, y);
      WriteLength(value, u, w);
      CharsLength(key, [':'] + Write(value, u), [':'] + Write(value, w));
  }

  lemma CharShortest(t: string, x: string)
    requires ReadChar(t).Some?
    ensures |WriteChar(ReadChar(t).value.0, x)| - |x| <= |t| - |ReadChar(t).value.1|
  {
  }

  lemma {:induction false} CharsShortest(t: string)
    requires ReadChars(t).Some?
    ensures |WriteChars(ReadChars(t).value.0, ReadChars(t).value.1)| <= |t|
    decreases |t|
  {
    if t[0] != '"' {
      var c, u := ReadChar(t).value.0, ReadChar(t).value.1;
      var s, rest := ReadChars(u).value.0, ReadChars(u).value.1;
      CharsShortest(u);
      CharShortest(t, WriteChars(s, rest));
      assert ([c] + s)[1..] == s;
    }
  }

  lemma {:induction false} DigitsBound(sofar: nat, t: string, least: nat)
    requires |WriteNat(sofar, "")| <= least
    ensures var (n, rest) := ReadDigits(sofar, t); |WriteNat(n, "")| <= least + |t| - |rest|
    decreases |t|
  {
    if t != "" && IsDigit(t[0]) {
      var d := t[0] as int - 48;
      NatLength(sofar, [Digit(d)] + "", "");
      assert (10 * sofar + d) / 10 == sofar && (10 * sofar + d) % 10 == d;
      DigitsBound(10 * sofar + d, t[1..], least + 1);
    }
  }

  lemma IntShortest(t: string)
    requires ReadInt(t).Some?
    ensures |Write(ReadInt(t).value.0, ReadInt(t).value.1)| <= |t|
  {
    var j, rest := ReadInt(t).value.0, ReadInt(t).value.1;
    if IsDigit(t[0]) {
      DigitsBound(t[0] as int - 48, t[1..], 1);
      NatLength(ReadDigits(t[0] as int - 48, t[1..]).0, rest, "");
    } else {
      var d := t[1] as int - 48;
      assert t[1..][1..] == t[2..];
      assert ReadDigits(0, t[1..]) == ReadDigits(d, t[2..]);
      DigitsBound(d, t[2..], 1);
      NatLength(ReadDigits(d, t[2..]).0, rest, "");
    }
  }

  /** Of all texts that read as the value, none is shorter than the one written. */
  lemma {:induction false} WrittenIsShortest(t: string)
    requires Read(t).Some?
    ensures |Write(Read(t).value.0, Read(t).value.1)| <= |t|
    decreases |t|, 1
  {
    if t[0] == 'n' || t[0] == 't' || t[0] == 'f' {
    } else if t[0] == '"' {
      CharsShortest(t[1..]);
    } else if t[0] == '[' {
      if !(|t| > 1 && t[1] == ']') { ItemsShortest(t[1..]); }
    } else if t[0] == '{' {
      if !(|t| > 1 && t[1] == '}') { FieldsShortest(t[1..]); }
    } else {
      IntShortest(t);
    }
  }

  lemma {:induction false} ItemsShortest(t: string)
    requires ReadItems(t).Some?
    ensures |WriteItems(ReadItems(t).value.0, ReadItems(t).value.1)| <= |t|
    decreases |t|, 2
  {
    var head, u := Read(t).value.0, Read(t).value.1;
    WrittenIsShortest(t);
    if u[0] == ']' {
      assert u == [']'] + u[1..];
    } else {
      var more, rest := ReadItems(u[1..]).value.0, ReadItems(u[1..]).value.1;
      ItemsShortest(u[1..]);
      WriteLength(head, u, if more.NoItems? then [']'] + rest else [','] + WriteItems(more, rest));
    }
  }

  lemma {:induction false} FieldsShortest(t: string)
    requires ReadFields(t).Some?
    ensures |WriteFields(ReadFields(t).value.0, ReadFields(t).value.1)| <= |t|
    decreases |t|, 2
  {
    var key, u := ReadStr(t).value.0, ReadStr(t).value.1;
    var value, w := Read(u[1..]).value.0, Read(u[1..]).value.1;
    CharsShortest(t[1..]);
    WrittenIsShortest(u[1..]);
    var end := w;
    if w[0] == '}' {
      assert w == ['}'] + w[1..];
    } else {
      var more, rest := ReadFields(w[1..]).value.0, ReadFields(w[1..]).value.1;
      FieldsShortest(w[1..]);
      end := if more.NoFields? then ['}'] + rest else [','] + WriteFields(more, rest);
      WriteLength(value, w, end);
    }
    CharsLength(key, u, [':'] + Write(value, end));
  }

  /** The only thing left open by that are the letters in the code of a control character: they are small. */
  lemma EscapedSmall(c: char, tail: string, i: nat)
    requires 2 <= i < |WriteChar(c, tail)| - |tail|
    ensures '0' <= WriteChar(c, tail)[i] <= '9' || 'a' <= WriteChar(c, tail)[i] <= 'f'
  {
  }

  // ---- sorted keys ----

  function InsertField(key: string, value: Json, fields: Fields): Fields {
    if fields.NoFields? || LexLe(key, fields.key) then Field(key, value, fields)
    else Field(fields.key, fields.value, InsertField(key, value, fields.rest))
  }

  function SortKeys(j: Json): Json {
    match j
    case Arr(items) => Arr(SortItems(items))
    case Obj(fields) => Obj(SortFields(fields))
    case _ => j
  }

  function SortItems(items: Items): Items {
    match items
    case NoItems => NoItems
    case Item(head, tail) => Item(SortKeys(head), SortItems(tail))
  }

  function SortFields(fields: Fields): Fields {
    match fields
    case NoFields => NoFields
    case Field(key, value, rest) => InsertField(key, SortKeys(value), SortFields(rest))
  }

  /** `canonical_bytes`, before the characters are encoded. */
  function Canonical(j: Json): string { Print(SortKeys(j)) }

  // ---- what a JSON text means: a Python object, its dictionaries without order ----

  datatype Value =
    | NullV
    | BoolV(b: bool)
    | IntV(n: int)
    | StrV(s: string)
    | ListV(items: seq<Value>)
    | DictV(fields: map<string, Value>)

  function Meaning(j: Json): Value {
    match j
    case Null => NullV
    case Bool(b) => BoolV(b)
    case Int(n) => IntV(n)
    case Str(s) => StrV(s)
    case Arr(items) => ListV(ItemsMeaning(items))
    case Obj(fields) => DictV(FieldsMeaning(fields))
  }

  function ItemsMeaning(items: Items): seq<Value> {
    match items
    case NoItems => []
    case Item(head, tail) => [Meaning(head)] + ItemsMeaning(tail)
  }

  function FieldsMeaning(fields: Fields): map<string, Value> {
    match fields
    case NoFields => map[]
    case Field(key, value, rest) => FieldsMeaning(rest)[key := Meaning(value)]
  }

  function KeysOf(fields: Fields): set<string> {
    match fields
    case NoFields => {}
    case Field(key, _, rest) => {key} + KeysOf(rest)
  }

  /** A Python object has every key once. */
  predicate WellFormed(j: Json) {
    match j
    case Arr(items) => ItemsWellFormed(items)
    case Obj(fields) => FieldsWellFormed(fields)
    case _ => true
  }

  predicate ItemsWellFormed(items: Items) {
    match items
    case NoItems => true
    case Item(head, tail) => WellFormed(head) && ItemsWellFormed(tail)
  }

  predicate FieldsWellFormed(fields: Fields) {
    match fields
    case NoFields => true
    case Field(key, value, rest) => key !in KeysOf(rest) && WellFormed(value) && FieldsWellFormed(rest)
  }

  predicate Before(a: string, b: string) { LexLe(a, b) && a != b }

  ghost predicate BeforeAll(a: string, keys: set<string>) {
    forall k :: k in keys ==> Before(a, k)
  }

  ghost predicate Sorted(j: Json) {
    match j
    case Arr(items) => ItemsSorted(items)
    case Obj(fields) => FieldsSorted(fields)
    case _ => true
  }

  ghost predicate ItemsSorted(items: Items) {
    match items
    case NoItems => true
    case Item(head, tail) => Sorted(head) && ItemsSorted(tail)
  }

  ghost predicate FieldsSorted(fields: Fields) {
    match fields
    case NoFields => true
    case Field(key, value, rest) => BeforeAll(key, KeysOf(rest)) && Sorted(value) && FieldsSorted(rest)
  }

  lemma {:induction false} KeysAreMeant(fields: Fields)
    ensures FieldsMeaning(fields).Keys == KeysOf(fields)
  {
    match fields
    case NoFields =>
    case Field(_, _, rest) => KeysAreMeant(rest);
  }

  lemma {:induction false} InsertKeeps(key: string, value: Json, fields: Fields)
    requires FieldsSorted(fields) && Sorted(value) && key !in KeysOf(fields)
    ensures FieldsSorted(InsertField(key, value, fields))
    ensures KeysOf(InsertField(key, value, fields)) == {key} + KeysOf(fields)
    ensures FieldsMeaning(InsertField(key, value, fields)) == FieldsMeaning(fields)[key := Meaning(value)]
    decreases fields
  {
    if fields.Field? {
      LexConnected(key, fields.key);
      if LexLe(key, fields.key) {
        BeforeTheFirst(key, fields.key, KeysOf(fields.rest));
      } else {
        InsertKeeps(key, value, fields.rest);
        TwoKeys(FieldsMeaning(fields.rest), key, Meaning(value), fields.key, Meaning(fields.value));
      }
    }
  }

  lemma BeforeTheFirst(key: string, first: string, others: set<string>)
    requires LexLe(key, first) && key != first && BeforeAll(first, others)
    ensures BeforeAll(key, {first} + others)
  {
    forall k | k in others ensures Before(key, k) {
      LexTransitive(key, first, k);
      LexStrict(key, first, k);
    }
  }

  lemma TwoKeys(m: map<string, Value>, a: string, x: Value, b: string, y: Value)
    requires a != b
    ensures m[a := x][b := y] == m[b := y][a := x]
  {
  }

  lemma LexStrict(a: string, b: string, c: string)
    requires LexLe(a, b) && Before(b, c)
    ensures a != c
  {
    if a == c { LexAntisymmetric(a, b); }
  }

  /** Sorting the keys changes the order and nothing else. */
  lemma {:induction false} SortKeepsMeaning(j: Json)
    requires WellFormed(j)
    ensures Sorted(SortKeys(j)) && Meaning(SortKeys(j)) == Meaning(j)
    decreases j, 0
  {
    match j
    case Arr(items) => SortItemsKeeps(items);
    case Obj(fields) => SortFieldsKeeps(fields);
    case _ =>
  }

  lemma {:induction false} SortItemsKeeps(items: Items)
    requires ItemsWellFormed(items)
    ensures ItemsSorted(SortItems(items)) && ItemsMeaning(SortItems(items)) == ItemsMeaning(items)
    decreases items, 0
  {
    match items
    case NoItems =>
    case Item(head, tail) =>
      SortKeepsMeaning(head);
      SortItemsKeeps(tail);
  }

  lemma {:induction false} SortFieldsKeeps(fields: Fields)
    requires FieldsWellFormed(fields)
    ensures FieldsSorted(SortFields(fields)) && KeysOf(SortFields(fields)) == KeysOf(fields)
    ensures FieldsMeaning(SortFields(fields)) == FieldsMeaning(fields)
    decreases fields, 0
  {
    match fields
    case NoFields =>
    case Field(key, value, rest) =>
      SortKeepsMeaning(value);
      SortFieldsKeeps(rest);
      InsertKeeps(key, SortKeys(value), SortFields(rest));
  }

  /** Only one sorted text has a given meaning. */
  lemma {:induction false} SortedIsUnique(j: Json, k: Json)
    requires Sorted(j) && Sorted(k) && Meaning(j) == Meaning(k)
    ensures j == k
    decreases j, 0
  {
    match (j, k)
    case (Arr(items), Arr(others)) => SortedItemsUnique(items, others);
    case (Obj(fields), Obj(others)) => SortedFieldsUnique(fields, others);
    case _ =>
  }

  lemma {:induction false} SortedItemsUnique(items: Items, others: Items)
    requires ItemsSorted(items) && ItemsSorted(others) && ItemsMeaning(items) == ItemsMeaning(others)
    ensures items == others
    decreases items, 0
  {
    if items.Item? && others.Item? {
      var u, v := ItemsMeaning(items), ItemsMeaning(others);
      assert u[0] == v[0] && u[1..] == v[1..];
      assert u[1..] == ItemsMeaning(items.tail) && v[1..] == ItemsMeaning(others.tail);
      SortedIsUnique(items.head, others.head);
      SortedItemsUnique(items.tail, others.tail);
    }
  }

  lemma FirstKeyIsLeast(fields: Fields, others: Fields)
    requires FieldsSorted(fields) && FieldsSorted(others) && fields.Field? && others.Field?
    requires KeysOf(fields) == KeysOf(others)
    ensures fields.key == others.key && KeysOf(fields.rest) == KeysOf(others.rest)
  {
    assert fields.key in KeysOf(others) && others.key in KeysOf(fields);
    if fields.key != others.key {
      LexAntisymmetric(fields.key, others.key);
    }
    assert fields.key !in KeysOf(fields.rest) && others.key !in KeysOf(others.rest);
    assert KeysOf(fields.rest) == KeysOf(fields) - {fields.key};
  }

  lemma {:induction false} SortedFieldsUnique(fields: Fields, others: Fields)
    requires FieldsSorted(fields) && FieldsSorted(others) && FieldsMeaning(fields) == FieldsMeaning(others)
    ensures fields == others
    decreases fields, 0
  {
    KeysAreMeant(fields);
    KeysAreMeant(others);
    if fields.Field? && others.Field? {
      FirstKeyIsLeast(fields, others);
      SortedIsUnique(fields.value, others.value);
      RestMeaning(fields);
      RestMeaning(others);
      SortedFieldsUnique(fields.rest, others.rest);
    }
  }

  lemma RestMeaning(fields: Fields)
    requires fields.Field? && FieldsSorted(fields)
    ensures FieldsMeaning(fields.rest) == FieldsMeaning(fields) - {fields.key}
  {
    KeysAreMeant(fields.rest);
    assert fields.key !in KeysOf(fields.rest);
  }

  /** The central fact: two payloads are signed over the same characters exactly when they are
      the same Python object, however their keys came to be ordered. */
  lemma CanonicalIff(j: Json, k: Json)
    requires WellFormed(j) && WellFormed(k)
    ensures Canonical(j) == Canonical(k) <==> Meaning(j) == Meaning(k)
  {
    SortKeepsMeaning(j);
    SortKeepsMeaning(k);
    PrintIsInjective(SortKeys(j), SortKeys(k));
    if Meaning(j) == Meaning(k) {
      SortedIsUnique(SortKeys(j), SortKeys(k));
    }
  }
}
