/**
 * Canonical JSON text: sorted keys, no white space, ASCII only (RFC 8259, sections 4 to 7), with
 * strings as code points that the text carries as UTF-16 escapes.
 */
module CanonicalJson {
  import opened Results

  type CodePoint = c: int | 0 <= c < 0x11_0000
  /** A UTF-16 code unit, as one escape of the text carries it. */
  type Unit = u: int | 0 <= u < 0x1_0000

  type Bytes = seq<Byte>
  type Text = seq<CodePoint>

  datatype Json =
    | Null
    | Bool(flag: bool)
    | Int(number: int)
    | Str(text: Text)
    | Arr(items: seq<Json>)
    | Obj(members: seq<Member>)

  datatype Member = Member(key: Text, value: Json)

  // ---------------------------------------------------------------- code points and code units

  predicate High(u: int) {
    0xD800 <= u < 0xDC00
  }

  predicate Low(u: int) {
    0xDC00 <= u < 0xE000
  }

  /** No high surrogate stands right before a low one. */
  predicate NoSplitPair(t: Text) {
    forall i :: 0 <= i < |t| - 1 ==> !(High(t[i]) && Low(t[i + 1]))
  }

  function Split(t: Text): seq<Unit> {
    if t == [] then []
    else if t[0] < 0x1_0000 then [t[0]] + Split(t[1..])
    else
      var c := t[0] - 0x1_0000;
      [0xD800 + c / 0x400, 0xDC00 + c % 0x400] + Split(t[1..])
  }

  function Merge(us: seq<Unit>): (t: Text)
    ensures NoSplitPair(t)
    ensures t != [] ==> us != [] && (Low(t[0]) ==> t[0] == us[0])
    decreases |us|
  {
    if us == [] then []
    else if |us| > 1 && High(us[0]) && Low(us[1]) then
      [0x1_0000 + (us[0] - 0xD800) * 0x400 + (us[1] - 0xDC00)] + Merge(us[2..])
    else [us[0]] + Merge(us[1..])
  }

  lemma NoSplitPairTail(t: Text)
    requires t != [] && NoSplitPair(t)
    ensures NoSplitPair(t[1..])
  {
    var tail := t[1..];
    forall i | 0 <= i < |tail| - 1
      ensures !(High(tail[i]) && Low(tail[i + 1]))
    {
      var j := i + 1;
      assert tail[i] == t[j] && tail[i + 1] == t[j + 1];
    }
  }

  lemma {:induction false} MergeSplit(t: Text)
    requires NoSplitPair(t)
    ensures Merge(Split(t)) == t
    decreases |t|
  {
    if t != [] {
      var rest := Split(t[1..]);
      NoSplitPairTail(t);
      MergeSplit(t[1..]);
      if t[0] < 0x1_0000 {
        assert Split(t)[1..] == rest;
        if rest != [] && Low(rest[0]) {
          assert t[1] < 0x1_0000 && rest[0] == t[1];
        }
        assert Merge(Split(t)) == [t[0]] + Merge(rest);
      } else {
        assert Split(t)[2..] == rest;
      }
    }
  }

  // ---------------------------------------------------------------- strings

  const QUOTE: Byte := 34
  const BACKSLASH: Byte := 92

  function HexDigit(d: int): Byte
    requires 0 <= d < 16
  {
    if d < 10 then 48 + d else 87 + d
  }

  function FromHex(b: Byte): (d: Option<int>)
    ensures d.Some? ==> 0 <= d.value < 16
  {
    if 48 <= b <= 57 then Some(b - 48)
    else if 97 <= b <= 102 then Some(b - 87)
    else None
  }

  /** The short escape letter of a unit, if it has one. */
  function ShortEscape(u: Unit): Option<Byte> {
    if u == 34 then Some(34) else if u == 92 then Some(92)
    else if u == 8 then Some(98) else if u == 12 then Some(102)
    else if u == 10 then Some(110) else if u == 13 then Some(114)
    else if u == 9 then Some(116) else None
  }

  function FromShortEscape(b: Byte): Option<Unit> {
    if b == 34 then Some(34) else if b == 92 then Some(92)
    else if b == 98 then Some(8) else if b == 102 then Some(12)
    else if b == 110 then Some(10) else if b == 114 then Some(13)
    else if b == 116 then Some(9) else None
  }

  function PrintUnit(u: Unit): (r: Bytes)
    ensures r != []
  {
    var short := ShortEscape(u);
    if short.Some? then [BACKSLASH, short.value]
    else if 32 <= u <= 126 then [u]
    else [BACKSLASH, 117] + Hex4(u)
  }

  /** The four hexadecimal digits of a unit. */
  function Hex4(u: Unit): (r: Bytes)
    ensures |r| == 4
  {
    var a, b, c := u / 16, u / 16 / 16, u / 16 / 16 / 16;
    [HexDigit(c), HexDigit(b % 16), HexDigit(a % 16), HexDigit(u % 16)]
  }

  function FromHex4(r: Bytes): Option<Unit>
    requires |r| == 4
  {
    var a, b, c, d := FromHex(r[0]), FromHex(r[1]), FromHex(r[2]), FromHex(r[3]);
    if a.Some? && b.Some? && c.Some? && d.Some?
    then Some(((a.value * 16 + b.value) * 16 + c.value) * 16 + d.value)
    else None
  }

  lemma FromPrintedHex(u: Unit)
    ensures FromHex4(Hex4(u)) == Some(u)
  {
  }

  function PrintUnits(us: seq<Unit>): Bytes {
    if us == [] then [] else PrintUnit(us[0]) + PrintUnits(us[1..])
  }

  function PrintText(t: Text): Bytes {
    [QUOTE] + PrintUnits(Split(t)) + [QUOTE]
  }

  /** One unit of a string body, and the bytes after it. */
  function ParseUnit(raw: Bytes): (r: Option<(Unit, Bytes)>)
    ensures r.Some? ==> |r.value.1| < |raw|
  {
    if raw == [] || raw[0] == QUOTE then None
    else if raw[0] != BACKSLASH then
      if 32 <= raw[0] <= 126 then Some((raw[0], raw[1..])) else None
    else if |raw| >= 2 && raw[1] != 117 then
      var u := FromShortEscape(raw[1]);
      if u.Some? then Some((u.value, raw[2..])) else None
    else if |raw| >= 6 then
      var u := FromHex4(raw[2..6]);
      if u.Some? then Some((u.value, raw[6..])) else None
    else None
  }

  /** The units up to the closing quote, and the bytes after it. */
  function ParseUnits(raw: Bytes): (r: Option<(seq<Unit>, Bytes)>)
    ensures r.Some? ==> |r.value.1| < |raw|
    decreases |raw|
  {
    if raw == [] then None
    else if raw[0] == QUOTE then Some(([], raw[1..]))
    else
      var first := ParseUnit(raw);
      if first.None? then None else
      var rest := ParseUnits(first.value.1);
      if rest.None? then None else Some(([first.value.0] + rest.value.0, rest.value.1))
  }

  function ParseText(raw: Bytes): (r: Option<(Text, Bytes)>)
    ensures r.Some? ==> |r.value.1| < |raw| && NoSplitPair(r.value.0)
  {
    if raw == [] || raw[0] != QUOTE then None else
    var units := ParseUnits(raw[1..]);
    if units.None? then None else Some((Merge(units.value.0), units.value.1))
  }

  lemma ParsePrintedUnit(u: Unit, rest: Bytes)
    ensures ParseUnit(PrintUnit(u) + rest) == Some((u, rest))
    ensures PrintUnit(u)[0] != QUOTE
  {
    var p := PrintUnit(u);
    assert (p + rest)[|p|..] == rest;
    if ShortEscape(u).None? && !(32 <= u <= 126) {
      assert (p + rest)[2..6] == Hex4(u);
      FromPrintedHex(u);
    }
  }

  lemma {:induction false} ParsePrintedUnits(us: seq<Unit>, rest: Bytes)
    ensures ParseUnits(PrintUnits(us) + [QUOTE] + rest) == Some((us, rest))
    decreases |us|
  {
    if us == [] {
      assert PrintUnits(us) + [QUOTE] + rest == [QUOTE] + rest;
    } else {
      var tail := PrintUnits(us[1..]) + [QUOTE] + rest;
      assert PrintUnits(us) + [QUOTE] + rest == PrintUnit(us[0]) + tail;
      ParsePrintedUnit(us[0], tail);
      ParsePrintedUnits(us[1..], rest);
      assert [us[0]] + us[1..] == us;
    }
  }

  lemma ParsePrintedText(t: Text, rest: Bytes)
    requires NoSplitPair(t)
    ensures ParseText(PrintText(t) + rest) == Some((t, rest))
  {
    hide PrintUnits, ParseUnits, Split, Merge, NoSplitPair;
    var body := PrintUnits(Split(t)) + [QUOTE] + rest;
    var raw := PrintText(t) + rest;
    assert raw == [QUOTE] + body;
    assert raw[0] == QUOTE && raw[1..] == body;
    ParsePrintedUnits(Split(t), rest);
    MergeSplit(t);
  }

  // ---------------------------------------------------------------- integers

  predicate IsDigit(b: int) {
    48 <= b <= 57
  }

  function PrintNat(n: nat): (r: Bytes)
    ensures r != [] && IsDigit(r[0])
  {
    if n < 10 then [48 + n] else PrintNat(n / 10) + [48 + n % 10]
  }

  function PrintInt(n: int): (r: Bytes)
    ensures r != []
  {
    if n < 0 then [45] + PrintNat(-n) else PrintNat(n)
  }

  function ParseDigits(raw: Bytes, acc: nat): (r: (nat, Bytes))
    ensures |r.1| <= |raw|
    decreases |raw|
  {
    if raw != [] && IsDigit(raw[0]) then ParseDigits(raw[1..], acc * 10 + (raw[0] - 48)) else (acc, raw)
  }

  lemma {:induction false} ParsePrintedNat(n: nat, rest: Bytes)
    ensures ParseDigits(PrintNat(n) + rest, 0) == ParseDigits(rest, n)
    decreases n
  {
    if n < 10 {
      assert (PrintNat(n) + rest)[1..] == rest;
    } else {
      var tail := [48 + n % 10] + rest;
      assert PrintNat(n) + rest == PrintNat(n / 10) + tail;
      ParsePrintedNat(n / 10, tail);
      assert tail[1..] == rest;
    }
  }

  // ---------------------------------------------------------------- values

  /** Lexicographic order of keys by code point. */
  predicate Before(a: Text, b: Text) {
    if b == [] then false
    else if a == [] then true
    else a[0] < b[0] || (a[0] == b[0] && Before(a[1..], b[1..]))
  }

  predicate Ascending(members: seq<Member>) {
    forall i :: 0 <= i < |members| - 1 ==> Before(members[i].key, members[i + 1].key)
  }

  /** Objects list their members in strictly ascending key order, as a dictionary prints. */
  predicate Canonical(v: Json) {
    match v
    case Arr(items) => forall i :: 0 <= i < |items| ==> Canonical(items[i])
    case Obj(members) => Ascending(members) && forall i :: 0 <= i < |members| ==> Canonical(members[i].value)
    case _ => true
  }

  /** No key and no string holds a split surrogate pair. */
  predicate Clean(v: Json) {
    match v
    case Str(t) => NoSplitPair(t)
    case Arr(items) => forall i :: 0 <= i < |items| ==> Clean(items[i])
    case Obj(members) =>
      forall i :: 0 <= i < |members| ==> NoSplitPair(members[i].key) && Clean(members[i].value)
    case _ => true
  }

  const NULL_TEXT: Bytes := [110, 117, 108, 108]
  const TRUE_TEXT: Bytes := [116, 114, 117, 101]
  const FALSE_TEXT: Bytes := [102, 97, 108, 115, 101]

  /** `json.dumps` with sorted keys, compact separators and ASCII output. */
  function Print(v: Json): Bytes
    decreases v
  {
    match v
    case Null => NULL_TEXT
    case Bool(b) => if b then TRUE_TEXT else FALSE_TEXT
    case Int(n) => PrintInt(n)
    case Str(t) => PrintText(t)
    case Arr(items) => [91] + PrintItems(items)
    case Obj(members) => [123] + PrintMembers(members)
  }

  function PrintItems(items: seq<Json>): Bytes
    decreases items
  {
    if items == [] then [93]
    else Print(items[0]) + PrintMoreItems(items[1..])
  }

  function PrintMoreItems(items: seq<Json>): Bytes
    decreases items
  {
    if items == [] then [93]
    else [44] + Print(items[0]) + PrintMoreItems(items[1..])
  }

  function PrintMembers(members: seq<Member>): Bytes
    decreases members
  {
    if members == [] then [125]
    else PrintText(members[0].key) + [58] + Print(members[0].value) + PrintMoreMembers(members[1..])
  }

  function PrintMoreMembers(members: seq<Member>): Bytes
    decreases members
  {
    if members == [] then [125]
    else
      [44] + PrintText(members[0].key) + [58] + Print(members[0].value) + PrintMoreMembers(members[1..])
  }

  /** Reads one of the three literal names. */
  function ParseWord(raw: Bytes): (r: Option<(Json, Bytes)>)
    ensures r.Some? ==> |r.value.1| < |raw| && Clean(r.value.0) && Canonical(r.value.0)
  {
    if NULL_TEXT <= raw then Some((Null, raw[4..]))
    else if TRUE_TEXT <= raw then Some((Bool(true), raw[4..]))
    else if FALSE_TEXT <= raw then Some((Bool(false), raw[5..]))
    else None
  }

  lemma ParsePrintedWord(v: Json, rest: Bytes)
    requires v.Null? || v.Bool?
    ensures ParseValue(Print(v) + rest) == Some((v, rest))
  {
    var raw := Print(v) + rest;
    assert Print(v) <= raw && raw[|Print(v)|..] == rest && raw[0] == Print(v)[0];
  }

  /** Reads one canonical value; what it returns is canonical and free of split pairs. */
  function ParseValue(raw: Bytes): (r: Option<(Json, Bytes)>)
    ensures r.Some? ==> |r.value.1| < |raw| && Clean(r.value.0) && Canonical(r.value.0)
    decreases |raw|, 0
  {
    if raw == [] then None
    else if raw[0] == 110 || raw[0] == 116 || raw[0] == 102 then ParseWord(raw)
    else if raw[0] == QUOTE then
      var t := ParseText(raw);
      if t.None? then None else Some((Str(t.value.0), t.value.1))
    else if raw[0] == 91 then
      var items := if |raw| > 1 && raw[1] == 93 then Some(([], raw[2..])) else ParseItems(raw[1..]);
      if items.None? then None else Some((Arr(items.value.0), items.value.1))
    else if raw[0] == 123 then
      var members := ParseBody(raw[1..]);
      if members.None? || !Ascending(members.value.0) then None
      else Some((Obj(members.value.0), members.value.1))
    else if raw[0] == 45 && |raw| > 1 && IsDigit(raw[1]) then
      var digits := ParseDigits(raw[1..], 0);
      Some((Int(-(digits.0 as int)), digits.1))
    else if IsDigit(raw[0]) then
      var (n, rest) := ParseDigits(raw[1..], raw[0] - 48);
      Some((Int(n), rest))
    else None
  }

  /** The members of an object after its opening brace, in any order. */
  function ParseBody(raw: Bytes): (r: Option<(seq<Member>, Bytes)>)
    ensures r.Some? ==> |r.value.1| < |raw|
    ensures r.Some? ==> forall i :: 0 <= i < |r.value.0| ==>
      NoSplitPair(r.value.0[i].key) && Clean(r.value.0[i].value) && Canonical(r.value.0[i].value)
    decreases |raw|, 2
  {
    if raw != [] && raw[0] == 125 then Some(([], raw[1..])) else ParseMembers(raw)
  }

  /** Items separated by commas up to the closing bracket; at least one. */
  function ParseItems(raw: Bytes): (r: Option<(seq<Json>, Bytes)>)
    ensures r.Some? ==> |r.value.1| < |raw|
    ensures r.Some? ==> forall i :: 0 <= i < |r.value.0| ==> Clean(r.value.0[i]) && Canonical(r.value.0[i])
    decreases |raw|, 1
  {
    var first := ParseValue(raw);
    if first.None? || first.value.1 == [] then None else
    var rest := first.value.1;
    if rest[0] == 93 then Some(([first.value.0], rest[1..]))
    else if rest[0] == 44 then
      var more := ParseItems(rest[1..]);
      if more.None? then None else Some(([first.value.0] + more.value.0, more.value.1))
    else None
  }

  function ParseMembers(raw: Bytes): (r: Option<(seq<Member>, Bytes)>)
    ensures r.Some? ==> |r.value.1| < |raw|
    ensures r.Some? ==> forall i :: 0 <= i < |r.value.0| ==>
      NoSplitPair(r.value.0[i].key) && Clean(r.value.0[i].value) && Canonical(r.value.0[i].value)
    decreases |raw|, 1
  {
    var key := ParseText(raw);
    if key.None? || key.value.1 == [] || key.value.1[0] != 58 then None else
    var first := ParseValue(key.value.1[1..]);
    if first.None? || first.value.1 == [] then None else
    var member := Member(key.value.0, first.value.0);
    var rest := first.value.1;
    if rest[0] == 125 then Some(([member], rest[1..]))
    else if rest[0] == 44 then
      var more := ParseMembers(rest[1..]);
      if more.None? then None else Some(([member] + more.value.0, more.value.1))
    else None
  }

  /** What may follow a printed value: nothing that could lengthen a number. */
  predicate Delimited(rest: Bytes) {
    rest == [] || !IsDigit(rest[0])
  }

  lemma ParsePrintedInt(n: int, rest: Bytes)
    requires Delimited(rest)
    ensures ParseValue(PrintInt(n) + rest) == Some((Int(n), rest))
  {
    hide ParseWord, ParseText, ParseItems, ParseBody, PrintNat;
    var m := if n < 0 then -n else n;
    var raw := PrintInt(n) + rest;
    ParsePrintedNat(m, rest);
    if n < 0 {
      assert raw[1..] == PrintNat(m) + rest;
      assert raw[1] == PrintNat(m)[0];
    } else {
      assert raw[0] == PrintNat(m)[0];
      assert ParseDigits(raw, 0) == ParseDigits(raw[1..], raw[0] - 48);
    }
  }

  lemma PrintStarts(v: Json)
    ensures Print(v) != [] && Print(v)[0] != 93 && Print(v)[0] != 125
  {
  }

  lemma PrintMoreStarts(items: seq<Json>, members: seq<Member>, rest: Bytes)
    ensures Delimited(PrintMoreItems(items) + rest) && Delimited(PrintMoreMembers(members) + rest)
    ensures items != [] ==> PrintMoreItems(items) == [44] + PrintItems(items)
    ensures members != [] ==> PrintMoreMembers(members) == [44] + PrintMembers(members)
  {
    hide Print, PrintText;
    if items == [] {
      assert (PrintMoreItems(items) + rest)[0] == 93;
    } else {
      var first, more := Print(items[0]), PrintMoreItems(items[1..]);
      assert PrintMoreItems(items) == [44] + first + more == [44] + (first + more);
      assert (PrintMoreItems(items) + rest)[0] == 44;
    }
    if members == [] {
      assert (PrintMoreMembers(members) + rest)[0] == 125;
    } else {
      var key, value, more := PrintText(members[0].key), Print(members[0].value), PrintMoreMembers(members[1..]);
      assert PrintMoreMembers(members) == [44] + key + [58] + value + more == [44] + (key + [58] + value + more);
      assert (PrintMoreMembers(members) + rest)[0] == 44;
    }
  }

  /** A printed value followed by anything but a digit reads back, and leaves what follows. */
  lemma {:induction false} ParsePrinted(v: Json, rest: Bytes)
    requires Clean(v) && Canonical(v) && Delimited(rest)
    ensures ParseValue(Print(v) + rest) == Some((v, rest))
    decreases v
  {
    match v
    case Null => ParsePrintedWord(v, rest);
    case Bool(_) => ParsePrintedWord(v, rest);
    case Int(n) => ParsePrintedInt(n, rest);
    case Str(t) => ParsePrintedText(t, rest);
    case Arr(items) =>
      if items != [] {
        ParsePrintedItems(items, rest);
      }
      ArrayReads(items, rest);
    case Obj(members) =>
      if members != [] {
        ParsePrintedMembers(members, rest);
      }
      BodyReads(members, rest);
      ObjectReads(members, rest);
  }

  lemma BracketFirst(b: Byte, body: Bytes, rest: Bytes)
    ensures var raw := ([b] + body) + rest;
      raw != [] && raw[0] == b && raw[1..] == body + rest
  {
  }

  lemma ArrayReads(items: seq<Json>, rest: Bytes)
    requires items != [] ==> ParseItems(PrintItems(items) + rest) == Some((items, rest))
    ensures ParseValue(Print(Arr(items)) + rest) == Some((Arr(items), rest))
  {
    var body := PrintItems(items);
    BracketFirst(91, body, rest);
    if items == [] {
      BracketFirst(93, [], rest);
      assert body + rest == ([93] + []) + rest && [] + rest == rest;
    } else {
      PrintStarts(items[0]);
      assert (body + rest)[0] == Print(items[0])[0];
    }
  }

  lemma BodyReads(members: seq<Member>, rest: Bytes)
    requires members != [] ==> ParseMembers(PrintMembers(members) + rest) == Some((members, rest))
    ensures ParseBody(PrintMembers(members) + rest) == Some((members, rest))
  {
    if members == [] {
      BracketFirst(125, [], rest);
      assert PrintMembers(members) + rest == ([125] + []) + rest && [] + rest == rest;
    } else {
      MembersStart(members, rest);
    }
  }

  lemma ObjectReads(members: seq<Member>, rest: Bytes)
    requires Ascending(members)
    requires ParseBody(PrintMembers(members) + rest) == Some((members, rest))
    ensures ParseValue(Print(Obj(members)) + rest) == Some((Obj(members), rest))
  {
    BracketFirst(123, PrintMembers(members), rest);
  }

  lemma MembersStart(members: seq<Member>, rest: Bytes)
    requires members != []
    ensures PrintMembers(members) + rest != [] && (PrintMembers(members) + rest)[0] == QUOTE
  {
    var key := PrintText(members[0].key);
    assert key != [] && key[0] == QUOTE;
  }

  lemma ItemsEnd(raw: Bytes, v: Json, tail: Bytes)
    requires ParseValue(raw) == Some((v, [93] + tail))
    ensures ParseItems(raw) == Some(([v], tail))
  {
    assert ([93] + tail)[1..] == tail;
  }

  lemma ItemsGoOn(raw: Bytes, v: Json, tail: Bytes, items: seq<Json>, rest: Bytes)
    requires ParseValue(raw) == Some((v, [44] + tail))
    requires ParseItems(tail) == Some((items, rest))
    ensures ParseItems(raw) == Some(([v] + items, rest))
  {
    assert ([44] + tail)[1..] == tail;
  }

  lemma Regroup(a: Bytes, b: Bytes, c: Bytes)
    ensures (a + b) + c == a + (b + c)
  {
  }

  lemma PrintItemsSplits(items: seq<Json>, rest: Bytes)
    requires items != []
    ensures PrintItems(items) + rest == Print(items[0]) + (PrintMoreItems(items[1..]) + rest)
    ensures if |items| == 1 then PrintMoreItems(items[1..]) + rest == [93] + rest
            else PrintMoreItems(items[1..]) + rest == [44] + (PrintItems(items[1..]) + rest)
  {
    var more := PrintMoreItems(items[1..]);
    Regroup(Print(items[0]), more, rest);
    if |items| == 1 {
      assert items[1..] == [];
    } else {
      PrintMoreStarts(items[1..], [], rest);
      Regroup([44], PrintItems(items[1..]), rest);
    }
  }

  lemma {:induction false} ParsePrintedItems(items: seq<Json>, rest: Bytes)
    requires items != [] && forall i :: 0 <= i < |items| ==> Clean(items[i]) && Canonical(items[i])
    ensures ParseItems(PrintItems(items) + rest) == Some((items, rest))
    decreases items
  {
    var raw := PrintItems(items) + rest;
    PrintItemsSplits(items, rest);
    ParsePrinted(items[0], PrintMoreItems(items[1..]) + rest);
    if |items| == 1 {
      ItemsEnd(raw, items[0], rest);
      assert items == [items[0]];
    } else {
      ParsePrintedItems(items[1..], rest);
      ItemsGoOn(raw, items[0], PrintItems(items[1..]) + rest, items[1..], rest);
      assert items == [items[0]] + items[1..];
    }
  }

  lemma MembersEnd(raw: Bytes, m: Member, value: Bytes, tail: Bytes)
    requires ParseText(raw) == Some((m.key, [58] + value))
    requires ParseValue(value) == Some((m.value, [125] + tail))
    ensures ParseMembers(raw) == Some(([m], tail))
  {
    assert ([58] + value)[1..] == value && ([125] + tail)[1..] == tail;
  }

  lemma MembersGoOn(raw: Bytes, m: Member, value: Bytes, tail: Bytes, members: seq<Member>, rest: Bytes)
    requires ParseText(raw) == Some((m.key, [58] + value))
    requires ParseValue(value) == Some((m.value, [44] + tail))
    requires ParseMembers(tail) == Some((members, rest))
    ensures ParseMembers(raw) == Some(([m] + members, rest))
  {
    assert ([58] + value)[1..] == value && ([44] + tail)[1..] == tail;
  }

  lemma PrintMembersSplits(members: seq<Member>, rest: Bytes)
    requires members != []
    ensures PrintMembers(members) + rest == PrintText(members[0].key)
      + ([58] + (Print(members[0].value) + (PrintMoreMembers(members[1..]) + rest)))
    ensures if |members| == 1 then PrintMoreMembers(members[1..]) + rest == [125] + rest
            else PrintMoreMembers(members[1..]) + rest == [44] + (PrintMembers(members[1..]) + rest)
  {
    var key, value, more :=
      PrintText(members[0].key), Print(members[0].value), PrintMoreMembers(members[1..]);
    assert PrintMembers(members) == key + [58] + value + more;
    MemberRegroups(key, value, more, rest);
    if |members| == 1 {
      assert members[1..] == [];
    } else {
      PrintMoreStarts([], members[1..], rest);
      Regroup([44], PrintMembers(members[1..]), rest);
    }
  }

  lemma MemberRegroups(key: Bytes, value: Bytes, more: Bytes, rest: Bytes)
    ensures key + [58] + value + more + rest == key + ([58] + (value + (more + rest)))
  {
  }

  lemma {:induction false} ParsePrintedMembers(members: seq<Member>, rest: Bytes)
    requires members != []
    requires forall i :: 0 <= i < |members| ==>
      NoSplitPair(members[i].key) && Clean(members[i].value) && Canonical(members[i].value)
    ensures ParseMembers(PrintMembers(members) + rest) == Some((members, rest))
    decreases members
  {
    hide ParseText, PrintText, ParseMembers, ParseValue, Print, PrintMembers, PrintMoreMembers, NoSplitPair, Clean, Canonical;
    var first := members[0];
    var raw := PrintMembers(members) + rest;
    var value := Print(first.value) + (PrintMoreMembers(members[1..]) + rest);
    PrintMembersSplits(members, rest);
    ParsePrintedText(first.key, [58] + value);
    ParsePrinted(first.value, PrintMoreMembers(members[1..]) + rest);
    if |members| == 1 {
      MembersEnd(raw, first, value, rest);
      assert members == [first];
    } else {
      ParsePrintedMembers(members[1..], rest);
      MembersGoOn(raw, first, value, PrintMembers(members[1..]) + rest, members[1..], rest);
      assert members == [first] + members[1..];
    }
  }

  // ---------------------------------------------------------------- the text, byte by byte

  /** Texts with a comma between each two. */
  function Separated(parts: seq<Bytes>): Bytes {
    if parts == [] then []
    else if |parts| == 1 then parts[0]
    else parts[0] + [44] + Separated(parts[1..])
  }

  function ItemTexts(items: seq<Json>): (parts: seq<Bytes>)
    ensures |parts| == |items| && forall i :: 0 <= i < |items| ==> parts[i] == Print(items[i])
  {
    seq(|items|, i requires 0 <= i < |items| => Print(items[i]))
  }

  function MemberTexts(members: seq<Member>): (parts: seq<Bytes>)
    ensures |parts| == |members|
    ensures forall i :: 0 <= i < |members| ==> parts[i] == PrintText(members[i].key) + [58] + Print(members[i].value)
  {
    seq(|members|, i requires 0 <= i < |members| => PrintText(members[i].key) + [58] + Print(members[i].value))
  }

  lemma {:induction false} MoreItemsText(items: seq<Json>)
    ensures PrintMoreItems(items) == (if items == [] then [] else [44]) + Separated(ItemTexts(items)) + [93]
    decreases |items|
  {
    hide Print;
    if items != [] {
      MoreItemsText(items[1..]);
      assert ItemTexts(items)[1..] == ItemTexts(items[1..]);
    }
  }

  lemma {:induction false} MoreMembersText(members: seq<Member>)
    ensures PrintMoreMembers(members) == (if members == [] then [] else [44]) + Separated(MemberTexts(members)) + [125]
    decreases |members|
  {
    hide Print, PrintText;
    if members != [] {
      MoreMembersText(members[1..]);
      assert MemberTexts(members)[1..] == MemberTexts(members[1..]);
    }
  }

  /** The text of a value: the three names, brackets, braces, commas and colons without white space. */
  lemma TextOfValue(v: Json)
    ensures v == Null ==> Print(v) == [110, 117, 108, 108]
    ensures v == Bool(true) ==> Print(v) == [116, 114, 117, 101]
    ensures v == Bool(false) ==> Print(v) == [102, 97, 108, 115, 101]
    ensures v.Arr? ==> Print(v) == [91] + Separated(ItemTexts(v.items)) + [93]
    ensures v.Obj? ==> Print(v) == [123] + Separated(MemberTexts(v.members)) + [125]
  {
    hide Separated, PrintItems, PrintMembers, PrintInt, PrintText;
    if v.Arr? {
      ItemsText(v.items);
      assert [91] + (Separated(ItemTexts(v.items)) + [93]) == [91] + Separated(ItemTexts(v.items)) + [93];
    } else if v.Obj? {
      MembersText(v.members);
      assert [123] + (Separated(MemberTexts(v.members)) + [125]) == [123] + Separated(MemberTexts(v.members)) + [125];
    }
  }

  lemma SameBehind(b: Byte, s: Bytes, t: Bytes)
    requires [b] + s == [b] + t
    ensures s == t
  {
    assert s == ([b] + s)[1..] && t == ([b] + t)[1..];
  }

  lemma ItemsText(items: seq<Json>)
    ensures PrintItems(items) == Separated(ItemTexts(items)) + [93]
  {
    MoreItemsText(items);
    ItemsLikeMore(items);
    if items != [] {
      hide Print, PrintItems, PrintMoreItems, Separated;
      assert [44] + Separated(ItemTexts(items)) + [93] == [44] + (Separated(ItemTexts(items)) + [93]);
      SameBehind(44, PrintItems(items), Separated(ItemTexts(items)) + [93]);
    }
  }

  lemma MembersText(members: seq<Member>)
    ensures PrintMembers(members) == Separated(MemberTexts(members)) + [125]
  {
    MoreMembersText(members);
    MembersLikeMore(members);
    if members != [] {
      hide Print, PrintMembers, PrintMoreMembers, Separated, PrintText;
      assert [44] + Separated(MemberTexts(members)) + [125] == [44] + (Separated(MemberTexts(members)) + [125]);
      SameBehind(44, PrintMembers(members), Separated(MemberTexts(members)) + [125]);
    }
  }

  lemma ItemsLikeMore(items: seq<Json>)
    ensures items == [] ==> PrintItems(items) == PrintMoreItems(items)
    ensures items != [] ==> [44] + PrintItems(items) == PrintMoreItems(items)
  {
    hide Print;
    if items != [] {
      var first, more := Print(items[0]), PrintMoreItems(items[1..]);
      assert PrintMoreItems(items) == [44] + first + more == [44] + (first + more);
    }
  }

  lemma MembersLikeMore(members: seq<Member>)
    ensures members == [] ==> PrintMembers(members) == PrintMoreMembers(members)
    ensures members != [] ==> [44] + PrintMembers(members) == PrintMoreMembers(members)
  {
    hide Print, PrintText;
    if members != [] {
      var key, value, more := PrintText(members[0].key), Print(members[0].value), PrintMoreMembers(members[1..]);
      assert PrintMoreMembers(members) == [44] + key + [58] + value + more == [44] + (key + [58] + value + more);
    }
  }

  /** The hexadecimal digit of a number, in small letters. */
  predicate IsHex(b: Byte, d: int) {
    (0 <= d < 10 && b == 48 + d) || (10 <= d < 16 && b == 87 + d)
  }

  /** The text of one unit: itself, one of seven short escapes, or four hexadecimal digits. */
  lemma TextOfUnit(u: Unit)
    ensures var text := PrintUnit(u);
      match u
      case 34 => text == [92, 34]
      case 92 => text == [92, 92]
      case 8 => text == [92, 98]
      case 12 => text == [92, 102]
      case 10 => text == [92, 110]
      case 13 => text == [92, 114]
      case 9 => text == [92, 116]
      case _ =>
        if 32 <= u <= 126 then text == [u]
        else
          && |text| == 6 && text[0] == 92 && text[1] == 117
          && IsHex(text[2], u / 4096) && IsHex(text[3], u / 256 % 16) && IsHex(text[4], u / 16 % 16) && IsHex(text[5], u % 16)
  {
    assert u / 16 / 16 == u / 256 && u / 16 / 16 / 16 == u / 4096;
  }

  /** A text stands in quotes, unit by unit; code points from 0x10000 on are two surrogates. */
  lemma TextOfText(t: Text)
    ensures PrintText([]) == [34, 34]
    ensures t != [] ==>
      var first: seq<Unit> :=
        if t[0] < 65536 then [t[0]] else [55296 + (t[0] - 65536) / 1024, 56320 + (t[0] - 65536) % 1024];
      PrintText(t) == [34] + PrintUnits(first) + PrintText(t[1..])[1..]
  {
    if t != [] {
      var first: seq<Unit> :=
        if t[0] < 65536 then [t[0]] else [55296 + (t[0] - 65536) / 1024, 56320 + (t[0] - 65536) % 1024];
      assert Split(t) == first + Split(t[1..]);
      hide Split, PrintUnits;
      var rest := Split(t[1..]);
      PrintUnitsJoin(first, rest);
      assert PrintText(t[1..])[1..] == PrintUnits(rest) + [34];
      assert [34] + (PrintUnits(first) + PrintUnits(rest)) + [34] == [34] + PrintUnits(first) + (PrintUnits(rest) + [34]);
    }
  }

  lemma {:induction false} PrintUnitsJoin(a: seq<Unit>, b: seq<Unit>)
    ensures PrintUnits(a + b) == PrintUnits(a) + PrintUnits(b)
    decreases |a|
  {
    hide PrintUnit;
    if a == [] {
      assert a + b == b;
    } else {
      assert (a + b)[1..] == a[1..] + b;
      PrintUnitsJoin(a[1..], b);
    }
  }

  /** Decimal digits, the last one being the number modulo ten, and a minus sign in front of negative numbers. */
  lemma TextOfNumber(n: int)
    ensures 0 <= n < 10 ==> Print(Int(n)) == [48 + n]
    ensures n >= 10 ==> Print(Int(n)) == Print(Int(n / 10)) + [48 + n % 10]
    ensures n < 0 ==> Print(Int(n)) == [45] + Print(Int(-n))
  {
  }
}
