/**
 The INSERT value list of a dump (dump/parser.go) and the SQL string escaper it
 undoes (Escape in mysql/util.go). Strings are byte sequences, as in Go.
 */
module DumpValues {
  import opened Bytes
  import opened Lists

  const QUOTE: byte := 39
  const BACKSLASH: byte := 92
  const COMMA: byte := 44

  // ----- Escape -----

  /** encodeRef: the letter written after a backslash, for the nine bytes that are escaped. */
  function EscapeCode(w: byte): (c: Option<byte>) {
    match w
    case 0 => Some(48)    // '0'
    case 39 => Some(39)   // '\''
    case 34 => Some(34)   // '"'
    case 8 => Some(98)    // 'b'
    case 10 => Some(110)  // 'n'
    case 13 => Some(114)  // 'r'
    case 9 => Some(116)   // 't'
    case 26 => Some(90)   // 'Z'
    case 92 => Some(92)   // '\\'
    case _ => None
  }

  function EscapeByte(w: byte): (e: bytes) {
    if EscapeCode(w).None? then [w] else [BACKSLASH, EscapeCode(w).value]
  }

  /** NUL, backspace, tab, newline, carriage return, Ctrl-Z, both quotes and the backslash are escaped, and no other. */
  lemma EscapedBytes(w: byte)
    ensures |EscapeByte(w)| == (if w in {0, 8, 9, 10, 13, 26, 34, 39, 92} then 2 else 1)
    ensures w !in {0, 8, 9, 10, 13, 26, 34, 39, 92} ==> EscapeByte(w) == [w]
    ensures w in {34, 39, 92} ==> EscapeByte(w) == [92, w]
  {
  }

  function Escaped(sql: bytes): (r: bytes) {
    if sql == [] then [] else EscapeByte(sql[0]) + Escaped(sql[1..])
  }

  lemma {:induction false} EscapedAppend(a: bytes, w: byte)
    ensures Escaped(a + [w]) == Escaped(a) + EscapeByte(w)
  {
    if a == [] {
      assert Escaped([w]) == EscapeByte(w) + Escaped([]);
    } else {
      EscapedAppend(a[1..], w);
      assert (a + [w])[1..] == a[1..] + [w];
    }
  }

  method Escape(sql: bytes) returns (dest: bytes)
    ensures dest == Escaped(sql)
  {
    dest := [];
    for i := 0 to |sql|
      invariant dest == Escaped(sql[..i])
    {
      EscapedAppend(sql[..i], sql[i]);
      assert sql[..i + 1] == sql[..i] + [sql[i]];
      dest := dest + EscapeByte(sql[i]);
    }
    assert sql[..|sql|] == sql;
  }

  // ----- unescapeString -----

  function UnescapeChar(ch: byte): (r: byte) {
    match ch
    case 110 => 10
    case 48 => 0
    case 98 => 8
    case 90 => 26
    case 114 => 13
    case 116 => 9
    case _ => ch
  }

  function Unescaped(s: bytes): (r: bytes)
    decreases |s|
  {
    if s == [] then []
    else if s[0] != BACKSLASH then [s[0]] + Unescaped(s[1..])
    else if |s| == 1 then [] // the last byte is a backslash: removed
    else [UnescapeChar(s[1])] + Unescaped(s[2..])
  }

  lemma UnescapeAt(s: bytes, i: nat)
    requires i < |s|
    ensures Unescaped(s[i..]) ==
      if s[i] != BACKSLASH then [s[i]] + Unescaped(s[i + 1..])
      else if i + 1 == |s| then []
      else [UnescapeChar(s[i + 1])] + Unescaped(s[i + 2..])
  {
    TailOfTail(s, i, i + 1);
    if i + 2 <= |s| { TailOfTail(s, i, i + 2); }
  }

  method UnescapeString(s: bytes) returns (value: bytes)
    ensures value == Unescaped(s)
  {
    value := [];
    var i := 0;
    while i < |s|
      invariant 0 <= i <= |s|
      invariant Unescaped(s) == value + Unescaped(s[i..])
    {
      UnescapeAt(s, i);
      if s[i] == BACKSLASH {
        var j := i + 1;
        if j == |s| {
          ConcatEmpty(value);
          break;
        }
        ConcatAssoc(value, [UnescapeChar(s[j])], Unescaped(s[i + 2..]));
        value := value + [UnescapeChar(s[j])];
        i := i + 2;
      } else {
        ConcatAssoc(value, [s[i]], Unescaped(s[i + 1..]));
        value := value + [s[i]];
        i := i + 1;
      }
    }
  }

  lemma UnescapeOne(w: byte, tail: bytes)
    ensures Unescaped(EscapeByte(w) + tail) == [w] + Unescaped(tail)
  {
    var e := EscapeByte(w);
    assert (e + tail)[|e|..] == tail;
  }

  /** Unescaping undoes escaping, in front of anything. */
  lemma {:induction false} UnescapeInvertsEscape(sql: bytes, rest: bytes)
    ensures Unescaped(Escaped(sql) + rest) == sql + Unescaped(rest)
  {
    if sql == [] {
      assert Escaped(sql) + rest == rest && sql + Unescaped(rest) == Unescaped(rest);
    } else {
      UnescapeInvertsEscape(sql[1..], rest);
      UnescapeOne(sql[0], Escaped(sql[1..]) + rest);
      ConcatAssoc(EscapeByte(sql[0]), Escaped(sql[1..]), rest);
      ConcatAssoc([sql[0]], sql[1..], Unescaped(rest));
      HeadTail(sql);
    }
  }

  // ----- parseValues -----

  /** Where a bare value ends: the first comma at or after position k. */
  function BareEnd(s: bytes, k: nat): (j: nat)
    requires k <= |s|
    ensures k <= j <= |s|
    decreases |s| - k
  {
    if k == |s| || s[k] == COMMA then k else BareEnd(s, k + 1)
  }

  datatype QuoteScan = Open | Closed(at: nat, escaped: bool)

  /**
   The inner loop over a quoted value, from just past the opening quote: the closing quote, and
   whether a backslash was passed.
   */
  function ScanQuoted(s: bytes, k: nat, escaped: bool): (r: QuoteScan)
    ensures r.Closed? ==> k <= r.at < |s|
    decreases |s| - k
  {
    if k >= |s| then Open
    else if s[k] == BACKSLASH then ScanQuoted(s, k + 2, true)
    else if s[k] == QUOTE then Closed(k, escaped)
    else ScanQuoted(s, k + 1, escaped)
  }

  datatype Parsed = Values(values: seq<bytes>) | QuoteError

  function Prepend(v: bytes, p: Parsed): (r: Parsed) {
    match p
    case Values(vs) => Values([v] + vs)
    case QuoteError => QuoteError
  }

  datatype Cut = Cut(value: bytes, rest: bytes) | Unclosed

  /** What is left to parse from index i on; past the end there is nothing. */
  function From(str: bytes, i: nat): (r: bytes)
    ensures |r| == if i <= |str| then |str| - i else 0
  {
    if i <= |str| then str[i..] else []
  }

  /** One value off the front: bare up to a comma, or quoted; the byte after it is skipped. */
  /** The text of a quoted value, its quotes included. */
  function Plain(s: bytes, escaped: bool): (r: bytes) { if escaped then Unescaped(s) else s }

  function NextValue(s: bytes): (r: Cut)
    requires s != []
    ensures r.Cut? ==> |r.rest| < |s|
  {
    if s[0] != QUOTE then
      var j := BareEnd(s, 1);
      Cut(s[..j], From(s, j + 1))
    else match ScanQuoted(s, 1, false)
      case Open => Unclosed
      case Closed(j, escaped) => Cut(Plain(s[..j + 1], escaped), From(s, j + 2))
  }

  /** parseValues, from a position where a value starts. */
  function Parse(s: bytes): (r: Parsed)
    decreases |s|
  {
    if s == [] then Values([])
    else match NextValue(s)
      case Unclosed => QuoteError
      case Cut(value, rest) => Prepend(value, Parse(rest))
  }

  function Extend(done: seq<bytes>, p: Parsed): (r: Parsed) {
    match p
    case Values(vs) => Values(done + vs)
    case QuoteError => QuoteError
  }

  lemma ExtendStep(done: seq<bytes>, v: bytes, p: Parsed)
    ensures Extend(done, Prepend(v, p)) == Extend(done + [v], p)
  {
    if p.Values? { ConcatAssoc(done, [v], p.values); }
  }

  lemma {:induction false} BareEndShift(str: bytes, i: nat, k: nat)
    requires i + k <= |str|
    ensures BareEnd(str[i..], k) + i == BareEnd(str, i + k)
    decreases |str| - i - k
  {
    if i + k < |str| {
      assert str[i..][k] == str[i + k];
      if str[i + k] != COMMA { BareEndShift(str, i, k + 1); }
    }
  }

  ghost function Shifted(r: QuoteScan, i: nat): (t: QuoteScan) {
    if r.Open? then Open else Closed(r.at + i, r.escaped)
  }

  lemma {:induction false} ScanShift(str: bytes, i: nat, k: nat, escaped: bool)
    requires i <= |str|
    ensures ScanQuoted(str, i + k, escaped) == Shifted(ScanQuoted(str[i..], k, escaped), i)
    decreases |str| - i - k
  {
    if i + k < |str| {
      assert str[i..][k] == str[i + k];
      if str[i + k] == BACKSLASH {
        ScanShift(str, i, k + 2, true);
      } else if str[i + k] != QUOTE {
        ScanShift(str, i, k + 1, escaped);
      }
    }
  }

  lemma FromTwice(str: bytes, i: nat, j: nat)
    requires i <= |str| && i <= j
    ensures From(str[i..], j - i) == From(str, j)
  {
  }

  lemma BareCut(s: bytes, k: nat, value: bytes, rest: bytes)
    requires s != [] && s[0] != QUOTE && BareEnd(s, 1) == k && value == s[..k] && rest == From(s, k + 1)
    ensures NextValue(s) == Cut(value, rest)
  {
  }

  lemma QuotedCut(s: bytes, k: nat, escaped: bool, text: bytes, rest: bytes)
    requires s != [] && s[0] == QUOTE && ScanQuoted(s, 1, false) == Closed(k, escaped)
    requires text == s[..k + 1] && rest == From(s, k + 2)
    ensures NextValue(s) == Cut(Plain(text, escaped), rest)
  {
  }

  lemma BareStep(str: bytes, i: nat, j: nat)
    requires i < |str| && str[i] != QUOTE && j == BareEnd(str, i + 1)
    ensures NextValue(str[i..]) == Cut(str[i..j], From(str, j + 1))
  {
    var s := str[i..];
    BareEndShift(str, i, 1);
    SliceOfTail(str, i, j);
    FromTwice(str, i, j + 1);
    BareCut(s, j - i, str[i..j], From(str, j + 1));
  }

  lemma UnclosedStep(str: bytes, i: nat)
    requires i < |str| && str[i] == QUOTE && ScanQuoted(str, i + 1, false) == Open
    ensures NextValue(str[i..]) == Unclosed
  {
    ScanShift(str, i, 1, false);
  }

  lemma QuotedStep(str: bytes, i: nat, j: nat, escaped: bool)
    requires i < |str| && str[i] == QUOTE && ScanQuoted(str, i + 1, false) == Closed(j, escaped)
    ensures NextValue(str[i..]) == Cut(Plain(str[i..j + 1], escaped), From(str, j + 2))
  {
    ScanFrom(str, i, j, escaped);
    SliceOfTail(str, i, j + 1);
    FromTwice(str, i, j + 2);
    QuotedCut(str[i..], j - i, escaped, str[i..j + 1], From(str, j + 2));
  }

  lemma ScanFrom(str: bytes, i: nat, j: nat, escaped: bool)
    requires i < |str| && ScanQuoted(str, i + 1, false) == Closed(j, escaped)
    ensures i < j && ScanQuoted(str[i..], 1, false) == Closed(j - i, escaped)
  {
    ScanShift(str, i, 1, false);
  }

  /** The loop that reads a bare value up to a comma. */
  method ReadBare(str: bytes, i: nat) returns (j: nat)
    requires i < |str|
    ensures j == BareEnd(str, i + 1)
  {
    j := i + 1;
    while j < |str| && str[j] != COMMA
      invariant i + 1 <= j <= |str|
      invariant BareEnd(str, i + 1) == BareEnd(str, j)
    {
      j := j + 1;
    }
  }

  /** The loop that reads a quoted value up to its closing quote, skipping escaped bytes. */
  method ReadQuoted(str: bytes, i: nat) returns (j: nat, escaped: bool)
    ensures if j < |str| then ScanQuoted(str, i + 1, false) == Closed(j, escaped)
            else ScanQuoted(str, i + 1, false) == Open
  {
    j, escaped := i + 1, false;
    while j < |str|
      invariant ScanQuoted(str, i + 1, false) == ScanQuoted(str, j, escaped)
      decreases |str| - j
    {
      if str[j] == BACKSLASH {
        j := j + 2;
        escaped := true;
        continue;
      } else if str[j] == QUOTE {
        break;
      }
      j := j + 1;
    }
  }

  /** The body of the outer loop: one value and the index after it. */
  method ReadValue(str: bytes, i: nat) returns (value: Option<bytes>, next: nat)
    requires i < |str|
    ensures match value
            case None => NextValue(str[i..]) == Unclosed
            case Some(v) => NextValue(str[i..]) == Cut(v, From(str, next)) && next > i
  {
    if str[i] != QUOTE {
      BareStep(str, i, BareEnd(str, i + 1));
      var j := ReadBare(str, i);
      value, next := Some(str[i..j]), j + 1;
    } else {
      var j, escaped := ReadQuoted(str, i);
      if j >= |str| {
        UnclosedStep(str, i);
        return None, i;
      }
      QuotedStep(str, i, j, escaped);
      var v := str[i..j + 1];
      if escaped { v := UnescapeString(v); }
      value, next := Some(v), j + 2;
    }
  }

  /** parseValues as written, with its index loops. */
  method ParseValues(str: bytes) returns (r: Parsed)
    ensures r == Parse(str)
  {
    var values: seq<bytes> := [];
    var i: nat := 0;
    assert From(str, 0) == str;
    assert Parse(str).Values? ==> [] + Parse(str).values == Parse(str).values;
    while i < |str|
      invariant Parse(str) == Extend(values, Parse(From(str, i)))
      decreases |str| - i
    {
      var value, next := ReadValue(str, i);
      if value.None? { return QuoteError; }
      ExtendStep(values, value.value, Parse(From(str, next)));
      values := values + [value.value];
      i := next;
    }
    assert From(str, i) == [];
    assert values + [] == values;
    r := Values(values);
  }

  // ----- the round trip -----

  datatype Item = Quoted(s: bytes) | Token(t: bytes)

  /** A bare value: NULL, a number, a hexadecimal literal. */
  predicate IsToken(t: bytes) {
    t != [] && t[0] != QUOTE && COMMA !in t[1..]
  }

  predicate Printable(items: seq<Item>) {
    forall i :: 0 <= i < |items| && items[i].Token? ==> IsToken(items[i].t)
  }

  function Written(item: Item): (r: bytes) {
    match item
    case Quoted(s) => [QUOTE] + Escaped(s) + [QUOTE]
    case Token(t) => t
  }

  /** What the parser hands on: strings keep their quotes and lose their escapes. */
  function Read(item: Item): (r: bytes) {
    match item
    case Quoted(s) => [QUOTE] + s + [QUOTE]
    case Token(t) => t
  }

  function WrittenList(items: seq<Item>): (r: bytes) {
    if items == [] then []
    else if |items| == 1 then Written(items[0])
    else Written(items[0]) + [COMMA] + WrittenList(items[1..])
  }

  function ReadList(items: seq<Item>): (r: seq<bytes>)
    ensures |r| == |items|
  {
    seq(|items|, i requires 0 <= i < |items| => Read(items[i]))
  }

  predicate HasEscapes(s: bytes) {
    s != [] && (EscapeCode(s[0]).Some? || HasEscapes(s[1..]))
  }

  lemma {:induction false} NoEscapesIsPlain(s: bytes)
    requires !HasEscapes(s)
    ensures Escaped(s) == s
  {
    if s != [] {
      NoEscapesIsPlain(s[1..]);
      HeadTail(s);
    }
  }

  /** Scanning an escaped text stops exactly at the quote after it. */
  lemma {:induction false} ScanEscaped(pre: bytes, s: bytes, rest: bytes, escaped: bool)
    ensures ScanQuoted(pre + Escaped(s) + [QUOTE] + rest, |pre|, escaped)
         == Closed(|pre| + |Escaped(s)|, escaped || HasEscapes(s))
    decreases |s|
  {
    var data := pre + Escaped(s) + [QUOTE] + rest;
    if s == [] {
      assert data[|pre|] == QUOTE;
    } else {
      var e, tail := EscapeByte(s[0]), Escaped(s[1..]);
      assert data == pre + e + tail + [QUOTE] + rest;
      assert data[|pre|] == e[0];
      ScanEscaped(pre + e, s[1..], rest, escaped || EscapeCode(s[0]).Some?);
    }
  }

  lemma {:induction false} BareEndOfToken(t: bytes, rest: bytes, k: nat)
    requires IsToken(t) && 1 <= k <= |t| && (rest == [] || rest[0] == COMMA)
    ensures BareEnd(t + rest, k) == |t|
    decreases |t| - k
  {
    if k < |t| {
      assert (t + rest)[k] == t[k] && t[k] == t[1..][k - 1];
      BareEndOfToken(t, rest, k + 1);
    }
  }

  /** The quoted text and its quotes, unescaped. */
  lemma QuotedText(s: bytes)
    ensures (if HasEscapes(s) then Unescaped([QUOTE] + Escaped(s) + [QUOTE]) else [QUOTE] + Escaped(s) + [QUOTE])
         == [QUOTE] + s + [QUOTE]
  {
    if HasEscapes(s) {
      UnescapeInvertsEscape(s, [QUOTE]);
      var q := Escaped(s) + [QUOTE];
      assert [QUOTE] + Escaped(s) + [QUOTE] == [QUOTE] + q && ([QUOTE] + q)[1..] == q;
      assert Unescaped([QUOTE]) == [QUOTE] + Unescaped([QUOTE][1..]) && [QUOTE][1..] == [];
      assert [QUOTE] + (s + [QUOTE]) == [QUOTE] + s + [QUOTE];
    } else {
      NoEscapesIsPlain(s);
    }
  }

  /** One value, at the end of the list or followed by a comma. */
  lemma ParseOne(item: Item, rest: bytes)
    requires item.Token? ==> IsToken(item.t)
    ensures Parse(Written(item)) == Values([Read(item)])
    ensures Parse(Written(item) + [COMMA] + rest) == Prepend(Read(item), Parse(rest))
  {
    match item {
      case Token(t) => ParseToken(t, []); ParseToken(t, [COMMA] + rest);
      case Quoted(text) => ParseQuoted(text, []); ParseQuoted(text, [COMMA] + rest);
    }
    var w := Written(item);
    ConcatEmpty(w);
    ConcatAssoc(w, [COMMA], rest);
    FromComma(rest);
    ParseLast(w, Read(item));
    ParseFront(w + [COMMA] + rest, Read(item), rest);
  }

  lemma FromComma(rest: bytes)
    ensures From([], 1) == [] && From([COMMA] + rest, 1) == rest
  {
  }

  lemma ParseLast(s: bytes, value: bytes)
    requires s != [] && NextValue(s) == Cut(value, [])
    ensures Parse(s) == Values([value])
  {
  }

  lemma ParseFront(s: bytes, value: bytes, rest: bytes)
    requires s != [] && NextValue(s) == Cut(value, rest)
    ensures Parse(s) == Prepend(value, Parse(rest))
  {
  }

  lemma ParseToken(t: bytes, rest: bytes)
    requires IsToken(t) && (rest == [] || rest[0] == COMMA)
    ensures NextValue(t + rest) == Cut(t, From(rest, 1))
  {
    var s := t + rest;
    BareEndOfToken(t, rest, 1);
    assert s[..|t|] == t && From(s, |t| + 1) == From(rest, 1) && s[0] == t[0];
    BareCut(s, |t|, t, From(rest, 1));
  }

  lemma ParseQuoted(text: bytes, rest: bytes)
    ensures NextValue(Written(Quoted(text)) + rest) == Cut(Read(Quoted(text)), From(rest, 1))
  {
    var w := Written(Quoted(text));
    var s := w + rest;
    ScanEscaped([QUOTE], text, rest, false);
    assert s == [QUOTE] + Escaped(text) + [QUOTE] + rest;
    var j := 1 + |Escaped(text)|;
    assert s[..j + 1] == w;
    assert From(s, j + 2) == From(rest, 1);
    QuotedText(text);
    QuotedCut(s, j, HasEscapes(text), w, From(rest, 1));
  }

  /** Parsing the written list of any strings and bare values returns them, in order. */
  lemma {:induction false} ParseInvertsWriting(items: seq<Item>)
    requires Printable(items)
    ensures Parse(WrittenList(items)) == Values(ReadList(items))
    decreases |items|
  {
    if items != [] {
      ReadStep(items);
      ParseOne(items[0], WrittenList(items[1..]));
      if |items| > 1 { ParseInvertsWriting(items[1..]); }
    }
  }

  lemma ReadStep(items: seq<Item>)
    requires items != []
    ensures ReadList(items) == [Read(items[0])] + ReadList(items[1..])
  {
  }

  /** The list up to a last comma. */
  function Followed(items: seq<Item>): (r: bytes) {
    if items == [] then [] else Written(items[0]) + [44] + Followed(items[1..])
  }

  lemma {:induction false} ScanOpen(pre: bytes, s: bytes, escaped: bool)
    ensures ScanQuoted(pre + Escaped(s), |pre|, escaped) == Open
    decreases |s|
  {
    var data := pre + Escaped(s);
    if s != [] {
      var e := EscapeByte(s[0]);
      assert data == pre + e + Escaped(s[1..]);
      assert data[|pre|] == e[0];
      ScanOpen(pre + e, s[1..], escaped || EscapeCode(s[0]).Some?);
    }
  }

  /** A quote that is not closed is an error, whatever came before it. */
  lemma {:induction false} UnclosedFails(items: seq<Item>, s: bytes)
    requires Printable(items)
    ensures Parse(Followed(items) + ([39] + Escaped(s))) == QuoteError
    decreases |items|
  {
    var last := [39] + Escaped(s);
    if items == [] {
      ScanOpen([39], s, false);
      assert [] + last == last;
    } else {
      UnclosedFails(items[1..], s);
      ParseOne(items[0], Followed(items[1..]) + last);
      ConcatAssoc(Written(items[0]) + [44], Followed(items[1..]), last);
    }
  }
}
