/**
 What the text of a GTID set says, told from its parts and tokens one by one,
 and that ParseMysqlGTIDSet in mysql/mysql_gtid.go reads exactly that: which
 texts it accepts, and which numbers the set then holds.
 */
module GtidMeaning {
  import opened Bytes
  import opened Digits
  import opened GtidBinary
  import opened GtidSet
  import opened GtidText
  import opened Intervals

  // ----- which numbers a text names -----

  /** The tag in force at token j: the last one before it. */
  function TagAt(start: Tag, toks: seq<string>, j: nat): (t: Tag)
    requires j <= |toks|
  {
    if j == 0 then start
    else if IsTagText(toks[j - 1]) then TagOf(toks[j - 1])
    else TagAt(start, toks, j - 1)
  }

  /** Token j is an interval with x in it, under tag t. */
  predicate TokenNames(start: Tag, toks: seq<string>, j: nat, t: Tag, x: int) {
    && j < |toks| && !IsTagText(toks[j]) && TagAt(start, toks, j) == t
    && ParseInterval(toks[j]).Some? && Has(ParseInterval(toks[j]).value, x)
  }

  ghost predicate SomeNames(start: Tag, toks: seq<string>, t: Tag, x: int) {
    exists j: nat :: TokenNames(start, toks, j, t, x)
  }

  /** The tokens after the server of a part. */
  function TokensIn(part: string): (toks: seq<string>) { Split(TrimText(part), ':')[1..] }

  function ServerIn(part: string): (u: Option<Uuid>) { ParseUuid(Split(TrimText(part), ':')[0]) }

  ghost predicate PartNames(part: string, u: Uuid, t: Tag, x: int) {
    ServerIn(part) == Some(u) && SomeNames(NO_TAG, TokensIn(part), t, x)
  }

  /** The parts of a text. */
  function PartsIn(str: string): (parts: seq<string>) { if str == "" then [] else Split(str, ',') }

  ghost predicate NamedIn(parts: seq<string>, u: Uuid, t: Tag, x: int) {
    exists i: nat :: i < |parts| && PartNames(parts[i], u, t, x)
  }

  function NextTag(start: Tag, tok: string): (t: Tag) { if IsTagText(tok) then TagOf(tok) else start }

  lemma {:induction false} TagAtTail(start: Tag, toks: seq<string>, j: nat)
    requires 0 < j <= |toks|
    ensures TagAt(start, toks, j) == TagAt(NextTag(start, toks[0]), toks[1..], j - 1)
  {
    if j > 1 && !IsTagText(toks[j - 1]) { TagAtTail(start, toks, j - 1); }
  }

  lemma NamesStep(start: Tag, toks: seq<string>, t: Tag, x: int)
    requires toks != []
    ensures SomeNames(start, toks, t, x)
       <==> TokenNames(start, toks, 0, t, x) || SomeNames(NextTag(start, toks[0]), toks[1..], t, x)
  {
    var next := NextTag(start, toks[0]);
    if SomeNames(start, toks, t, x) {
      var j: nat :| TokenNames(start, toks, j, t, x);
      if j > 0 {
        TagAtTail(start, toks, j);
        assert TokenNames(next, toks[1..], j - 1, t, x);
      }
    }
    if SomeNames(next, toks[1..], t, x) {
      var j: nat :| TokenNames(next, toks[1..], j, t, x);
      TagAtTail(start, toks, j + 1);
      assert TokenNames(start, toks, j + 1, t, x);
    }
  }

  predicate Holds(m: Slices, t: Tag, x: int) { t in m && In(x, m[t]) }

  lemma {:induction false} TokensDenote(m: Slices, tag: Tag, toks: seq<string>, t: Tag, x: int)
    requires ParseTokens(m, tag, toks).Some?
    ensures Holds(ParseTokens(m, tag, toks).value, t, x) <==> Holds(m, t, x) || SomeNames(tag, toks, t, x)
    decreases |toks|
  {
    if toks != [] {
      NamesStep(tag, toks, t, x);
      if IsTagText(toks[0]) {
        var n := TagOf(toks[0]);
        TokensDenote(if n in m then m else m[n := []], n, toks[1..], t, x);
      } else {
        var iv := ParseInterval(toks[0]).value;
        var next := m[tag := SliceOf(m, tag) + [iv]];
        IntervalAdds(m, tag, iv, next, t, x);
        TokensDenote(next, tag, toks[1..], t, x);
      }
    }
  }

  lemma IntervalAdds(m: Slices, tag: Tag, iv: Interval, next: Slices, t: Tag, x: int)
    requires next == m[tag := SliceOf(m, tag) + [iv]]
    ensures Holds(next, t, x) <==> Holds(m, t, x) || (t == tag && Has(iv, x))
  {
    InSum(x, SliceOf(m, tag), [iv]);
    assert In(x, [iv]) <==> Has(iv, x) by { assert [iv][1..] == []; }
  }

  lemma SettledHolds(m: Slices, t: Tag, x: int)
    requires Settle(m).Some?
    ensures Holds(Settle(m).value, t, x) <==> Holds(m, t, x)
  {
    if t in m { NormalDenotes(m[t], x); }
  }

  /** What was held before and what the part names. */
  lemma PartDenotes(s: Gtids, part: string, u: Uuid, t: Tag, x: int)
    requires ParsePart(s, part).Some?
    ensures Denotes(ParsePart(s, part).value, u, t, x) <==> Denotes(s, u, t, x) || PartNames(part, u, t, x)
  {
    var v := ServerIn(part).value;
    if v == u {
      var before: Slices := if u in s then s[u] else map[];
      TokensDenote(before, NO_TAG, TokensIn(part), t, x);
      SettledHolds(ParseTokens(before, NO_TAG, TokensIn(part)).value, t, x);
    }
  }

  lemma NamedStep(parts: seq<string>, u: Uuid, t: Tag, x: int)
    requires parts != []
    ensures NamedIn(parts, u, t, x) <==> PartNames(parts[0], u, t, x) || NamedIn(parts[1..], u, t, x)
  {
    if NamedIn(parts, u, t, x) {
      var i: nat :| i < |parts| && PartNames(parts[i], u, t, x);
      if i > 0 { assert PartNames(parts[1..][i - 1], u, t, x); }
    }
    if NamedIn(parts[1..], u, t, x) {
      var i: nat :| i < |parts[1..]| && PartNames(parts[1..][i], u, t, x);
      assert PartNames(parts[i + 1], u, t, x);
    }
  }

  lemma {:induction false} PartsDenote(s: Gtids, parts: seq<string>, u: Uuid, t: Tag, x: int)
    requires ParseParts(s, parts).Some?
    ensures Denotes(ParseParts(s, parts).value, u, t, x) <==> Denotes(s, u, t, x) || NamedIn(parts, u, t, x)
    decreases |parts|
  {
    if parts != [] {
      NamedStep(parts, u, t, x);
      PartDenotes(s, parts[0], u, t, x);
      PartsDenote(ParsePart(s, parts[0]).value, parts[1..], u, t, x);
    }
  }

  /** The set that is parsed from a text holds exactly the numbers that its tokens name. */
  lemma ParseDenotes(str: string, u: Uuid, t: Tag, x: int)
    requires ParseSet(str).Some?
    ensures Denotes(ParseSet(str).value, u, t, x) <==> NamedIn(PartsIn(str), u, t, x)
  {
    if str != "" { PartsDenote(map[], Split(str, ','), u, t, x); }
  }

  // ----- which texts are accepted -----

  predicate TokensOk(toks: seq<string>) {
    forall j :: 0 <= j < |toks| ==> IsTagText(toks[j]) || ParseInterval(toks[j]).Some?
  }

  lemma {:induction false} TokensAccepted(m: Slices, tag: Tag, toks: seq<string>)
    ensures ParseTokens(m, tag, toks).Some? <==> TokensOk(toks)
    decreases |toks|
  {
    if toks != [] {
      assert TokensOk(toks) <==> (IsTagText(toks[0]) || ParseInterval(toks[0]).Some?) && TokensOk(toks[1..]) by {
        assert forall j :: 0 < j < |toks| ==> toks[j] == toks[1..][j - 1];
        assert forall j :: 0 <= j < |toks[1..]| ==> toks[1..][j] == toks[j + 1];
      }
      if IsTagText(toks[0]) {
        var n := TagOf(toks[0]);
        TokensAccepted(if n in m then m else m[n := []], n, toks[1..]);
      } else if ParseInterval(toks[0]).Some? {
        TokensAccepted(m[tag := SliceOf(m, tag) + [ParseInterval(toks[0]).value]], tag, toks[1..]);
      }
    }
  }

  /** Token j is tag t. */
  predicate TagsWith(toks: seq<string>, j: nat, t: Tag) { j < |toks| && IsTagText(toks[j]) && TagOf(toks[j]) == t }

  ghost predicate SomeTags(toks: seq<string>, t: Tag) { exists j: nat :: TagsWith(toks, j, t) }

  lemma TagsStep(toks: seq<string>, t: Tag)
    requires toks != []
    ensures SomeTags(toks, t) <==> TagsWith(toks, 0, t) || SomeTags(toks[1..], t)
  {
    if SomeTags(toks, t) {
      var j: nat :| TagsWith(toks, j, t);
      if j > 0 { assert TagsWith(toks[1..], j - 1, t); }
    }
    if SomeTags(toks[1..], t) {
      var j: nat :| TagsWith(toks[1..], j, t);
      assert TagsWith(toks, j + 1, t);
    }
  }

  /** A tag has a slice if it had one, is named or has an interval; without an interval it is the slice it had. */
  lemma {:induction false} TokensKeep(m: Slices, tag: Tag, toks: seq<string>, t: Tag)
    requires ParseTokens(m, tag, toks).Some?
    ensures var r := ParseTokens(m, tag, toks).value;
      && (t in m || SomeTags(toks, t) ==> t in r)
      && (t in r && r[t] == [] ==> (t in m && m[t] == []) || SomeTags(toks, t))
    decreases |toks|
  {
    if toks != [] {
      TagsStep(toks, t);
      if IsTagText(toks[0]) {
        var n := TagOf(toks[0]);
        TokensKeep(if n in m then m else m[n := []], n, toks[1..], t);
      } else {
        TokensKeep(m[tag := SliceOf(m, tag) + [ParseInterval(toks[0]).value]], tag, toks[1..], t);
      }
    }
  }

  ghost predicate Filled(m: Slices, t: Tag) { exists x :: Holds(m, t, x) }

  lemma FilledIsNonEmpty(m: Slices, t: Tag)
    requires t in m && Printable(m[t])
    ensures Filled(m, t) <==> m[t] != []
  {
    if m[t] != [] { assert Holds(m, t, m[t][0].start); }
  }

  /** Every tag that is named has an interval. */
  lemma SettledExactly(m: Slices, toks: seq<string>)
    requires Gathered(m) && (forall t :: t in m ==> m[t] != []) && ParseTokens(m, NO_TAG, toks).Some?
    ensures Settle(ParseTokens(m, NO_TAG, toks).value).Some?
       <==> forall t :: SomeTags(toks, t) ==> Filled(ParseTokens(m, NO_TAG, toks).value, t)
  {
    var r := ParseTokens(m, NO_TAG, toks).value;
    TokensGather(m, NO_TAG, toks);
    forall t | t in r ensures Filled(r, t) <==> r[t] != [] { FilledIsNonEmpty(r, t); }
    forall t | SomeTags(toks, t) ensures t in r { TokensKeep(m, NO_TAG, toks, t); }
    if exists t :: t in r && r[t] == [] {
      var t :| t in r && r[t] == [];
      TokensKeep(m, NO_TAG, toks, t);
      assert SomeTags(toks, t) && !Filled(r, t);
    }
  }

  /** Under server u the tag has a number, in s or by the part. */
  ghost predicate TagFilled(s: Gtids, part: string, u: Uuid, t: Tag) {
    exists x :: TagFilledWith(s, part, u, t, x)
  }

  ghost predicate TagFilledWith(s: Gtids, part: string, u: Uuid, t: Tag, x: int) {
    Denotes(s, u, t, x) || SomeNames(NO_TAG, TokensIn(part), t, x)
  }

  /** A server, then tags and intervals, and no tag without a number up to there. */
  ghost predicate PartOk(s: Gtids, part: string) {
    && |Split(TrimText(part), ':')| >= 2 && ServerIn(part).Some? && TokensOk(TokensIn(part))
    && forall t :: SomeTags(TokensIn(part), t) ==> TagFilled(s, part, ServerIn(part).value, t)
  }

  lemma PartAccepted(s: Gtids, part: string)
    requires AllSound(s)
    ensures ParsePart(s, part).Some? <==> PartOk(s, part)
  {
    if |Split(TrimText(part), ':')| >= 2 && ServerIn(part).Some? {
      var u, toks := ServerIn(part).value, TokensIn(part);
      var before: Slices := if u in s then s[u] else map[];
      TokensAccepted(before, NO_TAG, toks);
      if TokensOk(toks) {
        SettledExactly(before, toks);
        forall t ensures Filled(ParseTokens(before, NO_TAG, toks).value, t) <==> TagFilled(s, part, u, t) {
          FilledTags(s, part, u, before, t);
        }
      }
    }
  }

  lemma FilledTags(s: Gtids, part: string, u: Uuid, before: Slices, t: Tag)
    requires before == (if u in s then s[u] else map[]) && ParseTokens(before, NO_TAG, TokensIn(part)).Some?
    ensures Filled(ParseTokens(before, NO_TAG, TokensIn(part)).value, t) <==> TagFilled(s, part, u, t)
  {
    var r := ParseTokens(before, NO_TAG, TokensIn(part)).value;
    forall x ensures Holds(r, t, x) <==> TagFilledWith(s, part, u, t, x) {
      TokensDenote(before, NO_TAG, TokensIn(part), t, x);
    }
  }

  /** Part i is in order after s and the parts before it. */
  ghost predicate FitsAfter(s: Gtids, parts: seq<string>, i: nat)
    requires i < |parts|
  {
    var part := parts[i];
    && |Split(TrimText(part), ':')| >= 2 && ServerIn(part).Some? && TokensOk(TokensIn(part))
    && forall t :: SomeTags(TokensIn(part), t) ==> FilledBy(s, parts, i, ServerIn(part).value, t)
  }

  ghost predicate FilledBy(s: Gtids, parts: seq<string>, i: nat, u: Uuid, t: Tag)
    requires i < |parts|
  {
    exists x :: FilledWith(s, parts, i, u, t, x)
  }

  ghost predicate FilledWith(s: Gtids, parts: seq<string>, i: nat, u: Uuid, t: Tag, x: int)
    requires i < |parts|
  {
    Denotes(s, u, t, x) || NamedIn(parts[..i], u, t, x) || SomeNames(NO_TAG, TokensIn(parts[i]), t, x)
  }

  lemma FirstFits(s: Gtids, parts: seq<string>)
    requires parts != []
    ensures FitsAfter(s, parts, 0) <==> PartOk(s, parts[0])
  {
    forall u, t ensures FilledBy(s, parts, 0, u, t) <==> TagFilled(s, parts[0], u, t) {
      forall x ensures FilledWith(s, parts, 0, u, t, x) <==> TagFilledWith(s, parts[0], u, t, x) {
        assert !NamedIn(parts[..0], u, t, x);
      }
    }
  }

  lemma LaterFits(s: Gtids, parts: seq<string>, i: nat)
    requires 0 < i < |parts| && ParsePart(s, parts[0]).Some?
    ensures FitsAfter(s, parts, i) <==> FitsAfter(ParsePart(s, parts[0]).value, parts[1..], i - 1)
  {
    var s1, rest := ParsePart(s, parts[0]).value, parts[1..];
    assert rest[i - 1] == parts[i];
    forall u, t ensures FilledBy(s, parts, i, u, t) <==> FilledBy(s1, rest, i - 1, u, t) {
      FilledMoves(s, parts, i, u, t, s1, rest);
    }
  }

  lemma FilledMoves(s: Gtids, parts: seq<string>, i: nat, u: Uuid, t: Tag, s1: Gtids, rest: seq<string>)
    requires 0 < i < |parts| && ParsePart(s, parts[0]) == Some(s1) && rest == parts[1..]
    ensures FilledBy(s, parts, i, u, t) <==> FilledBy(s1, rest, i - 1, u, t)
  {
    if FilledBy(s, parts, i, u, t) {
      var x :| FilledWith(s, parts, i, u, t, x);
      NumberMoves(s, parts, i, u, t, s1, rest, x);
    }
    if FilledBy(s1, rest, i - 1, u, t) {
      var x :| FilledWith(s1, rest, i - 1, u, t, x);
      NumberMoves(s, parts, i, u, t, s1, rest, x);
    }
  }

  lemma NumberMoves(s: Gtids, parts: seq<string>, i: nat, u: Uuid, t: Tag, s1: Gtids, rest: seq<string>, x: int)
    requires 0 < i < |parts| && ParsePart(s, parts[0]) == Some(s1) && rest == parts[1..]
    ensures FilledWith(s, parts, i, u, t, x) <==> FilledWith(s1, rest, i - 1, u, t, x)
  {
    assert parts[..i][1..] == rest[..i - 1] && rest[i - 1] == parts[i];
    PartDenotes(s, parts[0], u, t, x);
    NamedStep(parts[..i], u, t, x);
  }

  ghost predicate AllFit(s: Gtids, parts: seq<string>) { forall i: nat :: i < |parts| ==> FitsAfter(s, parts, i) }

  lemma {:induction false} PartsAccepted(s: Gtids, parts: seq<string>)
    requires AllSound(s)
    ensures ParseParts(s, parts).Some? <==> AllFit(s, parts)
    decreases |parts|
  {
    if parts != [] {
      FirstFits(s, parts);
      PartAccepted(s, parts[0]);
      if ParsePart(s, parts[0]).Some? {
        var s1, rest := ParsePart(s, parts[0]).value, parts[1..];
        PartIsSound(s, parts[0]);
        PartsAccepted(s1, rest);
        RestFits(s, parts, s1, rest);
      }
    }
  }

  lemma RestFits(s: Gtids, parts: seq<string>, s1: Gtids, rest: seq<string>)
    requires parts != [] && ParsePart(s, parts[0]) == Some(s1) && rest == parts[1..]
    ensures AllFit(s, parts) <==> FitsAfter(s, parts, 0) && AllFit(s1, rest)
  {
    forall i: nat | 0 < i < |parts| ensures FitsAfter(s, parts, i) <==> FitsAfter(s1, rest, i - 1) {
      LaterFits(s, parts, i);
    }
    if FitsAfter(s, parts, 0) && AllFit(s1, rest) {
      forall i: nat | i < |parts| ensures FitsAfter(s, parts, i) {
        if i > 0 { assert FitsAfter(s1, rest, i - 1); }
      }
    }
    if AllFit(s, parts) {
      forall i: nat | i < |rest| ensures FitsAfter(s1, rest, i) { assert FitsAfter(s, parts, i + 1); }
    }
  }

  /**
   A text is accepted exactly when every part is a server followed by tags and intervals, and every
   tag has a number under its server in that part or before it.
   */
  lemma ParseAccepts(str: string)
    ensures ParseSet(str).Some? <==> AllFit(map[], PartsIn(str))
  {
    if str != "" { PartsAccepted(map[], Split(str, ',')); }
  }

  // ----- how tokens are spelled -----

  /** Digits, with or without a plus sign. */
  lemma NumberRead(d: string)
    requires d != "" && AllDigits(d)
    ensures ParseInt64(d) == if ValueOf(d) <= 0x7fff_ffff_ffff_ffff then Some(ValueOf(d)) else None
    ensures ParseInt64("+" + d) == ParseInt64(d)
  {
    assert IsDigit(d[0]) && ("+" + d)[1..] == d;
  }

  lemma OneNumber(p: string)
    requires '-' !in p
    ensures ParseInterval(p)
         == match ParseInt64(p)
            case Some(a) => if a < 0x7fff_ffff_ffff_ffff then Some(Interval(a, a + 1)) else None
            case None => None
  {
    SplitNone(p, '-');
  }

  lemma TwoNumbers(p: string, q: string, a: int, b: int)
    requires '-' !in p && '-' !in q && ParseInt64(p) == Some(a) && ParseInt64(q) == Some(b)
    ensures ParseInterval(p + "-" + q) == if a <= b < 0x7fff_ffff_ffff_ffff then Some(Interval(a, b + 1)) else None
  {
    TwoParts(p, q);
  }

  lemma TwoParts(p: string, q: string)
    requires '-' !in p && '-' !in q
    ensures Split(p + "-" + q, '-') == [p, q]
  {
    SplitNone(q, '-');
    SplitFirst(p, '-', q);
  }

  lemma TooLarge(p: string, q: string)
    requires '-' !in p && '-' !in q && (ParseInt64(p).None? || ParseInt64(q).None?)
    ensures ParseInterval(p + "-" + q) == None
  {
    TwoParts(p, q);
  }

  /** One number, up to below the 64-bit maximum. */
  lemma SingleRead(p: string)
    requires p != "" && AllDigits(p)
    ensures ParseInterval(p)
         == if ValueOf(p) < 0x7fff_ffff_ffff_ffff then Some(Interval(ValueOf(p), ValueOf(p) + 1)) else None
  {
    NumberRead(p);
    DigitsOnly(p, '-');
    OneNumber(p);
  }

  /** Two numbers around a dash, up to below the 64-bit maximum, the second not below the first. */
  lemma RangeRead(p: string, q: string)
    requires p != "" && q != "" && AllDigits(p) && AllDigits(q)
    ensures var a, b := ValueOf(p), ValueOf(q);
      ParseInterval(p + "-" + q) == if a <= b < 0x7fff_ffff_ffff_ffff then Some(Interval(a, b + 1)) else None
  {
    NumberRead(p);
    NumberRead(q);
    DigitsOnly(p, '-');
    DigitsOnly(q, '-');
    if ParseInt64(p).Some? && ParseInt64(q).Some? {
      TwoNumbers(p, q, ValueOf(p), ValueOf(q));
    } else {
      TooLarge(p, q);
    }
  }

  /** Blanks of the regular expression: tab, newline, form feed, carriage return, space. */
  predicate Blanks(s: string) { forall i :: 0 <= i < |s| ==> s[i] as int in {9, 10, 12, 13, 32} }

  /** A letter of the tag in either case. */
  predicate Spells(c: char, b: byte) { c as int == b || (97 <= b <= 122 && c as int == b - 32) }

  lemma {:induction false} TrimBlanks(a: string, m: string, b: string)
    requires Blanks(a) && Blanks(b) && m != "" && m[0] as int !in {9, 10, 12, 13, 32}
    requires m[|m| - 1] as int !in {9, 10, 12, 13, 32}
    ensures TrimTag(a + m + b) == m
    decreases |a| + |b|
  {
    var s := a + m + b;
    if a != "" {
      assert s[0] == a[0] && s[1..] == a[1..] + m + b;
      TrimBlanks(a[1..], m, b);
    } else if b != "" {
      var k := |b| - 1;
      assert s[0] == m[0] && s[|s| - 1] == b[k] && s[..|s| - 1] == a + m + b[..k];
      TrimBlanks(a, m, b[..k]);
    } else {
      assert s == m;
    }
  }

  /** A tag is read in either case and with blanks around it. */
  lemma TagRead(a: string, m: string, b: string, t: Tag)
    requires TextTag(t) && t != NO_TAG && Blanks(a) && Blanks(b)
    requires |m| == |t| && forall i :: 0 <= i < |m| ==> Spells(m[i], t[i])
    ensures IsTagText(a + m + b) && TagOf(a + m + b) == t
  {
    forall i | 0 <= i < |m| ensures (IsLetter(m[i]) || IsDigit(m[i])) && m[i] as int !in {9, 10, 12, 13, 32} {
      assert TagByte(t[i]) && Spells(m[i], t[i]);
    }
    assert TagByte(t[0]) && Spells(m[0], t[0]);
    TrimBlanks(a, m, b);
    forall i | 0 <= i < |m|
      ensures (if 'A' <= m[i] <= 'Z' then m[i] as int + 32 else m[i] as int) == t[i]
    {
      assert TagByte(t[i]) && Spells(m[i], t[i]);
    }
    assert TagOf(a + m + b) == t;
  }

  /** The bytes of a text; characters that are no byte are left out of account. */
  function Ascii(s: string): (b: bytes)
    ensures |b| == |s|
  {
    seq(|s|, i requires 0 <= i < |s| => if s[i] as int < 256 then s[i] as int else 0)
  }

  lemma {:induction false} TrimOfLower(s: string)
    ensures Trim(Lower(Ascii(s))) == Lower(Ascii(TrimText(s)))
    decreases |s|
  {
    var b := Lower(Ascii(s));
    if s != "" {
      var k := |s| - 1;
      if IsBlank(s[0]) {
        assert b[1..] == Lower(Ascii(s[1..]));
        TrimOfLower(s[1..]);
      } else if IsBlank(s[k]) {
        assert b[..k] == Lower(Ascii(s[..k]));
        TrimOfLower(s[..k]);
      }
    }
  }

  /** The tag of a text is what NewTag, on which the binary form relies too, makes of its bytes. */
  lemma NewTagRead(s: string)
    requires IsTagText(s)
    ensures NewTag(Ascii(s)) == TagOf(s)
  {
    TrimOfLower(s);
    TrimsAgree(s);
    assert Lower(Ascii(TrimTag(s))) == TagOf(s);
  }

  /** Printed digits are lower case. */
  lemma HexDigits(n: nat)
    requires n < 16
    ensures HexChar(n) == "0123456789abcdef"[n]
  {
  }

  /** s spells u: 32 hexadecimal digits in either case. */
  predicate SpellsUuid(s: string, u: Uuid) {
    |u| == 16 && |s| == 36 && forall i :: 0 <= i < 36 ==> s[i] == UuidText(u)[i] || s[i] == Upper(UuidText(u)[i])
  }

  function Upper(c: char): (r: char) { if 'a' <= c <= 'z' then (c as int - 32) as char else c }

  lemma SpelledHex(c: char, n: nat)
    requires n < 16 && (c == HexChar(n) || c == Upper(HexChar(n)))
    ensures HexValue(c) == Some(n)
  {
  }

  lemma SpelledByte(s: string, u: Uuid, k: nat)
    requires SpellsUuid(s, u) && k < 16
    ensures HexAt(s, HexPos(k)) && ByteAt(s, HexPos(k)) == u[k]
  {
    var p := HexPos(k);
    assert !IsDash(p) && !IsDash(p + 1) && HexIndex(p) == 2 * k && HexIndex(p + 1) == 2 * k + 1;
    assert UuidText(u)[p] == HexChar(u[k] / 16) && UuidText(u)[p + 1] == HexChar(u[k] % 16);
    SpelledHex(s[p], u[k] / 16);
    SpelledHex(s[p + 1], u[k] % 16);
  }

  /** A uuid is read in either case, between any two characters, such as braces, and without its dashes. */
  lemma UuidRead(s: string, u: Uuid, left: char, right: char)
    requires SpellsUuid(s, u)
    ensures ParseUuid(s) == Some(u) && ParseUuid([left] + s + [right]) == Some(u)
  {
    forall k | 0 <= k < 16 ensures HexAt(s, HexPos(k)) && ByteAt(s, HexPos(k)) == u[k] { SpelledByte(s, u, k); }
    assert IsDash(8) && IsDash(13) && IsDash(18) && IsDash(23);
    assert ParseDashed(s).value == u;
    var t := ([left] + s + [right])[1..];
    assert forall i :: 0 <= i < 36 ==> t[i] == s[i];
    forall k | 0 <= k < 16 ensures HexAt(t, HexPos(k)) && ByteAt(t, HexPos(k)) == u[k] { SpelledByte(s, u, k); }
    assert ParseDashed(t).value == u;
  }

  /** The digits alone. */
  function BareText(u: Uuid): (s: string)
    requires |u| == 16
    ensures |s| == 32
  {
    seq(32, i requires 0 <= i < 32 => HexChar(if i % 2 == 0 then u[i / 2] / 16 else u[i / 2] % 16))
  }

  lemma BareUuidRead(u: Uuid)
    requires |u| == 16
    ensures ParseUuid(BareText(u)) == Some(u)
  {
    var s := BareText(u);
    forall k | 0 <= k < 16 ensures HexAt(s, 2 * k) && ByteAt(s, 2 * k) == u[k] {
      HexRoundTrip(u[k] / 16);
      HexRoundTrip(u[k] % 16);
    }
    assert ParseUuid(s).value == u;
  }
}
