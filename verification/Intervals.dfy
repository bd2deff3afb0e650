/**
 mysql/mysql_interval.go: half-open intervals of transaction numbers, sorted
 and merged in place, searched by bisection. An interval slice denotes a set
 of numbers; normalising keeps the set and makes the slice unique.
 */
module Intervals {
  import opened Digits
  import opened Lists
  import opened Bytes

  datatype Interval = Interval(start: int, stop: int)

  const MAX_INT64: int := 0x7fff_ffff_ffff_ffff
  const MIN_INT64: int := -0x8000_0000_0000_0000

  predicate Has(iv: Interval, x: int) { iv.start <= x < iv.stop }

  /** x is one of the numbers a slice denotes. */
  predicate In(x: int, s: seq<Interval>) {
    s != [] && (Has(s[0], x) || In(x, s[1..]))
  }

  predicate NonEmpty(s: seq<Interval>) { forall i :: 0 <= i < |s| ==> s[i].start < s[i].stop }

  lemma {:induction false} InAt(x: int, s: seq<Interval>)
    ensures In(x, s) <==> exists i :: 0 <= i < |s| && Has(s[i], x)
  {
    if s != [] {
      InAt(x, s[1..]);
      if In(x, s[1..]) {
        var i :| 0 <= i < |s[1..]| && Has(s[1..][i], x);
        assert Has(s[i + 1], x);
      }
      if i :| 0 <= i < |s| && Has(s[i], x) {
        if i > 0 { assert Has(s[1..][i - 1], x); }
      }
    }
  }

  lemma {:induction false} InSum(x: int, a: seq<Interval>, b: seq<Interval>)
    ensures In(x, a + b) <==> In(x, a) || In(x, b)
  {
    if a == [] {
      assert a + b == b;
    } else {
      DropConcat(a, b, 1);
      InSum(x, a[1..], b);
    }
  }

  // ----- Sort -----

  /** The comparison that Sort uses: by start, then by stop. */
  predicate Leq(a: Interval, b: Interval) { a.start < b.start || (a.start == b.start && a.stop <= b.stop) }

  predicate IsSorted(s: seq<Interval>) {
    |s| < 2 || (Leq(s[0], s[1]) && IsSorted(s[1..]))
  }

  function Insert(x: Interval, s: seq<Interval>): (r: seq<Interval>) {
    if s == [] || Leq(x, s[0]) then [x] + s else [s[0]] + Insert(x, s[1..])
  }

  function SortedOf(s: seq<Interval>): (r: seq<Interval>) {
    if s == [] then [] else Insert(s[0], SortedOf(s[1..]))
  }

  lemma {:induction false} InsertSorts(x: Interval, s: seq<Interval>)
    requires IsSorted(s)
    ensures IsSorted(Insert(x, s)) && multiset(Insert(x, s)) == multiset{x} + multiset(s)
    ensures Insert(x, s) != [] && (Insert(x, s)[0] == x || (s != [] && Insert(x, s)[0] == s[0]))
  {
    if s == [] {
    } else if Leq(x, s[0]) {
      assert ([x] + s)[1..] == s;
    } else {
      InsertSorts(x, s[1..]);
      HeadTail(s);
      var r := Insert(x, s[1..]);
      assert ([s[0]] + r)[1..] == r;
      assert multiset(s) == multiset{s[0]} + multiset(s[1..]);
    }
  }

  lemma {:induction false} SortedOfSorts(s: seq<Interval>)
    ensures IsSorted(SortedOf(s)) && multiset(SortedOf(s)) == multiset(s)
  {
    if s != [] {
      SortedOfSorts(s[1..]);
      InsertSorts(s[0], SortedOf(s[1..]));
      HeadTail(s);
      assert multiset(s) == multiset{s[0]} + multiset(s[1..]);
    }
  }

  lemma {:induction false} FirstIsLeast(s: seq<Interval>, x: Interval)
    requires IsSorted(s) && x in s
    ensures Leq(s[0], x)
  {
    if x != s[0] {
      HeadTail(s);
      FirstIsLeast(s[1..], x);
    }
  }

  /** Whatever algorithm the library sorts with, the result is the same. */
  lemma {:induction false} SortingIsDetermined(a: seq<Interval>, b: seq<Interval>)
    requires IsSorted(a) && IsSorted(b) && multiset(a) == multiset(b)
    ensures a == b
    decreases |a|
  {
    assert |multiset(a)| == |a| && |multiset(b)| == |b|;
    if a != [] {
      assert a[0] in multiset(b) && b[0] in multiset(a);
      FirstIsLeast(a, b[0]);
      FirstIsLeast(b, a[0]);
      HeadTail(a);
      HeadTail(b);
      assert multiset(a[1..]) == multiset(a) - multiset{a[0]} && multiset(b[1..]) == multiset(b) - multiset{b[0]};
      SortingIsDetermined(a[1..], b[1..]);
    }
  }

  /** IntervalSlice.Sort, in place. */
  method Sort(s: array<Interval>)
    modifies s
    ensures s[..] == SortedOf(old(s[..]))
    ensures IsSorted(s[..]) && multiset(s[..]) == multiset(old(s[..]))
  {
    var t := SortedOf(s[..]);
    SortedOfSorts(s[..]);
    assert |multiset(t)| == |t| && |multiset(s[..])| == |s[..]|;
    forall i | 0 <= i < s.Length { s[i] := t[i]; }
    assert s[..] == t;
  }

  lemma {:induction false} InByMember(x: int, s: seq<Interval>)
    ensures In(x, s) <==> exists iv :: iv in s && Has(iv, x)
  {
    InAt(x, s);
    if iv :| iv in s && Has(iv, x) {
      var i :| 0 <= i < |s| && s[i] == iv;
      assert Has(s[i], x);
    }
  }

  lemma SameMembersSameSet(x: int, a: seq<Interval>, b: seq<Interval>)
    requires multiset(a) == multiset(b)
    ensures In(x, a) <==> In(x, b)
  {
    InByMember(x, a);
    InByMember(x, b);
    assert forall iv :: iv in a <==> iv in multiset(a);
    assert forall iv :: iv in b <==> iv in multiset(b);
  }

  // ----- Normalize -----

  function Max(a: int, b: int): (m: int) { if a < b then b else a }

  /** The merge loop: `last` is the interval being grown. */
  function Merge(last: Interval, s: seq<Interval>): (r: seq<Interval>)
    ensures r != []
    decreases |s|
  {
    if s == [] then [last]
    else if s[0].start > last.stop then [last] + Merge(s[0], s[1..])
    else Merge(Interval(last.start, Max(last.stop, s[0].stop)), s[1..])
  }

  function Normal(s: seq<Interval>): (n: seq<Interval>) {
    var t := SortedOf(s);
    if t == [] then [] else Merge(t[0], t[1..])
  }

  /** Sorted, non-empty intervals with a gap before each next one. */
  predicate IsNormal(s: seq<Interval>) {
    s == [] || (s[0].start < s[0].stop && (|s| > 1 ==> s[0].stop < s[1].start) && IsNormal(s[1..]))
  }

  lemma {:induction false} MergeDenotes(last: Interval, s: seq<Interval>, x: int)
    requires IsSorted([last] + s)
    ensures In(x, Merge(last, s)) <==> Has(last, x) || In(x, s)
    decreases |s|
  {
    if s != [] {
      assert ([last] + s)[1..] == s && [s[0]] + s[1..] == s;
      if s[0].start > last.stop {
        MergeDenotes(s[0], s[1..], x);
        var rest := Merge(s[0], s[1..]);
        assert ([last] + rest)[1..] == rest;
      } else {
        var grown := Interval(last.start, Max(last.stop, s[0].stop));
        GrownStaysSorted(last, s);
        MergeDenotes(grown, s[1..], x);
      }
    } else {
      assert [last][1..] == [];
    }
  }

  lemma GrownStaysSorted(last: Interval, s: seq<Interval>)
    requires IsSorted([last] + s) && s != []
    ensures IsSorted([Interval(last.start, Max(last.stop, s[0].stop))] + s[1..])
  {
    var t, u := [last] + s, [Interval(last.start, Max(last.stop, s[0].stop))] + s[1..];
    assert t[1..] == s && u[1..] == s[1..];
  }

  /** Normalising keeps the set of numbers, for every slice. */
  lemma NormalDenotes(s: seq<Interval>, x: int)
    ensures In(x, Normal(s)) <==> In(x, s)
  {
    var t := SortedOf(s);
    SortedOfSorts(s);
    SameMembersSameSet(x, s, t);
    if t != [] {
      HeadTail(t);
      MergeDenotes(t[0], t[1..], x);
    }
  }

  lemma {:induction false} MergeIsNormal(last: Interval, s: seq<Interval>)
    requires IsSorted([last] + s) && last.start < last.stop && NonEmpty(s)
    ensures IsNormal(Merge(last, s)) && Merge(last, s)[0].start == last.start
    decreases |s|
  {
    if s != [] {
      assert ([last] + s)[1..] == s && [s[0]] + s[1..] == s;
      if s[0].start > last.stop {
        MergeIsNormal(s[0], s[1..]);
        var rest := Merge(s[0], s[1..]);
        assert ([last] + rest)[1..] == rest;
      } else {
        GrownStaysSorted(last, s);
        MergeIsNormal(Interval(last.start, Max(last.stop, s[0].stop)), s[1..]);
      }
    }
  }

  /** Non-empty intervals come out sorted and separated by gaps. */
  lemma NormalIsNormal(s: seq<Interval>)
    requires NonEmpty(s)
    ensures IsNormal(Normal(s))
  {
    var t := SortedOf(s);
    SortedOfSorts(s);
    if t != [] {
      forall i | 0 <= i < |t| ensures t[i].start < t[i].stop {
        assert t[i] in multiset(t);
        assert t[i] in s;
      }
      HeadTail(t);
      MergeIsNormal(t[0], t[1..]);
    }
  }

  /**
   Everything in a normal slice lies at or after its first start, and what lies in its tail
   lies past the first gap.
   */
  lemma {:induction false} NormalBounds(s: seq<Interval>, x: int)
    requires IsNormal(s) && In(x, s)
    ensures s[0].start <= x
    ensures x < s[0].stop || (|s| > 1 && s[1].start <= x)
  {
    if !Has(s[0], x) { NormalBounds(s[1..], x); }
  }

  ghost predicate SameSet(a: seq<Interval>, b: seq<Interval>) { forall x :: In(x, a) <==> In(x, b) }

  lemma FirstAgree(a: seq<Interval>, b: seq<Interval>)
    requires IsNormal(a) && IsNormal(b) && a != [] && SameSet(a, b)
    ensures b != [] && a[0] == b[0]
  {
    assert In(a[0].start, a);
    assert In(a[0].start, b);
    assert In(b[0].start, b);
    NormalBounds(b, a[0].start);
    NormalBounds(a, b[0].start);
    if a[0].stop < b[0].stop {
      assert In(a[0].stop, b);
      NormalBounds(a, a[0].stop);
    } else if b[0].stop < a[0].stop {
      assert In(b[0].stop, a);
      NormalBounds(b, b[0].stop);
    }
  }

  lemma TailsAgree(a: seq<Interval>, b: seq<Interval>)
    requires IsNormal(a) && IsNormal(b) && a != [] && b != [] && a[0] == b[0] && SameSet(a, b)
    ensures SameSet(a[1..], b[1..])
  {
    forall x ensures In(x, a[1..]) <==> In(x, b[1..]) {
      assert In(x, a) <==> In(x, b);
      if In(x, a[1..]) { NormalBounds(a[1..], x); }
      if In(x, b[1..]) { NormalBounds(b[1..], x); }
    }
  }

  /** Normal slices with the same numbers are the same slice: Equal decides equality of sets. */
  lemma {:induction false} NormalIsUnique(a: seq<Interval>, b: seq<Interval>)
    requires IsNormal(a) && IsNormal(b)
    ensures a == b <==> SameSet(a, b)
    decreases |a|
  {
    if SameSet(a, b) {
      if a == [] {
        assert b != [] ==> In(b[0].start, b);
      } else {
        FirstAgree(a, b);
        TailsAgree(a, b);
        NormalIsUnique(a[1..], b[1..]);
        HeadTail(a);
        HeadTail(b);
      }
    }
  }

  lemma {:induction false} NormalParts(s: seq<Interval>, i: nat)
    requires IsNormal(s) && i < |s|
    ensures s[i].start < s[i].stop && (i + 1 < |s| ==> s[i].stop < s[i + 1].start)
  {
    if i > 0 { NormalParts(s[1..], i - 1); }
  }

  lemma {:induction false} NormalIsNonEmpty(s: seq<Interval>)
    requires IsNormal(s)
    ensures NonEmpty(s)
  {
    forall i | 0 <= i < |s| ensures s[i].start < s[i].stop { NormalParts(s, i); }
  }

  lemma {:induction false} NormalOrder(s: seq<Interval>, i: nat, j: nat)
    requires IsNormal(s) && i < j < |s|
    ensures s[i].stop < s[j].start
    decreases j
  {
    NormalParts(s, j);
    NormalParts(s, j - 1);
    if i < j - 1 { NormalOrder(s, i, j - 1); }
  }

  /** Normalising a normal slice changes nothing. */
  lemma NormalTwice(s: seq<Interval>)
    requires IsNormal(s)
    ensures Normal(s) == s
  {
    NormalIsNonEmpty(s);
    NormalIsNormal(s);
    forall x ensures In(x, Normal(s)) <==> In(x, s) { NormalDenotes(s, x); }
    NormalIsUnique(Normal(s), s);
  }

  /** IntervalSlice.Normalize: the argument is left sorted, the result is built by one pass over it. */
  method Normalize(s: array<Interval>) returns (n: seq<Interval>)
    modifies s
    ensures s[..] == SortedOf(old(s[..]))
    ensures n == Normal(old(s[..]))
  {
    if s.Length == 0 {
      assert s[..] == [];
      return [];
    }
    Sort(s);
    n := MergePass(s, s[..]);
  }

  /** The loop over the sorted slice. */
  method MergePass(s: array<Interval>, ghost t: seq<Interval>) returns (n: seq<Interval>)
    requires s.Length > 0 && s[..] == t
    ensures n == Merge(t[0], t[1..])
  {
    n := [s[0]];
    var i := 1;
    ghost var goal := Merge(t[0], t[1..]);
    while i < s.Length
      invariant 1 <= i <= s.Length && n != [] && goal == Continue(n, t[i..])
    {
      var last := n[|n| - 1];
      ghost var before := n;
      if s[i].start > last.stop {
        n := n + [s[i]];
      } else {
        var stop := Max(last.stop, s[i].stop);
        n := n[|n| - 1 := Interval(last.start, stop)];
      }
      ContinueStep(before, t, i, n);
      i := i + 1;
    }
    assert t[s.Length..] == [];
    ContinueEnd(n);
  }

  /** The result once the loop has built `n` and still has `rest` to go through. */
  function Continue(n: seq<Interval>, rest: seq<Interval>): (r: seq<Interval>)
    requires n != []
  {
    n[..|n| - 1] + Merge(n[|n| - 1], rest)
  }

  lemma ContinueStep(n: seq<Interval>, t: seq<Interval>, i: nat, next: seq<Interval>)
    requires n != [] && i < |t|
    requires var last := n[|n| - 1];
      next == if t[i].start > last.stop then n + [t[i]]
        else n[|n| - 1 := Interval(last.start, Max(last.stop, t[i].stop))]
    ensures Continue(n, t[i..]) == Continue(next, t[i + 1..])
  {
    var last, front := n[|n| - 1], n[..|n| - 1];
    TailStep(t, i);
    assert t[i..][1..] == t[i + 1..];
    if t[i].start > last.stop {
      assert next[..|n|] == n && front + [last] == n;
      ConcatAssoc(front, [last], Merge(t[i], t[i + 1..]));
    } else {
      assert next[..|n| - 1] == front;
    }
  }

  lemma ContinueEnd(n: seq<Interval>)
    requires n != []
    ensures Continue(n, []) == n
  {
    assert n[..|n| - 1] + [n[|n| - 1]] == n;
  }

  // ----- Contain -----

  /** The condition sort.Search bisects on. */
  predicate Reaches(s: seq<Interval>, start: int, j: nat)
    requires j < |s|
  {
    start <= s[j].stop
  }

  /** sort.Search: the first interval whose stop is not before `start`. */
  method Search(s: seq<Interval>, start: int) returns (k: nat)
    requires IsNormal(s)
    ensures k <= |s| && (forall j :: 0 <= j < k ==> !Reaches(s, start, j))
      && forall j :: k <= j < |s| ==> Reaches(s, start, j)
  {
    var i, j := 0, |s|;
    while i < j
      invariant 0 <= i <= j <= |s|
      invariant forall h :: 0 <= h < i ==> !Reaches(s, start, h)
      invariant forall h :: j <= h < |s| ==> Reaches(s, start, h)
    {
      var h := (i + j) / 2;
      if !Reaches(s, start, h) {
        forall g | 0 <= g <= h ensures !Reaches(s, start, g) { if g < h { NormalOrder(s, g, h); NormalParts(s, h); } }
        i := h + 1;
      } else {
        forall g | h <= g < |s| ensures Reaches(s, start, g) { if h < g { NormalOrder(s, h, g); NormalParts(s, g); } }
        j := h;
      }
    }
    k := i;
  }

  ghost predicate Includes(s: seq<Interval>, iv: Interval) { forall x :: Has(iv, x) ==> In(x, s) }

  ghost predicate IncludesAll(s: seq<Interval>, sub: seq<Interval>) { forall x :: In(x, sub) ==> In(x, s) }

  /** Inside one interval of a normal slice. */
  predicate Inside(s: seq<Interval>, iv: Interval, j: nat)
    requires j < |s|
  {
    s[j].start <= iv.start && iv.stop <= s[j].stop
  }

  /** A non-empty run of numbers is in a normal slice exactly when one interval holds all of it. */
  lemma IncludedInOne(s: seq<Interval>, iv: Interval, k: nat)
    requires IsNormal(s) && iv.start < iv.stop && k <= |s|
    requires (forall j :: 0 <= j < k ==> !Reaches(s, iv.start, j))
      && forall j :: k <= j < |s| ==> Reaches(s, iv.start, j)
    ensures Includes(s, iv) <==> k < |s| && Inside(s, iv, k)
  {
    if k < |s| && Inside(s, iv, k) {
      forall x | Has(iv, x) ensures In(x, s) {
        assert Has(s[k], x);
        InAt(x, s);
      }
    }
    if Includes(s, iv) {
      HoldsStart(s, iv, k);
      assert Reaches(s, iv.start, k);
      if iv.stop > s[k].stop { HoldsStop(s, iv, k); }
    }
  }

  lemma HoldsStart(s: seq<Interval>, iv: Interval, k: nat)
    requires IsNormal(s) && iv.start < iv.stop && k <= |s| && Includes(s, iv)
    requires (forall j :: 0 <= j < k ==> !Reaches(s, iv.start, j))
      && forall j :: k <= j < |s| ==> Reaches(s, iv.start, j)
    ensures k < |s| && s[k].start <= iv.start
  {
    assert Has(iv, iv.start);
    InAt(iv.start, s);
    var j :| 0 <= j < |s| && Has(s[j], iv.start);
    assert Reaches(s, iv.start, j);
    assert k < |s| ==> Reaches(s, iv.start, k);
    if k < j { NormalOrder(s, k, j); }
  }

  lemma HoldsStop(s: seq<Interval>, iv: Interval, k: nat)
    requires IsNormal(s) && k < |s| && iv.start <= s[k].stop < iv.stop
    ensures !Includes(s, iv)
  {
    assert Has(iv, s[k].stop);
    InAt(s[k].stop, s);
    forall j | 0 <= j < |s| ensures !Has(s[j], s[k].stop) {
      if j < k { NormalOrder(s, j, k); NormalParts(s, k); }
      if k < j { NormalOrder(s, k, j); }
    }
  }

  predicate TouchesAt(s: seq<Interval>, x: int, j: nat)
    requires j < |s|
  {
    s[j].start <= x <= s[j].stop
  }

  /** The number lies in an interval of the slice, or is the first past one. */
  ghost predicate Touches(s: seq<Interval>, x: int) { exists j :: 0 <= j < |s| && TouchesAt(s, x, j) }

  /** The intervals without a number all start at a place that touches the slice. */
  ghost predicate EmptiesTouch(s: seq<Interval>, sub: seq<Interval>) {
    forall i :: 0 <= i < |sub| && sub[i].stop <= sub[i].start ==> Touches(s, sub[i].start)
  }

  lemma TouchedOne(s: seq<Interval>, iv: Interval, k: nat)
    requires IsNormal(s) && iv.stop <= iv.start && k <= |s|
    requires (forall j :: 0 <= j < k ==> !Reaches(s, iv.start, j))
      && forall j :: k <= j < |s| ==> Reaches(s, iv.start, j)
    ensures Touches(s, iv.start) <==> k < |s| && Inside(s, iv, k)
  {
    assert k < |s| ==> Reaches(s, iv.start, k);
    if k < |s| && Inside(s, iv, k) { assert TouchesAt(s, iv.start, k); }
    if Touches(s, iv.start) {
      var j :| 0 <= j < |s| && TouchesAt(s, iv.start, j);
      assert Reaches(s, iv.start, j);
      if k < j { NormalOrder(s, k, j); }
    }
  }

  /**
   IntervalSlice.Contain: on a normal slice, and intervals in any order, it decides
   inclusion of sets, but for intervals without a number: those must touch the slice.
   */
  method Contain(s: seq<Interval>, sub: seq<Interval>) returns (r: bool)
    requires IsNormal(s)
    ensures r <==> IncludesAll(s, sub) && EmptiesTouch(s, sub)
  {
    var i := 0;
    while i < |sub|
      invariant i <= |sub|
      invariant forall h :: 0 <= h < i ==>
                  Includes(s, sub[h]) && (sub[h].stop <= sub[h].start ==> Touches(s, sub[h].start))
    {
      var j := Search(s, sub[i].start);
      if sub[i].start < sub[i].stop { IncludedInOne(s, sub[i], j); } else { TouchedOne(s, sub[i], j); }
      if j == |s| || sub[i].start < s[j].start || sub[i].stop > s[j].stop {
        if sub[i].start < sub[i].stop { NotIncluded(s, sub, i); }
        return false;
      }
      i := i + 1;
    }
    AllIncluded(s, sub);
    r := true;
  }

  lemma NotIncluded(s: seq<Interval>, sub: seq<Interval>, i: nat)
    requires i < |sub| && !Includes(s, sub[i])
    ensures !IncludesAll(s, sub)
  {
    var x :| Has(sub[i], x) && !In(x, s);
    InAt(x, sub);
  }

  lemma AllIncluded(s: seq<Interval>, sub: seq<Interval>)
    requires forall h :: 0 <= h < |sub| ==> Includes(s, sub[h])
    ensures IncludesAll(s, sub)
  {
    forall x | In(x, sub) ensures In(x, s) {
      InAt(x, sub);
      var i :| 0 <= i < |sub| && Has(sub[i], x);
      assert Includes(s, sub[i]);
    }
  }

  /** For intervals that all have a number, as well-formed sets have them, nothing else is asked. */
  lemma NonEmptyContain(s: seq<Interval>, sub: seq<Interval>)
    requires NonEmpty(sub)
    ensures EmptiesTouch(s, sub)
  {
  }

  /** An empty interval adds no number, yet one that touches no interval of the slice is refused. */
  lemma EmptyIntervalRefused()
    ensures var s, sub := [Interval(1, 3)], [Interval(5, 5)];
      IsNormal(s) && IncludesAll(s, sub) && !EmptiesTouch(s, sub)
  {
    var s, sub := [Interval(1, 3)], [Interval(5, 5)];
    assert s[1..] == [] && sub[1..] == [];
    assert sub[0].start == 5 && s[0].stop == 3;
    assert !Touches(s, sub[0].start);
  }

  // ----- text -----

  function ParseInt64(p: string): (r: Option<int>) {
    var d := if p != "" && p[0] == '+' then p[1..] else p;
    if d == "" || !AllDigits(d) || ValueOf(d) > MAX_INT64 then None else Some(ValueOf(d))
  }

  /** x + 1 in 64 bits. */
  function Increment(x: int): (r: int) { if x == MAX_INT64 then MIN_INT64 else x + 1 }

  /** The parts of a text between separators. */
  function Split(s: string, sep: char): (parts: seq<string>)
    ensures parts != []
  {
    if s == "" then [""]
    else if s[0] == sep then [""] + Split(s[1..], sep)
    else
      var rest := Split(s[1..], sep);
      [[s[0]] + rest[0]] + rest[1..]
  }

  /** parseInterval; the parts have no sign, since the sign is the separator. */
  function ParseInterval(str: string): (r: Option<Interval>)
    ensures r.Some? ==> r.value.start < r.value.stop
  {
    var p := Split(str, '-');
    var iv :=
      if |p| == 1 then
        match ParseInt64(p[0])
        case Some(a) => Some(Interval(a, Increment(a)))
        case None => None
      else if |p| == 2 then
        match (ParseInt64(p[0]), ParseInt64(p[1]))
        case (Some(a), Some(b)) => Some(Interval(a, Increment(b)))
        case _ => None
      else None;
    if iv.Some? && iv.value.start < iv.value.stop then iv else None
  }

  /** Interval.String. */
  function Print(iv: Interval): (s: string) {
    if iv.stop == Increment(iv.start) then FormatInt(iv.start)
      else FormatInt(iv.start) + "-" + FormatInt(Decrement(iv.stop))
  }

  function FormatInt(x: int): (s: string) { if x < 0 then "-" + FormatNat(-x) else FormatNat(x) }

  /** x - 1 in 64 bits. */
  function Decrement(x: int): (r: int) { if x == MIN_INT64 then MAX_INT64 else x - 1 }

  lemma {:induction false} SplitNone(s: string, sep: char)
    requires sep !in s
    ensures Split(s, sep) == [s]
  {
    if s != "" {
      SplitNone(s[1..], sep);
      HeadTail(s);
    }
  }

  lemma {:induction false} SplitFirst(a: string, sep: char, rest: string)
    requires sep !in a
    ensures Split(a + [sep] + rest, sep) == [a] + Split(rest, sep)
  {
    var s := a + [sep] + rest;
    if a == "" {
      assert s[1..] == rest && s[0] == sep;
    } else {
      SplitFirst(a[1..], sep, rest);
      assert s[1..] == a[1..] + [sep] + rest && s[0] == a[0];
      HeadTail(a);
    }
  }

  lemma DigitsOnly(s: string, c: char)
    requires AllDigits(s) && !IsDigit(c)
    ensures c !in s
  {
  }

  lemma NumberRoundTrip(n: nat)
    requires n <= MAX_INT64
    ensures ParseInt64(FormatNat(n)) == Some(n)
  {
    FormatNatValue(n);
    assert IsDigit(FormatNat(n)[0]);
  }

  lemma ParsedOne(p: string, a: int)
    requires '-' !in p && ParseInt64(p) == Some(a) && a < MAX_INT64
    ensures ParseInterval(p) == Some(Interval(a, a + 1))
  {
    SplitNone(p, '-');
  }

  lemma ParsedTwo(p: string, q: string, a: int, b: int)
    requires '-' !in p && '-' !in q && ParseInt64(p) == Some(a) && ParseInt64(q) == Some(b) && a <= b < MAX_INT64
    ensures ParseInterval(p + "-" + q) == Some(Interval(a, b + 1))
  {
    SplitNone(q, '-');
    SplitFirst(p, '-', q);
    var parts := Split(p + "-" + q, '-');
    assert |parts| == 2 && parts[0] == p && parts[1] == q;
  }

  /** Printed intervals are read back; the stop must fit 64 bits, or the increment would wrap. */
  lemma PrintRoundTrip(iv: Interval)
    requires 0 <= iv.start < iv.stop <= MAX_INT64
    ensures ParseInterval(Print(iv)) == Some(iv)
  {
    PrintOf(iv);
    PlainRoundTrip(iv, FormatNat(iv.start), FormatNat(iv.stop - 1));
  }

  /** No sign and no wrap-around in the range of GTID numbers. */
  lemma PrintOf(iv: Interval)
    requires 0 <= iv.start < iv.stop <= MAX_INT64
    ensures Print(iv) == if iv.stop == iv.start + 1 then FormatNat(iv.start)
      else FormatNat(iv.start) + "-" + FormatNat(iv.stop - 1)
  {
  }

  lemma PlainRoundTrip(iv: Interval, a: string, b: string)
    requires 0 <= iv.start < iv.stop <= MAX_INT64 && a == FormatNat(iv.start) && b == FormatNat(iv.stop - 1)
    ensures ParseInterval(if iv.stop == iv.start + 1 then a else a + "-" + b) == Some(iv)
  {
    NumberRoundTrip(iv.start);
    NumberRoundTrip(iv.stop - 1);
    DigitsOnly(a, '-');
    DigitsOnly(b, '-');
    if iv.stop == iv.start + 1 {
      ParsedOne(a, iv.start);
    } else {
      ParsedTwo(a, b, iv.start, iv.stop - 1);
    }
  }
}
