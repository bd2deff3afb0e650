/**
 MysqlGTIDSet in mysql/mysql_gtid.go: a map from server uuid and tag to
 interval slices. It stands for a set of (uuid, tag, number) triples; the
 operations are proved to be the operations on that set. Go ranges over maps
 in no particular order, and so do the loops here.
 */
module GtidSet {
  import opened Bytes
  import opened Intervals

  type Uuid = bytes
  type Tag = bytes
  type Slices = map<Tag, seq<Interval>>
  type Gtids = map<Uuid, Slices>

  const NO_TAG: Tag := []

  /** (u, t, x) is in the set. */
  predicate Denotes(s: Gtids, u: Uuid, t: Tag, x: int) { u in s && t in s[u] && In(x, s[u][t]) }

  ghost predicate SlicesFormed(m: Slices) {
    m != map[] && forall t :: t in m ==> m[t] != [] && IsNormal(m[t])
  }

  /** What every operation keeps: no empty entries, and every slice normalised. */
  ghost predicate WellFormed(s: Gtids) { forall u :: u in s ==> SlicesFormed(s[u]) }

  ghost predicate Subset(a: Gtids, b: Gtids) { forall u, t, x :: Denotes(a, u, t, x) ==> Denotes(b, u, t, x) }

  ghost predicate SameGtids(a: Gtids, b: Gtids) { forall u, t, x :: Denotes(a, u, t, x) <==> Denotes(b, u, t, x) }

  /** Entries are never empty, so the first number of a slice witnesses its entry. */
  lemma Witness(s: Gtids, u: Uuid, t: Tag)
    requires u in s && t in s[u] && s[u][t] != [] && IsNormal(s[u][t])
    ensures Denotes(s, u, t, s[u][t][0].start)
  {
  }

  method NormalizeSlice(s: seq<Interval>) returns (n: seq<Interval>)
    ensures n == Normal(s)
  {
    var a := new Interval[|s|](i requires 0 <= i < |s| => s[i]);
    assert a[..] == s;
    n := Normalize(a);
  }

  // ----- AddGTIDWithTag -----

  function Entry(s: Gtids, u: Uuid, t: Tag): (r: seq<Interval>) {
    if u in s && t in s[u] then s[u][t] else []
  }

  /** The interval [gno, gno + 1) in 64 bits. */
  function Single(gno: int): (iv: Interval) { Interval(gno, Increment(gno)) }

  function Added(s: Gtids, u: Uuid, t: Tag, gno: int): (r: Gtids) {
    s[u := if u in s then s[u][t := Normal(Entry(s, u, t) + [Single(gno)])] else map[t := [Single(gno)]]]
  }

  lemma SliceAdded(n: seq<Interval>, gno: int, x: int)
    requires gno < MAX_INT64
    ensures In(x, Normal(n + [Single(gno)])) <==> In(x, n) || x == gno
    ensures IsNormal(n) ==> IsNormal(Normal(n + [Single(gno)])) && Normal(n + [Single(gno)]) != []
  {
    NormalDenotes(n + [Single(gno)], x);
    NormalDenotes(n + [Single(gno)], gno);
    InSum(x, n, [Single(gno)]);
    InSum(gno, n, [Single(gno)]);
    assert [Single(gno)][1..] == [];
    if IsNormal(n) {
      NormalIsNonEmpty(n);
      NormalIsNormal(n + [Single(gno)]);
    }
  }

  /** Below the largest 64-bit number, adding inserts exactly one triple and keeps the set well formed. */
  lemma AddInserts(s: Gtids, u: Uuid, t: Tag, gno: int)
    requires WellFormed(s) && gno < MAX_INT64
    ensures WellFormed(Added(s, u, t, gno))
    ensures forall v, w, x ::
              Denotes(Added(s, u, t, gno), v, w, x) <==> Denotes(s, v, w, x) || (v == u && w == t && x == gno)
  {
    var r := Added(s, u, t, gno);
    assert [Single(gno)][1..] == [];
    SliceAdded(Entry(s, u, t), gno, gno);
    assert u in s && t in s[u] ==> IsNormal(s[u][t]);
    forall v, w, x ensures Denotes(r, v, w, x) <==> Denotes(s, v, w, x) || (v == u && w == t && x == gno) {
      SliceAdded(Entry(s, u, t), gno, x);
    }
    forall v | v in r ensures SlicesFormed(r[v]) {
      if v != u { assert v in s; } else { assert t in r[u]; }
    }
  }

  /** The largest 64-bit number is never inserted: its interval wraps to an empty one. */
  lemma AddFailsAtMax(s: Gtids, u: Uuid, t: Tag)
    requires WellFormed(s)
    ensures Denotes(Added(s, u, t, MAX_INT64), u, t, MAX_INT64) <==> Denotes(s, u, t, MAX_INT64)
  {
    var n := Entry(s, u, t);
    NormalDenotes(n + [Single(MAX_INT64)], MAX_INT64);
    InSum(MAX_INT64, n, [Single(MAX_INT64)]);
    assert [Single(MAX_INT64)][1..] == [];
  }

  // ----- Update -----

  function UnionSlices(a: Slices, b: Slices): (r: Slices) {
    map t | t in a.Keys + b.Keys ::
      if t in a && t in b then Normal(a[t] + b[t]) else if t in a then a[t] else b[t]
  }

  function Union(a: Gtids, b: Gtids): (r: Gtids) {
    map u | u in a.Keys + b.Keys ::
      if u in a && u in b then UnionSlices(a[u], b[u]) else if u in a then a[u] else b[u]
  }

  lemma SlicesJoined(p: seq<Interval>, q: seq<Interval>, x: int)
    ensures In(x, Normal(p + q)) <==> In(x, p) || In(x, q)
    ensures IsNormal(p) && IsNormal(q) && p != [] ==> IsNormal(Normal(p + q)) && Normal(p + q) != []
  {
    NormalDenotes(p + q, x);
    InSum(x, p, q);
    if IsNormal(p) && IsNormal(q) && p != [] {
      NormalIsNonEmpty(p);
      NormalIsNonEmpty(q);
      NormalIsNormal(p + q);
      NormalDenotes(p + q, p[0].start);
      InSum(p[0].start, p, q);
    }
  }

  lemma UnionSlicesFormed(a: Slices, b: Slices)
    requires SlicesFormed(a) && SlicesFormed(b)
    ensures SlicesFormed(UnionSlices(a, b))
  {
    var r := UnionSlices(a, b);
    forall t | t in r ensures r[t] != [] && IsNormal(r[t]) {
      if t in a && t in b { SlicesJoined(a[t], b[t], 0); }
    }
    var t :| t in a;
    assert t in r;
  }

  /** Update makes the union. */
  lemma UpdateIsUnion(a: Gtids, b: Gtids)
    requires WellFormed(a) && WellFormed(b)
    ensures WellFormed(Union(a, b))
    ensures forall u, t, x :: Denotes(Union(a, b), u, t, x) <==> Denotes(a, u, t, x) || Denotes(b, u, t, x)
  {
    var r := Union(a, b);
    forall u | u in r ensures SlicesFormed(r[u]) {
      if u in a && u in b { UnionSlicesFormed(a[u], b[u]); }
    }
    forall u, t, x ensures Denotes(r, u, t, x) <==> Denotes(a, u, t, x) || Denotes(b, u, t, x) {
      if u in a && u in b && t in a[u] && t in b[u] { SlicesJoined(a[u][t], b[u][t], x); }
    }
  }

  function JoinSlices(a: Slices, b: Slices, t: Tag): (r: seq<Interval>)
    requires t in b
  {
    if t in a then Normal(a[t] + b[t]) else b[t]
  }

  /** The union so far, when the loop has been through the tags in `done`. */
  function PartSlices(a: Slices, b: Slices, done: set<Tag>): (r: Slices)
    requires done <= b.Keys
  {
    map t | t in a.Keys + done :: if t in done then JoinSlices(a, b, t) else a[t]
  }

  lemma PartSlicesStep(a: Slices, b: Slices, done: set<Tag>, t: Tag)
    requires done <= b.Keys && t in b && t !in done
    ensures PartSlices(a, b, done + {t}) == PartSlices(a, b, done)[t := JoinSlices(a, b, t)]
    ensures t in PartSlices(a, b, done) <==> t in a
    ensures t in a ==> PartSlices(a, b, done)[t] == a[t]
  {
  }

  lemma PartSlicesEnds(a: Slices, b: Slices)
    ensures PartSlices(a, b, {}) == a && PartSlices(a, b, b.Keys) == UnionSlices(a, b)
  {
    assert PartSlices(a, b, {}).Keys == a.Keys;
    assert PartSlices(a, b, b.Keys).Keys == UnionSlices(a, b).Keys;
  }

  lemma MoveOne<K>(done: set<K>, left: set<K>, all: set<K>, k: K)
    requires done + left == all && done !! left && k in left
    ensures (done + {k}) + (left - {k}) == all && (done + {k}) !! (left - {k})
  {
  }

  /** The inner loop of Update, over the tags of one server. */
  method MergeTags(a: Slices, b: Slices) returns (r: Slices)
    ensures r == UnionSlices(a, b)
  {
    r := a;
    var left := b.Keys;
    ghost var done: set<Tag> := {};
    PartSlicesEnds(a, b);
    while left != {}
      invariant done + left == b.Keys && done !! left && r == PartSlices(a, b, done)
      decreases |left|
    {
      var t :| t in left;
      PartSlicesStep(a, b, done, t);
      MoveOne(done, left, b.Keys, t);
      if t in r {
        var n := NormalizeSlice(r[t] + b[t]);
        r := r[t := n];
      } else {
        r := r[t := b[t]];
      }
      left, done := left - {t}, done + {t};
    }
    assert done == b.Keys;
  }

  function JoinGtids(a: Gtids, b: Gtids, u: Uuid): (r: Slices)
    requires u in b
  {
    if u in a then UnionSlices(a[u], b[u]) else b[u]
  }

  function PartGtids(a: Gtids, b: Gtids, done: set<Uuid>): (r: Gtids)
    requires done <= b.Keys
  {
    map u | u in a.Keys + done :: if u in done then JoinGtids(a, b, u) else a[u]
  }

  lemma PartGtidsStep(a: Gtids, b: Gtids, done: set<Uuid>, u: Uuid)
    requires done <= b.Keys && u in b && u !in done
    ensures PartGtids(a, b, done + {u}) == PartGtids(a, b, done)[u := JoinGtids(a, b, u)]
    ensures u in PartGtids(a, b, done) <==> u in a
    ensures u in a ==> PartGtids(a, b, done)[u] == a[u]
  {
  }

  lemma PartGtidsEnds(a: Gtids, b: Gtids)
    ensures PartGtids(a, b, {}) == a && PartGtids(a, b, b.Keys) == Union(a, b)
  {
    assert PartGtids(a, b, {}).Keys == a.Keys;
    assert PartGtids(a, b, b.Keys).Keys == Union(a, b).Keys;
  }

  // ----- Contain and Equal -----

  lemma SubsetByEntries(a: Gtids, b: Gtids)
    requires WellFormed(a) && WellFormed(b)
    ensures Subset(a, b) <==> forall u :: u in a ==> u in b && SlicesWithin(a[u], b[u])
  {
    if Subset(a, b) {
      forall u | u in a ensures u in b && SlicesWithin(a[u], b[u]) { EntriesWithin(a, b, u); }
    }
    if forall u :: u in a ==> u in b && SlicesWithin(a[u], b[u]) {
      forall u, t, x | Denotes(a, u, t, x) ensures Denotes(b, u, t, x) {
        assert SlicesWithin(a[u], b[u]);
      }
    }
  }

  ghost predicate SlicesWithin(a: Slices, b: Slices) { forall t :: t in a ==> t in b && IncludesAll(b[t], a[t]) }

  lemma EntriesWithin(a: Gtids, b: Gtids, u: Uuid)
    requires WellFormed(a) && WellFormed(b) && Subset(a, b) && u in a
    ensures u in b && SlicesWithin(a[u], b[u])
  {
    assert SlicesFormed(a[u]);
    var t0 :| t0 in a[u];
    Witness(a, u, t0);
    forall t | t in a[u] ensures t in b[u] && IncludesAll(b[u][t], a[u][t]) {
      Witness(a, u, t);
      forall x | In(x, a[u][t]) ensures In(x, b[u][t]) { assert Denotes(a, u, t, x); }
    }
  }

  /** The inner loop of Contain. */
  method ContainTags(s: Slices, sub: Slices) returns (r: bool)
    requires SlicesFormed(s) && SlicesFormed(sub)
    ensures r <==> SlicesWithin(sub, s)
  {
    var left := sub.Keys;
    while left != {}
      invariant left <= sub.Keys
      invariant forall t :: t in sub && t !in left ==> t in s && IncludesAll(s[t], sub[t])
      decreases |left|
    {
      var t :| t in left;
      if t !in s { return false; }
      NormalIsNonEmpty(sub[t]);
      NonEmptyContain(s[t], sub[t]);
      var ok := Contain(s[t], sub[t]);
      if !ok { return false; }
      left := left - {t};
    }
    r := true;
  }

  /** Well-formed maps with the same triples are the same map. */
  lemma SameIsEqual(a: Gtids, b: Gtids)
    requires WellFormed(a) && WellFormed(b)
    ensures a == b <==> SameGtids(a, b)
  {
    if SameGtids(a, b) {
      assert Subset(a, b) && Subset(b, a);
      SubsetByEntries(a, b);
      SubsetByEntries(b, a);
      forall u | u in a ensures u in b && a[u] == b[u] {
        assert SlicesWithin(a[u], b[u]) && SlicesWithin(b[u], a[u]);
        SlicesEqual(a[u], b[u]);
      }
      assert a.Keys == b.Keys;
    }
  }

  lemma SlicesEqual(a: Slices, b: Slices)
    requires SlicesFormed(a) && SlicesFormed(b) && SlicesWithin(a, b) && SlicesWithin(b, a)
    ensures a == b
  {
    forall t | t in a ensures t in b && a[t] == b[t] {
      assert t in b;
      assert SameSet(a[t], b[t]);
      NormalIsUnique(a[t], b[t]);
    }
    assert a.Keys == b.Keys;
  }

  /** The inner loop of Equal; a missing tag reads as a nil slice. */
  method EqualTags(a: Slices, b: Slices) returns (r: bool)
    requires SlicesFormed(a) && SlicesFormed(b)
    ensures r <==> a == b
  {
    if |a| != |b| { return false; }
    var left := a.Keys;
    while left != {}
      invariant left <= a.Keys
      invariant forall t :: t in a && t !in left ==> t in b && a[t] == b[t]
      decreases |left|
    {
      var t :| t in left;
      if a[t] != (if t in b then b[t] else []) { return false; }
      left := left - {t};
    }
    KeysOfSameSize(a.Keys, b.Keys);
    assert a.Keys == b.Keys;
    r := true;
  }

  lemma KeysOfSameSize<K>(a: set<K>, b: set<K>)
    requires a <= b && |a| == |b|
    ensures a == b
  {
    assert b == a + (b - a) && |b| == |a| + |b - a|;
  }

  class MysqlGTIDSet {
    var sets: Gtids

    ghost predicate Valid()
      reads this
    {
      WellFormed(sets)
    }

    /** NewMysqlGTIDSet */
    constructor ()
      ensures Valid() && sets == map[]
    {
      sets := map[];
    }

    constructor From(sets: Gtids)
      ensures this.sets == sets
    {
      this.sets := sets;
    }

    method AddGTIDWithTag(u: Uuid, t: Tag, gno: int)
      modifies this
      ensures sets == Added(old(sets), u, t, gno)
    {
      if u in sets {
        var n := NormalizeSlice((if t in sets[u] then sets[u][t] else []) + [Single(gno)]);
        sets := sets[u := sets[u][t := n]];
      } else {
        sets := sets[u := map[t := [Single(gno)]]];
      }
    }

    /** AddGTID: always the empty tag. */
    method AddGTID(u: Uuid, gno: int)
      modifies this
      ensures sets == Added(old(sets), u, NO_TAG, gno)
    {
      AddGTIDWithTag(u, NO_TAG, gno);
    }

    /** Clone: an object of its own. */
    method Clone() returns (c: MysqlGTIDSet)
      ensures fresh(c) && c.sets == sets
    {
      c := new MysqlGTIDSet.From(sets);
    }

    /** The loops of Update, once its argument is parsed. */
    method Update(o: Gtids)
      requires Valid() && WellFormed(o)
      modifies this
      ensures sets == Union(old(sets), o) && Valid()
    {
      var left := o.Keys;
      ghost var was, done: set<Uuid> := sets, {};
      PartGtidsEnds(was, o);
      while left != {}
        invariant done + left == o.Keys && done !! left && sets == PartGtids(was, o, done)
        decreases |left|
      {
        var u :| u in left;
        PartGtidsStep(was, o, done, u);
        MoveOne(done, left, o.Keys, u);
        if u in sets {
          var m := MergeTags(sets[u], o[u]);
          sets := sets[u := m];
        } else {
          sets := sets[u := o[u]];
        }
        left, done := left - {u}, done + {u};
      }
      assert done == o.Keys;
      UpdateIsUnion(old(sets), o);
    }

    /** Contain decides whether the other set is a subset. */
    method Contains(o: MysqlGTIDSet) returns (r: bool)
      requires Valid() && o.Valid()
      ensures r <==> Subset(o.sets, sets)
    {
      SubsetByEntries(o.sets, sets);
      var left := o.sets.Keys;
      while left != {}
        invariant left <= o.sets.Keys
        invariant forall u :: u in o.sets && u !in left ==> u in sets && SlicesWithin(o.sets[u], sets[u])
        decreases |left|
      {
        var u :| u in left;
        if u !in sets { return false; }
        var ok := ContainTags(sets[u], o.sets[u]);
        if !ok { return false; }
        left := left - {u};
      }
      r := true;
    }

    /** Equal decides whether the two sets have the same triples. */
    method Equals(o: MysqlGTIDSet) returns (r: bool)
      requires Valid() && o.Valid()
      ensures r <==> SameGtids(sets, o.sets)
    {
      SameIsEqual(sets, o.sets);
      if |sets| != |o.sets| { return false; }
      var left := sets.Keys;
      while left != {}
        invariant left <= sets.Keys
        invariant forall u :: u in sets && u !in left ==> u in o.sets && sets[u] == o.sets[u]
        decreases |left|
      {
        var u :| u in left;
        if u !in o.sets { return false; }
        var ok := EqualTags(sets[u], o.sets[u]);
        if !ok { return false; }
        left := left - {u};
      }
      KeysOfSameSize(sets.Keys, o.sets.Keys);
      assert sets.Keys == o.sets.Keys;
      r := true;
    }
  }
}
