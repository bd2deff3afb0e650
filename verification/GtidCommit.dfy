/**
 The GTID set that goes out with XID and query events (GSet, a clone of currGset)
 and what a new syncer started from it is sent. Every transaction here ends with
 such an event, its commit.
 */
module GtidCommit {
  import opened Bytes
  import opened GtidLoss
  import opened GtidResume
  import opened GtidSet
  import opened Lists

  ghost predicate Committed(f: seq<Txn>) { forall i :: 0 <= i < |f| ==> f[i].size > 0 }

  /** The commit event of the transaction under way was just delivered. */
  predicate AtCommit(s: State) {
    && s.view.last.Some? && s.view.last.value.size > 0 && s.seen != []
    && s.seen[|s.seen| - 1] == Body(s.view.last.value, s.view.last.value.size - 1)
  }

  /** A new syncer started from the set that goes out is sent exactly what was not received whole. */
  ghost predicate ResumesExactly(log: seq<Txn>, start: iset<Gtid>, s: State) {
    && s.view.curr.Some?
    && forall t :: t in Missing(log, s.view.curr.value) <==> t in Missing(log, start) && !Whole(s.seen, t)
  }

  // ----- when no tag is lost -----

  lemma {:induction false} ItemAt(t: Txn, k: nat, i: nat)
    ensures k <= t.size ==> |BodiesFrom(t, k)| == t.size - k
    ensures k <= t.size && i < t.size - k ==> BodiesFrom(t, k)[i] == Body(t, k + i)
    decreases t.size - k
  {
    if k < t.size { ItemAt(t, k + 1, if i == 0 then 0 else i - 1); }
  }

  /** The commit event is the last one. */
  lemma CommitIsLast(s: State, t: Txn, more: seq<Txn>, a: seq<Item>, p: seq<Item>, q: seq<Item>)
    requires Split3(s, t, more, a, p, q) && AtCommit(s) && s.view.last == Some(t)
    ensures q == []
  {
    var n := |p|;
    assert s.seen[|s.seen| - 1] == p[n - 1] == (p + q)[n - 1];
    ItemAt(t, 0, if n >= 2 then n - 2 else 0);
    assert ItemsOf(t) == [Begin(t)] + BodiesFrom(t, 0);
    assert |p + q| == t.size + 1;
  }

  lemma TracksResumes(log: seq<Txn>, start: iset<Gtid>, f: seq<Txn>, s: State, n: nat)
    requires Distinct(log) && f == Missing(log, start) && Tracks(f, start, s, n) && AtCommit(s)
    ensures ResumesExactly(log, start, s)
  {
    var a, p, q :| Split3(s, f[n], f[n + 1..], a, p, q);
    CommitIsLast(s, f[n], f[n + 1..], a, p, q);
    ReceivedWhole(s, f[n], f[n + 1..], a, p);
    MissingAfter(log, start, f, n + 1);
    OneMoreDone(f, n);
    assert s.view.curr.value == start + GtidsOf(f[..n + 1]);
    var whole := iset t | Whole(s.seen, t);
    forall j | n < j < |f| ensures f[j] !in whole { LaterNotWhole(f, start, s, n, j); }
    forall t ensures t in f[n + 1..] <==> t in f && !Whole(s.seen, t) { TheRest(f, n, whole, t); }
  }

  /** With the first n + 1 transactions received whole and no others, the others are the rest. */
  lemma TheRest(f: seq<Txn>, n: nat, whole: iset<Txn>, t: Txn)
    requires n < |f| && (forall j :: 0 <= j <= n ==> f[j] in whole) && forall j :: n < j < |f| ==> f[j] !in whole
    ensures t in f[n + 1..] <==> t in f && t !in whole
  {
    if t in f[n + 1..] {
      var i :| 0 <= i < |f[n + 1..]| && f[n + 1..][i] == t;
      assert f[n + 1 + i] == t;
    } else if t in f {
      var j :| 0 <= j < |f| && f[j] == t;
      LaterIsLater(f, n, j);
    }
  }

  lemma LaterNotWhole(f: seq<Txn>, start: iset<Gtid>, s: State, n: nat, j: nat)
    requires Distinct(f) && Tracks(f, start, s, n) && n < j < |f|
    ensures !Whole(s.seen, f[j])
  {
    BegunEarly(f, start, s, n, j);
    if Whole(s.seen, f[j]) { WholeIsBegun(s.seen, f[j]); }
  }

  lemma LaterIsLater(f: seq<Txn>, n: nat, j: nat)
    requires n < |f| && j < |f|
    ensures j > n ==> f[j] in f[n + 1..]
  {
    if j > n { assert f[n + 1..][j - n - 1] == f[j]; }
  }

  // ----- when a tag is lost -----

  lemma {:induction false} RecordsKept(f: seq<Txn>, m: nat)
    requires m < |f| && AllOk(f) && forall j :: 0 <= j < m ==> !LosesTag(f, j)
    ensures Records(f, m) == GtidsOf(f[..m])
  {
    if m > 0 {
      RecordsKept(f, m - 1);
      OneMoreDone(f, m - 1);
      assert !LosesTag(f, m - 1);
      assert GtidResume.Recorded(f[m - 1], f[m]) == f[m - 1].gtid;
    } else {
      assert f[..0] == [];
    }
  }

  lemma RecordsLost(f: seq<Txn>, k: nat)
    requires k + 1 < |f| && AllOk(f) && LosesTag(f, k) && forall j :: 0 <= j < k ==> !LosesTag(f, j)
    ensures Records(f, k + 1) == GtidsOf(f[..k]) + iset{Untagged(f[k])}
  {
    RecordsKept(f, k);
  }

  /** The transaction whose tag was lost is the first to be sent again. */
  lemma LostComesFirst(log: seq<Txn>, start: iset<Gtid>, f: seq<Txn>, k: nat, have: iset<Gtid>)
    requires f == Missing(log, start) && Distinct(f) && k < |f| && f[k].gtid.tag != NO_TAG
    requires have == start + GtidsOf(f[..k]) + iset{Untagged(f[k])}
    ensures f[k].gtid !in have && Missing(log, have) == [f[k]] + Missing(f[k + 1..], have)
  {
    MissingOfMissing(log, start, f, have);
    assert f[k] in f;
    MissingIsFromLog(log, start, f[k]);
    NotAmong(f, k, k);
    AllAmong(f, k);
    FirstMissing(f, k, have);
  }

  lemma AllAmong(f: seq<Txn>, k: nat)
    requires k <= |f|
    ensures forall j :: 0 <= j < k ==> f[j].gtid in GtidsOf(f[..k])
  {
    forall j | 0 <= j < k ensures f[j].gtid in GtidsOf(f[..k]) { assert f[..k][j] == f[j]; }
  }

  lemma FirstMissing(f: seq<Txn>, k: nat, have: iset<Gtid>)
    requires k < |f| && f[k].gtid !in have && forall j :: 0 <= j < k ==> f[j].gtid in have
    ensures Missing(f, have) == [f[k]] + Missing(f[k + 1..], have)
  {
    assert f[0..] == f;
    if Missing(f, have) == [] { NoneMissing(f, 0, have); }
    var p := NextMissing(f, 0, have);
    assert p == k;
  }

  /** The GTID of f[j] is not among those before position k. */
  lemma NotAmong(f: seq<Txn>, k: nat, j: nat)
    requires Distinct(f) && k <= j < |f|
    ensures f[j].gtid !in GtidsOf(f[..k])
  {
    if f[j].gtid in GtidsOf(f[..k]) {
      var t :| t in f[..k] && t.gtid == f[j].gtid;
      var i :| 0 <= i < k && f[..k][i] == t;
      DistinctAt(f, i, j);
    }
  }

  /** Reconnecting and receiving the first transaction up to its commit. */
  lemma ReceiveFirst(log: seq<Txn>, s: State, t: Txn, more: seq<Txn>) returns (acts: seq<Action>, r: State)
    requires Missing(log, s.view.prev) == [t] + more && t.size > 0
    ensures r == Exec(log, s, acts) && AtCommit(r) && r.seen == s.seen + ItemsOf(t)
    ensures r.view.curr == Some(s.view.prev + iset{t.gtid})
  {
    var s1 := Step(log, s, Reconnect);
    QueueHead(t, more, [t] + more, s1.rest);
    var s2 := Step(log, s1, Deliver);
    var bodies := DeliverBodies(log, s2, t, 0, ItemsAll(more));
    r := Exec(log, s2, bodies);
    ConcatAssoc(s.seen, [Begin(t)], BodiesFrom(t, 0));
    ItemAt(t, 0, t.size - 1);
    acts := [Reconnect] + ([Deliver] + bodies);
    assert ([Deliver] + bodies)[1..] == bodies && acts[1..] == [Deliver] + bodies;
    assert Exec(log, s1, [Deliver] + bodies) == r;
  }

  /** After f[k + 1] was received whole, the set that goes out with f[k] lacks it. */
  lemma RepeatsNext(log: seq<Txn>, start: iset<Gtid>, f: seq<Txn>, k: nat) returns (acts: seq<Action>)
    requires f == Missing(log, start) && Distinct(f) && AllOk(f) && Committed(f) && k + 1 < |f|
    requires LosesTag(f, k) && (forall j :: 0 <= j < k ==> !LosesTag(f, j)) && f[k + 1].gtid != Untagged(f[k])
    ensures var s := Exec(log, Init(log, start), acts); AtCommit(s) && !ResumesExactly(log, start, s)
  {
    var init, u := Init(log, start), f[k + 1];
    var run := GoStraight(log, start, f, k + 1);
    var s := Exec(log, init, run);
    var bodies := DeliverBodies(log, s, u, 0, ItemsAll(f[k + 2..]));
    var s1 := Exec(log, s, bodies);
    RecordsLost(f, k);
    var have := s1.view.prev;
    assert have == start + GtidsOf(f[..k]) + iset{Untagged(f[k])};
    LostComesFirst(log, start, f, k, have);
    var again, r := ReceiveFirst(log, s1, f[k], Missing(f[k + 1..], have));
    ExecSum(log, init, run, bodies);
    ExecSum(log, init, run + bodies, again);
    acts := run + bodies + again;
    WholeThere(ItemsAll(f[..k + 1]), u, ItemsOf(f[k]), s1.seen, r.seen);
    NotRecorded(log, start, f, k, have, r.view.curr.value);
  }

  lemma WholeThere(a: seq<Item>, u: Txn, b: seq<Item>, seen: seq<Item>, now: seq<Item>)
    requires seen == a + [Begin(u)] + BodiesFrom(u, 0) && now == seen + b
    ensures Whole(now, u)
  {
    ConcatAssoc(a, [Begin(u)], BodiesFrom(u, 0));
    assert WholeAt(now, u, a, b);
  }

  lemma NotRecorded(log: seq<Txn>, start: iset<Gtid>, f: seq<Txn>, k: nat, have: iset<Gtid>, curr: iset<Gtid>)
    requires f == Missing(log, start) && Distinct(f) && k + 1 < |f| && f[k + 1].gtid != Untagged(f[k])
    requires have == start + GtidsOf(f[..k]) + iset{Untagged(f[k])} && curr == have + iset{f[k].gtid}
    ensures f[k + 1] in Missing(log, curr)
  {
    var u := f[k + 1];
    assert u in f;
    MissingIsFromLog(log, start, u);
    NotAmong(f, k, k + 1);
    DistinctAt(f, k, k + 1);
    MissingIsFromLog(log, curr, u);
  }

  /** When what is recorded names f[k + 1] itself, the set that goes out with f[k] holds it before it was received. */
  lemma SkipsNext(log: seq<Txn>, start: iset<Gtid>, f: seq<Txn>, k: nat) returns (acts: seq<Action>)
    requires f == Missing(log, start) && Distinct(f) && AllOk(f) && Committed(f) && k + 1 < |f|
    requires LosesTag(f, k) && (forall j :: 0 <= j < k ==> !LosesTag(f, j)) && f[k + 1].gtid == Untagged(f[k])
    ensures var s := Exec(log, Init(log, start), acts); AtCommit(s) && !ResumesExactly(log, start, s)
  {
    var init, u := Init(log, start), f[k + 1];
    var run := GoStraight(log, start, f, k + 1);
    var s := Exec(log, init, run);
    RecordsLost(f, k);
    var have := s.view.prev;
    assert have == start + GtidsOf(f[..k]) + iset{Untagged(f[k])};
    LostComesFirst(log, start, f, k, have);
    var again, r := ReceiveFirst(log, s, f[k], Missing(f[k + 1..], have));
    ExecSum(log, init, run, again);
    acts := run + again;
    NotWholeYet(f, k, s.seen, r.seen);
    assert u in f;
    MissingIsFromLog(log, r.view.curr.value, u);
  }

  lemma NotWholeYet(f: seq<Txn>, k: nat, seen: seq<Item>, now: seq<Item>)
    requires Distinct(f) && k + 1 < |f| && f[k + 1].size > 0
    requires seen == ItemsAll(f[..k + 1]) + [Begin(f[k + 1])] && now == seen + ItemsOf(f[k])
    ensures !Whole(now, f[k + 1])
  {
    var u := f[k + 1];
    var item := Body(u, 0);
    NotBefore(f, k + 1, k + 1);
    ItemsNot(f[..k + 1], u);
    DistinctAt(f, k, k + 1);
    ItemsNot([f[k]], u);
    assert [f[k]][1..] == [];
    ConcatEmpty(ItemsOf(f[k]));
    assert BodiesFrom(u, 0)[0] == item;
    WholeHasAll(now, u, item);
  }

  // ----- the two together -----

  ghost predicate CommitResumes(log: seq<Txn>, start: iset<Gtid>, acts: seq<Action>) {
    var s := Exec(log, Init(log, start), acts);
    AtCommit(s) ==> ResumesExactly(log, start, s)
  }

  /**
   Over every run, a new syncer started from the set that goes out with a commit event
   neither skips nor repeats a transaction, exactly when no tagged transaction is
   directly followed by a plain one.
   */
  lemma CommitSetsResumeExactly(log: seq<Txn>, start: iset<Gtid>)
    requires Distinct(log) && AllOk(Missing(log, start)) && Committed(Missing(log, start))
    ensures (forall acts :: CommitResumes(log, start, acts)) <==> KeepsTags(Missing(log, start))
  {
    var f := Missing(log, start);
    MissingIsDistinct(log, start);
    if KeepsTags(f) {
      forall acts ensures CommitResumes(log, start, acts) {
        Starts(log, start);
        var n := RunTracks(log, start, f, Init(log, start), 0, acts);
        var s := Exec(log, Init(log, start), acts);
        if AtCommit(s) { TracksResumes(log, start, f, s, n); }
      }
    } else {
      var i :| 0 <= i < |f| - 1 && LosesTag(f, i);
      var k := FirstLoss(f, i);
      var acts;
      if f[k + 1].gtid == Untagged(f[k]) {
        acts := SkipsNext(log, start, f, k);
      } else {
        acts := RepeatsNext(log, start, f, k);
      }
      assert !CommitResumes(log, start, acts);
    }
  }

  // ----- sets that go out before the commit -----

  ghost predicate HasLast(v: View) { v.last.Some? ==> v.curr.Some? && v.last.value.gtid in v.curr.value }

  lemma {:induction false} RunHasLast(log: seq<Txn>, s: State, acts: seq<Action>)
    requires HasLast(s.view)
    ensures HasLast(Exec(log, s, acts).view)
    decreases |acts|
  {
    if acts != [] { RunHasLast(log, Step(log, s, acts[0]), acts[1..]); }
  }

  /**
   The set that goes out with any event of a transaction, the query event that begins it
   included, already holds that transaction: a new syncer started from it never receives it.
   */
  lemma EarlySetSkips(log: seq<Txn>, start: iset<Gtid>, acts: seq<Action>)
    requires Exec(log, Init(log, start), acts).view.last.Some?
    ensures var v := Exec(log, Init(log, start), acts).view;
      v.curr.Some? && LostForGood(log, Init(log, v.curr.value), v.last.value)
  {
    var v := Exec(log, Init(log, start), acts).view;
    RunHasLast(log, Init(log, start), acts);
    var t, s := v.last.value, Init(log, v.curr.value);
    MissingIsFromLog(log, v.curr.value, t);
    ItemsNot(Missing(log, v.curr.value), t);
    WithheldIsLost(log, s, t, Begin(t));
  }
}
