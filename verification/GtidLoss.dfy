/**
 When resuming loses a transaction: a tag dropped from prevGset leaves the GTID
 of another transaction there, and the server then holds that one back. Stated
 for every log, over every run with connections lost anywhere.
 */
module GtidLoss {
  import opened Bytes
  import opened GtidResume
  import opened GtidSet
  import opened Lists

  /** What is recorded for a transaction whose tag is dropped. */
  function Untagged(t: Txn): (g: Gtid) { Gtid(t.gtid.uuid, NO_TAG, t.gtid.gno) }

  /**
   The tag of transaction i is lost, and what is recorded instead names transaction j, which is
   not yet received whole.
   */
  predicate Names(f: seq<Txn>, i: nat, j: nat) {
    i < j < |f| && LosesTag(f, i) && f[j].gtid == Untagged(f[i]) && (j > i + 1 || f[j].size > 0)
  }

  ghost predicate Harmless(f: seq<Txn>) { forall i, j :: 0 <= i < j < |f| ==> !Names(f, i, j) }

  // ----- what every step keeps when no lost tag names a transaction -----

  ghost predicate Recorded(f: seq<Txn>, s: State) {
    forall k :: 0 <= k < |f| && f[k].gtid in s.view.prev ==> Whole(s.seen, f[k])
  }

  /** The first n transactions were begun, all but the last of them received whole, and no others were begun. */
  ghost predicate Begins(f: seq<Txn>, s: State, n: nat) {
    && n <= |f| && (forall k :: 0 <= k < n - 1 ==> Whole(s.seen, f[k]))
    && forall k :: n <= k < |f| ==> !Begun(s.seen, f[k])
  }

  /** All but the last of them are recorded, unless their tag was lost. */
  ghost predicate Kept(f: seq<Txn>, prev: iset<Gtid>, n: nat)
    requires n <= |f|
  {
    forall k :: 0 <= k < n - 1 ==> f[k].gtid in prev || LosesTag(f, k)
  }

  /** Tagged transactions from i on that this connection sends are not recorded yet. */
  ghost predicate Pending(f: seq<Txn>, base: iset<Gtid>, prev: iset<Gtid>, i: nat) {
    forall k :: i <= k < |f| && f[k].gtid !in base && f[k].gtid.tag != NO_TAG ==> f[k].gtid !in prev
  }

  /** This connection was made with `base` and sends what is missing; transaction i is under way. */
  ghost predicate Sending(f: seq<Txn>, s: State, base: iset<Gtid>, n: nat, i: nat) {
    match s.view.last
    case None => s.view.prev == base && s.rest == ItemsAll(Missing(f, base))
    case Some(t) =>
      && i < n <= |f| && t == f[i] && t.gtid !in base && UnderWay(s, t, Missing(f[i + 1..], base))
      && Pending(f, base, s.view.prev, i)
  }

  ghost predicate Follows(f: seq<Txn>, start: iset<Gtid>, s: State, base: iset<Gtid>, n: nat, i: nat) {
    && start <= base <= s.view.prev
    && Recorded(f, s) && Begins(f, s, n) && Kept(f, s.view.prev, n) && Sending(f, s, base, n, i)
  }

  // ----- what is missing, by position -----

  lemma {:induction false} NextMissing(f: seq<Txn>, m: nat, base: iset<Gtid>) returns (p: nat)
    requires m <= |f| && Missing(f[m..], base) != []
    ensures m <= p < |f| && f[p].gtid !in base && forall k :: m <= k < p ==> f[k].gtid in base
    ensures Missing(f[m..], base) == [f[p]] + Missing(f[p + 1..], base)
    decreases |f| - m
  {
    assert m < |f| by { assert |f[m..]| == |f| - m; }
    assert f[m..][0] == f[m] && f[m..][1..] == f[m + 1..];
    p := m;
    if f[m].gtid in base {
      assert [] + Missing(f[m + 1..], base) == Missing(f[m + 1..], base);
      p := NextMissing(f, m + 1, base);
    }
  }

  lemma {:induction false} NoneMissing(f: seq<Txn>, m: nat, base: iset<Gtid>)
    requires m <= |f| && Missing(f[m..], base) == []
    ensures forall k :: m <= k < |f| ==> f[k].gtid in base
    decreases |f| - m
  {
    if m < |f| {
      assert f[m..][0] == f[m] && f[m..][1..] == f[m + 1..];
      NoneMissing(f, m + 1, base);
    }
  }

  /** A server asked with more than the start sends what is missing of what was missing then. */
  lemma MissingOfMissing(log: seq<Txn>, start: iset<Gtid>, f: seq<Txn>, have: iset<Gtid>)
    requires f == Missing(log, start) && start <= have
    ensures Missing(log, have) == Missing(f, have)
  {
    MissingTwice(log, start, have);
    assert start + have == have;
  }

  // ----- the steps -----

  lemma FollowsFromStart(log: seq<Txn>, start: iset<Gtid>, f: seq<Txn>)
    requires f == Missing(log, start)
    ensures Follows(f, start, Init(log, start), start, 0, 0)
  {
    var s := Init(log, start);
    MissingOfMissing(log, start, f, start);
    forall k | 0 <= k < |f| ensures f[k].gtid !in start {
      assert f[k] in f;
      MissingIsFromLog(log, start, f[k]);
    }
  }

  lemma FollowsReconnect(log: seq<Txn>, start: iset<Gtid>, f: seq<Txn>, s: State, base: iset<Gtid>, n: nat, i: nat)
    requires f == Missing(log, start) && Follows(f, start, s, base, n, i)
    ensures Follows(f, start, Step(log, s, Reconnect), s.view.prev, n, 0)
  {
    MissingOfMissing(log, start, f, s.view.prev);
  }

  lemma RecordedGrows(f: seq<Txn>, s: State, r: State, item: Item)
    requires Recorded(f, s) && r.seen == s.seen + [item] && r.view.prev == s.view.prev
    ensures Recorded(f, r)
  {
    forall k | 0 <= k < |f| && f[k].gtid in r.view.prev ensures Whole(r.seen, f[k]) { WholeGrows(s.seen, item, f[k]); }
  }

  lemma FollowsBody(log: seq<Txn>, start: iset<Gtid>, f: seq<Txn>, s: State, base: iset<Gtid>, n: nat, i: nat,
                    a: seq<Item>, p: seq<Item>, q: seq<Item>)
    requires Follows(f, start, s, base, n, i) && s.view.last.Some? && q != []
    requires Split3(s, f[i], Missing(f[i + 1..], base), a, p, q)
    ensures Follows(f, start, Step(log, s, Deliver), base, n, i)
  {
    var r := Step(log, s, Deliver);
    BodySplit(s, f[i], Missing(f[i + 1..], base), a, p, q, r.seen, r.rest);
    assert Split3(r, f[i], Missing(f[i + 1..], base), a, p + [q[0]], q[1..]);
    RecordedGrows(f, s, r, q[0]);
    LastBegunStep(s.seen, q[0]);
    forall k | 0 <= k < n - 1 ensures Whole(r.seen, f[k]) { WholeGrows(s.seen, q[0], f[k]); }
  }

  /** Beginning f[p], the next one missing from position m on, when all before it were received whole. */
  lemma BeginsNext(f: seq<Txn>, s: State, r: State, base: iset<Gtid>, n: nat, m: nat, p: nat)
    requires Distinct(f) && Recorded(f, s) && Begins(f, s, n) && base <= s.view.prev && m <= p < |f| && m <= n
    requires (forall k :: m <= k < p ==> f[k].gtid in base) && forall k :: 0 <= k < m ==> Whole(s.seen, f[k])
    requires r.seen == s.seen + [Begin(f[p])]
    ensures p <= n && Begins(f, r, if p == n then n + 1 else n)
    ensures forall k :: 0 <= k < p ==> Whole(s.seen, f[k])
  {
    var n' := if p == n then n + 1 else n;
    LastBegunStep(s.seen, Begin(f[p]));
    if p > n {
      assert Whole(s.seen, f[n]);
      WholeIsBegun(s.seen, f[n]);
    }
    forall k | 0 <= k < n' - 1 ensures Whole(r.seen, f[k]) { WholeGrows(s.seen, Begin(f[p]), f[k]); }
    forall k | n' <= k < |f| ensures !Begun(r.seen, f[k]) { DistinctAt(f, p, k); }
  }

  lemma WholeIsBegun(seen: seq<Item>, t: Txn)
    requires Whole(seen, t)
    ensures Begun(seen, t)
  {
    var a, b :| WholeAt(seen, t, a, b);
    assert seen[|a|] == Begin(t);
  }

  /** The state right after Begin(f[p]). */
  lemma SendingNext(f: seq<Txn>, r: State, base: iset<Gtid>, n: nat, p: nat, seen: seq<Item>)
    requires p < n <= |f| && f[p].gtid !in base && r.view.last == Some(f[p]) && r.seen == seen + [Begin(f[p])]
    requires r.rest == BodiesFrom(f[p], 0) + ItemsAll(Missing(f[p + 1..], base)) && Pending(f, base, r.view.prev, p)
    ensures Sending(f, r, base, n, p)
  {
    assert Split3(r, f[p], Missing(f[p + 1..], base), seen, [Begin(f[p])], BodiesFrom(f[p], 0));
  }

  lemma QueueHead(t: Txn, more: seq<Txn>, queue: seq<Txn>, rest: seq<Item>)
    requires queue == [t] + more && rest == ItemsAll(queue)
    ensures rest != [] && rest[0] == Begin(t) && rest[1..] == BodiesFrom(t, 0) + ItemsAll(more)
  {
    assert queue[1..] == more;
    ConcatAssoc([Begin(t)], BodiesFrom(t, 0), ItemsAll(more));
  }

  lemma FollowsFirst(log: seq<Txn>, start: iset<Gtid>, f: seq<Txn>, s: State, base: iset<Gtid>, n: nat)
    returns (n': nat, p: nat)
    requires Distinct(f) && Follows(f, start, s, base, n, 0) && s.view.last.None? && s.rest != []
    ensures Follows(f, start, Step(log, s, Deliver), base, n', p)
  {
    var r := Step(log, s, Deliver);
    assert f[0..] == f;
    p := NextMissing(f, 0, base);
    QueueHead(f[p], Missing(f[p + 1..], base), Missing(f, base), s.rest);
    BeginsNext(f, s, r, base, n, 0, p);
    n' := if p == n then n + 1 else n;
    RecordedGrows(f, s, r, Begin(f[p]));
    SendingNext(f, r, base, n', p, s.seen);
  }

  lemma FollowsNext(log: seq<Txn>, start: iset<Gtid>, f: seq<Txn>, s: State, base: iset<Gtid>, n: nat, i: nat)
    returns (n': nat, p: nat)
    requires Distinct(f) && Harmless(f) && AllOk(f) && Follows(f, start, s, base, n, i)
    requires i < n && s.view.last == Some(f[i]) && Whole(s.seen, f[i])
    requires s.rest == ItemsAll(Missing(f[i + 1..], base)) && s.rest != []
    ensures Follows(f, start, Step(log, s, Deliver), base, n', p)
  {
    var r := Step(log, s, Deliver);
    p := NextMissing(f, i + 1, base);
    QueueHead(f[p], Missing(f[p + 1..], base), Missing(f[i + 1..], base), s.rest);
    assert r.view == OnGtid(s.view, f[p]) && r.seen == s.seen + [Begin(f[p])];
    BeginsNext(f, s, r, base, n, i + 1, p);
    n' := if p == n then n + 1 else n;
    NewlyRecorded(f, s, r, base, n, i, p);
    StillPending(f, base, s.view.prev, r.view.prev, i, p);
    KeptNext(f, s, r, base, n, i, p);
    SendingNext(f, r, base, n', p, s.seen);
  }

  /** A transaction that is sent again, directly followed by a plain one, had lost its tag before. */
  lemma LostBefore(f: seq<Txn>, s: State, base: iset<Gtid>, n: nat, i: nat, p: nat)
    requires Distinct(f) && Recorded(f, s) && Begins(f, s, n) && Kept(f, s.view.prev, n) && base <= s.view.prev
    requires i < p < |f| && (forall k :: i + 1 <= k < p ==> f[k].gtid in base)
    requires f[i].gtid !in base && Pending(f, base, s.view.prev, i) && f[i].gtid.tag != NO_TAG && f[p].plain
    ensures LosesTag(f, i)
  {
    if p > i + 1 {
      assert Whole(s.seen, f[i + 1]);
      WholeIsBegun(s.seen, f[i + 1]);
      assert i + 1 < n;
    }
  }

  lemma NewlyRecorded(f: seq<Txn>, s: State, r: State, base: iset<Gtid>, n: nat, i: nat, p: nat)
    requires Distinct(f) && Harmless(f) && AllOk(f)
    requires Recorded(f, s) && Begins(f, s, n) && Kept(f, s.view.prev, n) && base <= s.view.prev
    requires i < p < |f| && i < n && (forall k :: i + 1 <= k < p ==> f[k].gtid in base)
    requires f[i].gtid !in base && Pending(f, base, s.view.prev, i) && Whole(s.seen, f[i])
    requires s.view.last == Some(f[i]) && r.view == OnGtid(s.view, f[p]) && r.seen == s.seen + [Begin(f[p])]
    ensures Recorded(f, r)
  {
    forall k | 0 <= k < |f| && f[k].gtid in r.view.prev ensures Whole(r.seen, f[k]) {
      var g := GtidResume.Recorded(f[i], f[p]);
      if f[k].gtid != g {
        WholeGrows(s.seen, Begin(f[p]), f[k]);
      } else if g == f[i].gtid {
        SameGtid(f, i, k);
        WholeGrows(s.seen, Begin(f[p]), f[k]);
      } else {
        NamedIsWhole(f, s, base, n, i, p, k);
        if Whole(s.seen, f[k]) { WholeGrows(s.seen, Begin(f[p]), f[k]); } else { OnlyItsBegin(s.seen, f[k]); }
      }
    }
  }

  lemma SameGtid(f: seq<Txn>, i: nat, k: nat)
    requires Distinct(f) && i < |f| && k < |f| && f[i].gtid == f[k].gtid
    ensures i == k
  {
    if i < k { DistinctAt(f, i, k); }
    if k < i { DistinctAt(f, k, i); }
  }

  /** A transaction that a lost tag names was received whole, or is about to be. */
  lemma NamedIsWhole(f: seq<Txn>, s: State, base: iset<Gtid>, n: nat, i: nat, p: nat, k: nat)
    requires Distinct(f) && Harmless(f)
    requires Recorded(f, s) && Begins(f, s, n) && Kept(f, s.view.prev, n) && base <= s.view.prev
    requires i < p < |f| && i < n && (forall j :: i + 1 <= j < p ==> f[j].gtid in base)
    requires f[i].gtid !in base && Pending(f, base, s.view.prev, i) && f[i].gtid.tag != NO_TAG && f[p].plain
    requires k < |f| && f[k].gtid == Untagged(f[i])
    ensures Whole(s.seen, f[k]) || (k == p && f[k].size == 0)
  {
    LostBefore(f, s, base, n, i, p);
    if i < k {
      ReceivedAlready(f, i, k);
      if k < p { assert f[k].gtid in s.view.prev; }
    } else {
      assert k < n - 1;
    }
  }

  lemma ReceivedAlready(f: seq<Txn>, i: nat, k: nat)
    requires Harmless(f) && i < k < |f| && LosesTag(f, i) && f[k].gtid == Untagged(f[i])
    ensures k == i + 1 && f[k].size == 0
  {
    assert !Names(f, i, k);
  }

  lemma OnlyItsBegin(seen: seq<Item>, t: Txn)
    requires t.size == 0
    ensures Whole(seen + [Begin(t)], t)
  {
    assert ItemsOf(t) == [Begin(t)];
    ConcatEmpty(seen + [Begin(t)]);
    assert WholeAt(seen + [Begin(t)], t, seen, []);
  }

  lemma StillPending(f: seq<Txn>, base: iset<Gtid>, prev: iset<Gtid>, now: iset<Gtid>, i: nat, p: nat)
    requires Distinct(f) && i < p < |f| && Pending(f, base, prev, i)
      && now == prev + iset{GtidResume.Recorded(f[i], f[p])}
    ensures Pending(f, base, now, p)
  {
    forall k | p <= k < |f| && f[k].gtid !in base && f[k].gtid.tag != NO_TAG
      ensures f[k].gtid !in now { DistinctAt(f, i, k); }
  }

  lemma KeptNext(f: seq<Txn>, s: State, r: State, base: iset<Gtid>, n: nat, i: nat, p: nat)
    requires n <= |f| && AllOk(f) && Kept(f, s.view.prev, n) && base <= s.view.prev && i < p <= n && p < |f|
    requires forall k :: i + 1 <= k < p ==> f[k].gtid in base
    requires s.view.last == Some(f[i]) && r.view == OnGtid(s.view, f[p])
    ensures Kept(f, r.view.prev, if p == n then n + 1 else n)
  {
    if p == i + 1 && f[p].plain && f[i].gtid.tag == NO_TAG { assert GtidResume.Recorded(f[i], f[p]) == f[i].gtid; }
  }

  lemma FollowsDeliver(log: seq<Txn>, start: iset<Gtid>, f: seq<Txn>, s: State, base: iset<Gtid>, n: nat, i: nat)
    returns (n': nat, i': nat)
    requires Distinct(f) && Harmless(f) && AllOk(f) && Follows(f, start, s, base, n, i)
    ensures Follows(f, start, Step(log, s, Deliver), base, n', i')
  {
    n', i' := n, i;
    if s.rest == [] {
    } else if s.view.last.None? {
      n', i' := FollowsFirst(log, start, f, s, base, n);
    } else {
      var more := Missing(f[i + 1..], base);
      var a, p, q :| Split3(s, f[i], more, a, p, q);
      if q != [] {
        FollowsBody(log, start, f, s, base, n, i, a, p, q);
      } else {
        ReceivedWhole(s, f[i], more, a, p);
        n', i' := FollowsNext(log, start, f, s, base, n, i);
      }
    }
  }

  lemma {:induction false} RunFollows(log: seq<Txn>, start: iset<Gtid>, f: seq<Txn>, s: State, base: iset<Gtid>,
                                      n: nat, i: nat, acts: seq<Action>) returns (base': iset<Gtid>, n': nat, i': nat)
    requires f == Missing(log, start) && Distinct(f) && Harmless(f) && AllOk(f) && Follows(f, start, s, base, n, i)
    ensures Follows(f, start, Exec(log, s, acts), base', n', i')
    decreases |acts|
  {
    base', n', i' := base, n, i;
    if acts != [] {
      if acts[0].Deliver? {
        n', i' := FollowsDeliver(log, start, f, s, base, n, i);
      } else {
        FollowsReconnect(log, start, f, s, base, n, i);
        base', i' := s.view.prev, 0;
      }
      base', n', i' := RunFollows(log, start, f, Step(log, s, acts[0]), base', n', i', acts[1..]);
    }
  }

  lemma FollowsFinished(f: seq<Txn>, start: iset<Gtid>, s: State, base: iset<Gtid>, n: nat, i: nat)
    requires Follows(f, start, s, base, n, i)
    ensures Finished(f, s)
  {
    if s.rest == [] {
      if s.view.last.None? {
        assert f[0..] == f;
        NoItems(Missing(f, base));
        NoneMissing(f, 0, base);
      } else {
        var more := Missing(f[i + 1..], base);
        var a, p, q :| Split3(s, f[i], more, a, p, q);
        ReceivedWhole(s, f[i], more, a, p);
        NoItems(more);
        NoneMissing(f, i + 1, base);
      }
    }
  }

  lemma NoItems(ts: seq<Txn>)
    ensures ItemsAll(ts) == [] <==> ts == []
  {
  }

  // ----- nothing is lost -----

  /** No continuation, however long, receives t whole. */
  ghost predicate LostForGood(log: seq<Txn>, s: State, t: Txn) { forall acts :: !Whole(Exec(log, s, acts).seen, t) }

  function Delivers(n: nat): (acts: seq<Action>) { if n == 0 then [] else [Deliver] + Delivers(n - 1) }

  lemma {:induction false} DeliverAll(log: seq<Txn>, s: State)
    ensures Exec(log, s, Delivers(|s.rest|)).rest == []
    decreases |s.rest|
  {
    if s.rest != [] {
      var acts := Delivers(|s.rest|);
      assert acts[1..] == Delivers(|s.rest| - 1);
      DeliverAll(log, Step(log, s, Deliver));
    }
  }

  /** While no lost tag names a transaction, every transaction is received whole by the time a stream is drained. */
  lemma HarmlessRunsFinish(log: seq<Txn>, start: iset<Gtid>, acts: seq<Action>)
    requires Distinct(log) && AllOk(Missing(log, start)) && Harmless(Missing(log, start))
    ensures Finished(Missing(log, start), Exec(log, Init(log, start), acts))
  {
    var f, init := Missing(log, start), Init(log, start);
    MissingIsDistinct(log, start);
    FollowsFromStart(log, start, f);
    var base, n, i := RunFollows(log, start, f, init, start, 0, 0, acts);
    FollowsFinished(f, start, Exec(log, init, acts), base, n, i);
  }

  lemma NothingLost(log: seq<Txn>, start: iset<Gtid>, acts: seq<Action>, j: nat)
    requires Distinct(log) && AllOk(Missing(log, start)) && Harmless(Missing(log, start)) && j < |Missing(log, start)|
    ensures !LostForGood(log, Exec(log, Init(log, start), acts), Missing(log, start)[j])
  {
    var s := Exec(log, Init(log, start), acts);
    var more := Delivers(|s.rest|);
    DeliverAll(log, s);
    ExecSum(log, Init(log, start), acts, more);
    HarmlessRunsFinish(log, start, acts + more);
    assert Whole(Exec(log, s, more).seen, Missing(log, start)[j]);
  }

  // ----- a transaction is lost -----

  /** What prevGset gains up to Begin(f[m]) on one connection. */
  ghost function Records(f: seq<Txn>, m: nat): (gs: iset<Gtid>)
    requires m < |f|
  {
    if m == 0 then iset{} else Records(f, m - 1) + iset{GtidResume.Recorded(f[m - 1], f[m])}
  }

  /** Everything up to Begin(f[m]) on the first connection. */
  ghost predicate Straight(f: seq<Txn>, start: iset<Gtid>, s: State, m: nat) {
    && m < |f| && s.view.last == Some(f[m]) && s.seen == ItemsAll(f[..m]) + [Begin(f[m])]
    && s.rest == BodiesFrom(f[m], 0) + ItemsAll(f[m + 1..])
    && s.view.prev == start + Records(f, m)
  }

  lemma {:induction false} DeliverBodies(log: seq<Txn>, s: State, t: Txn, k: nat, more: seq<Item>)
    returns (acts: seq<Action>)
    requires s.rest == BodiesFrom(t, k) + more
    ensures Exec(log, s, acts) == State(s.view, more, s.seen + BodiesFrom(t, k))
    decreases t.size - k
  {
    acts := [];
    if k >= t.size {
      assert [] + more == more;
      ConcatEmpty(s.seen);
    } else {
      var rest := BodiesFrom(t, k + 1);
      ConcatAssoc([Body(t, k)], rest, more);
      var r := Step(log, s, Deliver);
      assert s.rest[0] == Body(t, k) && s.rest[1..] == rest + more;
      var acts' := DeliverBodies(log, r, t, k + 1, more);
      ConcatAssoc(s.seen, [Body(t, k)], rest);
      acts := [Deliver] + acts';
      assert acts[1..] == acts';
    }
  }

  lemma {:induction false} ItemsAllSum(a: seq<Txn>, b: seq<Txn>)
    ensures ItemsAll(a + b) == ItemsAll(a) + ItemsAll(b)
  {
    if a == [] {
      assert a + b == b;
    } else {
      ItemsAllSum(a[1..], b);
      DropConcat(a, b, 1);
      ConcatAssoc(ItemsOf(a[0]), ItemsAll(a[1..]), ItemsAll(b));
    }
  }

  lemma StraightStep(log: seq<Txn>, start: iset<Gtid>, f: seq<Txn>, s: State, r: State, m: nat)
    requires Straight(f, start, s, m) && m + 1 < |f|
    requires r == State(s.view, ItemsAll(f[m + 1..]), s.seen + BodiesFrom(f[m], 0))
    ensures Straight(f, start, Step(log, r, Deliver), m + 1)
  {
    var u := f[m + 1];
    NextInQueue(f, m + 1, r.rest);
    assert f[..m + 1] == f[..m] + [f[m]];
    ItemsAllSum(f[..m], [f[m]]);
    assert [f[m]][1..] == [];
    ConcatEmpty(ItemsOf(f[m]));
    ConcatAssoc(ItemsAll(f[..m]), [Begin(f[m])], BodiesFrom(f[m], 0));
    assert r.seen == ItemsAll(f[..m + 1]);
  }

  lemma {:induction false} GoStraight(log: seq<Txn>, start: iset<Gtid>, f: seq<Txn>, m: nat) returns (acts: seq<Action>)
    requires f == Missing(log, start) && m < |f|
    ensures Straight(f, start, Exec(log, Init(log, start), acts), m)
    decreases m
  {
    var init := Init(log, start);
    if m == 0 {
      assert f[0..] == f && f[..0] == [];
      NextInQueue(f, 0, init.rest);
      acts := [Deliver];
      ExecOne(log, init, Deliver);
    } else {
      var before := GoStraight(log, start, f, m - 1);
      var s := Exec(log, init, before);
      var bodies := DeliverBodies(log, s, f[m - 1], 0, ItemsAll(f[m..]));
      var r := Exec(log, s, bodies);
      StraightStep(log, start, f, s, r, m - 1);
      ExecSum(log, init, before, bodies);
      ExecSum(log, init, before + bodies, [Deliver]);
      ExecOne(log, r, Deliver);
      acts := before + bodies + [Deliver];
    }
  }

  /** The event of t that is never seen again, and nothing of t is on its way. */
  ghost predicate Withheld(s: State, t: Txn, item: Item) {
    t.gtid in s.view.prev && item.t == t && item !in s.seen && forall x :: x in s.rest ==> x.t != t
  }

  lemma {:induction false} ItemsNot(ts: seq<Txn>, t: Txn)
    requires t !in ts
    ensures forall x :: x in ItemsAll(ts) ==> x.t != t
  {
    if ts != [] {
      ItemsNot(ts[1..], t);
      assert ts[0] in ts;
      forall x | x in ItemsOf(ts[0]) ensures x.t == ts[0] { ItsItems(ts[0], 0, x); }
    }
  }

  lemma {:induction false} ItsItems(t: Txn, k: nat, x: Item)
    requires x in BodiesFrom(t, k) || x == Begin(t)
    ensures x.t == t
    decreases t.size - k
  {
    if x in BodiesFrom(t, k) && x != Body(t, k) { ItsItems(t, k + 1, x); }
  }

  lemma {:induction false} StaysWithheld(log: seq<Txn>, s: State, t: Txn, item: Item, acts: seq<Action>)
    requires Withheld(s, t, item)
    ensures Withheld(Exec(log, s, acts), t, item)
    decreases |acts|
  {
    if acts != [] {
      var r := Step(log, s, acts[0]);
      if acts[0].Reconnect? {
        WithheldOnConnect(log, s, t, item);
      } else if s.rest != [] {
        assert s.rest[0] in s.rest;
      }
      StaysWithheld(log, r, t, item, acts[1..]);
    }
  }

  lemma WithheldOnConnect(log: seq<Txn>, s: State, t: Txn, item: Item)
    requires t.gtid in s.view.prev && item.t == t && item !in s.seen
    ensures Withheld(Step(log, s, Reconnect), t, item)
  {
    var ts := Missing(log, s.view.prev);
    MissingIsFromLog(log, s.view.prev, t);
    ItemsNot(ts, t);
  }

  lemma WithheldIsLost(log: seq<Txn>, s: State, t: Txn, item: Item)
    requires Withheld(s, t, item) && item in ItemsOf(t)
    ensures LostForGood(log, s, t)
  {
    forall acts ensures !Whole(Exec(log, s, acts).seen, t) {
      StaysWithheld(log, s, t, item, acts);
      WholeHasAll(Exec(log, s, acts).seen, t, item);
    }
  }

  lemma WholeHasAll(seen: seq<Item>, t: Txn, item: Item)
    requires item in ItemsOf(t)
    ensures Whole(seen, t) ==> item in seen
  {
    if Whole(seen, t) {
      var a, b :| WholeAt(seen, t, a, b);
      assert item in a + ItemsOf(t) + b;
    }
  }

  /** Which event of f[j] was not seen when f[i + 1] has just begun. */
  lemma NotSeen(f: seq<Txn>, start: iset<Gtid>, s: State, i: nat, j: nat) returns (item: Item)
    requires Distinct(f) && Names(f, i, j) && Straight(f, start, s, i + 1)
    ensures item.t == f[j] && item in ItemsOf(f[j]) && item !in s.seen
  {
    if j > i + 1 {
      item := Begin(f[j]);
      NotBefore(f, i + 1, j);
      DistinctAt(f, i + 1, j);
    } else {
      item := Body(f[j], 0);
      NotBefore(f, i + 1, j);
      assert BodiesFrom(f[j], 0)[0] == item;
    }
    ItemsNot(f[..i + 1], f[j]);
  }

  lemma NamedIsLost(log: seq<Txn>, start: iset<Gtid>, f: seq<Txn>, i: nat, j: nat) returns (acts: seq<Action>)
    requires f == Missing(log, start) && Distinct(f) && Names(f, i, j)
    ensures LostForGood(log, Exec(log, Init(log, start), acts), f[j])
  {
    var init := Init(log, start);
    var run := GoStraight(log, start, f, i + 1);
    var s := Exec(log, init, run);
    var item := NotSeen(f, start, s, i, j);
    assert GtidResume.Recorded(f[i], f[i + 1]) == f[j].gtid;
    WithheldOnConnect(log, s, f[j], item);
    WithheldIsLost(log, Step(log, s, Reconnect), f[j], item);
    ExecSum(log, init, run, [Reconnect]);
    ExecOne(log, s, Reconnect);
    acts := run + [Reconnect];
  }

  /** Some run loses transaction j of f. */
  ghost predicate CanLose(log: seq<Txn>, start: iset<Gtid>, j: nat)
    requires j < |Missing(log, start)|
  {
    exists acts :: LostForGood(log, Exec(log, Init(log, start), acts), Missing(log, start)[j])
  }

  /**
   Some run loses a transaction for good exactly when a tag is lost and the GTID
   without it is that of a transaction not yet received whole.
   */
  lemma LosesExactlyWhenNamed(log: seq<Txn>, start: iset<Gtid>)
    requires Distinct(log) && AllOk(Missing(log, start))
    ensures (exists j :: 0 <= j < |Missing(log, start)| && CanLose(log, start, j)) <==> !Harmless(Missing(log, start))
  {
    var f := Missing(log, start);
    MissingIsDistinct(log, start);
    if Harmless(f) {
      forall j | 0 <= j < |f| ensures !CanLose(log, start, j) {
        forall acts ensures !LostForGood(log, Exec(log, Init(log, start), acts), f[j]) {
          NothingLost(log, start, acts, j);
        }
      }
    } else {
      var i, j :| 0 <= i < j < |f| && Names(f, i, j);
      var acts := NamedIsLost(log, start, f, i, j);
      assert CanLose(log, start, j);
    }
  }
}
