/**
 How BinlogSyncer (replication/binlogsyncer.go) resumes after a lost
 connection: a server that sends the transactions of its log which are not in
 the requested GTID set, and a client that tracks in prevGset the transactions
 it has received whole. Connections may be lost after any event.
 */
module GtidResume {
  import opened Bytes
  import opened GtidSet
  import opened Intervals
  import opened Lists

  datatype Gtid = Gtid(uuid: Uuid, tag: Tag, gno: int)

  /** A transaction of the log: a plain GTID event or a tagged one, and so many further events. */
  datatype Txn = Txn(gtid: Gtid, plain: bool, size: nat)

  datatype Item = Begin(t: Txn) | Body(t: Txn, k: nat)

  /** Plain GTID events have no tag to carry. */
  predicate TxnOk(t: Txn) { (t.plain ==> t.gtid.tag == NO_TAG) && t.gtid.gno < MAX_INT64 }

  function BodiesFrom(t: Txn, k: nat): (r: seq<Item>)
    decreases t.size - k
  {
    if k >= t.size then [] else [Body(t, k)] + BodiesFrom(t, k + 1)
  }

  function ItemsOf(t: Txn): (r: seq<Item>) { [Begin(t)] + BodiesFrom(t, 0) }

  function ItemsAll(ts: seq<Txn>): (r: seq<Item>) {
    if ts == [] then [] else ItemsOf(ts[0]) + ItemsAll(ts[1..])
  }

  // ----- the client's GTID bookkeeping -----

  /** prevGset, currGset and prevMySQLGTIDEvent. */
  datatype View = View(prev: iset<Gtid>, curr: Option<iset<Gtid>>, last: Option<Txn>)

  /** What a GTID event adds to prevGset for the one before it: a plain event ignores the tag. */
  function Recorded(last: Txn, t: Txn): (g: Gtid) {
    if t.plain then Gtid(last.gtid.uuid, NO_TAG, last.gtid.gno) else last.gtid
  }

  /** handleEventAndACK on a GTID event. */
  ghost function OnGtid(v: View, t: Txn): (w: View) {
    var curr := if v.curr.None? then v.prev else v.curr.value;
    View(if v.last.None? then v.prev else v.prev + iset{Recorded(v.last.value, t)}, Some(curr + iset{t.gtid}), Some(t))
  }

  /** retrySync: only prevGset survives. */
  ghost function OnRetry(v: View): (w: View) { View(v.prev, None, None) }

  // ----- the system -----

  /** The client, what the server will still send on this connection, and all that was received. */
  datatype State = State(view: View, rest: seq<Item>, seen: seq<Item>)

  datatype Action = Deliver | Reconnect

  /** What a server sends to a client that asks with `have`. */
  ghost function Missing(log: seq<Txn>, have: iset<Gtid>): (ts: seq<Txn>) {
    if log == [] then []
    else (if log[0].gtid in have then [] else [log[0]]) + Missing(log[1..], have)
  }

  ghost function Connect(log: seq<Txn>, v: View, seen: seq<Item>): (s: State) {
    State(v, ItemsAll(Missing(log, v.prev)), seen)
  }

  ghost function Init(log: seq<Txn>, start: iset<Gtid>): (s: State) { Connect(log, View(start, None, None), []) }

  ghost function Step(log: seq<Txn>, s: State, a: Action): (r: State) {
    match a
    case Reconnect => Connect(log, OnRetry(s.view), s.seen)
    case Deliver =>
      if s.rest == [] then s
      else
        var item := s.rest[0];
        State(if item.Begin? then OnGtid(s.view, item.t) else s.view, s.rest[1..], s.seen + [item])
  }

  /** A whole run, with connections lost wherever its actions say. */
  ghost function Exec(log: seq<Txn>, s: State, acts: seq<Action>): (r: State)
    decreases |acts|
  {
    if acts == [] then s else Exec(log, Step(log, s, acts[0]), acts[1..])
  }

  // ----- what must hold -----

  ghost predicate WholeAt(seen: seq<Item>, t: Txn, a: seq<Item>, b: seq<Item>) { seen == a + ItemsOf(t) + b }

  /** All events of t were received, in order, on one connection. */
  ghost predicate Whole(seen: seq<Item>, t: Txn) {
    exists a, b :: WholeAt(seen, t, a, b)
  }

  predicate Begun(seen: seq<Item>, t: Txn) { Begin(t) in seen }

  /** The most recently begun transaction. */
  function LastBegun(seen: seq<Item>): (r: Option<Txn>) {
    if seen == [] then None
    else if seen[|seen| - 1].Begin? then Some(seen[|seen| - 1].t)
    else LastBegun(seen[..|seen| - 1])
  }

  /** Every GTID that prevGset gained belongs to a transaction that was received whole. */
  ghost predicate Earned(f: seq<Txn>, start: iset<Gtid>, s: State) {
    && start <= s.view.prev
    && forall g :: g in s.view.prev && g !in start ==>
        exists i :: 0 <= i < |f| && f[i].gtid == g && Whole(s.seen, f[i])
  }

  /** A transaction is begun only when all before it in the log were received whole. */
  ghost predicate NothingSkipped(f: seq<Txn>, s: State) {
    forall i, j :: 0 <= i < j < |f| && Begun(s.seen, f[j]) ==> Whole(s.seen, f[i])
  }

  /** A connection made now would repeat no transaction but the last one begun. */
  ghost predicate RepeatsOnlyLast(log: seq<Txn>, s: State) {
    forall t :: t in Missing(log, s.view.prev) && Begun(s.seen, t) ==> LastBegun(s.seen) == Some(t)
  }

  ghost predicate CurrentIsOneAhead(v: View) {
    v.curr.Some? ==> v.last.Some? && v.curr.value == v.prev + iset{v.last.value.gtid}
  }

  ghost predicate Finished(f: seq<Txn>, s: State) {
    s.rest == [] ==> forall i :: 0 <= i < |f| ==> Whole(s.seen, f[i])
  }

  ghost predicate Safe(log: seq<Txn>, start: iset<Gtid>, s: State) {
    var f := Missing(log, start);
    Earned(f, start, s) && NothingSkipped(f, s) && RepeatsOnlyLast(log, s) && CurrentIsOneAhead(s.view)
      && Finished(f, s)
  }

  // ----- the invariant -----

  predicate Distinct(log: seq<Txn>) {
    log == [] || ((forall t :: t in log[1..] ==> t.gtid != log[0].gtid) && Distinct(log[1..]))
  }

  ghost function GtidsOf(ts: seq<Txn>): (gs: iset<Gtid>) { iset t | t in ts :: t.gtid }

  /** The tag of transaction i is lost when a plain event comes next. */
  predicate LosesTag(f: seq<Txn>, i: nat)
    requires i + 1 < |f|
  {
    f[i].gtid.tag != NO_TAG && f[i + 1].plain
  }

  /** No tagged transaction is directly followed by a plain one. */
  ghost predicate KeepsTags(f: seq<Txn>) { forall i :: 0 <= i < |f| - 1 ==> !LosesTag(f, i) }

  /** n transactions of f are behind us, and the events still to come are the rest of f. */
  ghost predicate Tracks(f: seq<Txn>, start: iset<Gtid>, s: State, n: nat) {
    && n <= |f| && s.view.prev == start + GtidsOf(f[..n])
    && (forall i :: 0 <= i < n ==> Whole(s.seen, f[i]))
    && (forall t :: Begun(s.seen, t) ==> t in f[..n] || LastBegun(s.seen) == Some(t))
    && (LastBegun(s.seen).Some? && LastBegun(s.seen).value !in f[..n] ==> n < |f| && LastBegun(s.seen) == Some(f[n]))
    && (match s.view.last
        case None => s.view.curr == None && s.rest == ItemsAll(f[n..])
        case Some(t) =>
          && n < |f| && t == f[n] && s.view.curr == Some(s.view.prev + iset{t.gtid})
          && LastBegun(s.seen) == Some(t)
          && UnderWay(s, t, f[n + 1..]))
  }

  ghost predicate Split3(s: State, t: Txn, more: seq<Txn>, a: seq<Item>, p: seq<Item>, q: seq<Item>) {
    p != [] && s.seen == a + p && p + q == ItemsOf(t) && s.rest == q + ItemsAll(more)
  }

  /** Transaction t is partly received: some of its events at the end of what was seen, the others next to come. */
  ghost predicate UnderWay(s: State, t: Txn, more: seq<Txn>) {
    exists a, p, q :: Split3(s, t, more, a, p, q)
  }

  // ----- facts about logs -----

  lemma {:induction false} MissingIsFromLog(log: seq<Txn>, have: iset<Gtid>, t: Txn)
    ensures t in Missing(log, have) <==> t in log && t.gtid !in have
  {
    if log != [] {
      HeadTail(log);
      MissingIsFromLog(log[1..], have, t);
    }
  }

  lemma {:induction false} MissingIsDistinct(log: seq<Txn>, have: iset<Gtid>)
    requires Distinct(log)
    ensures Distinct(Missing(log, have))
  {
    if log != [] {
      MissingIsDistinct(log[1..], have);
      var rest := Missing(log[1..], have);
      assert ([log[0]] + rest)[1..] == rest && [] + rest == rest;
      forall t | t in rest ensures t.gtid != log[0].gtid { MissingIsFromLog(log[1..], have, t); }
    }
  }

  lemma {:induction false} MissingTwice(log: seq<Txn>, a: iset<Gtid>, b: iset<Gtid>)
    ensures Missing(log, a + b) == Missing(Missing(log, a), b)
  {
    if log != [] {
      MissingTwice(log[1..], a, b);
      var rest := Missing(log[1..], a);
      assert ([log[0]] + rest)[1..] == rest && [] + rest == rest;
      assert [] + Missing(rest, b) == Missing(rest, b);
    }
  }

  lemma {:induction false} Irrelevant(ts: seq<Txn>, a: iset<Gtid>, b: iset<Gtid>)
    requires forall t :: t in ts ==> (t.gtid in a <==> t.gtid in b)
    ensures Missing(ts, a) == Missing(ts, b)
  {
    if ts != [] {
      assert ts[0] in ts;
      Irrelevant(ts[1..], a, b);
    }
  }

  lemma {:induction false} NothingMissing(ts: seq<Txn>, have: iset<Gtid>)
    requires forall t :: t in ts ==> t.gtid !in have
    ensures Missing(ts, have) == ts
  {
    if ts != [] {
      assert ts[0] in ts;
      NothingMissing(ts[1..], have);
      HeadTail(ts);
    }
  }

  lemma {:induction false} DropDone(f: seq<Txn>, n: nat)
    requires Distinct(f) && n <= |f|
    ensures Missing(f, GtidsOf(f[..n])) == f[n..]
    decreases |f|
  {
    if n == 0 {
      NothingMissing(f, GtidsOf(f[..0]));
      assert f[0..] == f;
    } else {
      DropDone(f[1..], n - 1);
      assert f[0] in f[..n];
      forall t | t in f[1..] ensures t.gtid in GtidsOf(f[..n]) <==> t.gtid in GtidsOf(f[1..][..n - 1]) {
        DoneOfTail(f, n, t.gtid);
      }
      Irrelevant(f[1..], GtidsOf(f[..n]), GtidsOf(f[1..][..n - 1]));
      assert [] + Missing(f[1..], GtidsOf(f[..n])) == Missing(f[1..], GtidsOf(f[..n]));
      assert f[1..][n - 1..] == f[n..];
    }
  }

  lemma DoneOfTail(f: seq<Txn>, n: nat, g: Gtid)
    requires 0 < n <= |f| && g != f[0].gtid
    ensures g in GtidsOf(f[..n]) <==> g in GtidsOf(f[1..][..n - 1])
  {
    var rest := f[1..][..n - 1];
    assert f[..n] == [f[0]] + rest;
    if g in GtidsOf(f[..n]) {
      var t :| t in f[..n] && t.gtid == g;
      assert t in rest;
    }
    if g in GtidsOf(rest) {
      var t :| t in rest && t.gtid == g;
      assert t in f[..n];
    }
  }

  /** What is missing after n transactions: the others. */
  lemma MissingAfter(log: seq<Txn>, start: iset<Gtid>, f: seq<Txn>, n: nat)
    requires Distinct(log) && f == Missing(log, start) && n <= |f|
    ensures Distinct(f) && Missing(log, start + GtidsOf(f[..n])) == f[n..]
  {
    MissingIsDistinct(log, start);
    MissingTwice(log, start, GtidsOf(f[..n]));
    DropDone(f, n);
  }

  lemma {:induction false} DistinctAt(f: seq<Txn>, i: nat, j: nat)
    requires Distinct(f) && i < j < |f|
    ensures f[i].gtid != f[j].gtid
    decreases |f|
  {
    if i == 0 {
      assert f[j] == f[1..][j - 1];
    } else {
      DistinctAt(f[1..], i - 1, j - 1);
    }
  }

  lemma NotBefore(f: seq<Txn>, n: nat, j: nat)
    requires Distinct(f) && n <= j < |f|
    ensures f[j] !in f[..n]
  {
    if f[j] in f[..n] {
      var i :| 0 <= i < n && f[..n][i] == f[j];
      DistinctAt(f, i, j);
    }
  }

  lemma OneMoreDone(f: seq<Txn>, n: nat)
    requires n < |f|
    ensures GtidsOf(f[..n + 1]) == GtidsOf(f[..n]) + iset{f[n].gtid}
  {
    assert f[..n + 1] == f[..n] + [f[n]];
    forall g ensures g in GtidsOf(f[..n + 1]) <==> g in GtidsOf(f[..n]) + iset{f[n].gtid} {
      if g in GtidsOf(f[..n + 1]) {
        var t :| t in f[..n + 1] && t.gtid == g;
        assert t in f[..n] || t == f[n];
      }
      if g in GtidsOf(f[..n]) {
        var t :| t in f[..n] && t.gtid == g;
        assert t in f[..n + 1];
      }
      assert f[n] in f[..n + 1];
    }
  }

  // ----- facts about what was seen -----

  lemma WholeGrows(seen: seq<Item>, item: Item, t: Txn)
    requires Whole(seen, t)
    ensures Whole(seen + [item], t)
  {
    var a, b :| WholeAt(seen, t, a, b);
    ConcatAssoc(a + ItemsOf(t), b, [item]);
    assert WholeAt(seen + [item], t, a, b + [item]);
  }

  lemma LastBegunStep(seen: seq<Item>, item: Item)
    ensures LastBegun(seen + [item]) == if item.Begin? then Some(item.t) else LastBegun(seen)
    ensures forall t :: Begun(seen + [item], t) <==> Begun(seen, t) || item == Begin(t)
  {
    LastOfAppend(seen, item, item);
  }

  lemma {:induction false} BodiesAreBodies(t: Txn, k: nat, i: nat)
    requires i < |BodiesFrom(t, k)|
    ensures BodiesFrom(t, k)[i].Body?
    decreases t.size - k
  {
    if i > 0 { BodiesAreBodies(t, k + 1, i - 1); }
  }

  lemma RestIsBody(t: Txn, p: seq<Item>, q: seq<Item>)
    requires p != [] && p + q == ItemsOf(t) && q != []
    ensures q[0].Body?
  {
    assert q[0] == (p + q)[|p|];
    assert ItemsOf(t)[|p|] == BodiesFrom(t, 0)[|p| - 1];
    BodiesAreBodies(t, 0, |p| - 1);
  }

  // ----- every step keeps track -----

  lemma Starts(log: seq<Txn>, start: iset<Gtid>)
    requires Distinct(log)
    ensures Tracks(Missing(log, start), start, Init(log, start), 0)
  {
    var f := Missing(log, start);
    assert f[..0] == [] && f[0..] == f;
    assert start + GtidsOf(f[..0]) == start;
  }

  lemma ReconnectTracks(log: seq<Txn>, start: iset<Gtid>, f: seq<Txn>, s: State, n: nat)
    requires Distinct(log) && f == Missing(log, start) && Tracks(f, start, s, n)
    ensures Tracks(f, start, Step(log, s, Reconnect), n)
  {
    MissingAfter(log, start, f, n);
  }

  lemma FirstEvent(log: seq<Txn>, start: iset<Gtid>, f: seq<Txn>, s: State, n: nat)
    requires Tracks(f, start, s, n) && s.view.last.None? && n < |f|
    ensures Tracks(f, start, Step(log, s, Deliver), n) && Step(log, s, Deliver).view.last == Some(f[n])
  {
    var r := Step(log, s, Deliver);
    NextInQueue(f, n, s.rest);
    LastBegunStep(s.seen, Begin(f[n]));
    forall i | 0 <= i < n ensures Whole(r.seen, f[i]) { WholeGrows(s.seen, Begin(f[n]), f[i]); }
    MakeTracks(f, start, r, n, s.seen);
  }

  lemma BodyEvent(log: seq<Txn>, start: iset<Gtid>, f: seq<Txn>, s: State, n: nat, a: seq<Item>, p: seq<Item>,
                  q: seq<Item>)
    requires Tracks(f, start, s, n) && s.view.last.Some? && Split3(s, f[n], f[n + 1..], a, p, q) && q != []
    ensures Tracks(f, start, Step(log, s, Deliver), n)
    ensures Split3(Step(log, s, Deliver), f[n], f[n + 1..], a, p + [q[0]], q[1..])
    ensures Step(log, s, Deliver).view == s.view
  {
    var r := Step(log, s, Deliver);
    BodySplit(s, f[n], f[n + 1..], a, p, q, r.seen, r.rest);
    assert Split3(r, f[n], f[n + 1..], a, p + [q[0]], q[1..]);
    BodyTracks(f, start, s, n, r, q[0]);
  }

  lemma BodyTracks(f: seq<Txn>, start: iset<Gtid>, s: State, n: nat, r: State, item: Item)
    requires Tracks(f, start, s, n) && s.view.last.Some? && item.Body?
    requires r.view == s.view && r.seen == s.seen + [item] && UnderWay(r, f[n], f[n + 1..])
    ensures Tracks(f, start, r, n)
  {
    LastBegunStep(s.seen, item);
    forall i | 0 <= i < n ensures Whole(r.seen, f[i]) { WholeGrows(s.seen, item, f[i]); }
  }

  lemma BodySplit(s: State, t: Txn, more: seq<Txn>, a: seq<Item>, p: seq<Item>, q: seq<Item>, seen: seq<Item>,
                  rest: seq<Item>)
    requires Split3(s, t, more, a, p, q) && q != [] && s.rest != [] && seen == s.seen + [s.rest[0]]
      && rest == s.rest[1..]
    ensures s.rest[0] == q[0] && q[0].Body?
    ensures seen == a + (p + [q[0]]) && p + [q[0]] + q[1..] == ItemsOf(t) && rest == q[1..] + ItemsAll(more)
  {
    RestIsBody(t, p, q);
    ConcatAssoc(a, p, [q[0]]);
    HeadTail(q);
    ConcatAssoc(p, [q[0]], q[1..]);
    assert s.rest == q + ItemsAll(more);
    DropConcat(q, ItemsAll(more), 1);
  }

  lemma ReceivedWhole(s: State, t: Txn, more: seq<Txn>, a: seq<Item>, p: seq<Item>)
    requires Split3(s, t, more, a, p, [])
    ensures Whole(s.seen, t) && s.rest == ItemsAll(more)
  {
    ConcatEmpty(p);
    ConcatEmpty(s.seen);
    assert WholeAt(s.seen, t, a, []);
    assert [] + ItemsAll(more) == ItemsAll(more);
  }

  lemma NextEvent(log: seq<Txn>, start: iset<Gtid>, f: seq<Txn>, s: State, n: nat, a: seq<Item>, p: seq<Item>)
    requires Tracks(f, start, s, n) && s.view.last.Some? && Split3(s, f[n], f[n + 1..], a, p, []) && n + 1 < |f|
    requires TxnOk(f[n]) && !LosesTag(f, n)
    ensures Tracks(f, start, Step(log, s, Deliver), n + 1) && Step(log, s, Deliver).view.last == Some(f[n + 1])
  {
    ReceivedWhole(s, f[n], f[n + 1..], a, p);
    NextInQueue(f, n + 1, s.rest);
    NextTracks(f, start, s, n, Step(log, s, Deliver));
  }

  lemma NextTracks(f: seq<Txn>, start: iset<Gtid>, s: State, n: nat, r: State)
    requires n + 1 < |f| && TxnOk(f[n]) && !LosesTag(f, n)
    requires s.view == View(start + GtidsOf(f[..n]), Some(start + GtidsOf(f[..n]) + iset{f[n].gtid}), Some(f[n]))
    requires (forall i :: 0 <= i < n ==> Whole(s.seen, f[i])) && Whole(s.seen, f[n])
    requires LastBegun(s.seen) == Some(f[n])
      && forall t :: Begun(s.seen, t) ==> t in f[..n] || LastBegun(s.seen) == Some(t)
    requires r.view == OnGtid(s.view, f[n + 1]) && r.seen == s.seen + [Begin(f[n + 1])]
    requires r.rest == BodiesFrom(f[n + 1], 0) + ItemsAll(f[n + 2..])
    ensures Tracks(f, start, r, n + 1) && r.view.last == Some(f[n + 1])
  {
    NextView(f, start, s.view, n);
    NextBegun(f, s.seen, n, r.seen);
    forall i | 0 <= i < n + 1 ensures Whole(r.seen, f[i]) { WholeGrows(s.seen, Begin(f[n + 1]), f[i]); }
    MakeTracks(f, start, r, n + 1, s.seen);
  }

  /** The events of f from transaction n on, the first one split off. */
  lemma NextInQueue(f: seq<Txn>, n: nat, rest: seq<Item>)
    requires n < |f| && rest == ItemsAll(f[n..])
    ensures rest != [] && rest[0] == Begin(f[n]) && rest[1..] == BodiesFrom(f[n], 0) + ItemsAll(f[n + 1..])
  {
    TailStep(f, n);
    assert f[n..][1..] == f[n + 1..];
    ConcatAssoc([Begin(f[n])], BodiesFrom(f[n], 0), ItemsAll(f[n + 1..]));
  }

  lemma MakeTracks(f: seq<Txn>, start: iset<Gtid>, r: State, n: nat, a: seq<Item>)
    requires n < |f| && r.seen == a + [Begin(f[n])] && r.rest == BodiesFrom(f[n], 0) + ItemsAll(f[n + 1..])
    requires var prev := start + GtidsOf(f[..n]); r.view == View(prev, Some(prev + iset{f[n].gtid}), Some(f[n]))
    requires forall i :: 0 <= i < n ==> Whole(r.seen, f[i])
    requires LastBegun(r.seen) == Some(f[n]) && forall t :: Begun(r.seen, t) ==> t in f[..n] || t == f[n]
    ensures Tracks(f, start, r, n)
  {
    assert Split3(r, f[n], f[n + 1..], a, [Begin(f[n])], BodiesFrom(f[n], 0));
  }

  lemma NextView(f: seq<Txn>, start: iset<Gtid>, v: View, n: nat)
    requires n + 1 < |f| && TxnOk(f[n]) && !LosesTag(f, n)
    requires v == View(start + GtidsOf(f[..n]), Some(start + GtidsOf(f[..n]) + iset{f[n].gtid}), Some(f[n]))
    ensures var prev := start + GtidsOf(f[..n + 1]);
      OnGtid(v, f[n + 1]) == View(prev, Some(prev + iset{f[n + 1].gtid}), Some(f[n + 1]))
  {
    OneMoreDone(f, n);
    assert Recorded(f[n], f[n + 1]) == f[n].gtid;
    var prev := start + GtidsOf(f[..n + 1]);
    assert start + GtidsOf(f[..n]) + iset{f[n].gtid} == prev;
    assert OnGtid(v, f[n + 1]).prev == prev;
    assert OnGtid(v, f[n + 1]).curr == Some(prev + iset{f[n + 1].gtid});
  }

  lemma NextBegun(f: seq<Txn>, seen: seq<Item>, n: nat, now: seq<Item>)
    requires n + 1 < |f| && LastBegun(seen) == Some(f[n]) && now == seen + [Begin(f[n + 1])]
    requires forall t :: Begun(seen, t) ==> t in f[..n] || LastBegun(seen) == Some(t)
    ensures LastBegun(now) == Some(f[n + 1]) && forall t :: Begun(now, t) ==> t in f[..n + 1] || t == f[n + 1]
  {
    LastBegunStep(seen, Begin(f[n + 1]));
    assert f[..n + 1] == f[..n] + [f[n]];
  }

  ghost predicate AllOk(f: seq<Txn>) { forall i :: 0 <= i < |f| ==> TxnOk(f[i]) }

  lemma DeliverTracks(log: seq<Txn>, start: iset<Gtid>, f: seq<Txn>, s: State, n: nat) returns (m: nat)
    requires Tracks(f, start, s, n) && AllOk(f) && KeepsTags(f)
    ensures Tracks(f, start, Step(log, s, Deliver), m)
  {
    m := n;
    if s.rest == [] {
    } else if s.view.last.None? {
      assert |f[n..]| == |f| - n;
      FirstEvent(log, start, f, s, n);
    } else {
      m := UnderWayTracks(log, start, f, s, n);
    }
  }

  lemma UnderWayTracks(log: seq<Txn>, start: iset<Gtid>, f: seq<Txn>, s: State, n: nat) returns (m: nat)
    requires Tracks(f, start, s, n) && AllOk(f) && KeepsTags(f) && s.view.last.Some? && s.rest != []
    ensures Tracks(f, start, Step(log, s, Deliver), m)
  {
    m := n;
    var a, p, q :| Split3(s, f[n], f[n + 1..], a, p, q);
    if q != [] {
      BodyEvent(log, start, f, s, n, a, p, q);
    } else {
      NextBegins(log, start, f, s, n, a, p);
      m := n + 1;
    }
  }

  lemma NextBegins(log: seq<Txn>, start: iset<Gtid>, f: seq<Txn>, s: State, n: nat, a: seq<Item>, p: seq<Item>)
    requires Tracks(f, start, s, n) && AllOk(f) && KeepsTags(f) && s.view.last.Some? && s.rest != []
    requires n < |f| && Split3(s, f[n], f[n + 1..], a, p, [])
    ensures Tracks(f, start, Step(log, s, Deliver), n + 1)
  {
    ReceivedWhole(s, f[n], f[n + 1..], a, p);
    assert |f[n + 1..]| == |f| - n - 1;
    assert !LosesTag(f, n);
    NextEvent(log, start, f, s, n, a, p);
  }

  // ----- safety of every run -----

  lemma TracksIsSafe(log: seq<Txn>, start: iset<Gtid>, f: seq<Txn>, s: State, n: nat)
    requires Distinct(log) && f == Missing(log, start) && Tracks(f, start, s, n)
    ensures Safe(log, start, s)
  {
    MissingAfter(log, start, f, n);
    TracksEarned(f, start, s, n);
    TracksSkipNothing(f, start, s, n);
    TracksRepeatLast(log, f, start, s, n);
    if s.rest == [] { AllReceived(f, start, s, n); }
  }

  lemma TracksEarned(f: seq<Txn>, start: iset<Gtid>, s: State, n: nat)
    requires Tracks(f, start, s, n)
    ensures Earned(f, start, s)
  {
    forall g | g in s.view.prev && g !in start
      ensures exists i :: 0 <= i < |f| && f[i].gtid == g && Whole(s.seen, f[i]) {
      var t :| t in f[..n] && t.gtid == g;
      var i :| 0 <= i < n && f[..n][i] == t;
      assert f[i].gtid == g && Whole(s.seen, f[i]);
    }
  }

  lemma TracksSkipNothing(f: seq<Txn>, start: iset<Gtid>, s: State, n: nat)
    requires Distinct(f) && Tracks(f, start, s, n)
    ensures NothingSkipped(f, s)
  {
    forall i, j | 0 <= i < j < |f| && Begun(s.seen, f[j]) ensures Whole(s.seen, f[i]) {
      if j > n { BegunEarly(f, start, s, n, j); }
    }
  }

  lemma TracksRepeatLast(log: seq<Txn>, f: seq<Txn>, start: iset<Gtid>, s: State, n: nat)
    requires Distinct(f) && Tracks(f, start, s, n) && Missing(log, s.view.prev) == f[n..]
    ensures RepeatsOnlyLast(log, s)
  {
    OthersNotBefore(f, n);
  }

  lemma OthersNotBefore(f: seq<Txn>, n: nat)
    requires Distinct(f) && n <= |f|
    ensures forall t :: t in f[n..] ==> t !in f[..n]
  {
    forall t | t in f[n..] ensures t !in f[..n] {
      var j :| 0 <= j < |f[n..]| && f[n..][j] == t;
      NotBefore(f, n, n + j);
    }
  }

  /** Nothing beyond the transaction under way was begun. */
  lemma BegunEarly(f: seq<Txn>, start: iset<Gtid>, s: State, n: nat, j: nat)
    requires Distinct(f) && Tracks(f, start, s, n) && n < j < |f|
    ensures !Begun(s.seen, f[j])
  {
    NotBefore(f, n, j);
    DistinctAt(f, n, j);
  }

  lemma AllReceived(f: seq<Txn>, start: iset<Gtid>, s: State, n: nat)
    requires Tracks(f, start, s, n) && s.rest == []
    ensures forall i :: 0 <= i < |f| ==> Whole(s.seen, f[i])
  {
    if s.view.last.None? {
      assert |f[n..]| == |f| - n;
    } else {
      var a, p, q :| Split3(s, f[n], f[n + 1..], a, p, q);
      ReceivedWhole(s, f[n], f[n + 1..], a, p);
      assert |f[n + 1..]| == |f| - n - 1;
    }
  }

  lemma {:induction false} RunTracks(log: seq<Txn>, start: iset<Gtid>, f: seq<Txn>, s: State, n: nat,
                                     acts: seq<Action>) returns (m: nat)
    requires Distinct(log) && f == Missing(log, start) && AllOk(f) && KeepsTags(f) && Tracks(f, start, s, n)
    ensures Tracks(f, start, Exec(log, s, acts), m)
    decreases |acts|
  {
    m := n;
    if acts != [] {
      if acts[0].Deliver? {
        m := DeliverTracks(log, start, f, s, n);
      } else {
        ReconnectTracks(log, start, f, s, n);
      }
      m := RunTracks(log, start, f, Step(log, s, acts[0]), m, acts[1..]);
    }
  }

  /** Whatever connections are lost, every state of every run is safe, as long as no tag is lost. */
  lemma EveryRunIsSafe(log: seq<Txn>, start: iset<Gtid>, acts: seq<Action>)
    requires Distinct(log) && AllOk(Missing(log, start)) && KeepsTags(Missing(log, start))
    ensures Safe(log, start, Exec(log, Init(log, start), acts))
  {
    var f := Missing(log, start);
    Starts(log, start);
    var m := RunTracks(log, start, f, Init(log, start), 0, acts);
    TracksIsSafe(log, start, f, Exec(log, Init(log, start), acts), m);
  }

  // ----- and when a tag is lost -----

  lemma {:induction false} ExecSum(log: seq<Txn>, s: State, a: seq<Action>, b: seq<Action>)
    ensures Exec(log, s, a + b) == Exec(log, Exec(log, s, a), b)
    decreases |a|
  {
    if a == [] {
      assert a + b == b;
    } else {
      DropConcat(a, b, 1);
      ExecSum(log, Step(log, s, a[0]), a[1..], b);
    }
  }

  lemma ExecOne(log: seq<Txn>, s: State, a: Action)
    ensures Exec(log, s, [a]) == Step(log, s, a)
  {
    assert [a][1..] == [];
  }

  /** All events of transaction n are in, and nothing after them. */
  ghost predicate JustReceived(f: seq<Txn>, start: iset<Gtid>, s: State, n: nat) {
    Tracks(f, start, s, n) && s.view.last.Some? && exists a, p :: ReceivedAs(s, f, n, a, p)
  }

  ghost predicate ReceivedAs(s: State, f: seq<Txn>, n: nat, a: seq<Item>, p: seq<Item>)
    requires n < |f|
  {
    Split3(s, f[n], f[n + 1..], a, p, [])
  }

  lemma {:induction false} Drain(log: seq<Txn>, start: iset<Gtid>, f: seq<Txn>, s: State, n: nat, a: seq<Item>,
                                 p: seq<Item>, q: seq<Item>)
    returns (acts: seq<Action>)
    requires Tracks(f, start, s, n) && s.view.last.Some? && Split3(s, f[n], f[n + 1..], a, p, q)
    ensures JustReceived(f, start, Exec(log, s, acts), n)
    decreases |q|
  {
    acts := [];
    if q == [] {
      assert ReceivedAs(s, f, n, a, p);
    } else {
      BodyEvent(log, start, f, s, n, a, p, q);
      var more := Drain(log, start, f, Step(log, s, Deliver), n, a, p + [q[0]], q[1..]);
      acts := [Deliver] + more;
      assert acts[1..] == more;
    }
  }

  lemma AfterBegin(log: seq<Txn>, start: iset<Gtid>, f: seq<Txn>, s: State, n: nat, acts: seq<Action>, init: State)
    returns (more: seq<Action>)
    requires s == Exec(log, init, acts) && Tracks(f, start, Step(log, s, Deliver), n)
      && Step(log, s, Deliver).view.last.Some?
    ensures JustReceived(f, start, Exec(log, init, more), n)
  {
    var r := Step(log, s, Deliver);
    var a, p, q :| Split3(r, f[n], f[n + 1..], a, p, q);
    var rest := Drain(log, start, f, r, n, a, p, q);
    more := acts + [Deliver] + rest;
    ExecSum(log, init, acts, [Deliver]);
    ExecOne(log, s, Deliver);
    ExecSum(log, init, acts + [Deliver], rest);
  }

  lemma {:induction false} Reach(log: seq<Txn>, start: iset<Gtid>, f: seq<Txn>, k: nat) returns (acts: seq<Action>)
    requires Distinct(log) && f == Missing(log, start) && AllOk(f) && k < |f|
    requires forall i :: 0 <= i < k ==> !LosesTag(f, i)
    ensures JustReceived(f, start, Exec(log, Init(log, start), acts), k)
    decreases k
  {
    var init := Init(log, start);
    if k == 0 {
      Starts(log, start);
      FirstEvent(log, start, f, init, 0);
      acts := AfterBegin(log, start, f, init, 0, [], init);
    } else {
      var before := Reach(log, start, f, k - 1);
      var s := Exec(log, init, before);
      ReachNext(log, start, f, s, k - 1);
      acts := AfterBegin(log, start, f, s, k, before, init);
    }
  }

  lemma ReachNext(log: seq<Txn>, start: iset<Gtid>, f: seq<Txn>, s: State, n: nat)
    requires JustReceived(f, start, s, n) && n + 1 < |f| && TxnOk(f[n]) && !LosesTag(f, n)
    ensures Tracks(f, start, Step(log, s, Deliver), n + 1) && Step(log, s, Deliver).view.last.Some?
  {
    var a, p :| ReceivedAs(s, f, n, a, p);
    NextEvent(log, start, f, s, n, a, p);
  }

  /**
   After the plain event the tagged transaction is missing again, though it was received whole
   and is not the last begun.
   */
  lemma LossShows(log: seq<Txn>, start: iset<Gtid>, f: seq<Txn>, s: State, k: nat)
    requires Distinct(log) && f == Missing(log, start) && JustReceived(f, start, s, k)
    requires k + 1 < |f| && LosesTag(f, k)
    ensures !RepeatsOnlyLast(log, Step(log, s, Deliver))
  {
    var t, u, r := f[k], f[k + 1], Step(log, s, Deliver);
    var a, p :| ReceivedAs(s, f, k, a, p);
    ReceivedWhole(s, t, f[k + 1..], a, p);
    NextInQueue(f, k + 1, s.rest);
    LastBegunStep(s.seen, Begin(u));
    MissingAfter(log, start, f, k);
    DistinctAt(f, k, k + 1);
    assert t in f[k..] by { assert f[k..][0] == t; }
    MissingIsFromLog(log, s.view.prev, t);
    MissingIsFromLog(log, r.view.prev, t);
    assert Begun(s.seen, t) by { LastIsBegun(s.seen); }
  }

  lemma {:induction false} LastIsBegun(seen: seq<Item>)
    ensures LastBegun(seen).Some? ==> Begun(seen, LastBegun(seen).value)
  {
    if seen != [] {
      LastIsBegun(seen[..|seen| - 1]);
      assert seen == seen[..|seen| - 1] + [seen[|seen| - 1]];
    }
  }

  lemma {:induction false} FirstLoss(f: seq<Txn>, i: nat) returns (k: nat)
    requires i + 1 < |f| && LosesTag(f, i)
    ensures k <= i && k + 1 < |f| && LosesTag(f, k) && forall j :: 0 <= j < k ==> !LosesTag(f, j)
    decreases i
  {
    k := i;
    if j :| 0 <= j < i && LosesTag(f, j) { k := FirstLoss(f, j); }
  }

  /** Every run is safe exactly when no tagged transaction is directly followed by a plain one. */
  lemma SafeExactlyWhenTagsKept(log: seq<Txn>, start: iset<Gtid>)
    requires Distinct(log) && AllOk(Missing(log, start))
    ensures (forall acts :: Safe(log, start, Exec(log, Init(log, start), acts))) <==> KeepsTags(Missing(log, start))
  {
    var f := Missing(log, start);
    if KeepsTags(f) {
      forall acts ensures Safe(log, start, Exec(log, Init(log, start), acts)) { EveryRunIsSafe(log, start, acts); }
    } else {
      var i :| 0 <= i < |f| - 1 && LosesTag(f, i);
      var k := FirstLoss(f, i);
      var acts := Reach(log, start, f, k);
      var s := Exec(log, Init(log, start), acts);
      LossShows(log, start, f, s, k);
      ExecSum(log, Init(log, start), acts, [Deliver]);
      ExecOne(log, s, Deliver);
      assert !Safe(log, start, Exec(log, Init(log, start), acts + [Deliver]));
    }
  }

  /** A transaction that is never received: the tagged one before it has the same server and number. */
  lemma SkippedTransaction(u: Uuid, x: Tag)
    requires x != NO_TAG
    ensures var t1, t2 := Txn(Gtid(u, x, 1), false, 0), Txn(Gtid(u, NO_TAG, 1), true, 1);
      var s := Exec([t1, t2], Init([t1, t2], iset{}), [Deliver, Deliver, Reconnect, Deliver]);
      Distinct([t1, t2]) && s.rest == [] && Body(t2, 0) !in s.seen
  {
    var t1, t2 := Txn(Gtid(u, x, 1), false, 0), Txn(Gtid(u, NO_TAG, 1), true, 1);
    var log, g := [t1, t2], iset{t2.gtid};
    SkippedStart(t1, t2);
    var s0 := Init(log, iset{});
    var s1 := Step(log, s0, Deliver);
    DeliverBegin(log, s0, t1, [Begin(t2), Body(t2, 0)], s1);
    var s2 := Step(log, s1, Deliver);
    DeliverBegin(log, s1, t2, [Body(t2, 0)], s2);
    assert s2.view.prev == g;
    var s3 := Step(log, s2, Reconnect);
    SkippedResume(t1, t2, s2, s3);
    var s4 := Step(log, s3, Deliver);
    DeliverBegin(log, s3, t1, [], s4);
    SkippedRun(log, s0, s1, s2, s3, s4);
  }

  lemma SkippedStart(t1: Txn, t2: Txn)
    requires t1.size == 0 && t2.size == 1
    ensures Init([t1, t2], iset{}) == State(View(iset{}, None, None), [Begin(t1)] + [Begin(t2), Body(t2, 0)], [])
  {
    assert [t1, t2][1..] == [t2] && [t2][1..] == [];
    assert Missing([t2], iset{}) == [t2];
    assert Missing([t1, t2], iset{}) == [t1] + [t2];
    assert ItemsOf(t1) == [Begin(t1)] && BodiesFrom(t2, 1) == [] && ItemsOf(t2) == [Begin(t2), Body(t2, 0)];
    assert ItemsAll([t2]) == [Begin(t2), Body(t2, 0)];
  }

  lemma DeliverBegin(log: seq<Txn>, s: State, t: Txn, rest: seq<Item>, r: State)
    requires s.rest == [Begin(t)] + rest && r == Step(log, s, Deliver)
    ensures r == State(OnGtid(s.view, t), rest, s.seen + [Begin(t)])
  {
  }

  lemma SkippedResume(t1: Txn, t2: Txn, s: State, r: State)
    requires t1.size == 0 && t1.gtid != t2.gtid && s.view.prev == iset{t2.gtid} && r == Step([t1, t2], s, Reconnect)
    ensures r.rest == [Begin(t1)] + [] && r.seen == s.seen
  {
    var g := iset{t2.gtid};
    assert [t1, t2][1..] == [t2] && [t2][1..] == [];
    assert Missing([t2], g) == [];
    assert Missing([t1, t2], g) == [t1];
    assert [t1][1..] == [] && ItemsAll([t1]) == [Begin(t1)];
  }

  lemma SkippedRun(log: seq<Txn>, s0: State, s1: State, s2: State, s3: State, s4: State)
    requires s1 == Step(log, s0, Deliver) && s2 == Step(log, s1, Deliver) && s3 == Step(log, s2, Reconnect)
      && s4 == Step(log, s3, Deliver)
    ensures Exec(log, s0, [Deliver, Deliver, Reconnect, Deliver]) == s4
  {
    ExecOne(log, s3, Deliver);
    assert [Reconnect, Deliver][1..] == [Deliver];
    assert Exec(log, s2, [Reconnect, Deliver]) == s4;
    assert [Deliver, Reconnect, Deliver][1..] == [Reconnect, Deliver];
    assert Exec(log, s1, [Deliver, Reconnect, Deliver]) == s4;
    assert [Deliver, Deliver, Reconnect, Deliver][1..] == [Deliver, Reconnect, Deliver];
  }

  // ----- BinlogSyncer -----

  ghost function Denoted(s: Gtids): (gs: iset<Gtid>) { iset g: Gtid | Denotes(s, g.uuid, g.tag, g.gno) }

  lemma AddedIsOneMore(s: Gtids, g: Gtid)
    requires WellFormed(s) && g.gno < MAX_INT64
    ensures WellFormed(Added(s, g.uuid, g.tag, g.gno))
    ensures Denoted(Added(s, g.uuid, g.tag, g.gno)) == Denoted(s) + iset{g}
  {
    AddInserts(s, g.uuid, g.tag, g.gno);
    var r := Added(s, g.uuid, g.tag, g.gno);
    forall h: Gtid ensures h in Denoted(r) <==> h in Denoted(s) + iset{g} {
      assert Denotes(r, h.uuid, h.tag, h.gno)
        <==> Denotes(s, h.uuid, h.tag, h.gno) || (h.uuid == g.uuid && h.tag == g.tag && h.gno == g.gno);
    }
  }

  class BinlogSyncer {
    var prevGset: MysqlGTIDSet?
    var currGset: MysqlGTIDSet?
    var prevMySQLGTIDEvent: Option<Txn>

    /** Both sets are well formed objects of their own. */
    ghost predicate Valid()
      reads this, prevGset, currGset
    {
      && (prevGset != null ==> prevGset.Valid())
      && (currGset != null ==> prevGset != null && currGset.Valid() && currGset != prevGset)
      && (prevMySQLGTIDEvent.Some? ==> prevMySQLGTIDEvent.value.gtid.gno < MAX_INT64)
    }

    ghost function Shown(): (v: View)
      requires prevGset != null
      reads this, prevGset, currGset
    {
      View(Denoted(prevGset.sets), if currGset == null then None else Some(Denoted(currGset.sets)), prevMySQLGTIDEvent)
    }

    constructor ()
      ensures Valid() && prevGset == null && currGset == null && prevMySQLGTIDEvent == None
    {
      prevGset, currGset, prevMySQLGTIDEvent := null, null, None;
    }

    /** StartSyncGTID: the caller's own set becomes prevGset and will be updated in place. */
    method StartSyncGTID(gset: MysqlGTIDSet) returns (asked: Gtids)
      requires gset.Valid()
      modifies this
      ensures Valid() && prevGset == gset && asked == gset.sets
      ensures Shown() == View(Denoted(gset.sets), None, None)
    {
      prevMySQLGTIDEvent, prevGset, currGset := None, gset, null;
      asked := gset.sets;
    }

    /** retrySync with prepareSyncGTID: the server is asked with prevGset. */
    method RetrySync() returns (asked: Gtids)
      requires Valid() && prevGset != null
      modifies this
      ensures Valid() && prevGset == old(prevGset) && asked == prevGset.sets == old(prevGset.sets)
      ensures Shown() == OnRetry(old(Shown()))
    {
      prevMySQLGTIDEvent, currGset := None, null;
      asked := prevGset.sets;
    }

    /** getCurrentGtidSet: what goes out with XID and query events is an object of its own. */
    method GetCurrentGtidSet() returns (r: MysqlGTIDSet?)
      requires Valid()
      ensures r == null <==> currGset == null
      ensures r != null ==> fresh(r) && r.Valid() && r.sets == currGset.sets
    {
      r := null;
      if currGset != null { r := currGset.Clone(); }
    }

    /** The GTID cases of handleEventAndACK; without a prevGset nothing is tracked. */
    method HandleGtidEvent(event: Txn)
      requires Valid() && TxnOk(event)
      modifies this, prevGset, currGset
      ensures Valid() && prevGset == old(prevGset)
      ensures prevGset != null ==> Shown() == OnGtid(old(Shown()), event)
      ensures prevGset == null ==> currGset == old(currGset) && prevMySQLGTIDEvent == old(prevMySQLGTIDEvent)
    {
      if prevGset == null { return; }
      ghost var v := Shown();
      if currGset == null { currGset := prevGset.Clone(); }
      AddedIsOneMore(currGset.sets, event.gtid);
      if event.plain {
        currGset.AddGTID(event.gtid.uuid, event.gtid.gno);
      } else {
        currGset.AddGTIDWithTag(event.gtid.uuid, event.gtid.tag, event.gtid.gno);
      }
      if prevMySQLGTIDEvent.Some? {
        var last := prevMySQLGTIDEvent.value;
        AddedIsOneMore(prevGset.sets, Recorded(last, event));
        if event.plain {
          prevGset.AddGTID(last.gtid.uuid, last.gtid.gno);
        } else {
          prevGset.AddGTIDWithTag(last.gtid.uuid, last.gtid.tag, last.gtid.gno);
        }
      }
      prevMySQLGTIDEvent := Some(event);
    }
  }
}
