/**
 What a flashback is for: with the tables as a multiset of rows, applying the
 rewritten events from the last to the first takes the database back. A row
 event is applied row by row and stops at a row that is not there.
 */
module UndoRun {
  import opened Bytes
  import opened Lists

  type Db<!R> = multiset<R>

  /** One row replaced by another. */
  datatype Replace<R> = Replace(before: R, after: R)

  datatype Event<R> = Insert(rows: seq<R>) | Delete(rows: seq<R>) | Update(changes: seq<Replace<R>>)

  function Befores<R>(cs: seq<Replace<R>>): (rs: seq<R>)
    ensures |rs| == |cs|
    ensures forall i :: 0 <= i < |cs| ==> rs[i] == cs[i].before
  {
    seq(|cs|, i requires 0 <= i < |cs| => cs[i].before)
  }

  function Afters<R>(cs: seq<Replace<R>>): (rs: seq<R>)
    ensures |rs| == |cs|
    ensures forall i :: 0 <= i < |cs| ==> rs[i] == cs[i].after
  {
    seq(|cs|, i requires 0 <= i < |cs| => cs[i].after)
  }

  // ----- applying events -----

  function ApplyDeletes<R(==)>(db: Db<R>, rows: seq<R>): (r: Option<Db<R>>)
    decreases |rows|
  {
    if rows == [] then Some(db)
    else if rows[0] !in db then None
    else ApplyDeletes(db - multiset{rows[0]}, rows[1..])
  }

  function ApplyUpdates<R(==)>(db: Db<R>, cs: seq<Replace<R>>): (r: Option<Db<R>>)
    decreases |cs|
  {
    if cs == [] then Some(db)
    else if cs[0].before !in db then None
    else ApplyUpdates(db - multiset{cs[0].before} + multiset{cs[0].after}, cs[1..])
  }

  function Apply<R(==)>(db: Db<R>, e: Event<R>): (r: Option<Db<R>>) {
    match e
    case Insert(rows) => Some(db + multiset(rows))
    case Delete(rows) => ApplyDeletes(db, rows)
    case Update(cs) => ApplyUpdates(db, cs)
  }

  function ApplyAll<R(==)>(db: Db<R>, es: seq<Event<R>>): (r: Option<Db<R>>)
    decreases |es|
  {
    if es == [] then Some(db)
    else match Apply(db, es[0])
      case None => None
      case Some(next) => ApplyAll(next, es[1..])
  }

  // ----- what the rewriting does to events and to a run -----

  function Exchanged<R>(cs: seq<Replace<R>>): (r: seq<Replace<R>>)
    ensures |r| == |cs|
    ensures forall i :: 0 <= i < |cs| ==> r[i] == Replace(cs[i].after, cs[i].before)
  {
    seq(|cs|, i requires 0 <= i < |cs| => Replace(cs[i].after, cs[i].before))
  }

  /** Rows keep their order inside an event. */
  function Flashback<R>(e: Event<R>): (f: Event<R>) {
    match e
    case Insert(rows) => Delete(rows)
    case Delete(rows) => Insert(rows)
    case Update(cs) => Update(Exchanged(cs))
  }

  /** The events of a run, rewritten, the last one first. */
  function Undo<R>(es: seq<Event<R>>): (us: seq<Event<R>>) {
    if es == [] then [] else Undo(es[1..]) + [Flashback(es[0])]
  }

  lemma {:induction false} UndoIsReversed<R>(es: seq<Event<R>>)
    ensures Undo(es) == Reversed(seq(|es|, i requires 0 <= i < |es| => Flashback(es[i])))
  {
    var fs := seq(|es|, i requires 0 <= i < |es| => Flashback(es[i]));
    if es != [] {
      UndoIsReversed(es[1..]);
      var gs := seq(|es| - 1, i requires 0 <= i < |es| - 1 => Flashback(es[1..][i]));
      assert fs == [Flashback(es[0])] + gs;
      ReversedEnds(gs, Flashback(es[0]));
    }
  }

  // ----- one event of inserts or deletes -----

  lemma {:induction false} DeletesSubtract<R>(db: Db<R>, rows: seq<R>)
    ensures ApplyDeletes(db, rows) == if multiset(rows) <= db then Some(db - multiset(rows)) else None
    decreases |rows|
  {
    if rows != [] {
      HeadTail(rows);
      var first, rest := multiset{rows[0]}, multiset(rows[1..]);
      assert multiset(rows) == first + rest;
      if rows[0] in db {
        DeletesSubtract(db - first, rows[1..]);
        SubtractBoth(db, first, rest);
      } else {
        assert (first + rest)[rows[0]] > db[rows[0]];
      }
    } else {
      assert multiset(rows) == multiset{} && db - multiset{} == db;
    }
  }

  lemma SubtractBoth<R>(db: Db<R>, a: Db<R>, b: Db<R>)
    requires a <= db
    ensures b <= db - a <==> a + b <= db
    ensures db - a - b == db - (a + b)
  {
    if a + b <= db {
      forall x ensures b[x] <= (db - a)[x] { assert (a + b)[x] <= db[x]; }
    }
    if b <= db - a {
      forall x ensures (a + b)[x] <= db[x] { assert b[x] <= (db - a)[x]; }
    }
  }

  // ----- one event of updates -----

  lemma HeadOfUpdates<R>(cs: seq<Replace<R>>)
    requires cs != []
    ensures multiset(Befores(cs)) == multiset{cs[0].before} + multiset(Befores(cs[1..]))
    ensures multiset(Afters(cs)) == multiset{cs[0].after} + multiset(Afters(cs[1..]))
  {
    assert Befores(cs)[1..] == Befores(cs[1..]) && Afters(cs)[1..] == Afters(cs[1..]);
    HeadCounted(Befores(cs));
    HeadCounted(Afters(cs));
  }

  lemma HeadCounted<R>(rs: seq<R>)
    requires rs != []
    ensures multiset(rs) == multiset{rs[0]} + multiset(rs[1..])
  {
    assert rs == [rs[0]] + rs[1..];
  }

  /** Updates that go through trade the before images for the after images. */
  lemma {:induction false} UpdatesTrade<R>(db: Db<R>, cs: seq<Replace<R>>)
    requires ApplyUpdates(db, cs).Some?
    ensures ApplyUpdates(db, cs).value + multiset(Befores(cs)) == db + multiset(Afters(cs))
    decreases |cs|
  {
    if cs != [] {
      HeadOfUpdates(cs);
      UpdatesTrade(db - multiset{cs[0].before} + multiset{cs[0].after}, cs[1..]);
      TradeOne(db, multiset{cs[0].before}, multiset{cs[0].after}, ApplyUpdates(db, cs).value,
               multiset(Befores(cs[1..])), multiset(Afters(cs[1..])));
    }
  }

  lemma TradeOne<R>(db: Db<R>, b: Db<R>, a: Db<R>, end: Db<R>, used: Db<R>, gained: Db<R>)
    requires b <= db && end + used == db - b + a + gained
    ensures end + (b + used) == db + (a + gained)
  {
    forall x ensures (end + (b + used))[x] == (db + (a + gained))[x] {
      assert (end + used)[x] == (db - b + a + gained)[x] && b[x] <= db[x];
    }
  }

  /** Row i is there when its turn comes, by counting its copies: those there, those made and those used up before. */
  ghost predicate ThereInTurn<R>(db: Db<R>, cs: seq<Replace<R>>, i: nat)
    requires i < |cs|
  {
    db[cs[i].before] + multiset(Afters(cs)[..i])[cs[i].before] > multiset(Befores(cs)[..i])[cs[i].before]
  }

  lemma ThereInTurnStep<R>(db: Db<R>, cs: seq<Replace<R>>, i: nat)
    requires cs != [] && cs[0].before in db && i < |cs| - 1
    ensures ThereInTurn(db, cs, i + 1) == ThereInTurn(db - multiset{cs[0].before} + multiset{cs[0].after}, cs[1..], i)
  {
    var x := cs[i + 1].before;
    assert Afters(cs)[..i + 1] == [cs[0].after] + Afters(cs[1..])[..i];
    assert Befores(cs)[..i + 1] == [cs[0].before] + Befores(cs[1..])[..i];
    assert multiset([cs[0].after] + Afters(cs[1..])[..i])[x]
      == multiset{cs[0].after}[x] + multiset(Afters(cs[1..])[..i])[x];
    assert multiset([cs[0].before] + Befores(cs[1..])[..i])[x]
      == multiset{cs[0].before}[x] + multiset(Befores(cs[1..])[..i])[x];
  }

  lemma {:induction false} UpdatesRun<R>(db: Db<R>, cs: seq<Replace<R>>)
    ensures ApplyUpdates(db, cs).Some? <==> forall i :: 0 <= i < |cs| ==> ThereInTurn(db, cs, i)
    decreases |cs|
  {
    if cs != [] {
      FirstInTurn(db, cs);
      if cs[0].before in db {
        var next := db - multiset{cs[0].before} + multiset{cs[0].after};
        UpdatesRun(next, cs[1..]);
        forall i | 0 <= i < |cs| - 1 ensures ThereInTurn(db, cs, i + 1) == ThereInTurn(next, cs[1..], i) {
          ThereInTurnStep(db, cs, i);
        }
        Shifted(db, next, cs);
      }
    }
  }

  lemma FirstInTurn<R>(db: Db<R>, cs: seq<Replace<R>>)
    requires cs != []
    ensures ThereInTurn(db, cs, 0) <==> cs[0].before in db
  {
    assert Afters(cs)[..0] == [] && Befores(cs)[..0] == [];
  }

  lemma Shifted<R>(db: Db<R>, next: Db<R>, cs: seq<Replace<R>>)
    requires cs != [] && ThereInTurn(db, cs, 0)
    requires forall i :: 0 <= i < |cs| - 1 ==> ThereInTurn(db, cs, i + 1) == ThereInTurn(next, cs[1..], i)
    ensures (forall i :: 0 <= i < |cs| ==> ThereInTurn(db, cs, i))
      <==> forall i :: 0 <= i < |cs[1..]| ==> ThereInTurn(next, cs[1..], i)
  {
    if forall i :: 0 <= i < |cs[1..]| ==> ThereInTurn(next, cs[1..], i) {
      forall i | 0 <= i < |cs| ensures ThereInTurn(db, cs, i) {
        if i > 0 { assert ThereInTurn(db, cs, (i - 1) + 1) == ThereInTurn(next, cs[1..], i - 1); }
      }
    }
    if forall i :: 0 <= i < |cs| ==> ThereInTurn(db, cs, i) {
      forall i | 0 <= i < |cs[1..]| ensures ThereInTurn(next, cs[1..], i) {
        assert ThereInTurn(db, cs, i + 1);
      }
    }
  }

  /** A copy of after image i outlives the changes from i on: what undoing the event in the same order needs. */
  ghost predicate Outlives<R>(db: Db<R>, cs: seq<Replace<R>>, i: nat)
    requires i < |cs|
  {
    db[cs[i].after] + multiset(Afters(cs)[i..])[cs[i].after] > multiset(Befores(cs)[i..])[cs[i].after]
  }

  ghost predicate Restorable<R>(db: Db<R>, e: Event<R>) {
    e.Update? ==> forall i :: 0 <= i < |e.changes| ==> Outlives(db, e.changes, i)
  }

  lemma ExchangedImages<R>(cs: seq<Replace<R>>)
    ensures Befores(Exchanged(cs)) == Afters(cs) && Afters(Exchanged(cs)) == Befores(cs)
  {
  }

  lemma SplitCount<R>(s: seq<R>, i: nat, x: R)
    requires i <= |s|
    ensures multiset(s)[x] == multiset(s[..i])[x] + multiset(s[i..])[x]
  {
    assert s == s[..i] + s[i..];
  }

  lemma TurnOfUndo<R>(db: Db<R>, cs: seq<Replace<R>>, done: Db<R>, i: nat)
    requires i < |cs| && done + multiset(Befores(cs)) == db + multiset(Afters(cs))
    ensures ThereInTurn(done, Exchanged(cs), i) <==> Outlives(db, cs, i)
  {
    var x := cs[i].after;
    ExchangedImages(cs);
    SplitCount(Afters(cs), i, x);
    SplitCount(Befores(cs), i, x);
    assert (done + multiset(Befores(cs)))[x] == (db + multiset(Afters(cs)))[x];
  }

  lemma Cancel<R>(a: Db<R>, b: Db<R>, c: Db<R>)
    requires a + c == b + c
    ensures a == b
  {
    forall x ensures a[x] == b[x] { assert (a + c)[x] == (b + c)[x]; }
  }

  lemma UndoUpdates<R>(db: Db<R>, cs: seq<Replace<R>>)
    requires ApplyUpdates(db, cs).Some?
    ensures ApplyUpdates(ApplyUpdates(db, cs).value, Exchanged(cs))
         == if forall i :: 0 <= i < |cs| ==> Outlives(db, cs, i) then Some(db) else None
  {
    var done := ApplyUpdates(db, cs).value;
    UpdatesTrade(db, cs);
    UpdatesRun(done, Exchanged(cs));
    forall i | 0 <= i < |cs| ensures ThereInTurn(done, Exchanged(cs), i) <==> Outlives(db, cs, i) {
      TurnOfUndo(db, cs, done, i);
    }
    if ApplyUpdates(done, Exchanged(cs)).Some? {
      UpdatesTrade(done, Exchanged(cs));
      ExchangedImages(cs);
      Cancel(ApplyUpdates(done, Exchanged(cs)).value, db, multiset(Afters(cs)));
    }
  }

  /** The rewritten event undoes the event exactly when it is restorable; otherwise it stops at a missing row. */
  lemma UndoEvent<R>(db: Db<R>, e: Event<R>)
    requires Apply(db, e).Some?
    ensures Apply(Apply(db, e).value, Flashback(e)) == if Restorable(db, e) then Some(db) else None
  {
    match e {
      case Insert(rows) =>
        DeletesSubtract(db + multiset(rows), rows);
        assert db + multiset(rows) - multiset(rows) == db;
      case Delete(rows) =>
        DeletesSubtract(db, rows);
        assert db - multiset(rows) + multiset(rows) == db;
      case Update(cs) => UndoUpdates(db, cs);
    }
  }

  /** No row is updated twice inside the event: what one change makes no later change uses up. */
  ghost predicate NoneTwice<R>(cs: seq<Replace<R>>) {
    forall i, k :: 0 <= i < k < |cs| ==> cs[i].after != cs[k].before
  }

  lemma {:induction false} AbsentCount<R>(s: seq<R>, x: R)
    requires x !in s
    ensures multiset(s)[x] == 0
  {
  }

  /** Events that update no row twice are restorable. */
  lemma NoneTwiceIsEnough<R>(db: Db<R>, cs: seq<Replace<R>>)
    requires ApplyUpdates(db, cs).Some? && NoneTwice(cs)
    ensures Restorable(db, Update(cs))
  {
    UpdatesRun(db, cs);
    forall i | 0 <= i < |cs| ensures Outlives(db, cs, i) {
      var x := cs[i].after;
      assert ThereInTurn(db, cs, i);
      TailStep(Afters(cs), i);
      TailStep(Befores(cs), i);
      assert multiset([Afters(cs)[i]] + Afters(cs)[i + 1..])[x] >= 1;
      assert x !in Befores(cs)[i + 1..];
      AbsentCount(Befores(cs)[i + 1..], x);
      assert multiset([Befores(cs)[i]] + Befores(cs)[i + 1..])[x] == if cs[i].before == x then 1 else 0;
      if cs[i].before == x {
        assert x !in Afters(cs)[..i];
        AbsentCount(Afters(cs)[..i], x);
      }
    }
  }

  /** Without that, the flashback of an event can fail: one row updated twice. */
  lemma TwiceUpdatedRow()
    ensures var e := Update([Replace(1, 2), Replace(2, 3)]);
      Apply(multiset{1}, e) == Some(multiset{3}) && Apply(multiset{3}, Flashback(e)) == None
  {
    var cs := [Replace(1, 2), Replace(2, 3)];
    assert cs[1..] == [Replace(2, 3)] && [Replace(2, 3)][1..] == [];
    assert multiset{1} - multiset{1} + multiset{2} == multiset{2};
    assert multiset{2} - multiset{2} + multiset{3} == multiset{3};
    assert ApplyUpdates(multiset{2}, [Replace(2, 3)]) == Some(multiset{3});
    assert ApplyUpdates(multiset{1}, cs) == Some(multiset{3});
    assert Exchanged(cs)[0].before == 2;
  }

  // ----- undoing the rows of an event from the last to the first always works -----

  lemma {:induction false} UpdatesOfSum<R>(db: Db<R>, a: seq<Replace<R>>, b: seq<Replace<R>>)
    ensures ApplyUpdates(db, a + b)
      == match ApplyUpdates(db, a) case None => None case Some(mid) => ApplyUpdates(mid, b)
    decreases |a|
  {
    if a == [] {
      assert a + b == b;
    } else {
      DropConcat(a, b, 1);
      if a[0].before in db { UpdatesOfSum(db - multiset{a[0].before} + multiset{a[0].after}, a[1..], b); }
    }
  }

  lemma {:induction false} LastFirst<R>(db: Db<R>, cs: seq<Replace<R>>)
    requires ApplyUpdates(db, cs).Some?
    ensures ApplyUpdates(ApplyUpdates(db, cs).value, Reversed(Exchanged(cs))) == Some(db)
    decreases |cs|
  {
    if cs != [] {
      var b, a, rest := cs[0].before, cs[0].after, cs[1..];
      var next := db - multiset{b} + multiset{a};
      LastFirst(next, rest);
      FirstComesLast(cs);
      UpdatesOfSum(ApplyUpdates(next, rest).value, Reversed(Exchanged(rest)), [Replace(a, b)]);
      OneBack(db, b, a);
    }
  }

  lemma FirstComesLast<R>(cs: seq<Replace<R>>)
    requires cs != []
    ensures Reversed(Exchanged(cs)) == Reversed(Exchanged(cs[1..])) + [Replace(cs[0].after, cs[0].before)]
  {
    assert Exchanged(cs) == [Replace(cs[0].after, cs[0].before)] + Exchanged(cs[1..]);
    ReversedEnds(Exchanged(cs[1..]), Replace(cs[0].after, cs[0].before));
  }

  lemma OneBack<R>(db: Db<R>, b: R, a: R)
    requires b in db
    ensures ApplyUpdates(db - multiset{b} + multiset{a}, [Replace(a, b)]) == Some(db)
  {
    var next := db - multiset{b} + multiset{a};
    assert [Replace(a, b)][1..] == [];
    assert next - multiset{a} + multiset{b} == db;
    assert ApplyUpdates(next - multiset{a} + multiset{b}, []) == Some(db);
  }

  // ----- a whole run -----

  /** Every event is restorable in the state it is applied to. */
  ghost predicate RunRestorable<R>(db: Db<R>, es: seq<Event<R>>)
    requires ApplyAll(db, es).Some?
    decreases |es|
  {
    es == [] || (Restorable(db, es[0]) && RunRestorable(Apply(db, es[0]).value, es[1..]))
  }

  lemma {:induction false} ApplyAppend<R>(db: Db<R>, es: seq<Event<R>>, e: Event<R>)
    ensures ApplyAll(db, es + [e]) == match ApplyAll(db, es) case None => None case Some(mid) => Apply(mid, e)
    decreases |es|
  {
    if es == [] {
      assert es + [e] == [e] && [e][1..] == [];
    } else {
      DropConcat(es, [e], 1);
      if Apply(db, es[0]).Some? { ApplyAppend(Apply(db, es[0]).value, es[1..], e); }
    }
  }

  /**
   Undo of a whole run: whatever events took db to the state they left, their
   flashback applied from the last to the first takes it back exactly when
   every event is restorable, and otherwise stops.
   */
  lemma {:induction false} UndoWholeRun<R>(db: Db<R>, es: seq<Event<R>>)
    requires ApplyAll(db, es).Some?
    ensures ApplyAll(ApplyAll(db, es).value, Undo(es)) == if RunRestorable(db, es) then Some(db) else None
    decreases |es|
  {
    if es != [] {
      var next, end := Apply(db, es[0]).value, ApplyAll(db, es).value;
      UndoWholeRun(next, es[1..]);
      ApplyAppend(end, Undo(es[1..]), Flashback(es[0]));
      UndoEvent(db, es[0]);
    }
  }
}
