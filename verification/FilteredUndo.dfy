/**
 What a flashback with a row filter restores: only the rows that match are
 rewritten, so only their changes are taken back. Rows are marked as matching or
 not; an event splits into the part that matches and the part that does not.
 */
module FilteredUndo {
  import opened Bytes
  import opened Lists
  import opened UndoRun

  /** An event with a mark for each of its rows. */
  datatype Marked<R> = Marked(event: Event<R>, marks: seq<bool>)

  function Size<R>(e: Event<R>): (n: nat) {
    match e
    case Insert(rows) => |rows|
    case Delete(rows) => |rows|
    case Update(cs) => |cs|
  }

  ghost predicate AllMarked<R>(es: seq<Marked<R>>) {
    forall i :: 0 <= i < |es| ==> |es[i].marks| == Size(es[i].event)
  }

  function Pick<T>(xs: seq<T>, marks: seq<bool>, b: bool): (r: seq<T>)
    requires |xs| == |marks|
  {
    if xs == [] then [] else (if marks[0] == b then [xs[0]] else []) + Pick(xs[1..], marks[1..], b)
  }

  /** The rows of an event with one mark, in their order. */
  function Part<R>(m: Marked<R>, b: bool): (e: Event<R>)
    requires |m.marks| == Size(m.event)
  {
    match m.event
    case Insert(rows) => Insert(Pick(rows, m.marks, b))
    case Delete(rows) => Delete(Pick(rows, m.marks, b))
    case Update(cs) => Update(Pick(cs, m.marks, b))
  }

  function Wholes<R>(es: seq<Marked<R>>): (r: seq<Event<R>>) {
    if es == [] then [] else [es[0].event] + Wholes(es[1..])
  }

  function Parts<R>(es: seq<Marked<R>>, b: bool): (r: seq<Event<R>>)
    requires AllMarked(es)
  {
    if es == [] then [] else [Part(es[0], b)] + Parts(es[1..], b)
  }

  // ----- how often each row is there afterwards -----

  /** What an event adds to the number of copies of row x. */
  ghost function Net<R>(e: Event<R>, x: R): (n: int) {
    match e
    case Insert(rows) => Copies(rows, x)
    case Delete(rows) => -Copies(rows, x)
    case Update(cs) => Copies(Afters(cs), x) - Copies(Befores(cs), x)
  }

  ghost function Copies<R>(rows: seq<R>, x: R): (n: int) { multiset(rows)[x] }

  ghost function NetAll<R>(es: seq<Event<R>>, x: R): (n: int) {
    if es == [] then 0 else Net(es[0], x) + NetAll(es[1..], x)
  }

  lemma NetOfEvent<R>(db: Db<R>, e: Event<R>, x: R)
    requires Apply(db, e).Some?
    ensures Apply(db, e).value[x] == db[x] + Net(e, x)
  {
    match e {
      case Insert(rows) =>
      case Delete(rows) =>
        DeletesSubtract(db, rows);
      case Update(cs) =>
        UpdatesTrade(db, cs);
        TradeCount(ApplyUpdates(db, cs).value, multiset(Befores(cs)), db, multiset(Afters(cs)), x);
    }
  }

  lemma TradeCount<R>(a: Db<R>, b: Db<R>, c: Db<R>, d: Db<R>, x: R)
    requires a + b == c + d
    ensures a[x] + b[x] == c[x] + d[x]
  {
    assert (a + b)[x] == (c + d)[x];
  }

  lemma {:induction false} NetOfRun<R>(db: Db<R>, es: seq<Event<R>>, x: R)
    requires ApplyAll(db, es).Some?
    ensures ApplyAll(db, es).value[x] == db[x] + NetAll(es, x)
    decreases |es|
  {
    if es != [] {
      NetOfEvent(db, es[0], x);
      NetOfRun(Apply(db, es[0]).value, es[1..], x);
    }
  }

  lemma NetOfFlashback<R>(e: Event<R>, x: R)
    ensures Net(Flashback(e), x) == -Net(e, x)
  {
    if e.Update? { ExchangedImages(e.changes); }
  }

  lemma {:induction false} NetSum<R>(a: seq<Event<R>>, b: seq<Event<R>>, x: R)
    ensures NetAll(a + b, x) == NetAll(a, x) + NetAll(b, x)
  {
    if a == [] {
      assert a + b == b;
    } else {
      DropConcat(a, b, 1);
      NetSum(a[1..], b, x);
    }
  }

  lemma {:induction false} NetOfUndo<R>(es: seq<Event<R>>, x: R)
    ensures NetAll(Undo(es), x) == -NetAll(es, x)
  {
    if es != [] {
      var last := Flashback(es[0]);
      NetOfUndo(es[1..], x);
      NetSum(Undo(es[1..]), [last], x);
      assert [last][1..] == [];
      NetOfFlashback(es[0], x);
    }
  }

  lemma {:induction false} PickCounts<T>(xs: seq<T>, marks: seq<bool>, x: T)
    requires |xs| == |marks|
    ensures multiset(xs)[x] == multiset(Pick(xs, marks, true))[x] + multiset(Pick(xs, marks, false))[x]
  {
    if xs != [] {
      PickCounts(xs[1..], marks[1..], x);
      HeadTail(xs);
      var t, f := Pick(xs[1..], marks[1..], true), Pick(xs[1..], marks[1..], false);
      assert [] + t == t && [] + f == f;
      assert multiset([xs[0]] + t) == multiset([xs[0]]) + multiset(t);
      assert multiset([xs[0]] + f) == multiset([xs[0]]) + multiset(f);
      assert multiset(xs) == multiset([xs[0]]) + multiset(xs[1..]);
    }
  }

  lemma {:induction false} PickImages<R>(cs: seq<Replace<R>>, marks: seq<bool>, b: bool)
    requires |cs| == |marks|
    ensures Befores(Pick(cs, marks, b)) == Pick(Befores(cs), marks, b)
    ensures Afters(Pick(cs, marks, b)) == Pick(Afters(cs), marks, b)
  {
    if cs != [] {
      PickImages(cs[1..], marks[1..], b);
      var rest := Pick(cs[1..], marks[1..], b);
      assert Befores(cs)[1..] == Befores(cs[1..]) && Afters(cs)[1..] == Afters(cs[1..]);
      assert Befores([cs[0]] + rest) == [cs[0].before] + Befores(rest);
      assert Afters([cs[0]] + rest) == [cs[0].after] + Afters(rest);
      assert [] + rest == rest && [] + Befores(rest) == Befores(rest) && [] + Afters(rest) == Afters(rest);
    }
  }

  /** The two parts of an event together add what the event adds. */
  lemma NetSplits<R>(m: Marked<R>, x: R)
    requires |m.marks| == Size(m.event)
    ensures Net(m.event, x) == Net(Part(m, true), x) + Net(Part(m, false), x)
  {
    match m.event {
      case Insert(rows) => PickCounts(rows, m.marks, x);
      case Delete(rows) => PickCounts(rows, m.marks, x);
      case Update(cs) =>
        PickImages(cs, m.marks, true);
        PickImages(cs, m.marks, false);
        PickCounts(Befores(cs), m.marks, x);
        PickCounts(Afters(cs), m.marks, x);
    }
  }

  lemma {:induction false} NetAllSplits<R>(es: seq<Marked<R>>, x: R)
    requires AllMarked(es)
    ensures NetAll(Wholes(es), x) == NetAll(Parts(es, true), x) + NetAll(Parts(es, false), x)
    decreases |es|
  {
    if es != [] {
      NetSplits(es[0], x);
      NetAllSplits(es[1..], x);
      assert Wholes(es)[1..] == Wholes(es[1..]);
      assert Parts(es, true)[1..] == Parts(es[1..], true) && Parts(es, false)[1..] == Parts(es[1..], false);
    }
  }

  /**
   Whatever the filter: a replay that goes through leaves of every row what there was
   at first and what the changes that did not match added.
   */
  lemma OnlyMatchingUndone<R>(db: Db<R>, es: seq<Marked<R>>, end: Db<R>, x: R)
    requires AllMarked(es) && ApplyAll(db, Wholes(es)).Some?
    requires ApplyAll(ApplyAll(db, Wholes(es)).value, Undo(Parts(es, true))) == Some(end)
    ensures end[x] == db[x] + NetAll(Parts(es, false), x)
  {
    NetOfRun(db, Wholes(es), x);
    NetOfRun(ApplyAll(db, Wholes(es)).value, Undo(Parts(es, true)), x);
    NetOfUndo(Parts(es, true), x);
    NetAllSplits(es, x);
  }

  // ----- when the replay goes through -----

  /** All copies in db are of rows with p. */
  ghost predicate Pure<R(!new)>(db: Db<R>, p: R -> bool, b: bool) { forall x :: x in db ==> p(x) == b }

  /** Matching and other rows are told apart by p, before and after. */
  ghost predicate Apart<R(!new)>(m: Marked<R>, p: R -> bool)
    requires |m.marks| == Size(m.event)
  {
    match m.event
    case Insert(rows) => forall i :: 0 <= i < |rows| ==> p(rows[i]) == m.marks[i]
    case Delete(rows) => forall i :: 0 <= i < |rows| ==> p(rows[i]) == m.marks[i]
    case Update(cs) => forall i :: 0 <= i < |cs| ==> p(cs[i].before) == p(cs[i].after) == m.marks[i]
  }

  ghost predicate AllApart<R(!new)>(es: seq<Marked<R>>, p: R -> bool)
    requires AllMarked(es)
  {
    forall i :: 0 <= i < |es| ==> Apart(es[i], p)
  }

  function Both<R>(a: Option<Db<R>>, b: Option<Db<R>>): (r: Option<Db<R>>) {
    if a.Some? && b.Some? then Some(a.value + b.value) else None
  }

  lemma {:induction false} DeletesApart<R(!new)>(on: Db<R>, off: Db<R>, rows: seq<R>, marks: seq<bool>, p: R -> bool)
    requires |rows| == |marks| && Pure(on, p, true) && Pure(off, p, false)
    requires forall i :: 0 <= i < |rows| ==> p(rows[i]) == marks[i]
    ensures ApplyDeletes(on + off, rows)
         == Both(ApplyDeletes(on, Pick(rows, marks, true)), ApplyDeletes(off, Pick(rows, marks, false)))
    decreases |rows|
  {
    if rows != [] {
      var x, t, f := rows[0], Pick(rows[1..], marks[1..], true), Pick(rows[1..], marks[1..], false);
      assert p(x) == marks[0];
      assert [] + t == t && [] + f == f && ([x] + t)[1..] == t && ([x] + f)[1..] == f;
      var one := multiset{x};
      if x in on + off {
        if marks[0] {
          assert on + off - one == on - one + off;
          DeletesApart(on - one, off, rows[1..], marks[1..], p);
        } else {
          assert on + off - one == on + (off - one);
          DeletesApart(on, off - one, rows[1..], marks[1..], p);
        }
      }
    }
  }

  lemma {:induction false} UpdatesApart<R(!new)>(on: Db<R>, off: Db<R>, cs: seq<Replace<R>>, marks: seq<bool>,
                                                 p: R -> bool)
    requires |cs| == |marks| && Pure(on, p, true) && Pure(off, p, false)
    requires forall i :: 0 <= i < |cs| ==> p(cs[i].before) == p(cs[i].after) == marks[i]
    ensures ApplyUpdates(on + off, cs)
         == Both(ApplyUpdates(on, Pick(cs, marks, true)), ApplyUpdates(off, Pick(cs, marks, false)))
    decreases |cs|
  {
    if cs != [] {
      var c, t, f := cs[0], Pick(cs[1..], marks[1..], true), Pick(cs[1..], marks[1..], false);
      assert p(c.before) == p(c.after) == marks[0];
      assert [] + t == t && [] + f == f && ([c] + t)[1..] == t && ([c] + f)[1..] == f;
      var b, a := multiset{c.before}, multiset{c.after};
      if c.before in on + off {
        if marks[0] {
          assert on + off - b + a == on - b + a + off;
          UpdatesApart(on - b + a, off, cs[1..], marks[1..], p);
        } else {
          assert on + off - b + a == on + (off - b + a);
          UpdatesApart(on, off - b + a, cs[1..], marks[1..], p);
        }
      }
    }
  }

  lemma {:induction false} InsertsApart<R(!new)>(rows: seq<R>, marks: seq<bool>)
    requires |rows| == |marks|
    ensures multiset(rows) == multiset(Pick(rows, marks, true)) + multiset(Pick(rows, marks, false))
  {
    var t, f := multiset(Pick(rows, marks, true)), multiset(Pick(rows, marks, false));
    forall x ensures multiset(rows)[x] == t[x] + f[x] { PickCounts(rows, marks, x); }
    assert multiset(rows) == t + f;
  }

  lemma EventApart<R(!new)>(on: Db<R>, off: Db<R>, m: Marked<R>, p: R -> bool)
    requires |m.marks| == Size(m.event) && Apart(m, p) && Pure(on, p, true) && Pure(off, p, false)
    ensures Apply(on + off, m.event) == Both(Apply(on, Part(m, true)), Apply(off, Part(m, false)))
  {
    match m.event {
      case Insert(rows) =>
        InsertsApart(rows, m.marks);
        var t, f := multiset(Pick(rows, m.marks, true)), multiset(Pick(rows, m.marks, false));
        assert on + off + (t + f) == on + t + (off + f);
      case Delete(rows) => DeletesApart(on, off, rows, m.marks, p);
      case Update(cs) => UpdatesApart(on, off, cs, m.marks, p);
    }
  }

  /** The rows an event leaves are of the kind it is about. */
  ghost predicate Keeps<R(!new)>(e: Event<R>, p: R -> bool, b: bool) {
    match e
    case Insert(rows) => forall x :: x in rows ==> p(x) == b
    case Delete(rows) => true
    case Update(cs) => forall c :: c in cs ==> p(c.after) == b
  }

  lemma {:induction false} PickKeeps<R(!new)>(m: Marked<R>, p: R -> bool, b: bool)
    requires |m.marks| == Size(m.event) && Apart(m, p)
    ensures Keeps(Part(m, b), p, b) && Keeps(Flashback(Part(m, b)), p, b)
  {
    match m.event {
      case Insert(rows) =>
        forall x | x in Pick(rows, m.marks, b) ensures p(x) == b { Picked(rows, m.marks, b, x); }
      case Delete(rows) =>
        forall x | x in Pick(rows, m.marks, b) ensures p(x) == b { Picked(rows, m.marks, b, x); }
      case Update(cs) =>
        var ks := Pick(cs, m.marks, b);
        forall c | c in ks ensures p(c.before) == p(c.after) == b { Picked(cs, m.marks, b, c); }
        forall c | c in Exchanged(ks) ensures p(c.after) == b {
          var i :| 0 <= i < |ks| && Exchanged(ks)[i] == c;
          assert ks[i] in ks;
        }
    }
  }

  lemma {:induction false} Picked<T>(xs: seq<T>, marks: seq<bool>, b: bool, x: T)
    requires |xs| == |marks| && x in Pick(xs, marks, b)
    ensures exists i :: 0 <= i < |xs| && xs[i] == x && marks[i] == b
  {
    if marks[0] == b && xs[0] == x {
    } else {
      Picked(xs[1..], marks[1..], b, x);
      var i :| 0 <= i < |xs[1..]| && xs[1..][i] == x && marks[1..][i] == b;
      assert xs[i + 1] == x && marks[i + 1] == b;
    }
  }

  lemma {:induction false} StaysPure<R(!new)>(db: Db<R>, e: Event<R>, p: R -> bool, b: bool)
    requires Pure(db, p, b) && Keeps(e, p, b) && Apply(db, e).Some?
    ensures Pure(Apply(db, e).value, p, b)
  {
    match e {
      case Insert(rows) =>
      case Delete(rows) => DeletesSubtract(db, rows);
      case Update(cs) => UpdatesPure(db, cs, p, b);
    }
  }

  lemma {:induction false} UpdatesPure<R(!new)>(db: Db<R>, cs: seq<Replace<R>>, p: R -> bool, b: bool)
    requires Pure(db, p, b) && (forall c :: c in cs ==> p(c.after) == b) && ApplyUpdates(db, cs).Some?
    ensures Pure(ApplyUpdates(db, cs).value, p, b)
    decreases |cs|
  {
    if cs != [] {
      assert cs[0] in cs;
      UpdatesPure(db - multiset{cs[0].before} + multiset{cs[0].after}, cs[1..], p, b);
    }
  }

  /** A run over rows told apart is two runs. */
  lemma {:induction false} RunApart<R(!new)>(on: Db<R>, off: Db<R>, es: seq<Marked<R>>, p: R -> bool)
    requires AllMarked(es) && AllApart(es, p) && Pure(on, p, true) && Pure(off, p, false)
    ensures ApplyAll(on + off, Wholes(es)) == Both(ApplyAll(on, Parts(es, true)), ApplyAll(off, Parts(es, false)))
    ensures ApplyAll(on, Parts(es, true)).Some? ==> Pure(ApplyAll(on, Parts(es, true)).value, p, true)
    ensures ApplyAll(off, Parts(es, false)).Some? ==> Pure(ApplyAll(off, Parts(es, false)).value, p, false)
    decreases |es|
  {
    if es != [] {
      var m := es[0];
      EventApart(on, off, m, p);
      PickKeeps(m, p, true);
      PickKeeps(m, p, false);
      var a, b := Apply(on, Part(m, true)), Apply(off, Part(m, false));
      RunStep(on, off, es);
      if a.Some? { StaysPure(on, Part(m, true), p, true); }
      if b.Some? { StaysPure(off, Part(m, false), p, false); }
      RunApart(if a.Some? then a.value else multiset{}, if b.Some? then b.value else multiset{}, es[1..], p);
    }
  }

  lemma RunStep<R>(on: Db<R>, off: Db<R>, es: seq<Marked<R>>)
    requires AllMarked(es) && es != []
    ensures Wholes(es)[1..] == Wholes(es[1..]) && Wholes(es)[0] == es[0].event
    ensures Parts(es, true)[1..] == Parts(es[1..], true) && Parts(es, true)[0] == Part(es[0], true)
    ensures Parts(es, false)[1..] == Parts(es[1..], false) && Parts(es, false)[0] == Part(es[0], false)
  {
  }

  /** Events about rows of one kind leave the rows of the other kind alone. */
  lemma {:induction false} OthersStay<R(!new)>(on: Db<R>, off: Db<R>, e: Event<R>, p: R -> bool)
    requires Pure(off, p, false) && OnlyAbout(e, p)
    ensures Apply(on + off, e) == Both(Apply(on, e), Some(off))
  {
    match e {
      case Insert(rows) => assert on + off + multiset(rows) == on + multiset(rows) + off;
      case Delete(rows) => DeletesLeave(on, off, rows, p);
      case Update(cs) => UpdatesLeave(on, off, cs, p);
    }
  }

  ghost predicate OnlyAbout<R(!new)>(e: Event<R>, p: R -> bool) {
    match e
    case Insert(rows) => forall x :: x in rows ==> p(x)
    case Delete(rows) => forall x :: x in rows ==> p(x)
    case Update(cs) => forall c :: c in cs ==> p(c.before) && p(c.after)
  }

  lemma {:induction false} DeletesLeave<R(!new)>(on: Db<R>, off: Db<R>, rows: seq<R>, p: R -> bool)
    requires Pure(off, p, false) && forall x :: x in rows ==> p(x)
    ensures ApplyDeletes(on + off, rows) == Both(ApplyDeletes(on, rows), Some(off))
    decreases |rows|
  {
    if rows != [] {
      assert rows[0] in rows;
      var one := multiset{rows[0]};
      if rows[0] in on {
        assert on + off - one == on - one + off;
        DeletesLeave(on - one, off, rows[1..], p);
      }
    }
  }

  lemma {:induction false} UpdatesLeave<R(!new)>(on: Db<R>, off: Db<R>, cs: seq<Replace<R>>, p: R -> bool)
    requires Pure(off, p, false) && forall c :: c in cs ==> p(c.before) && p(c.after)
    ensures ApplyUpdates(on + off, cs) == Both(ApplyUpdates(on, cs), Some(off))
    decreases |cs|
  {
    if cs != [] {
      assert cs[0] in cs;
      var b, a := multiset{cs[0].before}, multiset{cs[0].after};
      if cs[0].before in on {
        assert on + off - b + a == on - b + a + off;
        UpdatesLeave(on - b + a, off, cs[1..], p);
      }
    }
  }

  lemma {:induction false} RunLeaves<R(!new)>(on: Db<R>, off: Db<R>, es: seq<Event<R>>, p: R -> bool)
    requires Pure(off, p, false) && forall i :: 0 <= i < |es| ==> OnlyAbout(es[i], p)
    ensures ApplyAll(on + off, es) == Both(ApplyAll(on, es), Some(off))
    decreases |es|
  {
    if es != [] {
      OthersStay(on, off, es[0], p);
      if Apply(on, es[0]).Some? { RunLeaves(Apply(on, es[0]).value, off, es[1..], p); }
    }
  }

  lemma PartIsAbout<R(!new)>(m: Marked<R>, p: R -> bool)
    requires |m.marks| == Size(m.event) && Apart(m, p)
    ensures OnlyAbout(Part(m, true), p) && OnlyAbout(Flashback(Part(m, true)), p)
  {
    match m.event {
      case Insert(rows) =>
        forall x | x in Pick(rows, m.marks, true) ensures p(x) { Picked(rows, m.marks, true, x); }
      case Delete(rows) =>
        forall x | x in Pick(rows, m.marks, true) ensures p(x) { Picked(rows, m.marks, true, x); }
      case Update(cs) =>
        var ks := Pick(cs, m.marks, true);
        forall c | c in ks ensures p(c.before) && p(c.after) { Picked(cs, m.marks, true, c); }
        forall c | c in Exchanged(ks) ensures p(c.before) && p(c.after) {
          var i :| 0 <= i < |ks| && Exchanged(ks)[i] == c;
          assert ks[i] in ks;
        }
    }
  }

  lemma {:induction false} UndoIsAbout<R(!new)>(es: seq<Marked<R>>, p: R -> bool)
    requires AllMarked(es) && AllApart(es, p)
    ensures forall i :: 0 <= i < |Undo(Parts(es, true))| ==> OnlyAbout(Undo(Parts(es, true))[i], p)
  {
    if es != [] {
      UndoIsAbout(es[1..], p);
      PartIsAbout(es[0], p);
      var us := Undo(Parts(es[1..], true));
      assert Parts(es, true)[1..] == Parts(es[1..], true);
      assert Undo(Parts(es, true)) == us + [Flashback(Part(es[0], true))];
    }
  }

  /**
   When the filter tells the rows apart, before and after: the replay takes the matching
   rows back to what they were and leaves the others as the run left them, exactly when
   the matching part of the run is restorable.
   */
  lemma MatchingRestored<R(!new)>(on: Db<R>, off: Db<R>, es: seq<Marked<R>>, p: R -> bool)
    requires AllMarked(es) && AllApart(es, p) && Pure(on, p, true) && Pure(off, p, false)
    requires ApplyAll(on + off, Wholes(es)).Some?
    ensures ApplyAll(on, Parts(es, true)).Some? && ApplyAll(off, Parts(es, false)).Some?
    ensures ApplyAll(ApplyAll(on + off, Wholes(es)).value, Undo(Parts(es, true)))
         == if RunRestorable(on, Parts(es, true)) then Some(on + ApplyAll(off, Parts(es, false)).value) else None
  {
    RunApart(on, off, es, p);
    var a, b := ApplyAll(on, Parts(es, true)).value, ApplyAll(off, Parts(es, false)).value;
    UndoIsAbout(es, p);
    RunLeaves(a, b, Undo(Parts(es, true)), p);
    UndoWholeRun(on, Parts(es, true));
  }
}
