/**
 What the loops of client/pool.go can still do: whether a client is ever held up, and when Close,
 which waits for both loops, can go on.
 */
module PoolProgress {
  import opened Pool

  // ----- clients -----

  /** A client either takes a connection or waits; it may give up waiting, and return what it was lent. */
  lemma ClientsGoOn(cfg: Config, s: State, id: nat, now: int)
    ensures Enabled(cfg, s, GetIdle) <==> !Enabled(cfg, s, WaitForOne)
    ensures Enabled(cfg, s, GiveUp) <==> s.waiting > 0
    ensures Enabled(cfg, s, PutBack(id, now)) && Enabled(cfg, s, DropOne(id)) <==> id in s.lent
    ensures Enabled(cfg, s, HandBack(id)) <==> id in s.lent && s.waiting > 0
  {
  }

  // ----- the producer -----

  /** As many as allowed are counted and none is idle: the producer sleeps and asks again, whatever the context says. */
  predicate Sleeps(cfg: Config, s: State) { s.prod == Ready && s.slots.idle == [] && s.slots.total >= cfg.maxAlive }

  ghost predicate ProducerOnly(acts: seq<Action>) { forall i :: 0 <= i < |acts| ==> IsProducer(acts[i]) }

  ghost predicate StopsBy(cfg: Config, s: State, acts: seq<Action>) {
    ProducerOnly(acts) && Possible(cfg, s, acts) && Run(cfg, s, acts).prod == Stopped
  }

  ghost predicate ProducerCanStop(cfg: Config, s: State) { exists acts :: StopsBy(cfg, s, acts) }

  /**
   After Close has cancelled the context the producer can come to its end by itself, except while it
   sleeps: then it takes no step until a client or the recheck loop gives a connection back or drops one.
   */
  lemma ProducerStops(cfg: Config, s: State)
    requires s.cancelled
    ensures ProducerCanStop(cfg, s) <==> !Sleeps(cfg, s)
  {
    if Sleeps(cfg, s) {
      forall acts ensures !StopsBy(cfg, s, acts) { SleeperStays(cfg, s, acts); }
    } else {
      var acts := WayOut(cfg, s);
      assert StopsBy(cfg, s, acts);
    }
  }

  lemma SleeperStays(cfg: Config, s: State, acts: seq<Action>)
    requires Sleeps(cfg, s)
    ensures !StopsBy(cfg, s, acts)
  {
    if acts != [] && ProducerOnly(acts) { assert IsProducer(acts[0]); }
  }

  lemma WayOut(cfg: Config, s: State) returns (acts: seq<Action>)
    requires s.cancelled && !Sleeps(cfg, s)
    ensures StopsBy(cfg, s, acts)
  {
    match s.prod {
      case Stopped => acts := [];
      case Reserved => acts := OneStep(cfg, s, CreateFails(true));
      case Holding(_) => acts := OneStep(cfg, s, StopProducer);
      case Ready =>
        if s.slots.idle != [] {
          acts := TwoSteps(cfg, s, ProduceIdle, StopProducer);
        } else {
          acts := TwoSteps(cfg, s, Reserve, CreateFails(true));
        }
    }
  }

  lemma OneStep(cfg: Config, s: State, a: Action) returns (acts: seq<Action>)
    requires IsProducer(a) && Enabled(cfg, s, a) && Do(cfg, s, a).prod == Stopped
    ensures StopsBy(cfg, s, acts)
  {
    acts := [a];
    RunOne(cfg, s, a);
  }

  lemma TwoSteps(cfg: Config, s: State, a: Action, b: Action) returns (acts: seq<Action>)
    requires IsProducer(a) && IsProducer(b) && Enabled(cfg, s, a)
    requires Enabled(cfg, Do(cfg, s, a), b) && Do(cfg, Do(cfg, s, a), b).prod == Stopped
    ensures StopsBy(cfg, s, acts)
  {
    acts := [a] + [b];
    RunOne(cfg, Do(cfg, s, a), b);
    RunStep(cfg, s, a, [b]);
  }

  // ----- the recheck loop -----

  /** A connection that a batch has started is one of those it has left. */
  predicate Sane(b: Batch) { b.On? && b.started.Some? ==> b.left > 0 }

  lemma {:induction false} BatchesStaySane(cfg: Config, s: State, acts: seq<Action>)
    requires Sane(s.init) && Sane(s.spawn) && Possible(cfg, s, acts)
    ensures Sane(Run(cfg, s, acts).init) && Sane(Run(cfg, s, acts).spawn)
    decreases |acts|
  {
    if acts != [] {
      if IsBatch(acts[0]) { BatchStepSane(cfg, s, acts[0]); } else { OtherStepSane(cfg, s, acts[0]); }
      BatchesStaySane(cfg, Do(cfg, s, acts[0]), acts[1..]);
    }
  }

  lemma BatchStepSane(cfg: Config, s: State, a: Action)
    requires Sane(s.init) && Sane(s.spawn) && Enabled(cfg, s, a) && IsBatch(a)
    ensures Sane(Do(cfg, s, a).init) && Sane(Do(cfg, s, a).spawn)
  {
  }

  lemma OtherStepSane(cfg: Config, s: State, a: Action)
    requires Sane(s.init) && Sane(s.spawn) && Enabled(cfg, s, a) && !IsBatch(a)
    ensures Sane(Do(cfg, s, a).init) && Sane(Do(cfg, s, a).spawn)
  {
    assert a.StartSpawn? || Do(cfg, s, a).spawn == s.spawn;
  }

  /** Steps of the recheck loop, of its pings and of the batch it starts. */
  predicate Rechecks(a: Action) { IsRecheck(a) || IsPing(a) || (IsBatch(a) && !a.first) }

  ghost predicate RecheckOnly(acts: seq<Action>) { forall i :: 0 <= i < |acts| ==> Rechecks(acts[i]) }

  function Stage(s: State): (n: nat) {
    match s.recheck
    case Ended => 0
    case Waiting => 1
    case Closing => 2
    case Declined => 3
    case Spawning => 3
    case Checking => 4
  }

  function Work(s: State): (n: nat)
    requires Sane(s.spawn)
  {
    |s.checking| + |s.closing| +
    if s.spawn.Off? then 0 else 2 * s.spawn.left + if s.spawn.started.Some? then 0 else 1
  }

  /** The next step towards the end, when every ping and every start of a connection fails. */
  function Onward(cfg: Config, s: State): (a: Action)
    requires s.recheck != Ended
  {
    match s.recheck
    case Waiting => StopRecheck
    case Checking =>
      if s.checking != [] then PingFails(0)
      else if SpawnCount(s.slots, cfg.minAlive) > 0 then StartSpawn
      else DeclineSpawn
    case Declined => TakeToClose
    case Closing => if s.closing != [] then CloseTaken else EndRecheck
    case Spawning =>
      if s.spawn.Off? then EndRecheck
      else if s.spawn.started.Some? then BatchCounts(false)
      else if s.spawn.left > 0 then BatchFails(false) else BatchPuts(false)
  }

  predicate Nearer(s: State, r: State)
    requires Sane(s.spawn)
  {
    r.cancelled && Sane(r.spawn) && (Stage(r) < Stage(s) || (Stage(r) == Stage(s) && Work(r) < Work(s)))
  }

  lemma OnwardGoesOn(cfg: Config, s: State)
    requires s.cancelled && s.recheck != Ended && Sane(s.spawn)
    ensures var a := Onward(cfg, s); Enabled(cfg, s, a) && Rechecks(a) && Nearer(s, Do(cfg, s, a))
  {
    if s.recheck == Spawning && s.spawn.On? {
      BatchOnward(cfg, s);
    } else if s.recheck == Checking {
      CheckOnward(cfg, s);
    }
  }

  lemma BatchOnward(cfg: Config, s: State)
    requires s.cancelled && s.recheck == Spawning && s.spawn.On? && Sane(s.spawn)
    ensures var a := Onward(cfg, s); Enabled(cfg, s, a) && Rechecks(a) && Nearer(s, Do(cfg, s, a))
  {
  }

  lemma CheckOnward(cfg: Config, s: State)
    requires s.cancelled && s.recheck == Checking && Sane(s.spawn)
    ensures var a := Onward(cfg, s); Enabled(cfg, s, a) && Rechecks(a) && Nearer(s, Do(cfg, s, a))
  {
  }

  /** The recheck loop can come to its end by itself, from whatever it is doing. */
  lemma {:induction false} RecheckEnds(cfg: Config, s: State) returns (acts: seq<Action>)
    requires s.cancelled && Sane(s.spawn)
    ensures RecheckOnly(acts) && Possible(cfg, s, acts) && Run(cfg, s, acts).recheck == Ended
    decreases Stage(s), Work(s)
  {
    if s.recheck == Ended {
      acts := [];
    } else {
      var a := Onward(cfg, s);
      OnwardGoesOn(cfg, s);
      var more := RecheckEnds(cfg, Do(cfg, s, a));
      acts := [a] + more;
      RunStep(cfg, s, a, more);
    }
  }

  /** So on every run that was cancelled. */
  lemma RecheckCanEnd(cfg: Config, acts: seq<Action>) returns (more: seq<Action>)
    requires Possible(cfg, Init(cfg), acts) && Run(cfg, Init(cfg), acts).cancelled
    ensures RecheckOnly(more) && Possible(cfg, Run(cfg, Init(cfg), acts), more)
    ensures Run(cfg, Run(cfg, Init(cfg), acts), more).recheck == Ended
  {
    BatchesStaySane(cfg, Init(cfg), acts);
    more := RecheckEnds(cfg, Run(cfg, Init(cfg), acts));
  }
}
