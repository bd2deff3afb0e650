/**
 The connection pool of client/pool.go: what happens under its mutex, as
 functions of the idle slice and the counter; and the whole pool as atomic
 steps of its clients, the producer, the recheck loop and the two ways of
 starting connections in batches. Connecting and pinging may fail at any time.
 */
module Pool {
  import opened Bytes
  import opened Lists

  datatype Conn = Conn(id: nat, lastUse: int)

  /** Limits as the constructor leaves them. */
  datatype Config = Config(minAlive: nat, maxAlive: nat, maxIdle: nat)

  /** NewPoolWithOptions: the order the limits are brought into. */
  function Limits(minAlive: nat, maxAlive: nat, maxIdle: nat): (c: Config)
    ensures c.minAlive <= c.maxAlive && c.minAlive <= c.maxIdle <= c.maxAlive
  {
    var lo := if minAlive > maxAlive then maxAlive else minAlive;
    var hi := if maxIdle > maxAlive then maxAlive else maxIdle;
    Config(lo, maxAlive, if hi <= lo then lo else hi)
  }

  /** The configurations a pool can have: those in order. */
  predicate Configured(c: Config) { c.minAlive <= c.maxAlive && c.minAlive <= c.maxIdle <= c.maxAlive }

  /** The limits asked for if they are in order, and otherwise the nearest to them under the same maxAlive. */
  lemma LimitsAreConfigured(minAlive: nat, maxAlive: nat, maxIdle: nat, c: Config)
    ensures Configured(Limits(minAlive, maxAlive, maxIdle)) && Limits(minAlive, maxAlive, maxIdle).maxAlive == maxAlive
    ensures Configured(c) ==> Limits(c.minAlive, c.maxAlive, c.maxIdle) == c
    ensures var l := Limits(minAlive, maxAlive, maxIdle);
      Configured(c) && c.maxAlive == maxAlive ==>
        && Apart(l.minAlive, minAlive) <= Apart(c.minAlive, minAlive)
        && (c.minAlive == l.minAlive ==> Apart(l.maxIdle, maxIdle) <= Apart(c.maxIdle, maxIdle))
  {
  }

  function Apart(a: nat, b: nat): (n: nat) { if a < b then b - a else a - b }

  const MAX_NEW_CONNECTION_AT_ONCE := 5

  // ----- under the mutex -----

  /** The idle slice with its capacity, and TotalCount. */
  datatype Slots = Slots(idle: seq<Conn>, cap: nat, total: int)

  /** putConnectionUnsafe: a full slice turns the connection away. */
  function Put(s: Slots, c: Conn): (r: Slots) {
    if |s.idle| == s.cap then s.(total := s.total - 1) else s.(idle := s.idle + [c])
  }

  function PutAll(s: Slots, cs: seq<Conn>): (r: Slots)
    decreases |cs|
  {
    if cs == [] then s else PutAll(Put(s, cs[0]), cs[1..])
  }

  /** The swap-remove loop of getOldIdleConnections, with the connections from index i on already seen. */
  function SweepFrom(idle: seq<Conn>, i: nat, checkBefore: int, dst: seq<Conn>): (r: (seq<Conn>, seq<Conn>))
    requires i <= |idle|
    decreases i
  {
    if i == 0 then (idle, dst)
    else if idle[i - 1].lastUse > checkBefore then SweepFrom(idle, i - 1, checkBefore, dst)
    else SweepFrom(SwapRemove(idle, i - 1), i - 1, checkBefore, dst + [idle[i - 1]])
  }

  function SwapRemove(s: seq<Conn>, i: nat): (r: seq<Conn>)
    requires i < |s|
    ensures |r| == |s| - 1
  {
    s[i := s[|s| - 1]][..|s| - 1]
  }

  function Sweep(idle: seq<Conn>, checkBefore: int): (r: (seq<Conn>, seq<Conn>)) {
    SweepFrom(idle, |idle|, checkBefore, [])
  }

  /**
   How many idle connections closeIdleConnectionsIfCan takes off the end: a tenth of them, at
   least one, as long as more than minAlive stay.
   */
  function CloseCount(s: Slots, minAlive: nat): (n: nat)
    ensures n <= |s.idle|
    ensures n > 0 ==> s.total - n >= minAlive + 1
    ensures n > 0 <==> s.idle != [] && s.total >= minAlive + 2
    ensures n > 0 ==> n == 1 || 10 * n <= |s.idle|
    ensures n > 0 ==> 10 * (n + 1) > |s.idle| || n == s.total - minAlive - 1
  {
    var canClose := s.total - minAlive - 1;
    var tenth := if |s.idle| / 10 == 0 then 1 else |s.idle| / 10;
    var k := if canClose > tenth then tenth else canClose;
    if k <= 0 then 0 else if |s.idle| < k then |s.idle| else k
  }

  /** How many connections spawnConnectionsIfNeeded starts. */
  function SpawnCount(s: Slots, minAlive: nat): (n: nat)
    ensures n > 0 ==> s.total + n <= minAlive
    ensures n <= MAX_NEW_CONNECTION_AT_ONCE && (s.total >= 0 ==> n <= minAlive)
    ensures s.total < minAlive ==> s.total + n == minAlive || n == 5
  {
    var need := minAlive - s.total;
    if need <= 0 then 0 else if need > MAX_NEW_CONNECTION_AT_ONCE then MAX_NEW_CONNECTION_AT_ONCE else need
  }

  // ----- what the sweep does -----

  /** How often connection x is in a list. */
  function Times(cs: seq<Conn>, x: nat): (n: nat) {
    if cs == [] then 0 else (if cs[0].id == x then 1 else 0) + Times(cs[1..], x)
  }

  function One(c: Conn, x: nat): (n: nat) { if c.id == x then 1 else 0 }

  lemma {:induction false} TimesSum(a: seq<Conn>, b: seq<Conn>, x: nat)
    ensures Times(a + b, x) == Times(a, x) + Times(b, x)
  {
    if a == [] {
      assert a + b == b;
    } else {
      DropConcat(a, b, 1);
      TimesSum(a[1..], b, x);
    }
  }

  lemma TimesAppend(cs: seq<Conn>, c: Conn, x: nat)
    ensures Times(cs + [c], x) == Times(cs, x) + One(c, x)
  {
    TimesSum(cs, [c], x);
    assert [c][1..] == [];
  }

  lemma TimesSplit(cs: seq<Conn>, k: nat, x: nat)
    requires k <= |cs|
    ensures Times(cs, x) == Times(cs[..k], x) + Times(cs[k..], x)
  {
    assert cs == cs[..k] + cs[k..];
    TimesSum(cs[..k], cs[k..], x);
  }

  lemma TimesAt(cs: seq<Conn>, i: nat, x: nat)
    requires i < |cs|
    ensures Times(cs, x) == Times(cs[..i], x) + One(cs[i], x) + Times(cs[i + 1..], x)
  {
    TimesSplit(cs, i, x);
    assert cs[i..][1..] == cs[i + 1..];
  }

  /** Taking element i out, whatever the order of the others. */
  function Without(cs: seq<Conn>, i: nat): (r: seq<Conn>)
    requires i < |cs|
    ensures |r| == |cs| - 1
  {
    cs[..i] + cs[i + 1..]
  }

  lemma TimesWithout(cs: seq<Conn>, i: nat, x: nat)
    requires i < |cs|
    ensures Times(cs, x) == Times(Without(cs, i), x) + One(cs[i], x)
  {
    TimesAt(cs, i, x);
    TimesSum(cs[..i], cs[i + 1..], x);
  }

  lemma TimesSwapRemove(s: seq<Conn>, i: nat, x: nat)
    requires i < |s|
    ensures Times(s, x) == Times(SwapRemove(s, i), x) + One(s[i], x)
  {
    var last := |s| - 1;
    TimesAt(s, i, x);
    if i == last {
      assert SwapRemove(s, i) == s[..i] && s[i + 1..] == [];
    } else {
      var rest := s[i + 1..];
      var mid := rest[..|rest| - 1];
      assert SwapRemove(s, i) == s[..i] + ([s[last]] + mid);
      assert rest == mid + [s[last]];
      TimesAppend(mid, s[last], x);
      TimesSum(s[..i], [s[last]] + mid, x);
      assert ([s[last]] + mid)[1..] == mid;
    }
  }

  predicate AllOld(cs: seq<Conn>, checkBefore: int) { forall i :: 0 <= i < |cs| ==> cs[i].lastUse <= checkBefore }

  predicate YoungFrom(cs: seq<Conn>, i: nat, checkBefore: int) {
    forall k :: i <= k < |cs| ==> cs[k].lastUse > checkBefore
  }

  /** The sweep loses no connection, takes exactly the old ones and leaves exactly the young ones. */
  lemma {:induction false} SweepFromDivides(idle: seq<Conn>, i: nat, checkBefore: int, dst: seq<Conn>)
    requires i <= |idle| && AllOld(dst, checkBefore) && YoungFrom(idle, i, checkBefore)
    ensures var r := SweepFrom(idle, i, checkBefore, dst);
      AllOld(r.1, checkBefore) && YoungFrom(r.0, 0, checkBefore) && |r.0| + |r.1| == |idle| + |dst| && |r.0| <= |idle|
    decreases i
  {
    if i > 0 {
      if idle[i - 1].lastUse > checkBefore {
        SweepFromDivides(idle, i - 1, checkBefore, dst);
      } else {
        SweepFromDivides(SwapRemove(idle, i - 1), i - 1, checkBefore, dst + [idle[i - 1]]);
      }
    }
  }

  lemma {:induction false} SweepFromKeeps(idle: seq<Conn>, i: nat, checkBefore: int, dst: seq<Conn>, x: nat)
    requires i <= |idle|
    ensures var r := SweepFrom(idle, i, checkBefore, dst);
      Times(r.0, x) + Times(r.1, x) == Times(idle, x) + Times(dst, x)
    decreases i
  {
    if i > 0 {
      if idle[i - 1].lastUse > checkBefore {
        SweepFromKeeps(idle, i - 1, checkBefore, dst, x);
      } else {
        TimesSwapRemove(idle, i - 1, x);
        TimesAppend(dst, idle[i - 1], x);
        SweepFromKeeps(SwapRemove(idle, i - 1), i - 1, checkBefore, dst + [idle[i - 1]], x);
      }
    }
  }

  lemma SweepDivides(idle: seq<Conn>, checkBefore: int)
    ensures var r := Sweep(idle, checkBefore);
      AllOld(r.1, checkBefore) && YoungFrom(r.0, 0, checkBefore) && |r.0| + |r.1| == |idle|
    ensures forall x :: Times(Sweep(idle, checkBefore).0, x) + Times(Sweep(idle, checkBefore).1, x) == Times(idle, x)
  {
    SweepFromDivides(idle, |idle|, checkBefore, []);
    forall x ensures Times(Sweep(idle, checkBefore).0, x) + Times(Sweep(idle, checkBefore).1, x) == Times(idle, x) {
      SweepFromKeeps(idle, |idle|, checkBefore, [], x);
    }
  }

  /** How many more connections the idle slice has room for. */
  function Room(s: Slots): (n: nat)
    requires |s.idle| <= s.cap
  {
    s.cap - |s.idle|
  }

  /** How many of n connections are kept. */
  function Taken(s: Slots, n: nat): (k: nat)
    requires |s.idle| <= s.cap
    ensures k <= n
  {
    if n <= Room(s) then n else Room(s)
  }

  /** Connections put back one after the other are kept while there is room, and closed and counted off from then on. */
  lemma {:induction false} PutAllIs(s: Slots, cs: seq<Conn>)
    requires |s.idle| <= s.cap
    ensures var k := Taken(s, |cs|); PutAll(s, cs) == Slots(s.idle + cs[..k], s.cap, s.total - (|cs| - k))
    decreases |cs|
  {
    var k := Taken(s, |cs|);
    if cs == [] {
      ConcatEmpty(s.idle);
    } else {
      PutAllIs(Put(s, cs[0]), cs[1..]);
      if k > 0 {
        assert cs[..k] == [cs[0]] + cs[1..][..k - 1];
        ConcatAssoc(s.idle, [cs[0]], cs[1..][..k - 1]);
      } else {
        assert cs[..k] == cs[1..][..0];
      }
    }
  }

  lemma PutKeeps(s: Slots, c: Conn, x: nat)
    requires |s.idle| <= s.cap
    ensures var r := Put(s, c);
      && Times(r.idle, x) + (if Room(s) == 0 then One(c, x) else 0) == Times(s.idle, x) + One(c, x)
      && r.total - |r.idle| == s.total - |s.idle| - 1 && |r.idle| <= r.cap == s.cap && r.total <= s.total
  {
    TimesAppend(s.idle, c, x);
  }

  lemma PutAllKeeps(s: Slots, cs: seq<Conn>, x: nat)
    requires |s.idle| <= s.cap
    ensures var r := PutAll(s, cs);
      && Times(r.idle, x) + Times(cs[Taken(s, |cs|)..], x) == Times(s.idle, x) + Times(cs, x)
      && r.total - |r.idle| == s.total - |s.idle| - |cs| && |r.idle| <= r.cap == s.cap && r.total <= s.total
  {
    var k := Taken(s, |cs|);
    PutAllIs(s, cs);
    TimesSum(s.idle, cs[..k], x);
    TimesSplit(cs, k, x);
  }

  // ----- the pool as a state machine -----

  /** newConnectionProducer: between connections, after counting one, with one to hand out. */
  datatype Producer = Stopped | Ready | Reserved | Holding(c: Conn)

  /** startNewConnections: connections still to start, one that is not yet counted, and those counted. */
  datatype Batch = Off | On(left: nat, started: Option<Conn>, held: seq<Conn>)

  /**
   closeOldIdleConnections: ended, waiting for its ticker, pinging, starting connections, about
   to close some, closing them.
   */
  datatype Recheck = Ended | Waiting | Checking | Spawning | Declined | Closing

  datatype State = State(slots: Slots, waiting: nat, lent: multiset<nat>, prod: Producer, recheck: Recheck,
                         checking: seq<Conn>, closing: seq<Conn>, init: Batch, spawn: Batch, next: nat,
                         cancelled: bool, closed: bool)

  datatype Action =
    | GetIdle | WaitForOne | GiveUp
    | PutBack(id: nat, now: int) | HandBack(id: nat) | DropOne(id: nat)
    | ProduceIdle | Reserve | Created(now: int) | CreateFails(stop: bool) | HandOut | StopProducer
    | SweepOld(checkBefore: int) | PingOk(i: nat) | PingOkHandOut(i: nat) | PingFails(i: nat)
    | StartSpawn | DeclineSpawn | TakeToClose | CloseTaken | EndRecheck | StopRecheck
    | BatchStarts(first: bool, now: int) | BatchFails(first: bool) | BatchCounts(first: bool) | BatchPuts(first: bool)
    | Cancel | CloseIdle

  function Which(s: State, first: bool): (b: Batch) { if first then s.init else s.spawn }

  function SetBatch(s: State, first: bool, b: Batch): (r: State) { if first then s.(init := b) else s.(spawn := b) }

  predicate Idle(s: State) { s.slots.idle != [] }

  predicate Enabled(cfg: Config, s: State, a: Action) {
    match a
    case GetIdle => Idle(s)
    case WaitForOne => !Idle(s)
    case GiveUp => s.waiting > 0
    case PutBack(id, _) => id in s.lent
    case HandBack(id) => id in s.lent && s.waiting > 0
    case DropOne(id) => id in s.lent
    case ProduceIdle => s.prod == Ready && Idle(s)
    case Reserve => s.prod == Ready && !Idle(s) && s.slots.total < cfg.maxAlive
    case Created(_) => s.prod == Reserved
    case CreateFails(stop) => s.prod == Reserved && (stop ==> s.cancelled)
    case HandOut => s.prod.Holding? && s.waiting > 0
    case StopProducer => s.prod.Holding? && s.cancelled
    case SweepOld(_) => s.recheck == Waiting
    case PingOk(i) => i < |s.checking|
    case PingOkHandOut(i) => i < |s.checking| && s.waiting > 0
    case PingFails(i) => i < |s.checking|
    case StartSpawn => s.recheck == Checking && s.checking == [] && SpawnCount(s.slots, cfg.minAlive) > 0
    case DeclineSpawn => s.recheck == Checking && s.checking == [] && SpawnCount(s.slots, cfg.minAlive) == 0
    case TakeToClose => s.recheck == Declined
    case CloseTaken => s.closing != []
    case EndRecheck => (s.recheck == Spawning && s.spawn == Off) || (s.recheck == Closing && s.closing == [])
    case StopRecheck => s.recheck == Waiting && s.cancelled
    case BatchStarts(f, _) => Which(s, f).On? && Which(s, f).left > 0 && Which(s, f).started == None
    case BatchFails(f) => Which(s, f).On? && Which(s, f).left > 0 && Which(s, f).started == None
    case BatchCounts(f) => Which(s, f).On? && Which(s, f).left > 0 && Which(s, f).started.Some?
    case BatchPuts(f) => Which(s, f).On? && Which(s, f).left == 0 && Which(s, f).started == None
    case Cancel => true
    case CloseIdle => s.cancelled && s.prod == Stopped && s.recheck == Ended && !s.closed
  }

  function PopIdle(s: State): (r: State)
    requires Idle(s)
  {
    s.(slots := s.slots.(idle := s.slots.idle[..|s.slots.idle| - 1]))
  }

  function LastIdle(s: State): (c: Conn)
    requires Idle(s)
  {
    s.slots.idle[|s.slots.idle| - 1]
  }

  function Uncount(s: State): (r: State) { s.(slots := s.slots.(total := s.slots.total - 1)) }

  function Do(cfg: Config, s: State, a: Action): (r: State)
    requires Enabled(cfg, s, a)
  {
    match a
    case GetIdle => PopIdle(s).(lent := s.lent + multiset{LastIdle(s).id})
    case WaitForOne => s.(waiting := s.waiting + 1)
    case GiveUp => s.(waiting := s.waiting - 1)
    case PutBack(id, now) => s.(lent := s.lent - multiset{id}, slots := Put(s.slots, Conn(id, now)))
    case HandBack(id) => s.(waiting := s.waiting - 1)
    case DropOne(id) => Uncount(s).(lent := s.lent - multiset{id})
    case ProduceIdle => PopIdle(s).(prod := Holding(LastIdle(s)))
    case Reserve => s.(slots := s.slots.(total := s.slots.total + 1), prod := Reserved)
    case Created(now) => s.(prod := Holding(Conn(s.next, now)), next := s.next + 1)
    case CreateFails(stop) => Uncount(s).(prod := if stop then Stopped else Ready)
    case HandOut => s.(prod := Ready, waiting := s.waiting - 1, lent := s.lent + multiset{s.prod.c.id})
    case StopProducer => Uncount(s).(prod := Stopped)
    case SweepOld(before) =>
      var r := Sweep(s.slots.idle, before);
      s.(slots := s.slots.(idle := r.0), checking := r.1, recheck := if r.1 == [] then Waiting else Checking)
    case PingOk(i) => s.(checking := Without(s.checking, i), slots := Put(s.slots, s.checking[i]))
    case PingOkHandOut(i) =>
      s.(checking := Without(s.checking, i), waiting := s.waiting - 1, lent := s.lent + multiset{s.checking[i].id})
    case PingFails(i) => Uncount(s).(checking := Without(s.checking, i))
    case StartSpawn => s.(spawn := On(SpawnCount(s.slots, cfg.minAlive), None, []), recheck := Spawning)
    case DeclineSpawn => s.(recheck := Declined)
    case TakeToClose =>
      var from := |s.slots.idle| - CloseCount(s.slots, cfg.minAlive);
      s.(slots := s.slots.(idle := s.slots.idle[..from]), closing := s.slots.idle[from..], recheck := Closing)
    case CloseTaken => Uncount(s).(closing := s.closing[1..])
    case EndRecheck => s.(recheck := Waiting)
    case StopRecheck => s.(recheck := Ended)
    case BatchStarts(f, now) => SetBatch(s, f, Which(s, f).(started := Some(Conn(s.next, now)))).(next := s.next + 1)
    case BatchFails(f) => SetBatch(s, f, Which(s, f).(left := Which(s, f).left - 1))
    case BatchCounts(f) =>
      var b := Which(s, f);
      SetBatch(s, f, On(b.left - 1, None, b.held + [b.started.value])).(slots := s.slots.(total := s.slots.total + 1))
    case BatchPuts(f) => SetBatch(s, f, Off).(slots := PutAll(s.slots, Which(s, f).held))
    case Cancel => s.(cancelled := true)
    case CloseIdle => s.(slots := Slots([], 0, s.slots.total - |s.slots.idle|), closed := true)
  }

  /** A new pool: the producer and the recheck loop run, the first batch is under way when there is one. */
  function Init(cfg: Config): (s: State) {
    State(Slots([], cfg.maxIdle, 0), 0, multiset{}, Ready, Waiting, [], [],
          if cfg.minAlive > 0 then On(cfg.minAlive, None, []) else Off, Off, 0, false, false)
  }

  /** A run: actions each of which was possible when it was taken. */
  predicate Possible(cfg: Config, s: State, acts: seq<Action>)
    decreases |acts|
  {
    acts == [] || (Enabled(cfg, s, acts[0]) && Possible(cfg, Do(cfg, s, acts[0]), acts[1..]))
  }

  function Run(cfg: Config, s: State, acts: seq<Action>): (r: State)
    requires Possible(cfg, s, acts)
    decreases |acts|
  {
    if acts == [] then s else Run(cfg, Do(cfg, s, acts[0]), acts[1..])
  }

  // ----- what every step keeps -----

  function ProducerHolds(p: Producer, x: nat): (n: nat) { if p.Holding? then One(p.c, x) else 0 }

  function BatchHolds(b: Batch, x: nat): (n: nat) {
    if b.Off? then 0 else Times(b.held, x) + if b.started.Some? then One(b.started.value, x) else 0
  }

  /** How many parties hold connection x. */
  function Holders(s: State, x: nat): (n: nat) {
    Times(s.slots.idle, x) + s.lent[x] + ProducerHolds(s.prod, x) + Times(s.checking, x) + Times(s.closing, x)
    + BatchHolds(s.init, x) + BatchHolds(s.spawn, x)
  }

  function BatchSize(b: Batch): (n: nat) { if b.Off? then 0 else |b.held| }

  /**
   Connections the counter stands for: those held, and one the producer has reserved; not one
   that a batch has yet to count.
   */
  function Counted(s: State): (n: int) {
    |s.slots.idle| + |s.lent| + (if s.prod.Reserved? || s.prod.Holding? then 1 else 0) + |s.checking| + |s.closing|
    + BatchSize(s.init) + BatchSize(s.spawn)
  }

  function Left(b: Batch): (n: nat) { if b.Off? then 0 else b.left }

  function AtOnce(cfg: Config): (n: nat) {
    if cfg.minAlive < MAX_NEW_CONNECTION_AT_ONCE then cfg.minAlive else MAX_NEW_CONNECTION_AT_ONCE
  }

  /** What the producer may reach and what the two batches may add to it. */
  function Peak(cfg: Config): (n: nat) { cfg.maxAlive + cfg.minAlive + AtOnce(cfg) }

  ghost predicate SingleOwner(s: State) { forall x: nat :: Holders(s, x) <= 1 && (Holders(s, x) > 0 ==> x < s.next) }

  predicate Conserved(s: State) { s.slots.total == Counted(s) }

  predicate IdleBounded(cfg: Config, s: State) {
    |s.slots.idle| <= s.slots.cap <= cfg.maxIdle && (s.closed ==> s.slots.cap == 0)
  }

  predicate Limited(cfg: Config, s: State) {
    && cfg.minAlive <= cfg.maxAlive
    && s.slots.total + Left(s.init) + Left(s.spawn) <= Peak(cfg)
    && Left(s.init) <= cfg.minAlive && Left(s.spawn) <= AtOnce(cfg)
    && (cfg.minAlive == 0 ==> s.slots.total <= cfg.maxAlive)
  }

  /** What the recheck loop has in hand at each of its stages. */
  predicate Staged(s: State) {
    && (s.recheck != Checking ==> s.checking == [])
    && (s.recheck != Closing ==> s.closing == [])
    && (s.recheck != Spawning ==> s.spawn == Off)
  }

  ghost predicate Inv(cfg: Config, s: State) {
    SingleOwner(s) && Conserved(s) && IdleBounded(cfg, s) && Limited(cfg, s) && Staged(s)
  }

  // ----- who holds what -----

  predicate Creates(a: Action) { a.Created? || a.BatchStarts? }

  predicate IsClient(a: Action) { a.GetIdle? || a.WaitForOne? || a.GiveUp? || a.PutBack? || a.HandBack? || a.DropOne? }

  predicate IsProducer(a: Action) {
    a.ProduceIdle? || a.Reserve? || a.Created? || a.CreateFails? || a.HandOut? || a.StopProducer?
  }

  predicate IsPing(a: Action) { a.PingOk? || a.PingOkHandOut? || a.PingFails? }

  predicate IsRecheck(a: Action) {
    a.SweepOld? || a.StartSpawn? || a.DeclineSpawn? || a.TakeToClose? || a.CloseTaken? || a.EndRecheck?
      || a.StopRecheck?
  }

  predicate IsBatch(a: Action) { a.BatchStarts? || a.BatchFails? || a.BatchCounts? || a.BatchPuts? }

  /**
   How many holders of connection x a step closes: it is dropped, it is not handed out by a producer
   that stops, its ping fails, it is taken to be closed or closed with the pool, or it is put back
   and the idle slice is full.
   */
  function Closed(s: State, a: Action, x: nat): (n: nat)
    requires |s.slots.idle| <= s.slots.cap
  {
    match a
    case DropOne(id) => if id == x then 1 else 0
    case StopProducer => ProducerHolds(s.prod, x)
    case PingFails(i) => if i < |s.checking| then One(s.checking[i], x) else 0
    case CloseTaken => if s.closing != [] then One(s.closing[0], x) else 0
    case CloseIdle => Times(s.slots.idle, x)
    case PutBack(id, _) => if id == x && Room(s.slots) == 0 then 1 else 0
    case PingOk(i) => if i < |s.checking| && Room(s.slots) == 0 then One(s.checking[i], x) else 0
    case BatchPuts(f) =>
      var b := Which(s, f);
      if b.On? then Times(b.held[Taken(s.slots, |b.held|)..], x) else 0
    case _ => 0
  }

  /** No step gives a connection a second holder, only a new one gains its first, and none is lost but by closing it. */
  ghost predicate Traced(s: State, r: State, a: Action, x: nat)
    requires |s.slots.idle| <= s.slots.cap
  {
    Holders(r, x) + Closed(s, a, x) == Holders(s, x) + if Creates(a) && x == s.next then 1 else 0
  }

  /** The connection taken from the idle slice is the last one. */
  lemma PopKeeps(s: State, x: nat)
    requires Idle(s)
    ensures s.slots.idle == PopIdle(s).slots.idle + [LastIdle(s)]
    ensures Times(s.slots.idle, x) == Times(PopIdle(s).slots.idle, x) + One(LastIdle(s), x)
  {
    var n := |s.slots.idle| - 1;
    assert s.slots.idle == s.slots.idle[..n] + [s.slots.idle[n]];
    TimesAppend(s.slots.idle[..n], s.slots.idle[n], x);
  }

  lemma ClientHolds(cfg: Config, s: State, a: Action, x: nat)
    requires Enabled(cfg, s, a) && IsClient(a) && IdleBounded(cfg, s)
    ensures Traced(s, Do(cfg, s, a), a, x)
  {
    if a.GetIdle? {
      PopKeeps(s, x);
    } else if a.PutBack? {
      PutBackHolds(cfg, s, a, x);
    }
  }

  lemma PutBackHolds(cfg: Config, s: State, a: Action, x: nat)
    requires Enabled(cfg, s, a) && a.PutBack? && IdleBounded(cfg, s)
    ensures Traced(s, Do(cfg, s, a), a, x)
  {
    PutKeeps(s.slots, Conn(a.id, a.now), x);
  }

  lemma ProducerHoldsOn(cfg: Config, s: State, a: Action, x: nat)
    requires Enabled(cfg, s, a) && IsProducer(a) && IdleBounded(cfg, s)
    ensures Traced(s, Do(cfg, s, a), a, x)
  {
    if a.ProduceIdle? { PopKeeps(s, x); }
  }

  lemma PingHolds(cfg: Config, s: State, a: Action, x: nat)
    requires Enabled(cfg, s, a) && IsPing(a) && IdleBounded(cfg, s)
    ensures Traced(s, Do(cfg, s, a), a, x)
  {
    TimesWithout(s.checking, a.i, x);
    if a.PingOk? { PutKeeps(s.slots, s.checking[a.i], x); }
  }

  lemma RecheckHolds(cfg: Config, s: State, a: Action, x: nat)
    requires Enabled(cfg, s, a) && IsRecheck(a) && Staged(s) && IdleBounded(cfg, s)
    ensures Traced(s, Do(cfg, s, a), a, x)
  {
    if a.SweepOld? { SweepDivides(s.slots.idle, a.checkBefore); }
    if a.TakeToClose? { TimesSplit(s.slots.idle, |s.slots.idle| - CloseCount(s.slots, cfg.minAlive), x); }
    if a.CloseTaken? { TimesAt(s.closing, 0, x); }
  }

  lemma BatchHoldsOn(cfg: Config, s: State, a: Action, x: nat)
    requires Enabled(cfg, s, a) && IsBatch(a) && IdleBounded(cfg, s)
    ensures Traced(s, Do(cfg, s, a), a, x)
  {
    var b := Which(s, a.first);
    if a.BatchCounts? { TimesAppend(b.held, b.started.value, x); }
    if a.BatchPuts? { PutAllKeeps(s.slots, b.held, x); }
  }

  lemma StepTraces(cfg: Config, s: State, a: Action, x: nat)
    requires Inv(cfg, s) && Enabled(cfg, s, a)
    ensures Traced(s, Do(cfg, s, a), a, x)
  {
    if IsClient(a) {
      ClientHolds(cfg, s, a, x);
    } else if IsProducer(a) {
      ProducerHoldsOn(cfg, s, a, x);
    } else if IsPing(a) {
      PingHolds(cfg, s, a, x);
    } else if IsRecheck(a) {
      RecheckHolds(cfg, s, a, x);
    } else if IsBatch(a) {
      BatchHoldsOn(cfg, s, a, x);
    }
  }

  lemma OwnersKept(cfg: Config, s: State, a: Action)
    requires Inv(cfg, s) && Enabled(cfg, s, a)
    ensures SingleOwner(Do(cfg, s, a))
  {
    var r := Do(cfg, s, a);
    forall x: nat ensures Holders(r, x) <= 1 && (Holders(r, x) > 0 ==> x < r.next) {
      StepTraces(cfg, s, a, x);
      assert Holders(s, x) <= 1 && (Holders(s, x) > 0 ==> x < s.next);
    }
  }

  // ----- the counter -----

  /** Every step keeps the counter, the bounds and the stages. */
  lemma ClientCounts(cfg: Config, s: State, a: Action)
    requires Inv(cfg, s) && Enabled(cfg, s, a) && IsClient(a)
    ensures var r := Do(cfg, s, a); Conserved(r) && IdleBounded(cfg, r) && Limited(cfg, r) && Staged(r)
  {
    if a.PutBack? { PutKeeps(s.slots, Conn(a.id, a.now), 0); }
  }

  lemma ProducerCounts(cfg: Config, s: State, a: Action)
    requires Inv(cfg, s) && Enabled(cfg, s, a) && IsProducer(a)
    ensures var r := Do(cfg, s, a); Conserved(r) && IdleBounded(cfg, r) && Limited(cfg, r) && Staged(r)
  {
  }

  lemma PingCounts(cfg: Config, s: State, a: Action)
    requires Inv(cfg, s) && Enabled(cfg, s, a) && IsPing(a)
    ensures var r := Do(cfg, s, a); Conserved(r) && IdleBounded(cfg, r) && Limited(cfg, r) && Staged(r)
  {
    if a.PingOk? { PutKeeps(s.slots, s.checking[a.i], 0); }
  }

  lemma SweepCounts(cfg: Config, s: State, a: Action)
    requires Inv(cfg, s) && Enabled(cfg, s, a) && a.SweepOld?
    ensures var r := Do(cfg, s, a); Conserved(r) && IdleBounded(cfg, r) && Limited(cfg, r) && Staged(r)
  {
    SweepDivides(s.slots.idle, a.checkBefore);
  }

  lemma RecheckCounts(cfg: Config, s: State, a: Action)
    requires Inv(cfg, s) && Enabled(cfg, s, a) && (IsPing(a) || IsRecheck(a))
    ensures var r := Do(cfg, s, a); Conserved(r) && IdleBounded(cfg, r) && Limited(cfg, r) && Staged(r)
  {
    if IsPing(a) {
      PingCounts(cfg, s, a);
    } else if a.SweepOld? {
      SweepCounts(cfg, s, a);
    } else if a.StartSpawn? {
      SpawnCounts(cfg, s, a);
    } else {
      StageCounts(cfg, s, a);
    }
  }

  lemma SpawnCounts(cfg: Config, s: State, a: Action)
    requires Inv(cfg, s) && Enabled(cfg, s, a) && a.StartSpawn?
    ensures var r := Do(cfg, s, a); Conserved(r) && IdleBounded(cfg, r) && Limited(cfg, r) && Staged(r)
  {
  }

  lemma StageCounts(cfg: Config, s: State, a: Action)
    requires Inv(cfg, s) && Enabled(cfg, s, a) && IsRecheck(a) && !a.SweepOld? && !a.StartSpawn?
    ensures var r := Do(cfg, s, a); Conserved(r) && IdleBounded(cfg, r) && Limited(cfg, r) && Staged(r)
  {
  }

  lemma BatchCounted(cfg: Config, s: State, a: Action)
    requires Inv(cfg, s) && Enabled(cfg, s, a) && !IsClient(a) && !IsProducer(a) && !IsPing(a) && !IsRecheck(a)
    ensures var r := Do(cfg, s, a); Conserved(r) && IdleBounded(cfg, r) && Limited(cfg, r) && Staged(r)
  {
    if a.BatchPuts? { PutAllKeeps(s.slots, Which(s, a.first).held, 0); }
  }

  lemma StepKeeps(cfg: Config, s: State, a: Action)
    requires Inv(cfg, s) && Enabled(cfg, s, a)
    ensures Inv(cfg, Do(cfg, s, a))
  {
    OwnersKept(cfg, s, a);
    if IsClient(a) {
      ClientCounts(cfg, s, a);
    } else if IsProducer(a) {
      ProducerCounts(cfg, s, a);
    } else if IsPing(a) || IsRecheck(a) {
      RecheckCounts(cfg, s, a);
    } else {
      BatchCounted(cfg, s, a);
    }
  }

  lemma {:induction false} RunKeeps(cfg: Config, s: State, acts: seq<Action>)
    requires Inv(cfg, s) && Possible(cfg, s, acts)
    ensures Inv(cfg, Run(cfg, s, acts))
    decreases |acts|
  {
    if acts != [] {
      StepKeeps(cfg, s, acts[0]);
      RunKeeps(cfg, Do(cfg, s, acts[0]), acts[1..]);
    }
  }

  /** How many holders of connection x a run closes. */
  ghost function ClosedIn(cfg: Config, s: State, acts: seq<Action>, x: nat): (n: nat)
    requires Inv(cfg, s) && Possible(cfg, s, acts)
    decreases |acts|
  {
    if acts == [] then 0
    else
      StepKeeps(cfg, s, acts[0]);
      Closed(s, acts[0], x) + ClosedIn(cfg, Do(cfg, s, acts[0]), acts[1..], x)
  }

  lemma {:induction false} RunTraces(cfg: Config, s: State, acts: seq<Action>, x: nat)
    requires Inv(cfg, s) && Possible(cfg, s, acts)
    ensures var r := Run(cfg, s, acts);
      s.next <= r.next
      && Holders(r, x) + ClosedIn(cfg, s, acts, x) == Holders(s, x) + if s.next <= x < r.next then 1 else 0
    decreases |acts|
  {
    if acts != [] {
      var t := StepFrom(cfg, s, acts[0], x);
      RunTraces(cfg, t, acts[1..], x);
    }
  }

  lemma StepFrom(cfg: Config, s: State, a: Action, x: nat) returns (t: State)
    requires Inv(cfg, s) && Enabled(cfg, s, a)
    ensures t == Do(cfg, s, a) && Inv(cfg, t) && s.next <= t.next
    ensures Holders(t, x) + Closed(s, a, x) == Holders(s, x) + if s.next <= x < t.next then 1 else 0
  {
    t := Do(cfg, s, a);
    StepKeeps(cfg, s, a);
    StepTraces(cfg, s, a, x);
    NextGrows(cfg, s, a);
  }

  lemma NextGrows(cfg: Config, s: State, a: Action)
    requires Enabled(cfg, s, a)
    ensures Do(cfg, s, a).next == s.next + if Creates(a) then 1 else 0
  {
  }

  /**
   Over every interleaving, a connection that was ever made is held by exactly one party or was
   closed exactly once.
   */
  lemma NoneIsLost(cfg: Config, acts: seq<Action>, x: nat)
    requires cfg.minAlive <= cfg.maxAlive && Possible(cfg, Init(cfg), acts)
    ensures Inv(cfg, Init(cfg))
    ensures var r := Run(cfg, Init(cfg), acts);
      Holders(r, x) + ClosedIn(cfg, Init(cfg), acts, x) == if x < r.next then 1 else 0
  {
    EveryRunConserves(cfg, []);
    RunTraces(cfg, Init(cfg), acts, x);
  }

  /**
   Over every interleaving: the counter stands for the connections held, each held once, and
   idle stays within bounds.
   */
  lemma EveryRunConserves(cfg: Config, acts: seq<Action>)
    requires cfg.minAlive <= cfg.maxAlive && Possible(cfg, Init(cfg), acts)
    ensures Inv(cfg, Run(cfg, Init(cfg), acts))
  {
    RunKeeps(cfg, Init(cfg), acts);
  }

  // ----- the limits -----

  /** TotalCount on every run. */
  lemma TotalIsBounded(cfg: Config, acts: seq<Action>)
    requires cfg.minAlive <= cfg.maxAlive && Possible(cfg, Init(cfg), acts)
    ensures 0 <= Run(cfg, Init(cfg), acts).slots.total <= Peak(cfg)
  {
    EveryRunConserves(cfg, acts);
  }

  lemma {:induction false} RunSum(cfg: Config, s: State, a: seq<Action>, b: seq<Action>)
    requires Possible(cfg, s, a) && Possible(cfg, Run(cfg, s, a), b)
    ensures Possible(cfg, s, a + b) && Run(cfg, s, a + b) == Run(cfg, Run(cfg, s, a), b)
    decreases |a|
  {
    if a == [] {
      assert a + b == b;
    } else {
      DropConcat(a, b, 1);
      RunSum(cfg, Do(cfg, s, a[0]), a[1..], b);
    }
  }

  /** k connections counted, none idle, the producer ready and the two batches as given. */
  predicate Poised(cfg: Config, s: State, k: nat, init: Batch, spawn: Batch) {
    s.slots == Slots([], cfg.maxIdle, k) && s.waiting == 0 && s.prod == Ready && s.init == init && s.spawn == spawn
  }

  lemma {:induction false} RunStep(cfg: Config, s: State, a: Action, more: seq<Action>)
    requires Enabled(cfg, s, a) && Possible(cfg, Do(cfg, s, a), more)
    ensures Possible(cfg, s, [a] + more) && Run(cfg, s, [a] + more) == Run(cfg, Do(cfg, s, a), more)
  {
    assert ([a] + more)[1..] == more;
  }

  lemma RunOne(cfg: Config, s: State, a: Action)
    requires Enabled(cfg, s, a)
    ensures Possible(cfg, s, [a]) && Run(cfg, s, [a]) == Do(cfg, s, a)
  {
    RunStep(cfg, s, a, []);
  }

  /** A client waits, the producer counts, creates and hands out. */
  lemma LendOne(cfg: Config, s: State, k: nat, init: Batch, spawn: Batch) returns (acts: seq<Action>)
    requires Poised(cfg, s, k, init, spawn) && k < cfg.maxAlive
    ensures Possible(cfg, s, acts) && Poised(cfg, Run(cfg, s, acts), k + 1, init, spawn)
    ensures Run(cfg, s, acts)
      == s.(slots := s.slots.(total := k + 1), lent := s.lent + multiset{s.next}, next := s.next + 1)
  {
    var s1 := Do(cfg, s, WaitForOne);
    var s2 := Do(cfg, s1, Reserve);
    var s3 := Do(cfg, s2, Created(0));
    RunOne(cfg, s3, HandOut);
    RunStep(cfg, s2, Created(0), [HandOut]);
    RunStep(cfg, s1, Reserve, [Created(0)] + [HandOut]);
    RunStep(cfg, s, WaitForOne, [Reserve] + ([Created(0)] + [HandOut]));
    acts := [WaitForOne] + ([Reserve] + ([Created(0)] + [HandOut]));
  }

  lemma {:induction false} LendMany(cfg: Config, s: State, k: nat, m: nat, init: Batch, spawn: Batch)
    returns (acts: seq<Action>)
    requires Poised(cfg, s, k, init, spawn) && k <= m <= cfg.maxAlive
    ensures Possible(cfg, s, acts) && Poised(cfg, Run(cfg, s, acts), m, init, spawn)
    decreases m - k
  {
    acts := [];
    if k < m {
      var one := LendOne(cfg, s, k, init, spawn);
      var more := LendMany(cfg, Run(cfg, s, one), k + 1, m, init, spawn);
      RunSum(cfg, s, one, more);
      acts := one + more;
    }
  }

  /**
   The only connection is put back, found old and dead: the recheck loop starts a full batch
   while nothing is counted.
   */
  lemma SpawnUnderWay(cfg: Config) returns (acts: seq<Action>)
    requires Configured(cfg) && cfg.minAlive > 0
    ensures Possible(cfg, Init(cfg), acts)
    ensures Poised(cfg, Run(cfg, Init(cfg), acts), 0, On(cfg.minAlive, None, []), On(AtOnce(cfg), None, []))
  {
    var init := On(cfg.minAlive, None, []);
    var lend := LendOne(cfg, Init(cfg), 0, init, Off);
    var s := Run(cfg, Init(cfg), lend);
    var back := DeadConnection(cfg, s);
    RunSum(cfg, Init(cfg), lend, back);
    acts := lend + back;
  }

  lemma DeadConnection(cfg: Config, s: State) returns (acts: seq<Action>)
    requires Configured(cfg) && cfg.minAlive > 0 && s.recheck == Waiting && s.checking == [] && 0 in s.lent
    requires Poised(cfg, s, 1, On(cfg.minAlive, None, []), Off)
    ensures Possible(cfg, s, acts)
    ensures Poised(cfg, Run(cfg, s, acts), 0, On(cfg.minAlive, None, []), On(AtOnce(cfg), None, []))
  {
    var init := On(cfg.minAlive, None, []);
    var s1 := Do(cfg, s, PutBack(0, 0));
    var s2 := Swept(cfg, s1, Conn(0, 0), init);
    var s3 := Do(cfg, s2, PingFails(0));
    NothingCounted(cfg, s2, s3, Conn(0, 0), init);
    RunOne(cfg, s3, StartSpawn);
    RunStep(cfg, s2, PingFails(0), [StartSpawn]);
    RunStep(cfg, s1, SweepOld(0), [PingFails(0)] + [StartSpawn]);
    RunStep(cfg, s, PutBack(0, 0), [SweepOld(0)] + ([PingFails(0)] + [StartSpawn]));
    acts := [PutBack(0, 0)] + ([SweepOld(0)] + ([PingFails(0)] + [StartSpawn]));
  }

  lemma Swept(cfg: Config, s: State, c: Conn, init: Batch) returns (r: State)
    requires s.slots.idle == [c] && c.lastUse == 0 && s.recheck == Waiting
    requires Poised(cfg, s.(slots := s.slots.(idle := [])), 1, init, Off)
    ensures Enabled(cfg, s, SweepOld(0)) && r == Do(cfg, s, SweepOld(0))
    ensures Poised(cfg, r, 1, init, Off) && r.checking == [c] && r.recheck == Checking
  {
    OneIsSwept(c);
    r := Do(cfg, s, SweepOld(0));
  }

  lemma NothingCounted(cfg: Config, s: State, r: State, c: Conn, init: Batch)
    requires Configured(cfg) && cfg.minAlive > 0 && Poised(cfg, s, 1, init, Off) && s.checking == [c]
      && s.recheck == Checking
    requires r == Do(cfg, s, PingFails(0))
    ensures r.checking == [] && Enabled(cfg, r, StartSpawn)
    ensures Poised(cfg, Do(cfg, r, StartSpawn), 0, init, On(AtOnce(cfg), None, []))
  {
  }

  lemma OneIsSwept(c: Conn)
    ensures Sweep([c], c.lastUse) == ([], [c])
  {
    assert SwapRemove([c], 0) == [] && [] + [c] == [c];
    assert SweepFrom([c], 1, c.lastUse, []) == SweepFrom([], 0, c.lastUse, [c]);
  }

  /** A batch counts all it has left. */
  lemma {:induction false} BatchCountsAll(cfg: Config, s: State, first: bool) returns (acts: seq<Action>)
    requires Which(s, first).On? && Which(s, first).started == None
    ensures Possible(cfg, s, acts)
    ensures Run(cfg, s, acts).slots.total == s.slots.total + Which(s, first).left
    ensures Which(Run(cfg, s, acts), !first) == Which(s, !first)
    decreases Which(s, first).left
  {
    acts := [];
    if Which(s, first).left > 0 {
      var s1 := Do(cfg, s, BatchStarts(first, 0));
      var s2 := Do(cfg, s1, BatchCounts(first));
      var more := BatchCountsAll(cfg, s2, first);
      RunStep(cfg, s1, BatchCounts(first), more);
      RunStep(cfg, s, BatchStarts(first, 0), [BatchCounts(first)] + more);
      acts := [BatchStarts(first, 0)] + ([BatchCounts(first)] + more);
    }
  }

  /** The peak is reached. */
  lemma PeakIsReached(cfg: Config) returns (acts: seq<Action>)
    requires Configured(cfg)
    ensures Possible(cfg, Init(cfg), acts) && Run(cfg, Init(cfg), acts).slots.total == Peak(cfg)
  {
    if cfg.minAlive == 0 {
      acts := LendMany(cfg, Init(cfg), 0, cfg.maxAlive, Off, Off);
    } else {
      var start := SpawnUnderWay(cfg);
      var s := Run(cfg, Init(cfg), start);
      var lend := LendMany(cfg, s, 0, cfg.maxAlive, s.init, s.spawn);
      RunSum(cfg, Init(cfg), start, lend);
      var s1 := Run(cfg, s, lend);
      var one := BatchCountsAll(cfg, s1, true);
      RunSum(cfg, Init(cfg), start + lend, one);
      var two := BatchCountsAll(cfg, Run(cfg, s1, one), false);
      RunSum(cfg, Init(cfg), start + lend + one, two);
      acts := start + lend + one + two;
    }
  }

  /** TotalCount stays within a bound on every run. */
  ghost predicate Within(cfg: Config, bound: int) {
    forall acts :: Possible(cfg, Init(cfg), acts) ==> Run(cfg, Init(cfg), acts).slots.total <= bound
  }

  /** The bounds that hold on every run are exactly those from the peak on. */
  lemma PeakIsExact(cfg: Config, bound: int)
    requires Configured(cfg)
    ensures Within(cfg, bound) <==> Peak(cfg) <= bound
  {
    if Peak(cfg) <= bound {
      forall acts | Possible(cfg, Init(cfg), acts) ensures Run(cfg, Init(cfg), acts).slots.total <= bound {
        TotalIsBounded(cfg, acts);
      }
    } else {
      var acts := PeakIsReached(cfg);
    }
  }

  /**
   The documented limit, one above maxAlive, holds on every run exactly when no connections are
   kept alive in advance.
   */
  lemma MaxAliveHoldsExactly(cfg: Config)
    requires Configured(cfg)
    ensures Within(cfg, cfg.maxAlive + 1) <==> cfg.minAlive == 0
    ensures Within(cfg, cfg.maxAlive) <==> cfg.minAlive == 0
  {
    PeakIsExact(cfg, cfg.maxAlive + 1);
    PeakIsExact(cfg, cfg.maxAlive);
  }

  // ----- after Close -----

  lemma {:induction false} ClosedStays(cfg: Config, s: State, acts: seq<Action>)
    requires Inv(cfg, s) && s.closed && Possible(cfg, s, acts)
    ensures Run(cfg, s, acts).closed && Run(cfg, s, acts).slots.idle == []
    decreases |acts|
  {
    if acts != [] {
      StepKeeps(cfg, s, acts[0]);
      ClosedStays(cfg, Do(cfg, s, acts[0]), acts[1..]);
    }
  }

  /** Close waits for both loops before it closes the idle connections. */
  predicate Shut(s: State) { s.closed ==> s.cancelled && s.prod == Stopped && s.recheck == Ended }

  lemma {:induction false} RunShuts(cfg: Config, s: State, acts: seq<Action>)
    requires Shut(s) && Possible(cfg, s, acts)
    ensures Shut(Run(cfg, s, acts))
    decreases |acts|
  {
    if acts != [] { RunShuts(cfg, Do(cfg, s, acts[0]), acts[1..]); }
  }

  /** In a closed pool no loop runs and nothing is idle, being checked, waiting to be closed or being spawned. */
  lemma ClosedIsFinal(cfg: Config, acts: seq<Action>)
    requires cfg.minAlive <= cfg.maxAlive && Possible(cfg, Init(cfg), acts)
    ensures var r := Run(cfg, Init(cfg), acts);
      r.closed ==>
        && r.cancelled && r.prod == Stopped && r.recheck == Ended && r.slots.idle == []
        && r.checking == [] && r.closing == [] && r.spawn == Off
  {
    EveryRunConserves(cfg, acts);
    RunShuts(cfg, Init(cfg), acts);
  }

  // ----- when connections are made -----

  /** While a connection is idle nobody begins to wait for one, and only a batch makes a new one. */
  lemma IdleComesFirst(cfg: Config, s: State, a: Action)
    requires IdleBounded(cfg, s) && Enabled(cfg, s, a) && s.slots.idle != []
    ensures Do(cfg, s, a).waiting <= s.waiting
    ensures Do(cfg, s, a).slots.total > s.slots.total ==> a.BatchCounts?
  {
    if a.BatchPuts? { PutAllIs(s.slots, Which(s, a.first).held); }
  }

  /** The recheck does nothing exactly when no idle connection is old. */
  lemma RestsWhenYoung(cfg: Config, s: State, before: int)
    requires s.recheck == Waiting && Staged(s)
    ensures Do(cfg, s, SweepOld(before)) == s <==> YoungFrom(s.slots.idle, 0, before)
  {
    if YoungFrom(s.slots.idle, 0, before) { SweepYoung(s.slots.idle, |s.slots.idle|, before); }
    SweepDivides(s.slots.idle, before);
  }

  lemma {:induction false} SweepYoung(idle: seq<Conn>, i: nat, before: int)
    requires i <= |idle| && YoungFrom(idle, 0, before)
    ensures SweepFrom(idle, i, before, []) == (idle, [])
  {
    if i > 0 { SweepYoung(idle, i - 1, before); }
  }
}
