/**
 The sections of client/pool.go that run under its mutex, on the idle slice as
 a buffer of fixed capacity that is changed in place.
 */
module PoolSections {
  import opened Bytes
  import opened Lists
  import opened Pool

  class Synchro {
    const minAlive: nat
    var idleConnections: array<Conn>
    var idleCount: nat
    var totalCount: int

    ghost predicate Valid()
      reads this
    {
      idleCount <= idleConnections.Length
    }

    ghost function View(): (s: Slots)
      requires Valid()
      reads this, idleConnections
    {
      Slots(idleConnections[..idleCount], idleConnections.Length, totalCount)
    }

    constructor (minAlive: nat, maxIdle: nat)
      ensures Valid() && View() == Slots([], maxIdle, 0) && this.minAlive == minAlive && fresh(idleConnections)
    {
      this.minAlive := minAlive;
      idleConnections := new Conn[maxIdle](_ => Conn(0, 0));
      idleCount, totalCount := 0, 0;
    }

    /** getIdleConnectionUnsafe: the last one, if there is one. */
    method GetIdleConnectionUnsafe() returns (c: Option<Conn>)
      requires Valid()
      modifies this`idleCount
      ensures Valid()
      ensures c.None? <==> old(View().idle) == []
      ensures c.None? ==> View() == old(View())
      ensures c.Some? ==> old(View().idle) == View().idle + [c.value]
      ensures c.Some? ==> View().cap == old(View().cap) && View().total == old(View().total)
    {
      if idleCount == 0 { return None; }
      var last := idleCount - 1;
      c := Some(idleConnections[last]);
      idleCount := last;
      assert old(idleConnections[..idleCount]) == idleConnections[..last] + [idleConnections[last]];
    }

    method PutConnectionUnsafe(c: Conn)
      requires Valid()
      modifies this`idleCount, this`totalCount, idleConnections
      ensures Valid() && View() == Put(old(View()), c)
    {
      if idleCount == idleConnections.Length {
        totalCount := totalCount - 1;
      } else {
        idleConnections[idleCount] := c;
        idleCount := idleCount + 1;
        assert View().idle == old(View().idle) + [c];
      }
    }

    /** The end of startNewConnections: the whole batch under one lock. */
    method PutBatch(cs: seq<Conn>)
      requires Valid()
      modifies this`idleCount, this`totalCount, idleConnections
      ensures Valid() && View() == PutAll(old(View()), cs)
    {
      var i := 0;
      assert cs[0..] == cs;
      while i < |cs|
        invariant i <= |cs| && Valid() && PutAll(old(View()), cs) == PutAll(View(), cs[i..])
      {
        assert cs[i..][0] == cs[i] && cs[i..][1..] == cs[i + 1..];
        PutConnectionUnsafe(cs[i]);
        i := i + 1;
      }
    }

    /** getOldIdleConnections: from the end to the front, each old connection is overwritten by the last one. */
    method GetOldIdleConnections(checkBefore: int) returns (dst: seq<Conn>)
      requires Valid()
      modifies this`idleCount, idleConnections
      ensures Valid() && View() == old(View()).(idle := Sweep(old(View().idle), checkBefore).0)
      ensures dst == Sweep(old(View().idle), checkBefore).1
      ensures AllOld(dst, checkBefore) && YoungFrom(View().idle, 0, checkBefore)
    {
      dst := [];
      var i := idleCount;
      ghost var was := View().idle;
      SweepDivides(was, checkBefore);
      while i > 0
        invariant Valid() && 0 <= i <= idleCount && totalCount == old(totalCount)
        invariant Sweep(was, checkBefore) == SweepFrom(View().idle, i, checkBefore, dst)
      {
        i := i - 1;
        if idleConnections[i].lastUse > checkBefore { continue; }
        ghost var now := View().idle;
        dst := dst + [idleConnections[i]];
        var last := idleCount - 1;
        if i < last { idleConnections[i], idleConnections[last] := idleConnections[last], idleConnections[i]; }
        idleCount := last;
        assert View().idle == SwapRemove(now, i);
      }
    }

    /** The locked part of closeIdleConnectionsIfCan: connections to close are cut off the end. */
    method CloseIdleConnectionsIfCan() returns (toClose: seq<Conn>)
      requires Valid()
      modifies this`idleCount
      ensures Valid() && |toClose| == CloseCount(old(View()), minAlive) && old(View().idle) == View().idle + toClose
      ensures View().cap == old(View().cap) && totalCount == old(totalCount)
      ensures toClose != [] ==> totalCount - |toClose| >= minAlive + 1
    {
      var canCloseCnt := totalCount - minAlive - 1;
      var idleCanCloseCnt := if idleCount / 10 == 0 then 1 else idleCount / 10;
      if canCloseCnt > idleCanCloseCnt { canCloseCnt := idleCanCloseCnt; }
      toClose := [];
      if canCloseCnt <= 0 {
        ConcatEmpty(View().idle);
        return;
      }
      var closeFromIdx := if idleCount - canCloseCnt < 0 then 0 else idleCount - canCloseCnt;
      toClose := idleConnections[closeFromIdx..idleCount];
      idleCount := closeFromIdx;
      assert old(idleConnections[..idleCount]) == idleConnections[..closeFromIdx] + toClose;
    }

    /** The end of Close: idle connections are closed and counted off, and the slice is dropped with its capacity. */
    method CloseIdle()
      requires Valid()
      modifies this
      ensures Valid() && View() == Slots([], 0, old(totalCount) - old(idleCount))
    {
      var i := 0;
      while i < idleCount
        invariant i <= idleCount == old(idleCount) && totalCount == old(totalCount) - i
        invariant idleConnections == old(idleConnections)
      {
        totalCount := totalCount - 1;
        i := i + 1;
      }
      idleConnections := new Conn[0];
      idleCount := 0;
    }
  }
}
