/**
 The auditor's worker as the loop it is, from the first event to the closed channel:
 it receives, gathers a batch, and hands it to the store. When events arrive, when the
 timer fires and which writes fail are arguments.
 */
module AuditWorker {
  import opened Protocol
  import opened AsyncAudit

  /** Only whole batches of at most that size, none empty. */
  predicate GoodWrites(writes: seq<Write>, size: nat) {
    forall i :: 0 <= i < |writes| ==> 1 <= |writes[i].batch| <= size
  }

  predicate SomeFailed(writes: seq<Write>) {
    exists i :: 0 <= i < |writes| && !writes[i].ok
  }

  lemma GoodOne(writes: seq<Write>, w: Write, size: nat)
    requires GoodWrites(writes, size) && 1 <= |w.batch| <= size
    ensures GoodWrites(writes + [w], size)
    ensures SomeFailed(writes + [w]) <==> SomeFailed(writes) || !w.ok
  {
    var all := writes + [w];
    assert all[..|writes|] == writes && all[|writes|] == w;
    assert forall i :: 0 <= i < |writes| ==> all[i] == writes[i];
  }

  /** What the worker meets at its n-th look: nothing queued yet, the interval over, a write that fails. */
  datatype Weather = Weather(idle: nat -> bool, elapsed: nat -> bool, fails: nat -> bool)

  /** The worker over the whole life of its channel: `coming` is all that is still to be received before it is closed. */
  class BatchWorker {
    const size: nat
    const interval: bool
    var coming: seq<Entry>
    var batch: seq<Entry>
    var writes: seq<Write>
    var failed: bool
    var looks: nat

    ghost predicate Valid()
      reads this
    {
      1 <= size && |batch| <= size && GoodWrites(writes, size) && (failed <==> SomeFailed(writes))
    }

    /** Nothing is lost between the store, the batch and the channel. */
    ghost function All(): seq<Entry>
      reads this
    {
      Handed(writes) + batch + coming
    }

    constructor (cap: nat, interval: bool, coming: seq<Entry>)
      ensures Valid() && size == BatchSize(cap) && this.interval == interval
      ensures this.coming == coming && batch == [] && writes == [] && All() == coming
    {
      size, this.interval := BatchSize(cap), interval;
      this.coming, batch, writes, failed, looks := coming, [], [], false, 0;
    }

    method Receive()
      requires Valid() && coming != [] && |batch| < size
      modifies `coming, `batch
      ensures Valid() && All() == old(All())
      ensures batch == old(batch) + [old(coming)[0]] && coming == old(coming)[1..]
    {
      batch := batch + [coming[0]];
      coming := coming[1..];
      FirstMoves(Handed(writes), old(batch), old(coming));
    }

    method DrainBatch(w: Weather)
      requires Valid()
      modifies `coming, `batch, `looks
      ensures Valid() && All() == old(All())
      ensures |coming| <= |old(coming)| && |batch| >= |old(batch)|
      ensures |batch| == size || coming == [] || w.idle(looks)
    {
      while |batch| < size
        invariant Valid() && All() == old(All())
        invariant |coming| <= |old(coming)| && |batch| >= |old(batch)|
      {
        looks := looks + 1;
        if coming == [] || w.idle(looks) {
          return;
        }
        Receive();
      }
    }

    method Flush(w: Weather)
      requires Valid()
      modifies `batch, `writes, `failed, `looks
      ensures Valid() && All() == old(All()) && batch == []
      ensures writes == old(writes) + (if old(batch) == [] then [] else [Write(old(batch), !w.fails(looks))])
    {
      hide Handed, GoodWrites, SomeFailed;
      if |batch| == 0 {
        return;
      }
      looks := looks + 1;
      var ok := !w.fails(looks);
      HandedGrows(writes, Write(batch, ok));
      NoneBetween(Handed(writes), batch, coming);
      GoodOne(writes, Write(batch, ok), size);
      writes := writes + [Write(batch, ok)];
      failed := failed || !ok;
      batch := [];
    }

    /** Gathers up to a batch until the interval is over; true when the channel was found closed. */
    method Linger(w: Weather) returns (closed: bool)
      requires Valid()
      modifies `coming, `batch, `looks
      ensures Valid() && All() == old(All()) && |coming| <= |old(coming)|
      ensures closed ==> coming == []
      ensures |batch| == size || coming == [] || w.idle(looks)
    {
      var timed := false;
      while !timed && |batch| < size
        invariant Valid() && All() == old(All()) && |coming| <= |old(coming)|
        decreases !timed, |coming|
      {
        looks := looks + 1;
        if w.elapsed(looks) {
          timed := true;
        } else if coming == [] {
          return true;
        } else {
          Receive();
        }
      }
      if timed {
        DrainBatch(w);
      }
      return false;
    }

    /** Whenever events arrive and timers fire, all of them reach the store call in order, in batches of one to `size`. */
    method Loop(w: Weather)
      requires Valid() && batch == []
      modifies this
      ensures Valid() && coming == [] && batch == []
      ensures Handed(writes) == old(All())
    {
      while coming != []
        invariant Valid() && batch == [] && All() == old(All())
        decreases |coming|
      {
        Receive();
        if !interval {
          DrainBatch(w);
          Flush(w);
        } else {
          var closed := Linger(w);
          Flush(w);
          if closed {
            break;
          }
        }
      }
      Flush(w);
      assert Handed(writes) + [] + [] == Handed(writes);
    }
  }
}
