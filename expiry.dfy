/**
 * The eviction rule of the coordinator's expiry sweep, as specification functions
 * over one service's registration list and heartbeat table, with the properties the
 * sweep is meant to have.
 */
module Expiry {
  import opened MachineInts
  import opened Services

  /**
   * The sweep's verdict on one registration: evict it when its full endpoint has no
   * heartbeat, or when `now - t` (Go int64 subtraction) exceeds `expiry`. When that
   * subtraction does not overflow, the verdict compares the true age with `expiry`.
   */
  predicate Expired(beats: map<string, int64>, r: Registration, now: int64, expiry: int64): (e: bool)
    ensures FullEndPoint(r) !in beats ==> e
    ensures FullEndPoint(r) in beats && NoOverflowSub(now, beats[FullEndPoint(r)]) ==>
      (e <==> now as int - beats[FullEndPoint(r)] as int > expiry as int)
  {
    var ep := FullEndPoint(r);
    ep !in beats || Sub64(now, beats[ep]) > expiry
  }

  /** The registrations the sweep keeps, in their original order. */
  function Survivors(regs: seq<Registration>, beats: map<string, int64>, now: int64, expiry: int64): (kept: seq<Registration>)
    ensures |kept| <= |regs|
  {
    if regs == [] then []
    else
      var last := regs[|regs| - 1];
      Survivors(regs[..|regs| - 1], beats, now, expiry) + (if Expired(beats, last, now, expiry) then [] else [last])
  }

  /** The registrations the sweep hands to `DeRegister`, in the order it visits them. */
  function Evicted(regs: seq<Registration>, beats: map<string, int64>, now: int64, expiry: int64): (gone: seq<Registration>)
    ensures |gone| <= |regs|
  {
    if regs == [] then []
    else
      var last := regs[|regs| - 1];
      Evicted(regs[..|regs| - 1], beats, now, expiry) + (if Expired(beats, last, now, expiry) then [last] else [])
  }

  /** A registration survives the sweep exactly when it was registered and is not expired. */
  lemma {:induction false} SurvivorsIff(regs: seq<Registration>, beats: map<string, int64>, now: int64, expiry: int64, r: Registration)
    ensures r in Survivors(regs, beats, now, expiry) <==> r in regs && !Expired(beats, r, now, expiry)
  {
    if regs != [] {
      var init := regs[..|regs| - 1];
      SurvivorsIff(init, beats, now, expiry, r);
      assert regs == init + [regs[|regs| - 1]];
    }
  }

  /** A registration is handed to `DeRegister` exactly when it was registered and is expired. */
  lemma {:induction false} EvictedIff(regs: seq<Registration>, beats: map<string, int64>, now: int64, expiry: int64, r: Registration)
    ensures r in Evicted(regs, beats, now, expiry) <==> r in regs && Expired(beats, r, now, expiry)
  {
    if regs != [] {
      var init := regs[..|regs| - 1];
      EvictedIff(init, beats, now, expiry, r);
      assert regs == init + [regs[|regs| - 1]];
    }
  }

  /** Appending one element adds exactly that element to the multiset. */
  lemma MultisetSnoc<T>(s: seq<T>, x: T)
    ensures multiset(s + [x]) == multiset(s) + multiset{x}
  {
  }

  /** Every entry of the snapshot is checked exactly once: kept and evicted entries together are the snapshot. */
  lemma {:induction false} SweepPartition(regs: seq<Registration>, beats: map<string, int64>, now: int64, expiry: int64)
    ensures multiset(Survivors(regs, beats, now, expiry)) + multiset(Evicted(regs, beats, now, expiry)) == multiset(regs)
  {
    if regs != [] {
      var init := regs[..|regs| - 1];
      var last := regs[|regs| - 1];
      SweepPartition(init, beats, now, expiry);
      assert regs == init + [last];
      MultisetSnoc(init, last);
      var kept, gone := Survivors(init, beats, now, expiry), Evicted(init, beats, now, expiry);
      if Expired(beats, last, now, expiry) {
        assert Survivors(regs, beats, now, expiry) == kept;
        assert Evicted(regs, beats, now, expiry) == gone + [last];
        MultisetSnoc(gone, last);
      } else {
        assert Survivors(regs, beats, now, expiry) == kept + [last];
        assert Evicted(regs, beats, now, expiry) == gone;
        MultisetSnoc(kept, last);
      }
    }
  }

  /** A registration with no heartbeat entry is evicted and does not survive. */
  lemma {:induction false} MissingHeartbeatEvicted(regs: seq<Registration>, beats: map<string, int64>, now: int64, expiry: int64, r: Registration)
    requires r in regs && FullEndPoint(r) !in beats
    ensures r in Evicted(regs, beats, now, expiry)
    ensures r !in Survivors(regs, beats, now, expiry)
  {
    EvictedIff(regs, beats, now, expiry, r);
    SurvivorsIff(regs, beats, now, expiry, r);
  }

  /** A registration whose last heartbeat `t` has `now - t > expiry` is evicted and does not survive. */
  lemma {:induction false} StaleHeartbeatEvicted(regs: seq<Registration>, beats: map<string, int64>, now: int64, expiry: int64, r: Registration)
    requires r in regs && FullEndPoint(r) in beats && Sub64(now, beats[FullEndPoint(r)]) > expiry
    ensures r in Evicted(regs, beats, now, expiry)
    ensures r !in Survivors(regs, beats, now, expiry)
  {
    EvictedIff(regs, beats, now, expiry, r);
    SurvivorsIff(regs, beats, now, expiry, r);
  }

  /** The threshold is strict: `now - t <= expiry`, equality included, keeps the registration. */
  lemma {:induction false} FreshHeartbeatKept(regs: seq<Registration>, beats: map<string, int64>, now: int64, expiry: int64, r: Registration)
    requires r in regs && FullEndPoint(r) in beats && Sub64(now, beats[FullEndPoint(r)]) <= expiry
    ensures r in Survivors(regs, beats, now, expiry)
    ensures r !in Evicted(regs, beats, now, expiry)
  {
    EvictedIff(regs, beats, now, expiry, r);
    SurvivorsIff(regs, beats, now, expiry, r);
  }

  /** The verdict depends on the full endpoint only: two registrations sharing it are kept or evicted together. */
  lemma {:induction false} SameEndpointSameVerdict(regs: seq<Registration>, beats: map<string, int64>, now: int64, expiry: int64, r1: Registration, r2: Registration)
    requires r1 in regs && r2 in regs && FullEndPoint(r1) == FullEndPoint(r2)
    ensures r1 in Survivors(regs, beats, now, expiry) <==> r2 in Survivors(regs, beats, now, expiry)
    ensures r1 in Evicted(regs, beats, now, expiry) <==> r2 in Evicted(regs, beats, now, expiry)
  {
    SurvivorsIff(regs, beats, now, expiry, r1);
    SurvivorsIff(regs, beats, now, expiry, r2);
    EvictedIff(regs, beats, now, expiry, r1);
    EvictedIff(regs, beats, now, expiry, r2);
  }

  /** A second sweep with the same clock reading and heartbeats evicts nothing and keeps everything. */
  lemma {:induction false} SweepIdempotent(regs: seq<Registration>, beats: map<string, int64>, now: int64, expiry: int64)
    ensures Evicted(Survivors(regs, beats, now, expiry), beats, now, expiry) == []
    ensures Survivors(Survivors(regs, beats, now, expiry), beats, now, expiry) == Survivors(regs, beats, now, expiry)
  {
    if regs != [] {
      var init := regs[..|regs| - 1];
      var last := regs[|regs| - 1];
      SweepIdempotent(init, beats, now, expiry);
      var kept := Survivors(init, beats, now, expiry);
      if !Expired(beats, last, now, expiry) {
        var once := kept + [last];
        assert Survivors(regs, beats, now, expiry) == once;
        assert once[..|once| - 1] == kept && once[|once| - 1] == last;
        assert Survivors(once, beats, now, expiry) == Survivors(kept, beats, now, expiry) + [last];
        assert Evicted(once, beats, now, expiry) == Evicted(kept, beats, now, expiry);
      } else {
        assert Survivors(regs, beats, now, expiry) == kept;
      }
    }
  }

  /**
   * Visiting entry `i` of the snapshot, with `kept` and `gone` the survivors and the
   * evicted of the entries before it: an expired entry extends the evicted prefix, any
   * other moves from the unvisited part to the kept prefix.
   */
  lemma SweepStep(regs: seq<Registration>, i: nat, kept: seq<Registration>, gone: seq<Registration>,
                  beats: map<string, int64>, now: int64, expiry: int64)
    requires i < |regs|
    requires kept == Survivors(regs[..i], beats, now, expiry) && gone == Evicted(regs[..i], beats, now, expiry)
    ensures Expired(beats, regs[i], now, expiry) ==>
              kept == Survivors(regs[..i+1], beats, now, expiry) && gone + [regs[i]] == Evicted(regs[..i+1], beats, now, expiry)
    ensures !Expired(beats, regs[i], now, expiry) ==>
              kept + [regs[i]] == Survivors(regs[..i+1], beats, now, expiry) && gone == Evicted(regs[..i+1], beats, now, expiry)
  {
    var prefix := regs[..i+1];
    assert prefix[..|prefix| - 1] == regs[..i] && prefix[|prefix| - 1] == regs[i];
  }

  /**
   * While the sweep walks the snapshot, the live list is the survivors `kept` of the
   * entries already visited followed by the unvisited ones; `DeRegister` on an expired
   * entry `i` then drops exactly that entry, because no survivor shares its full endpoint.
   */
  lemma {:induction false} DeRegisterDropsVisited(regs: seq<Registration>, i: nat, kept: seq<Registration>,
                                                  beats: map<string, int64>, now: int64, expiry: int64)
    requires i < |regs| && Expired(beats, regs[i], now, expiry)
    requires kept == Survivors(regs[..i], beats, now, expiry)
    ensures RemoveFirst(kept + regs[i..], FullEndPoint(regs[i])) == kept + regs[i+1..]
  {
    var live := kept + regs[i..];
    var ep := FullEndPoint(regs[i]);
    forall j | 0 <= j < |kept|
      ensures FullEndPoint(live[j]) != ep
    {
      SurvivorsIff(regs[..i], beats, now, expiry, kept[j]);
    }
    var k := FirstMatch(live, ep);
    assert live[|kept|] == regs[i];
    assert k == |kept|;
    assert live[..k] == kept && live[k+1..] == regs[i+1..];
  }

  /**
   * With the threshold passed as the nanosecond count of a duration of `secs` seconds
   * while `now` and the heartbeat are Unix seconds, a registration silent for any
   * `age` seconds up to `secs` * 10^9 is kept.
   */
  lemma NanosecondThresholdKeeps(regs: seq<Registration>, beats: map<string, int64>, now: int64, secs: int64, r: Registration)
    requires 0 < secs as int * 1_000_000_000 < TwoTo63
    requires r in regs && FullEndPoint(r) in beats
    requires 0 <= now as int - beats[FullEndPoint(r)] as int <= secs as int * 1_000_000_000
    ensures r in Survivors(regs, beats, now, (secs as int * 1_000_000_000) as int64)
  {
    FreshHeartbeatKept(regs, beats, now, (secs as int * 1_000_000_000) as int64, r);
  }

  /**
   * With the threshold given in the clock's own unit, `secs` seconds, a registration
   * with a heartbeat is evicted exactly when it has been silent for more than `secs`
   * seconds (no wrap-around in `now - t`).
   */
  lemma SecondThresholdEvicts(regs: seq<Registration>, beats: map<string, int64>, now: int64, secs: int64, r: Registration)
    requires r in regs && FullEndPoint(r) in beats
    requires NoOverflowSub(now, beats[FullEndPoint(r)])
    ensures r in Evicted(regs, beats, now, secs) <==> now as int - beats[FullEndPoint(r)] as int > secs as int
    ensures r in Survivors(regs, beats, now, secs) <==> now as int - beats[FullEndPoint(r)] as int <= secs as int
  {
    EvictedIff(regs, beats, now, secs, r);
    SurvivorsIff(regs, beats, now, secs, r);
  }

  /**
   * A heartbeat so far in the past that `now - t` overflows int64 wraps to a negative
   * age, so with a non-negative threshold the registration is kept.
   */
  lemma WrappedAgeKept(regs: seq<Registration>, beats: map<string, int64>, now: int64, expiry: int64, r: Registration)
    requires r in regs && FullEndPoint(r) in beats && 0 <= expiry
    requires now as int > beats[FullEndPoint(r)] as int && !NoOverflowSub(now, beats[FullEndPoint(r)])
    ensures r in Survivors(regs, beats, now, expiry)
    ensures r !in Evicted(regs, beats, now, expiry)
  {
    FreshHeartbeatKept(regs, beats, now, expiry, r);
  }

  /**
   * An expired registration stays expired, for every registration with its full endpoint,
   * whether or not the heartbeat entry of that endpoint is removed afterwards.
   */
  lemma ExpiredWithoutEntry(beats: map<string, int64>, r: Registration, r2: Registration, now: int64, expiry: int64)
    requires Expired(beats, r, now, expiry) && FullEndPoint(r2) == FullEndPoint(r)
    ensures Expired(beats, r2, now, expiry)
    ensures Expired(beats - {FullEndPoint(r)}, r2, now, expiry)
  {
  }

  /** Removing the heartbeat entry of one endpoint leaves the verdict on every other endpoint as it was. */
  lemma OtherEndpointUnaffected(beats: map<string, int64>, ep: string, r: Registration, now: int64, expiry: int64)
    requires FullEndPoint(r) != ep
    ensures Expired(beats - {ep}, r, now, expiry) <==> Expired(beats, r, now, expiry)
  {
  }
}
