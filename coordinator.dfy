/**
 * The coordinator's registry state and its expiry sweep `Clean`.
 */
module Coordinator {
  import opened MachineInts
  import opened Services
  import opened Expiry

  /** One call of `DeRegister` made by the sweep: under which ServiceID, on which service object, with which registration. */
  datatype Eviction = Eviction(serviceId: string, service: Service, reg: Registration)

  /** The registrations the log hands to `DeRegister` on service object `s`, in call order. */
  ghost function EvictedFrom(log: seq<Eviction>, s: Service): (regs: seq<Registration>)
    ensures |regs| <= |log|
  {
    if log == [] then []
    else
      var e := log[|log| - 1];
      EvictedFrom(log[..|log| - 1], s) + (if e.service == s then [e.reg] else [])
  }

  /** Logging one more call extends the projection onto `s` only when the call was on `s`. */
  lemma EvictedFromAppend(log: seq<Eviction>, e: Eviction, s: Service)
    ensures EvictedFrom(log + [e], s) == EvictedFrom(log, s) + (if e.service == s then [e.reg] else [])
  {
    assert (log + [e])[..|log|] == log;
  }

  /** The log entries for handing each of `regs`, in order, to `DeRegister` on `s`. */
  ghost function Tagged(id: string, s: Service, regs: seq<Registration>): (log: seq<Eviction>)
    ensures |log| == |regs|
  {
    if regs == [] then [] else Tagged(id, s, regs[..|regs| - 1]) + [Eviction(id, s, regs[|regs| - 1])]
  }

  /** Tagging one more registration appends its log entry, also after an existing log. */
  lemma TaggedAppend(log: seq<Eviction>, id: string, s: Service, regs: seq<Registration>, r: Registration)
    ensures Tagged(id, s, regs + [r]) == Tagged(id, s, regs) + [Eviction(id, s, r)]
    ensures log + Tagged(id, s, regs + [r]) == (log + Tagged(id, s, regs)) + [Eviction(id, s, r)]
  {
    assert (regs + [r])[..|regs|] == regs;
  }

  /** Entry `j` of the tagged log names the service `s` and registration `j` of `regs`. */
  lemma TaggedServices(id: string, s: Service, regs: seq<Registration>)
    ensures forall j :: 0 <= j < |Tagged(id, s, regs)| ==> Tagged(id, s, regs)[j] == Eviction(id, s, regs[j])
  {
    if regs != [] {
      TaggedServices(id, s, regs[..|regs| - 1]);
    }
  }

  /**
   * When every entry of a log names a ServiceID of `all` that maps to the entry's
   * service object, a non-empty log projects something onto the object of its last entry.
   */
  lemma LastEvictionProjected(all: map<string, Service>, log: seq<Eviction>)
    requires forall i :: 0 <= i < |log| ==> log[i].serviceId in all && all[log[i].serviceId] == log[i].service
    ensures log != [] ==> log[|log| - 1].serviceId in all && EvictedFrom(log, all[log[|log| - 1].serviceId]) != []
  {
    if log != [] {
      var e := log[|log| - 1];
      assert EvictedFrom(log, e.service) == EvictedFrom(log[..|log| - 1], e.service) + [e.reg];
    }
  }

  /** The projection of a concatenation of logs is the concatenation of the projections. */
  lemma {:induction false} EvictedFromConcat(a: seq<Eviction>, b: seq<Eviction>, t: Service)
    ensures EvictedFrom(a + b, t) == EvictedFrom(a, t) + EvictedFrom(b, t)
  {
    if b == [] {
      assert a + b == a;
    } else {
      var init, e := b[..|b| - 1], b[|b| - 1];
      EvictedFromConcat(a, init, t);
      assert a + b == (a + init) + [e];
      EvictedFromAppend(a + init, e, t);
      var tail := if e.service == t then [e.reg] else [];
      assert (EvictedFrom(a, t) + EvictedFrom(init, t)) + tail == EvictedFrom(a, t) + (EvictedFrom(init, t) + tail);
    }
  }

  /** The calls for `regs` on `s` project to `regs` on `s` and to nothing on any other service object. */
  lemma {:induction false} EvictedFromTagged(id: string, s: Service, regs: seq<Registration>, t: Service)
    ensures EvictedFrom(Tagged(id, s, regs), t) == (if t == s then regs else [])
  {
    if regs != [] {
      var init, last := regs[..|regs| - 1], regs[|regs| - 1];
      EvictedFromTagged(id, s, init, t);
      EvictedFromAppend(Tagged(id, s, init), Eviction(id, s, last), t);
      assert regs == init + [last];
    }
  }

  /**
   * The body of the inner loop of `Clean` for one registration `r`: when `r`'s endpoint
   * has no heartbeat or its heartbeat is older than `expiry`, `r` is handed to
   * `DeRegister` and the call is logged; otherwise nothing changes.
   */
  method CheckRegistration(ghost id: string, s: Service, r: Registration, now: int64, expiry: int64, ghost log: seq<Eviction>)
    returns (ghost log': seq<Eviction>)
    modifies s`regList
    ensures s.heartbeats == old(s.heartbeats)
    ensures Expired(s.heartbeats, r, now, expiry) ==>
              s.regList == RemoveFirst(old(s.regList), FullEndPoint(r)) && log' == log + [Eviction(id, s, r)]
    ensures !Expired(s.heartbeats, r, now, expiry) ==> s.regList == old(s.regList) && log' == log
  {
    log' := log;
    if Expired(s.heartbeats, r, now, expiry) {
      s.DeRegister(r);
      log' := log + [Eviction(id, s, r)];
    }
  }

  /**
   * One turn of the inner loop of `Clean` at entry `i` of the snapshot `regs`, with
   * `kept` and `gone` the survivors and the evicted of the entries before it and the
   * live list holding `kept` followed by the unvisited entries: afterwards the same
   * holds with entry `i` visited, and the log has gained the call if there was one.
   */
  method VisitRegistration(ghost id: string, s: Service, regs: seq<Registration>, i: nat, now: int64, expiry: int64,
                           ghost kept: seq<Registration>, ghost gone: seq<Registration>,
                           ghost log0: seq<Eviction>, ghost log: seq<Eviction>)
    returns (ghost kept': seq<Registration>, ghost gone': seq<Registration>, ghost log': seq<Eviction>)
    requires i < |regs|
    requires kept == Survivors(regs[..i], s.heartbeats, now, expiry) && gone == Evicted(regs[..i], s.heartbeats, now, expiry)
    requires s.regList == kept + regs[i..] && log == log0 + Tagged(id, s, gone)
    modifies s`regList
    ensures s.heartbeats == old(s.heartbeats)
    ensures kept' == Survivors(regs[..i+1], s.heartbeats, now, expiry) && gone' == Evicted(regs[..i+1], s.heartbeats, now, expiry)
    ensures s.regList == kept' + regs[i+1..] && log' == log0 + Tagged(id, s, gone')
  {
    var r := regs[i];
    SweepStep(regs, i, kept, gone, s.heartbeats, now, expiry);
    ghost var expired := Expired(s.heartbeats, r, now, expiry);
    if expired {
      DeRegisterDropsVisited(regs, i, kept, s.heartbeats, now, expiry);
      TaggedAppend(log0, id, s, gone, r);
    } else {
      assert regs[i..] == [r] + regs[i+1..];
      assert kept + regs[i..] == (kept + [r]) + regs[i+1..];
    }
    log' := CheckRegistration(id, s, r, now, expiry, log);
    if expired {
      kept', gone' := kept, gone + [r];
    } else {
      kept', gone' := kept + [r], gone;
    }
  }

  /**
   * One service's part of the sweep (the inner loop of `Clean`): every registration of
   * the list as it stands on entry is checked once against the heartbeat table and
   * handed to `DeRegister` when expired. The log gains one entry per call.
   */
  method SweepService(ghost id: string, s: Service, now: int64, expiry: int64, ghost log: seq<Eviction>) returns (ghost log': seq<Eviction>)
    modifies s`regList
    ensures s.heartbeats == old(s.heartbeats)
    ensures s.regList == Survivors(old(s.regList), s.heartbeats, now, expiry)
    ensures log' == log + Tagged(id, s, Evicted(old(s.regList), s.heartbeats, now, expiry))
  {
    var regs := s.regList;
    ghost var heartbeats := s.heartbeats;
    log' := log;
    ghost var kept, gone := [], [];
    var i := 0;
    while i < |regs|
      invariant 0 <= i <= |regs|
      invariant s.heartbeats == heartbeats
      invariant kept == Survivors(regs[..i], heartbeats, now, expiry)
      invariant gone == Evicted(regs[..i], heartbeats, now, expiry)
      invariant s.regList == kept + regs[i..]
      invariant log' == log + Tagged(id, s, gone)
    {
      kept, gone, log' := VisitRegistration(id, s, regs, i, now, expiry, kept, gone, log, log');
      i := i + 1;
    }
    assert regs[..|regs|] == regs;
  }

  /**
   * Where the sweep stands for service object `t`, whose list and heartbeats were `regs`
   * and `beats` before it: swept once if `done`, untouched otherwise, and the log holds
   * exactly the evictions of that one sweep.
   */
  ghost predicate Progress(t: Service, regs: seq<Registration>, beats: map<string, int64>, done: bool,
                           log: seq<Eviction>, now: int64, expiry: int64)
    reads t
  {
    && t.heartbeats == beats
    && t.regList == (if done then Survivors(regs, beats, now, expiry) else regs)
    && EvictedFrom(log, t) == (if done then Evicted(regs, beats, now, expiry) else [])
  }

  /** The first sweep of `t` takes it from untouched to swept. */
  lemma FirstSweepProgress(t: Service, id: string, regs: seq<Registration>, beats: map<string, int64>,
                           before: seq<Eviction>, after: seq<Eviction>, now: int64, expiry: int64)
    requires t.heartbeats == beats && EvictedFrom(before, t) == []
    requires t.regList == Survivors(regs, beats, now, expiry)
    requires after == before + Tagged(id, t, Evicted(regs, beats, now, expiry))
    ensures Progress(t, regs, beats, true, after, now, expiry)
  {
    var gone := Evicted(regs, beats, now, expiry);
    EvictedFromConcat(before, Tagged(id, t, gone), t);
    EvictedFromTagged(id, t, gone, t);
    assert [] + gone == gone;
  }

  /**
   * A second sweep of an already swept `t` (the same object stored under a second
   * ServiceID) hands nothing to `DeRegister` and leaves `t` swept.
   */
  lemma SecondSweepProgress(t: Service, id: string, regs: seq<Registration>, beats: map<string, int64>,
                            before: seq<Eviction>, after: seq<Eviction>, now: int64, expiry: int64)
    requires t.heartbeats == beats && EvictedFrom(before, t) == Evicted(regs, beats, now, expiry)
    requires t.regList == Survivors(Survivors(regs, beats, now, expiry), beats, now, expiry)
    requires after == before + Tagged(id, t, Evicted(Survivors(regs, beats, now, expiry), beats, now, expiry))
    ensures Progress(t, regs, beats, true, after, now, expiry)
  {
    SweepIdempotent(regs, beats, now, expiry);
    assert Tagged(id, t, []) == [];
    assert after == before;
  }

  /** Sweeping another service object `s` leaves `t`'s list and its projection of the log as they were. */
  lemma OtherSweepProgress(t: Service, id: string, s: Service, gone: seq<Registration>, regs: seq<Registration>,
                           beats: map<string, int64>, done: bool, before: seq<Eviction>, after: seq<Eviction>,
                           now: int64, expiry: int64)
    requires t != s
    requires Progress(t, regs, beats, done, before, now, expiry)
    requires after == before + Tagged(id, s, gone)
    ensures Progress(t, regs, beats, done, after, now, expiry)
  {
    EvictedFromConcat(before, Tagged(id, s, gone), t);
    EvictedFromTagged(id, s, gone, t);
    assert EvictedFrom(before, t) + [] == EvictedFrom(before, t);
  }

  /**
   * One visit of the outer loop of `Clean` to service object `s` moves every service
   * object `t` one step: `s` becomes swept (a second sweep of an already swept `s`
   * changes nothing) and every other object keeps its stage.
   */
  lemma VisitProgress(t: Service, id: string, s: Service, regs: seq<Registration>, beats: map<string, int64>, done: bool,
                      before: seq<Eviction>, listBefore: seq<Registration>, snapshot: seq<Registration>,
                      after: seq<Eviction>, now: int64, expiry: int64)
    requires t.heartbeats == beats
    requires listBefore == (if done then Survivors(regs, beats, now, expiry) else regs)
    requires EvictedFrom(before, t) == (if done then Evicted(regs, beats, now, expiry) else [])
    requires t == s ==> snapshot == listBefore && t.regList == Survivors(snapshot, beats, now, expiry)
    requires t != s ==> t.regList == listBefore
    requires after == before + Tagged(id, s, Evicted(snapshot, s.heartbeats, now, expiry))
    ensures Progress(t, regs, beats, done || t == s, after, now, expiry)
  {
    if t != s {
      OtherSweepProgress(t, id, s, Evicted(snapshot, s.heartbeats, now, expiry), regs, beats, done, before, after, now, expiry);
    } else if done {
      SecondSweepProgress(t, id, regs, beats, before, after, now, expiry);
    } else {
      FirstSweepProgress(t, id, regs, beats, before, after, now, expiry);
    }
  }

  /**
   * One turn of the outer loop of `Clean`: sweeps the service stored under `id` and
   * moves every service of `all` to its next stage (see `Progress`).
   */
  method VisitService(all: map<string, Service>, id: string, ghost lists: map<string, seq<Registration>>,
                      ghost beats: map<string, map<string, int64>>, ghost seen: set<Service>,
                      ghost log: seq<Eviction>, now: int64, expiry: int64) returns (ghost log': seq<Eviction>)
    requires id in all && all.Keys <= lists.Keys && all.Keys <= beats.Keys
    requires forall k {:trigger lists[k]} :: k in all ==> Progress(all[k], lists[k], beats[k], all[k] in seen, log, now, expiry)
    requires forall i :: 0 <= i < |log| ==> log[i].serviceId in all && all[log[i].serviceId] == log[i].service
    modifies (all[id] as Service)`regList
    ensures forall k {:trigger lists[k]} :: k in all ==> Progress(all[k], lists[k], beats[k], all[k] in seen + {all[id]}, log', now, expiry)
    ensures forall i :: 0 <= i < |log'| ==> log'[i].serviceId in all && all[log'[i].serviceId] == log'[i].service
  {
    var s := all[id];
    label Visit:
    ghost var snapshot := s.regList;
    log' := SweepService(id, s, now, expiry, log);
    ghost var gone := Evicted(snapshot, s.heartbeats, now, expiry);
    TaggedServices(id, s, gone);
    forall k | k in all
      ensures Progress(all[k], lists[k], beats[k], all[k] in seen + {s}, log', now, expiry)
    {
      VisitProgress(all[k], id, s, lists[k], beats[k], all[k] in seen, log, old@Visit(all[k].regList), snapshot, log', now, expiry);
    }
    forall i | 0 <= i < |log'|
      ensures log'[i].serviceId in all && all[log'[i].serviceId] == log'[i].service
    {
      if i < |log| {
        assert log'[i] == log[i];
      } else {
        assert log'[i] == Tagged(id, s, gone)[i - |log|];
      }
    }
  }

  /**
   * Where the outer loop of `Clean` stands: the ServiceIDs not in `remaining` have been
   * visited, every service object is at its stage (swept once if it is in `seen`), and
   * every log entry names a ServiceID of `all` that maps to the entry's service object.
   */
  ghost predicate Visited(all: map<string, Service>, lists: map<string, seq<Registration>>,
                          beats: map<string, map<string, int64>>, remaining: set<string>, seen: set<Service>,
                          log: seq<Eviction>, now: int64, expiry: int64)
    reads all.Values
  {
    && all.Keys <= lists.Keys && all.Keys <= beats.Keys
    && remaining <= all.Keys
    && (forall id {:trigger all[id]} :: id in all && id !in remaining ==> all[id] in seen)
    && (forall id {:trigger lists[id]} :: id in all ==> Progress(all[id], lists[id], beats[id], all[id] in seen, log, now, expiry))
    && (forall i :: 0 <= i < |log| ==> log[i].serviceId in all && all[log[i].serviceId] == log[i].service)
  }

  /**
   * One turn of the outer loop of `Clean`: picks any ServiceID not yet visited, in no
   * particular order as Go's map iteration, and sweeps its service.
   */
  method VisitNext(all: map<string, Service>, ghost lists: map<string, seq<Registration>>,
                   ghost beats: map<string, map<string, int64>>, remaining: set<string>, ghost seen: set<Service>,
                   ghost log: seq<Eviction>, now: int64, expiry: int64)
    returns (remaining': set<string>, ghost seen': set<Service>, ghost log': seq<Eviction>)
    requires remaining != {}
    requires Visited(all, lists, beats, remaining, seen, log, now, expiry)
    modifies all.Values`regList
    ensures remaining' < remaining
    ensures Visited(all, lists, beats, remaining', seen', log', now, expiry)
  {
    var id :| id in remaining;
    var s := all[id];
    log' := VisitService(all, id, lists, beats, seen, log, now, expiry);
    seen' := seen + {s};
    remaining' := remaining - {id};
  }

  /**
   * The outer loop of `Clean` over the services map `all`, visiting every ServiceID once
   * in an unspecified order, as Go's map iteration does. `lists` and `beats` hold each
   * service's registration list and heartbeats before the sweep. Afterwards every
   * service object is swept exactly once, even when it is stored under several IDs.
   */
  method SweepAll(all: map<string, Service>, ghost lists: map<string, seq<Registration>>,
                  ghost beats: map<string, map<string, int64>>, now: int64, expiry: int64)
    returns (ghost evictions: seq<Eviction>)
    requires all.Keys <= lists.Keys && all.Keys <= beats.Keys
    requires forall id {:trigger lists[id]} :: id in all ==> Progress(all[id], lists[id], beats[id], false, [], now, expiry)
    modifies all.Values`regList
    ensures forall id {:trigger lists[id]} :: id in all ==> Progress(all[id], lists[id], beats[id], true, evictions, now, expiry)
    ensures forall i :: 0 <= i < |evictions| ==>
              evictions[i].serviceId in all && all[evictions[i].serviceId] == evictions[i].service
  {
    evictions := [];
    ghost var seen: set<Service> := {};
    var remaining := all.Keys;
    while remaining != {}
      invariant Visited(all, lists, beats, remaining, seen, evictions, now, expiry)
      decreases remaining
    {
      remaining, seen, evictions := VisitNext(all, lists, beats, remaining, seen, evictions, now, expiry);
    }
  }

  /** The registry center: when it was created and last modified, its port, Go version, services and clusters. */
  class Coordinator {
    var created: int64
    var modified: int64
    var services: map<string, Service>
    var clusters: map<string, set<string>>
    var port: int32
    var goVer: string

    /**
     * The expiry sweep. Every service is visited, in an unspecified order as Go's map
     * iteration is; for each, every registration of the list as it stood before the
     * visit is checked once and handed to `DeRegister` when its full endpoint has no
     * heartbeat or `now - t > expiry`. `now` stands for the clock read while sweeping.
     * The ghost out-parameter records every `DeRegister` call.
     */
    method Clean(now: int64, expiry: int64) returns (ghost evictions: seq<Eviction>)
      modifies services.Values`regList
      ensures services == old(services) && clusters == old(clusters)
      ensures created == old(created) && modified == old(modified)
      ensures port == old(port) && goVer == old(goVer)
      ensures forall id :: id in services ==>
                services[id].heartbeats == old(services[id].heartbeats)
      ensures forall id :: id in services ==>
                services[id].regList == Survivors(old(services[id].regList), old(services[id].heartbeats), now, expiry)
      ensures forall id :: id in services ==>
                EvictedFrom(evictions, services[id]) == Evicted(old(services[id].regList), old(services[id].heartbeats), now, expiry)
      ensures forall i :: 0 <= i < |evictions| ==>
                evictions[i].serviceId in services && services[evictions[i].serviceId] == evictions[i].service
    {
      var all := services;
      ghost var lists := map id | id in all :: all[id].regList;
      ghost var beats := map id | id in all :: all[id].heartbeats;
      evictions := SweepAll(all, lists, beats, now, expiry);
      forall id | id in all
        ensures all[id].regList == Survivors(lists[id], beats[id], now, expiry)
        ensures all[id].heartbeats == beats[id]
        ensures EvictedFrom(evictions, all[id]) == Evicted(lists[id], beats[id], now, expiry)
      {
        assert Progress(all[id], lists[id], beats[id], true, evictions, now, expiry);
      }
    }

    /**
     * Two sweeps with the same clock reading: the second hands nothing to `DeRegister`,
     * because the first leaves every list as its survivors and every heartbeat table as it was.
     */
    method CleanTwice(now: int64, expiry: int64) returns (ghost first: seq<Eviction>, ghost second: seq<Eviction>)
      modifies services.Values`regList
      ensures second == []
      ensures forall id :: id in services ==> services[id].heartbeats == old(services[id].heartbeats)
      ensures forall id :: id in services ==>
        services[id].regList == Survivors(old(services[id].regList), old(services[id].heartbeats), now, expiry)
    {
      label Start:
      first := Clean(now, expiry);
      second := Clean(now, expiry);
      forall id | id in services
        ensures EvictedFrom(second, services[id]) == []
        ensures services[id].regList == Survivors(old@Start(services[id].regList), old@Start(services[id].heartbeats), now, expiry)
      {
        SweepIdempotent(old@Start(services[id].regList), old@Start(services[id].heartbeats), now, expiry);
      }
      LastEvictionProjected(services, second);
    }
  }
}
