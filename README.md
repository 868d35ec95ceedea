# Coordinator expiry sweep

This project models the registry center of a Go collaboration framework: the
`Coordinator` record and its expiry sweep `Clean`.

The `Coordinator` holds the following (class `Coordinator.Coordinator`):

- creation and modification times;
- a map from ServiceID to service;
- a map from ClusterID to a set of ServiceIDs;
- a port and a Go version string.

`Clean` visits every service in the map. For each one it takes the registration
list as it stands before the visit and looks up each registration's full endpoint
(`ip:port`) in that service's heartbeat table. It hands the registration to the
service's `DeRegister` when the endpoint has no heartbeat, or when `now - t`
exceeds the expiry threshold. `Clean` itself changes nothing else. Whether `DeRegister`
also touches the heartbeat table depends on the service package (see Left out).

The model has four modules:

- `MachineInts`: Go's `int32`/`int64` and wrapping `int64` subtraction (`Sub64`).
- `Services`: the part of the foreign `service` package the sweep relies on.
  This is the registration, its full endpoint, and a `Service` class with
  `regList`, `heartbeats` and `DeRegister`. That package is not part of this model.
  The full endpoint's format and `DeRegister`'s effect are ASSUMED contracts. They
  are written down as executable definitions so the sweep can be verified against
  them. The assumed `DeRegister` removes the first registration with a matching
  full endpoint and leaves the heartbeat table alone.
- `Expiry`: the eviction rule as specification functions. `Expired` gives the
  verdict on one registration. `Survivors` and `Evicted` give the kept and the
  evicted registrations of one list. The module also proves their properties.
- `Coordinator`: the imperative sweep.
  - `Clean` is a method of the class.
  - The outer loop over the services map is `SweepAll`. Each turn, `VisitNext`, picks
    the next key with `:|`, because Go's map iteration order is unspecified.
  - One service's visit is `VisitService`.
  - The inner loop over the snapshot is `SweepService`. One turn of it is
    `VisitRegistration`, and the check-and-evict step is `CheckRegistration`.
  - A ghost log records every `DeRegister` call as
    `Eviction(serviceId, service, registration)`.

The clock reading `time.Now().Unix()` and the threshold become the parameters
`now` and `expiry`. The source compares Unix seconds against the `int64` of a
`time.Duration`, which counts nanoseconds. The model keeps that comparison
literally (see Findings). The same service object may be stored under two
ServiceIDs. The proof handles that case: the second visit finds nothing left to
evict.

## Model

| member | source | states |
|---|---|---|
| MachineInts.Sub64 | coordinator/coordinator.go:88 | `now - t` is Go int64 subtraction. Without overflow it is the exact difference. With overflow it is off by 2^64. A positive difference that overflows comes out negative. |
| Services.FirstMatch | coordinator/coordinator.go:89 | The index that `DeRegister` removes. It is the first registration whose full endpoint is the given one, or the list length when there is none. |
| Services.RemoveFirst | coordinator/coordinator.go:89 | The assumed `DeRegister` effect on a list leaves the list unchanged when no registration has the endpoint. |
| Services.RemoveFirstRemovesOne | coordinator/coordinator.go:89 | When some registration has the endpoint, the assumed `DeRegister` effect removes exactly one registration with that endpoint. It removes no earlier one, and the remaining multiset is the original minus that entry. |
| Services.Service.DeRegister | coordinator/coordinator.go:89 | The assumed contract of the foreign call: `regList` loses its first registration with the given full endpoint, and `heartbeats` is unchanged. |
| Expiry.Expired | coordinator/coordinator.go:87-88 | The verdict on one registration. A full endpoint with no heartbeat entry is expired. When `now - t` does not overflow, the registration is expired if and only if its true age exceeds the threshold. |
| Expiry.Survivors | coordinator/coordinator.go:86-90 | The kept registrations of one snapshot. Its own contract states only that there are at most as many as in the snapshot. What they are is stated by `Expiry.SurvivorsIff` and `Expiry.SweepPartition`. |
| Expiry.Evicted | coordinator/coordinator.go:86-90 | The registrations handed to `DeRegister` for one snapshot. Its own contract states only that there are at most as many as in the snapshot. What they are is stated by `Expiry.EvictedIff` and `Expiry.SweepPartition`. |
| Expiry.SurvivorsIff | coordinator/coordinator.go:86-90 | A registration survives the sweep if and only if it was in the snapshot and is not expired. |
| Expiry.EvictedIff | coordinator/coordinator.go:86-90 | A registration is handed to `DeRegister` if and only if it was in the snapshot and is expired. |
| Expiry.SweepPartition | coordinator/coordinator.go:86-90 | Every snapshot entry is checked exactly once. The kept and the evicted registrations together are the snapshot, as multisets. |
| Expiry.MissingHeartbeatEvicted | coordinator/coordinator.go:87-89 | A registration whose full endpoint has no heartbeat entry is evicted and does not survive. |
| Expiry.StaleHeartbeatEvicted | coordinator/coordinator.go:87-89 | A registration with heartbeat `t` and `now - t > expiry` is evicted and does not survive. |
| Expiry.FreshHeartbeatKept | coordinator/coordinator.go:88 | The threshold is strict. `now - t <= expiry`, including equality, keeps the registration and does not evict it. |
| Expiry.SameEndpointSameVerdict | coordinator/coordinator.go:87 | Two registrations with the same full endpoint are both kept or both evicted, because the lookup is keyed by the full endpoint. |
| Expiry.WrappedAgeKept | coordinator/coordinator.go:88 | A heartbeat so old that `now - t` overflows int64 gives a negative age, so with a non-negative threshold that registration is kept and not evicted. |
| Expiry.SweepIdempotent | coordinator/coordinator.go:86-90 | For one list, a second sweep with the same `now` and heartbeats evicts nothing and keeps every survivor. |
| Expiry.SweepStep | coordinator/coordinator.go:86-90 | Visiting snapshot entry `i` appends it to the evicted prefix when it is expired, and to the kept prefix otherwise. |
| Expiry.DeRegisterDropsVisited | coordinator/coordinator.go:82-89 | Mid-sweep, the live list is the survivors so far followed by the unvisited entries. `DeRegister` on expired entry `i` removes exactly that entry, because no survivor shares its endpoint. |
| Expiry.NanosecondThresholdKeeps | coordinator/coordinator.go:88 | When the threshold is an interval of `secs` seconds counted in nanoseconds, a registration silent for up to `secs`·10^9 seconds is kept. |
| Expiry.SecondThresholdEvicts | coordinator/coordinator.go:88 | When the threshold is the interval in seconds, a registration with a heartbeat whose `now - t` does not overflow int64 is evicted if and only if it has been silent for more than that many seconds, and kept otherwise. |
| Coordinator.CheckRegistration | coordinator/coordinator.go:87-90 | One check. An expired registration goes to `DeRegister` and is logged. Otherwise the list and the log are unchanged. The heartbeats are never touched. |
| Coordinator.VisitRegistration | coordinator/coordinator.go:86-91 | One inner-loop turn keeps the invariant that the live list is the survivors of the visited prefix followed by the unvisited suffix, and that the log holds the evictions of the visited prefix. |
| Coordinator.SweepService | coordinator/coordinator.go:81-91 | After one service's inner loop, its list is `Survivors(snapshot)` and its heartbeats are unchanged. The log gained `Evicted(snapshot)` in visiting order, one entry per `DeRegister` call. |
| Coordinator.SecondSweepProgress | coordinator/coordinator.go:80-91 | A service object reached a second time under another ServiceID is already swept. Visiting it again logs nothing and leaves it swept. |
| Coordinator.VisitService | coordinator/coordinator.go:80-92 | One outer-loop turn moves the visited object to swept and leaves every other object at its stage. Every log entry names a ServiceID that maps to the object it was called on. |
| Coordinator.VisitNext | coordinator/coordinator.go:80-92 | One outer-loop turn on any not yet visited ServiceID keeps the loop invariant `Visited` and shrinks the set of remaining IDs. |
| Coordinator.SweepAll | coordinator/coordinator.go:78-92 | The outer loop visits every ServiceID in any order. Afterwards every service object has been swept exactly once, even when it is aliased. |
| Coordinator.Coordinator.Clean | coordinator/coordinator.go:77-93 | The services map keeps its keys and objects, so a service stays even when all its registrations go. `Clusters`, `Created`, `Modified`, `Port` and `GoVer` are unchanged. Each service's list becomes the survivors of its pre-sweep list, and its heartbeats are unchanged. The calls logged for each service are exactly its evicted registrations, in order. |
| Coordinator.Coordinator.CleanTwice | coordinator/coordinator.go:77-93 | Two `Clean` calls with the same `now`: the second hands nothing to `DeRegister`. Afterwards every service's list is the survivors of its list before the first call, and its heartbeats are unchanged, so two calls have the effect of one. |

## Left out

- `Handle` (coordinator/coordinator.go:29-74) registers HTTP routes whose handlers are not part of this model. It also starts a goroutine that runs `Clean` and `Dump` once after a timer. Routing, timers and concurrency are not modelled.
- `Dump` (coordinator/coordinator.go:95-109) is file-system I/O, JSON marshalling, logging and a `panic` on write failure. It is not modelled, and nothing reads the dump back.
- `TokenLength` and `ServiceLength` (coordinator/coordinator.go:16-17) are not used by `Clean`.
- Services.Service.DeRegister: the body is an assumed contract, not the foreign package's code. The model assumes it removes the first registration with the matching full endpoint and leaves the heartbeat table alone. Every heartbeats postcondition comes from that assumption alone: those of `CheckRegistration`, `VisitRegistration`, `SweepService`, `Clean` and `CleanTwice`, and the unchanged-heartbeats part of the `Progress` predicate. A `DeRegister` that also removed the endpoint's heartbeat entry would change the map that line 83 aliases. The evictions would still be the same: a later registration with the same endpoint is expired either way (`Expiry.ExpiredWithoutEntry`), and other endpoints keep their verdict (`Expiry.OtherEndpointUnaffected`). The final heartbeat tables would then differ.
- Services.FullEndPoint: `GetFullEndPoint` is assumed to be `ip + ":" + port`. The proofs only use that it is a function of the registration.
- Go slice aliasing between the `regs` copy (line 82) and the array `DeRegister` may edit in place is not modelled. The model iterates over an immutable snapshot. Whether the Go loop skips the entry after each removal depends on the unseen `DeRegister`.
- The address `&r` of the loop variable passed to `DeRegister` is modelled as passing the registration by value.
- `time.Now().Unix()`, read once per registration at line 88, is a single parameter `now`. The threshold is a parameter `expiry`, because the constant's value is not part of this model.
- Only `RegList` and `Heartbeats` of the service type are modelled. Subscriptions, tokens, locking, query routing and cluster heartbeats do not appear in `Clean`.
- Coordinator.Coordinator.Clean: the contract fixes which `DeRegister` calls each service object receives, but not under which ServiceID they are logged when the object is stored under two IDs. Only the visit that comes first in the map order makes calls, and that order is unspecified.
- Nil entries in the services map are not modelled: the map holds non-null service objects. In Go a nil `*service.Service` makes `s.RegList` at line 82 panic, so `Clean` crashes.

## Findings

| source | as written | input that shows it | evidently intended | confidence | as-written member | corrected member |
|---|---|---|---|---|---|---|
| coordinator/coordinator.go:88 | `time.Now().Unix() - t` is in seconds, but it is compared against `int64(DefaultCollaboratorExpiryInterval)`. That is a `time.Duration`, and line 69 passes the same constant to `time.After`, so it counts nanoseconds. | With a 30-second interval the threshold is 30·10^9. A provider whose last heartbeat is one day (86400 s) old is kept. | Compare the heartbeat age against the interval in seconds. | not executed; the unit mismatch follows from the types alone | Expiry.NanosecondThresholdKeeps | Expiry.SecondThresholdEvicts |

The sweep's model takes the threshold as the parameter `expiry`, so every contract
of `Clean` holds for either threshold. `Expiry.SecondThresholdEvicts` shows that
passing the interval in seconds gives the intended rule.
