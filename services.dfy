/**
 * The part of the coordinator's `service` package that the expiry sweep relies on.
 * That package is not part of this model: the registration's full endpoint and the
 * effect of `DeRegister` below are ASSUMED behaviour, written down so that the sweep
 * can be verified against it.
 */
module Services {
  import opened MachineInts

  /** A provider registration: the network endpoint of one provider of a service. */
  datatype Registration = Registration(ip: string, port: string)

  /** `GetFullEndPoint`, assumed to join address and port with a colon. It is the key of the heartbeat map. */
  function FullEndPoint(r: Registration): string
  {
    r.ip + ":" + r.port
  }

  /** Index of the first registration whose full endpoint is `ep`, or |regs| when there is none. */
  function FirstMatch(regs: seq<Registration>, ep: string): (k: nat)
    ensures k <= |regs|
    ensures k < |regs| ==> FullEndPoint(regs[k]) == ep
    ensures forall j :: 0 <= j < k ==> FullEndPoint(regs[j]) != ep
  {
    if regs == [] then 0
    else if FullEndPoint(regs[0]) == ep then 0
    else 1 + FirstMatch(regs[1..], ep)
  }

  /**
   * The assumed effect of `DeRegister` on a registration list: the first registration
   * with the given full endpoint is dropped.
   */
  function RemoveFirst(regs: seq<Registration>, ep: string): (r: seq<Registration>)
    ensures (forall j :: 0 <= j < |regs| ==> FullEndPoint(regs[j]) != ep) ==> r == regs
  {
    var k := FirstMatch(regs, ep);
    if k < |regs| then regs[..k] + regs[k+1..] else regs
  }

  /** Dropping entry `k` of `s` takes exactly one occurrence of `s[k]` out of its multiset. */
  lemma MultisetDropAt<T>(s: seq<T>, k: nat)
    requires k < |s|
    ensures multiset(s[..k] + s[k+1..]) + multiset{s[k]} == multiset(s)
  {
    assert s == s[..k] + ([s[k]] + s[k+1..]);
  }

  /**
   * When some registration has full endpoint `ep`, `RemoveFirst` drops exactly one
   * registration, one with that endpoint, and keeps all others.
   */
  lemma RemoveFirstRemovesOne(regs: seq<Registration>, ep: string, j: nat)
    requires j < |regs| && FullEndPoint(regs[j]) == ep
    ensures FirstMatch(regs, ep) <= j
    ensures |RemoveFirst(regs, ep)| == |regs| - 1
    ensures multiset(RemoveFirst(regs, ep)) + multiset{regs[FirstMatch(regs, ep)]} == multiset(regs)
  {
    var k := FirstMatch(regs, ep);
    assert k <= j;
    MultisetDropAt(regs, k);
  }

  /** One logical service: its providers in registration order and the last heartbeat of each endpoint. */
  class Service {
    var regList: seq<Registration>
    var heartbeats: map<string, int64>

    /**
     * Assumed contract of the foreign `DeRegister`: removes the first registration
     * whose full endpoint matches `r`'s from `regList` and changes nothing else.
     */
    method DeRegister(r: Registration)
      modifies this`regList
      ensures regList == RemoveFirst(old(regList), FullEndPoint(r))
      ensures heartbeats == old(heartbeats)
    {
      regList := RemoveFirst(regList, FullEndPoint(r));
    }
  }
}
