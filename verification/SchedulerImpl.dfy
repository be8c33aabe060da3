/**
  `scheduler` of judge-service/scheduler.go with its mutable fields, and one call of
  `Acquire` with the release closure it returns, cut at each channel operation and
  each critical section. Proved to perform the steps of SchedulerSpec.
 */
module Schedulers {
  import opened SchedulerSpec

  datatype Snapshot = Snapshot(
    globalMax: nat, perIpMax: nat, inUse: int, totalAccepted: int, totalRejected: int, activeIps: nat)

  class Scheduler {
    const cfg: Config
    var global: nat
    var perIp: map<Ip, nat>
    var inflightByIp: map<Ip, int>
    var totalAccepted: int
    var totalRejected: int
    var currentInUse: int

    /** The scheduler together with the calls in progress. */
    ghost function Abs(threads: seq<Thread>): State
      reads this
    {
      State(global, perIp, inflightByIp, totalAccepted, totalRejected, currentInUse, threads)
    }

    constructor (cfg: Config)
      ensures this.cfg == cfg
      ensures Abs([]) == Start([])
    {
      this.cfg := cfg;
      global, perIp, inflightByIp := 0, map[], map[];
      totalAccepted, totalRejected, currentInUse := 0, 0, 0;
    }

    /** Tokens in the channel of `ip`; a channel is never replaced, so the map stands for the handle a call keeps. */
    function Tokens(ip: Ip): nat
      reads this
    {
      if ip in perIp then perIp[ip] else 0
    }

    /** Creates the channel of `ip` on first use. */
    method IpSlot(ip: Ip)
      modifies this`perIp
      ensures perIp == if ip in old(perIp) then old(perIp) else old(perIp)[ip := 0]
    {
      if ip !in perIp {
        perIp := perIp[ip := 0];
      }
    }

    method CountAdmission(ip: Ip)
      modifies this
      ensures global == old(global) && perIp == old(perIp) && totalRejected == old(totalRejected)
      ensures inflightByIp
           == old(inflightByIp)[ip := (if ip in old(inflightByIp) then old(inflightByIp)[ip] else 0) + 1]
      ensures totalAccepted == old(totalAccepted) + 1 && currentInUse == old(currentInUse) + 1
    {
      inflightByIp := inflightByIp[ip := (if ip in inflightByIp then inflightByIp[ip] else 0) + 1];
      totalAccepted := totalAccepted + 1;
      currentInUse := currentInUse + 1;
    }

    method CountRelease(ip: Ip)
      modifies this
      ensures global == old(global) && perIp == old(perIp)
      ensures totalAccepted == old(totalAccepted) && totalRejected == old(totalRejected)
      ensures inflightByIp == Decremented(old(inflightByIp), ip)
      ensures currentInUse == old(currentInUse) - 1
    {
      var before := if ip in inflightByIp then inflightByIp[ip] else 0;
      inflightByIp := inflightByIp[ip := before - 1];
      if inflightByIp[ip] <= 0 {
        inflightByIp := inflightByIp - {ip};
      }
      currentInUse := currentInUse - 1;
    }

    method RecordReject()
      modifies this`totalRejected
      ensures totalRejected == old(totalRejected) + 1
    {
      totalRejected := totalRejected + 1;
    }

    /** In any state the invariant allows, `activeIps` is the number of IPs with a counted call. */
    method TakeSnapshot(ghost threads: seq<Thread>) returns (snap: Snapshot)
      requires Inv(cfg, Abs(threads))
      ensures snap.globalMax == cfg.globalMax && snap.perIpMax == cfg.perIpMax
      ensures snap.inUse == Count(Abs(threads), InUse())
      ensures snap.totalAccepted == Count(Abs(threads), AcceptedCall())
      ensures snap.totalRejected == Count(Abs(threads), RejectedCall())
      ensures exists ips: set<Ip> :: snap.activeIps == |ips|
                && forall ip: Ip :: ip in ips <==> Count(Abs(threads), InUseBy(ip)) > 0
    {
      snap := Snapshot(cfg.globalMax, cfg.perIpMax, currentInUse, totalAccepted, totalRejected, |inflightByIp|);
      ghost var ips := inflightByIp.Keys;
      assert forall ip: Ip :: IpInv(cfg, Abs(threads), ip) ==> (ip in ips <==> Count(Abs(threads), InUseBy(ip)) > 0);
    }
  }

  class Call {
    const ip: Ip
    var pc: Pc
    var released: bool

    constructor (ip: Ip)
      ensures this.ip == ip && pc == Called && !released
    {
      this.ip := ip;
      pc, released := Called, false;
    }

    predicate Valid()
      reads this
    {
      released <==> pc.ReleaseGlobal? || pc.ReleaseIp? || pc.Uncount? || pc.Served?
    }

    /** One step of thread `t`, whose channel operation, if any, does not block. */
    method Go(s: Scheduler, ghost threads: seq<Thread>, ghost t: nat)
      requires Valid() && t < |threads| && threads[t] == Thread(ip, pc)
      requires Can(s.cfg, s.Abs(threads), Action.Go(t))
      modifies this, s
      ensures Valid()
      ensures s.Abs(threads[t := Thread(ip, pc)]) == Step(s.cfg, old(s.Abs(threads)), Action.Go(t))
    {
      match pc
      case Called =>
        s.IpSlot(ip);
        pc := AwaitIp;
      case AwaitIp =>
        s.perIp := s.perIp[ip := s.Tokens(ip) + 1];
        pc := AwaitGlobal;
      case AwaitGlobal =>
        s.global := s.global + 1;
        pc := Admitted;
      case Admitted =>
        s.CountAdmission(ip);
        pc := Holding;
      case Holding =>
        Release();
      case ReleaseGlobal =>
        s.global := s.global - 1;
        pc := ReleaseIp;
      case ReleaseIp =>
        s.perIp := s.perIp[ip := s.perIp[ip] - 1];
        pc := Uncount;
      case Uncount =>
        s.CountRelease(ip);
        pc := Served;
      case BackOut(reason) =>
        s.perIp := s.perIp[ip := s.perIp[ip] - 1];
        pc := Reject(reason);
      case Reject(reason) =>
        s.RecordReject();
        pc := Refused(reason);
    }

    /** The deadline or the context wins the select this call is blocked in. */
    method GiveUp(s: Scheduler, reason: Reason, ghost threads: seq<Thread>, ghost t: nat)
      requires Valid() && t < |threads| && threads[t] == Thread(ip, pc)
      requires pc.AwaitIp? || pc.AwaitGlobal?
      modifies this
      ensures Valid()
      ensures s.Abs(threads[t := Thread(ip, pc)]) == Step(s.cfg, old(s.Abs(threads)), Action.GiveUp(t, reason))
    {
      pc := if pc.AwaitIp? then Reject(reason) else BackOut(reason);
    }

    /** Entering the release closure: only the first call gets past the flag. */
    method Release()
      requires Valid() && (pc.Holding? || released)
      modifies this
      ensures Valid() && released
      ensures pc == if old(released) then old(pc) else ReleaseGlobal
    {
      if released {
        return;
      }
      released := true;
      pc := ReleaseGlobal;
    }
  }
}
