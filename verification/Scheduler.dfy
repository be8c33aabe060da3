/**
  The judge's two-level semaphore, judge-service/scheduler.go. Each call of `Acquire`
  together with the release closure it returns is a thread with a program counter; a
  step is one channel operation or one critical section, so a run of `Step` is one
  interleaving. Buffered channels of empty structs are token counters.
 */
module SchedulerSpec {
  import opened Wrappers
  import opened Sums

  type Ip = string

  datatype Config = Config(globalMax: nat, perIpMax: nat)

  datatype Reason = Busy | Cancelled

  datatype Pc =
    | Called                        // about to look up the per-IP channel
    | AwaitIp                       // select on the per-IP channel
    | AwaitGlobal                   // select on the global channel
    | Admitted                      // has both tokens, about to count itself
    | Holding                       // Acquire returned; release not called yet
    | ReleaseGlobal                 // released = true; about to receive from global
    | ReleaseIp                     // about to receive from the per-IP channel
    | Uncount                       // about to undo the counters
    | BackOut(reason: Reason)       // about to receive from the per-IP channel
    | Reject(reason: Reason)        // about to count the rejection
    | Served
    | Refused(reason: Reason)

  datatype Thread = Thread(ip: Ip, pc: Pc)

  datatype State = State(
    global: nat,
    perIp: map<Ip, nat>,
    inflightByIp: map<Ip, int>,
    totalAccepted: int,
    totalRejected: int,
    currentInUse: int,
    threads: seq<Thread>)

  /** `GiveUp` is the deadline or the context winning the select. */
  datatype Action = Go(t: nat) | GiveUp(t: nat, reason: Reason)

  function Start(ips: seq<Ip>): State {
    State(0, map[], map[], 0, 0, 0, seq(|ips|, i requires 0 <= i < |ips| => Thread(ips[i], Called)))
  }

  function Slot(s: State, ip: Ip): nat {
    if ip in s.perIp then s.perIp[ip] else 0
  }

  /** A finished call takes no step; a send or receive only proceeds when the channel allows it. */
  predicate Can(c: Config, s: State, a: Action) {
    a.t < |s.threads|
    && var th := s.threads[a.t];
       if a.GiveUp? then th.pc.AwaitIp? || th.pc.AwaitGlobal?
       else match th.pc
            case AwaitIp => Slot(s, th.ip) < c.perIpMax
            case AwaitGlobal => s.global < c.globalMax
            case ReleaseGlobal => s.global > 0
            case ReleaseIp => Slot(s, th.ip) > 0
            case BackOut(_) => Slot(s, th.ip) > 0
            case Served => false
            case Refused(_) => false
            case _ => true
  }

  function Moved(s: State, t: nat, pc: Pc): State
    requires t < |s.threads|
  {
    s.(threads := s.threads[t := s.threads[t].(pc := pc)])
  }

  function Decremented(m: map<Ip, int>, ip: Ip): map<Ip, int> {
    var n := (if ip in m then m[ip] else 0) - 1;
    if n <= 0 then m - {ip} else m[ip := n]
  }

  function Step(c: Config, s: State, a: Action): State
    requires Can(c, s, a)
  {
    var th := s.threads[a.t];
    var ip := th.ip;
    match a
    case GiveUp(t, reason) => Moved(s, t, if th.pc.AwaitIp? then Reject(reason) else BackOut(reason))
    case Go(t) =>
      match th.pc
      case Called => Moved(s, t, AwaitIp).(perIp := if ip in s.perIp then s.perIp else s.perIp[ip := 0])
      case AwaitIp => Moved(s, t, AwaitGlobal).(perIp := s.perIp[ip := Slot(s, ip) + 1])
      case AwaitGlobal => Moved(s, t, Admitted).(global := s.global + 1)
      case Admitted =>
        Moved(s, t, Holding).(
          inflightByIp := s.inflightByIp[ip := (if ip in s.inflightByIp then s.inflightByIp[ip] else 0) + 1],
          totalAccepted := s.totalAccepted + 1,
          currentInUse := s.currentInUse + 1)
      case Holding => Moved(s, t, ReleaseGlobal)
      case ReleaseGlobal => Moved(s, t, ReleaseIp).(global := s.global - 1)
      case ReleaseIp => Moved(s, t, Uncount).(perIp := s.perIp[ip := Slot(s, ip) - 1])
      case Uncount =>
        Moved(s, t, Served).(inflightByIp := Decremented(s.inflightByIp, ip), currentInUse := s.currentInUse - 1)
      case BackOut(reason) => Moved(s, t, Reject(reason)).(perIp := s.perIp[ip := Slot(s, ip) - 1])
      case Reject(reason) => Moved(s, t, Refused(reason)).(totalRejected := s.totalRejected + 1)
      case _ => s
  }

  // ---- who holds what ----

  predicate HasGlobal(pc: Pc) { pc.Admitted? || pc.Holding? || pc.ReleaseGlobal? }

  predicate HasIp(pc: Pc) { HasGlobal(pc) || pc.AwaitGlobal? || pc.ReleaseIp? || pc.BackOut? }

  predicate Counted(pc: Pc) { pc.Holding? || pc.ReleaseGlobal? || pc.ReleaseIp? || pc.Uncount? }

  predicate Finished(pc: Pc) { pc.Served? || pc.Refused? }

  function Indicator(b: bool): nat { if b then 1 else 0 }

  function GlobalToken(): Thread -> nat { (th: Thread) => Indicator(HasGlobal(th.pc)) }
  function IpToken(ip: Ip): Thread -> nat { (th: Thread) => Indicator(th.ip == ip && HasIp(th.pc)) }
  function InUse(): Thread -> nat { (th: Thread) => Indicator(Counted(th.pc)) }
  function InUseBy(ip: Ip): Thread -> nat { (th: Thread) => Indicator(th.ip == ip && Counted(th.pc)) }
  function AcceptedCall(): Thread -> nat { (th: Thread) => Indicator(Counted(th.pc) || th.pc.Served?) }
  function RejectedCall(): Thread -> nat { (th: Thread) => Indicator(th.pc.Refused?) }

  function Count(s: State, f: Thread -> nat): nat { Sum(s.threads, f) }

  predicate SlotInv(c: Config, s: State, ip: Ip) {
    Slot(s, ip) == Count(s, IpToken(ip)) <= c.perIpMax
  }

  /** An IP is listed exactly while some of its calls are counted, with their number. */
  predicate ListedInv(s: State, ip: Ip) {
    && (ip in s.inflightByIp <==> Count(s, InUseBy(ip)) > 0)
    && (ip in s.inflightByIp ==> s.inflightByIp[ip] == Count(s, InUseBy(ip)))
  }

  predicate IpInv(c: Config, s: State, ip: Ip) {
    SlotInv(c, s, ip) && ListedInv(s, ip)
  }

  predicate GlobalInv(c: Config, s: State) {
    s.global == Count(s, GlobalToken()) <= c.globalMax
  }

  predicate CountersInv(s: State) {
    && s.currentInUse == Count(s, InUse())
    && s.totalAccepted == Count(s, AcceptedCall())
    && s.totalRejected == Count(s, RejectedCall())
  }

  predicate TotalsInv(c: Config, s: State) {
    GlobalInv(c, s) && CountersInv(s)
  }

  ghost predicate Inv(c: Config, s: State) {
    TotalsInv(c, s) && forall ip: Ip :: IpInv(c, s, ip)
  }

  lemma MovedCount(s: State, t: nat, pc: Pc, f: Thread -> nat)
    requires t < |s.threads|
    ensures Count(Moved(s, t, pc), f) + f(s.threads[t]) == Count(s, f) + f(s.threads[t].(pc := pc))
  {
    SumUpdate(s.threads, t, s.threads[t].(pc := pc), f);
  }

  lemma StepCount(c: Config, s: State, a: Action, f: Thread -> nat)
    requires Can(c, s, a)
    ensures Count(Step(c, s, a), f) + f(s.threads[a.t]) == Count(s, f) + f(Step(c, s, a).threads[a.t])
  {
    MovedCount(s, a.t, Step(c, s, a).threads[a.t].pc, f);
  }

  lemma StartInv(c: Config, ips: seq<Ip>)
    ensures Inv(c, Start(ips))
  {
    var s := Start(ips);
    SumZero(s.threads, GlobalToken());
    SumZero(s.threads, InUse());
    SumZero(s.threads, AcceptedCall());
    SumZero(s.threads, RejectedCall());
    forall ip: Ip ensures IpInv(c, s, ip) {
      SumZero(s.threads, IpToken(ip));
      SumZero(s.threads, InUseBy(ip));
    }
  }

  lemma StepGlobal(c: Config, s: State, a: Action)
    requires Can(c, s, a) && GlobalInv(c, s)
    ensures GlobalInv(c, Step(c, s, a))
  {
    StepCount(c, s, a, GlobalToken());
  }

  lemma StepCounters(c: Config, s: State, a: Action)
    requires Can(c, s, a) && CountersInv(s)
    ensures CountersInv(Step(c, s, a))
  {
    StepCount(c, s, a, InUse());
    StepCount(c, s, a, AcceptedCall());
    StepCount(c, s, a, RejectedCall());
  }

  lemma StepSlot(c: Config, s: State, a: Action, ip: Ip)
    requires Can(c, s, a) && SlotInv(c, s, ip)
    ensures SlotInv(c, Step(c, s, a), ip)
  {
    StepCount(c, s, a, IpToken(ip));
  }

  lemma StepListed(c: Config, s: State, a: Action, ip: Ip)
    requires Can(c, s, a) && ListedInv(s, ip)
    ensures ListedInv(Step(c, s, a), ip)
  {
    StepCount(c, s, a, InUseBy(ip));
    SumAtLeast(s.threads, a.t, InUseBy(ip));
  }

  /** Every channel operation and critical section keeps channels, counters and threads in step. */
  lemma StepInv(c: Config, s: State, a: Action)
    requires Can(c, s, a) && Inv(c, s)
    ensures Inv(c, Step(c, s, a))
  {
    StepGlobal(c, s, a);
    StepCounters(c, s, a);
    forall ip: Ip ensures IpInv(c, Step(c, s, a), ip) {
      assert IpInv(c, s, ip);
      StepSlot(c, s, a, ip);
      StepListed(c, s, a, ip);
    }
  }

  predicate Runs(c: Config, s: State, actions: seq<Action>)
    decreases |actions|
  {
    actions == [] || (Can(c, s, actions[0]) && Runs(c, Step(c, s, actions[0]), actions[1..]))
  }

  function After(c: Config, s: State, actions: seq<Action>): State
    requires Runs(c, s, actions)
    decreases |actions|
  {
    if actions == [] then s else After(c, Step(c, s, actions[0]), actions[1..])
  }

  lemma {:induction false} RunInv(c: Config, s: State, actions: seq<Action>)
    requires Inv(c, s) && Runs(c, s, actions)
    ensures Inv(c, After(c, s, actions))
    ensures |After(c, s, actions).threads| == |s.threads|
    decreases |actions|
  {
    if actions != [] {
      StepInv(c, s, actions[0]);
      RunInv(c, Step(c, s, actions[0]), actions[1..]);
    }
  }

  // ---- safety ----

  /**
    In every interleaving of any calls: the channels hold exactly the tokens of the threads that
    took them, within their capacities, and no receive in a release or a back-out can block.
   */
  lemma Safety(c: Config, ips: seq<Ip>, actions: seq<Action>)
    requires Runs(c, Start(ips), actions)
    ensures var s := After(c, Start(ips), actions);
            && s.global == Count(s, GlobalToken()) <= c.globalMax
            && (forall ip: Ip :: Slot(s, ip) == Count(s, IpToken(ip)) <= c.perIpMax)
            && (forall t: nat | t < |s.threads| ::
                  (s.threads[t].pc.ReleaseGlobal? || s.threads[t].pc.ReleaseIp? || s.threads[t].pc.BackOut?)
                  ==> Can(c, s, Go(t)))
  {
    StartInv(c, ips);
    RunInv(c, Start(ips), actions);
    var s := After(c, Start(ips), actions);
    forall ip: Ip ensures Slot(s, ip) == Count(s, IpToken(ip)) <= c.perIpMax {
      assert IpInv(c, s, ip);
    }
    forall t: nat | t < |s.threads|
      && (s.threads[t].pc.ReleaseGlobal? || s.threads[t].pc.ReleaseIp? || s.threads[t].pc.BackOut?)
      ensures Can(c, s, Go(t))
    {
      assert IpInv(c, s, s.threads[t].ip);
      SumAtLeast(s.threads, t, GlobalToken());
      SumAtLeast(s.threads, t, IpToken(s.threads[t].ip));
    }
  }

  function Lagging(): Thread -> nat { (th: Thread) => Indicator(th.pc.ReleaseIp? || th.pc.Uncount?) }
  function Uncounted(): Thread -> nat { (th: Thread) => Indicator(th.pc.Admitted?) }

  function GlobalOrLagging(): Thread -> nat {
    (th: Thread) => Indicator(HasGlobal(th.pc) || th.pc.ReleaseIp? || th.pc.Uncount?)
  }

  /**
    `currentInUse` is not the number of global tokens: it lags behind a release that has returned
    its token and runs ahead of an admission that has not counted itself. It exceeds the cap
    exactly when the first kind outnumbers the second plus the free tokens.
   */
  lemma CurrentInUseExact(c: Config, s: State)
    requires Inv(c, s)
    ensures s.currentInUse + Count(s, Uncounted()) == s.global + Count(s, Lagging())
    ensures s.currentInUse > c.globalMax <==>
            Count(s, Lagging()) > Count(s, Uncounted()) + (c.globalMax - s.global)
  {
    SumPlus(s.threads, InUse(), Uncounted(), GlobalOrLagging());
    SumPlus(s.threads, GlobalToken(), Lagging(), GlobalOrLagging());
  }

  lemma Chain(c: Config, s: State, a: Action, rest: seq<Action>)
    requires Can(c, s, a) && Runs(c, Step(c, s, a), rest)
    ensures Runs(c, s, [a] + rest)
    ensures After(c, s, [a] + rest) == After(c, Step(c, s, a), rest)
  {
    assert ([a] + rest)[1..] == rest;
  }

  // ---- the overshoot is unbounded ----

  ghost predicate Reaches(c: Config, s: State, s': State) {
    exists actions :: Runs(c, s, actions) && After(c, s, actions) == s'
  }

  lemma ReachesSelf(c: Config, s: State)
    ensures Reaches(c, s, s)
  {
    assert Runs(c, s, []) && After(c, s, []) == s;
  }

  lemma ReachesStep(c: Config, s: State, a: Action, s': State)
    requires Can(c, s, a) && Reaches(c, Step(c, s, a), s')
    ensures Reaches(c, s, s')
  {
    var rest :| Runs(c, Step(c, s, a), rest) && After(c, Step(c, s, a), rest) == s';
    Chain(c, s, a, rest);
  }

  lemma {:induction false} RunsAppend(c: Config, s: State, a: seq<Action>, b: seq<Action>)
    requires Runs(c, s, a) && Runs(c, After(c, s, a), b)
    ensures Runs(c, s, a + b) && After(c, s, a + b) == After(c, After(c, s, a), b)
    decreases |a|
  {
    if a == [] {
      assert a + b == b;
    } else {
      RunsAppend(c, Step(c, s, a[0]), a[1..], b);
      assert a + b == [a[0]] + (a[1..] + b);
      Chain(c, s, a[0], a[1..] + b);
    }
  }

  lemma ReachesTrans(c: Config, s: State, s': State, s'': State)
    requires Reaches(c, s, s') && Reaches(c, s', s'')
    ensures Reaches(c, s, s'')
  {
    var a :| Runs(c, s, a) && After(c, s, a) == s';
    var b :| Runs(c, s', b) && After(c, s', b) == s'';
    RunsAppend(c, s, a, b);
  }

  /** `s'` is `s` with thread `t` moved on and this much more in its channels and in the counter. */
  ghost predicate Advanced(s: State, s': State, t: nat, pc: Pc, tokens: int, inUse: int) {
    && t < |s.threads| && s'.threads == s.threads[t := s.threads[t].(pc := pc)]
    && s'.global == s.global + tokens
    && s'.currentInUse == s.currentInUse + inUse
    && (forall ip: Ip :: Slot(s', ip) == Slot(s, ip) + if ip == s.threads[t].ip then tokens else 0)
  }

  /** With room in both channels a call can run up to holding both tokens. */
  lemma RunToHolding(c: Config, s: State, t: nat) returns (s4: State)
    requires t < |s.threads| && s.threads[t].pc.Called?
    requires s.global < c.globalMax && Slot(s, s.threads[t].ip) < c.perIpMax
    ensures Reaches(c, s, s4) && Advanced(s, s4, t, Holding, 1, 1)
  {
    var s1 := Step(c, s, Go(t));
    var s2 := Step(c, s1, Go(t));
    var s3 := Step(c, s2, Go(t));
    s4 := Step(c, s3, Go(t));
    ReachesSelf(c, s4);
    ReachesStep(c, s3, Go(t), s4);
    ReachesStep(c, s2, Go(t), s4);
    ReachesStep(c, s1, Go(t), s4);
    ReachesStep(c, s, Go(t), s4);
  }

  /** From there it can release both tokens and stop just before it is uncounted. */
  lemma RunToUncount(c: Config, s: State, t: nat) returns (s3: State)
    requires t < |s.threads| && s.threads[t].pc.Holding?
    requires s.global > 0 && Slot(s, s.threads[t].ip) > 0
    ensures Reaches(c, s, s3) && Advanced(s, s3, t, Uncount, -1, 0)
  {
    var s1 := Step(c, s, Go(t));
    var s2 := Step(c, s1, Go(t));
    s3 := Step(c, s2, Go(t));
    ReachesSelf(c, s3);
    ReachesStep(c, s2, Go(t), s3);
    ReachesStep(c, s1, Go(t), s3);
    ReachesStep(c, s, Go(t), s3);
  }

  /** The calls from `t` on have not begun, each from an address of its own with an empty channel. */
  ghost predicate Waiting(s: State, t: nat) {
    && t <= |s.threads|
    && (forall u: nat | t <= u < |s.threads| :: s.threads[u].pc.Called? && Slot(s, s.threads[u].ip) == 0)
    && (forall u: nat, v: nat | t <= u < v < |s.threads| :: s.threads[u].ip != s.threads[v].ip)
  }

  lemma WaitingNext(s: State, s': State, t: nat, pc: Pc, tokens: int, inUse: int)
    requires Waiting(s, t) && t < |s.threads| && Advanced(s, s', t, pc, tokens, inUse)
    ensures Waiting(s', t + 1)
  {
    forall u: nat | t < u < |s.threads| ensures s'.threads[u].pc.Called? && Slot(s', s'.threads[u].ip) == 0 {
      assert s'.threads[u] == s.threads[u] && s.threads[u].ip != s.threads[t].ip;
    }
  }

  /** Calls `t`, ... fill the free global tokens and hold them. */
  lemma {:induction false} FillUp(c: Config, s: State, t: nat) returns (s': State)
    requires c.perIpMax >= 1 && Waiting(s, t) && s.global + (|s.threads| - t) == c.globalMax
    ensures Reaches(c, s, s') && s'.currentInUse == s.currentInUse + (|s.threads| - t)
    decreases |s.threads| - t
  {
    if t == |s.threads| {
      ReachesSelf(c, s);
      s' := s;
    } else {
      var s1 := RunToHolding(c, s, t);
      WaitingNext(s, s1, t, Holding, 1, 1);
      s' := FillUp(c, s1, t + 1);
      ReachesTrans(c, s, s1, s');
    }
  }

  /** `k` calls return their tokens and linger before they are uncounted; the others fill the scheduler. */
  lemma {:induction false} Overshoot(c: Config, s: State, t: nat, k: nat) returns (s': State)
    requires c.globalMax >= 1 && c.perIpMax >= 1 && Waiting(s, t) && s.global == 0
    requires |s.threads| - t == k + c.globalMax
    ensures Reaches(c, s, s') && s'.currentInUse == s.currentInUse + k + c.globalMax
    decreases k
  {
    if k == 0 {
      s' := FillUp(c, s, t);
    } else {
      var s1 := RunToHolding(c, s, t);
      var s2 := RunToUncount(c, s1, t);
      assert Advanced(s, s2, t, Uncount, 0, 1);
      WaitingNext(s, s2, t, Uncount, 0, 1);
      s' := Overshoot(c, s2, t + 1, k - 1);
      ReachesTrans(c, s, s1, s2);
      ReachesTrans(c, s, s2, s');
    }
  }

  /** Different addresses for different calls. */
  function Address(i: nat): (ip: Ip)
    ensures |ip| == i
  {
    seq(i, j requires 0 <= j < i => '1')
  }

  /** Whatever the caps, some run from the start takes `currentInUse` over the global cap by any amount. */
  lemma CurrentInUseUnbounded(c: Config, k: nat) returns (ips: seq<Ip>, actions: seq<Action>)
    requires c.globalMax >= 1 && c.perIpMax >= 1
    ensures Runs(c, Start(ips), actions)
    ensures After(c, Start(ips), actions).currentInUse == c.globalMax + k
  {
    ips := seq(k + c.globalMax, i requires 0 <= i < k + c.globalMax => Address(i));
    var s := Start(ips);
    forall u: nat, v: nat | u < v < |ips| ensures ips[u] != ips[v] {
      assert |ips[u]| == u && |ips[v]| == v;
    }
    var s' := Overshoot(c, s, 0, k);
    actions :| Runs(c, s, actions) && After(c, s, actions) == s';
  }

  // ---- why a call is refused ----

  function ReasonOf(pc: Pc): Option<Reason> {
    match pc
    case BackOut(reason) => Some(reason)
    case Reject(reason) => Some(reason)
    case Refused(reason) => Some(reason)
    case _ => None
  }

  /** The reason for which thread `t` gave up during a run. */
  function GivenUp(actions: seq<Action>, t: nat): Option<Reason> {
    if actions == [] then None
    else if actions[0].GiveUp? && actions[0].t == t then Some(actions[0].reason)
    else GivenUp(actions[1..], t)
  }

  lemma StepReason(c: Config, s: State, a: Action, t: nat)
    requires Can(c, s, a) && t < |s.threads|
    ensures var s' := Step(c, s, a);
            && |s'.threads| == |s.threads| && s'.threads[t].ip == s.threads[t].ip
            && ReasonOf(s'.threads[t].pc)
               == (if a.GiveUp? && a.t == t then Some(a.reason) else ReasonOf(s.threads[t].pc))
            && (a.GiveUp? && a.t == t ==> ReasonOf(s.threads[t].pc).None?)
  {
  }

  /** A call keeps its address, and is refused exactly with the reason for which it gave up, if it did. */
  lemma {:induction false} RunReason(c: Config, s: State, actions: seq<Action>, t: nat)
    requires Runs(c, s, actions) && t < |s.threads|
    ensures var s' := After(c, s, actions);
            && |s'.threads| == |s.threads| && s'.threads[t].ip == s.threads[t].ip
            && ReasonOf(s'.threads[t].pc)
               == if ReasonOf(s.threads[t].pc).Some? then ReasonOf(s.threads[t].pc) else GivenUp(actions, t)
    decreases |actions|
  {
    if actions != [] {
      StepReason(c, s, actions[0], t);
      RunReason(c, Step(c, s, actions[0]), actions[1..], t);
    }
  }

  /** When a call is over it was refused, for the reason it gave up for, if it gave up, and served otherwise. */
  lemma OutcomeOfCall(c: Config, ips: seq<Ip>, actions: seq<Action>, t: nat)
    requires Runs(c, Start(ips), actions)
    requires var s := After(c, Start(ips), actions); t < |s.threads| && Finished(s.threads[t].pc)
    ensures var th := After(c, Start(ips), actions).threads[t]; var reason := GivenUp(actions, t);
            && t < |ips| && th.ip == ips[t]
            && th.pc == if reason.Some? then Refused(reason.value) else Served
  {
    StartInv(c, ips);
    RunInv(c, Start(ips), actions);
    RunReason(c, Start(ips), actions, t);
  }

  // ---- when the cap is safe ----

  /** Calls `t`, ... each return their tokens and linger before they are uncounted. */
  lemma {:induction false} AllLinger(c: Config, s: State, t: nat) returns (s': State)
    requires c.globalMax >= 1 && c.perIpMax >= 1 && t <= |s.threads|
    requires s.global == 0 && (forall ip: Ip :: Slot(s, ip) == 0)
    requires forall u: nat | t <= u < |s.threads| :: s.threads[u].pc.Called?
    ensures Reaches(c, s, s') && s'.currentInUse == s.currentInUse + (|s.threads| - t)
    decreases |s.threads| - t
  {
    if t == |s.threads| {
      ReachesSelf(c, s);
      s' := s;
    } else {
      var s1 := RunToHolding(c, s, t);
      var s2 := RunToUncount(c, s1, t);
      assert Advanced(s, s2, t, Uncount, 0, 1);
      s' := AllLinger(c, s2, t + 1);
      ReachesTrans(c, s, s1, s2);
      ReachesTrans(c, s, s2, s');
    }
  }

  lemma {:induction false} CountAtMost(threads: seq<Thread>)
    ensures Sum(threads, InUse()) <= |threads|
  {
    if threads != [] {
      CountAtMost(threads[1..]);
    }
  }

  /** `currentInUse` stays within the global cap over every run exactly when there are no more calls than that. */
  lemma CapKeptIffFewCalls(c: Config, ips: seq<Ip>)
    requires c.globalMax >= 1 && c.perIpMax >= 1
    ensures |ips| <= c.globalMax <==>
            forall actions | Runs(c, Start(ips), actions) :: After(c, Start(ips), actions).currentInUse <= c.globalMax
  {
    var s := Start(ips);
    if |ips| <= c.globalMax {
      forall actions | Runs(c, s, actions) ensures After(c, s, actions).currentInUse <= c.globalMax {
        StartInv(c, ips);
        RunInv(c, s, actions);
        CountAtMost(After(c, s, actions).threads);
      }
    } else {
      var s' := AllLinger(c, s, 0);
      var actions :| Runs(c, s, actions) && After(c, s, actions) == s';
      assert After(c, s, actions).currentInUse > c.globalMax;
    }
  }

  // ---- progress ----

  /** Some call can take a step that is not a timeout or a cancellation. */
  ghost predicate CanProgress(c: Config, s: State) {
    exists t: nat :: Can(c, s, Go(t))
  }

  lemma HolderCanGo(c: Config, s: State, t: nat)
    requires Inv(c, s) && t < |s.threads| && !Finished(s.threads[t].pc)
    requires !s.threads[t].pc.AwaitIp? && !s.threads[t].pc.AwaitGlobal?
    ensures Can(c, s, Go(t))
  {
    assert IpInv(c, s, s.threads[t].ip);
    SumAtLeast(s.threads, t, GlobalToken());
    SumAtLeast(s.threads, t, IpToken(s.threads[t].ip));
  }

  lemma AwaitGlobalCanProgress(c: Config, s: State, t: nat)
    requires Inv(c, s) && c.globalMax >= 1 && t < |s.threads| && s.threads[t].pc.AwaitGlobal?
    ensures CanProgress(c, s)
  {
    if s.global < c.globalMax {
      assert Can(c, s, Go(t));
    } else {
      var u := SumWitness(s.threads, GlobalToken());
      HolderCanGo(c, s, u);
    }
  }

  /** No deadlock between the two stages: while a call is unfinished, some call has a step other than giving up. */
  lemma Progress(c: Config, s: State)
    requires Inv(c, s) && c.globalMax >= 1 && c.perIpMax >= 1
    ensures CanProgress(c, s) <==> exists t: nat :: t < |s.threads| && !Finished(s.threads[t].pc)
  {
    if t: nat :| t < |s.threads| && !Finished(s.threads[t].pc) {
      var th := s.threads[t];
      if th.pc.AwaitGlobal? {
        AwaitGlobalCanProgress(c, s, t);
      } else if !th.pc.AwaitIp? {
        HolderCanGo(c, s, t);
      } else if Slot(s, th.ip) < c.perIpMax {
        assert Can(c, s, Go(t));
      } else {
        assert IpInv(c, s, th.ip);
        var u := SumWitness(s.threads, IpToken(th.ip));
        if s.threads[u].pc.AwaitGlobal? {
          AwaitGlobalCanProgress(c, s, u);
        } else {
          HolderCanGo(c, s, u);
        }
      }
    }
  }

  // ---- termination and quiescence ----

  function Rank(pc: Pc): nat {
    match pc
    case Called => 8
    case AwaitIp => 7
    case AwaitGlobal => 6
    case Admitted => 5
    case Holding => 4
    case ReleaseGlobal => 3
    case ReleaseIp => 2
    case Uncount => 1
    case BackOut(_) => 2
    case Reject(_) => 1
    case Served => 0
    case Refused(_) => 0
  }

  function ThreadRank(): Thread -> nat { (th: Thread) => Rank(th.pc) }

  lemma StepRank(c: Config, s: State, a: Action)
    requires Can(c, s, a)
    ensures Count(Step(c, s, a), ThreadRank()) < Count(s, ThreadRank())
  {
    StepCount(c, s, a, ThreadRank());
  }

  /** Finitely many calls take finitely many steps, in every interleaving. */
  lemma {:induction false} Termination(c: Config, s: State, actions: seq<Action>)
    requires Runs(c, s, actions)
    ensures |actions| + Count(After(c, s, actions), ThreadRank()) <= Count(s, ThreadRank())
    decreases |actions|
  {
    if actions != [] {
      StepRank(c, s, actions[0]);
      Termination(c, Step(c, s, actions[0]), actions[1..]);
    }
  }

  /** When every call is over, all tokens are back, no IP is listed, and each call was counted once. */
  lemma Quiescence(c: Config, ips: seq<Ip>, actions: seq<Action>)
    requires Runs(c, Start(ips), actions)
    requires forall th | th in After(c, Start(ips), actions).threads :: Finished(th.pc)
    ensures var s := After(c, Start(ips), actions);
            && s.global == 0
            && (forall ip: Ip :: Slot(s, ip) == 0)
            && s.inflightByIp == map[]
            && s.currentInUse == 0
            && s.totalAccepted + s.totalRejected == |ips|
  {
    StartInv(c, ips);
    RunInv(c, Start(ips), actions);
    var s := After(c, Start(ips), actions);
    SumZero(s.threads, GlobalToken());
    SumZero(s.threads, InUse());
    forall ip: Ip ensures Slot(s, ip) == 0 && ip !in s.inflightByIp {
      assert IpInv(c, s, ip);
      SumZero(s.threads, IpToken(ip));
      SumZero(s.threads, InUseBy(ip));
    }
    var one := (th: Thread) => Indicator(Finished(th.pc));
    SumPlus(s.threads, AcceptedCall(), RejectedCall(), one);
    SumOnes(s.threads, one);
  }
}
