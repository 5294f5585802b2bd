/**
 The idempotency protocol around one Idempotency-Key: any number of requests run the
 middleware at once against one Redis key. Each Redis call is one step. Complete and
 Unlock do not ask who owns the lock, entries expire, and a request that cannot use
 the store runs its handler unprotected.
 */
module Idempotency {
  import opened Wrappers

  type Millis = int

  /* ---------- The Redis key ---------- */

  datatype Entry =
    | Processing(fingerprint: string)
    | Completed(fingerprint: string, code: int, body: seq<char>)

  /** expiresAt None: kept until deleted or replaced, which is what a time to live of zero asks Redis for. */
  datatype Stored = Stored(entry: Entry, setAt: Millis, expiresAt: Option<Millis>)
  {
    predicate Live(now: Millis) {
      expiresAt.Some? ==> now < expiresAt.value
    }
  }

  type Slot = Option<Stored>

  datatype Config = Config(lockTtl: nat, ttl: nat)

  function Expiry(ttl: nat, now: Millis): Option<Millis> {
    if ttl > 0 then Some(now + ttl) else None
  }

  /** SET NX with the lock's time to live. */
  function Locked(slot: Slot, fingerprint: string, now: Millis, cfg: Config): Slot {
    if slot.Some? then slot else Some(Stored(Processing(fingerprint), now, Expiry(cfg.lockTtl, now)))
  }

  function Saved(entry: Entry, now: Millis, cfg: Config): Slot {
    Some(Stored(entry, now, Expiry(cfg.ttl, now)))
  }

  /** The key as Redis shows it at a later time. */
  function Aged(slot: Slot, now: Millis): Slot {
    if slot.Some? && !slot.value.Live(now) then None else slot
  }

  /** 2xx to 4xx answers are kept for replay; anything else unlocks. */
  predicate ShouldStore(code: int): (kept: bool)
    ensures kept <==> code / 100 in {2, 3, 4}
  {
    200 <= code < 500
  }

  class RedisStore {
    const cfg: Config
    var slots: map<string, Stored>

    constructor (cfg: Config)
      ensures this.cfg == cfg && slots == map[]
    {
      this.cfg, slots := cfg, map[];
    }

    function Slot(key: string, now: Millis): Slot
      reads this
    {
      Aged(if key in slots then Some(slots[key]) else None, now)
    }

    method Lock(key: string, fingerprint: string, now: Millis) returns (acquired: bool)
      modifies this
      ensures acquired <==> old(Slot(key, now)).None?
      ensures Slot(key, now) == Locked(old(Slot(key, now)), fingerprint, now, cfg)
      ensures acquired ==> forall later :: later >= now ==> (Slot(key, later).Some? <==> cfg.lockTtl == 0 || later < now + cfg.lockTtl)
      ensures forall other :: other != key ==> Slot(other, now) == old(Slot(other, now))
    {
      if key in slots && slots[key].Live(now) { return false; }
      slots := slots[key := Stored(Processing(fingerprint), now, Expiry(cfg.lockTtl, now))];
      return true;
    }

    method Get(key: string, now: Millis) returns (entry: Option<Entry>)
      ensures entry == if Slot(key, now).Some? then Some(Slot(key, now).value.entry) else None
    {
      if key !in slots || !slots[key].Live(now) { return None; }
      return Some(slots[key].entry);
    }

    method Complete(key: string, fingerprint: string, code: int, body: seq<char>, now: Millis)
      modifies this
      ensures Slot(key, now) == Saved(Completed(fingerprint, code, body), now, cfg)
      ensures forall later :: later >= now ==> (Slot(key, later).Some? <==> cfg.ttl == 0 || later < now + cfg.ttl)
      ensures forall other :: other != key ==> Slot(other, now) == old(Slot(other, now))
    {
      slots := slots[key := Stored(Completed(fingerprint, code, body), now, Expiry(cfg.ttl, now))];
    }

    method Unlock(key: string, now: Millis)
      modifies this
      ensures Slot(key, now).None?
      ensures forall other :: other != key ==> Slot(other, now) == old(Slot(other, now))
    {
      slots := slots - {key};
    }
  }

  /** Copies what the handler writes; what gets stored is what the client was sent. */
  class ResponseWriter {
    var sent: seq<char>
    var captured: seq<char>

    constructor ()
      ensures sent == captured == []
    {
      sent, captured := [], [];
    }

    method Write(data: seq<char>)
      modifies this
      ensures sent == old(sent) + data && captured == old(captured) + data
      ensures old(captured) == old(sent) ==> captured == sent
    {
      captured := captured + data;
      sent := sent + data;
    }
  }

  /* ---------- Requests ---------- */

  type ReqId = nat

  datatype Reply =
    | Own(code: int, body: seq<char>)    // the answer of its own handler
    | Conflict                           // 409
    | Mismatch                           // 422
    | Replay(code: int, body: seq<char>)

  datatype Phase =
    | Arrived
    | Losing                             // Lock found the key taken, Get comes next
    | Running                            // the handler is at work
    | Answered(code: int, body: seq<char>)   // the handler is done, the store not yet told
    | Done(reply: Reply)

  /** How a request got past the store. */
  datatype Pass = NoPass | Held | StoreDown | Vanished

  datatype Request = Request(fingerprint: string, phase: Phase, pass: Pass)
  {
    predicate Succeeded() {
      (phase.Answered? && ShouldStore(phase.code)) || (phase.Done? && phase.reply.Own? && ShouldStore(phase.reply.code))
    }

    predicate Gave(code: int, body: seq<char>) {
      phase == Answered(code, body) || phase == Done(Own(code, body))
    }

    /** It locked the key and has not given it back after a failure. */
    predicate Claims() {
      pass.Held? && !(phase.Done? && phase.reply.Own? && !ShouldStore(phase.reply.code))
    }

    predicate Open() {
      pass.StoreDown? || pass.Vanished?
    }

    predicate RanHandler() {
      phase.Running? || phase.Answered? || (phase.Done? && phase.reply.Own?)
    }
  }

  datatype State = State(
    cfg: Config,
    now: Millis,
    slot: Slot,
    requests: map<ReqId, Request>,
    lockExpiries: nat,          // locks that ran out
    entryExpiries: nat,         // stored answers that ran out
    unlocks: nat)               // answers that were not stored

  datatype Step =
    | Arrive(r: ReqId, fingerprint: string)
    | TryLock(r: ReqId)
    | LockFails(r: ReqId, applied: bool)   // Redis error; the SET may or may not have happened
    | TryGet(r: ReqId)
    | GetFails(r: ReqId)
    | Finish(r: ReqId, code: int, body: seq<char>)
    | Record(r: ReqId)
    | RecordFails(r: ReqId, applied: bool)   // Redis error; the SET or DEL may or may not have happened
    | Tick(d: nat)

  predicate In(s: State, r: ReqId, phase: Phase) {
    r in s.requests && s.requests[r].phase == phase
  }

  predicate Enabled(s: State, step: Step) {
    match step
    case Arrive(r, fingerprint) => r !in s.requests && fingerprint != ""
    case TryLock(r) => In(s, r, Arrived)
    case LockFails(r, _) => In(s, r, Arrived)
    case TryGet(r) => In(s, r, Losing)
    case GetFails(r) => In(s, r, Losing)
    case Finish(r, _, _) => In(s, r, Running)
    case Record(r) => r in s.requests && s.requests[r].phase.Answered?
    case RecordFails(r, _) => r in s.requests && s.requests[r].phase.Answered?
    case Tick(_) => true
  }

  function Set(s: State, r: ReqId, q: Request): State {
    s.(requests := s.requests[r := q])
  }

  /** What Get leads to. */
  function Decide(slot: Slot, q: Request): Request {
    match slot
    case None => q.(phase := Running, pass := Vanished)
    case Some(stored) =>
      match stored.entry
      case Processing(_) => q.(phase := Done(Conflict))
      case Completed(fingerprint, code, body) =>
        if fingerprint != "" && q.fingerprint != fingerprint then q.(phase := Done(Mismatch))
        else q.(phase := Done(Replay(code, body)))
  }

  /** Complete, or Unlock for an answer that is not kept. */
  function Recorded(s: State, r: ReqId): State
    requires r in s.requests && s.requests[r].phase.Answered?
  {
    var q := s.requests[r];
    var done := Set(s, r, q.(phase := Done(Own(q.phase.code, q.phase.body))));
    if ShouldStore(q.phase.code) then
      done.(slot := Saved(Completed(q.fingerprint, q.phase.code, q.phase.body), s.now, s.cfg))
    else done.(slot := None, unlocks := s.unlocks + 1)
  }

  function Do(s: State, step: Step): State
    requires Enabled(s, step)
  {
    match step
    case Arrive(r, fingerprint) => Set(s, r, Request(fingerprint, Arrived, NoPass))
    case TryLock(r) =>
      var q := s.requests[r];
      if s.slot.Some? then Set(s, r, q.(phase := Losing))
      else Set(s, r, q.(phase := Running, pass := Held)).(slot := Locked(s.slot, q.fingerprint, s.now, s.cfg))
    case LockFails(r, applied) =>
      var q := s.requests[r];
      Set(s, r, q.(phase := Running, pass := StoreDown))
      .(slot := if applied then Locked(s.slot, q.fingerprint, s.now, s.cfg) else s.slot)
    case TryGet(r) => Set(s, r, Decide(s.slot, s.requests[r]))
    case GetFails(r) => Set(s, r, s.requests[r].(phase := Running, pass := StoreDown))
    case Finish(r, code, body) =>
      var q := s.requests[r];
      Set(s, r, q.(phase := if q.pass.Held? then Answered(code, body) else Done(Own(code, body))))
    case Record(r) => Recorded(s, r)
    case RecordFails(r, applied) =>
      var q := s.requests[r];
      if applied then Recorded(s, r) else Set(s, r, q.(phase := Done(Own(q.phase.code, q.phase.body))))
    case Tick(d) =>
      var later := s.(now := s.now + d, slot := Aged(s.slot, s.now + d));
      if s.slot.None? || later.slot.Some? then later
      else if s.slot.value.entry.Processing? then later.(lockExpiries := s.lockExpiries + 1)
      else later.(entryExpiries := s.entryExpiries + 1)
  }

  /** An interleaving that starts with no request and no key. */
  datatype Run = Run(states: seq<State>, steps: seq<Step>)
  {
    ghost predicate StepAt(i: nat)
      requires i < |steps| < |states|
    {
      Enabled(states[i], steps[i]) && states[i + 1] == Do(states[i], steps[i])
    }

    ghost predicate Valid() {
      && |states| == |steps| + 1
      && Initial(states[0])
      && forall i :: 0 <= i < |steps| ==> StepAt(i)
    }

    function Last(): State
      requires states != []
    {
      states[|states| - 1]
    }
  }

  ghost predicate Initial(s: State) {
    s == State(s.cfg, s.now, None, map[], 0, 0, 0)
  }

  /* ---------- Counting ---------- */

  function Claimants(s: State): set<ReqId> {
    set r | r in s.requests && s.requests[r].Claims()
  }

  function Successes(s: State): set<ReqId> {
    set r | r in s.requests && s.requests[r].Succeeded()
  }

  function Opens(s: State): set<ReqId> {
    set r | r in s.requests && s.requests[r].Open()
  }

  function Runs(s: State): set<ReqId> {
    set r | r in s.requests && s.requests[r].RanHandler()
  }

  function Expiries(s: State): nat {
    s.lockExpiries + s.entryExpiries
  }

  function Present(slot: Slot): nat {
    if slot.Some? then 1 else 0
  }

  /** Some finished request's handler gave this answer, for this fingerprint, and it was worth storing. */
  ghost predicate Source(s: State, fingerprint: string, code: int, body: seq<char>) {
    exists r :: r in s.requests && s.requests[r].fingerprint == fingerprint && s.requests[r].phase == Done(Own(code, body)) && s.requests[r].Succeeded()
  }

  ghost predicate OtherSource(s: State, fingerprint: string) {
    exists r :: r in s.requests && s.requests[r].fingerprint != fingerprint && s.requests[r].Succeeded()
  }

  ghost predicate SlotSound(s: State) {
    s.slot.Some? ==>
      && s.slot.value.setAt <= s.now && s.slot.value.Live(s.now)
      && s.slot.value.expiresAt == Expiry(if s.slot.value.entry.Processing? then s.cfg.lockTtl else s.cfg.ttl, s.slot.value.setAt)
      && s.slot.value.entry.fingerprint != ""
      && (s.slot.value.entry.Completed? ==>
            Source(s, s.slot.value.entry.fingerprint, s.slot.value.entry.code, s.slot.value.entry.body))
  }

  ghost predicate RequestSound(s: State, q: Request) {
    && q.fingerprint != ""
    && (q.RanHandler() <==> q.Open() || q.pass.Held?)
    && (q.phase.Answered? ==> q.pass.Held?)
    && (q.phase.Done? && q.phase.reply.Replay? ==> Source(s, q.fingerprint, q.phase.reply.code, q.phase.reply.body))
    && (q.phase.Done? && q.phase.reply.Mismatch? ==> OtherSource(s, q.fingerprint))
    && (q.phase.Losing? || q.pass.Vanished? ==> s.slot.Some? || Expiries(s) + s.unlocks > 0)
    && (q.pass.Vanished? ==> Expiries(s) + s.unlocks > 0)
  }

  /** The time that expired entries spent in Redis. */
  function LivedOut(s: State): int {
    s.lockExpiries * s.cfg.lockTtl + s.entryExpiries * s.cfg.ttl
  }

  function Holders(s: State): set<ReqId> {
    set r | r in s.requests && s.requests[r].pass.Held?
  }

  ghost predicate CountsSound(s: State) {
    && |Claimants(s)| <= Present(s.slot) + Expiries(s)
    && |Holders(s)| <= Present(s.slot) + Expiries(s) + s.unlocks
  }

  ghost predicate ClockSound(start: Millis, s: State) {
    && (s.cfg.lockTtl == 0 ==> s.lockExpiries == 0) && (s.cfg.ttl == 0 ==> s.entryExpiries == 0)
    && LivedOut(s) <= (if s.slot.Some? then s.slot.value.setAt else s.now) - start
  }

  ghost predicate Inv(start: Millis, s: State) {
    && CountsSound(s)
    && SlotSound(s)
    && ClockSound(start, s)
    && (forall r :: r in s.requests ==> RequestSound(s, s.requests[r]))
  }

  /* ---------- Every step keeps the invariant ---------- */

  function One(b: bool): nat {
    if b then 1 else 0
  }

  /** Rewriting one request moves the two counts by that request alone. */
  lemma CountsAfter(s: State, r: ReqId, q: Request)
    ensures |Claimants(Set(s, r, q))| == |Claimants(s)| + One(q.Claims()) - One(r in s.requests && s.requests[r].Claims())
    ensures |Holders(Set(s, r, q))| == |Holders(s)| + One(q.pass.Held?) - One(r in s.requests && s.requests[r].pass.Held?)
  {
    hide Claimants, Holders;
    ClaimantsElsewhere(s, r, q);
    Without(Claimants(Set(s, r, q)), r);
    Without(Claimants(s), r);
    Without(Holders(Set(s, r, q)), r);
    Without(Holders(s), r);
  }

  lemma ClaimantsElsewhere(s: State, r: ReqId, q: Request)
    ensures Claimants(Set(s, r, q)) - {r} == Claimants(s) - {r}
    ensures Holders(Set(s, r, q)) - {r} == Holders(s) - {r}
    ensures r in Claimants(Set(s, r, q)) <==> q.Claims()
    ensures r in Holders(Set(s, r, q)) <==> q.pass.Held?
    ensures r in Claimants(s) <==> r in s.requests && s.requests[r].Claims()
    ensures r in Holders(s) <==> r in s.requests && s.requests[r].pass.Held?
  {
  }

  lemma Without(a: set<ReqId>, r: ReqId)
    ensures |a| == |a - {r}| + One(r in a)
  {
    if r in a { assert a == (a - {r}) + {r}; } else { assert a - {r} == a; }
  }

  /** The counts look at the requests only. */
  lemma SameCounts(s: State, other: State)
    requires s.requests == other.requests
    ensures Claimants(s) == Claimants(other) && Holders(s) == Holders(other)
  {
  }

  lemma StepKeepsCounts(s: State, step: Step)
    requires CountsSound(s) && Enabled(s, step)
    requires forall r :: r in s.requests ==> RequestSound(s, s.requests[r])
    ensures CountsSound(Do(s, step))
  {
    hide Claimants, Holders;
    var next := Do(s, step);
    if step.Tick? {
      SameCounts(s, next);
    } else {
      if step.r in s.requests { assert RequestSound(s, s.requests[step.r]); }
      SameCounts(next, Set(s, step.r, next.requests[step.r]));
      CountsAfter(s, step.r, next.requests[step.r]);
    }
  }

  lemma StepKeepsClock(start: Millis, s: State, step: Step)
    requires ClockSound(start, s) && SlotSound(s) && Enabled(s, step)
    ensures ClockSound(start, Do(s, step))
  {
    var next := Do(s, step);
    if step.Tick? {
      assert (s.lockExpiries + 1) * s.cfg.lockTtl == s.lockExpiries * s.cfg.lockTtl + s.cfg.lockTtl;
      assert (s.entryExpiries + 1) * s.cfg.ttl == s.entryExpiries * s.cfg.ttl + s.cfg.ttl;
    } else {
      assert LivedOut(next) == LivedOut(s);
    }
  }

  /** A success is never undone. */
  lemma SuccessStays(s: State, step: Step, r: ReqId)
    requires Enabled(s, step) && r in s.requests && s.requests[r].Succeeded()
    ensures var next := Do(s, step);
            && r in next.requests && next.requests[r].Succeeded()
            && next.requests[r].fingerprint == s.requests[r].fingerprint
            && (forall code, body :: s.requests[r].Gave(code, body) ==> next.requests[r].Gave(code, body))
  {
  }

  lemma SourceStays(s: State, step: Step, fingerprint: string, code: int, body: seq<char>)
    requires Enabled(s, step) && Source(s, fingerprint, code, body)
    ensures Source(Do(s, step), fingerprint, code, body)
  {
    var r :| r in s.requests && s.requests[r].fingerprint == fingerprint && s.requests[r].phase == Done(Own(code, body)) && s.requests[r].Succeeded();
    SuccessStays(s, step, r);
    assert Do(s, step).requests[r] == s.requests[r];
  }

  lemma OtherSourceStays(s: State, step: Step, fingerprint: string)
    requires Enabled(s, step) && OtherSource(s, fingerprint)
    ensures OtherSource(Do(s, step), fingerprint)
  {
    var r :| r in s.requests && s.requests[r].fingerprint != fingerprint && s.requests[r].Succeeded();
    SuccessStays(s, step, r);
  }

  lemma StepKeepsSlot(s: State, step: Step)
    requires SlotSound(s) && Enabled(s, step)
    requires forall r :: r in s.requests ==> RequestSound(s, s.requests[r])
    ensures SlotSound(Do(s, step))
  {
    var next := Do(s, step);
    if next.slot.Some? {
      var e := next.slot.value.entry;
      if step.Record? || (step.RecordFails? && step.applied) {
        var q := s.requests[step.r];
        assert RequestSound(s, q);
        assert next.requests[step.r].phase == Done(Own(q.phase.code, q.phase.body)) && next.requests[step.r].fingerprint == q.fingerprint;
      } else if s.slot.Some? {
        if e.Completed? { SourceStays(s, step, e.fingerprint, e.code, e.body); }
      } else {
        assert RequestSound(s, s.requests[step.r]);
      }
    }
  }

  /** What Get hands out comes from a handler that succeeded. */
  lemma GetKeepsRequest(s: State, r: ReqId)
    requires SlotSound(s) && Enabled(s, TryGet(r)) && RequestSound(s, s.requests[r])
    ensures RequestSound(Do(s, TryGet(r)), Do(s, TryGet(r)).requests[r])
  {
    var q := s.requests[r];
    if s.slot.Some? && s.slot.value.entry.Completed? {
      var e := s.slot.value.entry;
      SourceStays(s, TryGet(r), e.fingerprint, e.code, e.body);
      if q.fingerprint != e.fingerprint {
        var o :| o in s.requests && s.requests[o].fingerprint == e.fingerprint && s.requests[o].phase == Done(Own(e.code, e.body)) && s.requests[o].Succeeded();
        OtherSourceStays(s, TryGet(r), q.fingerprint);
      }
    }
  }

  /** Once a loser has met an entry, either there is one or one has gone. */
  lemma TracesStay(s: State, step: Step)
    requires Enabled(s, step) && (s.slot.Some? || Expiries(s) + s.unlocks > 0)
    ensures Do(s, step).slot.Some? || Expiries(Do(s, step)) + Do(s, step).unlocks > 0
  {
    hide Decide;
  }

  lemma CausesStay(s: State, step: Step)
    requires Enabled(s, step) && Expiries(s) + s.unlocks > 0
    ensures Expiries(Do(s, step)) + Do(s, step).unlocks > 0
  {
    hide Decide;
  }

  /** A request that the step does not touch. */
  lemma BystanderStays(s: State, step: Step, q: Request)
    requires Enabled(s, step) && RequestSound(s, q)
    ensures RequestSound(Do(s, step), q)
  {
    hide Source, OtherSource, Do, Expiries;
    if s.slot.Some? || Expiries(s) + s.unlocks > 0 { TracesStay(s, step); }
    if Expiries(s) + s.unlocks > 0 { CausesStay(s, step); }
    if q.phase.Done? && q.phase.reply.Replay? { SourceStays(s, step, q.fingerprint, q.phase.reply.code, q.phase.reply.body); }
    if q.phase.Done? && q.phase.reply.Mismatch? { OtherSourceStays(s, step, q.fingerprint); }
  }

  /** The request that takes the step, Get aside. */
  lemma ActorStays(s: State, step: Step)
    requires Enabled(s, step) && !step.Tick? && !step.TryGet?
    requires step.r in s.requests ==> RequestSound(s, s.requests[step.r])
    ensures step.r in Do(s, step).requests && RequestSound(Do(s, step), Do(s, step).requests[step.r])
  {
    hide Source, OtherSource, Decide;
  }

  lemma OthersUntouched(s: State, step: Step, r: ReqId)
    requires Enabled(s, step) && r in Do(s, step).requests && (step.Tick? || step.r != r)
    ensures r in s.requests && Do(s, step).requests[r] == s.requests[r]
  {
  }

  lemma StepKeepsRequest(s: State, step: Step, r: ReqId)
    requires SlotSound(s) && Enabled(s, step)
    requires forall q :: q in s.requests ==> RequestSound(s, s.requests[q])
    requires r in Do(s, step).requests
    ensures RequestSound(Do(s, step), Do(s, step).requests[r])
  {
    hide Do, Enabled, RequestSound, SlotSound;
    if step.Tick? || step.r != r {
      OthersUntouched(s, step, r);
      BystanderStays(s, step, s.requests[r]);
    } else if step.TryGet? {
      TryGetHas(s, r);
      GetKeepsRequest(s, r);
    } else {
      ActorStays(s, step);
    }
  }

  lemma TryGetHas(s: State, r: ReqId)
    requires Enabled(s, TryGet(r))
    ensures r in s.requests
  {
  }

  lemma StepKeepsInv(start: Millis, s: State, step: Step)
    requires Inv(start, s) && Enabled(s, step)
    ensures Inv(start, Do(s, step))
  {
    StepKeepsCounts(s, step);
    StepKeepsClock(start, s, step);
    StepKeepsSlot(s, step);
    forall r | r in Do(s, step).requests ensures RequestSound(Do(s, step), Do(s, step).requests[r]) {
      StepKeepsRequest(s, step, r);
    }
  }

  lemma {:induction false} RunSound(run: Run, k: nat)
    requires run.Valid() && k < |run.states|
    ensures Inv(run.states[0].now, run.states[k]) && run.states[k].cfg == run.states[0].cfg
  {
    if k == 0 {
      assert Claimants(run.states[0]) == {} && Holders(run.states[0]) == {};
    } else {
      RunSound(run, k - 1);
      assert run.StepAt(k - 1);
      StepKeepsInv(run.states[0].now, run.states[k - 1], run.steps[k - 1]);
    }
  }

  /* ---------- What holds in every run ---------- */

  /** Handlers whose answer is kept (2xx to 4xx) number at most one more than the expiries and the
      requests that went past the store. */
  lemma SuccessBound(run: Run, k: nat)
    requires run.Valid() && k < |run.states|
    ensures var s := run.states[k]; |Successes(s)| <= 1 + Expiries(s) + |Opens(s)|
  {
    RunSound(run, k);
    var s := run.states[k];
    forall r | r in Successes(s) ensures r in Claimants(s) + Opens(s) {
      assert RequestSound(s, s.requests[r]);
    }
    SubsetSize(Successes(s), Claimants(s) + Opens(s));
    UnionSize(Claimants(s), Opens(s));
  }

  /** Handler runs of any outcome: answers that were not stored add one each. */
  lemma HandlerBound(run: Run, k: nat)
    requires run.Valid() && k < |run.states|
    ensures var s := run.states[k];
            |Runs(s)| <= 1 + Expiries(s) + s.unlocks + |Opens(s)|
  {
    RunSound(run, k);
    var s := run.states[k];
    forall r | r in Runs(s) ensures r in Holders(s) + Opens(s) {
      assert RequestSound(s, s.requests[r]);
    }
    SubsetSize(Runs(s), Holders(s) + Opens(s));
    UnionSize(Holders(s), Opens(s));
  }

  /** Every expiry takes a full time to live, so the clock bounds them: no lock expires within the lock's time to
      live, no answer within the answer's, and nothing ever where that time is zero. */
  lemma ExpiriesTakeTime(run: Run, k: nat)
    requires run.Valid() && k < |run.states|
    ensures var s := run.states[k];
            && s.lockExpiries * s.cfg.lockTtl + s.entryExpiries * s.cfg.ttl <= s.now - run.states[0].now
            && (s.cfg.lockTtl == 0 || s.now - run.states[0].now < s.cfg.lockTtl ==> s.lockExpiries == 0)
            && (s.cfg.ttl == 0 || s.now - run.states[0].now < s.cfg.ttl ==> s.entryExpiries == 0)
  {
    RunSound(run, k);
    var s := run.states[k];
    assert s.lockExpiries > 0 ==> s.lockExpiries * s.cfg.lockTtl >= s.cfg.lockTtl;
    assert s.entryExpiries > 0 ==> s.entryExpiries * s.cfg.ttl >= s.cfg.ttl;
    assert s.lockExpiries * s.cfg.lockTtl >= 0 && s.entryExpiries * s.cfg.ttl >= 0;
  }

  /** Without an expiry and without a request past the store, at most one kept answer exists, and every
      finished request got it (its own or replayed), 409, 422 because the bodies differ, or its own
      answer that was not kept. */
  lemma ExactlyOnce(run: Run, k: nat, r: ReqId)
    requires run.Valid() && k < |run.states|
    requires Expiries(run.states[k]) == 0 && Opens(run.states[k]) == {}
    requires r in run.states[k].requests && run.states[k].requests[r].phase.Done?
    ensures var s := run.states[k]; var q := s.requests[r];
            && |Successes(s)| <= 1
            && match q.phase.reply
               case Own(code, body) => 200 <= code <= 499 ==> Successes(s) == {r}
               case Conflict => exists i :: 0 <= i < k && GotWhileProcessing(run, i, r)
               case Mismatch => exists o :: Successes(s) == {o} && s.requests[o].fingerprint != q.fingerprint
               case Replay(code, body) =>
                 exists o :: Successes(s) == {o} && s.requests[o].fingerprint == q.fingerprint && s.requests[o].Gave(code, body)
  {
    RunSound(run, k);
    SuccessBound(run, k);
    var s := run.states[k];
    var q := s.requests[r];
    assert RequestSound(s, q);
    match q.phase.reply
    case Own(code, body) => if ShouldStore(code) { OnlyOne(Successes(s), r); }
    case Conflict => ConflictMeansProcessing(run, k, r);
    case Mismatch =>
      var o :| o in s.requests && s.requests[o].fingerprint != q.fingerprint && s.requests[o].Succeeded();
      OnlyOne(Successes(s), o);
    case Replay(code, body) =>
      var o :| o in s.requests && s.requests[o].fingerprint == q.fingerprint && s.requests[o].phase == Done(Own(code, body)) && s.requests[o].Succeeded();
      OnlyOne(Successes(s), o);
  }

  /* ---------- Who gets which answer ---------- */

  /** At step i the request looked up the key and found a lock. */
  ghost predicate GotWhileProcessing(run: Run, i: nat, r: ReqId) {
    i < |run.steps| < |run.states| && run.steps[i] == TryGet(r) && run.states[i].slot.Some? && run.states[i].slot.value.entry.Processing?
  }

  /** A request is answered 409 only because another one held the lock when it looked. */
  lemma {:induction false} ConflictMeansProcessing(run: Run, k: nat, r: ReqId)
    requires run.Valid() && k < |run.states|
    requires r in run.states[k].requests && run.states[k].requests[r].phase == Done(Conflict)
    ensures exists i :: 0 <= i < k && GotWhileProcessing(run, i, r)
  {
    var before, step := run.states[k - 1], run.steps[k - 1];
    assert run.StepAt(k - 1);
    if r in before.requests && before.requests[r].phase == Done(Conflict) {
      ConflictMeansProcessing(run, k - 1, r);
    } else {
      assert GotWhileProcessing(run, k - 1, r);
    }
  }

  /** What a look-up leads to: the stored status and body for the same request body, 422 for another, 409 while the
      lock is held, and the handler when nothing is there. */
  lemma LookupAnswers(run: Run, i: nat, r: ReqId)
    requires run.Valid() && i < |run.steps| && run.steps[i] == TryGet(r)
    ensures r in run.states[i].requests && r in run.states[i + 1].requests
    ensures var slot, q, next := run.states[i].slot, run.states[i].requests[r], run.states[i + 1].requests[r];
            && run.states[i + 1].slot == slot && next.fingerprint == q.fingerprint
            && (slot == None ==> next.phase == Running)
            && (slot.Some? && slot.value.entry.Processing? ==> next.phase == Done(Conflict))
            && (slot.Some? && slot.value.entry.Completed? ==>
                  && (slot.value.entry.fingerprint == q.fingerprint ==> next.phase == Done(Replay(slot.value.entry.code, slot.value.entry.body)))
                  && (slot.value.entry.fingerprint != q.fingerprint ==> next.phase == Done(Mismatch)))
  {
    RunSound(run, i);
    assert run.StepAt(i);
  }

  /** No request is between its lock and the end of its handler's work. */
  ghost predicate Quiet(s: State) {
    forall r :: r in s.requests && s.requests[r].pass.Held? ==> s.requests[r].phase.Done?
  }

  /** While an answer is kept and nothing expired or went past the store, nobody is at work. */
  lemma KeptMeansQuiet(run: Run, i: nat)
    requires run.Valid() && i < |run.states| && Expiries(run.states[i]) == 0 && Opens(run.states[i]) == {}
    requires run.states[i].slot.Some? && run.states[i].slot.value.entry.Completed?
    ensures Quiet(run.states[i])
  {
    RunSound(run, i);
    var s := run.states[i];
    var e := s.slot.value.entry;
    var o :| o in s.requests && s.requests[o].fingerprint == e.fingerprint && s.requests[o].phase == Done(Own(e.code, e.body)) && s.requests[o].Succeeded();
    assert RequestSound(s, s.requests[o]);
    assert o !in Opens(s);
    OnlyOne(Claimants(s), o);
    forall r | r in s.requests && s.requests[r].pass.Held? ensures s.requests[r].phase.Done? {
      assert !s.requests[r].phase.Done? ==> r in Claimants(s);
    }
  }

  lemma NothingTakenBack(s: State, step: Step)
    requires Enabled(s, step) && forall r :: r in s.requests ==> RequestSound(s, s.requests[r])
    ensures Expiries(s) <= Expiries(Do(s, step)) && Opens(s) <= Opens(Do(s, step))
  {
    hide Source, OtherSource;
    forall r | r in Opens(s) ensures r in Opens(Do(s, step)) { assert RequestSound(s, s.requests[r]); }
  }

  /** A kept answer stays as long as nothing expires and nothing goes past the store. */
  lemma StepKeepsAnswer(s: State, step: Step)
    requires Enabled(s, step) && Quiet(s) && s.slot.Some? && (forall r :: r in s.requests ==> RequestSound(s, s.requests[r]))
    requires Expiries(Do(s, step)) == 0 && Opens(Do(s, step)) == {}
    ensures Do(s, step).slot == s.slot && Quiet(Do(s, step))
  {
    hide Source, OtherSource;
    var next := Do(s, step);
    forall r | r in next.requests ensures !next.requests[r].Open() { assert next.requests[r].Open() ==> r in Opens(next); }
    forall r | r in s.requests ensures RequestSound(s, s.requests[r]) && (s.requests[r].pass.Held? ==> s.requests[r].phase.Done?) { }
    forall r | r in next.requests && next.requests[r].pass.Held? ensures next.requests[r].phase.Done? {
      assert r in s.requests;
    }
  }

  /** Under ExactlyOnce's conditions, a request that arrives after an answer was kept is never answered 409 and never
      runs its handler: it ends with the kept status and body, or with 422 if its own body differs. */
  lemma {:induction false} LateArrivals(run: Run, i: nat, k: nat, r: ReqId)
    requires run.Valid() && i <= k < |run.states| && Expiries(run.states[k]) == 0 && Opens(run.states[k]) == {}
    requires run.states[i].slot.Some? && run.states[i].slot.value.entry.Completed?
    ensures run.states[k].slot == run.states[i].slot && Quiet(run.states[k])
    ensures r !in run.states[i].requests && r in run.states[k].requests ==>
              var e, q := run.states[i].slot.value.entry, run.states[k].requests[r];
              || q.phase == Arrived || q.phase == Losing
              || q.phase == Done(if q.fingerprint == e.fingerprint then Replay(e.code, e.body) else Mismatch)
    decreases k
  {
    hide SlotSound, CountsSound, ClockSound, RequestSound, Quiet, Expiries, Opens;
    if i == k {
      KeptMeansQuiet(run, i);
    } else {
      var before, step := run.states[k - 1], run.steps[k - 1];
      assert run.StepAt(k - 1);
      RunSound(run, k - 1);
      NothingTakenBack(before, step);
      assert Opens(before) == {};
      LateArrivals(run, i, k - 1, r);
      StepKeepsAnswer(before, step);
      if step == TryGet(r) {
        LookupAnswers(run, k - 1, r);
      } else if r in run.states[k].requests {
        NoneOpen(run.states[k]);
        LateStep(before, step, r);
      }
    }
  }

  /** What a step does to one request when there is an entry, look-ups aside. */
  lemma LateStep(s: State, step: Step, r: ReqId)
    requires Enabled(s, step) && s.slot.Some? && r in Do(s, step).requests && step != TryGet(r)
    requires forall x :: x in Do(s, step).requests ==> !Do(s, step).requests[x].Open()
    ensures r !in s.requests ==> Do(s, step).requests[r].phase == Arrived
    ensures r in s.requests && (s.requests[r].phase == Arrived || s.requests[r].phase == Losing || s.requests[r].phase.Done?) ==>
              var q, next := s.requests[r], Do(s, step).requests[r];
              next == q || (q.phase == Arrived && next == q.(phase := Losing))
  {
    hide Decide;
  }

  lemma NoneOpen(s: State)
    requires Opens(s) == {}
    ensures forall r :: r in s.requests ==> !s.requests[r].Open()
  {
    forall r | r in s.requests ensures !s.requests[r].Open() { assert r !in Opens(s); }
  }

  /* ---------- One request after the other ---------- */

  function Begun(s: State, r: ReqId, fingerprint: string): State
    requires r !in s.requests && fingerprint != ""
  {
    Do(Do(s, Arrive(r, fingerprint)), TryLock(r))
  }

  /** A request that finds the key free locks it and runs its handler; one that comes meanwhile is answered 409. */
  lemma FirstRuns(s: State, r: ReqId, other: ReqId, fingerprint: string, another: string)
    requires s.slot == None && r != other && r !in s.requests && other !in s.requests && fingerprint != "" && another != ""
    ensures var locked := Begun(s, r, fingerprint);
            && locked.requests[r] == Request(fingerprint, Running, Held)
            && locked.slot == Some(Stored(Processing(fingerprint), s.now, if s.cfg.lockTtl > 0 then Some(s.now + s.cfg.lockTtl) else None))
            && var second := Begun(locked, other, another);
               && Enabled(second, TryGet(other))
               && Do(second, TryGet(other)).requests[other].phase == Done(Conflict)
               && Do(second, TryGet(other)).slot == locked.slot
  {
  }

  /** Its answer reaches its client, and is kept for the answers' time to live exactly if it is a 2xx, 3xx or 4xx;
      otherwise the key is free again. */
  lemma AnswerIsRecorded(s: State, r: ReqId, code: int, body: seq<char>)
    requires In(s, r, Running) && s.requests[r].pass.Held?
    ensures Enabled(s, Finish(r, code, body)) && Enabled(Do(s, Finish(r, code, body)), Record(r))
    ensures var done := Do(Do(s, Finish(r, code, body)), Record(r));
            && done.requests[r].phase == Done(Own(code, body))
            && (200 <= code <= 499 ==>
                  done.slot == Some(Stored(Completed(s.requests[r].fingerprint, code, body), s.now, if s.cfg.ttl > 0 then Some(s.now + s.cfg.ttl) else None))
                  && done.unlocks == s.unlocks)
            && (!(200 <= code <= 499) ==> done.slot == None && done.unlocks == s.unlocks + 1)
  {
  }

  /** A retry of a kept answer gets exactly it, with another body 422, and the handler does not run. */
  lemma RetryIsReplayed(s: State, r: ReqId, fingerprint: string)
    requires s.slot.Some? && s.slot.value.entry.Completed? && s.slot.value.entry.fingerprint != "" && r !in s.requests && fingerprint != ""
    ensures var lost := Begun(s, r, fingerprint);
            && Enabled(lost, TryGet(r)) && lost.slot == s.slot
            && Do(lost, TryGet(r)).requests[r].phase
               == Done(if s.slot.value.entry.fingerprint == fingerprint then Replay(s.slot.value.entry.code, s.slot.value.entry.body) else Mismatch)
  {
  }

  /** When Redis fails the handler runs unprotected, and its answer is the client's whatever the store does. */
  lemma StoreFailureRunsHandler(s: State, r: ReqId, applied: bool, code: int, body: seq<char>)
    requires In(s, r, Arrived) || In(s, r, Losing)
    ensures var failed := if s.requests[r].phase == Arrived then LockFails(r, applied) else GetFails(r);
            && Enabled(s, failed)
            && In(Do(s, failed), r, Running)
            && Do(Do(s, failed), Finish(r, code, body)).requests[r].phase == Done(Own(code, body))
            && Do(Do(s, failed), Finish(r, code, body)).slot == Do(s, failed).slot
  {
  }

  /** Time takes an entry away exactly when its time to live is over, and nothing else. */
  lemma TimeForgets(s: State, d: nat)
    requires Enabled(s, Tick(d)) && s.slot.Some?
    ensures var next := Do(s, Tick(d));
            && next.requests == s.requests && next.now == s.now + d
            && next.slot == match s.slot.value.expiresAt
                            case Some(end) => if s.now + d < end then s.slot else None
                            case None => s.slot
  {
  }

  lemma OnlyOne<T>(s: set<T>, x: T)
    requires |s| <= 1 && x in s
    ensures s == {x}
  {
    assert |s - {x}| == |s| - 1;
  }

  lemma SubsetSize<T>(a: set<T>, b: set<T>)
    requires a <= b
    ensures |a| <= |b|
  {
    assert b == a + (b - a);
  }

  lemma UnionSize<T>(a: set<T>, b: set<T>)
    ensures |a + b| <= |a| + |b|
  {
    assert a + b == a + (b - a);
    SubsetSize(b - a, b);
  }

  /** Get finds nothing after a lost Lock only if an entry expired or an unstored answer removed the lock. */
  lemma VanishingHasACause(run: Run, k: nat, r: ReqId)
    requires run.Valid() && k < |run.states|
    requires r in run.states[k].requests && run.states[k].requests[r].pass.Vanished?
    ensures Expiries(run.states[k]) + run.states[k].unlocks > 0
  {
    RunSound(run, k);
    assert RequestSound(run.states[k], run.states[k].requests[r]);
  }

  /* ---------- Unlocking is enough for a second success ---------- */

  /** A request loses the lock, the holder fails and unlocks, and the loser's Get finds no entry: it runs
      unprotected beside a third request that locks again. */
  const RACE: seq<Step> := [
    Arrive(0, "f"), Arrive(1, "f"), Arrive(2, "f"), TryLock(0), TryLock(1), Finish(0, 500, ""), Record(0),
    TryGet(1), TryLock(2), Finish(1, 201, "a"), Finish(2, 201, "b")]

  function RaceState(cfg: Config): State {
    State(cfg, 0, None, map[0 := Request("f", Done(Own(500, "")), Held), 1 := Request("f", Losing, NoPass),
                            2 := Request("f", Arrived, NoPass)], 0, 0, 1)
  }

  function LockedState(cfg: Config): State {
    var a := Request("f", Arrived, NoPass);
    State(cfg, 0, Some(Stored(Processing("f"), 0, Expiry(cfg.lockTtl, 0))), map[0 := Request("f", Running, Held), 1 := a, 2 := a], 0, 0, 0)
  }

  lemma RaceArrivals(cfg: Config) returns (states: seq<State>)
    ensures |states| == 5 && Initial(states[0]) && states[4] == LockedState(cfg)
    ensures forall i :: 0 <= i < 4 ==> Enabled(states[i], RACE[i]) && states[i + 1] == Do(states[i], RACE[i])
  {
    var s0 := State(cfg, 0, None, map[], 0, 0, 0);
    var s1 := Do(s0, RACE[0]);
    var s2 := Do(s1, RACE[1]);
    var s3 := Do(s2, RACE[2]);
    states := [s0, s1, s2, s3, Do(s3, RACE[3])];
  }

  lemma RaceStart(cfg: Config) returns (states: seq<State>)
    ensures |states| == 8 && Initial(states[0]) && states[7] == RaceState(cfg)
    ensures forall i :: 0 <= i < 7 ==> Enabled(states[i], RACE[i]) && states[i + 1] == Do(states[i], RACE[i])
  {
    var first := RaceArrivals(cfg);
    var s4 := LockedState(cfg);
    var s5 := Do(s4, RACE[4]);
    var s6 := Do(s5, RACE[5]);
    var s7 := Do(s6, RACE[6]);
    assert s7.requests == RaceState(cfg).requests;
    states := first + [s5, s6, s7];
    assert forall i :: 0 <= i < 5 ==> states[i] == first[i];
  }

  lemma RaceEnd(cfg: Config) returns (states: seq<State>)
    ensures |states| == 5 && states[0] == RaceState(cfg)
    ensures forall i :: 0 <= i < 4 ==> Enabled(states[i], RACE[7 + i]) && states[i + 1] == Do(states[i], RACE[7 + i])
    ensures Expiries(states[4]) == 0 && Successes(states[4]) == {1, 2}
    ensures forall r :: r in states[4].requests ==> !states[4].requests[r].pass.StoreDown?
  {
    var s7 := RaceState(cfg);
    var s8 := Do(s7, RACE[7]);
    var s9 := Do(s8, RACE[8]);
    var s10 := Do(s9, RACE[9]);
    states := [s7, s8, s9, s10, Do(s10, RACE[10])];
  }

  /** So two handlers can succeed although nothing expired and Redis never failed. */
  lemma UnlockRace(cfg: Config) returns (run: Run)
    ensures run.Valid() && run.steps == RACE
    ensures Expiries(run.Last()) == 0 && forall r :: r in run.Last().requests ==> !run.Last().requests[r].pass.StoreDown?
    ensures Successes(run.Last()) == {1, 2}
  {
    hide Do, Enabled;
    var first := RaceStart(cfg);
    var then' := RaceEnd(cfg);
    run := Run(first + then'[1..], RACE);
    forall i | 0 <= i < |RACE| ensures run.StepAt(i) {
      if i < 7 {
        assert Enabled(first[i], RACE[i]) && first[i + 1] == Do(first[i], RACE[i]);
      } else {
        assert Enabled(then'[i - 7], RACE[7 + (i - 7)]) && then'[i - 7 + 1] == Do(then'[i - 7], RACE[7 + (i - 7)]);
      }
    }
  }
}
