/** The timer-channel feed: a pump goroutine forwards a host timer channel into
    a one-slot proxy channel, while Stop and Reset retire the pump, touch the
    real timer, drain the proxy and re-arm.

    The protocol is a step relation. Every step is one atomic action of the
    program: taking or releasing `mu`, one channel operation, closing a channel,
    one call into the real timer, or one write of the wake flag. `op` is held
    exactly while the call phase is not `Idle`.

    Environment: since Go 1.23 the real Stop and Reset discard an expired but
    unreceived value in the same atomic action, and a one-shot timer's Stop and
    Reset report whether anything was pending. */
module Feed {
  import opened Basics

  /** once: one-shot feed (a Timer), otherwise a Ticker. managed: the proxy is
      registered with a process, so the wake flag exists. */
  datatype Config = Config(once: bool, managed: bool)

  datatype PumpPc =
    | Unstarted            // allocated by start, goroutine not launched yet
    | Selecting            // in the outer select
    | Holding(fire: nat)   // took a value from the source, in the inner select
    | Delivered            // one-shot value sent, dieIf wants mu
    | InDieIf              // dieIf holds mu
    | Returning            // returned, close(exited) still deferred
    | Exited

  datatype Pump = Pump(pc: PumpPc, done: bool, dropped: bool)

  datatype Call = Create | Stop | Reset

  /** The phase of the call that holds `op`. */
  datatype Op =
    | Idle
    | RetireLock(call: Call)
    | RetireSwap(call: Call)                              // holds mu
    | RetireClose(call: Call, p: nat)
    | RetireWait(call: Call, p: nat)
    | RealTimer(call: Call, dropped: bool)
    | Drain(call: Call, dropped: bool, active: bool)
    | Die(call: Call, result: bool)
    | StartLock(call: Call, result: bool)
    | StartArm(call: Call, result: bool)                  // holds mu
    | StartAlive(call: Call, result: bool)                // holds mu
    | StartGo(call: Call, result: bool)
    | Return(call: Call, result: bool)

  datatype Mu = Free | ByOp | ByPump(p: nat)

  /** The places a fire can be outside a pump. A fire is an index into `gens`, which
      records the schedule it belongs to; `gen` is the current schedule. `received`
      and `discarded` are histories. */
  datatype Flow = Flow(
    timer: Option<nat>, src: Option<nat>, buf: Option<nat>,
    gens: seq<nat>, gen: nat, received: seq<nat>, discarded: seq<nat>)

  /** `mark` is the length of `discarded` when the current call took `op`. */
  datatype State = State(cur: Option<nat>, mu: Mu, op: Op, pumps: seq<Pump>, dead: bool, mark: nat, flow: Flow)

  datatype Step =
    | TimerFires
    | Receive
    | Begin(call: Call)
    | OpStep
    | PumpTake(p: nat)      // v := <-src
    | PumpQuit(p: nat)      // <-done in the outer select
    | PumpSend(p: nat)      // C <- v
    | PumpDrop(p: nat)      // <-done in the inner select, or a tick nobody collects
    | PumpLock(p: nat)
    | PumpDie(p: nat)
    | PumpClose(p: nat)

  function Opt(o: Option<nat>): seq<nat> {
    if o.Some? then [o.value] else []
  }

  predicate Init(c: Config, s: State) {
    s == State(None, Free, StartLock(Create, false), [], false, 0, Flow(Some(0), None, None, [0], 0, [], []))
  }

  // ---- What the steps do to the fires -------------------------------------------

  /** A one-shot timer expires; a ticker ticks, losing the tick when the last one is uncollected. */
  function Expired(c: Config, w: Flow): Flow {
    if c.once then w.(timer := None, src := w.timer)
    else w.(timer := Some(|w.gens|), gens := w.gens + [w.gen],
            src := if w.src.None? then w.timer else w.src,
            discarded := if w.src.None? then w.discarded else w.discarded + Opt(w.timer))
  }

  function Collected(w: Flow): Flow {
    w.(buf := None, received := w.received + Opt(w.buf))
  }

  /** The real Stop: whatever is scheduled or expired is discarded. */
  function Halted(w: Flow): Flow {
    w.(timer := None, src := None, discarded := w.discarded + Opt(w.timer) + Opt(w.src))
  }

  /** The real Reset: as Stop, then a fresh schedule with one new fire. */
  function Rearmed(w: Flow): Flow {
    var h := Halted(w);
    h.(timer := Some(|w.gens|), gens := w.gens + [w.gen + 1], gen := w.gen + 1)
  }

  function Drained(w: Flow): Flow {
    w.(buf := None, discarded := w.discarded + Opt(w.buf))
  }

  /** A one-shot timer reports whether it was pending; the ticker wrappers report false. */
  predicate Pending(c: Config, w: Flow) {
    c.once && (w.timer.Some? || w.src.Some?)
  }

  // ---- Steps -------------------------------------------------------------------

  // The op-holder's next action is determined by its phase; None while it must wait.

  function RetireTo(s: State): Option<State>
    requires s.op.RetireLock? || s.op.RetireSwap? || s.op.RetireClose? || s.op.RetireWait?
  {
    var call := s.op.call;
    match s.op
    case RetireLock(_) =>
      if s.mu.Free? then Some(s.(mu := ByOp, op := RetireSwap(call))) else None
    case RetireSwap(_) =>
      Some(s.(cur := None, mu := Free,
              op := if s.cur.None? then RealTimer(call, false) else RetireClose(call, s.cur.value)))
    case RetireClose(_, p) =>
      if p < |s.pumps| then Some(s.(pumps := s.pumps[p := s.pumps[p].(done := true)], op := RetireWait(call, p)))
      else None
    case RetireWait(_, p) =>
      if p < |s.pumps| && s.pumps[p].pc.Exited? then Some(s.(op := RealTimer(call, s.pumps[p].dropped))) else None
  }

  function TimerTo(c: Config, s: State): Option<State>
    requires s.op.RealTimer? || s.op.Drain? || s.op.Die?
  {
    var call := s.op.call;
    match s.op
    case RealTimer(_, dropped) =>
      Some(s.(flow := if call.Reset? then Rearmed(s.flow) else Halted(s.flow),
              op := Drain(call, dropped, Pending(c, s.flow))))
    case Drain(_, dropped, active) =>
      var result := active || dropped || s.flow.buf.Some?;
      Some(s.(flow := Drained(s.flow), op := if call.Reset? then StartLock(call, result) else Die(call, result)))
    case Die(_, result) =>
      Some(s.(dead := c.managed, op := Return(call, result)))
  }

  function StartTo(s: State): Option<State>
    requires s.op.StartLock? || s.op.StartArm? || s.op.StartAlive? || s.op.StartGo?
  {
    var call, result, n := s.op.call, s.op.result, |s.pumps|;
    match s.op
    case StartLock(_, _) =>
      if s.mu.Free? then
        Some(s.(mu := ByOp, pumps := s.pumps + [Pump(Unstarted, false, false)], op := StartArm(call, result)))
      else None
    case StartArm(_, _) =>
      if n > 0 then Some(s.(cur := Some(n - 1), op := StartAlive(call, result))) else None
    case StartAlive(_, _) =>
      Some(s.(dead := false, mu := Free, op := StartGo(call, result)))
    case StartGo(_, _) =>
      if n > 0 then
        Some(s.(pumps := s.pumps[n - 1 := s.pumps[n - 1].(pc := Selecting)], op := Return(call, result)))
      else None
  }

  function OpTo(c: Config, s: State): Option<State> {
    match s.op
    case Idle => None
    case Return(_, _) => Some(s.(op := Idle))
    case RealTimer(_, _) => TimerTo(c, s)
    case Drain(_, _, _) => TimerTo(c, s)
    case Die(_, _) => TimerTo(c, s)
    case StartLock(_, _) => StartTo(s)
    case StartArm(_, _) => StartTo(s)
    case StartAlive(_, _) => StartTo(s)
    case StartGo(_, _) => StartTo(s)
    case _ => RetireTo(s)
  }

  predicate IsPump(step: Step) {
    !step.TimerFires? && !step.Receive? && !step.Begin? && !step.OpStep?
  }

  /** The pump after its own step, and the flow after it. */
  predicate PumpNext(c: Config, s: State, step: Step, q: Pump, w: Flow)
    requires IsPump(step) && step.p < |s.pumps|
  {
    var p, v := s.pumps[step.p], s.flow;
    match step
    case PumpTake(_) =>
      p.pc.Selecting? && v.src.Some? && q == p.(pc := Holding(v.src.value)) && w == v.(src := None)
    case PumpQuit(_) =>
      p.pc.Selecting? && p.done && q == p.(pc := Returning) && w == v
    case PumpSend(_) =>
      p.pc.Holding? && v.buf.None? && q == p.(pc := if c.once then Delivered else Selecting)
      && w == v.(buf := Some(p.pc.fire))
    case PumpDrop(_) =>
      p.pc.Holding? && (if c.once then p.done else v.buf.Some?)
      && q == (if c.once then p.(pc := Returning, dropped := true) else p.(pc := Selecting))
      && w == v.(discarded := v.discarded + [p.pc.fire])
    case PumpLock(_) =>
      p.pc.Delivered? && s.mu.Free? && q == p.(pc := InDieIf) && w == v
    case PumpDie(_) =>
      p.pc.InDieIf? && q == p.(pc := Returning) && w == v
    case PumpClose(_) =>
      p.pc.Returning? && q == p.(pc := Exited) && w == v
  }

  predicate NextStep(c: Config, s: State, t: State, step: Step) {
    match step
    case TimerFires => s.flow.timer.Some? && t == s.(flow := Expired(c, s.flow))
    case Receive => s.flow.buf.Some? && t == s.(flow := Collected(s.flow))
    case Begin(call) => s.op.Idle? && !call.Create? && t == s.(op := RetireLock(call), mark := |s.flow.discarded|)
    case OpStep => OpTo(c, s) == Some(t)
    case _ =>
      step.p < |s.pumps| && step.p < |t.pumps|
      && PumpNext(c, s, step, t.pumps[step.p], t.flow)
      && t == PumpMoved(c, s, step, t.pumps[step.p], t.flow)
  }

  function PumpMoved(c: Config, s: State, step: Step, q: Pump, w: Flow): State
    requires IsPump(step) && step.p < |s.pumps|
  {
    s.(pumps := s.pumps[step.p := q], flow := w,
       mu := if step.PumpLock? then ByPump(step.p) else if step.PumpDie? then Free else s.mu,
       dead := if step.PumpDie? && s.cur == Some(step.p) then c.managed else s.dead)
  }

  /** A finite run segment: `steps[i]` takes `tr[i]` to `tr[i+1]`. */
  predicate Path(c: Config, tr: seq<State>, steps: seq<Step>) {
    |tr| == |steps| + 1 && forall i :: 0 <= i < |steps| ==> NextStep(c, tr[i], tr[i+1], steps[i])
  }

  predicate Run(c: Config, tr: seq<State>, steps: seq<Step>) {
    Path(c, tr, steps) && Init(c, tr[0])
  }

  // ---- The invariant -----------------------------------------------------------

  const NONE := Pump(Exited, true, false)

  /** The newest pump; an exited one stands in when there is none. */
  function Last(s: State): Pump {
    if s.pumps == [] then NONE else s.pumps[|s.pumps| - 1]
  }

  function Hand(s: State): Option<nat> {
    if Last(s).pc.Holding? then Some(Last(s).pc.fire) else None
  }

  function One(o: Option<nat>, f: nat): nat {
    if o == Some(f) then 1 else 0
  }

  /** In how many places fire `f` is. */
  function Places(w: Flow, hand: Option<nat>, f: nat): nat {
    One(w.timer, f) + One(w.src, f) + One(hand, f) + One(w.buf, f)
    + multiset(w.received)[f] + multiset(w.discarded)[f]
  }

  /** Every fire issued so far is in exactly one place, and nothing else is anywhere. */
  ghost predicate Conserved(w: Flow, hand: Option<nat>) {
    forall f: nat :: Places(w, hand, f) == if f < |w.gens| then 1 else 0
  }

  predicate PumpShape(s: State) {
    && (forall p :: 0 <= p < |s.pumps| - 1 ==> s.pumps[p].pc.Exited?)
    && (s.cur.Some? ==> s.cur.value == |s.pumps| - 1)
    && (Last(s).pc.InDieIf? ==> s.mu == ByPump(|s.pumps| - 1))
    && (s.mu.ByPump? ==> s.mu.p == |s.pumps| - 1 && Last(s).pc.InDieIf?)
    && (s.mu.ByOp? <==> s.op.RetireSwap? || s.op.StartArm? || s.op.StartAlive?)
  }

  /** Between calls, and before a call has swapped `cur` out. */
  predicate BeforeRetire(op: Op) {
    op.Idle? || op.Return? || op.RetireLock? || op.RetireSwap?
  }

  predicate Retiring(op: Op) {
    op.RetireClose? || op.RetireWait?
  }

  predicate Starting(op: Op) {
    op.StartArm? || op.StartAlive? || op.StartGo?
  }

  /** What the phase of the current call says about `cur` and the newest pump. */
  predicate Phase(s: State) {
    && (BeforeRetire(s.op) ==> if s.cur.None? then Last(s).pc.Exited?
                               else |s.pumps| > 0 && !Last(s).pc.Unstarted? && !Last(s).done)
    && (Retiring(s.op) ==> s.op.p == |s.pumps| - 1 && s.cur.None? && !Last(s).pc.Unstarted?
                           && Last(s).done == s.op.RetireWait?)
    && (s.op.RealTimer? || s.op.Drain? || s.op.Die? || s.op.StartLock? ==> s.cur.None? && Last(s).pc.Exited?)
    && (Starting(s.op) ==> s.pumps != [] && Last(s) == Pump(Unstarted, false, false)
                           && (if s.op.StartArm? then s.cur.None? else s.cur == Some(|s.pumps| - 1)))
    && (s.op.Die? ==> s.op.call.Stop?)
    && (s.op.Return? ==> (s.cur.None? <==> s.op.call.Stop?))
    && (s.op.StartLock? || Starting(s.op) ==> !s.op.call.Stop?)
    && (!s.op.Idle? && !s.op.Return? && !s.op.StartLock? && !Starting(s.op) ==> !s.op.call.Create?)
  }

  predicate IsGen(w: Flow, o: Option<nat>, g: int) {
    o.Some? ==> o.value < |w.gens| && w.gens[o.value] == g
  }

  /** Every fire upstream of the receivers belongs to the current schedule, except
      what a Reset is about to drain; after a Stop nothing is left at all. */
  predicate Fresh(s: State) {
    var w := s.flow;
    && (forall f :: 0 <= f < |w.gens| ==> w.gens[f] <= w.gen)
    && IsGen(w, w.timer, w.gen) && IsGen(w, w.src, w.gen) && IsGen(w, Hand(s), w.gen)
    && IsGen(w, w.buf, if s.op.Drain? && s.op.call.Reset? then w.gen - 1 else w.gen)
    && (s.op.Die? || s.op.StartLock? || Starting(s.op) ==> w.buf.None?)
    && ((s.op.Drain? && s.op.call.Stop?) || s.op.Die? ==> w.timer.None? && w.src.None?)
    && (BeforeRetire(s.op) && s.cur.None? ==> w.timer.None? && w.src.None? && w.buf.None?)
  }

  /** One-shot feeds issue one fire per arming, and a pump past its delivery has
      nothing left upstream of it. */
  predicate OneShot(s: State) {
    var w := s.flow;
    && |w.gens| == w.gen + 1
    && (forall f :: 0 <= f < |w.gens| ==> w.gens[f] == f)
    && (BeforeRetire(s.op) && s.cur.Some? ==>
          if Last(s).pc.Selecting? then w.timer.Some? || w.src.Some? else w.timer.None? && w.src.None?)
    && ((s.op.Drain? && s.op.call.Reset?) || s.op.StartLock? || Starting(s.op) ==> w.timer.Some? || w.src.Some?)
  }

  /** A ticker that runs, or is being started, has its next tick scheduled. */
  predicate Ticking(s: State) {
    && (BeforeRetire(s.op) && s.cur.Some? ==> s.flow.timer.Some?)
    && ((s.op.Drain? && s.op.call.Reset?) || s.op.StartLock? || Starting(s.op) ==> s.flow.timer.Some?)
  }

  /** The wake flag is raised only past a delivery or a Stop, and between calls it says
      exactly whether the newest pump is past sending. */
  predicate Flag(c: Config, s: State) {
    var pc := Last(s).pc;
    && (s.dead ==> c.managed && (pc.Returning? || pc.Exited? || (pc.Unstarted? && !s.op.StartGo?)))
    && (c.managed && BeforeRetire(s.op) ==> (s.dead <==> pc.Returning? || pc.Exited?))
    && (!c.once ==> !pc.Delivered? && !pc.InDieIf?)
    && (!c.once && BeforeRetire(s.op) && s.cur.Some? ==> pc.Selecting? || pc.Holding?)
  }

  /** The call discarded one fire of the schedule it found if `r`, nothing otherwise. */
  predicate Gathered(s: State, r: bool) {
    var d := s.flow.discarded;
    var rearmed := (s.op.Drain? || s.op.StartLock? || Starting(s.op) || s.op.Return?) && s.op.call.Reset?;
    var found: int := if rearmed then s.flow.gen - 1 else s.flow.gen;
    if r then |d| == s.mark + 1 && d[s.mark] == found else |d| == s.mark
  }

  /** One-shot feeds: the flags a call has gathered count the fires it discarded. */
  predicate Ledger(s: State) {
    && (Last(s).dropped ==> Last(s).done && (Last(s).pc.Returning? || Last(s).pc.Exited?))
    && match s.op
       case Idle => true
       case RetireLock(_) => Gathered(s, false)
       case RetireSwap(_) => Gathered(s, false)
       case RetireClose(_, _) => Gathered(s, false)
       case RetireWait(_, _) => Gathered(s, Last(s).dropped)
       case RealTimer(_, dropped) => Gathered(s, dropped)
       case Drain(_, dropped, active) => Gathered(s, dropped || active)
       case _ => Gathered(s, s.op.result)
  }

  ghost predicate Inv(c: Config, s: State) {
    && PumpShape(s) && Phase(s) && Conserved(s.flow, Hand(s)) && Fresh(s) && Flag(c, s)
    && (if c.once then OneShot(s) && Ledger(s) else Ticking(s))
  }

  // ---- Every step keeps the invariant -------------------------------------------

  lemma InitHolds(c: Config, s: State)
    requires Init(c, s)
    ensures Inv(c, s)
  {
  }

  /** Only the newest pump can move. */
  lemma PumpIsLast(c: Config, s: State, t: State, step: Step)
    requires PumpShape(s) && IsPump(step) && NextStep(c, s, t, step)
    ensures step.p == |s.pumps| - 1 == |t.pumps| - 1
    ensures PumpNext(c, s, step, Last(t), t.flow) && s.pumps[step.p] == Last(s)
    ensures forall p :: 0 <= p < step.p ==> t.pumps[p] == s.pumps[p]
  {
  }

  lemma KeepsShape(c: Config, s: State, t: State, step: Step)
    requires PumpShape(s) && Phase(s) && NextStep(c, s, t, step)
    ensures PumpShape(t) && Phase(t)
  {
    if IsPump(step) {
      PumpIsLast(c, s, t, step);
    } else if step.OpStep? {
      OpKeepsShape(c, s, t);
    }
  }

  lemma OpKeepsShape(c: Config, s: State, t: State)
    requires PumpShape(s) && Phase(s) && OpTo(c, s) == Some(t)
    ensures PumpShape(t) && Phase(t)
    ensures Hand(t) == Hand(s)
  {
    if s.op.StartLock? || Starting(s.op) {
      StartKeepsShape(s, t);
    }
  }

  lemma StartKeepsShape(s: State, t: State)
    requires PumpShape(s) && Phase(s) && (s.op.StartLock? || Starting(s.op)) && StartTo(s) == Some(t)
    ensures PumpShape(t) && Phase(t)
    ensures Hand(t) == Hand(s)
  {
  }

  lemma Added(d: seq<nat>, o: Option<nat>, f: nat)
    ensures multiset(d + Opt(o))[f] == multiset(d)[f] + One(o, f)
  {
  }

  lemma HaltedPlaces(w: Flow, hand: Option<nat>, f: nat)
    ensures Places(Halted(w), hand, f) == Places(w, hand, f)
  {
    Added(w.discarded, w.timer, f);
    Added(w.discarded + Opt(w.timer), w.src, f);
  }

  /** In a one-shot feed the current schedule's fire is in one place only. */
  lemma OneLive(w: Flow, hand: Option<nat>)
    requires Conserved(w, hand) && |w.gens| == w.gen + 1 && forall f :: 0 <= f < |w.gens| ==> w.gens[f] == f
    requires IsGen(w, w.timer, w.gen) && IsGen(w, w.src, w.gen) && IsGen(w, hand, w.gen)
    ensures w.timer.Some? ==> w.src.None?
    ensures hand.Some? ==> w.timer.None? && w.src.None?
    ensures w.gen in w.discarded ==> w.timer.None? && w.src.None? && hand.None? && w.buf != Some(w.gen)
    ensures w.buf == Some(w.gen) ==> w.timer.None? && w.src.None? && hand.None?
  {
    assert Places(w, hand, w.gen) == 1;
  }

  lemma PumpConserved(c: Config, s: State, t: State, step: Step)
    requires PumpShape(s) && Conserved(s.flow, Hand(s)) && IsPump(step) && NextStep(c, s, t, step)
    ensures Conserved(t.flow, Hand(t))
  {
    PumpIsLast(c, s, t, step);
    forall f: nat ensures Places(t.flow, Hand(t), f) == if f < |t.flow.gens| then 1 else 0 {
      assert Places(s.flow, Hand(s), f) == if f < |s.flow.gens| then 1 else 0;
      Added(s.flow.discarded, Hand(s), f);
    }
  }

  /** What the non-pump steps do to one fire's places. */
  lemma FlowPlaces(c: Config, w: Flow, hand: Option<nat>, f: nat)
    ensures w.timer.Some? && (c.once ==> w.src.None?) ==>
      Places(Expired(c, w), hand, f) == Places(w, hand, f) + (if !c.once && f == |w.gens| then 1 else 0)
    ensures Places(Collected(w), hand, f) == Places(Drained(w), hand, f) == Places(w, hand, f)
    ensures Places(Rearmed(w), hand, f) == Places(w, hand, f) + (if f == |w.gens| then 1 else 0)
  {
    HaltedPlaces(w, hand, f);
    Added(w.discarded, w.timer, f);
    Added(w.discarded, w.buf, f);
    Added(w.received, w.buf, f);
  }

  predicate FlowNext(c: Config, w: Flow, v: Flow) {
    v == w || v == Collected(w) || v == Drained(w) || v == Halted(w) || v == Rearmed(w)
    || (w.timer.Some? && (c.once ==> w.src.None?) && v == Expired(c, w))
  }

  lemma FlowConserved(c: Config, w: Flow, v: Flow, hand: Option<nat>)
    requires Conserved(w, hand) && FlowNext(c, w, v)
    ensures Conserved(v, hand)
  {
    forall f: nat ensures Places(v, hand, f) == if f < |v.gens| then 1 else 0 {
      assert Places(w, hand, f) == if f < |w.gens| then 1 else 0;
      HaltedPlaces(w, hand, f);
      FlowPlaces(c, w, hand, f);
    }
  }

  lemma KeepsConserved(c: Config, s: State, t: State, step: Step)
    requires Inv(c, s) && NextStep(c, s, t, step)
    ensures Conserved(t.flow, Hand(t))
  {
    if IsPump(step) {
      PumpConserved(c, s, t, step);
    } else {
      if step.OpStep? { OpKeepsShape(c, s, t); }
      if c.once { OneLive(s.flow, Hand(s)); }
      FlowConserved(c, s.flow, t.flow, Hand(s));
    }
  }

  lemma OpKeepsFresh(c: Config, s: State, t: State)
    requires PumpShape(s) && Phase(s) && Fresh(s) && OpTo(c, s) == Some(t)
    ensures Fresh(t)
  {
    OpKeepsShape(c, s, t);
  }

  lemma PumpKeepsFresh(c: Config, s: State, t: State, step: Step)
    requires PumpShape(s) && Phase(s) && Fresh(s) && IsPump(step) && NextStep(c, s, t, step)
    ensures Fresh(t)
  {
    PumpIsLast(c, s, t, step);
  }

  lemma KeepsFresh(c: Config, s: State, t: State, step: Step)
    requires PumpShape(s) && Phase(s) && Fresh(s) && NextStep(c, s, t, step)
    ensures Fresh(t)
  {
    if IsPump(step) {
      PumpKeepsFresh(c, s, t, step);
    } else if step.OpStep? {
      OpKeepsFresh(c, s, t);
    }
  }

  lemma KeepsFlag(c: Config, s: State, t: State, step: Step)
    requires PumpShape(s) && Phase(s) && Flag(c, s) && NextStep(c, s, t, step)
    ensures Flag(c, t)
  {
    if IsPump(step) {
      PumpIsLast(c, s, t, step);
    } else if step.OpStep? {
      OpKeepsShape(c, s, t);
    }
  }

  lemma PumpKeepsOneShot(c: Config, s: State, t: State, step: Step)
    requires c.once && Inv(c, s) && IsPump(step) && NextStep(c, s, t, step)
    ensures OneShot(t)
  {
    OneLive(s.flow, Hand(s));
    PumpIsLast(c, s, t, step);
  }

  lemma OpKeepsOneShot(c: Config, s: State, t: State)
    requires c.once && PumpShape(s) && Phase(s) && OneShot(s) && OpTo(c, s) == Some(t)
    ensures OneShot(t)
  {
    OpKeepsShape(c, s, t);
  }

  lemma KeepsOneShot(c: Config, s: State, t: State, step: Step)
    requires c.once && Inv(c, s) && NextStep(c, s, t, step)
    ensures OneShot(t)
  {
    if IsPump(step) {
      PumpKeepsOneShot(c, s, t, step);
    } else if step.OpStep? {
      OpKeepsOneShot(c, s, t);
    }
  }

  lemma KeepsTicking(c: Config, s: State, t: State, step: Step)
    requires !c.once && PumpShape(s) && Phase(s) && Ticking(s) && NextStep(c, s, t, step)
    ensures Ticking(t)
  {
    if IsPump(step) {
      PumpIsLast(c, s, t, step);
    } else if step.OpStep? {
      OpKeepsShape(c, s, t);
    }
  }

  lemma KeepsLedger(c: Config, s: State, t: State, step: Step)
    requires c.once && Inv(c, s) && NextStep(c, s, t, step)
    ensures Ledger(t)
  {
    OneLive(s.flow, Hand(s));
    if IsPump(step) {
      PumpIsLast(c, s, t, step);
    } else if step.OpStep? {
      OpKeepsLedger(c, s, t);
    }
  }

  lemma OpKeepsLedger(c: Config, s: State, t: State)
    requires c.once && Inv(c, s) && OpTo(c, s) == Some(t)
    ensures Ledger(t)
  {
    OneLive(s.flow, Hand(s));
    OpKeepsShape(c, s, t);
    if s.op.RealTimer? || s.op.Drain? || s.op.Die? {
      TimerLedger(c, s, t);
    }
  }

  lemma TimerLedger(c: Config, s: State, t: State)
    requires c.once && Inv(c, s) && (s.op.RealTimer? || s.op.Drain? || s.op.Die?) && TimerTo(c, s) == Some(t)
    ensures Ledger(t)
  {
    var w := s.flow;
    if s.op.RealTimer? {
      OneLive(w, Hand(s));
      assert s.op.dropped ==> w.gen in w.discarded;
    } else if s.op.Drain? && w.buf.Some? && (s.op.dropped || s.op.active) {
      // the drained fire would be the one already in `discarded`
      DiscardedOnce(w, Hand(s), w.buf.value);
    }
  }

  lemma DiscardedOnce(w: Flow, hand: Option<nat>, f: nat)
    requires Conserved(w, hand) && f < |w.gens| && w.buf == Some(f)
    ensures f !in w.discarded
  {
    assert Places(w, hand, f) == 1;
  }

  lemma Keeps(c: Config, s: State, t: State, step: Step)
    requires Inv(c, s) && NextStep(c, s, t, step)
    ensures Inv(c, t)
  {
    KeepsShape(c, s, t, step);
    KeepsConserved(c, s, t, step);
    KeepsFresh(c, s, t, step);
    KeepsFlag(c, s, t, step);
    if c.once {
      KeepsOneShot(c, s, t, step);
      KeepsLedger(c, s, t, step);
    } else {
      KeepsTicking(c, s, t, step);
    }
  }
}
