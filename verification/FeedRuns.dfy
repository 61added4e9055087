/** What the feed protocol guarantees over whole runs, in every interleaving of
    the pumps, the receivers, the timer and the Stop/Reset calls. */
module FeedRuns {
  import opened Basics
  import opened Feed

  // ---- Safety over runs ----------------------------------------------------------

  lemma {:induction false} Invariant(c: Config, tr: seq<State>, steps: seq<Step>, i: nat)
    requires Path(c, tr, steps) && Inv(c, tr[0]) && i < |tr|
    ensures Inv(c, tr[i])
  {
    if i > 0 {
      Invariant(c, tr, steps, i - 1);
      Keeps(c, tr[i-1], tr[i], steps[i-1]);
    }
  }

  /** Conservation: at every moment each fire issued so far is in exactly one place
      (timer, source, a pump's hand, proxy, received, discarded), and a one-shot feed
      has issued exactly one fire per arming. */
  lemma Conservation(c: Config, tr: seq<State>, steps: seq<Step>, i: nat, f: nat)
    requires Run(c, tr, steps) && i < |tr|
    ensures Places(tr[i].flow, Hand(tr[i]), f) == if f < |tr[i].flow.gens| then 1 else 0
    ensures c.once ==> |tr[i].flow.gens| == tr[i].flow.gen + 1
    ensures c.once && f < |tr[i].flow.gens| ==> tr[i].flow.gens[f] == f
    ensures forall p :: 0 <= p < |tr[i].pumps| - 1 ==> !tr[i].pumps[p].pc.Holding?
  {
    InitHolds(c, tr[0]);
    Invariant(c, tr, steps, i);
  }

  /** The history a call has to answer for. */
  predicate CallSoFar(c: Config, s0: State, call: Call, s: State) {
    && s.mark == |s0.flow.discarded| && s0.flow.discarded <= s.flow.discarded
    && !s.op.Idle? && s.op.call == call
    && s.flow.gen == s0.flow.gen
       + (if call.Reset? && (s.op.Drain? || s.op.StartLock? || Starting(s.op) || s.op.Return?) then 1 else 0)
  }

  lemma CallSoFarStep(c: Config, s0: State, call: Call, s: State, t: State, step: Step)
    requires Inv(c, s) && CallSoFar(c, s0, call, s) && NextStep(c, s, t, step) && !s.op.Return?
    ensures CallSoFar(c, s0, call, t)
  {
    if IsPump(step) {
      PumpIsLast(c, s, t, step);
    }
  }

  lemma {:induction false} CallHistory(c: Config, tr: seq<State>, steps: seq<Step>, call: Call, j: nat)
    requires Path(c, tr, steps) && Inv(c, tr[0]) && 1 <= j < |tr| && steps[0] == Begin(call)
    requires forall k :: 1 <= k < j ==> !tr[k].op.Return?
    ensures CallSoFar(c, tr[0], call, tr[j])
  {
    if j > 1 {
      CallHistory(c, tr, steps, call, j - 1);
      Invariant(c, tr, steps, j - 1);
      CallSoFarStep(c, tr[0], call, tr[j-1], tr[j], steps[j-1]);
    }
  }

  /** Stop and Reset on a one-shot feed report true exactly when the call discarded the
      fire of the schedule it found, and then they discarded that one fire and no other. */
  lemma ResultIsExact(c: Config, tr: seq<State>, steps: seq<Step>, call: Call, j: nat)
    requires c.once && Path(c, tr, steps) && Inv(c, tr[0]) && 1 <= j < |tr| && steps[0] == Begin(call)
    requires tr[j].op.Return? && forall k :: 1 <= k < j ==> !tr[k].op.Return?
    ensures tr[j].flow.discarded
         == tr[0].flow.discarded + if tr[j].op.result then [tr[0].flow.gen] else []
  {
    CallHistory(c, tr, steps, call, j);
    Invariant(c, tr, steps, j);
  }

  // ---- No stale value --------------------------------------------------------------

  /** Stopped: nothing is upstream of the receivers and no Reset is under way. */
  predicate Quiet(s: State) {
    && s.cur.None? && Last(s).pc.Exited? && s.flow.timer.None? && s.flow.src.None? && s.flow.buf.None?
    && (s.op.Idle? || s.op.call.Stop?)
  }

  lemma QuietStep(c: Config, s: State, t: State, step: Step)
    requires Inv(c, s) && Quiet(s) && NextStep(c, s, t, step) && step != Begin(Reset)
    ensures Quiet(t) && t.flow.received == s.flow.received
  {
    if IsPump(step) {
      PumpIsLast(c, s, t, step);
    }
  }

  /** After Stop returns the proxy is empty, and it stays empty, with nothing more
      received, until some Reset begins. */
  lemma {:induction false} StopIsFinal(c: Config, tr: seq<State>, steps: seq<Step>, i: nat)
    requires Path(c, tr, steps) && Inv(c, tr[0]) && tr[0].op.Return? && tr[0].op.call.Stop? && i < |tr|
    requires forall k :: 0 <= k < i ==> steps[k] != Begin(Reset)
    ensures Quiet(tr[i]) && tr[i].flow.received == tr[0].flow.received
  {
    if i == 0 {
    } else {
      StopIsFinal(c, tr, steps, i - 1);
      Invariant(c, tr, steps, i - 1);
      QuietStep(c, tr[i-1], tr[i], steps[i-1]);
    }
  }

  /** Every fire not yet received or discarded belongs to schedule `g` or a later one. */
  predicate From(g: nat, s: State) {
    && s.flow.gen >= g
    && (s.op.Drain? && s.op.call.Reset? ==> s.flow.gen > g)
  }

  predicate GrewFrom(g: nat, a: Flow, b: Flow) {
    && a.gens <= b.gens && a.received <= b.received
    && forall k :: |a.received| <= k < |b.received| ==> b.received[k] < |b.gens| && b.gens[b.received[k]] >= g
  }

  lemma FromStep(c: Config, g: nat, s0: State, s: State, t: State, step: Step)
    requires Inv(c, s) && From(g, s) && NextStep(c, s, t, step) && GrewFrom(g, s0.flow, s.flow)
    ensures From(g, t) && GrewFrom(g, s0.flow, t.flow)
  {
    if IsPump(step) {
      PumpIsLast(c, s, t, step);
    }
  }

  /** After Reset returns, every value received was fired by the new schedule, or by
      that of a still later Reset. */
  lemma {:induction false} ResetIsClean(c: Config, tr: seq<State>, steps: seq<Step>, i: nat)
    requires Path(c, tr, steps) && Inv(c, tr[0]) && tr[0].op.Return? && tr[0].op.call.Reset? && i < |tr|
    ensures From(tr[0].flow.gen, tr[i]) && GrewFrom(tr[0].flow.gen, tr[0].flow, tr[i].flow)
  {
    if i > 0 {
      ResetIsClean(c, tr, steps, i - 1);
      Invariant(c, tr, steps, i - 1);
      FromStep(c, tr[0].flow.gen, tr[0], tr[i-1], tr[i], steps[i-1]);
    }
  }

  // ---- The wake flag ----------------------------------------------------------------

  /** The step launches a pump: the end of a Reset (or of the constructor). */
  predicate Launches(s: State, step: Step) {
    step.OpStep? && s.op.StartGo?
  }

  predicate Silent(s: State) {
    Last(s).pc.Returning? || Last(s).pc.Exited? || Last(s).pc.Unstarted?
  }

  /** The flag is sound: once it is raised no pump sends again before one is launched. */
  lemma {:induction false} DeadIsSilent(c: Config, tr: seq<State>, steps: seq<Step>, i: nat)
    requires Path(c, tr, steps) && Inv(c, tr[0]) && tr[0].dead && i < |steps|
    requires forall k :: 0 <= k <= i ==> !Launches(tr[k], steps[k])
    ensures !steps[i].PumpSend? && Silent(tr[i])
  {
    SilentUntil(c, tr, steps, i);
    Invariant(c, tr, steps, i);
    if IsPump(steps[i]) {
      PumpIsLast(c, tr[i], tr[i+1], steps[i]);
    }
  }

  lemma {:induction false} SilentUntil(c: Config, tr: seq<State>, steps: seq<Step>, i: nat)
    requires Path(c, tr, steps) && Inv(c, tr[0]) && tr[0].dead && i < |tr|
    requires forall k :: 0 <= k < i ==> !Launches(tr[k], steps[k])
    ensures Silent(tr[i])
  {
    if i > 0 {
      SilentUntil(c, tr, steps, i - 1);
      Invariant(c, tr, steps, i - 1);
      SilentStep(c, tr[i-1], tr[i], steps[i-1]);
    }
  }

  lemma SilentStep(c: Config, s: State, t: State, step: Step)
    requires Inv(c, s) && Silent(s) && NextStep(c, s, t, step) && !Launches(s, step)
    ensures Silent(t)
  {
    if IsPump(step) {
      PumpIsLast(c, s, t, step);
    } else if step.OpStep? {
      OpKeepsShape(c, s, t);
    }
  }

  /** The flag is exact between calls: a ticker's says whether it was stopped; a one-shot
      feed's says that no fire can arrive any more, except in the window between a
      delivery and the pump's dieIf. */
  lemma FlagIsExact(c: Config, tr: seq<State>, steps: seq<Step>, i: nat)
    requires c.managed && Run(c, tr, steps) && i < |tr| && tr[i].op.Idle?
    ensures !c.once ==> (tr[i].dead <==> tr[i].cur.None?)
    ensures c.once && !Last(tr[i]).pc.Delivered? && !Last(tr[i]).pc.InDieIf? ==>
      (tr[i].dead <==> tr[i].flow.timer.None? && tr[i].flow.src.None? && Hand(tr[i]).None?)
  {
    InitHolds(c, tr[0]);
    Invariant(c, tr, steps, i);
  }

  /** The newest pump at moment `i` sent the fire of the current schedule at moment `j`, and the
      schedule and the pump have stayed. */
  predicate SentAt(tr: seq<State>, steps: seq<Step>, i: nat, j: nat)
    requires i < |tr| == |steps| + 1
  {
    && j < i && |tr[j].pumps| == |tr[i].pumps| > 0 && steps[j] == PumpSend(|tr[i].pumps| - 1)
    && Last(tr[j]).pc == Holding(tr[i].flow.gen) && tr[j].flow.gen == tr[i].flow.gen
  }

  predicate PastSending(s: State) {
    Last(s).pc.Delivered? || Last(s).pc.InDieIf?
  }

  lemma PastSendingStep(c: Config, s: State, t: State, step: Step)
    requires Inv(c, s) && NextStep(c, s, t, step) && PastSending(t)
    ensures |t.pumps| == |s.pumps| > 0 && t.flow.gen == s.flow.gen
    ensures PastSending(s) || (c.once && step == PumpSend(|s.pumps| - 1) && Last(s).pc == Holding(s.flow.gen))
  {
    if IsPump(step) { PumpIsLast(c, s, t, step); }
  }

  lemma {:induction false} SentBefore(c: Config, tr: seq<State>, steps: seq<Step>, i: nat) returns (j: nat)
    requires Run(c, tr, steps) && i < |tr| && PastSending(tr[i])
    ensures SentAt(tr, steps, i, j)
  {
    InitHolds(c, tr[0]);
    Invariant(c, tr, steps, i - 1);
    PastSendingStep(c, tr[i-1], tr[i], steps[i-1]);
    if PastSending(tr[i-1]) { j := SentBefore(c, tr, steps, i - 1); } else { j := i - 1; }
  }

  /** Whenever in a run a pump's dieIf raises the flag, that pump is the newest one, no call has
      retired it, and it has sent the fire of the schedule that is still the current one. */
  lemma DieIfIsForTheLiving(c: Config, tr: seq<State>, steps: seq<Step>, i: nat) returns (j: nat)
    requires Run(c, tr, steps) && i < |steps| && steps[i].PumpDie? && tr[i+1].dead != tr[i].dead
    ensures steps[i].p == |tr[i].pumps| - 1 && tr[i].cur == Some(steps[i].p) && SentAt(tr, steps, i, j)
  {
    InitHolds(c, tr[0]);
    Invariant(c, tr, steps, i);
    PumpIsLast(c, tr[i], tr[i+1], steps[i]);
    j := SentBefore(c, tr, steps, i);
  }

  /** The pump is there, is not the live one, and is not about to become it. */
  predicate Retired(s: State, p: nat) {
    p < |s.pumps| && s.cur != Some(p) && !(s.op.StartArm? && p == |s.pumps| - 1)
  }

  /** A pump that some call retired never touches the flag again, however the run goes on. */
  lemma {:induction false} RetiredNeverKills(c: Config, tr: seq<State>, steps: seq<Step>, p: nat, i: nat)
    requires Path(c, tr, steps) && Inv(c, tr[0]) && Retired(tr[0], p) && i < |tr|
    ensures Retired(tr[i], p)
    ensures i < |steps| && steps[i] == PumpDie(p) ==> tr[i+1].dead == tr[i].dead
  {
    hide Inv, NextStep, Retired;
    if i > 0 {
      RetiredNeverKills(c, tr, steps, p, i - 1);
      Invariant(c, tr, steps, i - 1);
      RetiredStep(c, tr[i-1], tr[i], steps[i-1], p);
    }
    if i < |steps| { RetiredDie(c, tr[i], tr[i+1], steps[i], p); }
  }

  lemma RetiredStep(c: Config, s: State, t: State, step: Step, p: nat)
    requires Inv(c, s) && NextStep(c, s, t, step) && Retired(s, p)
    ensures Retired(t, p)
  {
    hide Conserved, Fresh, Flag, OneShot, Ledger, PumpNext;
  }

  lemma RetiredDie(c: Config, s: State, t: State, step: Step, p: nat)
    requires NextStep(c, s, t, step) && Retired(s, p)
    ensures step == PumpDie(p) ==> t.dead == s.dead
  {
    hide PumpNext;
  }

  // ---- Progress ---------------------------------------------------------------------

  predicate Internal(step: Step) {
    step.OpStep? || IsPump(step)
  }

  /** No deadlock: while a call is under way, the call itself or the pump can move. */
  lemma NoDeadlock(c: Config, s: State)
    requires Inv(c, s) && !s.op.Idle?
    ensures exists t, step :: Internal(step) && NextStep(c, s, t, step)
  {
    if OpTo(c, s).Some? {
      assert NextStep(c, s, OpTo(c, s).value, OpStep);
    } else {
      var step, q, w := PumpCanMove(c, s);
      var t := PumpMoved(c, s, step, q, w);
      assert t.pumps[step.p] == q && t.flow == w;
      assert NextStep(c, s, t, step);
    }
  }

  lemma PumpCanMove(c: Config, s: State) returns (step: Step, q: Pump, w: Flow)
    requires Inv(c, s) && !s.op.Idle? && OpTo(c, s).None?
    ensures IsPump(step) && step.p < |s.pumps| && PumpNext(c, s, step, q, w)
  {
    var n, p := |s.pumps| - 1, Last(s);
    w := s.flow;
    match p.pc
    case Selecting => step, q := PumpQuit(n), p.(pc := Returning);
    case Holding(f) =>
      if w.buf.None? {
        step, q, w := PumpSend(n), p.(pc := if c.once then Delivered else Selecting), w.(buf := Some(f));
      } else {
        step, w := PumpDrop(n), w.(discarded := w.discarded + [f]);
        q := if c.once then p.(pc := Returning, dropped := true) else p.(pc := Selecting);
      }
    case Delivered => step, q := PumpLock(n), p.(pc := InDieIf);
    case InDieIf => step, q := PumpDie(n), p.(pc := Returning);
    case Returning => step, q := PumpClose(n), p.(pc := Exited);
    case _ =>
  }

  function OpRank(op: Op): nat {
    match op
    case Idle => 0
    case Return(_, _) => 1
    case StartGo(_, _) => 3
    case StartAlive(_, _) => 4
    case StartArm(_, _) => 5
    case StartLock(_, _) => 6
    case Die(_, _) => 6
    case Drain(_, _, _) => 7
    case RealTimer(_, _) => 8
    case RetireWait(_, _) => 9
    case RetireClose(_, _) => 10
    case RetireSwap(_) => 11
    case RetireLock(_) => 12
  }

  function PumpRank(pc: PumpPc): nat {
    match pc
    case Holding(_) => 7
    case Selecting => 5
    case Delivered => 4
    case InDieIf => 3
    case Returning => 2
    case _ => 0
  }

  /** Work left in the current call and its pump. */
  function Rank(c: Config, s: State): nat {
    20 * OpRank(s.op) + PumpRank(Last(s).pc) + (if s.flow.src.Some? then 4 else 0)
    + (if c.once && s.flow.timer.Some? then 5 else 0)
  }

  function Count(steps: seq<Step>, p: Step -> bool): nat {
    if steps == [] then 0 else Count(steps[..|steps|-1], p) + if p(steps[|steps|-1]) then 1 else 0
  }

  predicate IsTick(step: Step) {
    step.TimerFires?
  }

  lemma PumpRankFalls(c: Config, s: State, t: State, step: Step)
    requires PumpShape(s) && IsPump(step) && NextStep(c, s, t, step)
    ensures Rank(c, t) < Rank(c, s)
  {
    PumpIsLast(c, s, t, step);
    assert PumpNext(c, s, step, Last(t), t.flow);
    assert t.op == s.op && t.flow.timer == s.flow.timer;
  }

  lemma OpRankFalls(c: Config, s: State, t: State)
    requires PumpShape(s) && Phase(s) && OpTo(c, s) == Some(t)
    ensures Rank(c, t) < Rank(c, s)
  {
    assert OpRank(t.op) < OpRank(s.op);
    assert PumpRank(Last(t).pc) <= PumpRank(Last(s).pc) || s.op.StartGo?;
  }

  lemma RankFalls(c: Config, s: State, t: State, step: Step)
    requires Inv(c, s) && NextStep(c, s, t, step) && !step.Begin?
    ensures Internal(step) ==> Rank(c, t) < Rank(c, s)
    ensures !Internal(step) ==> Rank(c, t) <= Rank(c, s) + if c.once || step.Receive? then 0 else 4
  {
    if IsPump(step) {
      PumpRankFalls(c, s, t, step);
    } else if step.OpStep? {
      OpRankFalls(c, s, t);
    }
  }

  /** Every call ends: between two calls the call and its pump take boundedly many steps,
      four more for each tick that arrives meanwhile and none at all for one-shot feeds. */
  lemma {:induction false} CallsEnd(c: Config, tr: seq<State>, steps: seq<Step>)
    requires Path(c, tr, steps) && Inv(c, tr[0])
    requires forall k :: 0 <= k < |steps| ==> !steps[k].Begin?
    ensures Count(steps, Internal) + Rank(c, tr[|steps|])
         <= Rank(c, tr[0]) + if c.once then 0 else 4 * Count(steps, IsTick)
  {
    if steps != [] {
      var n := |steps| - 1;
      CallsEnd(c, tr[..n+1], steps[..n]);
      Invariant(c, tr, steps, n);
      RankFalls(c, tr[n], tr[n+1], steps[n]);
    }
  }
}
