/** What the feed delivers: a fire that is on its way reaches the proxy, in every interleaving, unless a
    call comes between. */
module FeedDelivery {
  import opened Basics
  import opened Feed
  import opened FeedRuns

  ghost predicate Reachable(c: Config, s: State) {
    exists tr, steps :: Run(c, tr, steps) && tr[|steps|] == s
  }

  lemma ReachableHolds(c: Config, s: State)
    requires Reachable(c, s)
    ensures Inv(c, s)
  {
    hide Inv;
    var tr, steps :| Run(c, tr, steps) && tr[|steps|] == s;
    RunStarts(c, tr, steps);
    Invariant(c, tr, steps, |steps|);
  }

  lemma RunStarts(c: Config, tr: seq<State>, steps: seq<Step>)
    requires Run(c, tr, steps)
    ensures |tr| == |steps| + 1 && Path(c, tr, steps) && Inv(c, tr[0])
  {
    InitHolds(c, tr[0]);
  }

  // ---- What is discarded, and when ----------------------------------------------------------------

  /** The call's own steps that discard: stopping the real timer, and draining the proxy. */
  predicate Discarding(op: Op) { op.RealTimer? || op.Drain? }

  /** In a run a fire is discarded by a call; by the real ticker, when its last tick is still
      uncollected; or by the pump that holds it: a ticker's only when the proxy is full, a one-shot
      feed's only when a call waits for it to end. */
  lemma WhyDiscarded(c: Config, tr: seq<State>, steps: seq<Step>, i: nat)
    requires Run(c, tr, steps) && i < |steps| && tr[i+1].flow.discarded != tr[i].flow.discarded
    ensures steps[i] == OpStep ==> Discarding(tr[i].op)
    ensures steps[i] == TimerFires ==> !c.once && tr[i].flow.src.Some?
    ensures steps[i] != OpStep && steps[i] != TimerFires ==>
      && Hand(tr[i]).Some? && tr[i+1].flow.discarded == tr[i].flow.discarded + [Hand(tr[i]).value]
      && if c.once then tr[i].op.RetireWait? else tr[i].flow.buf.Some?
  {
    RunStarts(c, tr, steps);
    Invariant(c, tr, steps, i);
    DiscardStep(c, tr[i], tr[i+1], steps[i]);
  }

  lemma DiscardStep(c: Config, s: State, t: State, step: Step)
    requires Inv(c, s) && NextStep(c, s, t, step) && t.flow.discarded != s.flow.discarded
    ensures step == OpStep ==> Discarding(s.op)
    ensures step == TimerFires ==> !c.once && s.flow.src.Some?
    ensures step != OpStep && step != TimerFires ==>
      && Hand(s).Some? && t.flow.discarded == s.flow.discarded + [Hand(s).value]
      && if c.once then s.op.RetireWait? else s.flow.buf.Some?
  {
    hide Conserved, Fresh, Flag, OneShot, Ledger;
    if IsPump(step) { PumpIsLast(c, s, t, step); }
  }

  // ---- From the timer to the source ------------------------------------------------------------------

  /** A pending timer can expire at any moment. The fire is then in the source, and nothing is lost,
      if the source is empty, as it always is in a one-shot feed. */
  lemma Expires(c: Config, s: State) returns (t: State)
    requires Reachable(c, s) && s.flow.timer.Some?
    ensures NextStep(c, s, t, TimerFires)
    ensures c.once ==> s.flow.src.None?
    ensures s.flow.src.None? ==> t.flow.src == s.flow.timer && t.flow.discarded == s.flow.discarded
    ensures t.flow.buf == s.flow.buf && t.flow.received == s.flow.received && t.pumps == s.pumps && t.op == s.op
    ensures t.cur == s.cur
  {
    ReachableHolds(c, s);
    if c.once { OneLive(s.flow, Hand(s)); }
    t := s.(flow := Expired(c, s.flow));
  }

  // ---- From the source to the proxy --------------------------------------------------------------------

  /** No call is under way, and the feed's pump is at work. */
  predicate Running(s: State) {
    s.op.Idle? && s.cur.Some? && (Last(s).pc.Selecting? || Last(s).pc.Holding?)
  }

  /** `f` is the next the pump is to send: in its hand, or in the source with its hand empty. */
  predicate Next(s: State, f: nat) {
    Hand(s) == Some(f) || (Hand(s).None? && s.flow.src == Some(f))
  }

  function Stage(s: State, f: nat): nat {
    if s.flow.buf == Some(f) || f in s.flow.received then 2 else if Hand(s) == Some(f) then 1 else 0
  }

  /** On its way: still to be sent, with room for it, or in the proxy, or received. */
  predicate OnItsWay(s: State, f: nat) {
    s.op.Idle? && (Stage(s, f) == 2 || (Running(s) && Next(s, f) && s.flow.buf.None?))
  }

  lemma OnItsWayStep(c: Config, s: State, t: State, step: Step, f: nat)
    requires Inv(c, s) && OnItsWay(s, f) && NextStep(c, s, t, step) && !step.Begin?
    ensures OnItsWay(t, f) && Stage(t, f) >= Stage(s, f)
    ensures IsPump(step) && Stage(s, f) < 2 ==> Stage(t, f) > Stage(s, f)
  {
    hide Conserved, Fresh, Flag, Ledger;
    if c.once { LiveOne(c, s); }
    if IsPump(step) { PumpIsLast(c, s, t, step); }
  }

  lemma LiveOne(c: Config, s: State)
    requires c.once && Inv(c, s)
    ensures s.flow.timer.Some? ==> s.flow.src.None?
    ensures Hand(s).Some? ==> s.flow.timer.None? && s.flow.src.None?
  {
    OneLive(s.flow, Hand(s));
  }

  /** However the timer, the receivers and the pump go on: a fire on its way is never lost while no call
      begins, and two steps of the pump put it in the proxy. */
  lemma {:induction false} NeverLost(c: Config, tr: seq<State>, steps: seq<Step>, i: nat, f: nat)
    requires Path(c, tr, steps) && Reachable(c, tr[0]) && OnItsWay(tr[0], f) && i < |tr|
    requires forall k :: 0 <= k < i ==> !steps[k].Begin?
    ensures OnItsWay(tr[i], f)
    ensures Stage(tr[i], f) >= 2 || Stage(tr[i], f) >= Count(steps[..i], IsPump)
    decreases i
  {
    hide OnItsWay, Stage, NextStep, Inv, Reachable;
    ReachableHolds(c, tr[0]);
    if i > 0 {
      NeverLost(c, tr, steps, i - 1, f);
      Invariant(c, tr, steps, i - 1);
      assert steps[..i][..i - 1] == steps[..i - 1] && steps[..i][i - 1] == steps[i - 1];
      OnItsWayStep(c, tr[i - 1], tr[i], steps[i - 1], f);
      StageBound(tr[i - 1], f);
      StageBound(tr[i], f);
    }
  }

  lemma StageBound(s: State, f: nat)
    ensures Stage(s, f) <= 2
  {
  }

  /** And the pump has such a step: from every reachable state between calls, with the proxy empty and
      a fire next, its steps alone put exactly that fire in the proxy. */
  lemma Delivers(c: Config, s: State, f: nat) returns (tr: seq<State>, steps: seq<Step>)
    requires Reachable(c, s) && Running(s) && Next(s, f) && s.flow.buf.None?
    ensures Path(c, tr, steps) && tr[0] == s && forall k :: 0 <= k < |steps| ==> IsPump(steps[k])
    ensures var t := tr[|steps|];
      && t.flow == s.flow.(buf := Some(f), src := if Hand(s).None? then None else s.flow.src)
      && t.op.Idle? && t.cur == s.cur
  {
    ReachableHolds(c, s);
    var n := |s.pumps| - 1;
    assert PumpShape(s) && n >= 0;
    tr, steps := [s], [];
    var r := s;
    if Hand(s).None? {
      var q := Last(s).(pc := Holding(f));
      r := PumpMoved(c, s, PumpTake(n), q, s.flow.(src := None));
      assert r.pumps[n] == q;
      assert NextStep(c, s, r, PumpTake(n));
      tr, steps := [s, r], [PumpTake(n)];
    }
    var q := Last(r).(pc := if c.once then Delivered else Selecting);
    var t := PumpMoved(c, r, PumpSend(n), q, r.flow.(buf := Some(f)));
    assert t.pumps[n] == q;
    assert NextStep(c, r, t, PumpSend(n));
    tr, steps := tr + [t], steps + [PumpSend(n)];
  }

  // ---- From the timer to a receiver --------------------------------------------------------------------

  lemma ReachableStep(c: Config, s: State, t: State, step: Step)
    requires Reachable(c, s) && NextStep(c, s, t, step)
    ensures Reachable(c, t)
  {
    hide NextStep, Init;
    var tr, steps :| Run(c, tr, steps) && tr[|steps|] == s;
    var tr', steps' := tr + [t], steps + [step];
    forall i | 0 <= i < |steps'| ensures NextStep(c, tr'[i], tr'[i+1], steps'[i]) {
      if i < |steps| { assert NextStep(c, tr[i], tr[i+1], steps[i]); }
    }
    assert Run(c, tr', steps');
  }

  lemma PathThen(c: Config, a: seq<State>, x: seq<Step>, b: seq<State>, y: seq<Step>)
    requires Path(c, a, x) && Path(c, b, y) && a[|x|] == b[0]
    ensures Path(c, a + b[1..], x + y) && (a + b[1..])[0] == a[0] && (a + b[1..])[|x + y|] == b[|y|]
  {
    hide NextStep;
    var tr, steps := a + b[1..], x + y;
    forall i | 0 <= i < |steps| ensures NextStep(c, tr[i], tr[i+1], steps[i]) {
      if i < |x| {
        assert NextStep(c, a[i], a[i+1], x[i]);
      } else {
        var j := i - |x|;
        assert NextStep(c, b[j], b[j+1], y[j]);
      }
    }
  }

  lemma OneStep(c: Config, s: State, t: State, step: Step)
    requires NextStep(c, s, t, step)
    ensures Path(c, [s, t], [step])
  {
  }

  lemma Collects(c: Config, s: State) returns (t: State)
    requires s.flow.buf.Some?
    ensures NextStep(c, s, t, Receive) && t.flow.received == s.flow.received + [s.flow.buf.value]
  {
    t := s.(flow := Collected(s.flow));
  }

  predicate NoBegin(steps: seq<Step>) {
    forall k :: 0 <= k < |steps| ==> !steps[k].Begin? && !steps[k].OpStep?
  }

  /** A feed that is alive can still deliver: from every reachable state between calls with the pump at
      work the timer, the pump and a receiver alone bring a receiver one more fire. */
  lemma AliveDelivers(c: Config, s: State) returns (tr: seq<State>, steps: seq<Step>, f: nat)
    requires Reachable(c, s) && Running(s)
    ensures Path(c, tr, steps) && tr[0] == s && NoBegin(steps)
    ensures tr[|steps|].flow.received == s.flow.received + [f]
    decreases if s.flow.buf.None? && Hand(s).None? && s.flow.src.None? then 1 else 0
  {
    hide NextStep, Reachable, Path, Inv;
    if s.flow.buf.Some? {
      var t := Collects(c, s);
      OneStep(c, s, t, Receive);
      tr, steps, f := [s, t], [Receive], s.flow.buf.value;
    } else if Hand(s).Some? || s.flow.src.Some? {
      f := if Hand(s).Some? then Hand(s).value else s.flow.src.value;
      var a, x := Delivers(c, s, f);
      PathLong(c, a, x);
      var t := Collects(c, a[|x|]);
      OneStep(c, a[|x|], t, Receive);
      PathThen(c, a, x, [a[|x|], t], [Receive]);
      tr, steps := a + [a[|x|], t][1..], x + [Receive];
    } else {
      ReachableHolds(c, s);
      Scheduled(c, s);
      var t := Expires(c, s);
      ReachableStep(c, s, t, TimerFires);
      var b, y;
      b, y, f := AliveDelivers(c, t);
      OneStep(c, s, t, TimerFires);
      PathLong(c, b, y);
      PathThen(c, [s, t], [TimerFires], b, y);
      tr, steps := [s, t] + b[1..], [TimerFires] + y;
    }
  }

  lemma PathLong(c: Config, tr: seq<State>, steps: seq<Step>)
    requires Path(c, tr, steps)
    ensures |tr| == |steps| + 1
  {
  }

  lemma Scheduled(c: Config, s: State)
    requires Inv(c, s) && Running(s) && Hand(s).None? && s.flow.src.None?
    ensures s.flow.timer.Some?
  {
    hide Conserved, Fresh, Flag, Ledger;
  }

  // ---- Calls go through -----------------------------------------------------------------------------

  predicate AllInternal(steps: seq<Step>) {
    forall k :: 0 <= k < |steps| ==> Internal(steps[k])
  }

  lemma OwnOrPump(c: Config, s: State) returns (t: State, step: Step)
    requires Inv(c, s) && !s.op.Idle?
    ensures Internal(step) && NextStep(c, s, t, step) && (OpTo(c, s).Some? ==> step == OpStep)
  {
    hide Inv, PumpNext;
    if OpTo(c, s).Some? {
      t, step := OpTo(c, s).value, OpStep;
    } else {
      NoDeadlock(c, s);
      t, step :| Internal(step) && NextStep(c, s, t, step);
    }
  }

  /** What the call leaves behind: after a Stop nothing is on its way; otherwise the new pump waits for a
      fire. */
  predicate Left(call: Call, t: State) {
    t.op.Idle? && if call.Stop? then Quiet(t) else Running(t)
  }

  /** The end of a call is in sight: it has returned, or is about to start the new pump. */
  predicate Ready(s: State) {
    s.op.Return? && !s.op.call.Stop? ==> Last(s).pc.Selecting?
  }

  lemma CallStep(c: Config, s: State, t: State, step: Step)
    requires Inv(c, s) && Ready(s) && !s.op.Idle? && Internal(step) && NextStep(c, s, t, step)
    requires OpTo(c, s).Some? ==> step == OpStep
    ensures if t.op.Idle? then Left(s.op.call, t) else t.op.call == s.op.call && Ready(t)
  {
    hide Conserved, OneShot, Ledger, Flag, PumpNext;
  }

  /** A call under way comes to its end, by its own steps and the pump's alone. */
  lemma {:induction false} CallGoesOn(c: Config, s: State) returns (tr: seq<State>, steps: seq<Step>)
    requires Inv(c, s) && Ready(s) && !s.op.Idle?
    ensures Path(c, tr, steps) && tr[0] == s && AllInternal(steps) && Left(s.op.call, tr[|steps|])
    decreases Rank(c, s)
  {
    hide Inv, NextStep, Path, Ready, Left, Rank, Internal;
    var t, step := OwnOrPump(c, s);
    assert !step.Begin? by { NotBegin(step); }
    RankFalls(c, s, t, step);
    CallStep(c, s, t, step);
    Keeps(c, s, t, step);
    OneStep(c, s, t, step);
    if t.op.Idle? {
      tr, steps := [s, t], [step];
    } else {
      var b, y := CallGoesOn(c, t);
      PathLong(c, b, y);
      PathThen(c, [s, t], [step], b, y);
      tr, steps := [s, t] + b[1..], [step] + y;
    }
  }

  lemma NotBegin(step: Step)
    requires Internal(step)
    ensures !step.Begin?
  {
  }

  /** Between calls Stop and Reset can begin at any moment and come to their end without any help from
      the timer or a receiver: after a Stop nothing is on its way, after a Reset the pump waits for a
      fire. */
  lemma CallCompletes(c: Config, s: State, call: Call) returns (tr: seq<State>, steps: seq<Step>)
    requires Reachable(c, s) && s.op.Idle? && !call.Create?
    ensures Path(c, tr, steps) && |steps| > 1 && tr[0] == s && steps[0] == Begin(call) && AllInternal(steps[1..])
    ensures Left(call, tr[|steps|])
  {
    hide Inv, Path, Reachable, Left;
    ReachableHolds(c, s);
    var r := s.(op := RetireLock(call), mark := |s.flow.discarded|);
    assert NextStep(c, s, r, Begin(call));
    Keeps(c, s, r, Begin(call));
    OneStep(c, s, r, Begin(call));
    var b, y := CallGoesOn(c, r);
    PathLong(c, b, y);
    LeftIdle(call, b[|y|]);
    PathThen(c, [s, r], [Begin(call)], b, y);
    tr, steps := [s, r] + b[1..], [Begin(call)] + y;
    assert steps[1..] == y;
  }

  lemma LeftIdle(call: Call, t: State)
    requires Left(call, t)
    ensures t.op.Idle?
  {
  }
}
