/** Runs of the caches: packages load, requirement sets and signature sets are asked for, in any
    order. */
module InterfaceRuns {
  import opened TypeGraph
  import opened InterfaceWalk
  import opened InterfaceCache

  datatype State = State(world: World, reqs: map<Id, set<string>>, sigs: map<Id, map<string, Sig>>)
  datatype Op = Load(w: World) | Reqs(td: Id) | Sigs(td: Id)

  /** The operation is possible: loading only adds, and one asks for loaded typedefs. */
  predicate Possible(s: State, op: Op) {
    Sound(s.world) && match op
      case Load(w) => Sound(w) && Grows(s.world, w)
      case Reqs(td) => td in s.world.defs
      case Sigs(td) => td in s.world.defs
  }

  function ReqAnswer(s: State, td: Id): set<string>
    requires Possible(s, Reqs(td))
  {
    if td in s.reqs then s.reqs[td] else Requirements(s.world, td)
  }

  function SigAnswer(s: State, td: Id): map<string, Sig>
    requires Possible(s, Sigs(td))
  {
    if td in s.sigs then s.sigs[td] else Signatures(s.world, td)
  }

  function Next(s: State, op: Op): State
    requires Possible(s, op)
  {
    match op
    case Load(w) => s.(world := w)
    case Reqs(td) =>
      if td in s.reqs || !Visit(s.world, td, {}).1 then s else s.(reqs := s.reqs[td := ReqAnswer(s, td)])
    case Sigs(td) =>
      if td in s.sigs || !Visit(s.world, td, {}).1 then s else s.(sigs := s.sigs[td := SigAnswer(s, td)])
  }

  predicate PossibleRun(s: State, ops: seq<Op>)
    decreases |ops|
  {
    ops != [] ==> Possible(s, ops[0]) && PossibleRun(Next(s, ops[0]), ops[1..])
  }

  /** The answer is what a fresh walk would give at that moment. */
  predicate Current(s: State, op: Op)
    requires Possible(s, op)
  {
    match op
    case Load(_) => true
    case Reqs(td) => ReqAnswer(s, td) == Requirements(s.world, td)
    case Sigs(td) => SigAnswer(s, td) == Signatures(s.world, td)
  }

  /** Every answer of the run is. */
  predicate AnswersCurrent(s: State, ops: seq<Op>)
    requires PossibleRun(s, ops)
    decreases |ops|
  {
    ops != [] ==> Current(s, ops[0]) && AnswersCurrent(Next(s, ops[0]), ops[1..])
  }

  /** The operation stores no set while an alias on its way waits for its target. */
  predicate Unstuck(s: State, op: Op)
    requires Possible(s, op)
  {
    !op.Load? && Visit(s.world, op.td, {}).1 ==> NoStuckAlias(s.world, op.td)
  }

  /** Nor does any of the run. */
  predicate NeverStuck(s: State, ops: seq<Op>)
    requires PossibleRun(s, ops)
    decreases |ops|
  {
    ops != [] ==> Unstuck(s, ops[0]) && NeverStuck(Next(s, ops[0]), ops[1..])
  }

  predicate Settled(w: World, td: Id)
    requires Sound(w)
  {
    td in w.defs && Visit(w, td, {}).1 && NoStuckAlias(w, td)
  }

  predicate Holds(s: State) {
    && Sound(s.world)
    && (forall td :: td in s.reqs ==> Settled(s.world, td) && s.reqs[td] == Requirements(s.world, td))
    && (forall td :: td in s.sigs ==> Settled(s.world, td) && s.sigs[td] == Signatures(s.world, td))
  }

  lemma NextHolds(s: State, op: Op)
    requires Holds(s) && Possible(s, op) && Unstuck(s, op)
    ensures Holds(Next(s, op)) && Current(s, op)
  {
    hide Visit, NoStuckAlias, Requirements, Signatures;
    if op.Load? {
      forall td | td in s.reqs || td in s.sigs
        ensures Settled(op.w, td)
        ensures Requirements(op.w, td) == Requirements(s.world, td) && Signatures(op.w, td) == Signatures(s.world, td)
      {
        SettledForever(s.world, op.w, td);
      }
    }
  }

  /** In every run that stores no set while an alias waits, every answer is current. */
  lemma {:induction false} RunsAnswerCurrent(s: State, ops: seq<Op>)
    requires Holds(s) && PossibleRun(s, ops) && NeverStuck(s, ops)
    ensures AnswersCurrent(s, ops)
    decreases |ops|
  {
    hide Holds, Unstuck, Current, Next;
    if ops != [] {
      NextHolds(s, ops[0]);
      RunsAnswerCurrent(Next(s, ops[0]), ops[1..]);
    }
  }

  /** A set stored while an alias waits is answered again when it is no longer right. */
  lemma StoredTooEarly(s: State, op: Op) returns (ops: seq<Op>)
    requires Possible(s, op) && !Unstuck(s, op) && (if op.Reqs? then op.td !in s.reqs else op.td !in s.sigs)
    ensures |ops| > 0 && ops[0] == op && PossibleRun(s, ops) && !AnswersCurrent(s, ops)
  {
    hide Visit, NoStuckAlias, Requirements, Signatures;
    var w' := UnsettledGrows(s.world, op.td);
    var s1 := Next(s, op);
    var s2 := Next(s1, Load(w'));
    OneMore(s2, op, []);
    OneMore(s1, Load(w'), [op]);
    OneMore(s, op, [Load(w'), op]);
    ops := [op] + [Load(w'), op];
  }

  lemma OneMore(s: State, op: Op, rest: seq<Op>)
    requires Possible(s, op) && PossibleRun(Next(s, op), rest)
    ensures PossibleRun(s, [op] + rest)
    ensures AnswersCurrent(s, [op] + rest) <==> Current(s, op) && AnswersCurrent(Next(s, op), rest)
  {
    hide Current, Next, Possible;
    assert ([op] + rest)[1..] == rest;
  }
}
