/** The stage-condition machine shared by the multi-stage reconcilers
    (images/controller/internal/controller/shared.go). */
module Stages {
  import opened Wrappers

  const READY := "Ready"
  const REASON_READY := "Ready"
  const REASON_IN_PROGRESS := "InProgress"
  const REASON_ERROR := "Error"
  const REASON_WAITING := "WaitingForPrev"

  /** Unknown is a third value other controllers may write. */
  datatype Truth = True | False | Unknown

  datatype Condition = Condition(typ: string, status: Truth, reason: string, message: string, generation: int)

  datatype Phase = PhasePending | PhaseError | PhaseInProgress | PhaseReady

  // --- Conditions on an object ---------------------------------------------------------

  /** `apimeta.FindStatusCondition`. */
  function Find(cs: seq<Condition>, typ: string): Option<Condition> {
    if cs == [] then None else if cs[0].typ == typ then Some(cs[0]) else Find(cs[1..], typ)
  }

  /** `apimeta.SetStatusCondition`: replace the first of that type, or append. */
  function SetStatusCondition(cs: seq<Condition>, c: Condition): seq<Condition> {
    if cs == [] then [c]
    else if cs[0].typ == c.typ then [c] + cs[1..]
    else [cs[0]] + SetStatusCondition(cs[1..], c)
  }

  /** Flushing a builder onto the object, in order. */
  function Flush(cs: seq<Condition>, written: seq<Condition>): seq<Condition>
    decreases written
  {
    if written == [] then cs else Flush(SetStatusCondition(cs, written[0]), written[1..])
  }

  lemma {:induction false} FindAfterSet(cs: seq<Condition>, c: Condition, typ: string)
    ensures Find(SetStatusCondition(cs, c), typ) == if typ == c.typ then Some(c) else Find(cs, typ)
  {
    if cs != [] && cs[0].typ != c.typ {
      FindAfterSet(cs[1..], c, typ);
    }
  }

  /** The last condition of a type in a builder. */
  function Last(written: seq<Condition>, typ: string): Option<Condition> {
    if written == [] then None
    else if written[|written| - 1].typ == typ then Some(written[|written| - 1])
    else Last(written[..|written| - 1], typ)
  }

  lemma {:induction false} FindAfterFlush(cs: seq<Condition>, written: seq<Condition>, typ: string)
    ensures Find(Flush(cs, written), typ) == if Last(written, typ).Some? then Last(written, typ) else Find(cs, typ)
    decreases written
  {
    if written != [] {
      FindAfterSet(cs, written[0], typ);
      FindAfterFlush(SetStatusCondition(cs, written[0]), written[1..], typ);
      LastOfCons(written[0], written[1..], typ);
      assert written == [written[0]] + written[1..];
    }
  }

  lemma {:induction false} LastOfCons(c: Condition, rest: seq<Condition>, typ: string)
    ensures Last([c] + rest, typ) == if Last(rest, typ).Some? then Last(rest, typ) else if c.typ == typ then Some(c)
            else None
  {
    if rest == [] {
      assert [c] + rest == [c] && [c][..0] == [];
    } else {
      assert ([c] + rest)[..|rest|] == [c] + rest[..|rest| - 1];
      LastOfCons(c, rest[..|rest| - 1], typ);
    }
  }

  // --- The builder ------------------------------------------------------------------------

  /** How a stage ended. `Blocked` is a reconciler's own reason for a stage that is not done. */
  datatype Outcome =
    | Done(message: string)
    | InProgress(message: string)
    | Failed(error: string)
    | Blocked(reason: string, message: string)

  predicate IsStageOrder(order: seq<string>) {
    && READY !in order
    && forall i, j :: 0 <= i < j < |order| ==> order[i] != order[j]
  }

  function StageCondition(stage: string, o: Outcome, generation: int): Condition {
    match o
    case Done(m) => Condition(stage, True, REASON_READY, m, generation)
    case InProgress(m) => Condition(stage, False, REASON_IN_PROGRESS, m, generation)
    case Failed(e) => Condition(stage, False, REASON_ERROR, e, generation)
    case Blocked(r, m) => Condition(stage, False, r, m, generation)
  }

  function Gate(typ: string, after: string, generation: int): Condition {
    Condition(typ, False, REASON_WAITING, "waiting for " + after, generation)
  }

  function Gates(order: seq<string>, after: string, generation: int): seq<Condition> {
    seq(|order|, i requires 0 <= i < |order| => Gate(order[i], after, generation))
  }

  /** The stages strictly after the first occurrence of one; none when it does not occur. */
  function Later(order: seq<string>, stage: string): seq<string> {
    if order == [] then [] else if order[0] == stage then order[1..] else Later(order[1..], stage)
  }

  lemma {:induction false} LaterAt(order: seq<string>, k: nat)
    requires k < |order| && forall i :: 0 <= i < k ==> order[i] != order[k]
    ensures Later(order, order[k]) == order[k + 1..]
  {
    if k > 0 {
      LaterAt(order[1..], k - 1);
    }
  }

  lemma {:induction false} LaterOfAbsent(order: seq<string>, stage: string)
    requires stage !in order
    ensures Later(order, stage) == []
  {
    if order != [] {
      LaterOfAbsent(order[1..], stage);
    }
  }

  /** What gating writes after a stage that is not done. */
  function GatedAfter(order: seq<string>, stage: string, generation: int): seq<Condition> {
    Gates(Later(order, stage), stage, generation) + [Gate(READY, stage, generation)]
  }

  function Written(order: seq<string>, stage: string, outcome: Outcome, generation: int): seq<Condition> {
    [StageCondition(stage, outcome, generation)] + if outcome.Done? then [] else GatedAfter(order, stage, generation)
  }

  /** The first stage that is not done; the number of stages when all are. */
  function Stop(outcomes: seq<Outcome>): (n: nat)
    ensures n <= |outcomes| && (forall j :: 0 <= j < n ==> outcomes[j].Done?) && (n < |outcomes| ==> !outcomes[n].Done?)
  {
    if outcomes == [] || !outcomes[0].Done? then 0 else 1 + Stop(outcomes[1..])
  }

  lemma Append3(a: seq<Condition>, b: seq<Condition>, c: seq<Condition>)
    ensures a + b + c == a + (b + c)
  {
  }

  lemma DoneUpToNext(was: seq<Condition>, order: seq<string>, outcomes: seq<Outcome>, n: nat, generation: int)
    requires n < |order| == |outcomes| && outcomes[n].Done?
    ensures was + DoneUpTo(order, outcomes, n + 1, generation) ==
            was + DoneUpTo(order, outcomes, n, generation) + Written(order, order[n], outcomes[n], generation)
  {
    assert DoneUpTo(order, outcomes, n + 1, generation) ==
           DoneUpTo(order, outcomes, n, generation) + [StageCondition(order[n], outcomes[n], generation)];
  }

  lemma ScriptAt(order: seq<string>, outcomes: seq<Outcome>, n: nat, generation: int)
    requires n <= |order| == |outcomes|
    requires (forall j :: 0 <= j < n ==> outcomes[j].Done?) && (n < |outcomes| ==> !outcomes[n].Done?)
    ensures Script(order, outcomes, generation) ==
            DoneUpTo(order, outcomes, n, generation)
            + if n == |order| then [Condition(READY, True, REASON_READY, "All stages reconciled", generation)]
              else Written(order, order[n], outcomes[n], generation)
  {
    StopIs(outcomes, n);
  }

  lemma StopIs(outcomes: seq<Outcome>, n: nat)
    requires n <= |outcomes| && (forall j :: 0 <= j < n ==> outcomes[j].Done?)
             && (n < |outcomes| ==> !outcomes[n].Done?)
    ensures Stop(outcomes) == n
  {
  }

  function DoneUpTo(order: seq<string>, outcomes: seq<Outcome>, n: nat, generation: int): seq<Condition>
    requires n <= |order| == |outcomes|
  {
    seq(n, i requires 0 <= i < n => StageCondition(order[i], outcomes[i], generation))
  }

  /** Everything a reconcile writes. */
  function Script(order: seq<string>, outcomes: seq<Outcome>, generation: int): seq<Condition>
    requires |order| == |outcomes|
  {
    var n := Stop(outcomes);
    DoneUpTo(order, outcomes, n, generation)
    + if n == |order| then [Condition(READY, True, REASON_READY, "All stages reconciled", generation)]
      else Written(order, order[n], outcomes[n], generation)
  }

  class StatusBuilder {
    const generation: int
    var conditions: seq<Condition>

    constructor (generation: int)
      ensures this.generation == generation && conditions == []
    {
      this.generation := generation;
      conditions := [];
    }

    method SetCondition(typ: string, status: Truth, reason: string, message: string)
      modifies this
      ensures conditions == old(conditions) + [Condition(typ, status, reason, message, generation)]
    {
      conditions := conditions + [Condition(typ, status, reason, message, generation)];
    }

    /** Every stage strictly after the given one, and the aggregate, become False. */
    method GateAfter(order: seq<string>, afterStage: string)
      modifies this
      ensures conditions == old(conditions) + GatedAfter(order, afterStage, generation)
    {
      var startIdx := -1;
      for i := 0 to |order|
        invariant startIdx == -1 && afterStage !in order[..i]
      {
        if order[i] == afterStage {
          startIdx := i + 1;
          LaterAt(order, i);
          break;
        }
      }
      if startIdx >= 0 {
        var rest := order[startIdx..];
        for i := 0 to |rest|
          invariant conditions == old(conditions) + Gates(rest[..i], afterStage, generation)
        {
          SetCondition(rest[i], False, REASON_WAITING, "waiting for " + afterStage);
          assert Gates(rest[..i + 1], afterStage, generation) ==
                 Gates(rest[..i], afterStage, generation) + [Gate(rest[i], afterStage, generation)];
        }
        assert rest[..|rest|] == rest;
      } else {
        assert order[..|order|] == order;
        LaterOfAbsent(order, afterStage);
      }
      SetCondition(READY, False, REASON_WAITING, "waiting for " + afterStage);
    }

    /** Records one stage and says whether the next may run; a stage that is not done gates the rest. */
    method Advance(order: seq<string>, stage: string, outcome: Outcome) returns (proceed: bool)
      requires !outcome.Blocked?
      modifies this
      ensures proceed == outcome.Done?
      ensures conditions == old(conditions) + Written(order, stage, outcome, generation)
    {
      match outcome {
        case Failed(error) =>
          SetCondition(stage, False, REASON_ERROR, error);
          GateAfter(order, stage);
        case InProgress(message) =>
          SetCondition(stage, False, REASON_IN_PROGRESS, message);
          GateAfter(order, stage);
        case Done(message) =>
          SetCondition(stage, True, REASON_READY, message);
          return true;
      }
      return false;
    }

    /** A stage the reconciler stops at for a reason of its own. */
    method Block(order: seq<string>, stage: string, outcome: Outcome)
      requires outcome.Blocked?
      modifies this
      ensures conditions == old(conditions) + Written(order, stage, outcome, generation)
    {
      SetCondition(stage, False, outcome.reason, outcome.message);
      GateAfter(order, stage);
    }

    /** A reconcile over all stages: it stops at the first that is not done, and claims Ready after
        the last. */
    method Reconcile(order: seq<string>, outcomes: seq<Outcome>)
      requires |outcomes| == |order|
      modifies this
      ensures conditions == old(conditions) + Script(order, outcomes, generation)
    {
      ghost var was := conditions;
      for i := 0 to |order|
        invariant forall j :: 0 <= j < i ==> outcomes[j].Done?
        invariant conditions == was + DoneUpTo(order, outcomes, i, generation)
      {
        var proceed := false;
        if outcomes[i].Blocked? {
          Block(order, order[i], outcomes[i]);
        } else {
          proceed := Advance(order, order[i], outcomes[i]);
        }
        if !proceed {
          ScriptAt(order, outcomes, i, generation);
          Append3(was, DoneUpTo(order, outcomes, i, generation), Written(order, order[i], outcomes[i], generation));
          return;
        }
        DoneUpToNext(was, order, outcomes, i, generation);
      }
      ScriptAt(order, outcomes, |order|, generation);
      SetCondition(READY, True, REASON_READY, "All stages reconciled");
    }

    method AggregateReady() returns (ready: bool)
      ensures ready <==> Last(conditions, READY).Some? && Last(conditions, READY).value.status.True?
    {
      var i := |conditions|;
      assert conditions[..i] == conditions;
      while i > 0
        invariant 0 <= i <= |conditions|
        invariant Last(conditions, READY) == Last(conditions[..i], READY)
      {
        i := i - 1;
        assert conditions[..i + 1][..i] == conditions[..i];
        if conditions[i].typ == READY {
          return conditions[i].status.True?;
        }
      }
      assert conditions[..0] == [];
      return false;
    }
  }

  // --- The phase ---------------------------------------------------------------------------

  predicate IsFalse(cs: seq<Condition>, stage: string) {
    Find(cs, stage).Some? && Find(cs, stage).value.status.False?
  }

  predicate IsError(cs: seq<Condition>, stage: string) {
    IsFalse(cs, stage) && Find(cs, stage).value.reason == REASON_ERROR
  }

  method DerivePhase(cs: seq<Condition>, order: seq<string>) returns (phase: Phase)
    ensures phase.PhasePending? <==> cs == []
    ensures phase.PhaseError? <==> cs != [] && exists i :: 0 <= i < |order| && IsError(cs, order[i])
    ensures phase.PhaseReady? <==> cs != [] && forall i :: 0 <= i < |order| ==> !IsFalse(cs, order[i])
  {
    if |cs| == 0 {
      return PhasePending;
    }
    var hasError, hasFalse := false, false;
    for i := 0 to |order|
      invariant hasError <==> exists j :: 0 <= j < i && IsError(cs, order[j])
      invariant hasFalse <==> exists j :: 0 <= j < i && IsFalse(cs, order[j])
    {
      var c := Find(cs, order[i]);
      if c.None? || !c.value.status.False? {
        continue;
      }
      hasFalse := true;
      if c.value.reason == REASON_ERROR {
        hasError := true;
      }
    }
    if hasError {
      return PhaseError;
    }
    if hasFalse {
      return PhaseInProgress;
    }
    return PhaseReady;
  }

  // --- The shape a reconcile leaves --------------------------------------------------------------

  lemma {:induction false} LastOfDistinct(cs: seq<Condition>, k: nat)
    requires k < |cs| && forall i, j :: 0 <= i < j < |cs| ==> cs[i].typ != cs[j].typ
    ensures Last(cs, cs[k].typ) == Some(cs[k])
  {
    if k < |cs| - 1 {
      LastOfDistinct(cs[..|cs| - 1], k);
    }
  }

  lemma {:induction false} LastOfAbsent(cs: seq<Condition>, typ: string)
    requires forall i :: 0 <= i < |cs| ==> cs[i].typ != typ
    ensures Last(cs, typ) == None
  {
    if cs != [] {
      LastOfAbsent(cs[..|cs| - 1], typ);
    }
  }

  lemma WrittenIs(order: seq<string>, n: nat, outcome: Outcome, generation: int)
    requires IsStageOrder(order) && n < |order| && !outcome.Done?
    ensures Written(order, order[n], outcome, generation) ==
            [StageCondition(order[n], outcome, generation)]
            + (Gates(order[n + 1..], order[n], generation) + [Gate(READY, order[n], generation)])
  {
    LaterAt(order, n);
  }

  /** The script writes one condition per stage, in order, and then Ready. */
  lemma ScriptIs(order: seq<string>, outcomes: seq<Outcome>, generation: int)
    requires IsStageOrder(order) && |outcomes| == |order|
    ensures var s := Script(order, outcomes, generation);
            var n := Stop(outcomes);
            && |s| == |order| + 1
            && (forall i :: 0 <= i < |order| ==>
                  s[i] == if i < n then StageCondition(order[i], outcomes[i], generation)
                          else if i == n then StageCondition(order[n], outcomes[n], generation)
                          else Gate(order[i], order[n], generation))
            && s[|order|] == if n == |order|
                             then Condition(READY, True, REASON_READY, "All stages reconciled", generation)
                             else Gate(READY, order[n], generation)
  {
    var n := Stop(outcomes);
    if n < |order| {
      WrittenIs(order, n, outcomes[n], generation);
      StoppedScriptIs(order, outcomes, generation, Gates(order[n + 1..], order[n], generation));
    }
  }

  lemma StoppedScriptIs(order: seq<string>, outcomes: seq<Outcome>, generation: int, gates: seq<Condition>)
    requires |outcomes| == |order| && Stop(outcomes) < |order|
    requires |gates| == |order| - Stop(outcomes) - 1
    requires forall j :: 0 <= j < |gates| ==>
             gates[j] == Gate(order[Stop(outcomes) + 1 + j], order[Stop(outcomes)], generation)
    requires Written(order, order[Stop(outcomes)], outcomes[Stop(outcomes)], generation) ==
             [StageCondition(order[Stop(outcomes)], outcomes[Stop(outcomes)], generation)]
                 + (gates + [Gate(READY, order[Stop(outcomes)], generation)])
    ensures var s := Script(order, outcomes, generation);
            var n := Stop(outcomes);
            && |s| == |order| + 1
            && (forall i :: 0 <= i < n ==> s[i] == StageCondition(order[i], outcomes[i], generation))
            && s[n] == StageCondition(order[n], outcomes[n], generation)
            && (forall i :: n < i < |order| ==> s[i] == Gate(order[i], order[n], generation))
            && s[|order|] == Gate(READY, order[n], generation)
  {
    var n := Stop(outcomes);
    var s := Script(order, outcomes, generation);
    var d := DoneUpTo(order, outcomes, n, generation);
    ConcatAt(d, StageCondition(order[n], outcomes[n], generation), gates, Gate(READY, order[n], generation), s);
    forall i | n < i < |order| ensures s[i] == Gate(order[i], order[n], generation) {
      assert s[|d| + 1 + (i - n - 1)] == gates[i - n - 1];
    }
  }

  lemma ConcatAt(d: seq<Condition>, c: Condition, gates: seq<Condition>, r: Condition, s: seq<Condition>)
    requires s == d + ([c] + (gates + [r]))
    ensures |s| == |d| + |gates| + 2
    ensures forall i :: 0 <= i < |d| ==> s[i] == d[i]
    ensures s[|d|] == c && s[|d| + 1 + |gates|] == r
    ensures forall j :: 0 <= j < |gates| ==> s[|d| + 1 + j] == gates[j]
  {
  }

  /** A builder with one condition per stage and then Ready decides all of them on the object. */
  lemma FlushDecides(prior: seq<Condition>, written: seq<Condition>, order: seq<string>)
    requires IsStageOrder(order) && |written| == |order| + 1
    requires (forall i :: 0 <= i < |order| ==> written[i].typ == order[i]) && written[|order|].typ == READY
    ensures forall i :: 0 <= i < |order| ==> Find(Flush(prior, written), order[i]) == Some(written[i])
    ensures Find(Flush(prior, written), READY) == Some(written[|order|]) == Last(written, READY)
  {
    forall i | 0 <= i < |order| ensures Find(Flush(prior, written), order[i]) == Some(written[i]) {
      LastOfDistinct(written, i);
      FindAfterFlush(prior, written, order[i]);
    }
    LastOfDistinct(written, |order|);
    FindAfterFlush(prior, written, READY);
  }

  /** Whatever conditions an object had before, a reconcile that writes conditions leaves a prefix of
      True stages, then one False with its own reason, then all later ones and Ready False and waiting
      for it; or everything True. */
  lemma StatusShape(prior: seq<Condition>, order: seq<string>, outcomes: seq<Outcome>, generation: int)
    requires IsStageOrder(order) && |outcomes| == |order|
    ensures var cs := Flush(prior, Script(order, outcomes, generation));
            var n := Stop(outcomes);
            && (forall i :: 0 <= i < n ==>
                  Find(cs, order[i]) == Some(Condition(order[i], True, "Ready", outcomes[i].message, generation)))
            && (n < |order| ==>
                  Find(cs, order[n]) ==
                  match outcomes[n]
                  case InProgress(m) => Some(Condition(order[n], False, "InProgress", m, generation))
                  case Failed(e) => Some(Condition(order[n], False, "Error", e, generation))
                  case Blocked(r, m) => Some(Condition(order[n], False, r, m, generation))
                  case Done(_) => None)
            && (forall i :: n < i < |order| ==>
                  Find(cs, order[i]) ==
                  Some(Condition(order[i], False, "WaitingForPrev", "waiting for " + order[n], generation)))
            && Find(cs, "Ready") ==
               Some(if n == |order| then Condition("Ready", True, "Ready", "All stages reconciled", generation)
                    else Condition("Ready", False, "WaitingForPrev", "waiting for " + order[n], generation))
  {
    ScriptIs(order, outcomes, generation);
    FlushDecides(prior, Script(order, outcomes, generation), order);
  }

  predicate AllDone(outcomes: seq<Outcome>) {
    forall i :: 0 <= i < |outcomes| ==> outcomes[i].Done?
  }

  /** The stage the reconcile stopped at. */
  predicate StopsAt(outcomes: seq<Outcome>, n: nat) {
    n < |outcomes| && !outcomes[n].Done? && forall j :: 0 <= j < n ==> outcomes[j].Done?
  }

  /** An outcome that counts as an error: a failure, or a reconciler's own stop with that reason. */
  predicate IsErrorOutcome(o: Outcome) {
    o.Failed? || (o.Blocked? && o.reason == "Error")
  }

  /** The first stage that is not done failed; or did not fail. */
  ghost predicate EndsInError(outcomes: seq<Outcome>) {
    exists n: nat :: StopsAt(outcomes, n) && IsErrorOutcome(outcomes[n])
  }

  ghost predicate EndsWaiting(outcomes: seq<Outcome>) {
    exists n: nat :: StopsAt(outcomes, n) && !IsErrorOutcome(outcomes[n])
  }

  lemma EndsIff(outcomes: seq<Outcome>)
    ensures var n := Stop(outcomes);
            && (AllDone(outcomes) <==> n == |outcomes|)
            && (EndsInError(outcomes) <==> n < |outcomes| && IsErrorOutcome(outcomes[n]))
            && (EndsWaiting(outcomes) <==> n < |outcomes| && !IsErrorOutcome(outcomes[n]))
  {
    var n := Stop(outcomes);
    if n < |outcomes| {
      assert StopsAt(outcomes, n);
    }
    forall m: nat | StopsAt(outcomes, m) ensures m == n {
      StopIs(outcomes, m);
    }
  }

  /** All stages True, Ready True in builder and object, and every stage done are the same thing; and an
      Error among the stages means that the first one not done failed. */
  lemma ShapeAgrees(prior: seq<Condition>, order: seq<string>, outcomes: seq<Outcome>, generation: int)
    requires IsStageOrder(order) && |outcomes| == |order|
    ensures var written := Script(order, outcomes, generation);
            var cs := Flush(prior, written);
            && cs != []
            && (AllDone(outcomes) <==> forall i :: 0 <= i < |order| ==> !IsFalse(cs, order[i]))
            && ((exists i :: 0 <= i < |order| && IsError(cs, order[i])) <==>
                EndsInError(outcomes))
            && Last(written, READY).Some? && (Last(written, READY).value.status.True? <==> AllDone(outcomes))
            && Find(cs, READY) == Last(written, READY)
  {
    var written := Script(order, outcomes, generation);
    var cs := Flush(prior, written);
    EndsIff(outcomes);
    StagesOfShape(prior, order, outcomes, generation);
    ReadyIsWritten(prior, order, outcomes, generation);
  }

  lemma StagesOfShape(prior: seq<Condition>, order: seq<string>, outcomes: seq<Outcome>, generation: int)
    requires IsStageOrder(order) && |outcomes| == |order|
    ensures var cs := Flush(prior, Script(order, outcomes, generation));
            var n := Stop(outcomes);
            && ((forall i :: 0 <= i < |order| ==> !IsFalse(cs, order[i])) <==> n == |order|)
            && ((exists i :: 0 <= i < |order| && IsError(cs, order[i])) <==> n < |order| && IsErrorOutcome(outcomes[n]))
  {
    var cs := Flush(prior, Script(order, outcomes, generation));
    var n := Stop(outcomes);
    StatusShape(prior, order, outcomes, generation);
    assert forall i :: 0 <= i < n ==> !IsFalse(cs, order[i]);
    assert n < |order| ==> IsFalse(cs, order[n]) && (IsError(cs, order[n]) <==> IsErrorOutcome(outcomes[n]));
    assert forall i :: n < i < |order| ==> !IsError(cs, order[i]);
  }

  lemma ReadyIsWritten(prior: seq<Condition>, order: seq<string>, outcomes: seq<Outcome>, generation: int)
    requires IsStageOrder(order) && |outcomes| == |order|
    ensures var written := Script(order, outcomes, generation);
            && Last(written, READY).Some? && (Last(written, READY).value.status.True? <==> Stop(outcomes) == |order|)
            && Find(Flush(prior, written), READY) == Last(written, READY)
  {
    ScriptIs(order, outcomes, generation);
    FlushDecides(prior, Script(order, outcomes, generation), order);
  }

  /** One reconcile's status write. Phase, aggregate condition and requeue decision agree, and follow
      the outcomes: Ready exactly when every stage is done, Error exactly when the first stage not done
      failed, InProgress exactly when it did not, and Pending never. */
  method ReconcileStatus(prior: seq<Condition>, order: seq<string>, outcomes: seq<Outcome>, generation: int)
    returns (cs: seq<Condition>, phase: Phase, ready: bool)
    requires IsStageOrder(order) && |outcomes| == |order|
    ensures cs == Flush(prior, Script(order, outcomes, generation))
    ensures ready <==> AllDone(outcomes)
    ensures phase.PhaseReady? <==> ready
    ensures Find(cs, READY).Some? && (Find(cs, READY).value.status.True? <==> ready)
    ensures phase.PhaseError? <==> EndsInError(outcomes)
    ensures phase.PhaseInProgress? <==> EndsWaiting(outcomes)
    ensures !phase.PhasePending?
  {
    var status := new StatusBuilder(generation);
    status.Reconcile(order, outcomes);
    var written := status.conditions;
    assert written == Script(order, outcomes, generation);
    cs := Flush(prior, written);
    ShapeAgrees(prior, order, outcomes, generation);
    phase := DerivePhase(cs, order);
    EndsIff(outcomes);
    ready := status.AggregateReady();
  }
}
