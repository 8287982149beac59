/** Branch and bound over runs of callbacks: what it blocks, and when its best score is the true optimum. */
module BinCoverBound {
  import opened Lists
  import opened IndexSums
  import opened BinCover
  import opened BinCoverBins
  import opened BinCoverMessages
  import opened BinCoverRuns

  ghost function TrueBins(lits: map<nat, bool>): set<nat> {
    set b | b in lits && lits[b]
  }

  ghost function FalseBins(lits: map<nat, bool>): set<nat> {
    set b | b in lits && !lits[b]
  }

  // The record agrees with the decisions: the value of the bins decided true, the slack left by those recorded false.
  ghost predicate BoundOk(cfg: Config, f: Frame) {
    && Within(f.lits.Keys, |cfg.scores|)
    && ToSet(f.core.falsified) <= FalseBins(f.lits)
    && f.core.value == SumOver(cfg.scores, TrueBins(f.lits))
    && f.core.slack == Sum(cfg.scores) - SumOver(cfg.scores, ToSet(f.core.falsified))
  }

  ghost predicate FrameOk(cfg: Config, f: Frame) {
    BinsOk(cfg, f.core) && LogOk(cfg, f.core, f.log) && AllJustified(cfg, f.core.bins, f.log) && BoundOk(cfg, f)
  }

  // A conflict blocks only decisions that score no better than the best.
  ghost predicate Blocks(cfg: Config, conflict: seq<nat>, best: int) {
    forall chosen :: ToSet(conflict) !! chosen ==> SumOver(cfg.scores, chosen) <= best
  }

  ghost predicate ConflictsOk(cfg: Config, conflicts: seq<seq<nat>>, best: int) {
    forall k :: 0 <= k < |conflicts| ==> Blocks(cfg, conflicts[k], best)
  }

  // Legal runs: what the solver promises its propagator

  // The decisions respect what the propagator has told.
  ghost predicate Respects(log: seq<Message>, lits: map<nat, bool>) {
    forall msg :: msg in log && !msg.Conflict? ==> msg.bin in lits && (lits[msg.bin] <==> msg.Filled?)
  }

  // Items and bins are fixed at most once on a branch; the final callback comes when everything is fixed, no conflict
  // is pending and the decisions respect the propagated consequences.
  ghost predicate Legal(cfg: Config, r: Ref, e: Event) {
    && InRange(cfg, |r.saved|, e)
    && match e
       case FixItem(i, _) => !IsPlaced(r.now.core.bins, i)
       case FixBin(b, _) => b !in r.now.lits
       case Final =>
         && (forall x: nat :: x < |cfg.weights| ==> IsPlaced(r.now.core.bins, x))
         && r.now.lits.Keys == All(|cfg.bounds|)
         && FalseBins(r.now.lits) <= ToSet(r.now.core.falsified)
         && Respects(r.now.log, r.now.lits)
       case _ => true
  }

  ghost predicate LegalRun(cfg: Config, events: seq<Event>) {
    if events == [] then true
    else
      var init, last := events[..|events| - 1], events[|events| - 1];
      LegalRun(cfg, init) && Legal(cfg, RunRef(cfg, init), last)
  }

  ghost predicate RefOk(cfg: Config, r: Ref) {
    && FrameOk(cfg, r.now)
    && (forall k :: 0 <= k < |r.saved| ==> FrameOk(cfg, r.saved[k]))
    && r.best >= 0
    && ConflictsOk(cfg, r.conflicts, r.best)
  }

  lemma InitialRefOk(cfg: Config)
    requires ValidConfig(cfg)
    ensures RefOk(cfg, InitialRef(cfg))
  {
    InitialBinsOk(cfg);
    InitialLogOk(cfg);
    SumOverAbove(cfg.scores, {});
    var f := InitialRef(cfg).now;
    assert ToSet(f.core.falsified) == {} && TrueBins(f.lits) == {};
  }

  // What avoids the recorded bins scores at most the slack.
  lemma AvoidingScore(cfg: Config, falsified: seq<nat>, chosen: set<nat>)
    requires ToSet(falsified) !! chosen
    ensures SumOver(cfg.scores, chosen) <= Sum(cfg.scores) - SumOver(cfg.scores, ToSet(falsified))
  {
    SumOverSplit(cfg.scores, ToSet(falsified), chosen);
  }

  lemma FixItemOk(cfg: Config, f: Frame, i: nat, b: nat)
    requires ValidConfig(cfg) && FrameOk(cfg, f) && i < |cfg.weights| && !IsPlaced(f.core.bins, i)
    ensures var e := PlaceItem(cfg, f.core, i, b);
      FrameOk(cfg, f.(core := e.core, log := f.log + e.out))
  {
    var e := PlaceItem(cfg, f.core, i, b);
    PlaceItemBinsOk(cfg, f.core, i, b);
    PlaceItemTells(cfg, f.core, i, b, f.log);
    PlaceItemKeepsRecord(cfg, f.core, i, b);
  }

  lemma {:induction false} ExcludeUpToKeepsRecord(cfg: Config, core: Core, i: nat, b: nat, n: nat)
    requires ShapeOk(cfg, core) && i < |cfg.weights| && n <= |core.bins|
    ensures ExcludeUpTo(cfg, core, i, b, n).core.(bins := core.bins) == core
  {
    if n > 0 {
      ExcludeUpToKeepsRecord(cfg, core, i, b, n - 1);
    }
  }

  lemma PlaceItemKeepsRecord(cfg: Config, core: Core, i: nat, b: nat)
    requires ShapeOk(cfg, core) && i < |cfg.weights|
    ensures PlaceItem(cfg, core, i, b).core.(bins := core.bins) == core
  {
    if b < |core.bins| {
      ExcludeUpToKeepsRecord(cfg, AddItem(cfg, core, i, b).core, i, b, |core.bins|);
    }
  }

  lemma FixBinOk(cfg: Config, f: Frame, best: int, b: nat, filled: bool)
    requires FrameOk(cfg, f) && b < |cfg.scores| && b !in f.lits
    ensures var e := DecideBin(cfg, f.core, best, b, filled);
      FrameOk(cfg, Frame(e.core, f.log, f.lits[b := filled]))
  {
    var e := DecideBin(cfg, f.core, best, b, filled);
    var lits := f.lits[b := filled];
    assert TrueBins(lits) == if filled then TrueBins(f.lits) + {b} else TrueBins(f.lits);
    assert FalseBins(lits) == if filled then FalseBins(f.lits) else FalseBins(f.lits) + {b};
    SumOverAdd(cfg.scores, TrueBins(f.lits), b);
    SumOverAdd(cfg.scores, ToSet(f.core.falsified), b);
    ToSetSnoc(f.core.falsified, b);
  }

  lemma NewConflictsOne(msg: Message)
    ensures NewConflicts([msg]) == if msg.Conflict? then [msg.bins] else []
  {
    assert [msg][..0] == [];
  }

  lemma FixBinConflicts(cfg: Config, f: Frame, best: int, b: nat, filled: bool)
    requires FrameOk(cfg, f) && b < |cfg.scores| && b !in f.lits
    ensures ConflictsOk(cfg, NewConflicts(DecideBin(cfg, f.core, best, b, filled).out), best)
  {
    var e := DecideBin(cfg, f.core, best, b, filled);
    if e.out != [] {
      NewConflictsOne(e.out[0]);
      var conflict := f.core.falsified + [b];
      ToSetSnoc(f.core.falsified, b);
      SumOverAdd(cfg.scores, ToSet(f.core.falsified), b);
      forall chosen | ToSet(conflict) !! chosen
        ensures SumOver(cfg.scores, chosen) <= best
      {
        AvoidingScore(cfg, conflict, chosen);
      }
    }
  }

  // Whatever else is filled, without these bins the best is out of reach.
  ghost predicate OutOfReach(cfg: Config, without: seq<nat>, best: int) {
    forall chosen :: ToSet(without) !! chosen ==> SumOver(cfg.scores, chosen) < best
  }

  lemma OutOfReachExact(cfg: Config, without: seq<nat>, best: int)
    ensures OutOfReach(cfg, without, best) <==> Sum(cfg.scores) - SumOver(cfg.scores, ToSet(without)) < best
  {
    var rest := All(|cfg.scores|) - ToSet(without);
    SumOverSplit(cfg.scores, ToSet(without), rest);
    forall chosen | ToSet(without) !! chosen
      ensures SumOver(cfg.scores, chosen) <= SumOver(cfg.scores, rest)
    {
      AvoidingScore(cfg, without, chosen);
    }
    assert ToSet(without) !! rest;
  }

  /**
   Deciding a bin raises a conflict, and then changes nothing, if and only if it is decided false and the best is out of
   reach without it and the bins recorded false; otherwise a bin decided false is recorded.
   */
  lemma ConflictExact(cfg: Config, f: Frame, best: int, b: nat, filled: bool)
    requires BoundOk(cfg, f) && b < |cfg.scores| && b !in f.lits
    ensures var e, without := DecideBin(cfg, f.core, best, b, filled), f.core.falsified + [b];
      if !filled && OutOfReach(cfg, without, best) then e.out == [Conflict(without)] && e.core == f.core
      else e.out == [] && e.core.falsified == if filled then f.core.falsified else without
  {
    OutOfReachExact(cfg, f.core.falsified + [b], best);
    ToSetSnoc(f.core.falsified, b);
    SumOverAdd(cfg.scores, ToSet(f.core.falsified), b);
  }

  /** The same over every legal run: what deciding a bin adds to the conflicts and to the record. */
  lemma PruningExact(cfg: Config, events: seq<Event>, b: nat, filled: bool)
    requires ValidConfig(cfg) && LegalRun(cfg, events) && Legal(cfg, RunRef(cfg, events), FixBin(b, filled))
    ensures var r, r' := RunRef(cfg, events), RunRef(cfg, events + [FixBin(b, filled)]);
      var without := r.now.core.falsified + [b];
      if !filled && OutOfReach(cfg, without, r.best) then
        r'.conflicts == r.conflicts + [without] && r'.now.core == r.now.core
      else
        r'.conflicts == r.conflicts && r'.now.core.falsified == if filled then r.now.core.falsified else without
  {
    LegalRunsOk(cfg, events);
    RunSnoc(cfg, events, FixBin(b, filled));
    var r := RunRef(cfg, events);
    ConflictExact(cfg, r.now, r.best, b, filled);
    var out := DecideBin(cfg, r.now.core, r.best, b, filled).out;
    if out != [] {
      NewConflictsOne(out[0]);
    }
  }

  // When everything is decided, what the conflict of the final callback blocks scores at most the value just seen.
  lemma FinalBlocks(cfg: Config, f: Frame)
    requires FrameOk(cfg, f) && |cfg.scores| == |cfg.bounds|
    requires f.lits.Keys == All(|cfg.bounds|) && FalseBins(f.lits) <= ToSet(f.core.falsified)
    ensures f.core.value == f.core.slack && Blocks(cfg, f.core.falsified, f.core.value)
  {
    var falsified := ToSet(f.core.falsified);
    assert TrueBins(f.lits) !! falsified;
    forall i: nat | i in All(|cfg.scores|)
      ensures i in TrueBins(f.lits) + falsified
    {
      assert i in f.lits;
    }
    SumOverSplit(cfg.scores, TrueBins(f.lits), falsified);
    forall chosen | falsified !! chosen
      ensures SumOver(cfg.scores, chosen) <= f.core.value
    {
      AvoidingScore(cfg, f.core.falsified, chosen);
    }
  }

  lemma ConflictsAppend(cfg: Config, conflicts: seq<seq<nat>>, more: seq<seq<nat>>, best: int, best': int)
    requires ConflictsOk(cfg, conflicts, best) && ConflictsOk(cfg, more, best') && best <= best'
    ensures ConflictsOk(cfg, conflicts + more, best')
  {
    var all := conflicts + more;
    forall k | 0 <= k < |all|
      ensures Blocks(cfg, all[k], best')
    {
      if k < |conflicts| {
        assert Blocks(cfg, conflicts[k], best);
      } else {
        assert Blocks(cfg, more[k - |conflicts|], best');
      }
    }
  }

  lemma StepOk(cfg: Config, r: Ref, e: Event)
    requires ValidConfig(cfg) && RefOk(cfg, r) && Legal(cfg, r, e)
    ensures RefOk(cfg, StepRef(cfg, r, e))
  {
    match e
    case FixItem(i, b) => FixItemOk(cfg, r.now, i, b);
    case FixBin(b, filled) =>
      FixBinOk(cfg, r.now, r.best, b, filled);
      FixBinConflicts(cfg, r.now, r.best, b, filled);
      var out := DecideBin(cfg, r.now.core, r.best, b, filled).out;
      ConflictsAppend(cfg, r.conflicts, NewConflicts(out), r.best, r.best);
    case Push =>
    case Pop(_) =>
    case Final =>
      FinalBlocks(cfg, r.now);
      var best := FinalBest(r.now.core, r.best);
      forall chosen | ToSet(r.now.core.falsified) !! chosen
        ensures SumOver(cfg.scores, chosen) <= best
      {
        assert Blocks(cfg, r.now.core.falsified, r.now.core.value);
      }
      ConflictsAppend(cfg, r.conflicts, [r.now.core.falsified], r.best, best);
  }

  /**
   In every reachable state weights, slacks, the record of propagations, the value and the slack of the objective are
   right, and every conflict raised so far blocks only decisions that score at most the best.
   */
  lemma {:induction false} LegalRunsOk(cfg: Config, events: seq<Event>)
    requires ValidConfig(cfg) && LegalRun(cfg, events)
    ensures RefOk(cfg, RunRef(cfg, events))
  {
    if events == [] {
      InitialRefOk(cfg);
    } else {
      var init, last := events[..|events| - 1], events[|events| - 1];
      LegalRunsOk(cfg, init);
      StepOk(cfg, RunRef(cfg, init), last);
    }
  }

  /**
   Propagation is sound and complete over every legal run: whatever has been told on the current branch holds in every
   completion agreeing with its justification, no bin is told both ways or twice, and once every item is placed each
   bin that all items together could fill has been told one way.
   */
  lemma PropagationsExact(cfg: Config, events: seq<Event>, b: nat)
    requires ValidConfig(cfg) && LegalRun(cfg, events) && b < |cfg.bounds|
    ensures var f := RunRef(cfg, events).now;
      && AllJustified(cfg, f.core.bins, f.log)
      && ToldFilled(f.log, b) + ToldNotFilled(f.log, b) <= 1
      && ((forall x: nat :: x < |cfg.weights| ==> IsPlaced(f.core.bins, x)) && cfg.bounds[b] <= Sum(cfg.weights) ==>
            ToldFilled(f.log, b) + ToldNotFilled(f.log, b) == 1)
  {
    LegalRunsOk(cfg, events);
    var f := RunRef(cfg, events).now;
    NotBoth(cfg, f.core, b);
    assert ToldOk(cfg, f.log, f.core.bins[b], b);
    if (forall x: nat :: x < |cfg.weights| ==> IsPlaced(f.core.bins, x)) && cfg.bounds[b] <= Sum(cfg.weights) {
      AllPlacedDecides(cfg, f.core, b);
    }
  }

  // The objective: the score of the bins a placement fills

  ghost predicate IsPlacement(cfg: Config, g: seq<nat>) {
    |g| == |cfg.weights| && forall i :: 0 <= i < |g| ==> g[i] < |cfg.bounds|
  }

  ghost function FilledBins(cfg: Config, g: seq<nat>): set<nat> {
    set b | b in All(|cfg.bounds|) && Load(cfg, g, b) >= cfg.bounds[b]
  }

  ghost function Score(cfg: Config, g: seq<nat>): nat {
    SumOver(cfg.scores, FilledBins(cfg, g))
  }

  // No bin needs more than all items together.
  ghost predicate NoOversize(cfg: Config) {
    forall b :: 0 <= b < |cfg.bounds| ==> cfg.bounds[b] <= Sum(cfg.weights)
  }

  ghost function Oversize(cfg: Config): set<nat> {
    set b | b in All(|cfg.bounds|) && cfg.bounds[b] > Sum(cfg.weights)
  }

  // Some placement scores at least this much.
  ghost predicate Attained(cfg: Config, best: int) {
    exists g :: IsPlacement(cfg, g) && Score(cfg, g) >= best
  }

  // The placement held by the bins once every item is in one.
  lemma {:induction false} PlacementOf(cfg: Config, bins: seq<BinState>, n: nat) returns (g: seq<nat>)
    requires n <= |cfg.weights|
    requires forall x: nat :: x < n ==> IsPlaced(bins, x)
    ensures |g| == n
    ensures forall i :: 0 <= i < n ==> g[i] < |bins| && i in bins[g[i]].added
  {
    if n == 0 {
      g := [];
    } else {
      var h := PlacementOf(cfg, bins, n - 1);
      assert IsPlaced(bins, n - 1);
      var c: nat :| c < |bins| && n - 1 in bins[c].added;
      g := h + [c];
    }
  }

  lemma PlacementLoads(cfg: Config, core: Core, g: seq<nat>, b: nat)
    requires WeightsOk(cfg, core) && b < |core.bins| && |g| == |cfg.weights|
    requires forall i :: 0 <= i < |g| ==> g[i] < |core.bins| && i in core.bins[g[i]].added
    ensures Load(cfg, g, b) == core.bins[b].weight
  {
    assert InBin(g, b) == ToSet(core.bins[b].added);
  }

  lemma {:induction false} ToldMember(log: seq<Message>, b: nat)
    ensures ToldFilled(log, b) > 0 ==> exists msg :: msg in log && msg.Filled? && msg.bin == b
    ensures ToldNotFilled(log, b) > 0 ==> exists msg :: msg in log && msg.NotFilled? && msg.bin == b
  {
    if log != [] {
      ToldMember(log[..|log| - 1], b);
      assert log[|log| - 1] in log;
    }
  }

  // At a final callback a bin that could be filled is decided true exactly when it is filled.
  lemma FinalDecision(cfg: Config, f: Frame, b: nat)
    requires FrameOk(cfg, f) && b < |cfg.bounds| && cfg.bounds[b] <= Sum(cfg.weights)
    requires forall x: nat :: x < |cfg.weights| ==> IsPlaced(f.core.bins, x)
    requires Respects(f.log, f.lits)
    ensures b in f.lits && (f.lits[b] <==> f.core.bins[b].weight >= cfg.bounds[b])
  {
    AllPlacedDecides(cfg, f.core, b);
    assert ToldOk(cfg, f.log, f.core.bins[b], b);
    ToldMember(f.log, b);
  }

  lemma FinalAttained(cfg: Config, r: Ref)
    requires ValidConfig(cfg) && NoOversize(cfg) && RefOk(cfg, r) && Legal(cfg, r, Final)
    ensures Attained(cfg, r.now.core.value)
  {
    var f := r.now;
    var g := PlacementOf(cfg, f.core.bins, |cfg.weights|);
    forall b: nat | b < |cfg.bounds|
      ensures b in FilledBins(cfg, g) <==> b in TrueBins(f.lits)
    {
      FinalDecision(cfg, f, b);
      PlacementLoads(cfg, f.core, g, b);
    }
    assert FilledBins(cfg, g) == TrueBins(f.lits);
    assert IsPlacement(cfg, g);
  }

  lemma SomePlacement(cfg: Config) returns (g: seq<nat>)
    requires |cfg.bounds| > 0
    ensures IsPlacement(cfg, g)
  {
    g := seq(|cfg.weights|, _ => 0);
  }

  // When no bin is oversize, the best score never exceeds what placements can reach.
  lemma {:induction false} BestAttained(cfg: Config, events: seq<Event>)
    requires ValidConfig(cfg) && NoOversize(cfg) && |cfg.bounds| > 0 && LegalRun(cfg, events)
    ensures Attained(cfg, RunRef(cfg, events).best)
  {
    if events == [] {
      var g := SomePlacement(cfg);
      assert Score(cfg, g) >= 0;
    } else {
      var init, last := events[..|events| - 1], events[|events| - 1];
      BestAttained(cfg, init);
      LegalRunsOk(cfg, init);
      if last.Final? {
        FinalAttained(cfg, RunRef(cfg, init));
      }
    }
  }

  // What the propagator has told, taken as a clause: where its items are placed as they were, the bin is decided so.
  ghost predicate Allows(bins: seq<BinState>, msg: Message, g: seq<nat>, chosen: set<nat>) {
    match msg
    case Filled(b, items) => Agrees(bins, items, g) ==> b in chosen
    case NotFilled(b, items) => Agrees(bins, items, g) ==> b !in chosen
    case Conflict(_) => true
  }

  ghost predicate Admits(f: Frame, g: seq<nat>, chosen: set<nat>) {
    forall msg :: msg in f.log ==> Allows(f.core.bins, msg, g, chosen)
  }

  // A placement and decisions about the bins that nothing the propagator has told in the whole run excludes, be it a
  // propagation or a conflict.
  ghost predicate LeftOpen(cfg: Config, events: seq<Event>, g: seq<nat>, chosen: set<nat>) {
    && IsPlacement(cfg, g)
    && (forall n: nat :: n <= |events| ==> Admits(RunRef(cfg, events[..n]).now, g, chosen))
    && forall conflict :: conflict in RunRef(cfg, events).conflicts ==> !(ToSet(conflict) !! chosen)
  }

  // The solver reports that there is no model.
  ghost predicate Exhausted(cfg: Config, events: seq<Event>) {
    forall g, chosen :: !LeftOpen(cfg, events, g, chosen)
  }

  lemma {:induction false} LegalPrefix(cfg: Config, events: seq<Event>, n: nat)
    requires LegalRun(cfg, events) && n <= |events|
    ensures LegalRun(cfg, events[..n])
  {
    if n < |events| {
      var init := events[..|events| - 1];
      LegalPrefix(cfg, init, n);
      assert init[..n] == events[..n];
    } else {
      assert events[..n] == events;
    }
  }

  /** Deciding exactly the bins that a placement fills agrees with every propagation of every legal run. */
  lemma PropagationsAdmit(cfg: Config, events: seq<Event>, g: seq<nat>, n: nat)
    requires ValidConfig(cfg) && LegalRun(cfg, events) && IsPlacement(cfg, g) && n <= |events|
    ensures Admits(RunRef(cfg, events[..n]).now, g, FilledBins(cfg, g))
  {
    LegalPrefix(cfg, events, n);
    LegalRunsOk(cfg, events[..n]);
    var f := RunRef(cfg, events[..n]).now;
    forall msg | msg in f.log
      ensures Allows(f.core.bins, msg, g, FilledBins(cfg, g))
    {
      assert Justified(cfg, f.core.bins, msg);
    }
  }

  // So a placement can only be excluded by a conflict.
  lemma ConflictExcludes(cfg: Config, events: seq<Event>, g: seq<nat>) returns (conflict: seq<nat>)
    requires ValidConfig(cfg) && LegalRun(cfg, events) && Exhausted(cfg, events) && IsPlacement(cfg, g)
    ensures conflict in RunRef(cfg, events).conflicts && ToSet(conflict) !! FilledBins(cfg, g)
  {
    forall n: nat | n <= |events|
      ensures Admits(RunRef(cfg, events[..n]).now, g, FilledBins(cfg, g))
    {
      PropagationsAdmit(cfg, events, g, n);
    }
    assert !LeftOpen(cfg, events, g, FilledBins(cfg, g));
    conflict :| conflict in RunRef(cfg, events).conflicts && ToSet(conflict) !! FilledBins(cfg, g);
  }

  ghost predicate IsBestScore(cfg: Config, best: int) {
    && (exists g :: IsPlacement(cfg, g) && Score(cfg, g) == best)
    && (forall g :: IsPlacement(cfg, g) ==> Score(cfg, g) <= best)
  }

  /**
   When the propagations and conflicts of the run together have no model left, the best score is the largest score of
   any placement.
   */
  lemma BranchAndBoundExact(cfg: Config, events: seq<Event>)
    requires ValidConfig(cfg) && NoOversize(cfg) && |cfg.bounds| > 0
    requires LegalRun(cfg, events) && Exhausted(cfg, events)
    ensures IsBestScore(cfg, RunMachine(cfg, events).best)
  {
    var r := RunRef(cfg, events);
    TrailRefinesSnapshots(cfg, events);
    LegalRunsOk(cfg, events);
    forall g | IsPlacement(cfg, g)
      ensures Score(cfg, g) <= r.best
    {
      var conflict := ConflictExcludes(cfg, events, g);
      var k :| 0 <= k < |r.conflicts| && r.conflicts[k] == conflict;
      assert Blocks(cfg, r.conflicts[k], r.best);
    }
    BestAttained(cfg, events);
  }
}
