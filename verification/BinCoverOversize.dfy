/** A bin that needs more than all items together is never reported out of reach, and can be counted as filled. */
module BinCoverOversize {
  import opened Lists
  import opened IndexSums
  import opened BinCover
  import opened BinCoverBins
  import opened BinCoverMessages
  import opened BinCoverRuns
  import opened BinCoverBound

  // A run that places the items as g says, then decides the bins as chosen says

  // After the first items: nothing saved, nothing decided, and each bin holds what g puts there.
  ghost predicate Placed(cfg: Config, g: seq<nat>, r: Ref) {
    && r.saved == [] && r.best == 0 && r.now.lits == map[] && r.now.core.falsified == []
    && ShapeOk(cfg, r.now.core)
    && forall c: nat :: c < |r.now.core.bins| ==> ToSet(r.now.core.bins[c].added) == InBin(g, c)
  }

  lemma LegalSnoc(cfg: Config, events: seq<Event>, e: Event)
    requires LegalRun(cfg, events) && Legal(cfg, RunRef(cfg, events), e)
    ensures LegalRun(cfg, events + [e])
  {
    assert (events + [e])[..|events + [e]| - 1] == events;
  }

  lemma PlacedNext(cfg: Config, h: seq<nat>, r: Ref, b: nat)
    requires Placed(cfg, h, r) && |h| < |cfg.weights| && b < |cfg.bounds|
    ensures Legal(cfg, r, FixItem(|h|, b))
    ensures Placed(cfg, h + [b], StepRef(cfg, r, FixItem(|h|, b)))
  {
    var core := r.now.core;
    var core' := PlaceItem(cfg, core, |h|, b).core;
    assert forall c: nat :: c < |core.bins| ==> |h| !in ToSet(core.bins[c].added);
    PlaceItemKeepsRecord(cfg, core, |h|, b);
    forall c: nat | c < |core.bins|
      ensures ToSet(core'.bins[c].added) == InBin(h + [b], c)
    {
      PlaceItemAdded(cfg, core, |h|, b, c);
      ToSetSnoc(core.bins[c].added, |h|);
      assert InBin(h + [b], c) == InBin(h, c) + if c == b then {|h|} else {};
    }
  }

  // The state of a legal run.
  ghost predicate Reaches(cfg: Config, events: seq<Event>, r: Ref) {
    LegalRun(cfg, events) && r == RunRef(cfg, events)
  }

  lemma ReachesNext(cfg: Config, events: seq<Event>, r: Ref, e: Event)
    requires ValidConfig(cfg) && Reaches(cfg, events, r) && Legal(cfg, r, e)
    ensures RefOk(cfg, r) && Reaches(cfg, events + [e], StepRef(cfg, r, e))
  {
    LegalRunsOk(cfg, events);
    LegalSnoc(cfg, events, e);
    RunSnoc(cfg, events, e);
  }

  lemma PlaceOne(cfg: Config, events: seq<Event>, r: Ref, h: seq<nat>, b: nat) returns (events': seq<Event>, r': Ref)
    requires ValidConfig(cfg) && |h| < |cfg.weights| && b < |cfg.bounds|
    requires Reaches(cfg, events, r) && Placed(cfg, h, r)
    ensures Reaches(cfg, events', r') && Placed(cfg, h + [b], r')
  {
    var e := FixItem(|h|, b);
    PlacedNext(cfg, h, r, b);
    ReachesNext(cfg, events, r, e);
    events', r' := events + [e], StepRef(cfg, r, e);
  }

  lemma {:induction false} PlaceAllRun(cfg: Config, g: seq<nat>) returns (events: seq<Event>, r: Ref)
    requires ValidConfig(cfg) && |g| <= |cfg.weights| && forall i :: 0 <= i < |g| ==> g[i] < |cfg.bounds|
    ensures Reaches(cfg, events, r) && Placed(cfg, g, r)
  {
    if g == [] {
      events, r := [], InitialRef(cfg);
    } else {
      var n := |g| - 1;
      events, r := PlaceAllRun(cfg, g[..n]);
      events, r := PlaceOne(cfg, events, r, g[..n], g[n]);
      assert g == g[..n] + [g[n]];
    }
  }

  // After the first n bins: only the decisions have changed.
  ghost predicate Decided(chosen: set<nat>, n: nat, r0: Ref, r: Ref) {
    && r.saved == r0.saved && r.best == r0.best && r.now.log == r0.now.log && r.now.core.bins == r0.now.core.bins
    && r.now.lits.Keys == All(n)
    && (forall b :: b in r.now.lits ==> (r.now.lits[b] <==> b in chosen))
    && ToSet(r.now.core.falsified) == FalseBins(r.now.lits)
  }

  lemma DecideRoom(cfg: Config, f: Frame, b: nat)
    requires BoundOk(cfg, f) && b < |cfg.scores| && b !in f.lits
    ensures f.core.slack >= cfg.scores[b]
  {
    SumOverSingle(cfg.scores, b);
    assert b !in ToSet(f.core.falsified);
    SumOverSplit(cfg.scores, {b}, ToSet(f.core.falsified));
  }

  lemma DecidedNext(cfg: Config, chosen: set<nat>, b: nat, r0: Ref, r: Ref)
    requires ValidConfig(cfg) && RefOk(cfg, r) && b < |cfg.bounds| && Decided(chosen, b, r0, r) && r.best == 0
    ensures Legal(cfg, r, FixBin(b, b in chosen))
    ensures Decided(chosen, b + 1, r0, StepRef(cfg, r, FixBin(b, b in chosen)))
  {
    DecideRoom(cfg, r.now, b);
    var r' := StepRef(cfg, r, FixBin(b, b in chosen));
    assert r'.now.lits == r.now.lits[b := b in chosen];
    assert r'.now.core.falsified == r.now.core.falsified + if b in chosen then [] else [b];
    assert FalseBins(r'.now.lits) == if b in chosen then FalseBins(r.now.lits) else FalseBins(r.now.lits) + {b};
    ToSetSnoc(r.now.core.falsified, b);
  }

  lemma {:induction false} DecideAllRun(cfg: Config, before: seq<Event>, r0: Ref, chosen: set<nat>, n: nat)
    returns (events: seq<Event>, r: Ref)
    requires ValidConfig(cfg) && Reaches(cfg, before, r0) && n <= |cfg.bounds|
    requires r0.best == 0 && r0.now.lits == map[] && r0.now.core.falsified == []
    ensures Reaches(cfg, events, r) && Decided(chosen, n, r0, r)
  {
    if n == 0 {
      events, r := before, r0;
    } else {
      var e := FixBin(n - 1, n - 1 in chosen);
      events, r := DecideAllRun(cfg, before, r0, chosen, n - 1);
      LegalRunsOk(cfg, events);
      DecidedNext(cfg, chosen, n - 1, r0, r);
      ReachesNext(cfg, events, r, e);
      events, r := events + [e], StepRef(cfg, r, e);
    }
  }

  lemma {:induction false} ToldAtLeast(log: seq<Message>, msg: Message)
    requires msg in log
    ensures msg.Filled? ==> ToldFilled(log, msg.bin) > 0
    ensures msg.NotFilled? ==> ToldNotFilled(log, msg.bin) > 0
  {
    var last := |log| - 1;
    if msg != log[last] {
      assert msg in log[..last];
      ToldAtLeast(log[..last], msg);
    }
  }

  // Deciding the filled bins true, and any oversize ones with them, respects all that was told.
  lemma OversizeRespects(cfg: Config, f: Frame, g: seq<nat>)
    requires ValidConfig(cfg) && FrameOk(cfg, f) && IsPlacement(cfg, g)
    requires forall i :: 0 <= i < |g| ==> i in f.core.bins[g[i]].added
    requires f.lits.Keys == All(|cfg.bounds|)
    requires forall b :: b in f.lits ==> (f.lits[b] <==> b in FilledBins(cfg, g) + Oversize(cfg))
    ensures Respects(f.log, f.lits)
  {
    forall msg | msg in f.log && !msg.Conflict?
      ensures msg.bin in f.lits && (f.lits[msg.bin] <==> msg.Filled?)
    {
      var b := msg.bin;
      ToldAtLeast(f.log, msg);
      assert ToldOk(cfg, f.log, f.core.bins[b], b);
      PlacementLoads(cfg, f.core, g, b);
      NotBoth(cfg, f.core, b);
    }
  }

  lemma LoadAtMostTotal(cfg: Config, g: seq<nat>)
    ensures FilledBins(cfg, g) !! Oversize(cfg)
  {
    forall b | b in FilledBins(cfg, g)
      ensures b !in Oversize(cfg)
    {
      SumOverSplit(cfg.weights, InBin(g, b), {});
    }
  }

  lemma OversizeScores(cfg: Config, b: nat)
    requires ValidConfig(cfg) && b in Oversize(cfg)
    ensures SumOver(cfg.scores, Oversize(cfg)) > 0
  {
    SumOverSingle(cfg.scores, b);
    SumOverMonotone(cfg.scores, {b}, Oversize(cfg));
  }

  // A placement with the largest score.
  lemma BestPlacement(cfg: Config, g0: seq<nat>) returns (g: seq<nat>)
    requires IsPlacement(cfg, g0)
    ensures IsPlacement(cfg, g) && forall h :: IsPlacement(cfg, h) ==> Score(cfg, h) <= Score(cfg, g)
    decreases Sum(cfg.scores) - Score(cfg, g0)
  {
    if h :| IsPlacement(cfg, h) && Score(cfg, h) > Score(cfg, g0) {
      SumOverSplit(cfg.scores, FilledBins(cfg, h), {});
      g := BestPlacement(cfg, h);
    } else {
      g := g0;
    }
  }

  // With an oversize bin some legal run records a score that no placement reaches.
  lemma OversizeOvercounts(cfg: Config, b: nat) returns (events: seq<Event>)
    requires ValidConfig(cfg) && b in Oversize(cfg)
    ensures LegalRun(cfg, events) && !Attained(cfg, RunRef(cfg, events).best)
  {
    var g0 := SomePlacement(cfg);
    var g := BestPlacement(cfg, g0);
    var chosen := FilledBins(cfg, g) + Oversize(cfg);
    var before, r0 := PlaceAllRun(cfg, g);
    var decided, r := DecideAllRun(cfg, before, r0, chosen, |cfg.bounds|);
    LegalRunsOk(cfg, decided);
    OversizeFinal(cfg, g, r0, r);
    ReachesNext(cfg, decided, r, Final);
    events := decided + [Final];
    LoadAtMostTotal(cfg, g);
    SumOverUnion(cfg.scores, FilledBins(cfg, g), Oversize(cfg));
    OversizeScores(cfg, b);
  }

  lemma OversizeFinal(cfg: Config, g: seq<nat>, r0: Ref, r: Ref)
    requires ValidConfig(cfg) && IsPlacement(cfg, g) && Placed(cfg, g, r0) && RefOk(cfg, r)
    requires Decided(FilledBins(cfg, g) + Oversize(cfg), |cfg.bounds|, r0, r)
    ensures Legal(cfg, r, Final)
    ensures r.now.core.value == SumOver(cfg.scores, FilledBins(cfg, g) + Oversize(cfg))
  {
    forall x: nat | x < |cfg.weights|
      ensures IsPlaced(r.now.core.bins, x) && x in r.now.core.bins[g[x]].added
    {
      assert x in InBin(g, g[x]);
    }
    OversizeRespects(cfg, r.now, g);
    assert TrueBins(r.now.lits) == FilledBins(cfg, g) + Oversize(cfg);
  }

  /**
   The best score stays within what placements reach, over all legal runs, exactly when no bin needs more than all
   items together.
   */
  lemma SoundExactlyWithoutOversize(cfg: Config)
    requires ValidConfig(cfg) && |cfg.bounds| > 0
    ensures (forall events :: LegalRun(cfg, events) ==> Attained(cfg, RunMachine(cfg, events).best)) <==>
      NoOversize(cfg)
  {
    if NoOversize(cfg) {
      forall events | LegalRun(cfg, events)
        ensures Attained(cfg, RunMachine(cfg, events).best)
      {
        TrailRefinesSnapshots(cfg, events);
        BestAttained(cfg, events);
      }
    } else {
      var b: nat :| b < |cfg.bounds| && cfg.bounds[b] > Sum(cfg.weights);
      var events := OversizeOvercounts(cfg, b);
      TrailRefinesSnapshots(cfg, events);
      assert LegalRun(cfg, events) && !Attained(cfg, RunMachine(cfg, events).best);
    }
  }
}
