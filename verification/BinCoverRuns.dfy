/** Runs of callbacks: the undo trail against a machine that simply saves its state at every push. */
module BinCoverRuns {
  import opened BinCover

  // The propagator as it is: a trail of undo entries and the trail lengths at the pushes.
  datatype Machine = Machine(core: Core, best: int, trail: seq<Undo>, lim: seq<nat>)

  // The reference: the whole state saved at each push.  Beside the core a frame holds what the solver knows on the
  // current branch: the consequences told to it and the bins it has decided.  Conflicts are never retracted.
  datatype Frame = Frame(core: Core, log: seq<Message>, lits: map<nat, bool>)
  datatype Ref = Ref(now: Frame, best: int, saved: seq<Frame>, conflicts: seq<seq<nat>>)

  // Undoes the trail down to length `head`, newest entry first.
  function Unwind(core: Core, trail: seq<Undo>, head: nat): Core
    decreases |trail|
  {
    if |trail| <= head || !CanUndo(core, trail[|trail| - 1]) then core
    else Unwind(ApplyUndo(core, trail[|trail| - 1]), trail[..|trail| - 1], head)
  }

  // The numbers in the event name things that exist.
  predicate InRange(cfg: Config, depth: nat, e: Event) {
    match e
    case FixItem(i, _) => i < |cfg.weights|
    case FixBin(b, _) => b < |cfg.scores|
    case Push => true
    case Pop(n) => 1 <= n <= depth
    case Final => true
  }

  function EffectOf(cfg: Config, core: Core, best: int, e: Event): (f: Effect)
    requires ShapeOk(cfg, core) && InRange(cfg, 0, e) && (e.FixItem? || e.FixBin?)
    ensures ShapeOk(cfg, f.core)
  {
    match e
    case FixItem(i, b) => PlaceItem(cfg, core, i, b)
    case FixBin(b, filled) => DecideBin(cfg, core, best, b, filled)
  }

  function StepMachine(cfg: Config, m: Machine, e: Event): (m': Machine)
    requires ShapeOk(cfg, m.core) && InRange(cfg, |m.lim|, e)
  {
    match e
    case FixItem(_, _) =>
      var f := EffectOf(cfg, m.core, m.best, e);
      m.(core := f.core, trail := m.trail + f.undos)
    case FixBin(_, _) =>
      var f := EffectOf(cfg, m.core, m.best, e);
      m.(core := f.core, trail := m.trail + f.undos)
    case Push => m.(lim := m.lim + [|m.trail|])
    case Pop(n) =>
      var head := m.lim[|m.lim| - n];
      Machine(
        Unwind(m.core, m.trail, head), m.best,
        if head <= |m.trail| then m.trail[..head] else m.trail,
        m.lim[..|m.lim| - n])
    case Final => m.(best := FinalBest(m.core, m.best))
  }

  function NewConflicts(out: seq<Message>): seq<seq<nat>> {
    if out == [] then []
    else
      var last := out[|out| - 1];
      NewConflicts(out[..|out| - 1]) + if last.Conflict? then [last.bins] else []
  }

  function StepRef(cfg: Config, r: Ref, e: Event): Ref
    requires ShapeOk(cfg, r.now.core) && InRange(cfg, |r.saved|, e)
  {
    match e
    case FixItem(_, _) =>
      var f := EffectOf(cfg, r.now.core, r.best, e);
      r.(now := r.now.(core := f.core, log := r.now.log + f.out))
    case FixBin(b, filled) =>
      var f := EffectOf(cfg, r.now.core, r.best, e);
      r.(now := Frame(f.core, r.now.log, r.now.lits[b := filled]), conflicts := r.conflicts + NewConflicts(f.out))
    case Push => r.(saved := r.saved + [r.now])
    case Pop(n) => r.(now := r.saved[|r.saved| - n], saved := r.saved[..|r.saved| - n])
    case Final => r.(best := FinalBest(r.now.core, r.best), conflicts := r.conflicts + [r.now.core.falsified])
  }

  ghost predicate Shapes(cfg: Config, r: Ref) {
    ShapeOk(cfg, r.now.core) && forall k :: 0 <= k < |r.saved| ==> ShapeOk(cfg, r.saved[k].core)
  }

  function InitialMachine(cfg: Config): Machine {
    Machine(InitialCore(cfg), 0, [], [])
  }

  function InitialRef(cfg: Config): Ref {
    Ref(Frame(InitialCore(cfg), [], map[]), 0, [], [])
  }

  // The two machines agree, and unwinding the trail to any recorded length gives back the state saved there.
  ghost predicate Agree(cfg: Config, m: Machine, r: Ref) {
    && Shapes(cfg, r)
    && m.core == r.now.core && m.best == r.best && |m.lim| == |r.saved|
    && (forall k :: 0 <= k < |m.lim| ==> m.lim[k] <= |m.trail|)
    && (forall j, k :: 0 <= j < k < |m.lim| ==> m.lim[j] <= m.lim[k])
    && (forall k :: 0 <= k < |m.lim| ==> Unwinds(m.core, m.trail[m.lim[k]..], r.saved[k].core))
  }

  lemma {:induction false} UnwindFollows(core: Core, older: seq<Undo>, newer: seq<Undo>, target: Core)
    requires Unwinds(core, newer, target)
    ensures Unwind(core, older + newer, |older|) == target
    decreases |newer|
  {
    var trail := older + newer;
    if newer != [] {
      var last := |newer| - 1;
      assert trail[|trail| - 1] == newer[last] && trail[..|trail| - 1] == older + newer[..last];
      UnwindFollows(ApplyUndo(core, newer[last]), older, newer[..last], target);
    }
  }

  lemma {:induction false} UnwindsSplit(c2: Core, older: seq<Undo>, newer: seq<Undo>, c1: Core, c0: Core)
    requires Unwinds(c2, newer, c1) && Unwinds(c2, older + newer, c0)
    ensures Unwinds(c1, older, c0)
    decreases |newer|
  {
    var trail := older + newer;
    if newer == [] {
      assert trail == older;
    } else {
      var last := |newer| - 1;
      assert trail[|trail| - 1] == newer[last] && trail[..|trail| - 1] == older + newer[..last];
      UnwindsSplit(ApplyUndo(c2, newer[last]), older, newer[..last], c1, c0);
    }
  }

  lemma EffectAgrees(cfg: Config, m: Machine, r: Ref, e: Event)
    requires Agree(cfg, m, r) && InRange(cfg, |m.lim|, e) && (e.FixItem? || e.FixBin?)
    ensures Agree(cfg, StepMachine(cfg, m, e), StepRef(cfg, r, e))
  {
    var f := EffectOf(cfg, m.core, m.best, e);
    match e {
      case FixItem(i, b) => PlaceItemReversible(cfg, m.core, i, b);
      case FixBin(b, filled) => DecideBinReversible(cfg, m.core, m.best, b, filled);
    }
    forall k | 0 <= k < |m.lim|
      ensures Unwinds(f.core, (m.trail + f.undos)[m.lim[k]..], r.saved[k].core)
    {
      UnwindsAppend(r.saved[k].core, m.trail[m.lim[k]..], m.core, f.undos, f.core);
      assert (m.trail + f.undos)[m.lim[k]..] == m.trail[m.lim[k]..] + f.undos;
    }
  }

  lemma PopUnwinds(m: Machine, head: nat, target: Core, j: nat, older: Core)
    requires j <= head <= |m.trail|
    requires Unwinds(m.core, m.trail[head..], target) && Unwinds(m.core, m.trail[j..], older)
    ensures Unwinds(target, m.trail[..head][j..], older)
  {
    assert m.trail[j..] == m.trail[..head][j..] + m.trail[head..];
    UnwindsSplit(m.core, m.trail[..head][j..], m.trail[head..], target, older);
  }

  lemma PopAgrees(cfg: Config, m: Machine, r: Ref, n: nat)
    requires Agree(cfg, m, r) && 1 <= n <= |m.lim|
    ensures Agree(cfg, StepMachine(cfg, m, Pop(n)), StepRef(cfg, r, Pop(n)))
  {
    var idx := |m.lim| - n;
    var head := m.lim[idx];
    assert m.trail == m.trail[..head] + m.trail[head..];
    UnwindFollows(m.core, m.trail[..head], m.trail[head..], r.saved[idx].core);
    forall k | 0 <= k < idx
      ensures Unwinds(r.saved[idx].core, m.trail[..head][m.lim[k]..], r.saved[k].core)
    {
      PopUnwinds(m, head, r.saved[idx].core, m.lim[k], r.saved[k].core);
    }
  }

  lemma StepAgrees(cfg: Config, m: Machine, r: Ref, e: Event)
    requires Agree(cfg, m, r) && InRange(cfg, |m.lim|, e)
    ensures Agree(cfg, StepMachine(cfg, m, e), StepRef(cfg, r, e))
    ensures StepMachine(cfg, m, e).best >= m.best
  {
    match e
    case FixItem(_, _) => EffectAgrees(cfg, m, r, e);
    case FixBin(_, _) => EffectAgrees(cfg, m, r, e);
    case Push =>
      assert m.trail[|m.trail|..] == [];
    case Pop(n) => PopAgrees(cfg, m, r, n);
    case Final =>
  }

  // Whole runs; events that name nothing are skipped

  function RunMachine(cfg: Config, events: seq<Event>): Machine {
    if events == [] then InitialMachine(cfg)
    else
      var m, last := RunMachine(cfg, events[..|events| - 1]), events[|events| - 1];
      if ShapeOk(cfg, m.core) && InRange(cfg, |m.lim|, last) then StepMachine(cfg, m, last) else m
  }

  function RunRef(cfg: Config, events: seq<Event>): Ref {
    if events == [] then InitialRef(cfg)
    else
      var r, last := RunRef(cfg, events[..|events| - 1]), events[|events| - 1];
      if ShapeOk(cfg, r.now.core) && InRange(cfg, |r.saved|, last) then StepRef(cfg, r, last) else r
  }

  /**
   Over any interleaving of callbacks the trail does what saving the state at each push would do: after a pop, every
   bin and the branch-and-bound record are exactly as they were at the matching push.
   */
  lemma {:induction false} TrailRefinesSnapshots(cfg: Config, events: seq<Event>)
    ensures Agree(cfg, RunMachine(cfg, events), RunRef(cfg, events))
  {
    if events != [] {
      var init, last := events[..|events| - 1], events[|events| - 1];
      TrailRefinesSnapshots(cfg, init);
      var m, r := RunMachine(cfg, init), RunRef(cfg, init);
      if InRange(cfg, |m.lim|, last) {
        StepAgrees(cfg, m, r, last);
      }
    }
  }

  lemma RunSnoc(cfg: Config, events: seq<Event>, e: Event)
    ensures var r := RunRef(cfg, events);
      RunRef(cfg, events + [e])
        == if ShapeOk(cfg, r.now.core) && InRange(cfg, |r.saved|, e) then StepRef(cfg, r, e) else r
    ensures var m := RunMachine(cfg, events);
      RunMachine(cfg, events + [e])
        == if ShapeOk(cfg, m.core) && InRange(cfg, |m.lim|, e) then StepMachine(cfg, m, e) else m
  {
    assert (events + [e])[..|events + [e]| - 1] == events;
  }

  // How many pushes more than pops.
  function Depth(events: seq<Event>): int {
    if events == [] then 0
    else
      var last := events[|events| - 1];
      Depth(events[..|events| - 1]) + DepthChange(last)
  }

  // The events never pop a push made before them.
  ghost predicate StaysAbove(events: seq<Event>) {
    if events == [] then true else Depth(events) >= 0 && StaysAbove(events[..|events| - 1])
  }

  // The reference machine stands d pushes above the push made in r0.
  ghost predicate Above(r0: Ref, r: Ref, d: int) {
    && d >= 0
    && |r.saved| == |r0.saved| + 1 + d
    && r.saved[..|r0.saved| + 1] == r0.saved + [r0.now]
  }

  function DepthChange(e: Event): int {
    match e case Push => 1 case Pop(n) => 0 - n case _ => 0
  }

  lemma AboveStep(cfg: Config, r0: Ref, r: Ref, d: int, e: Event)
    requires ShapeOk(cfg, r.now.core) && Above(r0, r, d) && d + DepthChange(e) >= 0
    ensures Above(r0, if InRange(cfg, |r.saved|, e) then StepRef(cfg, r, e) else r, d + DepthChange(e))
  {
    if e.Push? {
      assert (r.saved + [r.now])[..|r0.saved| + 1] == r.saved[..|r0.saved| + 1];
    } else if e.Pop? && InRange(cfg, |r.saved|, e) {
      assert r.saved[..|r.saved| - e.n][..|r0.saved| + 1] == r.saved[..|r0.saved| + 1];
    }
  }

  lemma {:induction false} SavedBelow(cfg: Config, before: seq<Event>, between: seq<Event>)
    requires StaysAbove(between)
    ensures Above(RunRef(cfg, before), RunRef(cfg, before + [Push] + between), Depth(between))
  {
    if between == [] {
      SameCore(cfg, before);
      RunSnoc(cfg, before, Push);
      assert before + [Push] + between == before + [Push];
    } else {
      var init, last := between[..|between| - 1], between[|between| - 1];
      var events := before + [Push] + init;
      SavedBelow(cfg, before, init);
      RunSnoc(cfg, events, last);
      SameCore(cfg, events);
      AboveStep(cfg, RunRef(cfg, before), RunRef(cfg, events), Depth(init), last);
      assert before + [Push] + between == events + [last];
    }
  }

  lemma SameCore(cfg: Config, events: seq<Event>)
    ensures RunMachine(cfg, events).core == RunRef(cfg, events).now.core
    ensures ShapeOk(cfg, RunRef(cfg, events).now.core)
  {
    TrailRefinesSnapshots(cfg, events);
  }

  lemma PopToPush(cfg: Config, r0: Ref, r: Ref, d: int)
    requires ShapeOk(cfg, r.now.core) && Above(r0, r, d)
    ensures InRange(cfg, |r.saved|, Pop(d + 1)) && StepRef(cfg, r, Pop(d + 1)).now == r0.now
  {
    assert r.saved[|r0.saved|] == r.saved[..|r0.saved| + 1][|r0.saved|];
  }

  /** A pop that matches a push restores everything the push saw, whatever happened in between. */
  lemma PopRestores(cfg: Config, before: seq<Event>, between: seq<Event>)
    requires StaysAbove(between)
    ensures Depth(between) >= 0
    ensures RunMachine(cfg, before + [Push] + between + [Pop(Depth(between) + 1)]).core == RunMachine(cfg, before).core
  {
    var events := before + [Push] + between;
    SavedBelow(cfg, before, between);
    SameCore(cfg, events);
    PopToPush(cfg, RunRef(cfg, before), RunRef(cfg, events), Depth(between));
    RunSnoc(cfg, events, Pop(Depth(between) + 1));
    SameCore(cfg, before);
    SameCore(cfg, events + [Pop(Depth(between) + 1)]);
  }

  /** The best score never goes down. */
  lemma {:induction false} BestMonotone(cfg: Config, events: seq<Event>, more: seq<Event>)
    ensures RunMachine(cfg, events + more).best >= RunMachine(cfg, events).best
  {
    if more == [] {
      assert events + more == events;
    } else {
      var init, last := more[..|more| - 1], more[|more| - 1];
      BestMonotone(cfg, events, init);
      RunSnoc(cfg, events + init, last);
      assert events + more == events + init + [last];
    }
  }
}
