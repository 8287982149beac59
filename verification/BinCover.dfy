/** The bin-cover propagator: what each callback does to the bins and to the branch-and-bound record. */
module BinCover {
  import opened IndexSums

  // Item weights, the bound each bin has to reach, and the score of each bin in the objective.
  datatype Config = Config(weights: seq<nat>, bounds: seq<nat>, scores: seq<nat>)

  predicate ValidConfig(cfg: Config) {
    && |cfg.scores| == |cfg.bounds|
    && (forall i :: 0 <= i < |cfg.weights| ==> cfg.weights[i] > 0)
    && (forall b :: 0 <= b < |cfg.bounds| ==> cfg.bounds[b] > 0 && cfg.scores[b] > 0)
  }

  datatype BinState = BinState(weight: nat, slack: int, added: seq<nat>)

  // Everything that is undone on backtracking.
  datatype Core = Core(bins: seq<BinState>, value: int, slack: int, falsified: seq<nat>)

  // One entry of the undo trail.
  datatype Undo =
    | UndoFill(bin: nat, weight: nat)
    | UndoSlack(bin: nat, slack: int)
    | UndoValue(value: int)
    | UndoBound(slack: int)

  // What is told to the solver: consequences justified by fixed items, and conflicts among bins fixed to false.
  datatype Message =
    | Filled(bin: nat, items: seq<nat>)
    | NotFilled(bin: nat, items: seq<nat>)
    | Conflict(bins: seq<nat>)

  datatype Effect = Effect(core: Core, undos: seq<Undo>, out: seq<Message>)

  datatype Event = FixItem(item: nat, bin: nat) | FixBin(bin: nat, filled: bool) | Push | Pop(n: nat) | Final

  predicate ShapeOk(cfg: Config, core: Core) {
    |core.bins| == |cfg.bounds|
  }

  // The items added to the first n bins, except bin b.
  function OtherItems(bins: seq<BinState>, b: nat, n: nat): seq<nat>
    requires n <= |bins|
  {
    if n == 0 then []
    else if n - 1 == b then OtherItems(bins, b, n - 1)
    else OtherItems(bins, b, n - 1) + bins[n - 1].added
  }

  function AddItem(cfg: Config, core: Core, i: nat, b: nat): Effect
    requires ShapeOk(cfg, core) && i < |cfg.weights| && b < |core.bins|
  {
    var bin := core.bins[b];
    var weight := bin.weight + cfg.weights[i];
    var added := bin.added + [i];
    Effect(
      core.(bins := core.bins[b := BinState(weight, bin.slack, added)]),
      [UndoFill(b, bin.weight)],
      if bin.weight < cfg.bounds[b] && weight >= cfg.bounds[b] then [Filled(b, added)] else [])
  }

  function Exclude(cfg: Config, core: Core, i: nat, b: nat): Effect
    requires ShapeOk(cfg, core) && i < |cfg.weights| && b < |core.bins|
  {
    var bin := core.bins[b];
    if bin.slack < cfg.bounds[b] || bin.weight >= cfg.bounds[b] then Effect(core, [], [])
    else
      var slack := bin.slack - cfg.weights[i];
      Effect(
        core.(bins := core.bins[b := bin.(slack := slack)]),
        [UndoSlack(b, bin.slack)],
        if slack < cfg.bounds[b] then [NotFilled(b, OtherItems(core.bins, b, |core.bins|))] else [])
  }

  // Item i, which went to bin b, is excluded from the first n bins other than b.
  function ExcludeUpTo(cfg: Config, core: Core, i: nat, b: nat, n: nat): (e: Effect)
    requires ShapeOk(cfg, core) && i < |cfg.weights| && n <= |core.bins|
    ensures ShapeOk(cfg, e.core)
  {
    if n == 0 then Effect(core, [], [])
    else
      var e := ExcludeUpTo(cfg, core, i, b, n - 1);
      if n - 1 == b then e
      else
        var f := Exclude(cfg, e.core, i, n - 1);
        Effect(f.core, e.undos + f.undos, e.out + f.out)
  }

  // An item fixed to a number that is no bin is ignored.
  function PlaceItem(cfg: Config, core: Core, i: nat, b: nat): (e: Effect)
    requires ShapeOk(cfg, core) && i < |cfg.weights|
    ensures ShapeOk(cfg, e.core)
  {
    if b >= |core.bins| then Effect(core, [], [])
    else
      var e := AddItem(cfg, core, i, b);
      var f := ExcludeUpTo(cfg, e.core, i, b, |core.bins|);
      Effect(f.core, e.undos + f.undos, e.out + f.out)
  }

  function DecideBin(cfg: Config, core: Core, best: int, b: nat, filled: bool): Effect
    requires b < |cfg.scores|
  {
    var score := cfg.scores[b];
    if filled then
      Effect(core.(value := core.value + score), [UndoValue(core.value)], [])
    else if best > core.slack - score then
      Effect(core, [], [Conflict(core.falsified + [b])])
    else
      Effect(core.(slack := core.slack - score, falsified := core.falsified + [b]), [UndoBound(core.slack)], [])
  }

  function FinalBest(core: Core, best: int): int {
    if core.value > best then core.value else best
  }

  function InitialCore(cfg: Config): Core {
    Core(seq(|cfg.bounds|, _ => BinState(0, Sum(cfg.weights), [])), 0, Sum(cfg.scores), [])
  }

  // Undoing

  predicate CanUndo(core: Core, u: Undo) {
    match u
    case UndoFill(b, _) => b < |core.bins| && core.bins[b].added != []
    case UndoSlack(b, _) => b < |core.bins|
    case UndoValue(_) => true
    case UndoBound(_) => core.falsified != []
  }

  function ApplyUndo(core: Core, u: Undo): Core
    requires CanUndo(core, u)
  {
    match u
    case UndoFill(b, w) =>
      var bin := core.bins[b];
      core.(bins := core.bins[b := bin.(weight := w, added := bin.added[..|bin.added| - 1])])
    case UndoSlack(b, slack) => core.(bins := core.bins[b := core.bins[b].(slack := slack)])
    case UndoValue(v) => core.(value := v)
    case UndoBound(slack) => core.(slack := slack, falsified := core.falsified[..|core.falsified| - 1])
  }

  // Undoing the trail, newest entry first, leads from one core to another.
  ghost predicate Unwinds(core: Core, trail: seq<Undo>, target: Core)
    decreases |trail|
  {
    if trail == [] then core == target
    else
      var last := |trail| - 1;
      CanUndo(core, trail[last]) && Unwinds(ApplyUndo(core, trail[last]), trail[..last], target)
  }

  lemma {:induction false} UnwindsAppend(c0: Core, older: seq<Undo>, c1: Core, newer: seq<Undo>, c2: Core)
    requires Unwinds(c2, newer, c1) && Unwinds(c1, older, c0)
    ensures Unwinds(c2, older + newer, c0)
    decreases |newer|
  {
    if newer == [] {
      assert older + newer == older;
    } else {
      var last := |newer| - 1;
      UnwindsAppend(c0, older, c1, newer[..last], ApplyUndo(c2, newer[last]));
      var trail := older + newer;
      assert trail[..|trail| - 1] == older + newer[..last] && trail[|trail| - 1] == newer[last];
    }
  }

  lemma UnwindsOne(core: Core, u: Undo, target: Core)
    requires CanUndo(core, u) && ApplyUndo(core, u) == target
    ensures Unwinds(core, [u], target)
  {
    assert [u][..0] == [];
  }

  // Each effect is undone by its own trail entries.
  ghost predicate Reversible(core: Core, e: Effect) {
    Unwinds(e.core, e.undos, core)
  }

  lemma AddItemReversible(cfg: Config, core: Core, i: nat, b: nat)
    requires ShapeOk(cfg, core) && i < |cfg.weights| && b < |core.bins|
    ensures Reversible(core, AddItem(cfg, core, i, b))
  {
    var e, bin := AddItem(cfg, core, i, b), core.bins[b];
    assert (bin.added + [i])[..|bin.added|] == bin.added;
    assert ApplyUndo(e.core, e.undos[0]).bins == core.bins;
    UnwindsOne(e.core, e.undos[0], core);
  }

  lemma ExcludeReversible(cfg: Config, core: Core, i: nat, b: nat)
    requires ShapeOk(cfg, core) && i < |cfg.weights| && b < |core.bins|
    ensures Reversible(core, Exclude(cfg, core, i, b))
  {
    var e := Exclude(cfg, core, i, b);
    if e.undos != [] {
      assert ApplyUndo(e.core, e.undos[0]).bins == core.bins;
      UnwindsOne(e.core, e.undos[0], core);
    }
  }

  lemma {:induction false} ExcludeUpToReversible(cfg: Config, core: Core, i: nat, b: nat, n: nat)
    requires ShapeOk(cfg, core) && i < |cfg.weights| && n <= |core.bins|
    ensures Reversible(core, ExcludeUpTo(cfg, core, i, b, n))
  {
    if n > 0 {
      ExcludeUpToReversible(cfg, core, i, b, n - 1);
      if n - 1 != b {
        var e := ExcludeUpTo(cfg, core, i, b, n - 1);
        var f := Exclude(cfg, e.core, i, n - 1);
        ExcludeReversible(cfg, e.core, i, n - 1);
        UnwindsAppend(core, e.undos, e.core, f.undos, f.core);
      }
    }
  }

  lemma PlaceItemReversible(cfg: Config, core: Core, i: nat, b: nat)
    requires ShapeOk(cfg, core) && i < |cfg.weights|
    ensures Reversible(core, PlaceItem(cfg, core, i, b))
  {
    if b < |core.bins| {
      var e := AddItem(cfg, core, i, b);
      AddItemReversible(cfg, core, i, b);
      ExcludeUpToReversible(cfg, e.core, i, b, |core.bins|);
      var f := ExcludeUpTo(cfg, e.core, i, b, |core.bins|);
      UnwindsAppend(core, e.undos, e.core, f.undos, f.core);
    }
  }

  lemma DecideBinReversible(cfg: Config, core: Core, best: int, b: nat, filled: bool)
    requires b < |cfg.scores|
    ensures Reversible(core, DecideBin(cfg, core, best, b, filled))
  {
    var e := DecideBin(cfg, core, best, b, filled);
    if e.undos != [] {
      assert (core.falsified + [b])[..|core.falsified|] == core.falsified;
      UnwindsOne(e.core, e.undos[0], core);
    }
  }
}
