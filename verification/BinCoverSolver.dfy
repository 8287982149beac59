/** The propagator's objects: bins, the branch-and-bound record and the solver with its undo trail. */
module BinCoverSolver {
  import opened IndexSums
  import opened BinCover
  import opened BinCoverRuns

  class Bin {
    const index: nat
    const minBound: nat
    var weight: nat
    var slack: int
    var added: seq<nat>

    constructor (minBound: nat, index: nat)
      requires minBound > 0
      ensures this.minBound == minBound && this.index == index
      ensures weight == 0 && slack == 0 && added == []
    {
      this.minBound, this.index := minBound, index;
      weight, slack, added := 0, 0, [];
    }

    function State(): BinState
      reads this
    {
      BinState(weight, slack, added)
    }
  }

  class BranchAndBound {
    const scores: seq<nat>
    var value: int
    var best: int
    var slack: int
    var assignedToFalse: seq<nat>

    constructor (scores: seq<nat>)
      ensures this.scores == scores
      ensures value == 0 && best == 0 && slack == Sum(scores) && assignedToFalse == []
    {
      this.scores := scores;
      value, best, assignedToFalse := 0, 0, [];
      var total, i := 0, 0;
      while i < |scores|
        invariant i <= |scores| && total == Sum(scores[..i])
      {
        assert scores[..i + 1][..i] == scores[..i];
        total := total + scores[i];
        i := i + 1;
      }
      assert scores[..i] == scores;
      slack := total;
    }

    /** A bin is decided: the trail entry that undoes it, and the conflict when the best is out of reach. */
    method Fixed(p: nat, filled: bool) returns (undos: seq<Undo>, out: seq<Message>)
      requires p < |scores|
      modifies this
      ensures forall cfg: Config, bins :: cfg.scores == scores ==>
        DecideBin(cfg, Core(bins, old(value), old(slack), old(assignedToFalse)), best, p, filled)
        == Effect(Core(bins, value, slack, assignedToFalse), undos, out)
      ensures best == old(best)
    {
      var weight := scores[p];
      undos, out := [], [];
      if filled {
        undos := [UndoValue(value)];
        value := value + weight;
      } else if best > slack - weight {
        assignedToFalse := assignedToFalse + [p];
        out := [Conflict(assignedToFalse)];
        assignedToFalse := assignedToFalse[..|assignedToFalse| - 1];
      } else {
        undos := [UndoBound(slack)];
        slack := slack - weight;
        assignedToFalse := assignedToFalse + [p];
      }
    }

    method Final() returns (out: seq<Message>)
      modifies this`best
      ensures best == FinalBest(Core([], value, slack, assignedToFalse), old(best))
      ensures out == [Conflict(assignedToFalse)]
    {
      if value > best {
        best := value;
      }
      out := [Conflict(assignedToFalse)];
    }
  }

  ghost predicate AllDistinct(bins: seq<Bin>) {
    forall j, k :: 0 <= j < k < |bins| ==> bins[j] != bins[k]
  }

  ghost function States(bins: seq<Bin>): (states: seq<BinState>)
    reads bins
    ensures |states| == |bins| && forall k :: 0 <= k < |bins| ==> states[k] == bins[k].State()
  {
    seq(|bins|, k requires 0 <= k < |bins| reads bins => bins[k].State())
  }

  lemma ExcludeNext(cfg: Config, core: Core, i: nat, b: nat, n: nat)
    requires ShapeOk(cfg, core) && i < |cfg.weights| && n < |core.bins|
    ensures var e := ExcludeUpTo(cfg, core, i, b, n);
      ExcludeUpTo(cfg, core, i, b, n + 1) ==
      if n == b then e
      else
        var f := Exclude(cfg, e.core, i, n);
        Effect(f.core, e.undos + f.undos, e.out + f.out)
  {
  }

  class BinCoverSolver {
    const weights: seq<nat>
    const bins: seq<Bin>
    const branchAndBound: BranchAndBound
    var trail: seq<Undo>
    var lim: seq<nat>
    // the callbacks received so far
    ghost var history: seq<Event>
    ghost const cfg: Config

    ghost function CoreView(): Core
      reads this, bins, branchAndBound
    {
      Core(States(bins), branchAndBound.value, branchAndBound.slack, branchAndBound.assignedToFalse)
    }

    ghost function View(): Machine
      reads this, bins, branchAndBound
    {
      Machine(CoreView(), branchAndBound.best, trail, lim)
    }

    // The objects match the configuration.
    ghost predicate Fits()
    {
      && AllDistinct(bins) && |bins| == |cfg.bounds|
      && (forall k :: 0 <= k < |bins| ==> bins[k].minBound == cfg.bounds[k] && bins[k].index == k)
      && cfg.weights == weights && cfg.scores == branchAndBound.scores && |cfg.scores| == |cfg.bounds|
    }

    ghost predicate Valid()
      reads this, bins, branchAndBound
    {
      Fits() && View() == RunMachine(cfg, history)
    }

    constructor (weights: seq<nat>, bounds: seq<nat>)
      requires forall i :: 0 <= i < |weights| ==> weights[i] > 0
      requires forall b :: 0 <= b < |bounds| ==> bounds[b] > 0
      ensures Valid() && history == [] && cfg == Config(weights, bounds, seq(|bounds|, _ => 1)) && ValidConfig(cfg)
    {
      this.weights := weights;
      trail, lim, history := [], [], [];
      var ones := seq(|bounds|, _ => 1);
      cfg := Config(weights, bounds, ones);
      var total, i := 0, 0;
      while i < |weights|
        invariant i <= |weights| && total == Sum(weights[..i])
      {
        assert weights[..i + 1][..i] == weights[..i];
        total := total + weights[i];
        i := i + 1;
      }
      assert weights[..i] == weights;
      var made: seq<Bin> := [];
      while |made| < |bounds|
        invariant |made| <= |bounds| && AllDistinct(made)
        invariant forall k :: 0 <= k < |made| ==>
          fresh(made[k]) && made[k].minBound == bounds[k] && made[k].index == k
            && made[k].State() == BinState(0, total, [])
      {
        var bin := new Bin(bounds[|made|], |made|);
        bin.slack := total;
        made := made + [bin];
      }
      bins := made;
      branchAndBound := new BranchAndBound(ones);
      new;
      assert States(bins) == InitialCore(cfg).bins;
      assert CoreView() == InitialCore(cfg);
    }

    // Only bin k changes.
    twostate lemma OneBinChanged(k: nat)
      requires Fits() && k < |bins|
      requires forall j :: 0 <= j < |bins| && j != k ==> bins[j].State() == old(bins[j].State())
      ensures States(bins) == old(States(bins))[k := bins[k].State()]
    {
    }

    method AddItem2Bin(i: nat, k: nat) returns (out: seq<Message>)
      requires Fits() && i < |weights| && k < |bins|
      modifies this`trail, bins[k]
      ensures var e := AddItem(cfg, old(CoreView()), i, k);
        CoreView() == e.core && trail == old(trail) + e.undos && out == e.out
    {
      var bin := bins[k];
      var oldWeight := bin.weight;
      bin.weight := bin.weight + weights[i];
      bin.added := bin.added + [i];
      trail := trail + [UndoFill(k, oldWeight)];
      out := [];
      if oldWeight < bin.minBound && oldWeight + weights[i] >= bin.minBound {
        out := [Filled(k, bin.added)];
      }
      OneBinChanged(k);
    }

    method OtherBinsItems(k: nat) returns (items: seq<nat>)
      requires Fits()
      ensures items == OtherItems(States(bins), k, |bins|)
    {
      items := [];
      var idx := 0;
      while idx < |bins|
        invariant idx <= |bins|
        invariant items == OtherItems(States(bins), k, idx)
      {
        if bins[idx].index != k {
          items := items + bins[idx].added;
        }
        idx := idx + 1;
      }
    }

    method ExcludeItem2Bin(i: nat, k: nat) returns (out: seq<Message>)
      requires Fits() && i < |weights| && k < |bins|
      modifies this`trail, bins[k]
      ensures var e := Exclude(cfg, old(CoreView()), i, k);
        CoreView() == e.core && trail == old(trail) + e.undos && out == e.out
    {
      var bin := bins[k];
      out := [];
      if bin.slack < bin.minBound || bin.weight >= bin.minBound {
        assert trail + [] == trail;
        return;
      }
      var oldSlack := bin.slack;
      var newSlack := oldSlack - weights[i];
      if newSlack < bin.minBound {
        var items := OtherBinsItems(k);
        out := [NotFilled(k, items)];
      }
      bin.slack := newSlack;
      trail := trail + [UndoSlack(k, oldSlack)];
      OneBinChanged(k);
    }

    // The state after an effect whose trail entries went behind the given ones.
    ghost predicate After(e: Effect, before: seq<Undo>)
      reads this, bins, branchAndBound
    {
      CoreView() == e.core && trail == before + e.undos
    }

    // One turn of the loop over the bins.
    method ExcludeTurn(i: nat, k: nat, idx: nat, ghost before: seq<Undo>, ghost e: Effect, ghost e': Effect)
      returns (out: seq<Message>)
      requires Fits() && i < |weights| && idx < |bins| && ShapeOk(cfg, e.core)
      requires e' == if idx == k then e
                     else var f := Exclude(cfg, e.core, i, idx); Effect(f.core, e.undos + f.undos, e.out + f.out)
      requires After(e, before)
      modifies this`trail, bins[idx]
      ensures After(e', before) && e'.out == e.out + out
    {
      out := [];
      if idx != k {
        out := ExcludeItem2Bin(i, idx);
        ghost var undos := Exclude(cfg, e.core, i, idx).undos;
        assert before + e.undos + undos == before + (e.undos + undos);
      }
    }

    method ExcludeFromOthers(i: nat, k: nat) returns (out: seq<Message>)
      requires Fits() && i < |weights| && k < |bins|
      modifies this`trail, bins
      ensures var e := ExcludeUpTo(cfg, old(CoreView()), i, k, |bins|);
        After(e, old(trail)) && out == e.out
    {
      out := [];
      ghost var start := CoreView();
      ghost var e := ExcludeUpTo(cfg, start, i, k, 0);
      var idx := 0;
      while idx < |bins|
        invariant idx <= |bins| && ShapeOk(cfg, start) && e == ExcludeUpTo(cfg, start, i, k, idx)
        invariant After(e, old(trail)) && out == e.out
      {
        ghost var e' := ExcludeUpTo(cfg, start, i, k, idx + 1);
        ExcludeNext(cfg, start, i, k, idx);
        var more := ExcludeTurn(i, k, idx, old(trail), e, e');
        out := out + more;
        e := e';
        idx := idx + 1;
      }
      assert e == ExcludeUpTo(cfg, start, i, k, |bins|);
    }

    method PlaceInBin(i: nat, k: nat) returns (out: seq<Message>)
      requires Fits() && i < |weights| && k < |bins|
      modifies this`trail, bins
      ensures var e := PlaceItem(cfg, old(CoreView()), i, k);
        CoreView() == e.core && trail == old(trail) + e.undos && out == e.out
    {
      out := AddItem2Bin(i, k);
      ghost var e := AddItem(cfg, old(CoreView()), i, k);
      ghost var f := ExcludeUpTo(cfg, e.core, i, k, |bins|);
      var more := ExcludeFromOthers(i, k);
      out := out + more;
      assert old(trail) + e.undos + f.undos == old(trail) + (e.undos + f.undos);
    }

    /** An item is fixed to a number; when that is no bin, nothing happens. */
    method FixedItem(i: nat, value: nat) returns (out: seq<Message>)
      requires Valid() && i < |weights|
      modifies this, bins
      ensures Valid() && history == old(history) + [FixItem(i, value)]
      ensures View() == StepMachine(cfg, old(View()), FixItem(i, value))
      ensures out == PlaceItem(cfg, old(CoreView()), i, value).out
    {
      RunSnoc(cfg, history, FixItem(i, value));
      history := history + [FixItem(i, value)];
      if value >= |bins| {
        assert trail + [] == trail;
        out := [];
      } else {
        out := PlaceInBin(i, value);
      }
    }

    method FixedBin(b: nat, filled: bool) returns (out: seq<Message>)
      requires Valid() && b < |bins|
      modifies this, branchAndBound
      ensures Valid() && history == old(history) + [FixBin(b, filled)]
      ensures View() == StepMachine(cfg, old(View()), FixBin(b, filled))
      ensures out == DecideBin(cfg, old(CoreView()), old(branchAndBound.best), b, filled).out
    {
      RunSnoc(cfg, history, FixBin(b, filled));
      history := history + [FixBin(b, filled)];
      var undos;
      undos, out := branchAndBound.Fixed(b, filled);
      trail := trail + undos;
    }

    method FinalCheck() returns (out: seq<Message>)
      requires Valid()
      modifies this`history, branchAndBound
      ensures Valid() && history == old(history) + [Final]
      ensures View() == StepMachine(cfg, old(View()), Final)
      ensures out == [Conflict(branchAndBound.assignedToFalse)]
    {
      RunSnoc(cfg, history, Final);
      history := history + [Final];
      out := branchAndBound.Final();
    }

    method PushScope()
      requires Valid()
      modifies this
      ensures Valid() && history == old(history) + [Push]
      ensures View() == StepMachine(cfg, old(View()), Push)
    {
      RunSnoc(cfg, history, Push);
      history := history + [Push];
      lim := lim + [|trail|];
    }

    // Runs the newest entry of the trail.
    method RunUndo(u: Undo)
      requires Fits() && CanUndo(CoreView(), u)
      modifies bins, branchAndBound`value, branchAndBound`slack, branchAndBound`assignedToFalse
      ensures CoreView() == ApplyUndo(old(CoreView()), u)
    {
      match u
      case UndoFill(k, w) =>
        bins[k].weight := w;
        bins[k].added := bins[k].added[..|bins[k].added| - 1];
        OneBinChanged(k);
      case UndoSlack(k, slack) =>
        bins[k].slack := slack;
        OneBinChanged(k);
      case UndoValue(v) =>
        branchAndBound.value := v;
      case UndoBound(slack) =>
        branchAndBound.slack := slack;
        branchAndBound.assignedToFalse := branchAndBound.assignedToFalse[..|branchAndBound.assignedToFalse| - 1];
    }

    // Runs the trail down to a recorded length.
    method UnwindTo(head: nat, ghost target: Core)
      requires Fits() && head <= |trail| && Unwinds(CoreView(), trail[head..], target)
      modifies this`trail, bins, branchAndBound`value, branchAndBound`slack, branchAndBound`assignedToFalse
      ensures CoreView() == target && trail == old(trail)[..head]
    {
      while |trail| > head
        invariant head <= |trail| <= |old(trail)| && trail == old(trail)[..|trail|]
        invariant Unwinds(CoreView(), trail[head..], target)
        decreases |trail|
      {
        var last := |trail| - 1;
        assert trail[head..][|trail[head..]| - 1] == trail[last];
        assert trail[head..][..|trail[head..]| - 1] == trail[..last][head..];
        RunUndo(trail[last]);
        trail := trail[..last];
      }
      assert trail[head..] == [];
    }

    /** Undoes the newest n scopes. */
    method PopScopes(n: nat)
      requires Valid() && 1 <= n <= |lim|
      modifies this, bins, branchAndBound
      ensures Valid() && history == old(history) + [Pop(n)]
      ensures View() == StepMachine(cfg, old(View()), Pop(n))
    {
      RunSnoc(cfg, history, Pop(n));
      TrailRefinesSnapshots(cfg, history);
      ghost var target := RunRef(cfg, history).saved[|lim| - n].core;
      history := history + [Pop(n)];
      var head := lim[|lim| - n];
      UndoneFollows(CoreView(), trail, head, target);
      UnwindTo(head, target);
      lim := lim[..|lim| - n];
    }

    static lemma UndoneFollows(core: Core, trail: seq<Undo>, head: nat, target: Core)
      requires head <= |trail| && Unwinds(core, trail[head..], target)
      ensures Unwind(core, trail, head) == target
    {
      UnwindFollows(core, trail[..head], trail[head..], target);
      assert trail == trail[..head] + trail[head..];
    }
  }
}
