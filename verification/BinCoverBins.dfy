/** What placing items keeps true of the bins, and what the propagated consequences mean. */
module BinCoverBins {
  import opened Lists
  import opened IndexSums
  import opened BinCover

  ghost function Others(bins: seq<BinState>, b: nat): set<nat> {
    ToSet(OtherItems(bins, b, |bins|))
  }

  lemma {:induction false} OtherItemsMembers(bins: seq<BinState>, b: nat, n: nat, x: nat)
    requires n <= |bins|
    ensures x in OtherItems(bins, b, n) <==> exists c :: 0 <= c < n && c != b && x in bins[c].added
  {
    if n > 0 {
      OtherItemsMembers(bins, b, n - 1, x);
    }
  }

  lemma {:induction false} OtherItemsSame(bins: seq<BinState>, bins': seq<BinState>, b: nat, n: nat)
    requires n <= |bins| == |bins'|
    requires forall c :: 0 <= c < |bins| ==> bins[c].added == bins'[c].added
    ensures OtherItems(bins, b, n) == OtherItems(bins', b, n)
  {
    if n > 0 {
      OtherItemsSame(bins, bins', b, n - 1);
    }
  }

  ghost predicate IsPlaced(bins: seq<BinState>, x: nat) {
    exists c :: 0 <= c < |bins| && x in bins[c].added
  }

  // No item is in two bins.
  ghost predicate Disjoint(bins: seq<BinState>) {
    forall c, d, x :: 0 <= c < |bins| && 0 <= d < |bins| && x in bins[c].added && x in bins[d].added ==> c == d
  }

  // The slack bounds what the bin can still get when the items of `others` have gone elsewhere,
  // and is exact as long as the bin is neither filled nor out of reach.
  ghost predicate SlackOk(cfg: Config, bin: BinState, bound: nat, others: set<nat>) {
    && bin.slack >= Sum(cfg.weights) - SumOver(cfg.weights, others)
    && (bin.slack >= bound && bin.weight < bound ==> bin.slack == Sum(cfg.weights) - SumOver(cfg.weights, others))
  }

  ghost predicate WeightsOk(cfg: Config, core: Core) {
    && ShapeOk(cfg, core)
    && Disjoint(core.bins)
    && (forall c :: 0 <= c < |core.bins| ==> Within(ToSet(core.bins[c].added), |cfg.weights|))
    && (forall c :: 0 <= c < |core.bins| ==> core.bins[c].weight == SumOver(cfg.weights, ToSet(core.bins[c].added)))
  }

  ghost predicate BinsOk(cfg: Config, core: Core) {
    && WeightsOk(cfg, core)
    && forall c :: 0 <= c < |core.bins| ==> SlackOk(cfg, core.bins[c], cfg.bounds[c], Others(core.bins, c))
  }

  lemma InitialBinsOk(cfg: Config)
    requires ValidConfig(cfg)
    ensures BinsOk(cfg, InitialCore(cfg))
  {
    var core := InitialCore(cfg);
    forall c | 0 <= c < |core.bins|
      ensures core.bins[c].weight == SumOver(cfg.weights, ToSet(core.bins[c].added))
      ensures SlackOk(cfg, core.bins[c], cfg.bounds[c], Others(core.bins, c))
    {
      assert ToSet(core.bins[c].added) == {};
      assert Others(core.bins, c) == {} by {
        forall x ensures x !in OtherItems(core.bins, c, |core.bins|) {
          OtherItemsMembers(core.bins, c, |core.bins|, x);
        }
      }
      SumOverAbove(cfg.weights, {});
    }
  }

  // A bin is never both filled and out of reach, and its slack covers its weight.
  lemma NotBoth(cfg: Config, core: Core, c: nat)
    requires BinsOk(cfg, core) && c < |core.bins|
    ensures core.bins[c].weight <= Sum(cfg.weights) - SumOver(cfg.weights, Others(core.bins, c)) <= core.bins[c].slack
    ensures !(core.bins[c].weight >= cfg.bounds[c] && core.bins[c].slack < cfg.bounds[c])
  {
    OthersApart(core.bins, c);
    SumOverSplit(cfg.weights, ToSet(core.bins[c].added), Others(core.bins, c));
  }

  lemma OthersApart(bins: seq<BinState>, c: nat)
    requires Disjoint(bins) && c < |bins|
    ensures ToSet(bins[c].added) !! Others(bins, c)
  {
    forall x | x in bins[c].added
      ensures x !in OtherItems(bins, c, |bins|)
    {
      OtherItemsMembers(bins, c, |bins|, x);
    }
  }

  /** Once every item is in a bin, every bin that could be filled at all is either filled or out of reach. */
  lemma AllPlacedDecides(cfg: Config, core: Core, c: nat)
    requires BinsOk(cfg, core) && c < |core.bins|
    requires forall x: nat :: x < |cfg.weights| ==> IsPlaced(core.bins, x)
    requires cfg.bounds[c] <= Sum(cfg.weights)
    ensures core.bins[c].weight >= cfg.bounds[c] <==> core.bins[c].slack >= cfg.bounds[c]
  {
    NotBoth(cfg, core, c);
    OthersApart(core.bins, c);
    forall x: nat | x < |cfg.weights|
      ensures x in ToSet(core.bins[c].added) + Others(core.bins, c)
    {
      assert IsPlaced(core.bins, x);
      OtherItemsMembers(core.bins, c, |core.bins|, x);
    }
    SumOverSplit(cfg.weights, ToSet(core.bins[c].added), Others(core.bins, c));
  }

  // Placing an item

  lemma AddItemWeights(cfg: Config, core: Core, i: nat, b: nat)
    requires WeightsOk(cfg, core) && i < |cfg.weights| && b < |core.bins| && !IsPlaced(core.bins, i)
    ensures var core' := AddItem(cfg, core, i, b).core;
      && WeightsOk(cfg, core')
      && Others(core'.bins, b) == Others(core.bins, b)
      && forall c: nat :: c < |core.bins| && c != b ==>
           Others(core'.bins, c) == Others(core.bins, c) + {i} && i !in Others(core.bins, c)
  {
    var core' := AddItem(cfg, core, i, b).core;
    assert ToSet(core'.bins[b].added) == ToSet(core.bins[b].added) + {i};
    assert i !in core.bins[b].added;
    SumOverAdd(cfg.weights, ToSet(core.bins[b].added), i);
    forall c: nat | c < |core.bins|
      ensures Others(core'.bins, c) == if c == b then Others(core.bins, c) else Others(core.bins, c) + {i}
      ensures i !in Others(core.bins, c)
    {
      OthersAfterAdd(core.bins, core'.bins, i, b, c);
    }
  }

  lemma OthersAfterAdd(bins: seq<BinState>, bins': seq<BinState>, i: nat, b: nat, c: nat)
    requires b < |bins| == |bins'| && c < |bins| && !IsPlaced(bins, i)
    requires bins'[b].added == bins[b].added + [i]
    requires forall d :: 0 <= d < |bins| && d != b ==> bins'[d] == bins[d]
    ensures Others(bins', c) == if c == b then Others(bins, c) else Others(bins, c) + {i}
    ensures i !in Others(bins, c)
  {
    forall x
      ensures x in Others(bins', c) <==> x in Others(bins, c) || (c != b && x == i)
    {
      OtherItemsMembers(bins, c, |bins|, x);
      OtherItemsMembers(bins', c, |bins|, x);
      if x in Others(bins, c) {
        var d :| 0 <= d < |bins| && d != c && x in bins[d].added;
        assert x in bins'[d].added;
      }
      if c != b {
        assert i in bins'[b].added;
      }
    }
    OtherItemsMembers(bins, c, |bins|, i);
  }

  // Item i has just gone to bin b; the other bins have not heard of it yet.
  ghost predicate Ready(cfg: Config, core: Core, i: nat, b: nat) {
    && WeightsOk(cfg, core)
    && forall c: nat :: c < |core.bins| ==> ReadyBin(cfg, core, i, b, c)
  }

  ghost predicate ReadyBin(cfg: Config, core: Core, i: nat, b: nat, c: nat)
    requires ShapeOk(cfg, core) && c < |core.bins|
  {
    if c == b then SlackOk(cfg, core.bins[c], cfg.bounds[c], Others(core.bins, c))
    else i in Others(core.bins, c) && SlackOk(cfg, core.bins[c], cfg.bounds[c], Others(core.bins, c) - {i})
  }

  lemma AddItemReady(cfg: Config, core: Core, i: nat, b: nat)
    requires BinsOk(cfg, core) && i < |cfg.weights| && b < |core.bins| && !IsPlaced(core.bins, i)
    ensures Ready(cfg, AddItem(cfg, core, i, b).core, i, b)
  {
    var core' := AddItem(cfg, core, i, b).core;
    AddItemWeights(cfg, core, i, b);
    forall c: nat | c < |core.bins|
      ensures ReadyBin(cfg, core', i, b, c)
    {
      assert SlackOk(cfg, core.bins[c], cfg.bounds[c], Others(core.bins, c));
      if c != b {
        assert Others(core'.bins, c) - {i} == Others(core.bins, c);
      }
    }
  }

  ghost predicate SameAdded(bins: seq<BinState>, bins': seq<BinState>)
    requires |bins| == |bins'|
  {
    forall c :: 0 <= c < |bins| ==> bins'[c].added == bins[c].added && bins'[c].weight == bins[c].weight
  }

  lemma SameAddedKeeps(cfg: Config, core: Core, core': Core)
    requires WeightsOk(cfg, core) && |core'.bins| == |core.bins| && SameAdded(core.bins, core'.bins)
    ensures WeightsOk(cfg, core')
    ensures forall c: nat :: c < |core.bins| ==> Others(core'.bins, c) == Others(core.bins, c)
  {
    forall c: nat | c < |core.bins|
      ensures Others(core'.bins, c) == Others(core.bins, c)
    {
      OtherItemsSame(core.bins, core'.bins, c, |core.bins|);
    }
  }

  // What excluding item i leaves of a bin.
  ghost function Excluded(cfg: Config, bin: BinState, bound: nat, i: nat): BinState
    requires i < |cfg.weights|
  {
    if bin.slack < bound || bin.weight >= bound then bin else bin.(slack := bin.slack - cfg.weights[i])
  }

  lemma ExcludedSlack(cfg: Config, bin: BinState, bound: nat, others: set<nat>, i: nat)
    requires i < |cfg.weights| && i in others
    requires SlackOk(cfg, bin, bound, others - {i})
    ensures SlackOk(cfg, Excluded(cfg, bin, bound, i), bound, others)
  {
    SumOverAdd(cfg.weights, others - {i}, i);
    assert others - {i} + {i} == others;
  }

  // The exclusions treat each bin by itself.
  lemma {:induction false} ExcludeUpToBin(cfg: Config, core: Core, i: nat, b: nat, n: nat, c: nat)
    requires ShapeOk(cfg, core) && i < |cfg.weights| && n <= |core.bins| && c < |core.bins|
    ensures ExcludeUpTo(cfg, core, i, b, n).core.bins[c] ==
      if c < n && c != b then Excluded(cfg, core.bins[c], cfg.bounds[c], i) else core.bins[c]
  {
    if n > 0 {
      ExcludeUpToBin(cfg, core, i, b, n - 1, c);
    }
  }

  lemma ExcludeUpToAdded(cfg: Config, core: Core, i: nat, b: nat, n: nat)
    requires ShapeOk(cfg, core) && i < |cfg.weights| && n <= |core.bins|
    ensures SameAdded(core.bins, ExcludeUpTo(cfg, core, i, b, n).core.bins)
  {
    forall c | 0 <= c < |core.bins|
      ensures ExcludeUpTo(cfg, core, i, b, n).core.bins[c].added == core.bins[c].added
      ensures ExcludeUpTo(cfg, core, i, b, n).core.bins[c].weight == core.bins[c].weight
    {
      ExcludeUpToBin(cfg, core, i, b, n, c);
    }
  }

  lemma PlaceItemAdded(cfg: Config, core: Core, i: nat, b: nat, c: nat)
    requires ShapeOk(cfg, core) && i < |cfg.weights| && b < |core.bins| && c < |core.bins|
    ensures PlaceItem(cfg, core, i, b).core.bins[c].added == core.bins[c].added + if c == b then [i] else []
  {
    ExcludeUpToAdded(cfg, AddItem(cfg, core, i, b).core, i, b, |core.bins|);
  }

  lemma ExcludeAllBinsOk(cfg: Config, core: Core, i: nat, b: nat, core': Core)
    requires Ready(cfg, core, i, b) && i < |cfg.weights|
    requires core' == ExcludeUpTo(cfg, core, i, b, |core.bins|).core
    ensures BinsOk(cfg, core')
  {
    ExcludeUpToAdded(cfg, core, i, b, |core.bins|);
    SameAddedKeeps(cfg, core, core');
    forall c: nat | c < |core.bins|
      ensures SlackOk(cfg, core'.bins[c], cfg.bounds[c], Others(core'.bins, c))
    {
      assert ReadyBin(cfg, core, i, b, c);
      ExcludeUpToBin(cfg, core, i, b, |core.bins|, c);
      if c != b {
        ExcludedSlack(cfg, core.bins[c], cfg.bounds[c], Others(core.bins, c), i);
      }
    }
  }

  /** Placing an item that is in no bin yet keeps weights and slacks right. */
  lemma PlaceItemBinsOk(cfg: Config, core: Core, i: nat, b: nat)
    requires BinsOk(cfg, core) && i < |cfg.weights| && !IsPlaced(core.bins, i)
    ensures BinsOk(cfg, PlaceItem(cfg, core, i, b).core)
  {
    if b < |core.bins| {
      AddItemReady(cfg, core, i, b);
      ExcludeAllBinsOk(cfg, AddItem(cfg, core, i, b).core, i, b, PlaceItem(cfg, core, i, b).core);
    }
  }
}
