/** The propagated consequences of placing items: each is justified, and each is told exactly once. */
module BinCoverMessages {
  import opened Lists
  import opened IndexSums
  import opened BinCover
  import opened BinCoverBins

  // A completed placement gives every item a bin.
  ghost function InBin(g: seq<nat>, b: nat): set<nat> {
    set i: nat | i < |g| && g[i] == b
  }

  ghost function Load(cfg: Config, g: seq<nat>, b: nat): nat {
    SumOver(cfg.weights, InBin(g, b))
  }

  // The placement puts the given items where the bins have them.
  ghost predicate Agrees(bins: seq<BinState>, items: seq<nat>, g: seq<nat>) {
    forall x, c: nat :: x in items && c < |bins| && x in bins[c].added ==> x < |g| && g[x] == c
  }

  // The message holds in every placement that agrees with its justification.
  ghost predicate Justified(cfg: Config, bins: seq<BinState>, msg: Message) {
    match msg
    case Filled(b, items) =>
      b < |cfg.bounds| && forall g :: |g| == |cfg.weights| && Agrees(bins, items, g) ==>
        Load(cfg, g, b) >= cfg.bounds[b]
    case NotFilled(b, items) =>
      b < |cfg.bounds| && forall g :: |g| == |cfg.weights| && Agrees(bins, items, g) ==> Load(cfg, g, b) < cfg.bounds[b]
    case Conflict(_) => true
  }

  ghost predicate AllJustified(cfg: Config, bins: seq<BinState>, out: seq<Message>) {
    forall msg :: msg in out ==> Justified(cfg, bins, msg)
  }

  lemma FilledJustified(cfg: Config, core: Core, b: nat)
    requires WeightsOk(cfg, core) && b < |core.bins| && core.bins[b].weight >= cfg.bounds[b]
    ensures Justified(cfg, core.bins, Filled(b, core.bins[b].added))
  {
    var items := core.bins[b].added;
    forall g | |g| == |cfg.weights| && Agrees(core.bins, items, g)
      ensures Load(cfg, g, b) >= cfg.bounds[b]
    {
      assert ToSet(items) <= InBin(g, b);
      SumOverMonotone(cfg.weights, ToSet(items), InBin(g, b));
    }
  }

  lemma NotFilledJustified(cfg: Config, core: Core, b: nat)
    requires WeightsOk(cfg, core) && b < |core.bins|
    requires Sum(cfg.weights) - SumOver(cfg.weights, Others(core.bins, b)) < cfg.bounds[b]
    ensures Justified(cfg, core.bins, NotFilled(b, OtherItems(core.bins, b, |core.bins|)))
  {
    var items := OtherItems(core.bins, b, |core.bins|);
    forall g | |g| == |cfg.weights| && Agrees(core.bins, items, g)
      ensures Load(cfg, g, b) < cfg.bounds[b]
    {
      forall x | x in items
        ensures x !in InBin(g, b)
      {
        OtherItemsMembers(core.bins, b, |core.bins|, x);
        var c: nat :| c < |core.bins| && c != b && x in core.bins[c].added;
      }
      SumOverSplit(cfg.weights, Others(core.bins, b), InBin(g, b));
    }
  }

  // Items stay where they are, so what was justified stays justified.
  lemma JustifiedGrows(cfg: Config, bins: seq<BinState>, bins': seq<BinState>, out: seq<Message>)
    requires AllJustified(cfg, bins, out) && |bins| == |bins'|
    requires forall c :: 0 <= c < |bins| ==> bins[c].added <= bins'[c].added
    ensures AllJustified(cfg, bins', out)
  {
    forall msg | msg in out
      ensures Justified(cfg, bins', msg)
    {
      assert Justified(cfg, bins, msg);
      if !msg.Conflict? {
        forall g | Agrees(bins', msg.items, g)
          ensures Agrees(bins, msg.items, g)
        {
        }
      }
    }
  }

  // Counting what was told about a bin

  function ToldFilled(log: seq<Message>, b: nat): nat {
    if log == [] then 0
    else
      var last := log[|log| - 1];
      ToldFilled(log[..|log| - 1], b) + if last.Filled? && last.bin == b then 1 else 0
  }

  function ToldNotFilled(log: seq<Message>, b: nat): nat {
    if log == [] then 0
    else
      var last := log[|log| - 1];
      ToldNotFilled(log[..|log| - 1], b) + if last.NotFilled? && last.bin == b then 1 else 0
  }

  lemma {:induction false} ToldAppend(log: seq<Message>, out: seq<Message>, b: nat)
    ensures ToldFilled(log + out, b) == ToldFilled(log, b) + ToldFilled(out, b)
    ensures ToldNotFilled(log + out, b) == ToldNotFilled(log, b) + ToldNotFilled(out, b)
  {
    if out == [] {
      assert log + out == log;
    } else {
      var last := |out| - 1;
      ToldAppend(log, out[..last], b);
      assert (log + out)[..|log + out| - 1] == log + out[..last];
    }
  }

  lemma ToldOne(msg: Message, b: nat)
    ensures ToldFilled([msg], b) == if msg.Filled? && msg.bin == b then 1 else 0
    ensures ToldNotFilled([msg], b) == if msg.NotFilled? && msg.bin == b then 1 else 0
  {
    assert [msg][..0] == [];
  }

  // A bin's fill is told once when it is filled; that it cannot be filled, once when it comes out of reach,
  // unless it was out of reach from the start.
  ghost predicate ToldOk(cfg: Config, log: seq<Message>, bin: BinState, b: nat)
    requires b < |cfg.bounds|
  {
    && ToldFilled(log, b) == (if bin.weight >= cfg.bounds[b] then 1 else 0)
    && ToldNotFilled(log, b) == (if bin.slack < cfg.bounds[b] <= Sum(cfg.weights) then 1 else 0)
  }

  ghost predicate LogOk(cfg: Config, core: Core, log: seq<Message>) {
    && ShapeOk(cfg, core)
    && (forall msg :: msg in log ==> !msg.Conflict? && msg.bin < |cfg.bounds|)
    && forall b :: 0 <= b < |core.bins| ==> ToldOk(cfg, log, core.bins[b], b)
  }

  lemma InitialLogOk(cfg: Config)
    requires ValidConfig(cfg)
    ensures LogOk(cfg, InitialCore(cfg), [])
  {
  }

  lemma {:induction false} LogOkStep(cfg: Config, core: Core, log: seq<Message>, core': Core, out: seq<Message>, b: nat)
    requires LogOk(cfg, core, log) && ShapeOk(cfg, core') && b < |core.bins| && |out| <= 1
    requires forall c :: 0 <= c < |core.bins| && c != b ==> core'.bins[c] == core.bins[c]
    requires out != [] ==> !out[0].Conflict? && out[0].bin == b
    requires ToldOk(cfg, log + out, core'.bins[b], b)
    ensures LogOk(cfg, core', log + out)
  {
    forall c: nat | c < |core.bins|
      ensures ToldOk(cfg, log + out, core'.bins[c], c)
    {
      assert ToldOk(cfg, log, core.bins[c], c);
      ToldAppend(log, out, c);
      if out != [] {
        assert out == [out[0]];
        ToldOne(out[0], c);
      }
    }
  }

  lemma {:induction false} AddItemLog(cfg: Config, core: Core, i: nat, b: nat, log: seq<Message>)
    requires ValidConfig(cfg) && LogOk(cfg, core, log) && i < |cfg.weights| && b < |core.bins|
    ensures var e := AddItem(cfg, core, i, b);
      LogOk(cfg, e.core, log + e.out)
  {
    var e := AddItem(cfg, core, i, b);
    assert ToldOk(cfg, log, core.bins[b], b);
    ToldAppend(log, e.out, b);
    if e.out != [] {
      ToldOne(e.out[0], b);
    }
    LogOkStep(cfg, core, log, e.core, e.out, b);
  }

  lemma {:induction false} ExcludeLog(cfg: Config, core: Core, i: nat, b: nat, log: seq<Message>, others: set<nat>)
    requires LogOk(cfg, core, log) && i < |cfg.weights| && b < |core.bins|
    requires SlackOk(cfg, core.bins[b], cfg.bounds[b], others)
    ensures var e := Exclude(cfg, core, i, b);
      LogOk(cfg, e.core, log + e.out)
  {
    var e := Exclude(cfg, core, i, b);
    assert ToldOk(cfg, log, core.bins[b], b);
    ToldAppend(log, e.out, b);
    if e.out != [] {
      ToldOne(e.out[0], b);
    }
    LogOkStep(cfg, core, log, e.core, e.out, b);
  }

  // What is told of bin n when the bins before it have already been told of item i.
  lemma ExcludeJustified(cfg: Config, core: Core, core': Core, i: nat, n: nat)
    requires WeightsOk(cfg, core) && ShapeOk(cfg, core') && SameAdded(core.bins, core'.bins)
    requires i < |cfg.weights| && n < |core.bins| && core'.bins[n] == core.bins[n]
    requires i in Others(core.bins, n) && SlackOk(cfg, core.bins[n], cfg.bounds[n], Others(core.bins, n) - {i})
    ensures AllJustified(cfg, core.bins, Exclude(cfg, core', i, n).out)
  {
    if Exclude(cfg, core', i, n).out != [] {
      ExcludedSlack(cfg, core.bins[n], cfg.bounds[n], Others(core.bins, n), i);
      OtherItemsSame(core.bins, core'.bins, n, |core.bins|);
      NotFilledJustified(cfg, core, n);
    }
  }

  lemma JustifiedAppend(cfg: Config, bins: seq<BinState>, out: seq<Message>, more: seq<Message>)
    requires AllJustified(cfg, bins, out) && AllJustified(cfg, bins, more)
    ensures AllJustified(cfg, bins, out + more)
  {
    assert forall msg :: msg in out + more <==> msg in out || msg in more;
  }

  lemma {:induction false} ExcludeUpToJustified(cfg: Config, core: Core, i: nat, b: nat, n: nat)
    requires Ready(cfg, core, i, b) && i < |cfg.weights| && n <= |core.bins|
    ensures AllJustified(cfg, core.bins, ExcludeUpTo(cfg, core, i, b, n).out)
  {
    if n > 0 {
      ExcludeUpToJustified(cfg, core, i, b, n - 1);
      if n - 1 != b {
        var e := ExcludeUpTo(cfg, core, i, b, n - 1);
        var f := Exclude(cfg, e.core, i, n - 1);
        assert ReadyBin(cfg, core, i, b, n - 1);
        ExcludeUpToBin(cfg, core, i, b, n - 1, n - 1);
        ExcludeUpToAdded(cfg, core, i, b, n - 1);
        ExcludeJustified(cfg, core, e.core, i, n - 1);
        JustifiedAppend(cfg, core.bins, e.out, f.out);
      }
    }
  }

  lemma NextExcludeLog(cfg: Config, e: Effect, i: nat, n: nat, log: seq<Message>, others: set<nat>, f: Effect)
    requires LogOk(cfg, e.core, log + e.out) && i < |cfg.weights| && n < |e.core.bins|
    requires SlackOk(cfg, e.core.bins[n], cfg.bounds[n], others)
    requires f == Exclude(cfg, e.core, i, n)
    ensures LogOk(cfg, f.core, log + (e.out + f.out))
  {
    ExcludeLog(cfg, e.core, i, n, log + e.out, others);
    assert log + (e.out + f.out) == log + e.out + f.out;
  }

  lemma {:induction false} ExcludeUpToLog(cfg: Config, core: Core, i: nat, b: nat, n: nat, log: seq<Message>, e: Effect)
    requires Ready(cfg, core, i, b) && i < |cfg.weights| && n <= |core.bins|
    requires LogOk(cfg, core, log) && e == ExcludeUpTo(cfg, core, i, b, n)
    ensures LogOk(cfg, e.core, log + e.out)
    decreases n
  {
    if n == 0 {
      assert log + [] == log;
    } else {
      var e0 := ExcludeUpTo(cfg, core, i, b, n - 1);
      ExcludeUpToLog(cfg, core, i, b, n - 1, log, e0);
      if n - 1 != b {
        var f := Exclude(cfg, e0.core, i, n - 1);
        assert ReadyBin(cfg, core, i, b, n - 1);
        ExcludeUpToBin(cfg, core, i, b, n - 1, n - 1);
        NextExcludeLog(cfg, e0, i, n - 1, log, Others(core.bins, n - 1) - {i}, f);
      }
    }
  }

  lemma PlaceItemJustified(cfg: Config, core: Core, i: nat, b: nat)
    requires BinsOk(cfg, core) && i < |cfg.weights| && b < |core.bins| && !IsPlaced(core.bins, i)
    ensures var e := PlaceItem(cfg, core, i, b);
      AllJustified(cfg, e.core.bins, e.out)
  {
    var e := AddItem(cfg, core, i, b);
    AddItemReady(cfg, core, i, b);
    if e.out != [] {
      FilledJustified(cfg, e.core, b);
    }
    var f := ExcludeUpTo(cfg, e.core, i, b, |core.bins|);
    ExcludeUpToJustified(cfg, e.core, i, b, |core.bins|);
    JustifiedAppend(cfg, e.core.bins, e.out, f.out);
    ExcludeUpToAdded(cfg, e.core, i, b, |core.bins|);
    JustifiedGrows(cfg, e.core.bins, f.core.bins, e.out + f.out);
  }

  lemma PlaceItemLog(cfg: Config, core: Core, i: nat, b: nat, log: seq<Message>)
    requires ValidConfig(cfg)
    requires BinsOk(cfg, core) && LogOk(cfg, core, log) && i < |cfg.weights| && b < |core.bins|
      && !IsPlaced(core.bins, i)
    ensures var e := PlaceItem(cfg, core, i, b);
      LogOk(cfg, e.core, log + e.out)
  {
    var e := AddItem(cfg, core, i, b);
    AddItemLog(cfg, core, i, b, log);
    AddItemReady(cfg, core, i, b);
    var f := ExcludeUpTo(cfg, e.core, i, b, |core.bins|);
    ExcludeUpToLog(cfg, e.core, i, b, |core.bins|, log + e.out, f);
    assert log + (e.out + f.out) == log + e.out + f.out;
  }

  lemma PlaceItemKeepsJustified(cfg: Config, core: Core, i: nat, b: nat, log: seq<Message>)
    requires ShapeOk(cfg, core) && AllJustified(cfg, core.bins, log) && i < |cfg.weights| && b < |core.bins|
    ensures AllJustified(cfg, PlaceItem(cfg, core, i, b).core.bins, log)
  {
    var bins := PlaceItem(cfg, core, i, b).core.bins;
    forall c | 0 <= c < |core.bins|
      ensures core.bins[c].added <= bins[c].added
    {
      PlaceItemAdded(cfg, core, i, b, c);
    }
    JustifiedGrows(cfg, core.bins, bins, log);
  }

  /**
   Placing an item tells only consequences that hold in every completion agreeing with their justification, keeps
   the earlier ones justified, and keeps the record of what has been told exact.
   */
  lemma PlaceItemTells(cfg: Config, core: Core, i: nat, b: nat, log: seq<Message>)
    requires ValidConfig(cfg)
    requires BinsOk(cfg, core) && LogOk(cfg, core, log) && i < |cfg.weights| && !IsPlaced(core.bins, i)
    requires AllJustified(cfg, core.bins, log)
    ensures var e := PlaceItem(cfg, core, i, b);
      LogOk(cfg, e.core, log + e.out) && AllJustified(cfg, e.core.bins, log + e.out)
  {
    if b >= |core.bins| {
      assert log + [] == log;
    } else {
      PlaceItemJustified(cfg, core, i, b);
      PlaceItemKeepsJustified(cfg, core, i, b, log);
      var e := PlaceItem(cfg, core, i, b);
      JustifiedAppend(cfg, e.core.bins, log, e.out);
      PlaceItemLog(cfg, core, i, b, log);
    }
  }
}
