/** Building the routing table: leaf filter, stable priority sort, parked providers, promotion. */
module RouteBuilder {
  import opened Json
  import opened ProxyConfig
  import opened Sorting

  datatype BuiltRule = BuiltRule(pattern: string, strategy: Strategy, primary: string, fallback: seq<string>)

  datatype BuildError = UnknownLeaf(name: string) | BadPattern(pattern: string) | LeafFailed(name: string)

  datatype Leaves = Built(leaves: map<string, Provider>) | Failed(error: BuildError)

  datatype Routes = Routed(rules: seq<BuiltRule>) | Refused(error: BuildError)

  // ---- Leaves ----

  /** One leaf per routable provider; `buildable` stands for constructing the adapter. */
  method BuildLeaves(ps: seq<Provider>, buildable: Provider -> bool) returns (r: Leaves)
    ensures r.Built? <==> forall i | 0 <= i < |ps| && ps[i].mode == Enabled :: buildable(ps[i])
    ensures r.Built? ==> LeavesOf(ps, r.leaves)
    ensures r.Failed? ==> exists p | p in ps :: p.mode == Enabled && !buildable(p) && r.error == LeafFailed(p.name)
  {
    var leaves: map<string, Provider> := map[];
    for k := 0 to |ps|
      invariant forall i | 0 <= i < k && ps[i].mode == Enabled :: buildable(ps[i])
      invariant LeavesOf(ps[..k], leaves)
    {
      assert ps[..k + 1] == ps[..k] + [ps[k]];
      if ps[k].mode == Enabled {
        if !buildable(ps[k]) {
          return Failed(LeafFailed(ps[k].name));
        }
        leaves := leaves[ps[k].name := ps[k]];
      }
    }
    assert ps[..|ps|] == ps;
    return Built(leaves);
  }

  /** The names with a leaf are those of the enabled providers. */
  ghost predicate LeavesOf(ps: seq<Provider>, leaves: map<string, Provider>) {
    && (forall n | n in leaves :: leaves[n] in ps && leaves[n].name == n && leaves[n].mode == Enabled)
    && (forall p | p in ps && p.mode == Enabled :: p.name in leaves)
  }

  // ---- Order ----

  /** A rule's place: its priority, or its position truncated to 32 bits. */
  function Priority(routing: seq<Rule>, i: nat): nat
    requires i < |routing|
  {
    if routing[i].priority.Some? then routing[i].priority.value else i % 0x1_0000_0000
  }

  /** Lower priority number first; equal numbers keep file order. */
  function ByPriority(routing: seq<Rule>): (nat, nat) -> bool {
    (i: nat, j: nat) =>
      i < |routing| && j < |routing| &&
      (Priority(routing, i) < Priority(routing, j) || (Priority(routing, i) == Priority(routing, j) && i < j))
  }

  ghost predicate InRange(routing: seq<Rule>, order: seq<nat>) {
    forall k | 0 <= k < |order| :: order[k] < |routing|
  }

  predicate IsPosition(routing: seq<Rule>, i: nat) {
    i < |routing|
  }

  function FileOrder(n: nat): (order: seq<nat>)
    ensures |order| == n && forall i | 0 <= i < n :: order[i] == i
  {
    if n == 0 then [] else FileOrder(n - 1) + [n - 1]
  }

  lemma PrioritiesOrder(routing: seq<Rule>, positions: iset<nat>)
    requires forall i: nat | i in positions :: IsPosition(routing, i)
    ensures Orders<nat>(ByPriority(routing), positions)
  {
    forall i: nat, j: nat, k: nat | i in positions && j in positions && k in positions
      ensures !ByPriority(routing)(i, i)
      ensures i == j || ByPriority(routing)(i, j) || ByPriority(routing)(j, i)
      ensures ByPriority(routing)(i, j) && ByPriority(routing)(j, k) ==> ByPriority(routing)(i, k)
    {
      assert IsPosition(routing, i) && IsPosition(routing, j) && IsPosition(routing, k);
    }
  }

  ghost predicate HoldsEachRule(routing: seq<Rule>, order: seq<nat>) {
    forall x: nat :: x in order <==> IsPosition(routing, x)
  }

  lemma FileOrderIsDistinct(routing: seq<Rule>)
    ensures Distinct(FileOrder(|routing|)) && HoldsEachRule(routing, FileOrder(|routing|))
  {
    var all := FileOrder(|routing|);
    forall x: nat ensures x in all <==> IsPosition(routing, x) {
      assert x < |routing| ==> all[x] == x;
    }
  }

  lemma PositionsSort(routing: seq<Rule>)
    ensures var sorted := SortBy<nat>(FileOrder(|routing|), ByPriority(routing));
            StrictlySorted<nat>(sorted, ByPriority(routing)) && HoldsEachRule(routing, sorted)
  {
    var all, positions := FileOrder(|routing|), iset i: nat | IsPosition(routing, i);
    FileOrderIsDistinct(routing);
    PrioritiesOrder(routing, positions);
    SortBySorts<nat>(all, ByPriority(routing), positions);
    SameMembersSamePositions(routing, all, SortBy<nat>(all, ByPriority(routing)));
  }

  lemma SameMembersSamePositions(routing: seq<Rule>, a: seq<nat>, b: seq<nat>)
    requires HoldsEachRule(routing, a) && SameMembers(a, b)
    ensures HoldsEachRule(routing, b)
  {
  }

  lemma EachRuleInRange(routing: seq<Rule>, order: seq<nat>)
    requires HoldsEachRule(routing, order)
    ensures InRange(routing, order)
  {
    assert forall k | 0 <= k < |order| :: order[k] in order;
  }

  /** The stable sort of the rule positions: every rule once, by priority and then file position. */
  function PriorityOrder(routing: seq<Rule>): (order: seq<nat>)
    ensures InRange(routing, order)
    ensures StrictlySorted<nat>(order, ByPriority(routing)) && HoldsEachRule(routing, order)
  {
    PositionsSort(routing);
    var order := SortBy<nat>(FileOrder(|routing|), ByPriority(routing));
    EachRuleInRange(routing, order);
    order
  }

  /** No other arrangement of the rules is in that order. */
  lemma PriorityOrderIsStable(routing: seq<Rule>, other: seq<nat>)
    ensures other == PriorityOrder(routing)
            <==> StrictlySorted<nat>(other, ByPriority(routing)) && HoldsEachRule(routing, other)
  {
    var order := PriorityOrder(routing);
    if StrictlySorted<nat>(other, ByPriority(routing)) && HoldsEachRule(routing, other) {
      var positions := iset i: nat | IsPosition(routing, i);
      PrioritiesOrder(routing, positions);
      EachRuleInRange(routing, other);
      SortedIsUnique<nat>(other, order, ByPriority(routing), positions);
    }
  }

  /** Earlier in the order means a smaller number, the rule's own or else its position, or an earlier position. */
  lemma OrderInPlain(routing: seq<Rule>, k: nat, l: nat)
    requires k < l < |PriorityOrder(routing)|
    ensures var i, j := PriorityOrder(routing)[k], PriorityOrder(routing)[l];
            var p := if routing[i].priority.Some? then routing[i].priority.value else i % 0x1_0000_0000;
            var q := if routing[j].priority.Some? then routing[j].priority.value else j % 0x1_0000_0000;
            p < q || (p == q && i < j)
  {
    assert ByPriority(routing)(PriorityOrder(routing)[k], PriorityOrder(routing)[l]);
  }

  /** Rules without priorities stay in file order. */
  lemma NoPrioritiesFileOrder(routing: seq<Rule>)
    requires |routing| <= 0x1_0000_0000 && forall i | 0 <= i < |routing| :: routing[i].priority == None
    ensures PriorityOrder(routing) == FileOrder(|routing|)
  {
    FileOrderIsDistinct(routing);
    FileOrderIsSorted(routing);
    PriorityOrderIsStable(routing, FileOrder(|routing|));
  }

  lemma FileOrderIsSorted(routing: seq<Rule>)
    requires |routing| <= 0x1_0000_0000 && forall i | 0 <= i < |routing| :: routing[i].priority == None
    ensures StrictlySorted<nat>(FileOrder(|routing|), ByPriority(routing))
  {
    var order := FileOrder(|routing|);
    forall i, j | 0 <= i < j < |order| ensures ByPriority(routing)(order[i], order[j]) {
      SmallerPosition(routing, i, j);
    }
  }

  lemma SmallerPosition(routing: seq<Rule>, i: nat, j: nat)
    requires |routing| <= 0x1_0000_0000 && i < j < |routing|
    requires routing[i].priority == None && routing[j].priority == None
    ensures ByPriority(routing)(i, j)
  {
  }

  // ---- Rules ----

  ghost predicate Parked(ps: seq<Provider>, name: string) {
    exists p | p in ps :: p.name == name && p.mode == Monitor
  }

  /** The rule's providers with the parked ones taken out, in order. */
  ghost function LiveChain(ps: seq<Provider>, chain: seq<string>): seq<string> {
    if chain == [] then []
    else (if Parked(ps, chain[0]) then [] else [chain[0]]) + LiveChain(ps, chain[1..])
  }

  function Pattern(r: Rule): string {
    if r.model.Some? then r.model.value else "*"
  }

  /** What a rule becomes: nothing when everybody in it is parked, else its live chain, first promoted. */
  ghost function RoutedRule(cfg: Config, i: nat): seq<BuiltRule>
    requires i < |cfg.routing|
  {
    var r, live := cfg.routing[i], LiveChain(cfg.providers, cfg.routing[i].Chain());
    if live == [] then [] else [BuiltRule(Pattern(r), r.strategy, live[0], live[1..])]
  }

  /** The first `k` rules of the given order, those with somebody left to serve them. */
  ghost function RoutedUpTo(cfg: Config, order: seq<nat>, k: nat): seq<BuiltRule>
    requires InRange(cfg.routing, order) && k <= |order|
  {
    if k == 0 then [] else RoutedUpTo(cfg, order, k - 1) + RoutedRule(cfg, order[k - 1])
  }

  ghost function RoutedRules(cfg: Config, order: seq<nat>): seq<BuiltRule>
    requires InRange(cfg.routing, order)
  {
    RoutedUpTo(cfg, order, |order|)
  }

  /** Every rule in use names only known leaves and has a pattern that compiles. */
  ghost predicate RuleBuilds(cfg: Config, i: nat, leaves: map<string, Provider>, compiles: string -> bool)
    requires i < |cfg.routing|
  {
    var live := LiveChain(cfg.providers, cfg.routing[i].Chain());
    live != [] ==> (forall k | 0 <= k < |live| :: live[k] in leaves) && compiles(Pattern(cfg.routing[i]))
  }

  method ParkedNames(ps: seq<Provider>) returns (parked: set<string>)
    ensures forall n :: n in parked <==> Parked(ps, n)
  {
    parked := set p | p in ps && p.mode == Monitor :: p.name;
  }

  method Unparked(ps: seq<Provider>, chain: seq<string>, parked: set<string>) returns (live: seq<string>)
    requires forall n :: n in parked <==> Parked(ps, n)
    ensures live == LiveChain(ps, chain)
  {
    live := [];
    assert chain[0..] == chain;
    for k := 0 to |chain|
      invariant live + LiveChain(ps, chain[k..]) == LiveChain(ps, chain)
    {
      assert chain[k..] == [chain[k]] + chain[k + 1..];
      if chain[k] !in parked {
        live := live + [chain[k]];
      }
    }
    assert chain[|chain|..] == [];
    assert live + [] == live;
  }

  method CheckLeaves(live: seq<string>, leaves: map<string, Provider>) returns (missing: Option<string>)
    ensures match missing
            case None => forall k | 0 <= k < |live| :: live[k] in leaves
            case Some(n) => n in live && n !in leaves
  {
    for k := 0 to |live|
      invariant forall i | 0 <= i < k :: live[i] in leaves
    {
      if live[k] !in leaves {
        return Some(live[k]);
      }
    }
    return None;
  }

  datatype RuleOutcome = Made(rules: seq<BuiltRule>) | Stopped(error: BuildError)

  /** What a build error truthfully reports about a rule. */
  ghost predicate Explains(e: BuildError, cfg: Config, i: nat, leaves: map<string, Provider>, compiles: string -> bool)
    requires i < |cfg.routing|
  {
    match e
    case UnknownLeaf(n) => n !in leaves && n in LiveChain(cfg.providers, cfg.routing[i].Chain())
    case BadPattern(p) => !compiles(p) && p == Pattern(cfg.routing[i])
    case LeafFailed(_) => false
  }

  ghost predicate Blocks(cfg: Config, i: nat, leaves: map<string, Provider>, compiles: string -> bool, e: BuildError)
    requires i < |cfg.routing|
  {
    !RuleBuilds(cfg, i, leaves, compiles) && Explains(e, cfg, i, leaves, compiles)
  }

  /** One rule; `compiles` stands for the glob compiler. */
  method BuildRule(cfg: Config, i: nat, leaves: map<string, Provider>, parked: set<string>, compiles: string -> bool)
    returns (r: RuleOutcome)
    requires i < |cfg.routing| && forall n :: n in parked <==> Parked(cfg.providers, n)
    ensures match r
            case Made(rules) => RuleBuilds(cfg, i, leaves, compiles) && rules == RoutedRule(cfg, i)
            case Stopped(e) => Blocks(cfg, i, leaves, compiles, e)
  {
    var rule := cfg.routing[i];
    var live := Unparked(cfg.providers, rule.Chain(), parked);
    if live == [] {
      return Made([]);
    }
    var missing := CheckLeaves(live, leaves);
    if missing.Some? {
      return Stopped(UnknownLeaf(missing.value));
    }
    if !compiles(Pattern(rule)) {
      return Stopped(BadPattern(Pattern(rule)));
    }
    return Made([BuiltRule(Pattern(rule), rule.strategy, live[0], live[1..])]);
  }

  /** The first `k` rules of the order all build, and `built` is what they become. */
  ghost predicate BuiltUpTo(cfg: Config, order: seq<nat>, leaves: map<string, Provider>, compiles: string -> bool,
                            k: nat, built: seq<BuiltRule>)
    requires InRange(cfg.routing, order) && k <= |order|
  {
    built == RoutedUpTo(cfg, order, k) && forall a | 0 <= a < k :: RuleBuilds(cfg, order[a], leaves, compiles)
  }

  lemma BuiltOneMore(cfg: Config, order: seq<nat>, leaves: map<string, Provider>, compiles: string -> bool,
                     k: nat, built: seq<BuiltRule>)
    requires InRange(cfg.routing, order) && k < |order| && BuiltUpTo(cfg, order, leaves, compiles, k, built)
    requires RuleBuilds(cfg, order[k], leaves, compiles)
    ensures BuiltUpTo(cfg, order, leaves, compiles, k + 1, built + RoutedRule(cfg, order[k]))
  {
  }

  method BuildInOrder(cfg: Config, order: seq<nat>, leaves: map<string, Provider>, compiles: string -> bool)
    returns (r: Routes)
    requires InRange(cfg.routing, order)
    ensures r.Routed? ==> r.rules == RoutedRules(cfg, order)
    ensures r.Routed? ==> forall k | 0 <= k < |order| :: RuleBuilds(cfg, order[k], leaves, compiles)
    ensures r.Refused? ==> exists k | 0 <= k < |order| :: Blocks(cfg, order[k], leaves, compiles, r.error)
  {
    var parked := ParkedNames(cfg.providers);
    var built: seq<BuiltRule> := [];
    for k := 0 to |order|
      invariant BuiltUpTo(cfg, order, leaves, compiles, k, built)
    {
      var outcome := BuildRule(cfg, order[k], leaves, parked, compiles);
      if outcome.Stopped? {
        return Refused(outcome.error);
      }
      BuiltOneMore(cfg, order, leaves, compiles, k, built);
      built := built + outcome.rules;
    }
    return Routed(built);
  }

  method BuildRoutingProvider(cfg: Config, leaves: map<string, Provider>, compiles: string -> bool) returns (r: Routes)
    ensures r.Routed? <==> forall i | 0 <= i < |cfg.routing| :: RuleBuilds(cfg, i, leaves, compiles)
    ensures r.Routed? ==> r.rules == RoutedRules(cfg, PriorityOrder(cfg.routing))
    ensures r.Refused? ==> exists i | 0 <= i < |cfg.routing| :: Explains(r.error, cfg, i, leaves, compiles)
  {
    var order := PriorityOrder(cfg.routing);
    r := BuildInOrder(cfg, order, leaves, compiles);
    if r.Routed? {
      forall i | 0 <= i < |cfg.routing| ensures RuleBuilds(cfg, i, leaves, compiles) {
        assert IsPosition(cfg.routing, i) && i in order;
        var k :| 0 <= k < |order| && order[k] == i;
      }
    }
  }

  // ---- Validation makes building safe ----

  lemma {:induction false} LiveChainMembers(ps: seq<Provider>, chain: seq<string>)
    ensures forall n :: n in LiveChain(ps, chain) <==> n in chain && !Parked(ps, n)
  {
    if chain != [] {
      LiveChainMembers(ps, chain[1..]);
      assert chain == [chain[0]] + chain[1..];
    }
  }

  /**
   In a valid configuration whose leaves built, every live provider of every rule is enabled and has a
   leaf: the only thing that can still stop the build is a match pattern, which validation never looks at.
   */
  lemma ValidatedRulesHaveLeaves(cfg: Config, leaves: map<string, Provider>, compiles: string -> bool, i: nat)
    requires ValidConfig(cfg, compiles) && LeavesOf(cfg.providers, leaves) && i < |cfg.routing|
    ensures var live := LiveChain(cfg.providers, cfg.routing[i].Chain());
            && (forall k | 0 <= k < |live| :: live[k] in leaves && leaves[live[k]].mode == Enabled)
            && (RuleBuilds(cfg, i, leaves, compiles) <==> live == [] || compiles(Pattern(cfg.routing[i])))
  {
    var live := LiveChain(cfg.providers, cfg.routing[i].Chain());
    LiveChainMembers(cfg.providers, cfg.routing[i].Chain());
    forall k | 0 <= k < |live| ensures live[k] in leaves {
      assert live[k] in live;
      assert Usable(cfg.providers, live[k]);
      var j :| 0 <= j < |cfg.providers| && cfg.providers[j].name == live[k] && cfg.providers[j].mode != Disabled;
      assert cfg.providers[j] in cfg.providers;
    }
  }

  /** Everybody the rule routes to is a configured, enabled provider. */
  ghost predicate ServedByEnabled(cfg: Config, b: BuiltRule) {
    forall n | n in [b.primary] + b.fallback :: exists p | p in cfg.providers :: p.name == n && p.mode == Enabled
  }

  /** From validation to a running table: only enabled providers serve, and no leaf is ever unknown. */
  method BuildFromConfig(cfg: Config, buildable: Provider -> bool, compiles: string -> bool) returns (r: Routes)
    requires ValidConfig(cfg, compiles)
    ensures r.Routed? <==>
            (forall p | p in cfg.providers && p.mode == Enabled :: buildable(p))
            && forall i | 0 <= i < |cfg.routing| ::
                 LiveChain(cfg.providers, cfg.routing[i].Chain()) == [] || compiles(Pattern(cfg.routing[i]))
    ensures r.Routed? ==> r.rules == RoutedRules(cfg, PriorityOrder(cfg.routing))
    ensures r.Routed? ==> forall b | b in r.rules :: ServedByEnabled(cfg, b)
    ensures r.Refused? ==> !r.error.UnknownLeaf?
  {
    var built := BuildLeaves(cfg.providers, buildable);
    if built.Failed? {
      return Refused(built.error);
    }
    r := BuildRoutingProvider(cfg, built.leaves, compiles);
    forall i | 0 <= i < |cfg.routing|
      ensures var live := LiveChain(cfg.providers, cfg.routing[i].Chain());
              && (forall n | n in live :: n in built.leaves)
              && (RuleBuilds(cfg, i, built.leaves, compiles) <==> live == [] || compiles(Pattern(cfg.routing[i])))
    {
      ValidatedRulesHaveLeaves(cfg, built.leaves, compiles, i);
    }
    RoutedRulesServe(cfg, PriorityOrder(cfg.routing));
  }

  /**
   What a rule turns into, name by name: its own primary leads unless parked, else the first fallback
   that is not; the other fallbacks that are not parked follow in file order.
   */
  ghost predicate Serves(ps: seq<Provider>, r: Rule, b: BuiltRule) {
    var live := LiveChain(ps, r.fallback);
    && b.pattern == (if r.model.Some? then r.model.value else "*") && b.strategy == r.strategy
    && if Parked(ps, r.provider) then live != [] && b.primary == live[0] && b.fallback == live[1..]
       else b.primary == r.provider && b.fallback == live
  }

  /** And it turns into nothing exactly when its primary and all its fallbacks are parked. */
  lemma RuleInPlain(cfg: Config, i: nat)
    requires i < |cfg.routing|
    ensures var r, built := cfg.routing[i], RoutedRule(cfg, i);
            && |built| <= 1 && (built != [] ==> Serves(cfg.providers, r, built[0]))
            && (built == [] <==>
                  Parked(cfg.providers, r.provider) && forall n | n in r.fallback :: Parked(cfg.providers, n))
  {
    ChainSplits(cfg.providers, cfg.routing[i]);
    AllParkedIff(cfg.providers, cfg.routing[i].fallback);
  }

  lemma ChainSplits(ps: seq<Provider>, r: Rule)
    ensures LiveChain(ps, r.Chain())
            == if Parked(ps, r.provider) then LiveChain(ps, r.fallback) else [r.provider] + LiveChain(ps, r.fallback)
  {
    LiveChainInOrder(ps, [r.provider], r.fallback);
    assert r.Chain() == [r.provider] + r.fallback;
  }

  lemma AllParkedIff(ps: seq<Provider>, names: seq<string>)
    ensures LiveChain(ps, names) == [] <==> forall n | n in names :: Parked(ps, n)
  {
    var live := LiveChain(ps, names);
    LiveChainMembers(ps, names);
    if live != [] {
      assert live[0] in live;
    }
  }

  /** Taking the parked ones out keeps the others in order. */
  lemma {:induction false} LiveChainInOrder(ps: seq<Provider>, a: seq<string>, b: seq<string>)
    ensures LiveChain(ps, a + b) == LiveChain(ps, a) + LiveChain(ps, b)
    ensures forall n :: LiveChain(ps, [n]) == if Parked(ps, n) then [] else [n]
  {
    if a == [] {
      assert a + b == b;
    } else {
      assert (a + b)[1..] == a[1..] + b;
      LiveChainInOrder(ps, a[1..], b);
    }
  }

  /** Every built rule comes from a configured one and serves it in its order. */
  lemma {:induction false} RoutedRulesAreRules(cfg: Config, order: seq<nat>, n: nat, k: nat)
    requires InRange(cfg.routing, order) && n <= |order| && k < |RoutedUpTo(cfg, order, n)|
    ensures exists a | 0 <= a < n ::
              var b, r := RoutedUpTo(cfg, order, n)[k], cfg.routing[order[a]];
              && Serves(cfg.providers, r, b)
              && [b.primary] + b.fallback == LiveChain(cfg.providers, r.Chain())
  {
    var before := RoutedUpTo(cfg, order, n - 1);
    if k < |before| {
      RoutedRulesAreRules(cfg, order, n - 1, k);
    } else {
      RuleInPlain(cfg, order[n - 1]);
      assert RoutedUpTo(cfg, order, n)[k] == RoutedRule(cfg, order[n - 1])[0];
    }
  }

  /** In a sound configuration, built rules route to enabled providers only. */
  lemma RoutedRulesServe(cfg: Config, order: seq<nat>)
    requires ReferentiallySound(cfg) && InRange(cfg.routing, order)
    ensures forall b | b in RoutedRules(cfg, order) :: ServedByEnabled(cfg, b)
  {
    var rules := RoutedRules(cfg, order);
    forall k | 0 <= k < |rules| ensures ServedByEnabled(cfg, rules[k]) {
      RoutedRulesAreRules(cfg, order, |order|, k);
      var a :| 0 <= a < |order|
               && [rules[k].primary] + rules[k].fallback == LiveChain(cfg.providers, cfg.routing[order[a]].Chain());
      LiveChainIsEnabled(cfg.providers, cfg.routing[order[a]]);
    }
  }

  lemma LiveChainIsEnabled(ps: seq<Provider>, r: Rule)
    requires RuleSound(ps, r)
    ensures forall n | n in LiveChain(ps, r.Chain()) :: exists p | p in ps :: p.name == n && p.mode == Enabled
  {
    LiveChainMembers(ps, r.Chain());
    forall n | n in LiveChain(ps, r.Chain()) ensures exists p | p in ps :: p.name == n && p.mode == Enabled {
      assert Usable(ps, n);
      var j :| 0 <= j < |ps| && ps[j].name == n && ps[j].mode != Disabled;
      assert ps[j] in ps;
    }
  }

  /** Validation passes a pattern that no glob compiler takes, and the build then fails on it. */
  lemma ValidConfigMayNotBuild(p: Provider, compiles: string -> bool)
    requires p.mode == Enabled && FormatsParse(p, compiles) && !compiles("[")
    ensures var cfg := Config([p], [Rule(Some("["), p.name, [], Failover, None)]);
            && ValidConfig(cfg, compiles)
            && forall leaves :: !RuleBuilds(cfg, 0, leaves, compiles)
  {
    var cfg := Config([p], [Rule(Some("["), p.name, [], Failover, None)]);
    assert cfg.providers[0] == p;
    LiveChainMembers(cfg.providers, cfg.routing[0].Chain());
    assert p.name in cfg.routing[0].Chain();
  }
}
