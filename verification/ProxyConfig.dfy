/** The configuration both ends share, and the daemon's validation of it. */
module ProxyConfig {
  import opened Json
  import ModelFormats

  datatype ProviderMode = Enabled | Monitor | Disabled

  datatype Auth =
    | Passthrough
    | ApiKey(value: string)
    | Bearer(value: string)
    | AnthropicOAuth(tokens: string)
    | OpenAiOAuth(tokens: string)
    | CodexAuto

  datatype Settings = Settings(
    kind: string, anthropicBaseUrl: Option<string>, openaiBaseUrl: Option<string>,
    thinkingLevel: Option<string>, thinkingForce: bool, thinkingMode: Option<string>,
    sanitizeEmptyTools: Option<bool>)

  datatype Provider = Provider(
    name: string, mode: ProviderMode, auth: Auth, settings: Settings,
    formatMode: Option<string>, maxConcurrent: Option<nat>, modelFormats: Option<string>)

  datatype Strategy = Failover | RoundRobin

  datatype Rule = Rule(
    model: Option<string>, provider: string, fallback: seq<string>, strategy: Strategy, priority: Option<nat>)
  {
    /** The providers the rule names, primary first. */
    function Chain(): seq<string> {
      [provider] + fallback
    }
  }

  datatype Config = Config(providers: seq<Provider>, routing: seq<Rule>)

  ghost predicate NamesUnique(ps: seq<Provider>) {
    forall i, j | 0 <= i < j < |ps| :: ps[i].name != ps[j].name
  }

  /** Some provider of that name is configured and not disabled. */
  ghost predicate Usable(ps: seq<Provider>, name: string) {
    exists i | 0 <= i < |ps| :: ps[i].name == name && ps[i].mode != Disabled
  }

  ghost predicate RuleSound(ps: seq<Provider>, r: Rule) {
    forall n | n in r.Chain() :: Usable(ps, n)
  }

  /** Names are unique and every rule names only existing, non-disabled providers. */
  ghost predicate ReferentiallySound(cfg: Config) {
    NamesUnique(cfg.providers) && forall i | 0 <= i < |cfg.routing| :: RuleSound(cfg.providers, cfg.routing[i])
  }

  ghost predicate FormatsParse(p: Provider, compiles: string -> bool) {
    p.modelFormats.Some? ==>
      var segments := ModelFormats.Segments(p.modelFormats.value);
      forall i | 0 <= i < |segments| :: ModelFormats.GoodSegment(segments[i], compiles)
  }

  ghost predicate AllFormatsParse(ps: seq<Provider>, compiles: string -> bool) {
    forall i | 0 <= i < |ps| :: FormatsParse(ps[i], compiles)
  }

  ghost predicate ValidConfig(cfg: Config, compiles: string -> bool) {
    && cfg.providers != [] && cfg.routing != []
    && ReferentiallySound(cfg) && AllFormatsParse(cfg.providers, compiles)
  }

  datatype ConfigError =
    | NoProviders
    | DuplicateName(name: string)
    | BadFormats(error: ModelFormats.FormatError)
    | NoRules
    | UnknownProvider(rule: nat, name: string)
    | DisabledProvider(rule: nat, name: string)

  datatype Outcome = Valid | Invalid(error: ConfigError)

  /** What each complaint truthfully reports. */
  ghost predicate Explains(e: ConfigError, cfg: Config, compiles: string -> bool) {
    match e
    case NoProviders => cfg.providers == []
    case DuplicateName(n) =>
      exists i, j | 0 <= i < j < |cfg.providers| :: cfg.providers[i].name == cfg.providers[j].name == n
    case BadFormats(_) => !AllFormatsParse(cfg.providers, compiles)
    case NoRules => cfg.routing == []
    case UnknownProvider(k, n) =>
      k < |cfg.routing| && n in cfg.routing[k].Chain() && forall p | p in cfg.providers :: p.name != n
    case DisabledProvider(k, n) =>
      k < |cfg.routing| && n in cfg.routing[k].Chain()
      && exists p | p in cfg.providers :: p.name == n && p.mode == Disabled
  }

  /** The first provider of that name. */
  function FindProvider(ps: seq<Provider>, name: string): (r: Option<Provider>)
    ensures r.Some? ==> r.value in ps && r.value.name == name
    ensures r.None? ==> forall p | p in ps :: p.name != name
  {
    if ps == [] then None
    else if ps[0].name == name then Some(ps[0])
    else FindProvider(ps[1..], name)
  }

  lemma UsableMeansFoundEnabled(ps: seq<Provider>, name: string)
    requires NamesUnique(ps)
    ensures Usable(ps, name) <==> FindProvider(ps, name).Some? && FindProvider(ps, name).value.mode != Disabled
  {
    var found := FindProvider(ps, name);
    if found.Some? {
      var j :| 0 <= j < |ps| && ps[j] == found.value;
      forall i | 0 <= i < |ps| && ps[i].name == name ensures i == j {
        assert ps[j].name == name;
      }
    }
  }

  method ValidateProviders(ps: seq<Provider>, compiles: string -> bool) returns (r: Outcome)
    ensures r.Valid? <==> NamesUnique(ps) && AllFormatsParse(ps, compiles)
    ensures forall routing :: r.Invalid? ==> Explains(r.error, Config(ps, routing), compiles)
  {
    var names: set<string> := {};
    for k := 0 to |ps|
      invariant Checked(ps, k, names, compiles)
    {
      var p := ps[k];
      if p.name in names {
        return Invalid(DuplicateName(p.name));
      }
      if p.modelFormats.Some? {
        var parsed := ModelFormats.ParseModelFormats(p.modelFormats.value, compiles);
        if parsed.Err? {
          assert !FormatsParse(p, compiles);
          return Invalid(BadFormats(parsed.error));
        }
      }
      CheckedOneMore(ps, k, names, compiles);
      names := names + {p.name};
    }
    assert ps[..|ps|] == ps;
    return Valid;
  }

  function NamesOf(ps: seq<Provider>): set<string> {
    set i | 0 <= i < |ps| :: ps[i].name
  }

  /** The first `k` providers have different names, those in `names`, and rule strings that parse. */
  ghost predicate Checked(ps: seq<Provider>, k: nat, names: set<string>, compiles: string -> bool)
    requires k <= |ps|
  {
    names == NamesOf(ps[..k]) && NamesUnique(ps[..k]) && AllFormatsParse(ps[..k], compiles)
  }

  lemma CheckedOneMore(ps: seq<Provider>, k: nat, names: set<string>, compiles: string -> bool)
    requires k < |ps| && Checked(ps, k, names, compiles)
    requires ps[k].name !in names && FormatsParse(ps[k], compiles)
    ensures Checked(ps, k + 1, names + {ps[k].name}, compiles)
  {
    assert ps[..k + 1] == ps[..k] + [ps[k]];
    NamesOneMore(ps[..k], ps[k]);
  }

  lemma NamesOneMore(ps: seq<Provider>, p: Provider)
    ensures NamesOf(ps + [p]) == NamesOf(ps) + {p.name}
    ensures NamesUnique(ps) && p.name !in NamesOf(ps) ==> NamesUnique(ps + [p])
  {
    var qs := ps + [p];
    forall n ensures n in NamesOf(qs) <==> n in NamesOf(ps) || n == p.name {
      if n in NamesOf(ps) {
        var i :| 0 <= i < |ps| && ps[i].name == n;
        assert qs[i] == ps[i];
      }
      assert qs[|ps|] == p;
    }
  }

  /** The daemon accepts exactly the valid configurations and complains truthfully about the rest. */
  method Validate(cfg: Config, compiles: string -> bool) returns (r: Outcome)
    ensures r.Valid? <==> ValidConfig(cfg, compiles)
    ensures r.Invalid? ==> Explains(r.error, cfg, compiles)
  {
    if cfg.providers == [] {
      return Invalid(NoProviders);
    }
    r := ValidateProviders(cfg.providers, compiles);
    if r.Invalid? {
      return;
    }
    if cfg.routing == [] {
      return Invalid(NoRules);
    }
    for i := 0 to |cfg.routing|
      invariant r.Valid?
      invariant forall k | 0 <= k < i :: RuleSound(cfg.providers, cfg.routing[k])
    {
      var chain := cfg.routing[i].Chain();
      for j := 0 to |chain|
        invariant forall k | 0 <= k < j :: Usable(cfg.providers, chain[k])
      {
        var found := FindProvider(cfg.providers, chain[j]);
        UsableMeansFoundEnabled(cfg.providers, chain[j]);
        assert chain[j] in chain;
        if found.None? {
          return Invalid(UnknownProvider(i, chain[j]));
        }
        if found.value.mode == Disabled {
          return Invalid(DisabledProvider(i, chain[j]));
        }
      }
    }
  }
}
