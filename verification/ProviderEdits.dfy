/** The terminal form that adds, edits, renames, disables and deletes providers. */
module ProviderEdits {
  import opened Json
  import opened ProxyConfig
  import ModelFormats

  datatype FormMode = Add | Edit(originalIndex: nat, originalName: string)

  datatype AuthKind = UsePassthrough | UseApiKey | UseBearer | OAuthAnthropic | OAuthOpenAi {
    predicate OAuth() {
      OAuthAnthropic? || OAuthOpenAi?
    }
  }

  datatype Form = Form(
    mode: FormMode, name: string, settings: Settings, formatMode: Option<string>, modelFormats: string,
    providerMode: ProviderMode, maxConcurrent: Option<nat>, authKind: AuthKind, authValue: string,
    disableRulesConfirmed: bool)

  datatype RuleRef = RuleRef(number: nat, model: string, primary: bool)

  datatype FormError =
    | EmptyName
    | InvalidNameChars
    | DuplicateName
    | EmptyAuthValue
    | RenameBlockedBy(rules: seq<RuleRef>)
    | InvalidModelFormats(segment: string)
    | ListChanged
    | NotLoaded

  datatype Result<+T> = Ok(value: T) | Err(error: FormError)

  // ---- Rules that name a provider ----

  predicate References(r: Rule, name: string) {
    r.provider == name || name in r.fallback
  }

  ghost predicate Unreferenced(routing: seq<Rule>, name: string) {
    forall i | 0 <= i < |routing| :: !References(routing[i], name)
  }

  function RefTo(routing: seq<Rule>, i: nat, name: string): RuleRef
    requires i < |routing|
  {
    var r := routing[i];
    RuleRef(i + 1, if r.model.Some? then r.model.value else "*", r.provider == name)
  }

  function RulesReferencing(routing: seq<Rule>, name: string): (refs: seq<RuleRef>)
    ensures refs == [] <==> Unreferenced(routing, name)
  {
    if routing == [] then []
    else
      var r, before := routing[|routing| - 1], RulesReferencing(routing[..|routing| - 1], name);
      if References(r, name)
      then before + [RefTo(routing, |routing| - 1, name)]
      else
        assert forall i | 0 <= i < |routing| - 1 :: routing[i] == routing[..|routing| - 1][i];
        before
  }

  /** The rules that do not name the provider, in order. */
  function Retained(routing: seq<Rule>, name: string): (kept: seq<Rule>)
    ensures Unreferenced(kept, name)
    ensures forall r :: r in kept <==> r in routing && !References(r, name)
    ensures kept == routing <==> Unreferenced(routing, name)
    ensures |kept| + |RulesReferencing(routing, name)| == |routing|
  {
    if routing == [] then []
    else
      var r, before := routing[|routing| - 1], Retained(routing[..|routing| - 1], name);
      assert routing == routing[..|routing| - 1] + [r];
      if References(r, name) then before
      else
        assert forall i | 0 <= i < |routing| - 1 :: routing[i] == routing[..|routing| - 1][i];
        before + [r]
  }

  /** The list names exactly the rules that reference the provider, by rising number, and says how they do. */
  lemma ReferencesAreListed(routing: seq<Rule>, name: string)
    ensures var refs := RulesReferencing(routing, name);
            && (forall k | 0 <= k < |refs| :: ListsRule(routing, name, refs[k]))
            && Rising(refs, |routing|)
            && (forall i | 0 <= i < |routing| && References(routing[i], name) :: Listed(refs, i))
  {
    assert routing[..|routing|] == routing;
    ListedOnesReference(routing, name, |routing|);
    NumbersRise(routing, name);
    ReferencingOnesAreListed(routing, name, |routing|);
  }

  lemma {:induction false} ListedOnesReference(routing: seq<Rule>, name: string, n: nat)
    requires n <= |routing|
    ensures forall ref | ref in RulesReferencing(routing[..n], name) :: ListsRule(routing, name, ref)
  {
    if n > 0 {
      assert routing[..n][..n - 1] == routing[..n - 1];
      ListedOnesReference(routing, name, n - 1);
    }
  }

  lemma {:induction false} NumbersRise(routing: seq<Rule>, name: string)
    ensures Rising(RulesReferencing(routing, name), |routing|)
  {
    if routing != [] {
      NumbersRise(routing[..|routing| - 1], name);
    }
  }

  lemma {:induction false} ReferencingOnesAreListed(routing: seq<Rule>, name: string, n: nat)
    requires n <= |routing|
    ensures forall i | 0 <= i < n && References(routing[i], name) :: Listed(RulesReferencing(routing[..n], name), i)
  {
    if n > 0 {
      assert routing[..n][..n - 1] == routing[..n - 1];
      ReferencingOnesAreListed(routing, name, n - 1);
      var before, refs := RulesReferencing(routing[..n - 1], name), RulesReferencing(routing[..n], name);
      forall i | Listed(before, i) ensures Listed(refs, i) {
        ListedStays(before, refs, i);
      }
      if References(routing[n - 1], name) {
        assert refs[|before|].number == n;
      }
    }
  }

  lemma ListedStays(before: seq<RuleRef>, refs: seq<RuleRef>, i: nat)
    requires Listed(before, i) && before <= refs
    ensures Listed(refs, i)
  {
    var k :| 0 <= k < |before| && before[k].number == i + 1;
    assert refs[k] == before[k];
  }

  /** The numbers rise, and none is beyond `n`. */
  ghost predicate Rising(refs: seq<RuleRef>, n: nat) {
    && (forall k | 0 <= k < |refs| :: refs[k].number <= n)
    && (forall k, l | 0 <= k < l < |refs| :: refs[k].number < refs[l].number)
  }

  ghost predicate Listed(refs: seq<RuleRef>, i: nat) {
    exists k | 0 <= k < |refs| :: refs[k].number == i + 1
  }

  ghost predicate ListsRule(routing: seq<Rule>, name: string, ref: RuleRef) {
    && 1 <= ref.number <= |routing|
    && var r := routing[ref.number - 1];
       && References(r, name) && ref.primary == (r.provider == name)
       && ref.model == if r.model.Some? then r.model.value else "*"
  }

  lemma NothingRetainedIff(routing: seq<Rule>, name: string)
    ensures Retained(routing, name) == [] <==> forall i | 0 <= i < |routing| :: References(routing[i], name)
  {
    var kept := Retained(routing, name);
    if kept != [] {
      assert kept[0] in routing && !References(kept[0], name);
    }
    forall i | 0 <= i < |routing| && !References(routing[i], name) ensures kept != [] {
      assert routing[i] in kept;
    }
  }

  // ---- Validating the form ----

  predicate NameChar(c: char) {
    'a' <= c <= 'z' || 'A' <= c <= 'Z' || '0' <= c <= '9' || c == '-' || c == '_'
  }

  function NonBlankOption(s: Option<string>): Option<string> {
    if s.Some? && ModelFormats.Trim(s.value) != [] then Some(ModelFormats.Trim(s.value)) else None
  }

  function CleanSettings(s: Settings): Settings {
    s.(anthropicBaseUrl := NonBlankOption(s.anthropicBaseUrl),
       openaiBaseUrl := NonBlankOption(s.openaiBaseUrl),
       thinkingMode := if s.kind == "minimax" then s.thinkingMode else None,
       sanitizeEmptyTools := if s.kind == "kimi" then s.sanitizeEmptyTools else None)
  }

  predicate BlankAuth(auth: Auth) {
    (auth.ApiKey? || auth.Bearer?) && ModelFormats.Trim(auth.value) == []
  }

  predicate TakenElsewhere(f: Form, cfg: Config) {
    exists i | 0 <= i < |cfg.providers| ::
      cfg.providers[i].name == ModelFormats.Trim(f.name) && !(f.mode.Edit? && f.mode.originalIndex == i)
  }

  function BuiltProvider(f: Form, auth: Auth): Provider {
    Provider(ModelFormats.Trim(f.name), f.providerMode, auth, CleanSettings(f.settings),
             f.formatMode, f.maxConcurrent, NonBlankOption(Some(f.modelFormats)))
  }

  function ValidateForm(f: Form, auth: Auth, cfg: Config): Result<Provider> {
    var name, formats := ModelFormats.Trim(f.name), NonBlankOption(Some(f.modelFormats));
    if name == [] then Err(EmptyName)
    else if exists i | 0 <= i < |name| :: !NameChar(name[i]) then Err(InvalidNameChars)
    else if TakenElsewhere(f, cfg) then Err(FormError.DuplicateName)
    else if BlankAuth(auth) then Err(EmptyAuthValue)
    else if f.mode.Edit? && f.mode.originalName != name
            && RulesReferencing(cfg.routing, f.mode.originalName) != []
    then Err(RenameBlockedBy(RulesReferencing(cfg.routing, f.mode.originalName)))
    else if formats.Some? && ModelFormats.CheckModelFormats(formats.value).Some?
    then Err(InvalidModelFormats(ModelFormats.CheckModelFormats(formats.value).value))
    else Ok(BuiltProvider(f, auth))
  }

  // ---- What a submission does to the configuration ----

  /** The name routing rules would use for this form's provider. */
  function DisableTarget(f: Form): string {
    match f.mode
    case Edit(_, originalName) => originalName
    case Add => ModelFormats.Trim(f.name)
  }

  function WithoutConfirmedRules(cfg: Config, f: Form): Config {
    if f.disableRulesConfirmed then cfg.(routing := Retained(cfg.routing, DisableTarget(f))) else cfg
  }

  function EditedConfig(cfg: Config, f: Form, auth: Auth): Result<Config> {
    var c := WithoutConfirmedRules(cfg, f);
    match ValidateForm(f, auth, c)
    case Err(e) => Err(e)
    case Ok(p) =>
      match f.mode
      case Add => Ok(c.(providers := c.providers + [p]))
      case Edit(i, _) =>
        if i >= |c.providers| then Err(ListChanged) else Ok(c.(providers := c.providers[i := p]))
  }

  /** The credentials written along: typed ones, or for OAuth the stored ones until the dance is done. */
  function FormAuth(cfg: Config, f: Form): Auth {
    match f.authKind
    case UsePassthrough => Passthrough
    case UseApiKey => ApiKey(f.authValue)
    case UseBearer => Bearer(f.authValue)
    case _ => if f.mode.Edit? && f.mode.originalIndex < |cfg.providers| then cfg.providers[f.mode.originalIndex].auth
              else Passthrough
  }

  datatype Step =
    | AskFirst(name: string, rules: seq<RuleRef>)
    | Rejected(error: FormError)
    | NothingToSend
    | Send(cfg: Config)

  predicate AlreadyAdded(cfg: Config, f: Form) {
    var name := ModelFormats.Trim(f.name);
    name != [] && exists i | 0 <= i < |cfg.providers| :: cfg.providers[i].name == name
  }

  /** The fields an OAuth edit compares to decide whether a save is due before the dance. */
  predicate Dirty(f: Form, stored: Provider, built: Provider) {
    f.disableRulesConfirmed
    || stored.name != built.name || stored.mode != built.mode || stored.settings != built.settings
  }

  function Submission(cfg: Config, f: Form): Step {
    var rules := RulesReferencing(cfg.routing, DisableTarget(f));
    if f.providerMode == Disabled && !f.disableRulesConfirmed && rules != [] then AskFirst(DisableTarget(f), rules)
    else if f.authKind.OAuth() && f.mode.Add? && AlreadyAdded(cfg, f) then NothingToSend
    else match EditedConfig(cfg, f, FormAuth(cfg, f))
         case Err(e) => Rejected(e)
         case Ok(c) =>
           if f.authKind.OAuth() && f.mode.Edit?
              && !Dirty(f, cfg.providers[f.mode.originalIndex], c.providers[f.mode.originalIndex])
           then NothingToSend else Send(c)
  }

  // ---- Soundness ----

  /**
   The stored entry is still the one the form was opened on, or one no rule names. Renaming a provider
   and resubmitting the same form leaves the second case.
   */
  ghost predicate Fresh(cfg: Config, f: Form) {
    f.mode.Edit? && f.mode.originalIndex < |cfg.providers| ==>
      var stored := cfg.providers[f.mode.originalIndex].name;
      stored == f.mode.originalName || Unreferenced(cfg.routing, stored)
  }

  lemma RuleChain(r: Rule, n: string)
    ensures n in r.Chain() <==> References(r, n)
  {
  }

  lemma RetainedRulesAreSound(cfg: Config, name: string)
    requires ReferentiallySound(cfg)
    ensures ReferentiallySound(cfg.(routing := Retained(cfg.routing, name)))
  {
    var kept := Retained(cfg.routing, name);
    forall i | 0 <= i < |kept| ensures RuleSound(cfg.providers, kept[i]) {
      assert kept[i] in kept;
    }
  }

  /** Replacing provider `i` keeps a rule sound exactly when the rule does not lean on the old entry. */
  lemma RuleAfterReplace(ps: seq<Provider>, i: nat, p: Provider, r: Rule)
    requires i < |ps| && NamesUnique(ps) && RuleSound(ps, r)
    ensures RuleSound(ps[i := p], r)
            <==> (p.name == ps[i].name && p.mode != Disabled) || !References(r, ps[i].name)
                 || Usable(ps[i := p], ps[i].name)
  {
    var qs := ps[i := p];
    RuleChain(r, ps[i].name);
    forall n | n in r.Chain() && n != ps[i].name ensures Usable(qs, n) {
      var j :| 0 <= j < |ps| && ps[j].name == n && ps[j].mode != Disabled;
      assert qs[j] == ps[j];
    }
    if p.name == ps[i].name && p.mode != Disabled {
      assert qs[i] == p;
    }
  }

  /** After a unique-name replacement the old name is usable only through the replacement itself. */
  lemma OldNameAfterReplace(ps: seq<Provider>, i: nat, p: Provider)
    requires i < |ps| && NamesUnique(ps)
    ensures Usable(ps[i := p], ps[i].name) <==> p.name == ps[i].name && p.mode != Disabled
  {
    var qs := ps[i := p];
    assert qs[i] == p;
    forall j | 0 <= j < |ps| && j != i ensures qs[j].name != ps[i].name {
      assert qs[j] == ps[j];
    }
  }

  lemma NamesStayUnique(ps: seq<Provider>, i: nat, p: Provider)
    requires i < |ps| && NamesUnique(ps)
    requires forall j | 0 <= j < |ps| && j != i :: ps[j].name != p.name
    ensures NamesUnique(ps[i := p])
  {
  }

  lemma AddKeepsRulesSound(cfg: Config, p: Provider)
    requires ReferentiallySound(cfg)
    requires forall j | 0 <= j < |cfg.providers| :: cfg.providers[j].name != p.name
    ensures ReferentiallySound(cfg.(providers := cfg.providers + [p]))
  {
    var qs := cfg.providers + [p];
    forall i | 0 <= i < |cfg.routing| ensures RuleSound(qs, cfg.routing[i]) {
      forall n | n in cfg.routing[i].Chain() ensures Usable(qs, n) {
        assert RuleSound(cfg.providers, cfg.routing[i]);
        var j :| 0 <= j < |cfg.providers| && cfg.providers[j].name == n && cfg.providers[j].mode != Disabled;
        assert qs[j] == cfg.providers[j];
      }
    }
  }

  /**
   Exactly when a form that passes validation leaves a sound configuration sound: always when adding;
   when editing, iff the stored entry keeps its name and stays usable, or no remaining rule names it.
   No assumption is made on how stale the form is.
   */
  lemma EditIsSoundIff(cfg: Config, f: Form, auth: Auth)
    requires ReferentiallySound(cfg) && EditedConfig(cfg, f, auth).Ok?
    ensures var c := EditedConfig(cfg, f, auth).value;
            ReferentiallySound(c) <==>
            (f.mode.Add?
             || var stored := cfg.providers[f.mode.originalIndex].name;
                (ModelFormats.Trim(f.name) == stored && f.providerMode != Disabled)
                || Unreferenced(WithoutConfirmedRules(cfg, f).routing, stored))
  {
    var base, p := WithoutConfirmedRules(cfg, f), BuiltProvider(f, auth);
    RetainedRulesAreSound(cfg, DisableTarget(f));
    if f.mode.Add? {
      AddKeepsRulesSound(base, p);
    } else {
      ReplaceIsSoundIff(base, f.mode.originalIndex, p);
    }
  }

  lemma ReplaceIsSoundIff(cfg: Config, i: nat, p: Provider)
    requires ReferentiallySound(cfg) && i < |cfg.providers|
    requires forall j | 0 <= j < |cfg.providers| && j != i :: cfg.providers[j].name != p.name
    ensures ReferentiallySound(cfg.(providers := cfg.providers[i := p]))
            <==> (p.name == cfg.providers[i].name && p.mode != Disabled)
                 || Unreferenced(cfg.routing, cfg.providers[i].name)
  {
    NamesStayUnique(cfg.providers, i, p);
    OldNameAfterReplace(cfg.providers, i, p);
    forall k | 0 <= k < |cfg.routing|
      ensures RuleSound(cfg.providers[i := p], cfg.routing[k])
              <==> (p.name == cfg.providers[i].name && p.mode != Disabled)
                   || !References(cfg.routing[k], cfg.providers[i].name)
    {
      RuleAfterReplace(cfg.providers, i, p, cfg.routing[k]);
    }
  }

  /** Whatever the form sends for a fresh entry is sound: add, edit, rename, disable with or without consent. */
  lemma SubmissionsAreSound(cfg: Config, f: Form)
    requires ReferentiallySound(cfg) && Fresh(cfg, f) && Submission(cfg, f).Send?
    ensures ReferentiallySound(Submission(cfg, f).cfg)
  {
    var auth := FormAuth(cfg, f);
    EditIsSoundIff(cfg, f, auth);
    if f.mode.Edit? {
      var stored, base := cfg.providers[f.mode.originalIndex].name, WithoutConfirmedRules(cfg, f);
      if stored == f.mode.originalName {
        assert DisableTarget(f) == stored;
      } else {
        assert forall i | 0 <= i < |base.routing| :: base.routing[i] in cfg.routing;
      }
    }
  }

  /** The form stays fresh for the configuration it has just sent, even if it renamed the provider. */
  lemma FormStaysFresh(cfg: Config, f: Form)
    requires ReferentiallySound(cfg) && Fresh(cfg, f) && Submission(cfg, f).Send?
    ensures Fresh(Submission(cfg, f).cfg, f)
  {
    if f.mode.Edit? {
      var i, base := f.mode.originalIndex, WithoutConfirmedRules(cfg, f);
      var name := ModelFormats.Trim(f.name);
      if name != f.mode.originalName {
        forall k | 0 <= k < |base.routing| ensures !References(base.routing[k], name) {
          assert base.routing[k] in cfg.routing;
          RuleChain(base.routing[k], name);
        }
      }
    }
  }

  /**
   Freshness is needed: this form, opened on an entry named "b" that has given way to one named "a",
   would take the only rule's provider away. The terminal fetches nothing under an open dialog, so none
   of its runs gets here.
   */
  lemma StaleFormBreaksRules(settings: Settings)
    ensures var cfg := Config([Provider("a", Enabled, Passthrough, settings, None, None, None)],
                              [Rule(None, "a", [], Failover, None)]);
            var f := Form(Edit(0, "b"), "b", settings, None, "", Enabled, None, UsePassthrough, "", false);
            && ReferentiallySound(cfg) && !Fresh(cfg, f)
            && Submission(cfg, f).Send? && !ReferentiallySound(Submission(cfg, f).cfg)
  {
    var p := Provider("a", Enabled, Passthrough, settings, None, None, None);
    var rule := Rule(None, "a", [], Failover, None);
    var cfg := Config([p], [rule]);
    var f := Form(Edit(0, "b"), "b", settings, None, "", Enabled, None, UsePassthrough, "", false);
    assert Usable(cfg.providers, "a") by {
      assert cfg.providers[0].name == "a";
    }
    assert ReferentiallySound(cfg);
    assert ModelFormats.Trim("b") == "b" && ModelFormats.Trim("") == "";
    assert ValidateForm(f, Passthrough, cfg) == Ok(BuiltProvider(f, Passthrough));
    assert EditedConfig(cfg, f, Passthrough).Ok?;
    assert Submission(cfg, f).Send?;
    assert References(cfg.routing[0], "a");
    EditIsSoundIff(cfg, f, Passthrough);
  }

  // ---- Routing is touched only with consent ----

  /** A save leaves the routing alone unless rules were confirmed away and some rule names the target. */
  lemma RoutingChangesIff(cfg: Config, f: Form)
    requires Submission(cfg, f).Send?
    ensures Submission(cfg, f).cfg.routing == cfg.routing
            <==> !f.disableRulesConfirmed || RulesReferencing(cfg.routing, DisableTarget(f)) == []
  {
  }

  /**
   Consent sticks to the form. Disable a provider that rules name, with a blank name in the form: the
   form asks, is told yes, and then refuses the name. Put the name right, switch back to enabled, and the
   next save changes nothing but the routing: the rules that name the provider are gone.
   */
  lemma ConsentOutlivesDisabling(cfg: Config, f: Form, i: nat)
    requires i < |cfg.providers| && ReferentiallySound(cfg) && !Unreferenced(cfg.routing, cfg.providers[i].name)
    requires f.mode == Edit(i, cfg.providers[i].name) && !f.disableRulesConfirmed && !f.authKind.OAuth()
    requires f.providerMode == Enabled && EditedConfig(cfg, f, FormAuth(cfg, f)) == Ok(cfg)
    ensures var disabling := f.(providerMode := Disabled, name := "");
            && Submission(cfg, disabling).AskFirst?
            && Submission(cfg, disabling.(disableRulesConfirmed := true)) == Rejected(EmptyName)
            && var again := f.(disableRulesConfirmed := true);
               Submission(cfg, again) == Send(cfg.(routing := Retained(cfg.routing, cfg.providers[i].name)))
               && |Submission(cfg, again).cfg.routing| < |cfg.routing|
  {
    var name := cfg.providers[i].name;
    var again, kept := f.(disableRulesConfirmed := true), cfg.(routing := Retained(cfg.routing, name));
    assert ModelFormats.Trim("") == "";
    assert cfg.providers[i := cfg.providers[i]] == cfg.providers;
    assert ValidateForm(again, FormAuth(cfg, again), kept) == ValidateForm(f, FormAuth(cfg, f), cfg);
  }

  /** Two providers with a rule each: the first one, re-enabled in its form after a yes, loses its rule. */
  lemma ConsentExample()
    ensures var settings := Settings("anthropic", None, None, None, false, None, None);
            var ps := [Provider("a", Enabled, Passthrough, settings, None, None, None),
                       Provider("b", Enabled, Passthrough, settings, None, None, None)];
            var rules := [Rule(Some("x"), "a", [], Failover, None), Rule(None, "b", [], Failover, None)];
            var f := Form(Edit(0, "a"), "a", settings, None, "", Enabled, None, UsePassthrough, "", true);
            && Submission(Config(ps, rules), f.(providerMode := Disabled, name := "")) == Rejected(EmptyName)
            && Submission(Config(ps, rules), f) == Send(Config(ps, rules[1..]))
  {
    var settings := Settings("anthropic", None, None, None, false, None, None);
    var a := Provider("a", Enabled, Passthrough, settings, None, None, None);
    var b := Provider("b", Enabled, Passthrough, settings, None, None, None);
    var ra, rb := Rule(Some("x"), "a", [], Failover, None), Rule(None, "b", [], Failover, None);
    var f := Form(Edit(0, "a"), "a", settings, None, "", Enabled, None, UsePassthrough, "", true);
    assert ModelFormats.Trim("") == "";
    assert [ra, rb][..1] == [ra] && [ra, rb][1..] == [rb];
    assert Retained([ra, rb], "a") == [rb];
    assert [a, b][0 := a] == [a, b];
    FormBuilds(f, a, b, rb);
  }

  lemma FormBuilds(f: Form, a: Provider, b: Provider, rule: Rule)
    requires f.name == a.name == "a" && b.name != "a" && f.mode == Edit(0, "a") && f.modelFormats == ""
    requires f.providerMode == a.mode && a.auth == Passthrough && f.settings == a.settings == CleanSettings(a.settings)
    requires f.formatMode == a.formatMode && f.maxConcurrent == a.maxConcurrent && a.modelFormats == None
    ensures ValidateForm(f, Passthrough, Config([a, b], [rule])) == Ok(a)
  {
    assert ModelFormats.Trim("") == "" && ModelFormats.Trim("a") == "a";
    assert BuiltProvider(f, Passthrough) == a;
  }

  /**
   An OAuth edit loses a change exactly when name, mode and settings are the stored ones and the wire
   format or the rule string is not. A form cannot edit the limit; it differs only in a form filled
   before the stored one changed.
   */
  lemma OAuthEditDropsIff(cfg: Config, f: Form)
    requires f.authKind.OAuth() && f.mode.Edit? && EditedConfig(cfg, f, FormAuth(cfg, f)).Ok?
    requires !Submission(cfg, f).AskFirst?
    ensures var i := f.mode.originalIndex;
            var stored, built := cfg.providers[i], BuiltProvider(f, FormAuth(cfg, f));
            (Submission(cfg, f).NothingToSend? && built != stored)
            <==> (!f.disableRulesConfirmed
                  && built == stored.(formatMode := built.formatMode, maxConcurrent := built.maxConcurrent,
                                      modelFormats := built.modelFormats)
                  && (built.formatMode != stored.formatMode || built.maxConcurrent != stored.maxConcurrent
                      || built.modelFormats != stored.modelFormats))
  {
  }

  /** Switching an OAuth provider to one wire format is such an edit: nothing is sent. */
  lemma OAuthEditLosesFormat(tokens: string, settings: Settings)
    ensures var p := Provider("a", Enabled, OpenAiOAuth(tokens), CleanSettings(settings), Some("both"), None, None);
            var f := Form(Edit(0, "a"), "a", settings, Some("openai"), "", Enabled, None, OAuthOpenAi, "", false);
            && BuiltProvider(f, p.auth) == p.(formatMode := Some("openai"))
            && Submission(Config([p], []), f) == NothingToSend
  {
    var p := Provider("a", Enabled, OpenAiOAuth(tokens), CleanSettings(settings), Some("both"), None, None);
    var f := Form(Edit(0, "a"), "a", settings, Some("openai"), "", Enabled, None, OAuthOpenAi, "", false);
    assert ModelFormats.Trim("a") == "a" && ModelFormats.Trim("") == "";
    assert ValidateForm(f, p.auth, Config([p], [])) == Ok(BuiltProvider(f, p.auth));
  }

  // ---- What is saved, field by field ----

  /** The value typed into an optional field, trimmed, when there is one. */
  predicate SavesText(saved: Option<string>, typed: Option<string>) {
    if typed.Some? && ModelFormats.Trim(typed.value) != [] then saved == Some(ModelFormats.Trim(typed.value))
    else saved == None
  }

  /** The entry a form saves: every field where it belongs. */
  ghost predicate SavedAs(p: Provider, cfg: Config, f: Form)
    requires f.mode.Edit? ==> f.mode.originalIndex < |cfg.providers|
  {
    && p.name == ModelFormats.Trim(f.name) && p.mode == f.providerMode
    && p.formatMode == f.formatMode && p.maxConcurrent == f.maxConcurrent
    && SavesText(p.modelFormats, Some(f.modelFormats))
    && p.settings.kind == f.settings.kind
    && SavesText(p.settings.anthropicBaseUrl, f.settings.anthropicBaseUrl)
    && SavesText(p.settings.openaiBaseUrl, f.settings.openaiBaseUrl)
    && p.settings.thinkingLevel == f.settings.thinkingLevel && p.settings.thinkingForce == f.settings.thinkingForce
    && p.settings.thinkingMode == (if f.settings.kind == "minimax" then f.settings.thinkingMode else None)
    && p.settings.sanitizeEmptyTools == (if f.settings.kind == "kimi" then f.settings.sanitizeEmptyTools else None)
    && match f.authKind
       case UsePassthrough => p.auth == Passthrough
       case UseApiKey => p.auth == ApiKey(f.authValue)
       case UseBearer => p.auth == Bearer(f.authValue)
       case _ => p.auth == if f.mode.Edit? then cfg.providers[f.mode.originalIndex].auth else Passthrough
  }

  /** Whatever is sent holds the old entries in their places, and the form's own where it was opened or last. */
  lemma SentEntries(cfg: Config, f: Form)
    requires Submission(cfg, f).Send?
    ensures var ps, qs := cfg.providers, Submission(cfg, f).cfg.providers;
            var i := if f.mode.Edit? then f.mode.originalIndex else |ps|;
            && (if f.mode.Edit? then i < |ps| && |qs| == |ps| else |qs| == |ps| + 1)
            && (forall k | 0 <= k < |ps| && k != i :: qs[k] == ps[k])
            && SavedAs(qs[i], cfg, f)
  {
  }

  ghost predicate RuleNames(cfg: Config, name: string) {
    exists i | 0 <= i < |cfg.routing| :: cfg.routing[i].provider == name || name in cfg.routing[i].fallback
  }

  /** A save asks first exactly when it would disable a provider, unconfirmed, that some rule names today. */
  lemma AsksFirstIff(cfg: Config, f: Form)
    ensures var name := if f.mode.Edit? then f.mode.originalName else ModelFormats.Trim(f.name);
            && (Submission(cfg, f).AskFirst? <==>
                  f.providerMode == Disabled && !f.disableRulesConfirmed && RuleNames(cfg, name))
            && (Submission(cfg, f).AskFirst? ==> Submission(cfg, f).name == name)
  {
    var name := DisableTarget(f);
    forall i | 0 <= i < |cfg.routing|
      ensures References(cfg.routing[i], name) <==> cfg.routing[i].provider == name || name in cfg.routing[i].fallback
    {
    }
  }

  /** An OAuth form in add mode goes on without a save exactly when its provider is there already. */
  lemma RetriedAddSendsNothingIff(cfg: Config, f: Form)
    requires f.mode.Add? && f.authKind.OAuth() && !Submission(cfg, f).AskFirst?
    ensures Submission(cfg, f).NothingToSend? <==>
            ModelFormats.Trim(f.name) != "" && exists p | p in cfg.providers :: p.name == ModelFormats.Trim(f.name)
  {
    var name := ModelFormats.Trim(f.name);
    if p :| p in cfg.providers && p.name == name {
      var i :| 0 <= i < |cfg.providers| && cfg.providers[i] == p;
    }
  }

  predicate NameFits(name: string) {
    name != "" && forall i | 0 <= i < |name| ::
      'a' <= name[i] <= 'z' || 'A' <= name[i] <= 'Z' || '0' <= name[i] <= '9' || name[i] in {'-', '_'}
  }

  ghost predicate NameFree(cfg: Config, f: Form, name: string) {
    forall i | 0 <= i < |cfg.providers| && cfg.providers[i].name == name :: f.mode.Edit? && f.mode.originalIndex == i
  }

  predicate AuthFits(auth: Auth) {
    (auth.ApiKey? || auth.Bearer?) ==> ModelFormats.Trim(auth.value) != ""
  }

  ghost predicate RenameFits(cfg: Config, f: Form, name: string) {
    f.mode.Edit? && f.mode.originalName != name ==> !RuleNames(cfg, f.mode.originalName)
  }

  /** A form is in order exactly when all its checks pass, and a complaint is about the first that does not. */
  lemma FormFitsIff(f: Form, auth: Auth, cfg: Config)
    ensures var name, v := ModelFormats.Trim(f.name), ValidateForm(f, auth, cfg);
            var formatsFit := ModelFormats.CheckModelFormats(ModelFormats.Trim(f.modelFormats)) == None;
            && (v.Ok? <==> NameFits(name) && NameFree(cfg, f, name) && AuthFits(auth) && RenameFits(cfg, f, name)
                           && formatsFit)
            && (v.Err? ==>
                  match v.error
                  case EmptyName => name == ""
                  case InvalidNameChars => name != "" && !NameFits(name)
                  case DuplicateName => NameFits(name) && !NameFree(cfg, f, name)
                  case EmptyAuthValue => NameFits(name) && NameFree(cfg, f, name) && !AuthFits(auth)
                  case RenameBlockedBy(rules) =>
                    NameFits(name) && NameFree(cfg, f, name) && AuthFits(auth) && !RenameFits(cfg, f, name)
                  case InvalidModelFormats(_) =>
                    && NameFits(name) && NameFree(cfg, f, name) && AuthFits(auth) && RenameFits(cfg, f, name)
                    && !formatsFit
                  case _ => false)
  {
    NameFitsIff(ModelFormats.Trim(f.name));
    if f.mode.Edit? {
      ReferencedIff(cfg, f.mode.originalName);
    }
    NoFormatsFit();
  }

  lemma NameFitsIff(name: string)
    ensures NameFits(name) <==> name != [] && !(exists i | 0 <= i < |name| :: !NameChar(name[i]))
  {
  }

  lemma ReferencedIff(cfg: Config, name: string)
    ensures RulesReferencing(cfg.routing, name) != [] <==> RuleNames(cfg, name)
  {
    forall i | 0 <= i < |cfg.routing|
      ensures References(cfg.routing[i], name) <==> cfg.routing[i].provider == name || name in cfg.routing[i].fallback
    {
    }
  }

  lemma NoFormatsFit()
    ensures ModelFormats.CheckModelFormats("") == None
  {
    assert ModelFormats.Split("", ',') == [[]] && ModelFormats.Trim([]) == [];
    assert ModelFormats.Segments("") == [];
  }

  // ---- Opening and saving untouched ----

  function KindOf(kind: string): string {
    if kind in {"zai", "deepseek", "openai", "codex", "minimax"} then kind
    else if kind in {"kimi", "moonshot"} then "kimi"
    else if kind in {"opencode_go", "opencode-go"} then "opencode_go"
    else "anthropic"
  }

  /** The option if it is one of those the form knows. */
  function OneOf(value: Option<string>, known: set<string>): Option<string> {
    if value.Some? && value.value in known then value else None
  }

  function Levels(): set<string> {
    {"off", "minimal", "low", "medium", "high", "xhigh", "max", "adaptive"}
  }

  function OrEmpty(value: Option<string>): string {
    if value.Some? then value.value else ""
  }

  /** The edit form as it opens on a stored provider. */
  function FilledForm(i: nat, p: Provider): Form {
    var t := p.settings;
    Form(
      Edit(i, p.name), p.name,
      Settings(KindOf(t.kind), Some(OrEmpty(t.anthropicBaseUrl)), Some(OrEmpty(t.openaiBaseUrl)),
               OneOf(t.thinkingLevel, Levels()), t.thinkingForce,
               OneOf(t.thinkingMode, {"split_only", "strip_all"}),
               Some(t.sanitizeEmptyTools.Some? && t.sanitizeEmptyTools.value)),
      Some(if p.formatMode in {Some("anthropic"), Some("openai")} then p.formatMode.value else "both"),
      OrEmpty(p.modelFormats), p.mode, p.maxConcurrent,
      match p.auth
      case ApiKey(_) => UseApiKey
      case Bearer(_) => UseBearer
      case AnthropicOAuth(_) => OAuthAnthropic
      case OpenAiOAuth(_) => OAuthOpenAi
      case _ => UsePassthrough,
      if p.auth.ApiKey? || p.auth.Bearer? then p.auth.value else "",
      false)
  }

  predicate CleanText(value: Option<string>) {
    value.Some? ==> value.value != "" && ModelFormats.Trimmed(value.value)
  }

  /** A stored entry in the spelling the form itself uses, and one that passes the form's checks. */
  predicate Clean(p: Provider) {
    var t := p.settings;
    && NameFits(p.name) && ModelFormats.Trimmed(p.name) && AuthFits(p.auth)
    && CleanText(t.anthropicBaseUrl) && CleanText(t.openaiBaseUrl) && CleanText(p.modelFormats)
    && ModelFormats.CheckModelFormats(OrEmpty(p.modelFormats)) == None
    && p.formatMode in {Some("both"), Some("anthropic"), Some("openai")}
    && t.kind in {"anthropic", "zai", "deepseek", "openai", "codex", "minimax", "kimi", "opencode_go"}
    && (t.thinkingLevel.Some? ==> t.thinkingLevel.value in Levels())
    && (t.thinkingMode.Some? ==> t.kind == "minimax" && t.thinkingMode.value in {"split_only", "strip_all"})
    && (t.sanitizeEmptyTools.Some? <==> t.kind == "kimi")
  }

  lemma ReopenedSettings(p: Provider, i: nat)
    requires Clean(p)
    ensures CleanSettings(FilledForm(i, p).settings) == p.settings
    ensures NonBlankOption(Some(FilledForm(i, p).modelFormats)) == p.modelFormats
  {
    TextComesBack(p.settings.anthropicBaseUrl);
    TextComesBack(p.settings.openaiBaseUrl);
    TextComesBack(p.modelFormats);
  }

  lemma TextComesBack(value: Option<string>)
    requires CleanText(value)
    ensures NonBlankOption(Some(OrEmpty(value))) == value
  {
    ModelFormats.TrimmedStays(OrEmpty(value));
  }

  /**
   Opening a provider and saving it untouched leaves the configuration as it is exactly unless the provider
   takes its login from the Codex command line: the form shows that as passthrough, and saves it so.
   */
  lemma UntouchedSaveIff(cfg: Config, i: nat)
    requires ReferentiallySound(cfg) && i < |cfg.providers| && Clean(cfg.providers[i])
    ensures var p, f := cfg.providers[i], FilledForm(i, cfg.providers[i]);
            && EditedConfig(cfg, f, FormAuth(cfg, f))
               == Ok(cfg.(providers := cfg.providers[i := if p.auth.CodexAuto? then p.(auth := Passthrough) else p]))
            && (EditedConfig(cfg, f, FormAuth(cfg, f)) == Ok(cfg) <==> p.auth != CodexAuto)
  {
    var p, f := cfg.providers[i], FilledForm(i, cfg.providers[i]);
    var q := if p.auth.CodexAuto? then p.(auth := Passthrough) else p;
    ReopenedEntry(cfg, i);
    FormFitsIff(f, FormAuth(cfg, f), cfg);
    assert cfg.providers[i := p] == cfg.providers && cfg.providers[i := q][i] == q;
  }

  lemma ReopenedEntry(cfg: Config, i: nat)
    requires ReferentiallySound(cfg) && i < |cfg.providers| && Clean(cfg.providers[i])
    ensures var p, f := cfg.providers[i], FilledForm(i, cfg.providers[i]);
            && ModelFormats.Trim(f.name) == p.name && ModelFormats.Trim(f.modelFormats) == f.modelFormats
            && AuthFits(FormAuth(cfg, f)) && NameFree(cfg, f, p.name)
            && BuiltProvider(f, FormAuth(cfg, f)) == if p.auth.CodexAuto? then p.(auth := Passthrough) else p
  {
    var p := cfg.providers[i];
    ReopenedSettings(p, i);
    ModelFormats.TrimmedStays(p.name);
    ModelFormats.TrimmedStays(OrEmpty(p.modelFormats));
  }

  /** A form that holds one of the choices it offers for each of its fields. */
  predicate WellFilled(f: Form) {
    var t := f.settings;
    && f.formatMode in {Some("both"), Some("anthropic"), Some("openai")}
    && t.kind in {"anthropic", "zai", "deepseek", "openai", "codex", "minimax", "kimi", "opencode_go"}
    && (t.thinkingLevel.Some? ==> t.thinkingLevel.value in Levels())
    && (t.thinkingMode.Some? ==> t.thinkingMode.value in {"split_only", "strip_all"})
    && t.sanitizeEmptyTools.Some?
  }

  /** What a form saves is clean, so opening and saving it again changes nothing any more. */
  lemma SavedEntriesAreClean(f: Form, auth: Auth, cfg: Config)
    requires WellFilled(f) && ValidateForm(f, auth, cfg).Ok?
    ensures Clean(ValidateForm(f, auth, cfg).value)
  {
    FormFitsIff(f, auth, cfg);
    var before, after := ModelFormats.TrimTakesSpaces(f.name);
    SavedTextIsClean(f.settings.anthropicBaseUrl);
    SavedTextIsClean(f.settings.openaiBaseUrl);
    SavedTextIsClean(Some(f.modelFormats));
  }

  lemma SavedTextIsClean(typed: Option<string>)
    ensures CleanText(NonBlankOption(typed))
  {
    if typed.Some? {
      var before, after := ModelFormats.TrimTakesSpaces(typed.value);
    }
  }

  // ---- Deleting ----

  function Deleted(cfg: Config, i: nat): Config
    requires i < |cfg.providers|
  {
    cfg.(providers := cfg.providers[..i] + cfg.providers[i + 1..])
  }

  /** Deleting keeps a configuration sound exactly when no rule names the provider. */
  lemma DeleteIsSoundIff(cfg: Config, i: nat)
    requires ReferentiallySound(cfg) && i < |cfg.providers|
    ensures ReferentiallySound(Deleted(cfg, i)) <==> Unreferenced(cfg.routing, cfg.providers[i].name)
  {
    var ps, name := cfg.providers, cfg.providers[i].name;
    var qs := Deleted(cfg, i).providers;
    assert forall k | 0 <= k < |qs| :: qs[k] == ps[if k < i then k else k + 1];
    forall r | RuleSound(ps, r) ensures RuleSound(qs, r) <==> !References(r, name) {
      RuleChain(r, name);
      forall n | n in r.Chain() && n != name ensures Usable(qs, n) {
        var j :| 0 <= j < |ps| && ps[j].name == n && ps[j].mode != Disabled;
        assert qs[if j < i then j else j - 1] == ps[j];
      }
      assert !Usable(qs, name);
    }
    assert forall k | 0 <= k < |cfg.routing| :: RuleSound(ps, cfg.routing[k]);
  }
}
