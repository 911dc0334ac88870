/**
 The terminal's provider screen as a state machine: the cached configuration, the open dialog, and
 every configuration it has sent to the daemon. Every reachable state is sound.
 */
module EditSession {
  import opened Json
  import opened ProxyConfig
  import opened ProviderEdits
  import ModelFormats

  /** A form being edited, one whose save or login failed, and one waiting for a login to finish. */
  datatype Phase = Editing | Failed | AwaitingLogin

  datatype Modal =
    | Closed
    | ProviderForm(form: Form, error: Option<FormError>, phase: Phase)
    | DisableConfirm(name: string, rules: seq<RuleRef>, pending: Form)
    | DeleteConfirm(index: nat, name: string, blocking: seq<RuleRef>)

  datatype Key = Yes | No | Other

  /** How a login ends; a configuration comes with the answer or is fetched, which may fail. */
  datatype Login = LoggedIn(fetched: Option<Config>) | LoginFailed

  /** What has to hold between the open dialog and the cached configuration, while there is one. */
  ghost predicate ModalFits(config: Option<Config>, modal: Modal) {
    config.Some? ==>
      match modal
      case Closed => true
      case ProviderForm(f, _, _) => Fresh(config.value, f)
      case DisableConfirm(_, _, f) => Fresh(config.value, f)
      case DeleteConfirm(i, name, blocking) =>
        && i < |config.value.providers| && config.value.providers[i].name == name
        && blocking == RulesReferencing(config.value.routing, name)
  }

  /** The dialog that asks for a deletion lists the rules in its way. */
  ghost function DeletionAsked(cfg: Config, i: nat): Modal
    requires i < |cfg.providers|
  {
    var name := cfg.providers[i].name;
    DeleteConfirm(i, name, RulesReferencing(cfg.routing, name))
  }

  /** What saving a form does; without a configuration it only complains. */
  function Attempt(config: Option<Config>, f: Form): Step {
    if config.None? then Rejected(NotLoaded) else Submission(config.value, f)
  }

  /** Where an OAuth form goes once its provider is saved: to the login, unless that cannot start. */
  function LoginForm(f: Form, loginStarts: bool): Modal {
    ProviderForm(f, None, if loginStarts then AwaitingLogin else Failed)
  }

  /** The dialog after a save that asked for nothing. */
  function AfterSave(f: Form, step: Step, accepted: bool, loginStarts: bool): Modal
    requires !step.AskFirst?
  {
    match step
    case Rejected(e) => ProviderForm(f, Some(e), Editing)
    case NothingToSend => LoginForm(f, loginStarts)
    case Send(_) =>
      if !accepted then ProviderForm(f, None, Failed)
      else if f.authKind.OAuth() then LoginForm(f, loginStarts)
      else Closed
  }

  /** A form leaves the screen only once its configuration was accepted; otherwise all that was typed stays. */
  lemma FormIsNeverLost(f: Form, step: Step, accepted: bool, loginStarts: bool)
    requires !step.AskFirst?
    ensures var modal := AfterSave(f, step, accepted, loginStarts);
            && (modal == Closed <==> step.Send? && accepted && !f.authKind.OAuth())
            && (modal != Closed ==>
                  && modal.ProviderForm? && modal.form == f
                  && (modal.error.Some? <==> step.Rejected?)
                  && (modal.phase == Editing <==> step.Rejected?)
                  && (modal.phase == AwaitingLogin <==> !step.Rejected? && loginStarts && (step.Send? ==> accepted)))
  {
  }

  /** What adding with OAuth comes to. */
  lemma AddAttempt(cfg: Config, f: Form, base: Config)
    requires f.mode.Add? && f.authKind.OAuth() && !Submission(cfg, f).AskFirst? && base == WithoutConfirmedRules(cfg, f)
    ensures Submission(cfg, f)
            == if AlreadyAdded(base, f) then NothingToSend
               else match ValidateForm(f, Passthrough, base)
                    case Err(e) => Rejected(e)
                    case Ok(p) => Send(base.(providers := base.providers + [p]))
  {
  }

  class Session {
    var config: Option<Config>
    var modal: Modal
    ghost var sent: seq<Config>
    /** Every configuration fetched so far was sound and fitted the dialog it was fetched under. */
    ghost var trusted: bool

    /** As long as what comes in is sound, everything cached and everything ever sent is. */
    ghost predicate Valid()
      reads this
    {
      trusted ==>
        && ModalFits(config, modal)
        && (config.Some? ==> ReferentiallySound(config.value))
        && forall i | 0 <= i < |sent| :: ReferentiallySound(sent[i])
    }

    constructor ()
      ensures Valid() && config == None && modal == Closed && sent == [] && trusted
    {
      config, modal, sent, trusted := None, Closed, [], true;
    }

    /** Whatever the daemon holds is taken over; it checks what it is sent, but not what it starts with. */
    method Load(cfg: Config)
      requires Valid()
      modifies `config, `trusted
      ensures Valid() && config == Some(cfg)
      ensures trusted == (old(trusted) && ReferentiallySound(cfg) && ModalFits(Some(cfg), modal))
    {
      config := Some(cfg);
      trusted := trusted && ReferentiallySound(cfg) && ModalFits(config, modal);
    }

    /** A fetch that failed leaves nothing cached, whatever is open. */
    method LoadFails()
      requires Valid()
      modifies `config
      ensures Valid() && config == None
    {
      config := None;
    }

    method OpenAdd(blank: Form)
      requires Valid() && blank.mode.Add?
      modifies `modal
      ensures Valid() && modal == ProviderForm(blank, None, Editing)
    {
      modal := ProviderForm(blank, None, Editing);
    }

    /** The form opens filled from the selected provider. */
    method OpenEdit(selected: nat)
      requires Valid()
      modifies `modal
      ensures Valid()
      ensures modal == if config.Some? && selected < |config.value.providers|
                       then ProviderForm(FilledForm(selected, config.value.providers[selected]), None, Editing)
                       else old(modal)
    {
      if config.Some? && selected < |config.value.providers| {
        modal := ProviderForm(FilledForm(selected, config.value.providers[selected]), None, Editing);
      }
    }

    method OpenDelete(selected: nat)
      requires Valid()
      modifies `modal
      ensures Valid()
      ensures modal == if config.Some? && selected < |config.value.providers|
                       then DeletionAsked(config.value, selected) else old(modal)
    {
      if config.Some? && selected < |config.value.providers| {
        var name := config.value.providers[selected].name;
        modal := DeleteConfirm(selected, name, RulesReferencing(config.value.routing, name));
      }
    }

    /** Typing into the form changes anything but what it was opened on and the consent given. */
    method Type(f: Form)
      requires Valid() && modal.ProviderForm? && modal.phase == Editing
      requires f.mode == modal.form.mode && f.disableRulesConfirmed == modal.form.disableRulesConfirmed
      modifies `modal
      ensures Valid() && modal == ProviderForm(f, None, Editing)
    {
      modal := ProviderForm(f, None, Editing);
    }

    /** Escape drops the form, and with it any consent given in it. */
    method Cancel()
      requires Valid() && modal.ProviderForm?
      modifies `modal
      ensures Valid() && modal == Closed
    {
      modal := Closed;
    }

    /** Send a configuration; the daemon's answer is an input. */
    method PutConfig(cfg: Config, accepted: bool)
      requires Valid()
      requires trusted ==> ReferentiallySound(cfg) && (accepted ==> ModalFits(Some(cfg), modal))
      modifies `config, `sent
      ensures Valid()
      ensures sent == old(sent) + [cfg]
      ensures config == if accepted then Some(cfg) else old(config)
    {
      sent := sent + [cfg];
      if accepted {
        config := Some(cfg);
      }
    }

    /** The save that the form's fields call for has been made. */
    twostate predicate Saved(f: Form, accepted: bool, loginStarts: bool)
      reads this
    {
      var step := Attempt(old(config), f);
      && !step.AskFirst?
      && sent == old(sent) + (if step.Send? then [step.cfg] else [])
      && config == (if step.Send? && accepted then Some(step.cfg) else old(config))
      && modal == AfterSave(f, step, accepted, loginStarts) && trusted == old(trusted)
    }

    /** Save from the form: asks first, complains, sends nothing, or sends exactly the specified edit. */
    method SubmitProviderForm(accepted: bool, loginStarts: bool)
      requires Valid() && modal.ProviderForm? && modal.phase != AwaitingLogin
      modifies this
      ensures Valid()
      ensures var f := old(modal).form;
              match Attempt(old(config), f)
              case AskFirst(name, rules) =>
                && sent == old(sent) && config == old(config) && trusted == old(trusted)
                && modal == DisableConfirm(name, rules, f)
              case _ => Saved(f, accepted, loginStarts)
    {
      var f := modal.form;
      if f.providerMode == Disabled && !f.disableRulesConfirmed && config.Some? {
        var name := DisableTarget(f);
        var rules := RulesReferencing(config.value.routing, name);
        if rules != [] {
          modal := DisableConfirm(name, rules, f);
          return;
        }
      }
      if f.authKind.OAuth() {
        if f.mode.Add? {
          SubmitOAuthAdd(f, accepted, loginStarts);
        } else {
          SubmitOAuthEdit(f, accepted, loginStarts);
        }
      } else {
        SubmitNonOAuthSave(f, accepted, loginStarts);
      }
    }

    ghost predicate MaySubmit(f: Form)
      reads this
    {
      modal.ProviderForm? && modal.form == f && !Attempt(config, f).AskFirst?
    }

    method SubmitNonOAuthSave(f: Form, accepted: bool, ghost loginStarts: bool)
      requires Valid() && MaySubmit(f) && !f.authKind.OAuth()
      modifies this
      ensures Valid() && Saved(f, accepted, loginStarts) && !Attempt(old(config), f).NothingToSend?
    {
      if config.None? {
        modal := ProviderForm(f, Some(NotLoaded), Editing);
        return;
      }
      var cfg := config.value;
      if f.disableRulesConfirmed {
        cfg := cfg.(routing := Retained(cfg.routing, DisableTarget(f)));
      }
      var auth := match f.authKind
        case UseApiKey => ApiKey(f.authValue)
        case UseBearer => Bearer(f.authValue)
        case _ => Passthrough;
      var checked := ValidateForm(f, auth, cfg);
      if checked.Err? {
        modal := ProviderForm(f, Some(checked.error), Editing);
        return;
      }
      match f.mode {
        case Add =>
          cfg := cfg.(providers := cfg.providers + [checked.value]);
        case Edit(i, _) =>
          if i >= |cfg.providers| {
            modal := ProviderForm(f, Some(ListChanged), Editing);
            return;
          }
          cfg := cfg.(providers := cfg.providers[i := checked.value]);
      }
      if trusted {
        SubmissionsAreSound(config.value, f);
        FormStaysFresh(config.value, f);
      }
      modal := ProviderForm(f, None, Failed);
      PutConfig(cfg, accepted);
      if accepted {
        modal := Closed;
      }
    }

    /** Adding with OAuth saves a placeholder first; a retry finds it already there. */
    method SubmitOAuthAdd(f: Form, accepted: bool, loginStarts: bool)
      requires Valid() && MaySubmit(f) && f.authKind.OAuth() && f.mode.Add?
      modifies this
      ensures Valid() && Saved(f, accepted, loginStarts)
    {
      if config.None? {
        modal := ProviderForm(f, Some(NotLoaded), Editing);
        return;
      }
      var cfg := config.value;
      if f.disableRulesConfirmed {
        cfg := cfg.(routing := Retained(cfg.routing, DisableTarget(f)));
      }
      AddAttempt(config.value, f, cfg);
      if !AlreadyAdded(cfg, f) {
        var checked := ValidateForm(f, Passthrough, cfg);
        if checked.Err? {
          modal := ProviderForm(f, Some(checked.error), Editing);
          return;
        }
        cfg := cfg.(providers := cfg.providers + [checked.value]);
        if trusted {
          SubmissionsAreSound(config.value, f);
        }
        PutConfig(cfg, accepted);
        if !accepted {
          modal := ProviderForm(f, None, Failed);
          return;
        }
      }
      modal := LoginForm(f, loginStarts);
    }

    /** Editing with OAuth keeps the stored credentials and saves only when a compared field changed. */
    method SubmitOAuthEdit(f: Form, accepted: bool, loginStarts: bool)
      requires Valid() && MaySubmit(f) && f.authKind.OAuth() && f.mode.Edit?
      modifies this
      ensures Valid() && Saved(f, accepted, loginStarts)
    {
      if config.None? {
        modal := ProviderForm(f, Some(NotLoaded), Editing);
        return;
      }
      var i := f.mode.originalIndex;
      var cfg := config.value;
      if f.disableRulesConfirmed {
        cfg := cfg.(routing := Retained(cfg.routing, DisableTarget(f)));
      }
      var auth := if i < |cfg.providers| then cfg.providers[i].auth else Passthrough;
      var checked := ValidateForm(f, auth, cfg);
      if checked.Err? {
        modal := ProviderForm(f, Some(checked.error), Editing);
        return;
      }
      if i >= |cfg.providers| {
        modal := ProviderForm(f, Some(ListChanged), Editing);
        return;
      }
      var dirty := Dirty(f, cfg.providers[i], checked.value);
      cfg := cfg.(providers := cfg.providers[i := checked.value]);
      if dirty {
        if trusted {
          SubmissionsAreSound(config.value, f);
          FormStaysFresh(config.value, f);
        }
        PutConfig(cfg, accepted);
        if !accepted {
          modal := ProviderForm(f, None, Failed);
          return;
        }
      }
      modal := LoginForm(f, loginStarts);
    }

    /** The login ends: done, with what the daemon then holds if that arrives, or failed and to be retried. */
    method FinishLogin(login: Login)
      requires Valid() && modal.ProviderForm? && modal.phase == AwaitingLogin
      modifies `config, `modal, `trusted
      ensures Valid()
      ensures match login
              case LoggedIn(fetched) =>
                && config == fetched && modal == Closed
                && trusted == (old(trusted) && (fetched.Some? ==> ReferentiallySound(fetched.value)))
              case LoginFailed =>
                config == old(config) && modal == old(modal).(phase := Failed) && trusted == old(trusted)
    {
      match login {
        case LoggedIn(fetched) =>
          modal := Closed;
          if fetched.Some? {
            Load(fetched.value);
          } else {
            LoadFails();
          }
        case LoginFailed =>
          modal := modal.(phase := Failed);
      }
    }

    /** Consent to dropping rules is what lets the pending save through. */
    method DisableConfirmKey(key: Key, accepted: bool, loginStarts: bool)
      requires Valid() && modal.DisableConfirm?
      modifies this
      ensures Valid()
      ensures key != Yes ==> sent == old(sent) && config == old(config) && trusted == old(trusted)
      ensures key == No ==> modal == ProviderForm(old(modal).pending, None, Editing)
      ensures key == Other ==> modal == old(modal)
      ensures key == Yes ==> Saved(old(modal).pending.(disableRulesConfirmed := true), accepted, loginStarts)
    {
      match key {
        case No =>
          modal := ProviderForm(modal.pending, None, Editing);
        case Yes =>
          modal := ProviderForm(modal.pending.(disableRulesConfirmed := true), None, Editing);
          SubmitProviderForm(accepted, loginStarts);
        case Other =>
      }
    }

    /** Deletion goes through only while no rule names the provider. */
    method DeleteKey(key: Key, accepted: bool)
      requires Valid() && modal.DeleteConfirm?
      modifies `config, `modal, `sent
      ensures Valid()
      ensures if key == Yes && old(modal).blocking == [] && old(config).Some?
                 && old(modal).index < |old(config).value.providers|
              then
                var c := Deleted(old(config).value, old(modal).index);
                sent == old(sent) + [c] && config == if accepted then Some(c) else old(config)
              else
                sent == old(sent) && config == old(config)
      ensures modal == if key == No || (key == Yes && old(modal).blocking == []) then Closed else old(modal)
    {
      if key == No {
        modal := Closed;
        return;
      }
      if key == Yes && modal.blocking == [] {
        var i := modal.index;
        modal := Closed;
        if config.None? || i >= |config.value.providers| {
          return;
        }
        var cfg := config.value;
        if trusted {
          DeleteIsSoundIff(cfg, i);
        }
        cfg := cfg.(providers := cfg.providers[..i] + cfg.providers[i + 1..]);
        PutConfig(cfg, accepted);
      }
    }
  }

  // ---- What the daemon makes of it ----

  /** The rule string a form saves parses in the daemon exactly when its globs compile. */
  ghost predicate GlobsCompile(f: Form, compiles: string -> bool) {
    var segments := ModelFormats.Segments(f.modelFormats);
    forall i | 0 <= i < |segments| && ModelFormats.RuleOf(segments[i]).Some? ::
      compiles(ModelFormats.RuleOf(segments[i]).value.0)
  }

  lemma SavedFormatsParse(cfg: Config, f: Form, auth: Auth, compiles: string -> bool)
    requires ValidateForm(f, auth, cfg).Ok?
    ensures FormatsParse(ValidateForm(f, auth, cfg).value, compiles) <==> GlobsCompile(f, compiles)
  {
    SavedRulesParse(f.modelFormats, compiles);
  }

  ghost predicate AllGood(text: string, compiles: string -> bool) {
    var segments := ModelFormats.Segments(text);
    forall i | 0 <= i < |segments| :: ModelFormats.GoodSegment(segments[i], compiles)
  }

  lemma SavedRulesParse(text: string, compiles: string -> bool)
    requires var saved := NonBlankOption(Some(text));
             saved.Some? ==> ModelFormats.CheckModelFormats(saved.value).None?
    ensures var segments, saved := ModelFormats.Segments(text), NonBlankOption(Some(text));
            (saved.Some? ==> AllGood(saved.value, compiles)) <==>
            forall i | 0 <= i < |segments| && ModelFormats.RuleOf(segments[i]).Some? ::
              compiles(ModelFormats.RuleOf(segments[i]).value.0)
  {
    ModelFormats.TrimmingKeepsSegments(text);
    var saved := NonBlankOption(Some(text));
    if saved.Some? {
      ModelFormats.FormAndDaemonAgree(saved.value, compiles);
    } else {
      assert ModelFormats.Segments([]) == [];
    }
  }

  /** Some rule is left once the rules given up in the form are gone. */
  ghost predicate SomeRuleStays(cfg: Config, f: Form) {
    exists i | 0 <= i < |cfg.routing| :: RuleStays(cfg.routing[i], f)
  }

  predicate RuleStays(r: Rule, f: Form) {
    !(f.disableRulesConfirmed && References(r, DisableTarget(f)))
  }

  /** The daemon accepts what a form sends exactly when some rule stays and the form's globs compile. */
  lemma DaemonAcceptsIff(cfg: Config, f: Form, compiles: string -> bool)
    requires ReferentiallySound(cfg) && AllFormatsParse(cfg.providers, compiles)
    requires Fresh(cfg, f) && Submission(cfg, f).Send?
    ensures ValidConfig(Submission(cfg, f).cfg, compiles) <==> SomeRuleStays(cfg, f) && GlobsCompile(f, compiles)
  {
    var c := Submission(cfg, f).cfg;
    var p := SentProvider(cfg, f, c, compiles);
    FormatsAfterEdit(cfg.providers, f.mode, p, compiles);
    AcceptedIff(c, compiles);
    RoutingLeftIff(cfg, f, c);
  }

  lemma RoutingLeftIff(cfg: Config, f: Form, c: Config)
    requires c.routing == WithoutConfirmedRules(cfg, f).routing
    ensures c.routing != [] <==> SomeRuleStays(cfg, f)
  {
    if f.disableRulesConfirmed {
      NothingRetainedIff(cfg.routing, DisableTarget(f));
    } else {
      assert cfg.routing != [] ==> RuleStays(cfg.routing[0], f);
    }
  }

  /** A provider that every rule names can never be disabled from the form: the daemon refuses what is sent. */
  lemma OnlyRoutedProviderStays(cfg: Config, f: Form, compiles: string -> bool)
    requires ValidConfig(cfg, compiles) && Fresh(cfg, f) && f.providerMode == Disabled
    requires forall i | 0 <= i < |cfg.routing| :: References(cfg.routing[i], DisableTarget(f))
    ensures match Submission(cfg, f)
            case AskFirst(_, _) => !f.disableRulesConfirmed
            case Send(c) => f.disableRulesConfirmed && !ValidConfig(c, compiles)
            case _ => f.disableRulesConfirmed
  {
    assert References(cfg.routing[0], DisableTarget(f));
    if Submission(cfg, f).Send? {
      DaemonAcceptsIff(cfg, f, compiles);
    }
  }

  lemma SentProvider(cfg: Config, f: Form, c: Config, compiles: string -> bool) returns (p: Provider)
    requires ReferentiallySound(cfg) && Fresh(cfg, f) && Submission(cfg, f) == Send(c)
    ensures f.mode.Edit? ==> f.mode.originalIndex < |cfg.providers|
    ensures c.providers == PlaceProvider(cfg.providers, f.mode, p)
    ensures c.routing == WithoutConfirmedRules(cfg, f).routing
    ensures FormatsParse(p, compiles) <==> GlobsCompile(f, compiles)
    ensures ReferentiallySound(c)
  {
    SubmissionsAreSound(cfg, f);
    p := BuiltProvider(f, FormAuth(cfg, f));
    assert ValidateForm(f, FormAuth(cfg, f), WithoutConfirmedRules(cfg, f)) == Ok(p);
    SavedFormatsParse(WithoutConfirmedRules(cfg, f), f, FormAuth(cfg, f), compiles);
  }

  lemma AcceptedIff(c: Config, compiles: string -> bool)
    requires ReferentiallySound(c) && c.providers != []
    ensures ValidConfig(c, compiles) <==> c.routing != [] && AllFormatsParse(c.providers, compiles)
  {
  }

  function PlaceProvider(ps: seq<Provider>, mode: FormMode, p: Provider): seq<Provider>
    requires mode.Edit? ==> mode.originalIndex < |ps|
  {
    if mode.Add? then ps + [p] else ps[mode.originalIndex := p]
  }

  lemma FormatsAfterEdit(ps: seq<Provider>, mode: FormMode, p: Provider, compiles: string -> bool)
    requires mode.Edit? ==> mode.originalIndex < |ps|
    requires AllFormatsParse(ps, compiles)
    ensures AllFormatsParse(PlaceProvider(ps, mode, p), compiles) <==> FormatsParse(p, compiles)
  {
    var qs := PlaceProvider(ps, mode, p);
    assert qs[if mode.Add? then |ps| else mode.originalIndex] == p;
  }

  /** A deletion the dialog lets through is always accepted. */
  lemma DaemonAcceptsDeletion(cfg: Config, i: nat, compiles: string -> bool)
    requires ValidConfig(cfg, compiles) && i < |cfg.providers|
    requires Unreferenced(cfg.routing, cfg.providers[i].name)
    ensures ValidConfig(Deleted(cfg, i), compiles)
  {
    DeleteIsSoundIff(cfg, i);
    var c := Deleted(cfg, i);
    assert RuleSound(c.providers, c.routing[0]);
    assert c.routing[0].provider in c.routing[0].Chain();
    assert Usable(c.providers, c.routing[0].provider);
    assert forall k | 0 <= k < |c.providers| :: c.providers[k] == cfg.providers[if k < i then k else k + 1];
  }

  /**
   Consent given once is still in force after the save it was given for was refused by the form itself:
   this session ends with the provider enabled again, as it was, and its rules gone.
   */
  method ConsentRun(cfg: Config, i: nat, f: Form) returns (after: Option<Config>)
    requires i < |cfg.providers| && ReferentiallySound(cfg) && !Unreferenced(cfg.routing, cfg.providers[i].name)
    requires f.mode == Edit(i, cfg.providers[i].name) && !f.disableRulesConfirmed && !f.authKind.OAuth()
    requires f.providerMode == Enabled && EditedConfig(cfg, f, FormAuth(cfg, f)) == Ok(cfg)
    requires SomeRuleStays(cfg, f.(disableRulesConfirmed := true)) // or the daemon would refuse the last save
    ensures after == Some(cfg.(routing := Retained(cfg.routing, cfg.providers[i].name)))
    ensures |after.value.routing| < |cfg.routing|
  {
    ConsentOutlivesDisabling(cfg, f, i);
    var session := new Session();
    session.Load(cfg);
    session.OpenEdit(i);
    session.Type(f.(providerMode := Disabled, name := ""));
    session.SubmitProviderForm(true, true);
    session.DisableConfirmKey(Yes, true, true);
    session.Type(f.(disableRulesConfirmed := true));
    session.SubmitProviderForm(true, true);
    after := session.config;
  }

  /** Opening a clean provider and saving it as it opens changes nothing, the login of the Codex command line aside. */
  method UntouchedRun(cfg: Config, i: nat, accepted: bool) returns (last: Config)
    requires ReferentiallySound(cfg) && i < |cfg.providers| && Clean(cfg.providers[i])
    ensures last == cfg <==> !cfg.providers[i].auth.CodexAuto? || !accepted
  {
    UntouchedStep(cfg, i);
    var session := new Session();
    session.Load(cfg);
    session.OpenEdit(i);
    session.SubmitProviderForm(accepted, false);
    last := session.config.value;
  }

  lemma UntouchedStep(cfg: Config, i: nat)
    requires ReferentiallySound(cfg) && i < |cfg.providers| && Clean(cfg.providers[i])
    ensures match Submission(cfg, FilledForm(i, cfg.providers[i]))
            case Send(c) => c == cfg <==> cfg.providers[i].auth != CodexAuto
            case NothingToSend => cfg.providers[i].auth != CodexAuto
            case _ => false
  {
    UntouchedSaveIff(cfg, i);
    DisabledIsUnreferenced(cfg, i);
  }

  lemma DisabledIsUnreferenced(cfg: Config, i: nat)
    requires ReferentiallySound(cfg) && i < |cfg.providers|
    ensures cfg.providers[i].mode == Disabled ==> RulesReferencing(cfg.routing, cfg.providers[i].name) == []
  {
    var name := cfg.providers[i].name;
    if k :| 0 <= k < |cfg.routing| && References(cfg.routing[k], name) {
      RuleChain(cfg.routing[k], name);
      assert RuleSound(cfg.providers, cfg.routing[k]) && Usable(cfg.providers, name);
    }
  }
}
