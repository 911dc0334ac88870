/** Per-provider thinking levels: the levels on offer, the patch each one makes, and its injection. */
module Thinking {
  import opened Json
  import opened MergePatch

  datatype ProviderKind = Anthropic | Zai | DeepSeek | OpenAi | Codex | Minimax | Kimi | OpencodeGo

  datatype ThinkingLevel = Unset | Off | Minimal | Low | Medium | High | XHigh | Max | Adaptive {
    function AsString(): string {
      match this
      case Unset => "unset"
      case Off => "off"
      case Minimal => "minimal"
      case Low => "low"
      case Medium => "medium"
      case High => "high"
      case XHigh => "xhigh"
      case Max => "max"
      case Adaptive => "adaptive"
    }
  }

  function Levels(kind: ProviderKind): seq<ThinkingLevel> {
    match kind
    case Anthropic => [Off, Low, Medium, High, XHigh, Max]
    case Codex | OpenAi => [Off, Minimal, Low, Medium, High, XHigh]
    case Zai => [Off, High, Max]
    case DeepSeek => [High, Max]
    case Kimi => [Low, High, Max]
    case Minimax => [Off, Adaptive]
    case OpencodeGo => []
  }

  datatype ThinkingPatch = ThinkingPatch(anthropic: Option<Json>, openai: Option<Json>) {
    /** `patch` is what one of the two wire formats gets. */
    predicate Offers(patch: Json) {
      anthropic == Some(patch) || openai == Some(patch)
    }
  }

  function Both(v: Json): ThinkingPatch {
    ThinkingPatch(Some(v), Some(v))
  }

  function AnthropicOnly(v: Json): ThinkingPatch {
    ThinkingPatch(Some(v), None)
  }

  function OpenAiOnly(v: Json): ThinkingPatch {
    ThinkingPatch(None, Some(v))
  }

  /** Turns thinking off and deletes any budget the client sent along. */
  function DisabledPatch(): Json {
    Object(map["thinking" := Object(map["type" := String("disabled"), "budget_tokens" := Null])])
  }

  function EffortPatch(effort: string): Json {
    Object(map["reasoning_effort" := String(effort)])
  }

  function PatchFor(kind: ProviderKind, level: ThinkingLevel): Option<ThinkingPatch> {
    if level !in Levels(kind) then None
    else
      var effort := level.AsString();
      match (kind, level)
      case (Anthropic, Off) => Some(AnthropicOnly(DisabledPatch()))
      case (Anthropic, _) =>
        Some(AnthropicOnly(Object(map["output_config" := Object(map["effort" := String(effort)])])))
      case (Codex, Off) => Some(OpenAiOnly(EffortPatch("none")))
      case (OpenAi, Off) => Some(OpenAiOnly(EffortPatch("none")))
      case (Codex, _) => Some(OpenAiOnly(EffortPatch(effort)))
      case (OpenAi, _) => Some(OpenAiOnly(EffortPatch(effort)))
      case (DeepSeek, _) => Some(OpenAiOnly(EffortPatch(effort)))
      case (Zai, Off) => Some(Both(DisabledPatch()))
      case (Kimi, _) => Some(Both(Object(map["reasoning_effort" := String(effort), "thinking" := Null])))
      case (Zai, _) => Some(Both(EffortPatch(effort)))
      case (Minimax, Off) => Some(Both(DisabledPatch()))
      case (Minimax, _) => Some(Both(Object(map["thinking" := Object(map["type" := String("adaptive")])])))
      case (OpencodeGo, _) => None
  }

  /** A request body: text that is not JSON, or its parsed value. */
  datatype Body = Opaque(text: string) | Parsed(value: Json)

  datatype ThinkingInjection = ThinkingInjection(patch: Json, force: bool) {
    function Apply(body: Body): Body {
      if body.Opaque? then body
      else if force then Parsed(Merged(body.value, patch))
      else match Pruned(patch, body.value)
           case None => body
           case Some(effective) => Parsed(Merged(body.value, effective))
    }
  }

  function Inject(patch: Json, force: bool, value: Json): Json {
    ThinkingInjection(patch, force).Apply(Parsed(value)).value
  }

  /** Every level on offer has a patch, always an object, and no other level has one. */
  lemma OfferedLevelsHavePatches(kind: ProviderKind, level: ThinkingLevel)
    ensures PatchFor(kind, level).Some? <==> level in Levels(kind)
    ensures match PatchFor(kind, level)
            case None => true
            case Some(p) =>
              && (p.anthropic.Some? || p.openai.Some?)
              && (p.anthropic.Some? ==> p.anthropic.value.Object?)
              && (p.openai.Some? ==> p.openai.value.Object?)
  {
  }

  /** Applying a provider's level once more, forced or not, changes nothing. */
  lemma InjectionIsIdempotent(patch: Json, force: bool, value: Json)
    requires patch.Object?
    ensures Inject(patch, force, Inject(patch, force, value)) == Inject(patch, force, value)
  {
    if force {
      MergeIsIdempotent(value, patch);
    } else if value.Object? {
      assert Inject(patch, false, value) == Filled(value, patch);
      FilledField(value, patch, "");
      FillIsIdempotent(value, patch);
    } else {
      FillAfterMerge(value, patch);
    }
  }

  /** A forced level wins over an earlier default of the same level, as if that had never run. */
  lemma ForceAfterDefault(patch: Json, value: Json)
    requires patch.Object?
    ensures Inject(patch, true, Inject(patch, false, value)) == Inject(patch, true, value)
  {
    if value.Object? {
      ForceOverridesFill(value, patch);
    } else {
      MergeIsIdempotent(value, patch);
    }
  }

  /** For every level of every kind and both wire formats: once is enough, and force has the last word. */
  lemma LevelsInjectOnce(kind: ProviderKind, level: ThinkingLevel, patch: Json, force: bool, value: Json)
    requires PatchFor(kind, level).Some? && PatchFor(kind, level).value.Offers(patch)
    ensures Inject(patch, force, Inject(patch, force, value)) == Inject(patch, force, value)
    ensures Inject(patch, true, Inject(patch, false, value)) == Inject(patch, true, value)
  {
    OfferedLevelsHavePatches(kind, level);
    InjectionIsIdempotent(patch, force, value);
    ForceAfterDefault(patch, value);
  }

  predicate NoThinkingKey(value: Json) {
    value.Object? ==> "thinking" !in value.fields
  }

  /** Thinking is off in the form the upstream accepts: disabled, and without a budget. */
  predicate CleanlyDisabled(value: Json) {
    && Lookup(value, ["thinking", "type"]) == Some(String("disabled"))
    && Lookup(value, ["thinking", "budget_tokens"]).None?
  }

  /**
   A Kimi level removes `thinking` from every body when forced; as a default it does so exactly
   when the client sent none, because pruning drops the deleting null with the key.
   */
  lemma KimiLeavesNoThinking(level: ThinkingLevel, value: Json, force: bool)
    requires level in Levels(Kimi)
    ensures forall patch | PatchFor(Kimi, level).value.Offers(patch) ::
              NoThinkingKey(Inject(patch, force, value)) <==> force || NoThinkingKey(value)
  {
    var patch := Object(map["reasoning_effort" := String(level.AsString()), "thinking" := Null]);
    assert PatchFor(Kimi, level) == Some(Both(patch));
    if force || !value.Object? {
      MergedField(value, patch, "thinking");
    } else {
      FilledField(value, patch, "thinking");
    }
  }

  /** What the client sent does not stand in the way of disabling thinking by default. */
  predicate OpenToDisabling(value: Json) {
    NoThinkingKey(value)
    || (value.Object? &&
        var t := value.fields["thinking"];
        && t.Object?
        && "budget_tokens" !in t.fields
        && ("type" in t.fields ==> t.fields["type"] == String("disabled")))
  }

  /**
   `Off` spelled as `thinking.type` yields a cleanly disabled body for every body when forced; as a
   default exactly when the client's own `thinking` leaves room for it. Three kinds spell it so.
   */
  lemma OffDisablesCleanly(kind: ProviderKind, value: Json, force: bool)
    requires kind == Anthropic || kind == Zai || kind == Minimax
    ensures PatchFor(kind, Off).Some?
    ensures forall patch | PatchFor(kind, Off).value.Offers(patch) ::
              CleanlyDisabled(Inject(patch, force, value)) <==> force || OpenToDisabling(value)
  {
    DisabledPatchDisables(value, force);
  }

  lemma DisabledPatchDisables(value: Json, force: bool)
    ensures CleanlyDisabled(Inject(DisabledPatch(), force, value)) <==> force || OpenToDisabling(value)
  {
    LookupKeyPair(Inject(DisabledPatch(), force, value), "thinking", "type");
    LookupKeyPair(Inject(DisabledPatch(), force, value), "thinking", "budget_tokens");
    if force || !value.Object? {
      MergingDisables(value);
    } else {
      FillingDisables(value);
    }
  }

  lemma LookupKeyPair(j: Json, outer: string, inner: string)
    ensures Lookup(j, [outer, inner])
            == if j.Object? && outer in j.fields && j.fields[outer].Object? && inner in j.fields[outer].fields
               then Some(j.fields[outer].fields[inner]) else None
  {
    assert [outer, inner][1..] == [inner] && [inner][1..] == [];
    if j.Object? && outer in j.fields {
      var m := j.fields[outer];
      assert Lookup(m, [inner]) == if m.Object? && inner in m.fields then Lookup(m.fields[inner], []) else None;
    }
  }

  predicate DisabledShape(value: Json) {
    && value.Object? && "thinking" in value.fields
    && var t := value.fields["thinking"];
       t.Object? && "budget_tokens" !in t.fields && "type" in t.fields && t.fields["type"] == String("disabled")
  }

  lemma MergingDisables(value: Json)
    ensures DisabledShape(Merged(value, DisabledPatch()))
  {
    var patch := DisabledPatch();
    var held := if value.Object? && "thinking" in value.fields then value.fields["thinking"] else Null;
    MergedField(value, patch, "thinking");
    MergedField(held, patch.fields["thinking"], "type");
    MergedField(held, patch.fields["thinking"], "budget_tokens");
  }

  lemma FillingDisables(value: Json)
    requires value.Object?
    ensures DisabledShape(Filled(value, DisabledPatch())) <==> OpenToDisabling(value)
  {
    var patch := DisabledPatch();
    var inner := patch.fields["thinking"];
    FilledField(value, patch, "thinking");
    if "thinking" !in value.fields {
      MergedField(Null, inner, "type");
      MergedField(Null, inner, "budget_tokens");
    } else if value.fields["thinking"].Object? {
      FilledField(value.fields["thinking"], inner, "type");
      FilledField(value.fields["thinking"], inner, "budget_tokens");
    }
  }

  /** A client's thinking object, as the messages format spells it. */
  function ClientThinking(): Json {
    Object(map["type" := String("enabled"), "budget_tokens" := Number(1024)])
  }

  /** As a default, a Kimi level leaves such an object next to the effort it adds. */
  lemma KimiDefaultKeepsThinking(level: ThinkingLevel)
    requires level in Levels(Kimi)
    ensures var body := Object(map["thinking" := ClientThinking()]);
            var result := Inject(PatchFor(Kimi, level).value.openai.value, false, body);
            && result.Object? && "thinking" in result.fields && result.fields["thinking"] == ClientThinking()
            && "reasoning_effort" in result.fields
  {
    var body := Object(map["thinking" := ClientThinking()]);
    var patch := PatchFor(Kimi, level).value.openai.value;
    FilledField(body, patch, "thinking");
    FilledField(body, patch, "reasoning_effort");
  }

  /** And an `Off` default leaves thinking enabled, budget and all. */
  lemma OffDefaultKeepsBudget()
    ensures var result := Inject(DisabledPatch(), false, Object(map["thinking" := ClientThinking()]));
            && Lookup(result, ["thinking", "type"]) == Some(String("enabled"))
            && Lookup(result, ["thinking", "budget_tokens"]) == Some(Number(1024))
  {
    var body := Object(map["thinking" := ClientThinking()]);
    FilledField(body, DisabledPatch(), "thinking");
    FilledField(ClientThinking(), DisabledPatch().fields["thinking"], "type");
    FilledField(ClientThinking(), DisabledPatch().fields["thinking"], "budget_tokens");
    LookupKeyPair(Inject(DisabledPatch(), false, body), "thinking", "type");
    LookupKeyPair(Inject(DisabledPatch(), false, body), "thinking", "budget_tokens");
  }

  lemma LookupKey(j: Json, key: string)
    ensures Lookup(j, [key]) == if j.Object? && key in j.fields then Some(j.fields[key]) else None
  {
    assert [key][1..] == [];
  }

  /** The levels as the upstreams spell them. */
  lemma LevelNames()
    ensures Minimal.AsString() == "minimal" && Low.AsString() == "low" && Medium.AsString() == "medium"
    ensures High.AsString() == "high" && XHigh.AsString() == "xhigh" && Max.AsString() == "max"
  {
  }

  /** Level by level, who offers it. */
  lemma WhoOffers(kind: ProviderKind)
    ensures Off in Levels(kind) <==> kind in {Anthropic, Codex, OpenAi, Zai, Minimax}
    ensures Minimal in Levels(kind) <==> kind in {Codex, OpenAi}
    ensures Low in Levels(kind) <==> kind in {Anthropic, Codex, OpenAi, Kimi}
    ensures Medium in Levels(kind) <==> kind in {Anthropic, Codex, OpenAi}
    ensures High in Levels(kind) <==> kind in {Anthropic, Codex, OpenAi, Zai, DeepSeek, Kimi}
    ensures XHigh in Levels(kind) <==> kind in {Anthropic, Codex, OpenAi}
    ensures Max in Levels(kind) <==> kind in {Anthropic, Zai, DeepSeek, Kimi}
    ensures Adaptive in Levels(kind) <==> kind == Minimax
    ensures Unset !in Levels(kind)
  {
  }

  /** Which wire formats a kind's levels reach. */
  lemma WireFormatsReached(kind: ProviderKind, level: ThinkingLevel)
    requires level in Levels(kind)
    ensures var p := PatchFor(kind, level).value;
            && (p.anthropic.Some? <==> kind in {Anthropic, Zai, Minimax, Kimi})
            && (p.openai.Some? <==> kind != Anthropic)
  {
  }

  /** A forced level puts its effort where the kind's upstream looks for it, whatever the client sent. */
  lemma ForcedLevelShows(kind: ProviderKind, level: ThinkingLevel, patch: Json, value: Json)
    requires level in Levels(kind) && PatchFor(kind, level).value.Offers(patch)
    ensures var out, effort := Inject(patch, true, value), level.AsString();
            && (kind == Anthropic && level != Off ==> Lookup(out, ["output_config", "effort"]) == Some(String(effort)))
            && (kind in {OpenAi, Codex} ==>
                  Lookup(out, ["reasoning_effort"]) == Some(String(if level == Off then "none" else effort)))
            && (kind in {DeepSeek, Kimi} || (kind == Zai && level != Off) ==>
                  Lookup(out, ["reasoning_effort"]) == Some(String(effort)))
            && (kind == Minimax && level != Off ==> Lookup(out, ["thinking", "type"]) == Some(String("adaptive")))
            && (kind in {Anthropic, Zai, Minimax} && level == Off ==> CleanlyDisabled(out))
  {
    if kind in {Anthropic, Zai, Minimax} && level == Off {
      OffDisablesCleanly(kind, value, true);
    } else if kind == Anthropic {
      PairShows(value, patch, "output_config", "effort", String(level.AsString()));
    } else if kind == Minimax {
      PairShows(value, patch, "thinking", "type", String("adaptive"));
    } else {
      EffortShows(value, patch);
    }
  }

  lemma EffortShows(value: Json, patch: Json)
    requires patch.Object? && "reasoning_effort" in patch.fields && patch.fields["reasoning_effort"].String?
    ensures Lookup(Inject(patch, true, value), ["reasoning_effort"]) == Some(patch.fields["reasoning_effort"])
  {
    LookupKey(Inject(patch, true, value), "reasoning_effort");
    MergedField(value, patch, "reasoning_effort");
  }

  lemma PairShows(value: Json, patch: Json, outer: string, inner: string, leaf: Json)
    requires patch == Object(map[outer := Object(map[inner := leaf])]) && leaf.String?
    ensures Lookup(Inject(patch, true, value), [outer, inner]) == Some(leaf)
  {
    MergedPair(value, patch, outer, inner, leaf);
    LookupKeyPair(Inject(patch, true, value), outer, inner);
  }

  lemma MergedPair(value: Json, patch: Json, outer: string, inner: string, leaf: Json)
    requires patch == Object(map[outer := Object(map[inner := leaf])]) && leaf.String?
    ensures var out := Merged(value, patch);
            && out.Object? && outer in out.fields && out.fields[outer].Object?
            && inner in out.fields[outer].fields && out.fields[outer].fields[inner] == leaf
  {
    var held := if value.Object? && outer in value.fields then value.fields[outer] else Null;
    MergedField(value, patch, outer);
    MergedField(held, patch.fields[outer], inner);
  }

  /** Text that is no JSON passes as it is; where there is nothing to keep, a default acts as if forced. */
  lemma NothingToKeep(patch: Json, force: bool, text: string, value: Json)
    requires !value.Object?
    ensures ThinkingInjection(patch, force).Apply(Opaque(text)) == Opaque(text)
    ensures Inject(patch, false, value) == Merged(value, patch) == Inject(patch, true, value)
  {
  }
}
