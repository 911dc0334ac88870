/**
 Buffering a streamed Codex reply into one completion: interleaved tool-call deltas are folded into
 a growing vector of slots and a map of argument text, and merged at the end in any map order.
 */
module CodexAggregate {
  import opened Json

  datatype ToolDelta = ToolDelta(
    index: Option<nat>, id: Option<string>, name: Option<string>, arguments: Option<string>)
  {
    /** A delta without a usable index belongs to the first call. */
    function Slot(): nat {
      if index.Some? then index.value else 0
    }

    function Field(f: Part): Option<string> {
      match f
      case Id => id
      case Name => name
      case Arguments => arguments
    }
  }

  datatype Part = Id | Name | Arguments

  datatype ToolCall = ToolCall(index: nat, id: string, name: string, arguments: string)

  /** One parsed `data:` line of the stream. */
  datatype Event = Event(
    content: Option<string>, deltas: seq<ToolDelta>, finishReason: Option<string>, usage: Option<Json>)

  datatype Completion = Completion(
    model: string, content: Option<string>, toolCalls: seq<ToolCall>, finishReason: string, usage: Option<Json>)

  // ---- What the stream means ----

  function Present(o: Option<string>): seq<string> {
    if o.Some? then [o.value] else []
  }

  function Concat(parts: seq<string>): string {
    if parts == [] then "" else Concat(parts[..|parts| - 1]) + parts[|parts| - 1]
  }

  function LastOr(parts: seq<string>, fallback: string): string {
    if parts == [] then fallback else parts[|parts| - 1]
  }

  /** The deltas of call `i`, in order. */
  function ForSlot(ds: seq<ToolDelta>, i: nat): seq<ToolDelta> {
    if ds == [] then []
    else ForSlot(ds[..|ds| - 1], i) + if ds[|ds| - 1].Slot() == i then [ds[|ds| - 1]] else []
  }

  /** The values of one field, in order, over the deltas that carry it. */
  function Values(ds: seq<ToolDelta>, f: Part): seq<string> {
    if ds == [] then [] else Values(ds[..|ds| - 1], f) + Present(ds[|ds| - 1].Field(f))
  }

  /** Call `i`: the last id and name it was given, and all its argument text in order. */
  function CallAt(ds: seq<ToolDelta>, i: nat): ToolCall {
    var mine := ForSlot(ds, i);
    ToolCall(i, LastOr(Values(mine, Id), ""), LastOr(Values(mine, Name), ""), Concat(Values(mine, Arguments)))
  }

  function SlotCount(ds: seq<ToolDelta>): nat {
    if ds == [] then 0
    else
      var before, needed := SlotCount(ds[..|ds| - 1]), ds[|ds| - 1].Slot() + 1;
      if before < needed then needed else before
  }

  /** One call per slot up to the highest index mentioned. */
  function ToolCalls(ds: seq<ToolDelta>): seq<ToolCall> {
    seq(SlotCount(ds), i requires 0 <= i => CallAt(ds, i))
  }

  function Deltas(events: seq<Event>): seq<ToolDelta> {
    if events == [] then [] else Deltas(events[..|events| - 1]) + events[|events| - 1].deltas
  }

  function Text(events: seq<Event>): string {
    if events == [] then ""
    else Text(events[..|events| - 1]) + Concat(Present(events[|events| - 1].content))
  }

  function FinishReason(events: seq<Event>): string {
    if events == [] then "stop"
    else LastOr(Present(events[|events| - 1].finishReason), FinishReason(events[..|events| - 1]))
  }

  function Usage(events: seq<Event>): Option<Json> {
    if events == [] then None
    else if events[|events| - 1].usage.Some? then events[|events| - 1].usage
    else Usage(events[..|events| - 1])
  }

  /** The model name without its namespace: what follows the first slash, if there is one. */
  function WithoutNamespace(model: string): string {
    if '/' in model then AfterSlash(model) else model
  }

  function AfterSlash(model: string): string
    requires '/' in model
  {
    if model[0] == '/' then model[1..] else AfterSlash(model[1..])
  }

  function Buffered(model: string, events: seq<Event>): Completion {
    Completion(
      WithoutNamespace(model),
      if Text(events) == "" then None else Some(Text(events)),
      ToolCalls(Deltas(events)), FinishReason(events), Usage(events))
  }

  /** Every slot sits at its own index and holds its call, arguments aside. */
  ghost predicate SlotsFollow(calls: seq<ToolCall>, ds: seq<ToolDelta>) {
    forall i | 0 <= i < |calls| :: calls[i] == CallAt(ds, i).(arguments := "")
  }

  /** The map holds the arguments of every call, none standing for the empty text. */
  ghost predicate ArgumentsFollow(args: map<nat, string>, ds: seq<ToolDelta>) {
    forall i: nat :: ArgumentsSoFar(args, i) == CallAt(ds, i).arguments
  }

  // ---- The aggregation loop ----

  class Aggregator {
    const model: string
    var content: string
    var toolCalls: seq<ToolCall>
    var args: map<nat, string>
    var finishReason: string
    var usage: Option<Json>
    ghost var deltas: seq<ToolDelta>

    /** Slots sit at their own index; arguments wait in the map, never beyond the last slot. */
    ghost predicate Valid()
      reads this
    {
      && |toolCalls| == SlotCount(deltas) && SlotsFollow(toolCalls, deltas)
      && (forall k | k in args :: k < |toolCalls|)
      && ArgumentsFollow(args, deltas)
    }

    constructor (model: string)
      ensures Valid() && deltas == [] && this.model == model
      ensures content == "" && finishReason == "stop" && usage == None
    {
      this.model := model;
      content, toolCalls, args, finishReason, usage := "", [], map[], "stop", None;
      deltas := [];
    }

    /** Grow the vector with blank slots until `idx` exists. */
    method EnsureSlot(idx: nat)
      modifies `toolCalls
      ensures |toolCalls| == if |old(toolCalls)| <= idx then idx + 1 else |old(toolCalls)|
      ensures old(toolCalls) <= toolCalls
      ensures forall i | |old(toolCalls)| <= i < |toolCalls| :: toolCalls[i] == ToolCall(i, "", "", "")
    {
      while |toolCalls| <= idx
        invariant |old(toolCalls)| <= |toolCalls| && (|toolCalls| <= idx + 1 || toolCalls == old(toolCalls))
        invariant old(toolCalls) <= toolCalls
        invariant forall i | |old(toolCalls)| <= i < |toolCalls| :: toolCalls[i] == ToolCall(i, "", "", "")
      {
        toolCalls := toolCalls + [ToolCall(|toolCalls|, "", "", "")];
      }
    }

    method FillSlot(idx: nat, tc: ToolDelta)
      requires idx < |toolCalls|
      modifies `toolCalls
      ensures toolCalls == old(toolCalls)[idx := Updated(old(toolCalls)[idx], tc.(arguments := None))]
    {
      if tc.id.Some? {
        toolCalls := toolCalls[idx := toolCalls[idx].(id := tc.id.value)];
      }
      if tc.name.Some? {
        toolCalls := toolCalls[idx := toolCalls[idx].(name := tc.name.value)];
      }
    }

    method AbsorbDelta(tc: ToolDelta)
      requires Valid()
      modifies `toolCalls, `args, `deltas
      ensures Valid() && deltas == old(deltas) + [tc]
    {
      var idx := tc.Slot();
      EnsureSlot(idx);
      ghost var grown := toolCalls;
      GrownSlotsFollow(old(toolCalls), grown, deltas);
      FillSlot(idx, tc);
      if tc.arguments.Some? {
        var entry := if idx in args then args[idx] else "";
        args := args[idx := entry + tc.arguments.value];
      }
      SlotsAfterDelta(deltas, tc, grown, toolCalls);
      ArgumentsAfterDelta(deltas, tc, old(args), args);
      deltas := deltas + [tc];
    }

    method AbsorbEvent(e: Event)
      requires Valid()
      modifies this
      ensures Valid() && deltas == old(deltas) + e.deltas
      ensures content == old(content) + Concat(Present(e.content))
      ensures finishReason == LastOr(Present(e.finishReason), old(finishReason))
      ensures usage == if e.usage.Some? then e.usage else old(usage)
    {
      if e.content.Some? {
        content := content + e.content.value;
      }
      for i := 0 to |e.deltas|
        invariant Valid() && deltas == old(deltas) + e.deltas[..i]
        invariant content == old(content) + Concat(Present(e.content))
        invariant finishReason == old(finishReason) && usage == old(usage)
      {
        AbsorbDelta(e.deltas[i]);
        assert e.deltas[..i + 1] == e.deltas[..i] + [e.deltas[i]];
      }
      assert e.deltas[..|e.deltas|] == e.deltas;
      if e.finishReason.Some? {
        finishReason := e.finishReason.value;
      }
      if e.usage.Some? {
        usage := e.usage;
      }
    }

    /** Put the accumulated arguments into their slots, visiting the map in any order. */
    method Finish() returns (c: Completion)
      requires Valid()
      ensures c == Completion(WithoutNamespace(model), if content == "" then None else Some(content),
                              ToolCalls(deltas), finishReason, usage)
    {
      var calls := toolCalls;
      var pending := args.Keys;
      while pending != {}
        invariant pending <= args.Keys && PutBack(toolCalls, args, pending, calls)
        decreases |pending|
      {
        var idx :| idx in pending;
        PutOneBack(toolCalls, args, pending, calls, idx);
        pending := pending - {idx};
        if idx < |calls| {
          calls := calls[idx := calls[idx].(arguments := args[idx])];
        }
      }
      AllBack(toolCalls, args, calls, deltas);
      c := Completion(WithoutNamespace(model), if content == "" then None else Some(content),
                      calls, finishReason, usage);
    }
  }

  /** All arguments but those still pending are back in their call. */
  ghost predicate PutBack(
    toolCalls: seq<ToolCall>, args: map<nat, string>, pending: set<nat>, calls: seq<ToolCall>)
  {
    && |calls| == |toolCalls|
    && forall i | 0 <= i < |calls| ::
         calls[i] == if i in pending then toolCalls[i] else toolCalls[i].(arguments := ArgumentsSoFar(args, i))
  }

  lemma PutOneBack(
    toolCalls: seq<ToolCall>, args: map<nat, string>, pending: set<nat>, calls: seq<ToolCall>, idx: nat)
    requires PutBack(toolCalls, args, pending, calls) && idx in pending && idx in args
    ensures var next := if idx < |calls| then calls[idx := calls[idx].(arguments := args[idx])] else calls;
            PutBack(toolCalls, args, pending - {idx}, next)
  {
  }

  lemma AllBack(toolCalls: seq<ToolCall>, args: map<nat, string>, calls: seq<ToolCall>, ds: seq<ToolDelta>)
    requires |toolCalls| == SlotCount(ds) && SlotsFollow(toolCalls, ds) && ArgumentsFollow(args, ds)
    requires PutBack(toolCalls, args, {}, calls)
    ensures calls == ToolCalls(ds)
  {
  }

  /** The whole buffered branch: the reply is what the event stream means. */
  method Buffer(model: string, events: seq<Event>) returns (c: Completion)
    ensures c == Buffered(model, events)
  {
    var a := new Aggregator(model);
    for i := 0 to |events|
      invariant a.Valid() && a.model == model
      invariant a.deltas == Deltas(events[..i])
      invariant a.content == Text(events[..i])
      invariant a.finishReason == FinishReason(events[..i])
      invariant a.usage == Usage(events[..i])
    {
      a.AbsorbEvent(events[i]);
      assert events[..i + 1][..i] == events[..i];
    }
    assert events[..|events|] == events;
    c := a.Finish();
  }

  function ArgumentsSoFar(args: map<nat, string>, i: nat): string {
    if i in args then args[i] else ""
  }

  function Updated(c: ToolCall, d: ToolDelta): ToolCall {
    ToolCall(c.index, if d.id.Some? then d.id.value else c.id, if d.name.Some? then d.name.value else c.name,
             if d.arguments.Some? then c.arguments + d.arguments.value else c.arguments)
  }

  /** The slots follow the stream one delta further. */
  lemma SlotsAfterDelta(ds: seq<ToolDelta>, d: ToolDelta, grown: seq<ToolCall>, calls: seq<ToolCall>)
    requires |grown| == if SlotCount(ds) <= d.Slot() then d.Slot() + 1 else SlotCount(ds)
    requires SlotsFollow(grown, ds)
    requires calls == grown[d.Slot() := Updated(grown[d.Slot()], d.(arguments := None))]
    ensures |calls| == SlotCount(ds + [d])
    ensures SlotsFollow(calls, ds + [d])
  {
    assert (ds + [d])[..|ds|] == ds;
    forall i | 0 <= i < |calls| ensures calls[i] == CallAt(ds + [d], i).(arguments := "") {
      CallAfterDelta(ds, d, i);
    }
  }

  /** And so does the argument map. */
  lemma ArgumentsAfterDelta(ds: seq<ToolDelta>, d: ToolDelta, before: map<nat, string>, args: map<nat, string>)
    requires ArgumentsFollow(before, ds)
    requires args == if d.arguments.Some? then before[d.Slot() := ArgumentsSoFar(before, d.Slot()) + d.arguments.value]
                     else before
    ensures ArgumentsFollow(args, ds + [d])
  {
    forall i: nat ensures ArgumentsSoFar(args, i) == CallAt(ds + [d], i).arguments {
      CallAfterDelta(ds, d, i);
    }
  }

  lemma CallAfterDelta(ds: seq<ToolDelta>, d: ToolDelta, i: nat)
    ensures CallAt(ds + [d], i) == if i == d.Slot() then Updated(CallAt(ds, i), d) else CallAt(ds, i)
  {
    assert (ds + [d])[..|ds|] == ds;
    var mine := ForSlot(ds, i);
    if i == d.Slot() {
      assert ForSlot(ds + [d], i) == mine + [d];
      ValuesExtend(mine, d, Id);
      ValuesExtend(mine, d, Name);
      ValuesExtend(mine, d, Arguments);
      ConcatExtends(Values(mine, Arguments), d.arguments);
    } else {
      assert ForSlot(ds + [d], i) == mine;
    }
  }

  lemma ValuesExtend(ds: seq<ToolDelta>, d: ToolDelta, f: Part)
    ensures Values(ds + [d], f) == Values(ds, f) + Present(d.Field(f))
    ensures LastOr(Values(ds + [d], f), "") == if d.Field(f).Some? then d.Field(f).value else LastOr(Values(ds, f), "")
  {
    assert (ds + [d])[..|ds|] == ds;
  }

  lemma ConcatExtends(parts: seq<string>, more: Option<string>)
    ensures Concat(parts + Present(more)) == if more.Some? then Concat(parts) + more.value else Concat(parts)
  {
    if more.Some? {
      assert (parts + [more.value])[..|parts|] == parts;
    } else {
      assert parts + [] == parts;
    }
  }

  lemma {:induction false} BeyondLastSlot(ds: seq<ToolDelta>, i: nat)
    requires i >= SlotCount(ds)
    ensures ForSlot(ds, i) == []
  {
    if ds == [] {
    } else {
      BeyondLastSlot(ds[..|ds| - 1], i);
    }
  }

  lemma GrownSlotsFollow(calls: seq<ToolCall>, grown: seq<ToolCall>, ds: seq<ToolDelta>)
    requires |calls| == SlotCount(ds) && SlotsFollow(calls, ds) && calls <= grown
    requires forall i | |calls| <= i < |grown| :: grown[i] == ToolCall(i, "", "", "")
    ensures SlotsFollow(grown, ds)
  {
    forall i | |calls| <= i < |grown| ensures grown[i] == CallAt(ds, i).(arguments := "") {
      BeyondLastSlot(ds, i);
    }
  }

  lemma {:induction false} LastSlotIsUsed(ds: seq<ToolDelta>)
    requires SlotCount(ds) > 0
    ensures ForSlot(ds, SlotCount(ds) - 1) != []
  {
    if ds[|ds| - 1].Slot() + 1 != SlotCount(ds) {
      LastSlotIsUsed(ds[..|ds| - 1]);
    }
  }

  // ---- Interleaving does not matter ----

  /** Any two streams that agree call by call give the same tool calls, however they interleave. */
  lemma InterleavingDoesNotMatter(a: seq<ToolDelta>, b: seq<ToolDelta>)
    requires forall i: nat :: ForSlot(a, i) == ForSlot(b, i)
    ensures ToolCalls(a) == ToolCalls(b)
  {
    SlotCountFollowsUse(a, b);
    SlotCountFollowsUse(b, a);
    assert forall i: nat :: CallAt(a, i) == CallAt(b, i);
  }

  lemma UsedSlotIsBelowCount(a: seq<ToolDelta>, b: seq<ToolDelta>, i: nat)
    requires i + 1 == SlotCount(a) && ForSlot(a, i) == ForSlot(b, i)
    ensures i < SlotCount(b)
  {
    LastSlotIsUsed(a);
    if i >= SlotCount(b) {
      BeyondLastSlot(b, i);
    }
  }

  lemma SlotCountFollowsUse(a: seq<ToolDelta>, b: seq<ToolDelta>)
    requires forall i: nat :: ForSlot(a, i) == ForSlot(b, i)
    ensures SlotCount(a) <= SlotCount(b)
  {
    if SlotCount(a) > 0 {
      UsedSlotIsBelowCount(a, b, SlotCount(a) - 1);
    }
  }

  // ---- A sender ----

  /** How a call is streamed: its id and name first, then its argument text in pieces. */
  function Encoded(call: ToolCall, pieces: seq<string>): seq<ToolDelta> {
    if pieces == [] then [ToolDelta(Some(call.index), Some(call.id), Some(call.name), None)]
    else Encoded(call, pieces[..|pieces| - 1]) + [ToolDelta(Some(call.index), None, None, Some(pieces[|pieces| - 1]))]
  }

  /** The deltas carry one id, one name and these pieces of argument text. */
  ghost predicate Carries(ds: seq<ToolDelta>, call: ToolCall, pieces: seq<string>) {
    Values(ds, Id) == [call.id] && Values(ds, Name) == [call.name] && Values(ds, Arguments) == pieces
  }

  lemma {:induction false} EncodedValues(call: ToolCall, pieces: seq<string>)
    ensures Carries(Encoded(call, pieces), call, pieces)
  {
    if pieces == [] {
      EncodedFirst(call, ToolDelta(Some(call.index), Some(call.id), Some(call.name), None));
    } else {
      var front, piece := pieces[..|pieces| - 1], pieces[|pieces| - 1];
      EncodedValues(call, front);
      CarriesMore(Encoded(call, front), call, front, ToolDelta(Some(call.index), None, None, Some(piece)));
      assert pieces == front + [piece];
    }
  }

  lemma EncodedFirst(call: ToolCall, d: ToolDelta)
    requires d.id == Some(call.id) && d.name == Some(call.name) && d.arguments == None
    ensures Carries([d], call, [])
  {
    assert forall f :: Values([d], f) == [] + Present(d.Field(f));
  }

  lemma CarriesMore(ds: seq<ToolDelta>, call: ToolCall, pieces: seq<string>, d: ToolDelta)
    requires Carries(ds, call, pieces) && d.id == None && d.name == None && d.arguments.Some?
    ensures Carries(ds + [d], call, pieces + [d.arguments.value])
  {
    ValuesExtend(ds, d, Id);
    ValuesExtend(ds, d, Name);
    ValuesExtend(ds, d, Arguments);
  }

  /** The stream is some interleaving of the calls, each cut into its pieces. */
  ghost predicate Interleaves(ds: seq<ToolDelta>, calls: seq<ToolCall>, pieces: seq<seq<string>>)
    requires |pieces| == |calls|
  {
    forall i: nat :: ForSlot(ds, i) == if i < |calls| then Encoded(calls[i], pieces[i]) else []
  }

  ghost predicate CutsUp(calls: seq<ToolCall>, pieces: seq<seq<string>>) {
    && |pieces| == |calls|
    && forall i | 0 <= i < |calls| :: calls[i].index == i && Concat(pieces[i]) == calls[i].arguments
  }

  /** However a sender cuts up the arguments of its calls and interleaves them, the calls come back. */
  lemma SplitCallsReassemble(calls: seq<ToolCall>, pieces: seq<seq<string>>, ds: seq<ToolDelta>)
    requires CutsUp(calls, pieces) && Interleaves(ds, calls, pieces)
    ensures ToolCalls(ds) == calls
  {
    forall i | 0 <= i < |calls| ensures ForSlot(ds, i) != [] && CallAt(ds, i) == calls[i] {
      EncodedValues(calls[i], pieces[i]);
    }
    if SlotCount(ds) > |calls| {
      LastSlotIsUsed(ds);
    }
    if SlotCount(ds) < |calls| {
      BeyondLastSlot(ds, |calls| - 1);
    }
  }

  /** One such stream sends call after call. */
  function OneByOne(calls: seq<ToolCall>, pieces: seq<seq<string>>): seq<ToolDelta>
    requires |pieces| == |calls|
  {
    if calls == [] then []
    else
      var n := |calls| - 1;
      OneByOne(calls[..n], pieces[..n]) + Encoded(calls[n], pieces[n])
  }

  lemma {:induction false} OneByOneInterleaves(calls: seq<ToolCall>, pieces: seq<seq<string>>)
    requires CutsUp(calls, pieces)
    ensures Interleaves(OneByOne(calls, pieces), calls, pieces)
  {
    if calls != [] {
      var n := |calls| - 1;
      OneByOneInterleaves(calls[..n], pieces[..n]);
      forall i: nat
        ensures ForSlot(OneByOne(calls, pieces), i) == if i <= n then Encoded(calls[i], pieces[i]) else []
      {
        LastCallJoins(OneByOne(calls[..n], pieces[..n]), calls[n], pieces[n], i);
      }
    }
  }

  lemma LastCallJoins(ds: seq<ToolDelta>, call: ToolCall, pieces: seq<string>, i: nat)
    requires i == call.index ==> ForSlot(ds, i) == []
    ensures ForSlot(ds + Encoded(call, pieces), i) == if i == call.index then Encoded(call, pieces) else ForSlot(ds, i)
  {
    ForSlotJoins(ds, Encoded(call, pieces), i);
    EncodedSlots(call, pieces, i);
  }

  lemma {:induction false} ForSlotJoins(a: seq<ToolDelta>, b: seq<ToolDelta>, i: nat)
    ensures ForSlot(a + b, i) == ForSlot(a, i) + ForSlot(b, i)
  {
    if b == [] {
      assert a + b == a;
    } else {
      assert (a + b)[..|a + b| - 1] == a + b[..|b| - 1];
      ForSlotJoins(a, b[..|b| - 1], i);
    }
  }

  lemma {:induction false} EncodedSlots(call: ToolCall, pieces: seq<string>, i: nat)
    ensures ForSlot(Encoded(call, pieces), i) == if i == call.index then Encoded(call, pieces) else []
  {
    if pieces == [] {
      assert Encoded(call, pieces)[..0] == [];
    } else {
      var front := Encoded(call, pieces[..|pieces| - 1]);
      EncodedSlots(call, pieces[..|pieces| - 1], i);
      assert Encoded(call, pieces)[..|front|] == front;
    }
  }

  // ---- The reply, event by event ----

  /** Nothing received is an empty reply that stopped. */
  lemma EmptyReply(model: string)
    ensures Buffered(model, []) == Completion(WithoutNamespace(model), None, [], "stop", None)
  {
  }

  /** One more event: its text is appended, its finish reason and usage replace earlier ones, its deltas follow. */
  lemma ReplyGrows(model: string, events: seq<Event>, e: Event)
    ensures var was, now := Buffered(model, events), Buffered(model, events + [e]);
            var text := if was.content.Some? then was.content.value else "";
            && (if now.content.Some? then now.content.value != "" && now.content.value == text + TextOf(e)
                else text + TextOf(e) == "")
            && now.finishReason == (if e.finishReason.Some? then e.finishReason.value else was.finishReason)
            && now.usage == (if e.usage.Some? then e.usage else was.usage)
            && now.toolCalls == ToolCalls(Deltas(events) + e.deltas)
  {
    assert (events + [e])[..|events|] == events;
    assert Concat(Present(e.content)) == TextOf(e);
  }

  function TextOf(e: Event): string {
    if e.content.Some? then e.content.value else ""
  }

  /** The namespace is what precedes the first slash, and goes with it. */
  lemma NamespaceGoes(model: string) returns (namespace: string)
    ensures if '/' in model then '/' !in namespace && model == namespace + "/" + WithoutNamespace(model)
            else WithoutNamespace(model) == model
  {
    namespace := "";
    if '/' in model {
      namespace := SlashSplits(model);
    }
  }

  lemma {:induction false} SlashSplits(model: string) returns (namespace: string)
    requires '/' in model
    ensures '/' !in namespace && model == namespace + "/" + AfterSlash(model)
  {
    if model[0] == '/' {
      namespace := "";
      assert model == [model[0]] + model[1..];
    } else {
      var later := SlashSplits(model[1..]);
      namespace := [model[0]] + later;
      assert model == [model[0]] + model[1..];
    }
  }

  /** A delta that carries no index is about the first call. */
  lemma UnindexedIsFirst(d: ToolDelta)
    requires d.index == None
    ensures ToolCalls([d]) == ToolCalls([d.(index := Some(0))])
    ensures |ToolCalls([d])| == 1
  {
    var e := d.(index := Some(0));
    assert ForSlot([d], 0) == [d] && ForSlot([e], 0) == [e];
    assert Values([d], Id) == Values([e], Id) && Values([d], Name) == Values([e], Name);
    assert Values([d], Arguments) == Values([e], Arguments);
    assert SlotCount([d]) == 1 == SlotCount([e]);
    assert CallAt([d], 0) == CallAt([e], 0);
  }
}
