/**
 Switching provider or model in mid-session: validate the parameters the target would get,
 negotiate capabilities, prepare a runtime context, persist the choice, and only then publish.
 Validation, negotiation, initialisation and persistence may each fail; whether they do is a
 parameter.
 */
module ProviderSwap {
  import opened Options
  import opened ParamPaths
  import opened ParamTree
  import opened ParamLeaves
  import opened ParamSwap
  import opened ParamsStore

  /** A validated provider entry: its declared models and its default parameters. */
  datatype Config = Config(models: seq<string>, defaultParams: Option<Json>)

  datatype Selection = Selection(entryId: string, protocolId: string, config: Config, modelId: string)

  datatype Target = Target(entryId: string, protocolId: string, config: Config, modelId: string)

  /** What is kept about a live runtime. */
  datatype Context = Context(entryId: string, protocolId: string, config: Config)

  datatype Failure = UnknownConfigKey | UnknownProtocol | InvalidConfig | ModelNotInProvider

  datatype Resolved = Resolved(target: Target) | Unresolved(failure: Failure)

  const PROTOCOLS: set<string> := {"anthropic", "cli-wrapper", "gemini", "openai-compatible"}

  /** What schema validation establishes about a configuration. */
  predicate Validated(config: Config)
  {
    config.models != [] && (config.defaultParams.Some? ==> config.defaultParams.value.Node?)
  }

  function Defaults(config: Config): Json
  {
    if config.defaultParams.None? then EMPTY_BAG else config.defaultParams.value
  }

  // ----- Resolving what to switch to -----

  /** A provider entry as configured: the protocol it names, if any, and the rest. */
  datatype ProviderEntry = ProviderEntry(protocol: Option<string>, config: Config)

  /** One of the four protocols there are. */
  predicate IsProtocol(protocol: Option<string>)
  {
    || protocol == Some("anthropic") || protocol == Some("openai-compatible") || protocol == Some("gemini")
    || protocol == Some("cli-wrapper")
  }

  /**
   The entry must be configured, name a known protocol and pass its schema; the preferred model is kept if declared.
   Whether the schema accepts the entry is a parameter.
   */
  function ResolveProviderTarget(providers: map<string, ProviderEntry>, entryId: string, preferred: Option<string>,
                                 accepted: bool): (r: Resolved)
    requires entryId in providers && accepted ==> Validated(providers[entryId].config)
    ensures r.Resolved? <==>
              entryId in providers && accepted && IsProtocol(providers[entryId].protocol)
    ensures r.Resolved? ==>
              && r.target.entryId == entryId && r.target.modelId in r.target.config.models
              && Some(r.target.protocolId) == providers[entryId].protocol
                && r.target.config == providers[entryId].config
              && Validated(r.target.config)
              && r.target.modelId ==
                   if preferred.Some? && preferred.value in r.target.config.models then preferred.value
                   else r.target.config.models[0]
    ensures r.Unresolved? ==>
              && (r.failure == UnknownConfigKey <==> entryId !in providers)
              && (r.failure == UnknownProtocol <==> entryId in providers && !IsProtocol(providers[entryId].protocol))
              && (r.failure == InvalidConfig <==>
                    entryId in providers && IsProtocol(providers[entryId].protocol) && !accepted)
  {
    if entryId !in providers then Unresolved(UnknownConfigKey)
    else
      var raw := providers[entryId];
      if raw.protocol.None? || raw.protocol.value !in PROTOCOLS then Unresolved(UnknownProtocol)
      else if !accepted then Unresolved(InvalidConfig)
      else
        var models := raw.config.models;
        var modelId := if preferred.Some? && preferred.value in models then preferred.value else models[0];
        Resolved(Target(entryId, raw.protocol.value, raw.config, modelId))
  }

  /** A model switch stays within the selected entry and needs the model to be declared there. */
  function ResolveModelTarget(current: Selection, modelName: string): (r: Resolved)
    ensures r.Resolved? <==> modelName in current.config.models
    ensures r.Resolved? ==>
              Selection(r.target.entryId, r.target.protocolId, r.target.config, current.modelId) == current
              && r.target.modelId == modelName
  {
    if modelName in current.config.models
    then Resolved(Target(current.entryId, current.protocolId, current.config, modelName))
    else Unresolved(ModelNotInProvider)
  }

  // ----- The transaction -----

  datatype Negotiation = Satisfied | MissingCapability | NegotiatorError

  datatype SwapError = ParamsInvalid | NegotiationError | InitFailed | PersistFailed

  datatype SwapResult = Swapped(selection: Selection) | Rejected | Threw(error: SwapError)

  datatype CommandResult = Noop | NoTarget(failure: Failure) | Ran(swap: SwapResult)

  predicate NoArgument(argument: Option<string>)
  {
    argument.None? || argument.value == ""
  }

  datatype State = State(selection: Selection, revision: nat, leaves: seq<Entry>, contexts: map<string, Context>)

  /** The context the registry answers with: one already allocated for the entry is reused as it is. */
  function Prepared(contexts: map<string, Context>, target: Target): Context
  {
    if target.entryId in contexts then contexts[target.entryId]
    else Context(target.entryId, target.protocolId, target.config)
  }

  ghost predicate Published(before: State, target: Target, after: State)
  {
    var prepared := Prepared(before.contexts, target);
    && after.selection == Selection(prepared.entryId, prepared.protocolId, prepared.config, target.modelId)
    && after.revision == before.revision + 1
    && after.contexts == before.contexts[target.entryId := prepared]
    && exists added :: IsFlattening(added, Defaults(prepared.config), [], DefaultParams)
                       && after.leaves == Applied(before.leaves, MapSetAll([], added))
  }

  function ContextsAfterFailure(before: State, target: Target, error: SwapError): map<string, Context>
  {
    if error != PersistFailed then before.contexts
    else if target.entryId != before.selection.entryId then before.contexts - {target.entryId}
    else before.contexts[target.entryId := Prepared(before.contexts, target)]
  }

  /** What one swap may do. */
  ghost predicate Transition(before: State, target: Target, result: SwapResult, after: State)
  {
    match result
    case Swapped(selection) => selection == after.selection && Published(before, target, after)
    case Rejected => after == before
    case Threw(error) => after == before.(contexts := ContextsAfterFailure(before, target, error))
  }

  /** The bag the swap validates, for some order in which the target's defaults are listed. */
  ghost predicate IsValidatedBag(bag: Json, leaves: seq<Entry>, target: Target)
  {
    exists listed :: IsFlattening(listed, Defaults(target.config), [], DefaultParams)
                     && bag == TreeOf(Projected(leaves, MapSetAll([], listed)))
  }

  /** The first failing step decides how a swap ends. */
  predicate EndsWith(result: SwapResult, paramsOk: bool, negotiation: Negotiation, prepareOk: bool, persistOk: bool)
  {
    match result
    case Swapped(_) => paramsOk && negotiation.Satisfied? && prepareOk && persistOk
    case Rejected => paramsOk && negotiation.MissingCapability?
    case Threw(ParamsInvalid) => !paramsOk
    case Threw(NegotiationError) => paramsOk && negotiation.NegotiatorError?
    case Threw(InitFailed) => paramsOk && negotiation.Satisfied? && !prepareOk
    case Threw(PersistFailed) => paramsOk && negotiation.Satisfied? && prepareOk && !persistOk
  }

  /** The selected entry has a context, and that context has the selected protocol and configuration. */
  predicate InStep(s: State)
  {
    && s.selection.entryId in s.contexts
    && s.contexts[s.selection.entryId] == Context(s.selection.entryId, s.selection.protocolId, s.selection.config)
    && forall entryId | entryId in s.contexts ::
      s.contexts[entryId].entryId == entryId && Validated(s.contexts[entryId].config)
  }

  class ActiveSelection {
    var selection: Selection
    var revision: nat

    constructor (initial: Selection)
      ensures selection == initial && revision == 0
    {
      selection := initial;
      revision := 0;
    }

    method Swap(next: Selection)
      modifies this
      ensures selection == next && revision == old(revision) + 1
    {
      selection := next;
      revision := revision + 1;
    }
  }

  class RuntimeContextRegistry {
    var contexts: map<string, Context>

    constructor ()
      ensures contexts == map[]
    {
      contexts := map[];
    }

    /** The context of the entry, made and initialised when there is none yet; none when that fails. */
    method Ensure(entryId: string, protocolId: string, config: Config, initOk: bool) returns (ctx: Option<Context>)
      modifies this
      ensures entryId in old(contexts) ==> ctx == Some(old(contexts)[entryId]) && contexts == old(contexts)
      ensures entryId !in old(contexts) && initOk ==>
                ctx == Some(Context(entryId, protocolId, config)) && contexts == old(contexts)[entryId := ctx.value]
      ensures entryId !in old(contexts) && !initOk ==> ctx == None && contexts == old(contexts)
    {
      if entryId in contexts { return Some(contexts[entryId]); }
      if !initOk { return None; }
      ctx := Some(Context(entryId, protocolId, config));
      contexts := contexts[entryId := ctx.value];
    }

    method Dispose(entryId: string)
      modifies this
      ensures contexts == old(contexts) - {entryId}
    {
      if entryId !in contexts { return; }
      contexts := contexts - {entryId};
    }

    /** The per-turn lookup, which throws when nothing is allocated. */
    method Get(entryId: string) returns (ctx: Option<Context>)
      ensures ctx.Some? <==> entryId in contexts
      ensures ctx.Some? ==> ctx.value == contexts[entryId]
    {
      if entryId !in contexts { return None; }
      return Some(contexts[entryId]);
    }
  }

  class Session {
    const selection: ActiveSelection
    const registry: RuntimeContextRegistry
    const params: ParamsRuntimeStore

    ghost function Snapshot(): State
      reads selection, registry, params
    {
      State(selection.selection, selection.revision, params.leaves, registry.contexts)
    }

    /** The registry holds the selected entry as selected, and the store is sound. */
    ghost predicate Ready()
      reads selection, registry, params
    {
      InStep(Snapshot()) && Sound(params.leaves)
    }

    /** The registry is given a context for the selected entry before the session starts. */
    constructor (initial: Selection, params: ParamsRuntimeStore)
      ensures this.params == params && params.leaves == old(params.leaves) && fresh(selection) && fresh(registry)
      ensures Snapshot() ==
              State(initial, 0, params.leaves,
                map[initial.entryId := Context(initial.entryId, initial.protocolId, initial.config)])
    {
      var holder := new ActiveSelection(initial);
      var contexts := new RuntimeContextRegistry();
      var ctx := contexts.Ensure(initial.entryId, initial.protocolId, initial.config, true);
      this.selection, this.registry, this.params := holder, contexts, params;
    }

    /**
     Makes the target's context ready and persists the choice; when persisting fails, a context of
     another entry is disposed.
     */
    method PrepareAndPersist(target: Target, entryChanged: bool, initOk: bool, persistOk: bool)
        returns (prepared: Context, failed: bool, error: SwapError)
      modifies registry
      ensures failed <==> !((target.entryId in old(registry.contexts) || initOk) && persistOk)
      ensures failed ==> error == if target.entryId in old(registry.contexts) || initOk then PersistFailed
          else InitFailed
      ensures !failed ==> prepared == Prepared(old(registry.contexts), target)
      ensures registry.contexts ==
                if !failed || (error == PersistFailed && !entryChanged)
                then old(registry.contexts)[target.entryId := Prepared(old(registry.contexts), target)]
                else if error == PersistFailed then old(registry.contexts) - {target.entryId}
                else old(registry.contexts)
    {
      prepared, failed, error := Prepared(registry.contexts, target), true, InitFailed;
      var ensured := registry.Ensure(target.entryId, target.protocolId, target.config, initOk);
      if ensured.None? { return; }
      prepared := ensured.value;
      if !persistOk {
        error := PersistFailed;
        if entryChanged { registry.Dispose(target.entryId); }
        return;
      }
      failed := false;
    }

    /** The last step: the new default layer, then the new selection. */
    method Publish(prepared: Context, modelId: string) returns (next: Selection)
      requires Validated(prepared.config)
      modifies selection, params
      ensures next == Selection(prepared.entryId, prepared.protocolId, prepared.config, modelId)
      ensures selection.selection == next && selection.revision == old(selection.revision) + 1
      ensures exists added :: IsFlattening(added, Defaults(prepared.config), [], DefaultParams)
                              && params.leaves == Applied(old(params.leaves), MapSetAll([], added))
      ensures Sound(old(params.leaves)) ==> Sound(params.leaves)
    {
      params.ApplyDefaultParams(Defaults(prepared.config));
      next := Selection(prepared.entryId, prepared.protocolId, prepared.config, modelId);
      selection.Swap(next);
    }

    /** One swap. The validated bag is returned to compare it with what is published. */
    method PerformSwap(target: Target, valid: Json -> bool, negotiation: Negotiation, initOk: bool, persistOk: bool)
        returns (result: SwapResult, ghost validated: Json)
      requires Ready() && Validated(target.config)
      modifies selection, registry, params
      ensures Ready()
      ensures IsValidatedBag(validated, old(params.leaves), target)
      ensures Transition(old(Snapshot()), target, result, Snapshot())
      ensures EndsWith(result, valid(validated), negotiation, target.entryId in old(registry.contexts) || initOk,
          persistOk)
    {
      var previous := selection.selection;
      var entryChanged := target.entryId != previous.entryId;
      var effectiveBag := params.ProjectMergedBagWithDefaults(Defaults(target.config));
      validated := effectiveBag;
      assert IsValidatedBag(validated, old(params.leaves), target);
      if !valid(effectiveBag) { return Threw(ParamsInvalid), validated; }
      if negotiation.MissingCapability? { return Rejected, validated; }
      if negotiation.NegotiatorError? { return Threw(NegotiationError), validated; }
      var prepared, failed, error := PrepareAndPersist(target, entryChanged, initOk, persistOk);
      if failed { return Threw(error), validated; }
      var next := Publish(prepared, target.modelId);
      return Swapped(next), validated;
    }

    /**
     `/provider`: with no argument the user picks one of the configured entries, and there is nothing to do when
     there is none. What the picker answers and whether the schema accepts the entry are parameters.
     */
    method DispatchProviderCommand(providers: map<string, ProviderEntry>, argument: Option<string>, picked: string,
                                   activeModel: Option<string>, accepted: bool, valid: Json -> bool,
                                   negotiation: Negotiation, initOk: bool, persistOk: bool)
        returns (result: CommandResult, ghost validated: Json)
      requires Ready()
      requires var entryId := if NoArgument(argument) then picked else argument.value;
               entryId in providers && accepted ==> Validated(providers[entryId].config)
      modifies selection, registry, params
      ensures Ready()
      ensures result == Noop <==> (argument == None || argument == Some("")) && providers == map[]
      ensures !result.Ran? ==> Snapshot() == old(Snapshot())
      ensures !(NoArgument(argument) && providers == map[]) ==>
                var entryId := if NoArgument(argument) then picked else argument.value;
                var resolved := ResolveProviderTarget(providers, entryId, activeModel, accepted);
                && (result.Ran? <==> resolved.Resolved?)
                && (resolved.Resolved? ==> Transition(old(Snapshot()), resolved.target, result.swap, Snapshot())
                                           && IsValidatedBag(validated, old(params.leaves), resolved.target))
    {
      validated := EMPTY_BAG;
      if NoArgument(argument) && providers == map[] { return Noop, validated; }
      var entryId := if NoArgument(argument) then picked else argument.value;
      var resolved := ResolveProviderTarget(providers, entryId, activeModel, accepted);
      if resolved.Unresolved? { return NoTarget(resolved.failure), validated; }
      var swap;
      swap, validated := PerformSwap(resolved.target, valid, negotiation, initOk, persistOk);
      result := Ran(swap);
    }

    /**
     `/model`: only the model of the selection changes, and the parameters published are those validated exactly when
     no default clashes with a runtime override, unless two paths share a key.
     */
    method DispatchModelCommand(argument: Option<string>, picked: string, valid: Json -> bool,
                                negotiation: Negotiation, persistOk: bool)
        returns (result: CommandResult, ghost validated: Json)
      requires Ready()
      modifies selection, registry, params
      ensures Ready() && result != Noop
      ensures var modelName := if NoArgument(argument) then picked else argument.value;
              result.Ran? <==> modelName in old(selection.selection).config.models
      ensures !(result.Ran? && result.swap.Swapped?) ==> Snapshot() == old(Snapshot())
      ensures result.Ran? && result.swap.Swapped? ==>
                && selection.selection ==
                  old(selection.selection).(modelId := if NoArgument(argument) then picked else argument.value)
                && registry.contexts == old(registry.contexts)
      ensures result.Ran? && result.swap.Swapped? && KeysApart(old(params.leaves), selection.selection.config) ==>
                (TreeOf(params.leaves) == validated <==>
                   SwapSafe(Overrides(old(params.leaves)), Defaults(selection.selection.config)))
    {
      validated := EMPTY_BAG;
      ghost var before := Snapshot();
      var modelName := if NoArgument(argument) then picked else argument.value;
      var resolved := ResolveModelTarget(selection.selection, modelName);
      if resolved.Unresolved? { return NoTarget(resolved.failure), validated; }
      var swap;
      // The context is there already, so no initialisation can fail.
      swap, validated := PerformSwap(resolved.target, valid, negotiation, true, persistOk);
      result := Ran(swap);
      ModelSwitch(before, modelName, swap, Snapshot(), validated);
    }
  }

  // ----- One swap -----

  lemma SwapKeepsStep(before: State, target: Target, result: SwapResult, after: State)
    requires InStep(before) && Validated(target.config) && Transition(before, target, result, after)
    ensures InStep(after)
  {
  }

  /** A swap that does not publish leaves selection, revision and parameters as they were. */
  lemma FailedSwapPublishesNothing(before: State, target: Target, result: SwapResult, after: State)
    requires InStep(before) && Transition(before, target, result, after) && !result.Swapped?
    ensures after.selection == before.selection && after.revision == before.revision && after.leaves == before.leaves
    ensures after.contexts == before.contexts <==>
              !(result == Threw(PersistFailed) && target.entryId != before.selection.entryId
                && target.entryId in before.contexts)
  {
    if result == Threw(PersistFailed) && target.entryId != before.selection.entryId
      && target.entryId !in before.contexts {
      assert before.contexts - {target.entryId} == before.contexts;
    }
    if result == Threw(PersistFailed) && target.entryId == before.selection.entryId {
      assert after.contexts == before.contexts;
    }
  }

  /** Persisting fails for an entry that had a live context before: the context is gone afterwards. */
  lemma DisposedContextWitness()
    ensures var config := Config(["m"], None);
            var a, b := Context("a", "gemini", config), Context("b", "gemini", config);
            var before := State(Selection("a", "gemini", config, "m"), 0, [], map["a" := a, "b" := b]);
            var after := before.(contexts := map["a" := a]);
            && InStep(before) && after.contexts != before.contexts
            && Transition(before, Target("b", "gemini", config, "m"), Threw(PersistFailed), after)
  {
    var config := Config(["m"], None);
    var a, b := Context("a", "gemini", config), Context("b", "gemini", config);
    assert map["a" := a, "b" := b] - {"b"} == map["a" := a];
    assert "b" in map["a" := a, "b" := b] && "b" !in map["a" := a];
  }

  /** The target's configuration is the one its context, if it has one, was made with. */
  predicate Fresh(contexts: map<string, Context>, target: Target)
  {
    target.entryId in contexts ==> contexts[target.entryId] == Context(target.entryId, target.protocolId, target.config)
  }

  /** No override and no default of the configuration share a key. */
  ghost predicate KeysApart(leaves: seq<Entry>, config: Config)
  {
    KeysDiffer(PathsOf(Overrides(leaves)) + LeafPaths(Defaults(config), []))
  }

  /**
   A successful swap publishes the parameters it validated if and only if the defaults of the context it reuses match
   those of the target as `SwapMatches` says; for a fresh target, if and only if no default clashes with an override.
   */
  lemma SwapPublishesValidatedParams(before: State, target: Target, result: SwapResult, after: State, validated: Json)
    requires Transition(before, target, result, after) && result.Swapped?
        && IsValidatedBag(validated, before.leaves, target)
    requires Sound(before.leaves) && Validated(target.config) && Validated(Prepared(before.contexts, target).config)
    requires KeysApart(before.leaves, target.config)
        && KeysApart(before.leaves, Prepared(before.contexts, target).config)
    ensures TreeOf(after.leaves) == validated <==>
            SwapMatches(Overrides(before.leaves), Defaults(target.config),
              Defaults(Prepared(before.contexts, target).config))
    ensures Fresh(before.contexts, target) ==>
            (TreeOf(after.leaves) == validated <==> SwapSafe(Overrides(before.leaves), Defaults(target.config)))
  {
    var wanted, live := Defaults(target.config), Defaults(Prepared(before.contexts, target).config);
    var listed :| IsFlattening(listed, wanted, [], DefaultParams)
                  && validated == TreeOf(Projected(before.leaves, MapSetAll([], listed)));
    var added :| IsFlattening(added, live, [], DefaultParams)
      && after.leaves == Applied(before.leaves, MapSetAll([], added));
    SwapPublishesWhatItValidated(before.leaves, wanted, live, listed, added);
    SafeMeansMatchingItself(Overrides(before.leaves), wanted);
  }

  /** What a model switch that gets past resolving does: the context it reuses is the selected one. */
  lemma ModelSwitch(before: State, modelName: string, result: SwapResult, after: State, validated: Json)
    requires InStep(before) && modelName in before.selection.config.models
    requires Transition(before, ResolveModelTarget(before.selection, modelName).target, result, after)
    requires IsValidatedBag(validated, before.leaves, ResolveModelTarget(before.selection, modelName).target)
    ensures after.contexts == before.contexts
    ensures !result.Swapped? ==> after == before
    ensures result.Swapped? ==> after.selection == before.selection.(modelId := modelName)
    ensures result.Swapped? && Sound(before.leaves) && KeysApart(before.leaves, before.selection.config) ==>
              (TreeOf(after.leaves) == validated <==>
                SwapSafe(Overrides(before.leaves), Defaults(before.selection.config)))
  {
    var target := ResolveModelTarget(before.selection, modelName).target;
    assert Fresh(before.contexts, target);
    if !result.Swapped? {
      FailedSwapPublishesNothing(before, target, result, after);
    } else if Sound(before.leaves) && KeysApart(before.leaves, before.selection.config) {
      SwapPublishesValidatedParams(before, target, result, after, validated);
    }
  }

  /**
   After the configuration of an entry with a live context has changed on disk, the swap validates the new defaults and
   publishes the old ones, with a model the published configuration does not declare.
   */
  lemma StaleContextWitness()
    ensures var changed := Config(["new"], Some(Node(map["k" := Leaf(Null)])));
            var live := Config(["old"], None);
            var before := State(Selection("a", "gemini", live, "old"), 0, [], map["a" := Context("a", "gemini", live)]);
            var target := Target("a", "gemini", changed, "new");
            var after := before.(selection := Selection("a", "gemini", live, "new"), revision := 1);
            && InStep(before) && Validated(changed) && target.modelId in target.config.models
            && Transition(before, target, Swapped(after.selection), after) && !ModelDeclared(after)
            && forall validated | IsValidatedBag(validated, before.leaves, target) :: TreeOf(after.leaves) != validated
  {
    var changed := Config(["new"], Some(Node(map["k" := Leaf(Null)])));
    var live := Config(["old"], None);
    var before := State(Selection("a", "gemini", live, "old"), 0, [], map["a" := Context("a", "gemini", live)]);
    var target := Target("a", "gemini", changed, "new");
    var after := before.(selection := Selection("a", "gemini", live, "new"), revision := 1);
    var none: seq<Entry> := [];
    assert IsFlattening(none, Defaults(live), [], DefaultParams);
    assert after.leaves == Applied(before.leaves, MapSetAll([], none));
    assert after.contexts == before.contexts["a" := Prepared(before.contexts, target)];
    forall validated | IsValidatedBag(validated, before.leaves, target) ensures TreeOf(after.leaves) != validated
    {
      var listed :| IsFlattening(listed, Defaults(changed), [], DefaultParams)
                    && validated == TreeOf(Projected([], MapSetAll([], listed)));
      StaleValidatedBag("k", Null, listed);
    }
  }

  lemma StaleValidatedBag(field: string, a: Atom, listed: seq<Entry>)
    requires IsFlattening(listed, Node(map[field := Leaf(a)]), [], DefaultParams)
    ensures TreeOf(Projected([], MapSetAll([], listed))) != EMPTY_BAG
  {
    OneFieldListed(field, a, listed);
    var filed := MapSetAll([], listed);
    SetMembers([], listed);
    assert filed != [] && filed[|filed| - 1] in filed;
    TreeReadings(filed, [field]);
    assert At(EMPTY_BAG, [field]) == Absent;
  }

  lemma OneFieldListed(field: string, a: Atom, listed: seq<Entry>)
    requires IsFlattening(listed, Node(map[field := Leaf(a)]), [], DefaultParams)
    ensures listed != [] && forall e | e in listed :: e.path == [field]
  {
    var defaults := Node(map[field := Leaf(a)]);
    OneFieldLeaf(defaults, field);
    assert Entry([] + [field], a, DefaultParams) in listed;
    DefaultsAsPaths(defaults, listed);
    forall e | e in listed ensures e.path == [field]
    {
      var p := e.path;
      assert At(defaults, p).Terminal?;
      assert p == [p[0]] + p[1..] && At(Leaf(a), p[1..]) != Absent;
    }
  }

  // ----- Sequences of swaps -----

  ghost predicate IsRun(states: seq<State>, targets: seq<Target>, results: seq<SwapResult>)
  {
    && |states| == |targets| + 1 && |results| == |targets|
    && (forall k | 0 <= k < |targets| :: Validated(targets[k].config))
    && (forall k | 0 <= k < |targets| :: Transition(states[k], targets[k], results[k], states[k + 1]))
  }

  function CountSwapped(results: seq<SwapResult>): nat
  {
    if results == [] then 0
    else CountSwapped(results[..|results| - 1]) + if results[|results| - 1].Swapped? then 1 else 0
  }

  /** Through any sequence of swaps, failing or not, the per-turn lookup of the selected entry succeeds. */
  lemma {:induction false} RegistryHoldsSelection(states: seq<State>, targets: seq<Target>, results: seq<SwapResult>,
      k: nat)
    requires IsRun(states, targets, results) && InStep(states[0]) && k < |states|
    ensures InStep(states[k])
  {
    if k > 0 {
      RegistryHoldsSelection(states, targets, results, k - 1);
      SwapKeepsStep(states[k - 1], targets[k - 1], results[k - 1], states[k]);
    }
  }

  /** The revision counts the successful swaps. */
  lemma {:induction false} RevisionCountsSwaps(states: seq<State>, targets: seq<Target>, results: seq<SwapResult>,
      k: nat)
    requires IsRun(states, targets, results) && k < |states|
    ensures states[k].revision == states[0].revision + CountSwapped(results[..k])
  {
    if k > 0 {
      RevisionCountsSwaps(states, targets, results, k - 1);
      assert Transition(states[k - 1], targets[k - 1], results[k - 1], states[k]);
      assert results[..k][..k - 1] == results[..k - 1];
    }
  }

  predicate ModelDeclared(s: State)
  {
    s.selection.modelId in s.selection.config.models
  }

  /** Of the last swap that succeeded: whether the context it prepared declared the target's model. */
  predicate LastSwapDeclares(states: seq<State>, targets: seq<Target>, results: seq<SwapResult>, k: nat)
    requires k <= |results| == |targets| && |states| == |targets| + 1
  {
    if k == 0 then ModelDeclared(states[0])
    else if results[k - 1].Swapped?
      then targets[k - 1].modelId in Prepared(states[k - 1].contexts, targets[k - 1]).config.models
    else LastSwapDeclares(states, targets, results, k - 1)
  }

  /**
   The selected model is declared by the selected configuration exactly when the last success reused a
   context declaring it.
   */
  lemma {:induction false} SelectedModelIsDeclared(states: seq<State>, targets: seq<Target>, results: seq<SwapResult>,
      k: nat)
    requires IsRun(states, targets, results) && k < |states|
    ensures ModelDeclared(states[k]) <==> LastSwapDeclares(states, targets, results, k)
  {
    if k > 0 {
      SelectedModelIsDeclared(states, targets, results, k - 1);
      assert Transition(states[k - 1], targets[k - 1], results[k - 1], states[k]);
    }
  }

  lemma SwapKeepsOverrides(before: State, target: Target, result: SwapResult, after: State)
    requires Transition(before, target, result, after)
    ensures Overrides(after.leaves) == Overrides(before.leaves)
    ensures InStep(before) && Validated(target.config) && Sound(before.leaves) ==> Sound(after.leaves)
  {
    if result.Swapped? {
      var defaults := Defaults(Prepared(before.contexts, target).config);
      var added :| IsFlattening(added, defaults, [], DefaultParams)
        && after.leaves == Applied(before.leaves, MapSetAll([], added));
      AppliedKeepsOverrides(before.leaves, defaults, added);
      if InStep(before) && Validated(target.config) && Sound(before.leaves) {
        AppliedIsSound(before.leaves, defaults, added);
      }
    }
  }

  /**
   No sequence of swaps changes a runtime override, not its value, its layer or its place, or leaves
   the store unsound.
   */
  lemma {:induction false} OverridesSurviveSwaps(states: seq<State>, targets: seq<Target>, results: seq<SwapResult>,
      k: nat)
    requires IsRun(states, targets, results) && k < |states|
    ensures Overrides(states[k].leaves) == Overrides(states[0].leaves)
    ensures InStep(states[0]) && Sound(states[0].leaves) ==> Sound(states[k].leaves)
  {
    if k > 0 {
      OverridesSurviveSwaps(states, targets, results, k - 1);
      if InStep(states[0]) { RegistryHoldsSelection(states, targets, results, k - 1); }
      assert Validated(targets[k - 1].config) && Transition(states[k - 1], targets[k - 1], results[k - 1], states[k]);
      SwapKeepsOverrides(states[k - 1], targets[k - 1], results[k - 1], states[k]);
    }
  }

  /**
   Some success in the sequence: the store is what the first one had with the defaults of the selected
   configuration.
   */
  lemma {:induction false} DefaultsComeFromSelection(states: seq<State>, targets: seq<Target>,
      results: seq<SwapResult>, k: nat)
    requires IsRun(states, targets, results) && k < |states| && CountSwapped(results[..k]) > 0
    ensures exists added :: IsFlattening(added, Defaults(states[k].selection.config), [], DefaultParams)
                            && states[k].leaves == Applied(states[0].leaves, MapSetAll([], added))
  {
    var before, target := states[k - 1], targets[k - 1];
    assert Transition(before, target, results[k - 1], states[k]);
    assert results[..k][..k - 1] == results[..k - 1];
    if results[k - 1].Swapped? {
      OverridesSurviveSwaps(states, targets, results, k - 1);
      var added :| IsFlattening(added, Defaults(Prepared(before.contexts, target).config), [], DefaultParams)
                   && states[k].leaves == Applied(before.leaves, MapSetAll([], added));
      assert states[k].leaves == Applied(states[0].leaves, MapSetAll([], added));
    } else {
      DefaultsComeFromSelection(states, targets, results, k - 1);
    }
  }
}
