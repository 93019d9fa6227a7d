/**
 * The WebLLM loader: `loadWebLLM` loads one language-model engine, answers
 * callers that arrive during the load once it is done, and caches the engine;
 * `loadLocalWebLLM` picks the models to try and tries them in order;
 * `chatWithModel` fills in the request options.
 *
 * The engine is identified by the model it runs. Whether the module import
 * provides `CreateMLCEngine`, the list of prebuilt models and the outcome of
 * creating an engine for a model are inputs. The awaited load is split into
 * the call that starts it and the event `Settle` that ends it.
 */
module WebLLMLoader {
  import opened Common

  datatype Engine = Engine(modelId: string)

  // ---------------------------------------------------------------------------
  // The loadWebLLM state machine

  /**
   * The module-level state: `isLoading`, `isLoaded`, `engine` and
   * `loadCallbacks` (the callers waiting in the queue). `starter` is the
   * caller whose call started the load in flight; `delivered` and `failed`
   * record which caller's promise resolved with which engine and whose
   * promise rejected.
   */
  datatype LoaderState = LoaderState(
    isLoading: bool,
    isLoaded: bool,
    engine: Option<Engine>,
    callbacks: seq<nat>,
    starter: Option<nat>,
    delivered: seq<(nat, Engine)>,
    failed: seq<nat>)

  /** A call of `load` by a caller, or the end of the load in flight (None: it threw). */
  datatype LoaderEvent = Call(caller: nat) | Settle(outcome: Option<Engine>)

  const Initial := LoaderState(false, false, None, [], None, [], [])

  /** A loaded engine is never loading and leaves no one waiting; a load in flight has a starter. */
  ghost predicate Inv(s: LoaderState) {
    (s.isLoaded ==> s.engine.Some? && !s.isLoading && s.callbacks == []) &&
    (s.isLoading <==> s.starter.Some?)
  }

  /** Each waiting caller paired with the engine. */
  function Deliver(callers: seq<nat>, e: Engine): (r: seq<(nat, Engine)>)
    ensures |r| == |callers|
    ensures forall i :: 0 <= i < |r| ==> r[i] == (callers[i], e)
  {
    if callers == [] then [] else [(callers[0], e)] + Deliver(callers[1..], e)
  }

  /**
   * One event. A call returns the cached engine once loaded, joins the
   * queue while a load is in flight, and starts a load otherwise. A
   * successful load resolves the queue, then the starter, and empties the
   * queue; a failed one rejects the starter only and keeps the queue.
   */
  function Step(s: LoaderState, ev: LoaderEvent): (r: LoaderState)
    requires Inv(s)
    ensures Inv(r)
  {
    match ev
    case Call(c) =>
      if s.isLoaded then s.(delivered := s.delivered + [(c, s.engine.value)])
      else if s.isLoading then s.(callbacks := s.callbacks + [c])
      else s.(isLoading := true, starter := Some(c))
    case Settle(outcome) =>
      if !s.isLoading then s
      else match outcome
        case Some(e) =>
          s.(isLoading := false, isLoaded := true, engine := Some(e), callbacks := [], starter := None,
             delivered := s.delivered + Deliver(s.callbacks, e) + [(s.starter.value, e)])
        case None =>
          s.(isLoading := false, isLoaded := false, starter := None, failed := s.failed + [s.starter.value])
  }

  function Run(s: LoaderState, evs: seq<LoaderEvent>): (r: LoaderState)
    requires Inv(s)
    ensures Inv(r)
    decreases |evs|
  {
    if evs == [] then s else Run(Step(s, evs[0]), evs[1..])
  }

  lemma InitialInv()
    ensures Inv(Initial)
  {
  }

  /**
   * Once loaded, nothing loads again: the engine stays, no load starts and
   * every later call is answered with the cached engine.
   */
  lemma {:induction false} LoadedIsFinal(s: LoaderState, evs: seq<LoaderEvent>)
    requires Inv(s) && s.isLoaded
    ensures var r := Run(s, evs);
      r.isLoaded && !r.isLoading && r.engine == s.engine && r.failed == s.failed &&
      |r.delivered| >= |s.delivered| && r.delivered[..|s.delivered|] == s.delivered &&
      forall i :: |s.delivered| <= i < |r.delivered| ==> r.delivered[i].1 == s.engine.value
    decreases |evs|
  {
    if evs != [] {
      var s1 := Step(s, evs[0]);
      LoadedIsFinal(s1, evs[1..]);
      var r := Run(s1, evs[1..]);
      assert r.delivered[..|s.delivered|] == r.delivered[..|s1.delivered|][..|s.delivered|];
    }
  }

  /** A successful load answers every waiting caller and the starter with the same engine. */
  lemma SuccessResolvesEveryWaiter(s: LoaderState, e: Engine)
    requires Inv(s) && s.isLoading
    ensures var r := Step(s, Settle(Some(e)));
      r.isLoaded && r.callbacks == [] && r.engine == Some(e) &&
      (forall c :: c in s.callbacks ==> (c, e) in r.delivered) &&
      (s.starter.value, e) in r.delivered &&
      forall i :: |s.delivered| <= i < |r.delivered| ==> r.delivered[i].1 == e
  {
    var r := Step(s, Settle(Some(e)));
    var d := Deliver(s.callbacks, e);
    forall c | c in s.callbacks
      ensures (c, e) in r.delivered
    {
      var i :| 0 <= i < |s.callbacks| && s.callbacks[i] == c;
      assert r.delivered[|s.delivered| + i] == d[i];
    }
    assert r.delivered[|r.delivered| - 1] == (s.starter.value, e);
  }

  /** A failed load rejects only its starter: the waiting callers stay queued, unanswered. */
  lemma FailureKeepsWaiters(s: LoaderState)
    requires Inv(s) && s.isLoading
    ensures var r := Step(s, Settle(None));
      !r.isLoading && !r.isLoaded && r.callbacks == s.callbacks && r.delivered == s.delivered &&
      r.failed == s.failed + [s.starter.value]
  {
  }

  /**
   * Callers queued behind a load that fails are answered by the next load
   * that succeeds, started by a later call.
   */
  lemma WaitersSurviveFailure(s: LoaderState, later: nat, e: Engine)
    requires Inv(s) && s.isLoading
    ensures var r := Run(s, [Settle(None), Call(later), Settle(Some(e))]);
      r.isLoaded && forall c :: c in s.callbacks ==> (c, e) in r.delivered
  {
    var s1 := Step(s, Settle(None));
    var s2 := Step(s1, Call(later));
    assert s2.isLoading && s2.callbacks == s.callbacks;
    SuccessResolvesEveryWaiter(s2, e);
    var evs := [Settle(None), Call(later), Settle(Some(e))];
    assert evs[1..] == [Call(later), Settle(Some(e))] && evs[1..][1..] == [Settle(Some(e))];
    assert Run(s, evs) == Run(s1, evs[1..]);
    assert Run(s1, evs[1..]) == Run(s2, evs[1..][1..]);
    assert Run(s2, evs[1..][1..]) == Run(Step(s2, Settle(Some(e))), []);
  }

  /** What a call of `load` gives back at once. */
  datatype CallResult = Cached(engine: Engine) | Queued | Started

  /** The loader with its module-level state. */
  class Loader {
    var isLoading: bool
    var isLoaded: bool
    var engine: Option<Engine>
    var loadCallbacks: seq<nat>
    var starter: Option<nat>
    var delivered: seq<(nat, Engine)>
    var failed: seq<nat>

    function State(): LoaderState
      reads this
    {
      LoaderState(isLoading, isLoaded, engine, loadCallbacks, starter, delivered, failed)
    }

    ghost predicate Valid()
      reads this
    {
      Inv(State())
    }

    constructor ()
      ensures State() == Initial && Valid()
    {
      isLoading, isLoaded, engine, loadCallbacks := false, false, None, [];
      starter, delivered, failed := None, [], [];
    }

    /** `loadWebLLM()` called by `caller`, up to its first `await`. */
    method Load(caller: nat) returns (r: CallResult)
      requires Valid()
      modifies this
      ensures Valid() && State() == Step(old(State()), Call(caller))
      ensures r == (if old(isLoaded) then Cached(old(engine).value) else if old(isLoading) then Queued else Started)
    {
      if isLoaded {
        delivered := delivered + [(caller, engine.value)];
        return Cached(engine.value);
      }
      if isLoading {
        loadCallbacks := loadCallbacks + [caller];
        return Queued;
      }
      isLoading := true;
      starter := Some(caller);
      return Started;
    }

    /** The awaited `loadLocalWebLLM` settles: with an engine, or None when it threw. */
    method Settle(outcome: Option<Engine>)
      requires Valid()
      modifies this
      ensures Valid() && State() == Step(old(State()), LoaderEvent.Settle(outcome))
    {
      if !isLoading {
        return;
      }
      if outcome.Some? {
        engine := outcome;
        isLoaded := true;
        delivered := delivered + Deliver(loadCallbacks, outcome.value);
        loadCallbacks := [];
        delivered := delivered + [(starter.value, outcome.value)];
      } else {
        isLoaded := false;
        failed := failed + [starter.value];
      }
      isLoading := false;
      starter := None;
    }
  }

  // ---------------------------------------------------------------------------
  // Model selection

  const PreferredModels := [
    "Phi-3-mini-4k-instruct-q4f16_1-MLC-1k",
    "Phi-3-mini-4k-instruct-q4f32_1-MLC-1k",
    "gemma-2b-it-q4f16_1-MLC-1k",
    "gemma-2b-it-q4f32_1-MLC-1k",
    "Qwen2-0.5B-Instruct-q0f32-MLC",
    "Qwen2-1.5B-Instruct-q4f16_1-MLC"]

  /** The models tried when the prebuilt list is empty. */
  const FallbackModels := [
    "Phi-3-mini-4k-instruct-q4f16_1-MLC-1k",
    "gemma-2b-it-q4f16_1-MLC-1k",
    "Qwen2-0.5B-Instruct-q0f32-MLC"]

  /** The markers of a small model: "1k", "0.5B", "1.1B" or "2b" in its id. */
  predicate SmallModel(id: string) {
    Contains(id, "1k") || Contains(id, "0.5B") || Contains(id, "1.1B") || Contains(id, "2b")
  }

  /** `xs` keeps its order inside `ys`: it is `ys` with some entries left out. */
  predicate SubsequenceOf(xs: seq<string>, ys: seq<string>)
    decreases |ys|
  {
    if xs == [] then true
    else if ys == [] then false
    else if xs[0] == ys[0] then SubsequenceOf(xs[1..], ys[1..])
    else SubsequenceOf(xs, ys[1..])
  }

  /** `ids.filter(id => available.includes(id))` */
  function KeepAvailable(ids: seq<string>, available: seq<string>): (r: seq<string>)
    ensures forall i :: 0 <= i < |r| ==> r[i] in available && r[i] in ids
    ensures forall i :: 0 <= i < |ids| && ids[i] in available ==> ids[i] in r
    ensures SubsequenceOf(r, ids)
  {
    if ids == [] then []
    else if ids[0] in available then [ids[0]] + KeepAvailable(ids[1..], available)
    else
      var r := KeepAvailable(ids[1..], available);
      SkipKeepsSubsequence(r, ids);
      r
  }

  /** `ids.filter(SmallModel)` */
  function KeepSmall(ids: seq<string>): (r: seq<string>)
    ensures forall i :: 0 <= i < |r| ==> SmallModel(r[i]) && r[i] in ids
    ensures forall i :: 0 <= i < |ids| && SmallModel(ids[i]) ==> ids[i] in r
    ensures SubsequenceOf(r, ids)
  {
    if ids == [] then []
    else if SmallModel(ids[0]) then [ids[0]] + KeepSmall(ids[1..])
    else
      var r := KeepSmall(ids[1..]);
      SkipKeepsSubsequence(r, ids);
      r
  }

  /** A subsequence of the tail is a subsequence of the whole. */
  lemma {:induction false} SkipKeepsSubsequence(r: seq<string>, ids: seq<string>)
    requires ids != [] && SubsequenceOf(r, ids[1..])
    ensures SubsequenceOf(r, ids)
    decreases |ids|, 0
  {
    if r != [] && r[0] == ids[0] {
      PrefixDrop(r, ids[1..]);
    }
  }

  /** Dropping the head of a subsequence keeps it a subsequence. */
  lemma {:induction false} PrefixDrop(r: seq<string>, ys: seq<string>)
    requires r != [] && SubsequenceOf(r, ys)
    ensures SubsequenceOf(r[1..], ys)
    decreases |ys|, 1
  {
    if r[0] != ys[0] {
      PrefixDrop(r, ys[1..]);
    }
    if r[1..] != [] {
      SkipKeepsSubsequence(r[1..], ys);
    }
  }

  /** `s.slice(0, n)` */
  function Slice(s: seq<string>, n: nat): (r: seq<string>)
    ensures |r| == if |s| < n then |s| else n
    ensures r == s[..|r|]
  {
    if |s| <= n then s else s[..n]
  }

  /**
   * The models `loadLocalWebLLM` tries: the preferred models the list
   * offers, in preferred order; else up to three small models of the list;
   * else the first three of the list; and a fixed three when the list is
   * empty.
   */
  function SelectModels(available: seq<string>): (r: seq<string>)
    ensures |r| > 0 && |r| <= |PreferredModels|
    ensures available == [] ==> r == FallbackModels
    ensures available != [] ==> forall i :: 0 <= i < |r| ==> r[i] in available
  {
    if |available| > 0 then
      var preferred := KeepAvailable(PreferredModels, available);
      if |preferred| > 0 then
        assert |preferred| <= |PreferredModels| by { SubsequenceLength(preferred, PreferredModels); }
        preferred
      else
        var small := Slice(KeepSmall(available), 3);
        if |small| > 0 then small
        else Slice(available, 3)
    else FallbackModels
  }

  lemma {:induction false} SubsequenceLength(xs: seq<string>, ys: seq<string>)
    requires SubsequenceOf(xs, ys)
    ensures |xs| <= |ys|
    decreases |ys|
  {
    if xs != [] && ys != [] {
      if xs[0] == ys[0] {
        SubsequenceLength(xs[1..], ys[1..]);
      } else {
        SubsequenceLength(xs, ys[1..]);
      }
    }
  }

  /** A preferred model on offer wins: only preferred models are tried, in preferred order. */
  lemma PreferredFirst(available: seq<string>, k: nat)
    requires k < |PreferredModels| && PreferredModels[k] in available
    ensures PreferredModels[k] in SelectModels(available)
    ensures SubsequenceOf(SelectModels(available), PreferredModels)
  {
    assert available != [];
    assert PreferredModels[k] in KeepAvailable(PreferredModels, available);
  }

  /**
   * Without a preferred model on offer, the first small models of the list
   * are tried, at most three of them, in the list's order.
   */
  lemma SmallModelsNext(available: seq<string>, k: nat)
    requires forall m :: m in PreferredModels ==> m !in available
    requires k < |available| && SmallModel(available[k])
    ensures SelectModels(available) == Slice(KeepSmall(available), 3)
    ensures var r := SelectModels(available);
      |r| <= 3 && SubsequenceOf(r, available) && forall i :: 0 <= i < |r| ==> SmallModel(r[i])
  {
    var preferred := KeepAvailable(PreferredModels, available);
    var small := KeepSmall(available);
    assert available[k] in small;
    SliceSubsequence(small, 3);
    SubsequenceTrans(Slice(small, 3), small, available);
  }

  /** With neither preferred nor small models on offer, the first three of the list are tried. */
  lemma FirstThreeLast(available: seq<string>)
    requires available != []
    requires forall m :: m in PreferredModels ==> m !in available
    requires forall i :: 0 <= i < |available| ==> !SmallModel(available[i])
    ensures SelectModels(available) == Slice(available, 3)
  {
    var preferred := KeepAvailable(PreferredModels, available);
    var small := KeepSmall(available);
  }

  lemma {:induction false} SliceSubsequence(s: seq<string>, n: nat)
    ensures SubsequenceOf(Slice(s, n), s)
  {
    PrefixSubsequence(s, |Slice(s, n)|);
  }

  lemma {:induction false} PrefixSubsequence(s: seq<string>, n: nat)
    requires n <= |s|
    ensures SubsequenceOf(s[..n], s)
    decreases n
  {
    if n > 0 {
      PrefixSubsequence(s[1..], n - 1);
      assert s[..n][1..] == s[1..][..n - 1];
    }
  }

  lemma {:induction false} SubsequenceTrans(xs: seq<string>, ys: seq<string>, zs: seq<string>)
    requires SubsequenceOf(xs, ys) && SubsequenceOf(ys, zs)
    ensures SubsequenceOf(xs, zs)
    decreases |zs|
  {
    if xs != [] {
      if ys[0] == zs[0] {
        if xs[0] == ys[0] {
          SubsequenceTrans(xs[1..], ys[1..], zs[1..]);
        } else {
          SubsequenceTrans(xs, ys[1..], zs[1..]);
          SkipKeepsSubsequence(xs, zs);
        }
      } else {
        SubsequenceTrans(xs, ys, zs[1..]);
        SkipKeepsSubsequence(xs, zs);
      }
    }
  }

  // ---------------------------------------------------------------------------
  // Trying the models

  /** What `CreateMLCEngine(modelId, ...)` does: create an engine, or throw with a message. */
  datatype CreateOutcome = Created | CreateFailed(message: string)

  datatype Trial = Loaded(engine: Engine, index: nat) | NoneLoaded(message: string)

  /** `lastError?.message`: the message of the last failure, `undefined` when nothing was tried. */
  function LastErrorText(models: seq<string>, create: string -> CreateOutcome): string {
    if models == [] then "undefined"
    else match create(models[|models| - 1])
      case CreateFailed(m) => m
      case Created => "undefined"
  }

  /** The error thrown when every model failed. */
  function FailureMessage(models: seq<string>, create: string -> CreateOutcome): string {
    "No se pudo cargar ningún modelo disponible. Modelos probados: " + Join(models, ", ") +
    ". Último error: " + LastErrorText(models, create)
  }

  /** The error names every model that was tried. */
  lemma FailureNamesEveryModel(models: seq<string>, create: string -> CreateOutcome, k: nat)
    requires k < |models|
    ensures Contains(FailureMessage(models, create), models[k])
  {
    JoinContainsEach(models, ", ", k);
    ContainsInConcat("No se pudo cargar ningún modelo disponible. Modelos probados: ", Join(models, ", "),
      ". Último error: " + LastErrorText(models, create), models[k]);
    assert FailureMessage(models, create) ==
      "No se pudo cargar ningún modelo disponible. Modelos probados: " + Join(models, ", ") +
      (". Último error: " + LastErrorText(models, create));
  }

  /**
   * The trial loop of `loadLocalWebLLM`: the models in order until one
   * creates an engine; when all fail, the error naming them.
   */
  method TryModels(models: seq<string>, create: string -> CreateOutcome) returns (t: Trial)
    ensures t.Loaded? ==>
      t.index < |models| && create(models[t.index]) == Created && t.engine == Engine(models[t.index]) &&
      forall j :: 0 <= j < t.index ==> create(models[j]).CreateFailed?
    ensures t.NoneLoaded? <==> forall j :: 0 <= j < |models| ==> create(models[j]).CreateFailed?
    ensures t.NoneLoaded? ==> t.message == FailureMessage(models, create)
  {
    var engine: Option<Engine> := None;
    var lastError: Option<string> := None;
    var i := 0;
    while i < |models|
      invariant 0 <= i <= |models|
      invariant forall j :: 0 <= j < i ==> create(models[j]).CreateFailed?
      invariant engine == None
      invariant lastError == (if i == 0 then None else Some(create(models[i - 1]).message))
    {
      var outcome := create(models[i]);
      if outcome.Created? {
        engine := Some(Engine(models[i]));
        return Loaded(engine.value, i);
      }
      lastError := Some(outcome.message);
      i := i + 1;
    }
    var last := if lastError.Some? then lastError.value else "undefined";
    return NoneLoaded("No se pudo cargar ningún modelo disponible. Modelos probados: " + Join(models, ", ") +
      ". Último error: " + last);
  }

  /** How `loadLocalWebLLM` ends. */
  datatype LocalLoad = Ready(engine: Engine) | LoadFailed(message: string)

  const NoCreateMessage := "CreateMLCEngine no encontrado en módulo local"

  /**
   * `loadLocalWebLLM()` after the module import: it fails without
   * `CreateMLCEngine`, and otherwise tries the selected models.
   */
  method LoadLocalWebLLM(hasCreate: bool, available: seq<string>, create: string -> CreateOutcome)
    returns (r: LocalLoad)
    ensures !hasCreate ==> r == LoadFailed(NoCreateMessage)
    ensures r.Ready? ==>
      (hasCreate && r.engine.modelId in SelectModels(available) && create(r.engine.modelId) == Created)
    ensures r.Ready? ==>
      exists i :: 0 <= i < |SelectModels(available)| && SelectModels(available)[i] == r.engine.modelId &&
        forall j :: 0 <= j < i ==> create(SelectModels(available)[j]).CreateFailed?
    ensures hasCreate && r.LoadFailed? ==>
      r.message == FailureMessage(SelectModels(available), create) &&
      forall m :: m in SelectModels(available) ==> create(m).CreateFailed?
  {
    if !hasCreate {
      return LoadFailed(NoCreateMessage);
    }
    var models := SelectModels(available);
    var t := TryModels(models, create);
    if t.Loaded? {
      return Ready(t.engine);
    }
    return LoadFailed(t.message);
  }

  // ---------------------------------------------------------------------------
  // chatWithModel

  datatype ChatMessage = ChatMessage(role: string, content: string)

  /** The option values the model distinguishes. */
  datatype Value = Undefined | Num(n: real) | Text(s: string) | Messages(m: seq<ChatMessage>)

  /** JavaScript truthiness of an option value. */
  predicate TruthyValue(v: Value) {
    match v
    case Undefined => false
    case Num(n) => n != 0.0
    case Text(s) => s != ""
    case Messages(_) => true
  }

  /** `options.name || fallback` */
  function OptionOr(options: map<string, Value>, name: string, fallback: Value): Value {
    if name in options && TruthyValue(options[name]) then options[name] else fallback
  }

  /**
   * The request options: the user message, `temperature` 0.7 and
   * `max_tokens` 512 by `||`, then every caller option spread over them.
   */
  function ChatOptions(message: string, options: map<string, Value>): (r: map<string, Value>)
    ensures r.Keys == options.Keys + {"messages", "temperature", "max_tokens"}
    ensures forall k :: k in options ==> r[k] == options[k]
    ensures "messages" !in options ==> r["messages"] == Messages([ChatMessage("user", message)])
    ensures "temperature" !in options ==> r["temperature"] == Num(0.7)
    ensures "max_tokens" !in options ==> r["max_tokens"] == Num(512.0)
  {
    map["messages" := Messages([ChatMessage("user", message)]),
        "temperature" := OptionOr(options, "temperature", Num(0.7)),
        "max_tokens" := OptionOr(options, "max_tokens", Num(512.0))] + options
  }

  /**
   * The `||` defaults never decide: the spread puts back whatever the caller
   * gave, so a temperature of 0 stays 0, and a caller's `messages` replace
   * the user message.
   */
  lemma CallerOptionsWin(message: string, options: map<string, Value>)
    ensures ChatOptions(message, options)["temperature"] ==
      (if "temperature" in options then options["temperature"] else Num(0.7))
    ensures ChatOptions(message, options)["max_tokens"] ==
      (if "max_tokens" in options then options["max_tokens"] else Num(512.0))
    ensures ChatOptions(message, map["temperature" := Num(0.0)])["temperature"] == Num(0.0)
  {
    var zero := map["temperature" := Num(0.0)];
    assert "temperature" in zero;
  }

  /** What `chatWithModel` sends, or that it throws because no engine is loaded. */
  datatype ChatRequest = NotLoaded | Request(engine: Engine, options: map<string, Value>)

  function ChatWithModel(engine: Option<Engine>, message: string, options: map<string, Value>): (r: ChatRequest)
    ensures r.NotLoaded? <==> engine.None?
    ensures r.Request? ==> r.engine == engine.value && r.options == ChatOptions(message, options)
  {
    match engine
    case None => NotLoaded
    case Some(e) => Request(e, ChatOptions(message, options))
  }
}
