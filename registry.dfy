/**
 * The session registry of PluginModel.py: `PluginModelFactory`, which holds
 * the entry points of the loaded module, hands out model ids and keeps the
 * id -> native handle dictionary, and `PluginModel`, one session with its
 * own parameter values.
 *
 * The native entry points are foreign code. A loaded module is described by
 * which of them it exports (`Exports`) and what its descriptor holds; what a
 * native call returns is a parameter of the method that makes the call, and
 * every native call made is appended to the factory's `calls` log.
 */
module Registry {
  import opened Results
  import opened Wire
  import opened Protocol
  import opened Metadata
  import opened Store
  import opened Encoder

  /** A `c_void_p` returned by the native `create_model`: an address, or NULL. */
  type Handle = Option<nat>

  /** Where an optional entry point comes from: the module, or the host's Python fallback. */
  datatype EntryPoint = Exported | Fallback

  /** The five native calculations. */
  datatype Calculation = Q | QxQy | QxQyQz | ER | VR

  /** The symbols a module exports, and the descriptor its `get_model_info` points to. */
  datatype Exports = Exports(
    getModelInfo: Option<Descriptor>,
    createModel: bool,
    destroyModel: bool,
    calculateQ: bool,
    calculateQxQy: bool,
    calculateQxQyQz: bool,
    calculateER: bool,
    calculateVR: bool)

  /**
   * The entry points after a successful `load`. `calculate_ER` and
   * `calculate_VR` have no fallback, so they are always the module's own.
   */
  datatype Library = Library(
    descriptor: Descriptor,
    create: EntryPoint,
    destroy: EntryPoint,
    q: EntryPoint,
    qxqy: EntryPoint,
    qxqyqz: EntryPoint)
  {
    function Entry(c: Calculation): EntryPoint
    {
      match c
      case Q => q
      case QxQy => qxqy
      case QxQyQz => qxqyqz
      case ER => Exported
      case VR => Exported
    }
  }

  /** A call into the native module, as the host makes it. */
  datatype NativeCall =
    | GetModelInfoCall
    | CreateCall(data: Option<nat>)
    | DestroyCall(handle: Handle)
    | CalculateCall(what: Calculation, handle: Handle, parameters: seq<byte>, n: nat, inputs: seq<seq<Double>>)

  /** What the factory raises. */
  datatype FactoryError =
    | NotLoaded                        // the entry point is None: `raise Exception()`, or a call of None
    | MissingSymbol(symbol: string)    // `load`: a required export is absent
    | VersionMismatch(version: nat)    // `get_model_info`: a descriptor of another version
    | UnknownModel                     // ValueError('model.id'): the id is not registered
    | Detached                         // the session's fields were cleared (an attribute of None)
    | EncodeFailed(cause: EncodeError) // `_get_cparameters` raised
    | LengthMismatch                   // the coordinate lists differ in length
    | NativeRaised                     // the native create or destroy raised

  // ---------------------------------------------------------------------
  // Pure parts: symbol resolution, the guards of the entry points, outputs.

  function EntryOf(exported: bool): EntryPoint
  {
    if exported then Exported else Fallback
  }

  /**
   * `load`'s symbol resolution: `get_model_info`, `calculate_ER` and
   * `calculate_VR` are required, in that order; the others fall back to the
   * host's defaults.
   */
  function Resolve(x: Exports): (r: Result<Library, FactoryError>)
  {
    if x.getModelInfo.None? then Err(MissingSymbol("get_model_info"))
    else if !x.calculateER then Err(MissingSymbol("calculate_ER"))
    else if !x.calculateVR then Err(MissingSymbol("calculate_VR"))
    else Ok(Library(x.getModelInfo.value, EntryOf(x.createModel), EntryOf(x.destroyModel),
      EntryOf(x.calculateQ), EntryOf(x.calculateQxQy), EntryOf(x.calculateQxQyQz)))
  }

  /** A module loads exactly when it exports the three required symbols; each other entry point is the module's own when exported. */
  lemma ResolveRule(x: Exports)
    ensures Resolve(x).Ok? <==> x.getModelInfo.Some? && x.calculateER && x.calculateVR
    ensures Resolve(x).Ok? ==> Resolve(x).value.descriptor == x.getModelInfo.value
    ensures Resolve(x).Ok? ==>
      (Resolve(x).value.create == Exported <==> x.createModel) &&
      (Resolve(x).value.destroy == Exported <==> x.destroyModel) &&
      (Resolve(x).value.q == Exported <==> x.calculateQ) &&
      (Resolve(x).value.qxqy == Exported <==> x.calculateQxQy) &&
      (Resolve(x).value.qxqyqz == Exported <==> x.calculateQxQyQz)
    ensures Resolve(x).Err? ==> Resolve(x).error.MissingSymbol?
  {
  }

  /**
   * The guard every session operation starts with: the id must be registered
   * (`model.id in self._created_models`, and a cleared id None never is),
   * then the entry point must be set. On success, the registered handle.
   */
  function Guard(models: map<nat, Handle>, lib: Option<Library>, id: Option<nat>): (r: Result<Handle, FactoryError>)
    ensures r.Ok? <==> id.Some? && id.value in models && lib.Some?
    ensures r.Ok? ==> r.value == models[id.value]
    ensures (id.None? || id.value !in models) ==> r == Err(UnknownModel)
  {
    if id.None? || id.value !in models then Err(UnknownModel)
    else if lib.None? then Err(NotLoaded)
    else Ok(models[id.value])
  }

  /** All coordinate lists are given. */
  predicate AllPresent(inputs: seq<Option<seq<Double>>>)
  {
    forall i | 0 <= i < |inputs| :: inputs[i].Some?
  }

  /**
   * The count passed to the native calculation: 0 when any coordinate list
   * is None, the common length when all are given and agree, and a raised
   * exception when a list's length differs from the first one's.
   */
  function Points(inputs: seq<Option<seq<Double>>>): (r: Result<nat, FactoryError>)
    requires |inputs| >= 1
  {
    if !AllPresent(inputs) then Ok(0)
    else if exists i | 0 <= i < |inputs| :: |inputs[i].value| != |inputs[0].value| then Err(LengthMismatch)
    else Ok(|inputs[0].value|)
  }

  /** The coordinate buffers handed to the native calculation: none when a list is absent. */
  function Buffers(inputs: seq<Option<seq<Double>>>): (r: seq<seq<Double>>)
    ensures AllPresent(inputs) ==> |r| == |inputs| && forall i | 0 <= i < |r| :: Some(r[i]) == inputs[i]
    ensures !AllPresent(inputs) ==> r == []
  {
    if AllPresent(inputs) then seq(|inputs|, i requires 0 <= i < |inputs| => inputs[i].value) else []
  }

  /** The count rule, both ways: an absent list means a zero count; otherwise the lengths must all agree. */
  lemma {:induction false} PointsRule(inputs: seq<Option<seq<Double>>>)
    requires |inputs| >= 1
    ensures !AllPresent(inputs) ==> Points(inputs) == Ok(0) && Buffers(inputs) == []
    ensures AllPresent(inputs) ==>
      (Points(inputs) == Err(LengthMismatch) <==> exists i | 0 <= i < |inputs| :: |inputs[i].value| != |inputs[0].value|)
    ensures Points(inputs).Ok? && AllPresent(inputs) ==>
      forall i | 0 <= i < |inputs| :: |Buffers(inputs)[i]| == Points(inputs).value
  {
    if Points(inputs).Ok? && AllPresent(inputs) {
      forall i | 0 <= i < |inputs|
        ensures |Buffers(inputs)[i]| == Points(inputs).value
      {
        assert Some(Buffers(inputs)[i]) == inputs[i];
      }
    }
  }

  /**
   * The result list: the n doubles of `iq_data`, a zero-filled ctypes array.
   * The module's routine stores `written` into it (slot k keeps 0.0 when it
   * wrote fewer); the Python fallback fills every slot with NaN.
   */
  function Output(entry: EntryPoint, n: nat, written: seq<Double>): (r: seq<Double>)
    ensures |r| == n
    ensures entry == Fallback ==> forall k | 0 <= k < n :: r[k] == NAN
    ensures entry == Exported ==> forall k | 0 <= k < n :: r[k] == (if k < |written| then written[k] else 0)
  {
    if entry == Fallback then seq(n, _ => NAN)
    else seq(n, k requires 0 <= k < n => if k < |written| then written[k] else 0)
  }

  /** The native calls a calculation makes: one to the module's routine, none to the fallback. */
  function CallsFor(entry: EntryPoint, call: NativeCall): seq<NativeCall>
  {
    if entry == Exported then [call] else []
  }

  /**
   * One list-valued calculation (`calculate_q`, `calculate_qxqy`,
   * `calculate_qxqyqz`) as the factory performs it: the result and the
   * native calls made.
   */
  function Calculate(lib: Option<Library>, models: map<nat, Handle>, id: Option<nat>, encoded: Option<Result<seq<byte>, EncodeError>>,
                     what: Calculation, inputs: seq<Option<seq<Double>>>, written: seq<Double>): (Result<seq<Double>, FactoryError>, seq<NativeCall>)
    requires |inputs| >= 1
  {
    var g := Guard(models, lib, id);
    if g.Err? then (Err(g.error), [])
    else if encoded.None? then (Err(Detached), [])
    else if encoded.value.Err? then (Err(EncodeFailed(encoded.value.error)), [])
    else
      var entry := lib.value.Entry(what);
      match Points(inputs)
      case Err(e) => (Err(e), [])
      case Ok(n) =>
        (Ok(Output(entry, n, written)), CallsFor(entry, CalculateCall(what, g.value, encoded.value.value, n, Buffers(inputs))))
  }

  /**
   * What a list-valued calculation promises: an unregistered id raises
   * ValueError and calls nothing; an absent list makes one zero-count call
   * and returns []; unequal lengths raise and call nothing; otherwise the
   * result has the lists' common length and the call is made with it.
   */
  lemma {:induction false} CalculateRule(lib: Option<Library>, models: map<nat, Handle>, id: Option<nat>, encoded: Option<Result<seq<byte>, EncodeError>>,
                                         what: Calculation, inputs: seq<Option<seq<Double>>>, written: seq<Double>)
    requires |inputs| >= 1
    ensures id.None? || id.value !in models ==>
      Calculate(lib, models, id, encoded, what, inputs, written) == (Err(UnknownModel), [])
    ensures Guard(models, lib, id).Ok? && encoded.Some? && encoded.value.Ok? && !AllPresent(inputs) ==>
      Calculate(lib, models, id, encoded, what, inputs, written) ==
        (Ok([]), CallsFor(lib.value.Entry(what), CalculateCall(what, models[id.value], encoded.value.value, 0, [])))
    ensures AllPresent(inputs) && (exists i | 0 <= i < |inputs| :: |inputs[i].value| != |inputs[0].value|) ==>
      Calculate(lib, models, id, encoded, what, inputs, written).0.Err? &&
      Calculate(lib, models, id, encoded, what, inputs, written).1 == []
    ensures AllPresent(inputs) && Calculate(lib, models, id, encoded, what, inputs, written).0.Ok? ==>
      |Calculate(lib, models, id, encoded, what, inputs, written).0.value| == |inputs[0].value|
  {
    PointsRule(inputs);
  }

  /** A registered model's calculation never finds its entry point unset while the factory's invariant holds. */
  lemma RegisteredIsLoaded(models: map<nat, Handle>, lib: Option<Library>, id: nat)
    requires models != map[] ==> lib.Some?
    requires id in models
    ensures Guard(models, lib, Some(id)) == Ok(models[id])
  {
  }

  /**
   * The buffer `_get_cparameters` builds for a session; None when it reads an
   * attribute of None. The values are read only inside the loops over the
   * model's parameters, so a model without parameters needs none.
   */
  function EncodedOf(p: Platform, model: PluginModel): Option<Result<seq<byte>, EncodeError>>
    reads model, model.parameters
  {
    if model.modelInfo.None? then None
    else if model.parameters == null then
      if model.modelInfo.value.parameters == [] then Some(Encode(p, [], map[])) else None
    else Some(Encode(p, model.modelInfo.value.parameters, model.parameters.entries))
  }

  /** A session of a model without parameters always gets a buffer, whatever its values field holds. */
  lemma {:induction false} NoParametersEncode(p: Platform, model: PluginModel)
    requires model.modelInfo.Some? && model.modelInfo.value.parameters == []
    ensures EncodedOf(p, model).Some? && EncodedOf(p, model).value.Ok?
  {
    var store := if model.parameters == null then map[] else model.parameters.entries;
    EmptyEncodes(p, store);
  }

  /**
   * The native calls of `unload`: one destroy per registered handle, in the
   * dictionary's iteration order `order` (a listing of its keys).
   */
  function DestroyCalls(models: map<nat, Handle>, order: seq<nat>): (r: seq<NativeCall>)
    ensures |r| == |order|
  {
    if order == [] then []
    else
      var id := order[|order| - 1];
      DestroyCalls(models, order[..|order| - 1]) + [DestroyCall(if id in models then models[id] else None)]
  }

  /** Unload's destroy calls pass each registered handle, once per id. */
  lemma {:induction false} DestroyCallsHandles(models: map<nat, Handle>, order: seq<nat>, k: nat)
    requires k < |order| && order[k] in models
    ensures DestroyCalls(models, order)[k] == DestroyCall(models[order[k]])
  {
    if k < |order| - 1 {
      var front := order[..|order| - 1];
      assert front[k] == order[k];
      DestroyCallsHandles(models, front, k);
    }
  }

  // ---------------------------------------------------------------------
  // The factory and its sessions.

  class PluginModelFactory {
    /** The path of the open module; None when none is open. */
    var path: Option<string>
    /** The entry points; None before `load`, after `unload` and after a failed `load`. */
    var lib: Option<Library>
    /** `_next_model_id`: the id the next session gets. */
    var nextModelId: nat
    /** `_created_models`: id -> native handle of every live session. */
    var createdModels: map<nat, Handle>
    /** Every native call made so far, in order. */
    var calls: seq<NativeCall>

    /**
     * The factory's invariant: ids handed out so far are 1 .. nextModelId-1,
     * every registered id is one of them, and a session can only be
     * registered while a module is loaded.
     */
    predicate Valid()
      reads this
    {
      IdsIssued() &&
      (path.Some? <==> lib.Some?) &&
      (createdModels != map[] ==> lib.Some?)
    }

    /** Every registered id was handed out before: it is at least 1 and below the counter. */
    predicate IdsIssued()
      reads this
    {
      nextModelId >= 1 && forall id | id in createdModels :: 1 <= id < nextModelId
    }

    /** `__init__` without a path: nothing loaded, ids start at 1. */
    constructor ()
      ensures Valid()
      ensures path.None? && lib.None? && nextModelId == 1 && createdModels == map[] && calls == []
    {
      path := None;
      lib := None;
      nextModelId := 1;
      createdModels := map[];
      calls := [];
    }

    /**
     * `unload`: destroy every registered handle through the destroy entry
     * point (the fallback destroy does nothing), empty the dictionary, clear
     * every entry point and close the module. The id counter is kept, so ids
     * are never reused across loads.
     */
    method Unload() returns (ghost order: seq<nat>)
      requires IdsIssued()
      modifies this
      ensures Valid()
      ensures multiset(order) == multiset(old(createdModels).Keys)
      ensures old(lib).Some? && old(lib).value.destroy == Exported ==>
        calls == old(calls) + DestroyCalls(old(createdModels), order)
      ensures !(old(lib).Some? && old(lib).value.destroy == Exported) ==> calls == old(calls)
      ensures createdModels == map[] && lib.None? && path.None?
      ensures nextModelId == old(nextModelId)
    {
      var keys := createdModels.Keys;
      order := [];
      var native := lib.Some? && lib.value.destroy == Exported;
      while keys != {}
        invariant keys <= createdModels.Keys
        invariant multiset(order) + multiset(keys) == multiset(createdModels.Keys)
        invariant native ==> calls == old(calls) + DestroyCalls(createdModels, order)
        invariant !native ==> calls == old(calls)
        invariant createdModels == old(createdModels) && nextModelId == old(nextModelId)
        decreases |keys|
      {
        var id :| id in keys;
        if native {
          calls := calls + [DestroyCall(createdModels[id])];
        }
        assert (order + [id])[..|order|] == order;
        order := order + [id];
        assert multiset(keys) == multiset(keys - {id}) + multiset{id};
        keys := keys - {id};
      }
      createdModels := map[];
      lib := None;
      path := None;
    }

    /**
     * `load`: unload an open module, then open the new one and resolve its
     * symbols; a missing required symbol unloads again and raises. The
     * dictionary starts empty either way.
     */
    method Load(newPath: string, x: Exports) returns (r: Outcome<FactoryError>, ghost order: seq<nat>)
      requires Valid()
      modifies this
      ensures Valid()
      ensures multiset(order) == multiset(old(createdModels).Keys)
      ensures old(lib).Some? && old(lib).value.destroy == Exported ==>
        calls == old(calls) + DestroyCalls(old(createdModels), order)
      ensures !(old(lib).Some? && old(lib).value.destroy == Exported) ==> calls == old(calls)
      ensures r.Pass? <==> Resolve(x).Ok?
      ensures r.Pass? ==> lib == Some(Resolve(x).value) && path == Some(newPath)
      ensures r.Fail? ==> r.error == Resolve(x).error && lib.None? && path.None?
      ensures createdModels == map[] && nextModelId == old(nextModelId)
    {
      order := [];
      if path.Some? {
        order := Unload();
      }
      createdModels := map[];
      path := Some(newPath);
      var resolved := Resolve(x);
      if resolved.Err? {
        ghost var none := Unload();
        return Fail(resolved.error), order;
      }
      lib := Some(resolved.value);
      return Pass, order;
    }

    /**
     * `get_model_info`: call the module's `get_model_info` and copy the
     * descriptor it points to after the version check.
     */
    method GetModelInfo() returns (r: Result<ModelInfo, FactoryError>)
      modifies this
      ensures lib.None? ==> r == Err(NotLoaded) && calls == old(calls)
      ensures lib.Some? ==> calls == old(calls) + [GetModelInfoCall]
      ensures lib == old(lib) && path == old(path) && nextModelId == old(nextModelId) && createdModels == old(createdModels)
      ensures lib.Some? ==> (r.Err? <==> lib.value.descriptor.version != API_VERSION)
      ensures lib.Some? && r.Err? ==> r.error == FactoryError.VersionMismatch(lib.value.descriptor.version)
      ensures r.Ok? ==> lib.Some? && r.value.parameters == lib.value.descriptor.parameters
      ensures r.Ok? ==> r.value.name == lib.value.descriptor.name && r.value.description == lib.value.descriptor.description
    {
      if lib.None? {
        return Err(NotLoaded);
      }
      calls := calls + [GetModelInfoCall];
      var info := Metadata.GetModelInfo(lib.value.descriptor);
      if info.Err? {
        return Err(FactoryError.VersionMismatch(info.error.version));
      }
      return Ok(info.value);
    }

    /**
     * `create_model`: take the next id, register the handle the create entry
     * point returns (NULL from the fallback), then read the model information
     * and build the session with its default values. The id is taken before
     * the native call, so a native create that raises (`createRaised`) uses up
     * the id and registers nothing; the id is registered before the version
     * check, so a version mismatch leaves the handle registered.
     */
    method CreateModel(data: Option<nat>, created: Handle, createRaised: bool) returns (r: Result<PluginModel, FactoryError>)
      requires Valid()
      modifies this
      ensures Valid()
      ensures old(lib).None? ==>
        r == Err(NotLoaded) && createdModels == old(createdModels) && nextModelId == old(nextModelId) && calls == old(calls)
      ensures old(lib).Some? ==> old(nextModelId) !in old(createdModels) && nextModelId == old(nextModelId) + 1
      ensures old(lib).Some? && old(lib).value.create == Exported && createRaised ==>
        r == Err(NativeRaised) && createdModels == old(createdModels) && calls == old(calls) + [CreateCall(data)]
      ensures old(lib).Some? && old(lib).value.create == Exported && !createRaised ==>
        createdModels == old(createdModels)[old(nextModelId) := created] &&
        calls == old(calls) + [CreateCall(data), GetModelInfoCall]
      ensures old(lib).Some? && old(lib).value.create == Fallback ==>
        createdModels == old(createdModels)[old(nextModelId) := None] && calls == old(calls) + [GetModelInfoCall]
      ensures old(lib).Some? && !(old(lib).value.create == Exported && createRaised) ==>
        (r.Err? <==> old(lib).value.descriptor.version != API_VERSION)
      ensures old(lib).Some? && !(old(lib).value.create == Exported && createRaised) && r.Err? ==>
        r.error == FactoryError.VersionMismatch(old(lib).value.descriptor.version)
      ensures r.Ok? ==> fresh(r.value) && fresh(r.value.parameters)
      ensures r.Ok? ==> r.value.factory == this && r.value.id == Some(old(nextModelId))
      ensures r.Ok? ==>
        var info := r.value.GetModelInfo();
        var d := old(lib).value.descriptor;
        info.Some? && info.value.name == d.name && info.value.description == d.description && info.value.parameters == d.parameters
      ensures r.Ok? ==> r.value.parameters != null && r.value.parameters.entries == DefaultParameters(old(lib).value.descriptor.parameters)
      ensures lib == old(lib) && path == old(path)
    {
      if lib.None? {
        return Err(NotLoaded);
      }

      // the id is used up even if the native create raises
      var currentId := nextModelId;
      nextModelId := nextModelId + 1;

      // the native handle, or None when the library has no create entry point
      var handle: Handle := None;
      if lib.value.create == Exported {
        calls := calls + [CreateCall(data)];
        if createRaised {
          return Err(NativeRaised);
        }
        handle := created;
      }
      createdModels := createdModels[currentId := handle];

      var info := GetModelInfo();
      if info.Err? {
        return Err(info.error);
      }
      var defaults := new ParameterCollection(DefaultParameters(info.value.parameters));
      var model := new PluginModel(this, currentId, info.value, defaults);
      return Ok(model);
    }

    /**
     * `destroy_model`: an unregistered id raises ValueError and changes
     * nothing. Otherwise the handle goes to the destroy entry point and,
     * whether or not that raises, the entry is removed and the session's
     * id, factory, model information and values are cleared.
     */
    method DestroyModel(model: PluginModel, raised: bool) returns (r: Outcome<FactoryError>)
      requires Valid()
      modifies this, model
      ensures Valid()
      ensures Guard(old(createdModels), old(lib), old(model.id)).Err? ==>
        r == Fail(Guard(old(createdModels), old(lib), old(model.id)).error) &&
        createdModels == old(createdModels) && calls == old(calls) &&
        model.id == old(model.id) && model.factory == old(model.factory) &&
        model.modelInfo == old(model.modelInfo) && model.parameters == old(model.parameters)
      ensures Guard(old(createdModels), old(lib), old(model.id)).Ok? ==>
        var id := old(model.id).value;
        var native := old(lib).value.destroy == Exported;
        createdModels == old(createdModels) - {id} &&
        calls == old(calls) + (if native then [DestroyCall(old(createdModels)[id])] else []) &&
        (r.Fail? <==> native && raised) && (r.Fail? ==> r.error == NativeRaised) &&
        model.id.None? && model.factory == null && model.GetModelInfo().None? && model.parameters == null
      ensures lib == old(lib) && path == old(path) && nextModelId == old(nextModelId)
    {
      var g := Guard(createdModels, lib, model.id);
      if g.Err? {
        return Fail(g.error);
      }
      var id := model.id.value;
      r := Pass;
      if lib.value.destroy == Exported {
        calls := calls + [DestroyCall(g.value)];
        if raised {
          r := Fail(NativeRaised);
        }
      }
      // finally
      createdModels := createdModels - {id};
      model.id := None;
      model.factory := null;
      model.modelInfo := None;
      model.parameters := null;
    }

    /**
     * The parameter buffer of a session, or None when `_get_cparameters`
     * would read an attribute of None: a cleared model information, or
     * cleared values of a model that has parameters.
     */
    method Encoded(p: Platform, model: PluginModel) returns (r: Option<Result<seq<byte>, EncodeError>>)
      ensures r.None? <==> model.modelInfo.None? || (model.parameters == null && model.modelInfo.value.parameters != [])
      ensures model.modelInfo.Some? && model.parameters != null ==>
        r == Some(Encode(p, model.modelInfo.value.parameters, model.parameters.entries))
      ensures model.modelInfo.Some? && model.parameters == null && model.modelInfo.value.parameters == [] ==>
        r == Some(Encode(p, [], map[]))
      ensures r == EncodedOf(p, model)
    {
      if model.modelInfo.None? {
        return None;
      }
      var values := model.parameters;
      if values == null {
        if model.modelInfo.value.parameters != [] {
          return None;
        }
        // no parameter is looked up, so an empty collection stands in for None
        values := new ParameterCollection(map[]);
      }
      var buf := GetCParameters(p, model.modelInfo.value, values);
      return Some(buf);
    }

    /**
     * The shared body of `calculate_q`, `calculate_qxqy` and
     * `calculate_qxqyqz`: guard, encode, count, call. `written` is what the
     * module's routine stores into `iq_data`.
     */
    method CalculateList(p: Platform, model: PluginModel, what: Calculation, inputs: seq<Option<seq<Double>>>, written: seq<Double>)
      returns (r: Result<seq<Double>, FactoryError>)
      requires Valid() && |inputs| >= 1
      modifies this
      ensures Valid()
      ensures (r, calls) == (Calculate(old(lib), old(createdModels), model.id, EncodedOf(p, model), what, inputs, written).0,
                             old(calls) + Calculate(old(lib), old(createdModels), model.id, EncodedOf(p, model), what, inputs, written).1)
      ensures lib == old(lib) && path == old(path) && createdModels == old(createdModels) && nextModelId == old(nextModelId)
    {
      var g := Guard(createdModels, lib, model.id);
      if g.Err? {
        assert calls == old(calls) + [];
        return Err(g.error);
      }
      var cparameters := Encoded(p, model);
      if cparameters.None? {
        return Err(Detached);
      }
      if cparameters.value.Err? {
        return Err(EncodeFailed(cparameters.value.error));
      }
      var entry := lib.value.Entry(what);
      var n := Points(inputs);
      if n.Err? {
        return Err(n.error);
      }
      calls := calls + CallsFor(entry, CalculateCall(what, g.value, cparameters.value.value, n.value, Buffers(inputs)));
      return Ok(Output(entry, n.value, written));
    }

    /** `calculate_q`. */
    method CalculateQ(p: Platform, model: PluginModel, q: Option<seq<Double>>, written: seq<Double>)
      returns (r: Result<seq<Double>, FactoryError>)
      requires Valid()
      modifies this
      ensures Valid()
      ensures (r, calls) == (Calculate(old(lib), old(createdModels), model.id, EncodedOf(p, model), Q, [q], written).0,
                             old(calls) + Calculate(old(lib), old(createdModels), model.id, EncodedOf(p, model), Q, [q], written).1)
      ensures lib == old(lib) && path == old(path) && createdModels == old(createdModels) && nextModelId == old(nextModelId)
    {
      r := CalculateList(p, model, Q, [q], written);
    }

    /** `calculate_qxqy`. */
    method CalculateQxQy(p: Platform, model: PluginModel, qx: Option<seq<Double>>, qy: Option<seq<Double>>, written: seq<Double>)
      returns (r: Result<seq<Double>, FactoryError>)
      requires Valid()
      modifies this
      ensures Valid()
      ensures (r, calls) == (Calculate(old(lib), old(createdModels), model.id, EncodedOf(p, model), QxQy, [qx, qy], written).0,
                             old(calls) + Calculate(old(lib), old(createdModels), model.id, EncodedOf(p, model), QxQy, [qx, qy], written).1)
      ensures lib == old(lib) && path == old(path) && createdModels == old(createdModels) && nextModelId == old(nextModelId)
    {
      r := CalculateList(p, model, QxQy, [qx, qy], written);
    }

    /** `calculate_qxqyqz`. */
    method CalculateQxQyQz(p: Platform, model: PluginModel, qx: Option<seq<Double>>, qy: Option<seq<Double>>, qz: Option<seq<Double>>,
                           written: seq<Double>)
      returns (r: Result<seq<Double>, FactoryError>)
      requires Valid()
      modifies this
      ensures Valid()
      ensures (r, calls) == (Calculate(old(lib), old(createdModels), model.id, EncodedOf(p, model), QxQyQz, [qx, qy, qz], written).0,
                             old(calls) + Calculate(old(lib), old(createdModels), model.id, EncodedOf(p, model), QxQyQz, [qx, qy, qz], written).1)
      ensures lib == old(lib) && path == old(path) && createdModels == old(createdModels) && nextModelId == old(nextModelId)
    {
      r := CalculateList(p, model, QxQyQz, [qx, qy, qz], written);
    }

    /**
     * `calculate_ER` and `calculate_VR`: guard, encode, then one native call
     * whose double (`result`) is returned as it is.
     */
    method CalculateScalar(p: Platform, model: PluginModel, what: Calculation, result: Double)
      returns (r: Result<Double, FactoryError>)
      requires Valid() && (what == ER || what == VR)
      modifies this
      ensures Valid()
      ensures Guard(old(createdModels), old(lib), model.id).Err? ==>
        r == Err(Guard(old(createdModels), old(lib), model.id).error) && calls == old(calls)
      ensures Guard(old(createdModels), old(lib), model.id).Ok? && EncodedOf(p, model).None? ==>
        r == Err(Detached) && calls == old(calls)
      ensures Guard(old(createdModels), old(lib), model.id).Ok? && EncodedOf(p, model).Some? && EncodedOf(p, model).value.Err? ==>
        r == Err(EncodeFailed(EncodedOf(p, model).value.error)) && calls == old(calls)
      ensures Guard(old(createdModels), old(lib), model.id).Ok? && EncodedOf(p, model).Some? && EncodedOf(p, model).value.Ok? ==>
        r == Ok(result) &&
        calls == old(calls) + [CalculateCall(what, old(createdModels)[model.id.value], EncodedOf(p, model).value.value, 0, [])]
      ensures lib == old(lib) && path == old(path) && createdModels == old(createdModels) && nextModelId == old(nextModelId)
    {
      var g := Guard(createdModels, lib, model.id);
      if g.Err? {
        return Err(g.error);
      }
      var cparameters := Encoded(p, model);
      if cparameters.None? {
        return Err(Detached);
      }
      if cparameters.value.Err? {
        return Err(EncodeFailed(cparameters.value.error));
      }
      calls := calls + [CalculateCall(what, g.value, cparameters.value.value, 0, [])];
      return Ok(result);
    }
  }

  /** One session: the factory that made it, its id, the model information and its own values. */
  class PluginModel {
    var factory: PluginModelFactory?
    var id: Option<nat>
    var modelInfo: Option<ModelInfo>
    var parameters: ParameterCollection?

    constructor (factory: PluginModelFactory, id: nat, info: ModelInfo, parameters: ParameterCollection)
      ensures this.factory == factory && this.id == Some(id) && modelInfo == Some(info) && this.parameters == parameters
    {
      this.factory := factory;
      this.id := Some(id);
      modelInfo := Some(info);
      this.parameters := parameters;
    }

    /** `get_model_info`: the model information the session was created with. */
    function GetModelInfo(): (r: Option<ModelInfo>)
      reads this
      ensures r == modelInfo
    {
      modelInfo
    }

    /** `destroy`: hand this session to its factory; a cleared session has no factory to ask. */
    method Destroy(raised: bool) returns (r: Outcome<FactoryError>)
      requires factory != null ==> factory.Valid()
      modifies this, factory
      ensures old(factory) == null ==>
        r == Fail(Detached) && id == old(id) && modelInfo == old(modelInfo) && parameters == old(parameters)
      ensures old(factory) != null ==> old(factory).Valid()
      ensures old(factory) != null && Guard(old(factory.createdModels), old(factory.lib), old(id)).Err? ==>
        r == Fail(Guard(old(factory.createdModels), old(factory.lib), old(id)).error) &&
        old(factory).createdModels == old(factory.createdModels) && old(factory).calls == old(factory.calls) &&
        id == old(id) && factory == old(factory) && modelInfo == old(modelInfo) && parameters == old(parameters)
      ensures old(factory) != null && Guard(old(factory.createdModels), old(factory.lib), old(id)).Ok? ==>
        var native := old(factory.lib).value.destroy == Exported;
        old(factory).createdModels == old(factory.createdModels) - {old(id).value} &&
        old(factory).calls == old(factory.calls) + (if native then [DestroyCall(old(factory.createdModels)[old(id).value])] else []) &&
        (r.Fail? <==> native && raised) && (r.Fail? ==> r.error == NativeRaised) &&
        id.None? && factory == null && GetModelInfo().None? && parameters == null
      ensures old(factory) != null ==>
        old(factory).lib == old(factory.lib) && old(factory).path == old(factory.path) &&
        old(factory).nextModelId == old(factory.nextModelId)
    {
      if factory == null {
        return Fail(Detached);
      }
      r := factory.DestroyModel(this, raised);
    }

    /** `calculate_q`, through the session's factory. */
    method CalculateQ(p: Platform, q: Option<seq<Double>>, written: seq<Double>) returns (r: Result<seq<Double>, FactoryError>)
      requires factory != null ==> factory.Valid()
      modifies factory
      ensures old(factory) == null ==> r == Err(Detached)
      ensures old(factory) != null ==> old(factory).Valid()
      ensures old(factory) != null ==>
        (r, old(factory).calls) ==
          (Calculate(old(factory.lib), old(factory.createdModels), id, EncodedOf(p, this), Q, [q], written).0,
           old(factory.calls) + Calculate(old(factory.lib), old(factory.createdModels), id, EncodedOf(p, this), Q, [q], written).1)
      ensures old(factory) != null ==>
        old(factory).lib == old(factory.lib) && old(factory).path == old(factory.path) &&
        old(factory).createdModels == old(factory.createdModels) && old(factory).nextModelId == old(factory.nextModelId)
    {
      if factory == null {
        return Err(Detached);
      }
      r := factory.CalculateQ(p, this, q, written);
    }

    /** `calculate_qxqy`, through the session's factory. */
    method CalculateQxQy(p: Platform, qx: Option<seq<Double>>, qy: Option<seq<Double>>, written: seq<Double>)
      returns (r: Result<seq<Double>, FactoryError>)
      requires factory != null ==> factory.Valid()
      modifies factory
      ensures old(factory) == null ==> r == Err(Detached)
      ensures old(factory) != null ==> old(factory).Valid()
      ensures old(factory) != null ==>
        (r, old(factory).calls) ==
          (Calculate(old(factory.lib), old(factory.createdModels), id, EncodedOf(p, this), QxQy, [qx, qy], written).0,
           old(factory.calls) + Calculate(old(factory.lib), old(factory.createdModels), id, EncodedOf(p, this), QxQy, [qx, qy], written).1)
      ensures old(factory) != null ==>
        old(factory).lib == old(factory.lib) && old(factory).path == old(factory.path) &&
        old(factory).createdModels == old(factory.createdModels) && old(factory).nextModelId == old(factory.nextModelId)
    {
      if factory == null {
        return Err(Detached);
      }
      r := factory.CalculateQxQy(p, this, qx, qy, written);
    }

    /** `calculate_qxqyqz`, through the session's factory. */
    method CalculateQxQyQz(p: Platform, qx: Option<seq<Double>>, qy: Option<seq<Double>>, qz: Option<seq<Double>>, written: seq<Double>)
      returns (r: Result<seq<Double>, FactoryError>)
      requires factory != null ==> factory.Valid()
      modifies factory
      ensures old(factory) == null ==> r == Err(Detached)
      ensures old(factory) != null ==> old(factory).Valid()
      ensures old(factory) != null ==>
        (r, old(factory).calls) ==
          (Calculate(old(factory.lib), old(factory.createdModels), id, EncodedOf(p, this), QxQyQz, [qx, qy, qz], written).0,
           old(factory.calls) + Calculate(old(factory.lib), old(factory.createdModels), id, EncodedOf(p, this), QxQyQz, [qx, qy, qz], written).1)
      ensures old(factory) != null ==>
        old(factory).lib == old(factory.lib) && old(factory).path == old(factory.path) &&
        old(factory).createdModels == old(factory.createdModels) && old(factory).nextModelId == old(factory.nextModelId)
    {
      if factory == null {
        return Err(Detached);
      }
      r := factory.CalculateQxQyQz(p, this, qx, qy, qz, written);
    }

    /** `calculate_ER` (what == ER) and `calculate_VR` (what == VR), through the session's factory. */
    method CalculateScalar(p: Platform, what: Calculation, result: Double) returns (r: Result<Double, FactoryError>)
      requires factory != null ==> factory.Valid()
      requires what == ER || what == VR
      modifies factory
      ensures old(factory) == null ==> r == Err(Detached)
      ensures old(factory) != null ==> old(factory).Valid()
      ensures old(factory) != null && Guard(old(factory.createdModels), old(factory.lib), id).Err? ==>
        r == Err(Guard(old(factory.createdModels), old(factory.lib), id).error) && old(factory).calls == old(factory.calls)
      ensures old(factory) != null && Guard(old(factory.createdModels), old(factory.lib), id).Ok? && EncodedOf(p, this).None? ==>
        r == Err(Detached) && old(factory).calls == old(factory.calls)
      ensures old(factory) != null && Guard(old(factory.createdModels), old(factory.lib), id).Ok? &&
              EncodedOf(p, this).Some? && EncodedOf(p, this).value.Err? ==>
        r == Err(EncodeFailed(EncodedOf(p, this).value.error)) && old(factory).calls == old(factory.calls)
      ensures old(factory) != null && Guard(old(factory.createdModels), old(factory.lib), id).Ok? &&
              EncodedOf(p, this).Some? && EncodedOf(p, this).value.Ok? ==>
        r == Ok(result) &&
        old(factory).calls == old(factory.calls) + [CalculateCall(what, old(factory.createdModels)[id.value], EncodedOf(p, this).value.value, 0, [])]
      ensures old(factory) != null ==>
        old(factory).lib == old(factory.lib) && old(factory).path == old(factory.path) &&
        old(factory).createdModels == old(factory.createdModels) && old(factory).nextModelId == old(factory.nextModelId)
    {
      if factory == null {
        return Err(Detached);
      }
      r := factory.CalculateScalar(p, this, what, result);
    }
  }

  /**
   * A session destroyed once cannot be destroyed again: the first call
   * clears its id, so the second finds it unregistered and raises ValueError.
   */
  method DestroyTwice(f: PluginModelFactory, model: PluginModel, raised: bool) returns (first: Outcome<FactoryError>, second: Outcome<FactoryError>)
    requires f.Valid() && model.id.Some? && model.id.value in f.createdModels
    modifies f, model
    ensures model.id.None? && old(model.id).value !in f.createdModels
    ensures second == Fail(UnknownModel)
    ensures f.createdModels == old(f.createdModels) - {old(model.id).value}
  {
    first := f.DestroyModel(model, raised);
    second := f.DestroyModel(model, raised);
  }
}
