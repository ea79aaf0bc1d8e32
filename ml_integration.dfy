/** Field prediction dispatch of backend/ai/ml_integration.py: the model
    type is resolved, looked up in the registry of the three backends, and
    the chosen backend's predictions are returned.  The backends are stubs
    that return fixed predictions; `uuid.uuid4()` is the parameter `ids`,
    giving the identifier of the k-th prediction, and the `ML_MODEL_TYPE`
    environment variable is the parameter `env` (`None` when unset).  The
    `FieldType` used is the one of backend/shared/types.py. */
module MlIntegration {
  import opened Wrappers
  import opened JobTypes

  /** `ML_MODEL_TYPE`: the environment's value, "local" when unset. */
  function MlModelType(env: Option<string>): (r: string)
    ensures env.None? ==> r == "local"
    ensures env.Some? ==> r == env.value
  {
    if env.Some? then env.value else "local"
  }

  /** `model_type or ML_MODEL_TYPE`: an explicit type that is not `None` and
      not empty wins. */
  function ResolveModelType(modelType: Option<string>, env: Option<string>): (r: string)
    ensures modelType.Some? && modelType.value != [] ==> r == modelType.value
    ensures (modelType.None? || modelType.value == []) ==> r == MlModelType(env)
  {
    if modelType.Some? && modelType.value != [] then modelType.value else MlModelType(env)
  }

  datatype Backend = LocalBackend | OpenAiBackend | AnthropicBackend

  /** `model_registry.get(t)` */
  function Registry(t: string): (r: Option<Backend>)
    ensures r.Some? <==> t == "local" || t == "openai" || t == "anthropic"
    ensures t == "local" <==> r == Some(LocalBackend)
  {
    if t == "local" then Some(LocalBackend)
    else if t == "openai" then Some(OpenAiBackend)
    else if t == "anthropic" then Some(AnthropicBackend)
    else None
  }

  /** The two `ValueError`s: no model type at all, or one the registry does
      not know. */
  datatype DispatchError = EmptyModelType | UnknownModelType(modelType: string)

  /** The two `ValueError`s of `predict_with_ml_model`, or the backend it
      calls. */
  function Dispatch(modelType: Option<string>, env: Option<string>): (r: Result<Backend, DispatchError>)
    ensures r.Ok? <==> Registry(ResolveModelType(modelType, env)).Some?
    ensures r.Ok? ==> r.value == Registry(ResolveModelType(modelType, env)).value
    ensures r == Err(EmptyModelType) <==> ResolveModelType(modelType, env) == []
    ensures r.Err? && r.error.UnknownModelType? ==> r.error.modelType == ResolveModelType(modelType, env)
  {
    var resolved := ResolveModelType(modelType, env);
    if resolved == [] then Err(EmptyModelType)
    else match Registry(resolved)
      case None => Err(UnknownModelType(resolved))
      case Some(b) => Ok(b)
  }

  /** An empty type is reported only when no explicit type is given and
      `ML_MODEL_TYPE` is set to the empty string; with it unset, the
      default "local" backend is used. */
  lemma EmptyTypeOnlyFromEnvironment(modelType: Option<string>, env: Option<string>)
    ensures Dispatch(modelType, env) == Err(EmptyModelType) <==>
              (modelType.None? || modelType.value == []) && env == Some([])
    ensures (modelType.None? || modelType.value == []) && env.None? ==> Dispatch(modelType, env) == Ok(LocalBackend)
  {
  }

  /** A name the registry does not know is refused, whatever the
      environment says. */
  lemma UnknownTypeRefused(t: string, env: Option<string>)
    requires t != [] && t != "local" && t != "openai" && t != "anthropic"
    ensures Dispatch(Some(t), env) == Err(UnknownModelType(t))
  {
  }

  // ---------------------------------------------------------------------------
  // The stub backends

  datatype Position = Position(x: int, y: int, width: int, height: int)

  /** One predicted field, as the dicts the backends return. */
  datatype Prediction = Prediction(id: string, name: string, fieldType: FieldType, value: string,
                                   confidence: real, page: int, position: Position)

  function LocalPredictions(ids: nat -> string): (r: seq<Prediction>)
    ensures |r| == 2
    ensures forall i :: 0 <= i < |r| ==> r[i].id == ids(i) && 0.0 <= r[i].confidence <= 1.0 && r[i].page >= 1
  {
    [ Prediction(ids(0), "Party A", PartyField, "ACME Corporation", 0.85, 1, Position(100, 200, 300, 20)),
      Prediction(ids(1), "Effective Date", DateField, "January 1, 2025", 0.90, 1, Position(100, 300, 200, 20)) ]
  }

  function OpenAiPredictions(ids: nat -> string): (r: seq<Prediction>)
    ensures |r| == 2
    ensures forall i :: 0 <= i < |r| ==> r[i].id == ids(i) && 0.0 <= r[i].confidence <= 1.0 && r[i].page >= 1
  {
    [ Prediction(ids(0), "Party A", PartyField, "ACME Corporation", 0.92, 1, Position(100, 200, 300, 20)),
      Prediction(ids(1), "Party B", PartyField, "XYZ Inc", 0.89, 1, Position(100, 250, 300, 20)) ]
  }

  function AnthropicPredictions(ids: nat -> string): (r: seq<Prediction>)
    ensures |r| == 1
    ensures forall i :: 0 <= i < |r| ==> r[i].id == ids(i) && 0.0 <= r[i].confidence <= 1.0 && r[i].page >= 1
  {
    [ Prediction(ids(0), "Contract Value", AmountField, "$50,000", 0.88, 2, Position(150, 400, 100, 20)) ]
  }

  /** What a backend returns; the text and document type are not looked at
      by any of the stubs. */
  function BackendOutput(b: Backend, ids: nat -> string): (r: seq<Prediction>)
    ensures r != []
    ensures forall i :: 0 <= i < |r| ==> 0.0 <= r[i].confidence <= 1.0 && r[i].page >= 1
    ensures forall i :: 0 <= i < |r| ==> r[i].id == ids(i)
  {
    match b
    case LocalBackend => LocalPredictions(ids)
    case OpenAiBackend => OpenAiPredictions(ids)
    case AnthropicBackend => AnthropicPredictions(ids)
  }

  // ---------------------------------------------------------------------------
  // The loaded local model and predict_with_ml_model

  /** The module state: `_local_model`, `None` until first loaded. */
  class Predictor {
    var localModel: Option<string>

    constructor()
      ensures localModel == None
    {
      localModel := None;
    }

    /** `load_local_model`: the model is loaded on the first call only, and
        every call returns the loaded model. */
    method LoadLocalModel() returns (model: string)
      modifies this
      ensures old(localModel).Some? ==> localModel == old(localModel)
      ensures old(localModel).None? ==> localModel == Some("dummy_model")
      ensures localModel == Some(model)
    {
      if localModel.None? {
        localModel := Some("dummy_model");
      }
      model := localModel.value;
    }

    /** `predict_with_ml_model`: refuse an empty or unknown type, otherwise
        return exactly the chosen backend's output; only the local backend
        loads the model. */
    method PredictWithMlModel(text: string, modelType: Option<string>, documentType: Option<string>,
                              env: Option<string>, ids: nat -> string) returns (r: Result<seq<Prediction>, DispatchError>)
      modifies this
      ensures Dispatch(modelType, env).Err? ==> r == Err(Dispatch(modelType, env).error) && localModel == old(localModel)
      ensures Dispatch(modelType, env).Ok? ==> r == Ok(BackendOutput(Dispatch(modelType, env).value, ids))
      ensures Dispatch(modelType, env) == Ok(LocalBackend) ==>
                localModel == if old(localModel).Some? then old(localModel) else Some("dummy_model")
      ensures Dispatch(modelType, env) != Ok(LocalBackend) ==> localModel == old(localModel)
      ensures old(localModel).Some? ==> localModel == old(localModel)
    {
      var chosen := Dispatch(modelType, env);
      if chosen.Err? {
        return Err(chosen.error);
      }
      if chosen.value == LocalBackend {
        var _ := LoadLocalModel();
      }
      r := Ok(BackendOutput(chosen.value, ids));
    }
  }
}
