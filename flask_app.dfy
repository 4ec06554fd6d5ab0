/** The REST entry point, flask_app.py: the lazily loaded model (with a file-existence check
    before the slot is filled), the label table, the percentage with its None branch, and the
    result dictionary of recognize_fruit_by_cv_image with its price. */
module FlaskApp {
  import opened Common
  import App

  // ---------------------------------------------------------------------------------------
  // get_model: the process-wide model slot
  // ---------------------------------------------------------------------------------------

  /** What one call of get_model does: what it returns (ML_MODEL as it then stands) or raises,
      what ML_MODEL holds afterwards, and whether it read the weights file (called torch.load). */
  datatype Call = Call(result: Result<Option<Net>, ModelError>, after: Option<Net>, readsWeights: bool)

  /** One call of get_model when ML_MODEL holds `before` and loading would have `outcome`.
      A missing file is reported before the slot is touched; a file that is there but fails
      to load fails after a fresh Net has been stored in the slot. */
  function GetModelCall(before: Option<Net>, outcome: LoadOutcome): (c: Call)
    // a filled slot is returned as it is, and nothing is read
    ensures before.Some? ==> c == Call(Ok(before), before, false)
    // what is returned is never None: it is the Net the slot holds
    ensures c.result.Ok? ==> c.result.value.Some? && c.result.value == c.after
    // an exception escapes exactly when the slot is empty and the file does not load
    ensures c.result.Err? <==> before.None? && outcome != Loads
    // a missing file raises FileNotFoundError, reads nothing and leaves the slot empty
    ensures before.None? && outcome == FileMissing ==> c == Call(Err(FileNotFound), None, false)
    // a file that is there is read once, and the cached Net has weights only if the read worked
    ensures before.None? && outcome != FileMissing ==>
      && c.readsWeights
      && c.after.Some?
      && c.after.value.weightsLoaded == (outcome == Loads)
      && (outcome == LoadFails ==> c.result == Err(LoadFailed))
  {
    if before.Some? then Call(Ok(before), before, false)
    else
      match outcome
      case FileMissing => Call(Err(FileNotFound), None, false)
      case LoadFails => Call(Err(LoadFailed), Some(Net(false)), true)
      case Loads => Call(Ok(Some(Net(true))), Some(Net(true)), true)
  }

  /** The module global ML_MODEL, with the function get_model that fills it. */
  class ModelCache {
    /** ML_MODEL: None until get_model first gets past the existence check. */
    var mlModel: Option<Net>
    /** How many times the weights file has been read so far. */
    ghost var weightReads: nat

    constructor ()
      ensures mlModel == None && weightReads == 0
    {
      mlModel := None;
      weightReads := 0;
    }

    /** get_model. With an empty slot (`not ML_MODEL`), a missing file raises at once; otherwise
        a new Net is stored, the weights are read into it and it is switched to evaluation
        mode, and an exception from the read propagates. */
    method GetModel(outcome: LoadOutcome) returns (r: Result<Option<Net>, ModelError>)
      modifies this
      ensures var c := GetModelCall(old(mlModel), outcome);
        && r == c.result
        && mlModel == c.after
        && weightReads == old(weightReads) + (if c.readsWeights then 1 else 0)
    {
      if mlModel.None? {
        if outcome == FileMissing {
          return Err(FileNotFound);
        }
        mlModel := Some(Net(false));
        weightReads := weightReads + 1;
        if outcome == LoadFails {
          return Err(LoadFailed);
        }
        mlModel := Some(Net(true));
      }
      r := Ok(mlModel);
    }
  }

  /** The calls of get_model, one per outcome in order, starting from a slot holding `before`. */
  function Replay(before: Option<Net>, outcomes: seq<LoadOutcome>): (calls: seq<Call>)
    ensures |calls| == |outcomes|
    decreases |outcomes|
  {
    if outcomes == [] then []
    else
      var c := GetModelCall(before, outcomes[0]);
      [c] + Replay(c.after, outcomes[1..])
  }

  /** Once ML_MODEL holds a Net, every later call returns that same Net and reads nothing. */
  lemma {:induction false} CachedCallsReturnSameNet(net: Net, outcomes: seq<LoadOutcome>)
    ensures forall i :: 0 <= i < |outcomes| ==> Replay(Some(net), outcomes)[i] == Call(Ok(Some(net)), Some(net), false)
  {
    if outcomes != [] {
      var calls, rest := Replay(Some(net), outcomes), Replay(Some(net), outcomes[1..]);
      CachedCallsReturnSameNet(net, outcomes[1..]);
      assert calls == [Call(Ok(Some(net)), Some(net), false)] + rest;
      forall i | 0 < i < |calls| ensures calls[i] == Call(Ok(Some(net)), Some(net), false) {
        assert calls[i] == rest[i - 1];
      }
    }
  }

  /** While the file is missing, each call raises FileNotFoundError, reads nothing and leaves
      the slot empty, so the next call checks again; what follows the first k calls is as if
      they had not happened. */
  lemma {:induction false} MissingFileRetried(outcomes: seq<LoadOutcome>, k: nat)
    requires k <= |outcomes|
    requires forall i :: 0 <= i < k ==> outcomes[i] == FileMissing
    ensures forall i :: 0 <= i < k ==> Replay(None, outcomes)[i] == Call(Err(FileNotFound), None, false)
    ensures Replay(None, outcomes)[k..] == Replay(None, outcomes[k..])
  {
    if k > 0 {
      var calls, rest := Replay(None, outcomes), Replay(None, outcomes[1..]);
      MissingFileRetried(outcomes[1..], k - 1);
      assert calls == [Call(Err(FileNotFound), None, false)] + rest;
      forall i | 0 < i < k ensures calls[i] == Call(Err(FileNotFound), None, false) {
        assert calls[i] == rest[i - 1];
      }
      assert outcomes[1..][k - 1..] == outcomes[k..];
      assert calls[k..] == rest[k - 1..];
    }
  }

  /** The first call that finds the file decides for good: it is the only call that reads the
      weights, and every later call returns the Net it cached, whether the read worked or not. */
  lemma FirstReadDecides(outcomes: seq<LoadOutcome>, k: nat)
    requires k < |outcomes|
    requires forall i :: 0 <= i < k ==> outcomes[i] == FileMissing
    requires outcomes[k] != FileMissing
    ensures var calls := Replay(None, outcomes);
      && (forall i :: 0 <= i < k ==> calls[i].result == Err(FileNotFound))
      && calls[k] == GetModelCall(None, outcomes[k])
      && calls[k].after == Some(Net(outcomes[k] == Loads))
      && (forall i :: 0 <= i < |calls| ==> (calls[i].readsWeights <==> i == k))
      && (forall i :: k < i < |calls| ==> calls[i].result == Ok(Some(Net(outcomes[k] == Loads))))
  {
    var first := Net(outcomes[k] == Loads);
    var calls, tail := Replay(None, outcomes), Replay(None, outcomes[k..]);
    MissingFileRetried(outcomes, k);
    assert calls[k..] == tail;
    var rest := Replay(Some(first), outcomes[k + 1..]);
    assert outcomes[k..][1..] == outcomes[k + 1..];
    assert tail == [GetModelCall(None, outcomes[k])] + rest;
    CachedCallsReturnSameNet(first, outcomes[k + 1..]);
    assert calls[k] == tail[0];
    forall i | k < i < |calls| ensures calls[i] == Call(Ok(Some(first)), Some(first), false) {
      assert calls[i] == tail[i - k] == rest[i - k - 1];
    }
  }

  /** Once the file appears, the next call loads it, and from then on the loaded Net is
      returned without another read. */
  lemma LoadsOnceFileAppears(outcomes: seq<LoadOutcome>, k: nat)
    requires k < |outcomes|
    requires forall i :: 0 <= i < k ==> outcomes[i] == FileMissing
    requires outcomes[k] == Loads
    ensures var calls := Replay(None, outcomes);
      && (forall i :: 0 <= i < |calls| ==> (calls[i].readsWeights <==> i == k))
      && (forall i :: k <= i < |calls| ==> calls[i].result == Ok(Some(Net(true))))
  {
    FirstReadDecides(outcomes, k);
  }

  /** A weights file that is there but does not load is not retried either: the Net stored
      before the read stays in the slot, and later calls return it without its weights. */
  lemma UnloadableFileCachesUntrainedNet(outcomes: seq<LoadOutcome>, k: nat)
    requires k < |outcomes|
    requires forall i :: 0 <= i < k ==> outcomes[i] == FileMissing
    requires outcomes[k] == LoadFails
    ensures var calls := Replay(None, outcomes);
      && calls[k].result == Err(LoadFailed)
      && (forall i :: k < i < |calls| ==> calls[i].result == Ok(Some(Net(false))) && !calls[i].readsWeights)
  {
    FirstReadDecides(outcomes, k);
  }

  /** Where the two entry points part: the first call finds no file and the second finds it.
      app.py has already cached an untrained Net and returns it; flask_app.py loads the file. */
  lemma MissingFileVariantsDiffer()
    ensures var app := App.Replay(None, [FileMissing, Loads]);
      app[0].result == Err(FileNotFound) && app[1].result == Ok(Net(false))
    ensures var flask := Replay(None, [FileMissing, Loads]);
      flask[0].result == Err(FileNotFound) && flask[1].result == Ok(Some(Net(true)))
  {
    App.FailedLoadNeverRetried([FileMissing, Loads]);
    LoadsOnceFileAppears([FileMissing, Loads], 1);
  }

  // ---------------------------------------------------------------------------------------
  // freshness_label
  // ---------------------------------------------------------------------------------------

  /** freshness_label: the same strict thresholds 90, 65, 50 and 0 and the same five texts as in
      app.py, so every property proved of App.FreshnessLabel holds of it. */
  function FreshnessLabel(p: int): (s: string)
    ensures s == App.FreshnessLabel(p)
  {
    if p > 90 then "It is really fresh, so you can eat it now!"
    else if p > 65 then "It is good, you can still enjoy it."
    else if p > 50 then "It is fair, consider eating it soon."
    else if p > 0 then "It is poor, you might want to eat it quickly."
    else "It is rotten, do not eat it."
  }

  // ---------------------------------------------------------------------------------------
  // freshness_percentage_by_cv_image, the price and recognize_fruit_by_cv_image
  // ---------------------------------------------------------------------------------------

  /** freshness_percentage_by_cv_image, after the image has been turned into a batch.
      `got` is what its call of get_model returned or raised; `freshProb` is the softmax
      probability of the "fresh" class that the model gives for the batch. A None model
      gives None before any inference. */
  function FreshnessPercentageByImage(got: Result<Option<Net>, ModelError>, freshProb: real)
    : (r: Result<Option<int>, ModelError>)
    requires 0.0 <= freshProb <= 1.0
    ensures r.Err? <==> got.Err?
    ensures r.Err? ==> r.error == got.error
    ensures r.Ok? ==> (r.value.None? <==> got.value.None?)
    ensures r.Ok? && r.value.Some? ==> 0 <= r.value.value <= 100 && r.value.value == TruncatedPercentage(freshProb)
  {
    match got
    case Err(e) => Err(e)
    case Ok(model) =>
      if model.None? then Ok(None)
      else Ok(Some(TruncatedPercentage(freshProb)))
  }

  /** The price for a freshness level: int(level / 100 * 10000). */
  function Price(level: int): (price: int)
    ensures 0 <= level <= 100 ==> 0 <= price <= 10000
    ensures level == 0 ==> price == 0
    ensures level == 100 ==> price == 10000
  {
    PyInt(level as real / 100.0 * 10000.0)
  }

  /** A fresher fruit never costs less. */
  lemma PriceMonotone(p: int, q: int)
    requires p <= q
    ensures Price(p) <= Price(q)
  {
    PyIntMonotone(p as real / 100.0 * 10000.0, q as real / 100.0 * 10000.0);
  }

  /** recognize_fruit_by_cv_image: None when the percentage is None, otherwise a dictionary with
      exactly the keys "freshness_level" and "price". */
  function RecognizeFruit(got: Result<Option<Net>, ModelError>, freshProb: real)
    : (r: Result<Option<map<string, int>>, ModelError>)
    requires 0.0 <= freshProb <= 1.0
    ensures r.Err? <==> got.Err?
    ensures r.Err? ==> r.error == got.error
    ensures r.Ok? ==> (r.value.None? <==> FreshnessPercentageByImage(got, freshProb).value.None?)
    ensures r.Ok? && r.value.Some? ==>
      var info, level := r.value.value, FreshnessPercentageByImage(got, freshProb).value.value;
      && info.Keys == {"freshness_level", "price"}
      && info["freshness_level"] == level
      && info["price"] == Price(level)
      && 0 <= info["price"] <= 10000
  {
    match FreshnessPercentageByImage(got, freshProb)
    case Err(e) => Err(e)
    case Ok(None) => Ok(None)
    case Ok(Some(level)) => Ok(Some(map["freshness_level" := level, "price" := Price(level)]))
  }

  /** The None branches are never taken: get_model either raises or returns a Net, so a
      recognition that does not raise always yields a dictionary, and the endpoint's error
      reply for a None result is unreachable. */
  lemma NoneBranchUnreachable(before: Option<Net>, outcome: LoadOutcome, freshProb: real)
    requires 0.0 <= freshProb <= 1.0
    ensures var r := RecognizeFruit(GetModelCall(before, outcome).result, freshProb);
      r.Ok? ==> r.value.Some?
  {
  }
}
