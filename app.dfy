/** The web-page entry point, app.py: the lazily loaded model, the label table, the
    percentage and the result dictionary of recognize_fruit_by_cv_image. */
module App {
  import opened Common

  // ---------------------------------------------------------------------------------------
  // get_model: the process-wide model slot
  // ---------------------------------------------------------------------------------------

  /** What one call of get_model does: what it returns or raises, what ML_MODEL holds
      afterwards, and whether it read the weights file (called torch.load). */
  datatype Call = Call(result: Result<Net, ModelError>, after: Option<Net>, readsWeights: bool)

  /** One call of get_model when ML_MODEL holds `before` and loading would have `outcome`.
      A fresh Net is stored in the slot before its weights are read, so a failed read leaves
      that untrained Net cached. */
  function GetModelCall(before: Option<Net>, outcome: LoadOutcome): (c: Call)
    // a filled slot is returned as it is, and nothing is read
    ensures before.Some? ==> c == Call(Ok(before.value), before, false)
    // after any call, raised or not, the slot is filled
    ensures c.after.Some?
    // what is returned is what the slot holds
    ensures c.result.Ok? ==> c.after == Some(c.result.value)
    // an exception escapes exactly when the first read fails, and it is the one raised
    ensures c.result.Err? <==> before.None? && outcome != Loads
    ensures c.result.Err? ==> c.result.error == (if outcome == FileMissing then FileNotFound else LoadFailed)
    // an empty slot always leads to a read, and the cached Net has weights only if it worked
    ensures before.None? ==> c.readsWeights && c.after.value.weightsLoaded == (outcome == Loads)
  {
    if before.Some? then Call(Ok(before.value), before, false)
    else
      var untrained := Net(false);
      match outcome
      case Loads => Call(Ok(Net(true)), Some(Net(true)), true)
      case FileMissing => Call(Err(FileNotFound), Some(untrained), true)
      case LoadFails => Call(Err(LoadFailed), Some(untrained), true)
  }

  /** The module global ML_MODEL, with the function get_model that fills it. */
  class ModelCache {
    /** ML_MODEL: None until get_model first runs. */
    var mlModel: Option<Net>
    /** How many times the weights file has been read so far. */
    ghost var weightReads: nat

    constructor ()
      ensures mlModel == None && weightReads == 0
    {
      mlModel := None;
      weightReads := 0;
    }

    /** get_model. An empty slot (`not ML_MODEL`) is filled with a new Net first; then the
        weights are read into it and it is switched to evaluation mode. Both exceptions are
        re-raised after logging. */
    method GetModel(outcome: LoadOutcome) returns (r: Result<Net, ModelError>)
      modifies this
      ensures var c := GetModelCall(old(mlModel), outcome);
        && r == c.result
        && mlModel == c.after
        && weightReads == old(weightReads) + (if c.readsWeights then 1 else 0)
    {
      if mlModel.None? {
        mlModel := Some(Net(false));
        weightReads := weightReads + 1;
        match outcome {
          case FileMissing =>
            return Err(FileNotFound);
          case LoadFails =>
            return Err(LoadFailed);
          case Loads =>
            mlModel := Some(Net(true));
        }
      }
      r := Ok(mlModel.value);
    }
  }

  /** The calls of get_model, one per outcome in order, starting from a slot holding `before`. */
  function Replay(before: Option<Net>, outcomes: seq<LoadOutcome>): (calls: seq<Call>)
    ensures |calls| == |outcomes|
    decreases |outcomes|
  {
    if outcomes == [] then []
    else
      var c := GetModelCall(before, outcomes[0]);
      [c] + Replay(c.after, outcomes[1..])
  }

  /** Once ML_MODEL holds a Net, every later call returns that same Net and reads nothing. */
  lemma {:induction false} CachedCallsReturnSameNet(net: Net, outcomes: seq<LoadOutcome>)
    ensures forall i :: 0 <= i < |outcomes| ==> Replay(Some(net), outcomes)[i] == Call(Ok(net), Some(net), false)
  {
    if outcomes != [] {
      var calls, rest := Replay(Some(net), outcomes), Replay(Some(net), outcomes[1..]);
      CachedCallsReturnSameNet(net, outcomes[1..]);
      assert calls == [Call(Ok(net), Some(net), false)] + rest;
      forall i | 0 < i < |calls| ensures calls[i] == Call(Ok(net), Some(net), false) {
        assert calls[i] == rest[i - 1];
      }
    }
  }

  /** From an empty slot, the first call alone reads the weights file, whatever happens to
      that read; every later call returns the Net the first call cached, loaded or not. */
  lemma FirstCallDecides(outcomes: seq<LoadOutcome>)
    requires |outcomes| > 0
    ensures var calls := Replay(None, outcomes);
      && calls[0].after == Some(Net(outcomes[0] == Loads))
      && (calls[0].result.Ok? <==> outcomes[0] == Loads)
      && (forall i :: 0 <= i < |calls| ==> (calls[i].readsWeights <==> i == 0))
      && (forall i :: 0 < i < |calls| ==> calls[i].result == Ok(Net(outcomes[0] == Loads)))
  {
    var first := Net(outcomes[0] == Loads);
    var calls, rest := Replay(None, outcomes), Replay(Some(first), outcomes[1..]);
    assert calls == [GetModelCall(None, outcomes[0])] + rest;
    CachedCallsReturnSameNet(first, outcomes[1..]);
    forall i | 0 < i < |calls| ensures calls[i] == Call(Ok(first), Some(first), false) {
      assert calls[i] == rest[i - 1];
    }
  }

  /** A failed first load is never retried: even when the file is there later, every later
      call returns the untrained Net stored before the failure. */
  lemma FailedLoadNeverRetried(outcomes: seq<LoadOutcome>)
    requires |outcomes| > 0 && outcomes[0] != Loads
    ensures var calls := Replay(None, outcomes);
      && calls[0].result.Err?
      && forall i :: 0 < i < |calls| ==> calls[i].result == Ok(Net(false)) && !calls[i].readsWeights
  {
    FirstCallDecides(outcomes);
  }

  // ---------------------------------------------------------------------------------------
  // freshness_label
  // ---------------------------------------------------------------------------------------

  /** freshness_label: strict thresholds 90, 65, 50 and 0, tried top-down, first match wins. */
  function FreshnessLabel(p: int): (s: string)
    ensures s in {ReallyFresh, Good, Fair, Poor, Rotten}
    ensures s == ReallyFresh <==> 90 < p
    ensures s == Good <==> 65 < p <= 90
    ensures s == Fair <==> 50 < p <= 65
    ensures s == Poor <==> 0 < p <= 50
    ensures s == Rotten <==> p <= 0
  {
    if p > 90 then "It is really fresh, so you can eat it now!"
    else if p > 65 then "It is good, you can still enjoy it."
    else if p > 50 then "It is fair, consider eating it soon."
    else if p > 0 then "It is poor, you might want to eat it quickly."
    else "It is rotten, do not eat it."
  }

  /** A higher percentage never gets a worse label. */
  lemma LabelRankMonotone(p: int, q: int)
    requires p <= q
    ensures Rank(FreshnessLabel(p)) <= Rank(FreshnessLabel(q))
  {
  }

  // ---------------------------------------------------------------------------------------
  // freshness_percentage_by_cv_image and recognize_fruit_by_cv_image
  // ---------------------------------------------------------------------------------------

  /** freshness_percentage_by_cv_image, after the image has been turned into a batch.
      `got` is what its call of get_model returned or raised; `freshProb` is the softmax
      probability of the "fresh" class that the model gives for the batch. */
  function FreshnessPercentageByImage(got: Result<Net, ModelError>, freshProb: real): (r: Result<int, ModelError>)
    requires 0.0 <= freshProb <= 1.0
    ensures r.Err? <==> got.Err?
    ensures r.Err? ==> r.error == got.error
    ensures r.Ok? ==> 0 <= r.value <= 100 && r.value == TruncatedPercentage(freshProb)
  {
    match got
    case Err(e) => Err(e)
    case Ok(_) => Ok(TruncatedPercentage(freshProb))
  }

  /** recognize_fruit_by_cv_image: a dictionary whose only key is "freshness_percentage". */
  function RecognizeFruit(got: Result<Net, ModelError>, freshProb: real): (r: Result<map<string, int>, ModelError>)
    requires 0.0 <= freshProb <= 1.0
    ensures r.Err? <==> got.Err?
    ensures r.Err? ==> r.error == got.error
    ensures r.Ok? ==> && r.value.Keys == {"freshness_percentage"}
                      && r.value["freshness_percentage"] == FreshnessPercentageByImage(got, freshProb).value
                      && 0 <= r.value["freshness_percentage"] <= 100
  {
    match FreshnessPercentageByImage(got, freshProb)
    case Err(e) => Err(e)
    case Ok(p) => Ok(map["freshness_percentage" := p])
  }

  /** The checkout page reads the percentage back from the dictionary and labels it: a
      probability of 0.8808 gives 88, which is "good" rather than "really fresh". */
  lemma CheckoutExample(net: Net)
    ensures var info := RecognizeFruit(Ok(net), 0.8808);
      && info.Ok?
      && info.value["freshness_percentage"] == 88
      && FreshnessLabel(info.value["freshness_percentage"]) == Good
  {
  }
}
