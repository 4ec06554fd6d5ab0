/** Types and Python built-ins shared by the two entry points of the fruit-freshness
    detector (app.py and flask_app.py). */
module Common {

  datatype Option<+T> = None | Some(value: T)

  /** The outcome of a Python call: a returned value or a raised exception. */
  datatype Result<+T, +E> = Ok(value: T) | Err(error: E)

  /** The classifier `Net` of net.py, as an opaque token. The only thing tracked is whether
      its pretrained weights are in it, i.e. whether load_state_dict and eval() have run on
      it since it was constructed. */
  datatype Net = Net(weightsLoaded: bool)

  /** What the file system and torch.load do on one attempt to read the weights file.
      They are outside the model, so each call of get_model receives this as an input. */
  datatype LoadOutcome =
    | Loads        // the file is there and its state dict loads into the Net
    | FileMissing  // there is no file at ML_MODEL_FILE
    | LoadFails    // the file is there, but torch.load or load_state_dict raises

  /** The exceptions get_model lets escape to its caller. */
  datatype ModelError = FileNotFound | LoadFailed

  /** The five texts freshness_label chooses from, best first. */
  const ReallyFresh: string := "It is really fresh, so you can eat it now!"
  const Good: string := "It is good, you can still enjoy it."
  const Fair: string := "It is fair, consider eating it soon."
  const Poor: string := "It is poor, you might want to eat it quickly."
  const Rotten: string := "It is rotten, do not eat it."

  /** The position of a label on the freshness scale: 4 for the best, 0 for the worst. */
  function Rank(text: string): nat
  {
    if text == ReallyFresh then 4
    else if text == Good then 3
    else if text == Fair then 2
    else if text == Poor then 1
    else 0
  }

  /** Python's int() applied to a float: truncation toward zero, so the result is the integer
      nearest to x on the side of zero. */
  function PyInt(x: real): (n: int)
    ensures 0.0 <= x ==> 0 <= n && n as real <= x < n as real + 1.0
    ensures x < 0.0 ==> n <= 0 && n as real - 1.0 < x <= n as real
  {
    if x >= 0.0 then x.Floor else -((-x).Floor)
  }

  /** int() truncates: it never rounds up, whichever way the fraction lies. */
  lemma PyIntTruncates()
    ensures PyInt(99.9) == 99 && PyInt(0.5) == 0 && PyInt(-0.5) == 0 && PyInt(-2.7) == -2
  {
  }

  /** int() on floats is monotone, on both sides of zero. */
  lemma PyIntMonotone(x: real, y: real)
    requires x <= y
    ensures PyInt(x) <= PyInt(y)
  {
  }

  /** The last step of freshness_percentage_by_cv_image in both entry points:
      int(probability * 100), for the softmax probability of the "fresh" class. The result is
      the whole number of percent, never rounded up. */
  function TruncatedPercentage(freshProb: real): (p: int)
    requires 0.0 <= freshProb <= 1.0
    ensures 0 <= p <= 100
    ensures p as real <= freshProb * 100.0 < p as real + 1.0
  {
    PyInt(freshProb * 100.0)
  }

  /** A probability of 99.9% is shown as 99, not rounded to 100; exactly 100% gives 100. */
  lemma PercentageTruncatesNotRounds()
    ensures TruncatedPercentage(0.999) == 99
    ensures TruncatedPercentage(0.905) == 90
    ensures TruncatedPercentage(1.0) == 100
    ensures TruncatedPercentage(0.0) == 0
  {
  }
}
