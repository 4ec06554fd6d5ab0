# Fruit-freshness detector: the scoring logic, modelled in Dafny

The fruit-freshness detector photographs a fruit and runs a pretrained network on it.
It turns the network's probability for the "fresh" class into a whole-number percentage.
That percentage becomes a text label (app.py) or a freshness level with a price (flask_app.py).
This project models the logic around the network in both entry points. That is:

- `get_model`, the lazy process-wide model slot `ML_MODEL`. It is a class `ModelCache` per
  entry point whose method `GetModel` changes the slot step by step as the source does. Its
  postcondition ties it to a pure function `GetModelCall`, and `Replay` strings calls together,
  so lemmas can state what a sequence of calls does.
- `freshness_label`, the first-match table of strict thresholds 90, 65, 50 and 0.
- the truncation `int(prob * 100)` at the end of `freshness_percentage_by_cv_image`, and in
  flask_app.py its `None` branch.
- `recognize_fruit_by_cv_image`, the result dictionary, and in flask_app.py the price
  `int(level / 100 * 10000)` and the `None` result.

Files: `common.dfy` (module `Common`: shared types, Python's `int()` on floats, the label texts),
`app.dfy` (module `App`, for app.py) and `flask_app.dfy` (module `FlaskApp`, for flask_app.py).

How things outside the model become inputs:

- The network `Net` (net.py, not part of this model) is an opaque value `Net(weightsLoaded)`.
  `Net(false)` is a freshly constructed Net. `Net(true)` is one after `load_state_dict` and
  `eval()` have run.
- What the file system and `torch.load` would do on a call of `get_model` is a parameter
  `LoadOutcome`: `Loads`, `FileMissing` or `LoadFails`.
- The exceptions that escape `get_model` are `ModelError`: `FileNotFound` or `LoadFailed`.
  Functions that can raise return `Result`.
- The softmax probability of the "fresh" class is an abstract `real` in [0, 1].
  The result of the `get_model` call made inside the percentage function is a parameter too.

What the proofs show about the two slots:

- In both entry points a filled slot is returned unchanged and nothing is read again.
- app.py stores `Net()` in the slot before reading the weights. So its first call is the only
  one that ever reads the file. After a failed first read, every later call returns the
  untrained Net, even once the file is there.
- flask_app.py checks that the file exists before it fills the slot. So a missing file is
  retried on the next call.
- flask_app.py also stores `Net()` before `load_state_dict`. So a file that exists but does
  not load leaves an untrained Net cached, exactly as in app.py.
- In flask_app.py, `get_model` never returns `None`. So the `None` branches of
  `freshness_percentage_by_cv_image` and `recognize_fruit_by_cv_image` are never taken.

## Model

| member | source | states |
|---|---|---|
| `App.GetModelCall` | fruit-freshness-detector-web/app.py:15-32 | a filled slot is returned unchanged with no read; after any call the slot is filled; a returned Net is the one in the slot; an exception escapes exactly when the slot was empty and the read failed, as FileNotFoundError for a missing file and otherwise the load's own error; an empty slot always leads to one read, and the cached Net has weights only if the read worked |
| `App.ModelCache.constructor` | fruit-freshness-detector-web/app.py:11 | ML_MODEL starts as None and nothing has been read |
| `App.ModelCache.GetModel` | fruit-freshness-detector-web/app.py:15-32 | the returned value or exception, the new ML_MODEL and the number of reads of the weights file are those of GetModelCall on the old slot |
| `App.Replay` | fruit-freshness-detector-web/app.py:15-32 | a run of get_model calls yields one call record per load outcome, each starting from the slot the previous call left |
| `App.CachedCallsReturnSameNet` | fruit-freshness-detector-web/app.py:18-32 | once ML_MODEL holds a Net, every later call returns that same Net, leaves the slot alone and reads nothing |
| `App.FirstCallDecides` | fruit-freshness-detector-web/app.py:18-30 | from an empty slot, exactly the first call reads the weights file; it succeeds iff the read works; every later call returns the Net the first call cached, loaded or not |
| `App.FailedLoadNeverRetried` | fruit-freshness-detector-web/app.py:19-30 | if the first read fails (missing file or other error), that call raises, and every later call returns the untrained Net without reading the file again |
| `App.FreshnessLabel` | fruit-freshness-detector-web/app.py:34-44 | every integer gets one of the five texts: "really fresh" iff p > 90, "good" iff 65 < p <= 90, "fair" iff 50 < p <= 65, "poor" iff 0 < p <= 50, "rotten" iff p <= 0 (so 90 is "good" and 91 "really fresh") |
| `App.LabelRankMonotone` | fruit-freshness-detector-web/app.py:34-44 | a higher percentage never gets a worse label |
| `App.FreshnessPercentageByImage` | fruit-freshness-detector-web/app.py:46-63 | an exception from get_model propagates unchanged; otherwise the percentage is the truncated fresh-class percentage, in [0, 100] |
| `App.RecognizeFruit` | fruit-freshness-detector-web/app.py:71-75 | an exception propagates; otherwise the dictionary has exactly the key "freshness_percentage", holding the computed percentage, in [0, 100] |
| `App.CheckoutExample` | fruit-freshness-detector-web/app.py:96-107 | a fresh-class probability of 0.8808 is shown as 88 with the label "good" |
| `Common.PyInt` | fruit-freshness-detector-web/app.py:63 | int() on a float truncates toward zero: for x >= 0 the result n satisfies 0 <= n <= x < n + 1, for x < 0 it satisfies n - 1 < x <= n <= 0 |
| `Common.PyIntTruncates` | fruit-freshness-detector-web/app.py:63 | int() never rounds: 99.9 gives 99, 0.5 and -0.5 give 0, -2.7 gives -2 |
| `Common.PyIntMonotone` | fruit-freshness-detector-web/flask_app.py:72 | int() on floats is monotone on both sides of zero |
| `Common.TruncatedPercentage` | fruit-freshness-detector-web/app.py:63 | for a probability in [0, 1], int(prob * 100) lies in [0, 100] and is the whole number of percent below prob * 100, never rounded up |
| `Common.PercentageTruncatesNotRounds` | fruit-freshness-detector-web/flask_app.py:58 | 0.999 gives 99 (not 100), 0.905 gives 90 (so "good", not "really fresh"), 1.0 gives 100 and 0.0 gives 0 |
| `FlaskApp.GetModelCall` | fruit-freshness-detector-web/flask_app.py:16-27 | a filled slot is returned unchanged with no read; what is returned is never None but the Net in the slot; an exception escapes exactly when the slot was empty and the file did not load; a missing file raises FileNotFoundError, reads nothing and leaves the slot empty; a file that is there is read once and the cached Net has weights only if the read worked, otherwise the load error escapes |
| `FlaskApp.ModelCache.constructor` | fruit-freshness-detector-web/flask_app.py:11 | ML_MODEL starts as None and nothing has been read |
| `FlaskApp.ModelCache.GetModel` | fruit-freshness-detector-web/flask_app.py:16-27 | the returned value or exception, the new ML_MODEL and the number of reads of the weights file are those of GetModelCall on the old slot |
| `FlaskApp.Replay` | fruit-freshness-detector-web/flask_app.py:16-27 | a run of get_model calls yields one call record per load outcome, each starting from the slot the previous call left |
| `FlaskApp.CachedCallsReturnSameNet` | fruit-freshness-detector-web/flask_app.py:19-27 | once ML_MODEL holds a Net, every later call returns that same Net, leaves the slot alone and reads nothing |
| `FlaskApp.MissingFileRetried` | fruit-freshness-detector-web/flask_app.py:19-21 | while the file is missing, every call raises FileNotFoundError, reads nothing and leaves the slot empty, so the calls after them behave as if those calls had not happened |
| `FlaskApp.FirstReadDecides` | fruit-freshness-detector-web/flask_app.py:19-27 | the first call that finds the file is the only call that reads it; the calls before it raise FileNotFoundError; every call after it returns the Net it cached, loaded or not |
| `FlaskApp.LoadsOnceFileAppears` | fruit-freshness-detector-web/flask_app.py:19-27 | after any number of missing-file failures, the call that finds a loadable file loads it, and from then on the loaded Net is returned; the file is read exactly once |
| `FlaskApp.UnloadableFileCachesUntrainedNet` | fruit-freshness-detector-web/flask_app.py:22-25 | a file that exists but does not load raises once, and every later call returns the untrained Net stored before the read, without reading again |
| `FlaskApp.MissingFileVariantsDiffer` | fruit-freshness-detector-web/flask_app.py:19-22 | with the file missing on the first call and present on the second, app.py's second call returns the untrained Net, flask_app.py's loads the weights |
| `FlaskApp.FreshnessLabel` | fruit-freshness-detector-web/flask_app.py:29-39 | the label table is the same as app.py's for every integer, so all of App.FreshnessLabel's properties hold |
| `FlaskApp.FreshnessPercentageByImage` | fruit-freshness-detector-web/flask_app.py:41-58 | an exception from get_model propagates unchanged; the result is None exactly when the model is None; otherwise it is the truncated fresh-class percentage, in [0, 100] |
| `FlaskApp.Price` | fruit-freshness-detector-web/flask_app.py:72 | for a level in [0, 100] the price lies in [0, 10000]; level 0 costs 0 and level 100 costs 10000 |
| `FlaskApp.PriceMonotone` | fruit-freshness-detector-web/flask_app.py:72 | a higher freshness level never costs less |
| `FlaskApp.RecognizeFruit` | fruit-freshness-detector-web/flask_app.py:66-73 | an exception propagates; the result is None exactly when the percentage is None; otherwise the dictionary has exactly the keys "freshness_level" (the percentage) and "price" (its price, in [0, 10000]) |
| `FlaskApp.NoneBranchUnreachable` | fruit-freshness-detector-web/flask_app.py:52-54 | a recognition whose get_model call did not raise always yields a dictionary, never None |

## Left out

- Flask routing, `render_template`, `jsonify` and the 400/500 replies (app.py:79-109, flask_app.py:75-84): web plumbing. Only the checkout page's reading of the percentage and its label is stated, as an example.
- Image decoding, colour conversion, resizing, JPEG re-encoding and base64 (OpenCV): foreign library calls on pixel data.
- Tensor normalisation, the forward pass and the softmax (PyTorch): floating-point numerics inside an opaque pretrained network. The fresh-class probability is an abstract real in [0, 1], and the network is a token whose only state is whether its weights are loaded.
- Common.TruncatedPercentage: computed in exact real arithmetic. The IEEE rounding of `prob * 100` is not modelled, so for some probabilities the source may give one less than the model. The bounds [0, 100] hold in both.
- FlaskApp.Price: computed in exact real arithmetic. In doubles `int(29 / 100 * 10000)` is 2899, not 2900, so the model states only the bounds, the two end points and monotonicity, which hold in both.
- The file system and `torch.load` are reduced to one `LoadOutcome` per call. A file that disappears between flask_app.py's existence check and its `torch.load` is not modelled. The `print` logging in app.py is left out.
- The model path settings (an absolute path in app.py, a path next to the script in flask_app.py): configuration only.
- `Net()` itself is assumed never to raise, and a Net is assumed truthy, so `not ML_MODEL` holds exactly when the slot is None. net.py is not part of this model.
- The loaded Net is changed in place by `load_state_dict` and `eval()`. The model replaces the slot's value instead, so aliasing of the Net object is not captured.
- Concurrent first calls of `get_model`: the source has no locking, and each call is modelled as atomic.
