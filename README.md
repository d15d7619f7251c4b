# SkinAI analysis backend — a Dafny model of `app.py`

The backend takes a face photo and prepares it. It then drives a three-call
protocol against a remote skin-analysis service: upload the image, start an
analysis task, and poll the task until it finishes. Finally it maps the
service's loosely typed score document onto the fixed dictionary the frontend
reads. This project models these parts of `app.py`:

- **The image size arithmetic of `prepare_image`** (module `ImageSize`, file
  `image.dfy`). First the image shrinks so its longer edge is at most 1920.
  Then it grows so its shorter edge is meant to be at least 480; in the
  code's float arithmetic an 11-pixel side stops at 479 (see Findings). The
  JPEG encoder refuses a side longer than 65500. Every failure becomes HTTP
  400.
  Module `FloatResize` (file `float.dfy`) models the same ratios in IEEE 754
  binary64, the arithmetic the code actually performs. Rounding to nearest is
  proved to pick one double, so each float result it shows is the only one
  possible. It shows where the two differ (see Findings).
- **Id extraction in `upload_file_and_get_id` and `run_skin_analysis_task`**
  (module `Workflow`).
  - A failed request is a network error (HTTP 502).
  - A reply whose id is missing, falsy or reached through the wrong shape is
    a parse error (HTTP 500).
- **The polling state machine of `poll_for_result`** (module `Workflow`).
  - Module `Workflow` holds a recursive specification `Poll` and the loop
    method `PollForResult`, which is proved equal to it.
  - `"done"` leads to downloading the result archive. The first entry name that
    ends with `score_info.json` is chosen, and the content `zipfile` opens for
    that name is read; with repeated names, that is the last entry.
  - `"failed"` is a remote task failure (500).
  - Any other status means another poll.
  - A request failure is a 502.
  - Running past the deadline is a timeout (408).
- **`map_scores_to_frontend` and its nested `get_score`** (module `Scores`).
  - This includes Python's `int()` on every kind of JSON value, with
    truncation toward zero, `bool` as 0/1, and parsing of strings.
  - Each of the twelve bounded entries is clamped to [0, 100], and the
    unclamped `skin_age` entry is carried alongside.

JSON values and `dict.get`/truthiness are in module `PyJson` (`json.dfy`). The
failure classes and their HTTP status codes are in module `Results`
(`results.dfy`).

The system's design documentation, which is not part of this model, promises
some things the code does not do. The model follows the code:

- **`get_score` can raise.** The design documentation says that scoring
  never aborts: a missing parameter scores its default. A score given as a dict whose
  `ui_score` (or, absent that, `raw_score`) is `null`, a list, a dict or a
  non-numeric string makes `int()` raise instead. The model therefore returns
  a `Result`, and `GetScoreExamples` shows one such document.
- **Scores are truncated.** The design documentation says scores are rounded. The code
  truncates toward zero with `int()` before clamping, so 99.9 scores 99.
- **`pelle_pulita_percent` is read, not derived.** The design documentation
  derives it from
  the mean of six scores. The code reads it from key `all`, with default 80.
- **No task store.** The design documentation describes an in-memory task
  store with
  expiry, sub-statuses, calibration and a two-phase upload. `app.py` runs the
  workflow synchronously inside the request and has none of these.
- **Shape errors are all 500s, by two routes.** A `files` value that is a
  dict raises `KeyError` on `[0]`, which the code catches and answers with
  500. A reply that is not a dict where the code calls `.get`, or an empty
  `files` list, raises `AttributeError`, `IndexError` or `TypeError`. The
  code does not catch these, so the framework answers 500. The model files
  all of them as `ParseError(UnexpectedShape)`, which maps to 500.

## Model

| member | source | states |
|---|---|---|
| Results.HttpStatus | app.py:88-91 | every failure maps to 400, 408, 500 or 502; 502 exactly for network errors, 408 exactly for the poll timeout, 400 exactly for image errors |
| Scores.TruncateReal | app.py:173 | `int()` of a float truncates toward zero: the result is within one of the argument, on its side of zero |
| Scores.ParseIntRoundTrip | app.py:173 | `int()` of a string reads back the decimal form of every integer of at most 4300 digits, negative ones included, and refuses longer ones |
| Scores.ParseNumeral | app.py:173 | an unpadded numeral, with or without a minus sign, reads as its value when it has at most 4300 digits and is refused otherwise |
| Scores.SeparatorNotStripped | app.py:173 | `int()` refuses a numeral padded with U+001C, which it does not treat as whitespace |
| Scores.PaddedNumeral | app.py:173 | `int(" -42\n")` is -42 |
| Scores.WidePaddedNumeral | app.py:173 | a non-ASCII space (U+3000) around a numeral is stripped |
| Scores.UnderscoredNumeral | app.py:173 | `int("1_0")` is 10 and `int("1__0")` raises |
| Scores.ParseInt | app.py:173 | `int()` on a string: a value read always comes from a stripped string ending in a digit, and a negative value from one starting with a minus |
| Scores.ParseIntReadsNumerals | app.py:173 | `int()` reads a value exactly when the string, stripped of its padding, is an optional `+` or `-` followed by a digit body (digits, single underscores between digits) of at most 4300 digits, and the value is that numeral's; the example lemmas show that ASCII and Unicode spaces are stripped but U+001C is not |
| Scores.PyInt | app.py:173 | `int()` fails exactly on `None`, lists, dicts and strings it cannot parse (including those over 4300 digits); it keeps ints, maps bools to 0/1 and truncates floats |
| Scores.Clamp | app.py:173 | `max(0, min(100, n))` lies in [0, 100], is `n` inside that range, 0 below it and 100 above it |
| Scores.RawScore | app.py:165-172 | the value handed to `int()`: an absent key gives the default, a non-dict value is always a number or bool, and a dict's `ui_score` wins when present; `GetScorePreference` gives the full order `ui_score`, `raw_score`, default |
| Scores.GetScore | app.py:164-173 | a successful score is in [0, 100]; it can fail only when the key holds a dict |
| Scores.GetScoreDefault | app.py:165-168 | an absent key (read as `{}`) scores its clamped default |
| Scores.GetScorePreference | app.py:167-168 | for a dict, a present `ui_score` wins even when `null`, then `raw_score`, then the default |
| Scores.GetScoreNonObject | app.py:169-172 | a value that is not a dict never fails; numbers are truncated and clamped, bools give 0/1, anything else the default |
| Scores.GetScoreExamples | app.py:173 | 150 gives 100, -3 gives 0, -3.7 gives 0, 99.9 gives 99; a dict with `ui_score: null` fails with a TypeError even though `raw_score` is present |
| Scores.MapFields | app.py:175-187 | all entries scored in order: success exactly when every field scores; the keys are the output names, each holding its field's score; on failure the error is that of the first failing field |
| Scores.SkinAge | app.py:188 | `skin_age` is `None` when absent, the raw value when not a dict, and the dict's `ui_score` (or `None`) otherwise |
| Scores.FieldsDistinct | app.py:176-187 | the twelve output names are pairwise distinct |
| Scores.FieldsOutputs | app.py:175-189 | the twelve output names are exactly the bounded keys, and `skin_age` is not among them |
| Scores.MapDocument | app.py:175-189 | the dictionary literal over any field list: the bounded keys plus `skin_age`, each with its value; fails at the first failing field |
| Scores.MapScores | app.py:161-189 | success exactly when the document is a dict whose twelve fields all score; the result has exactly the thirteen frontend keys, with values as above; a non-dict document fails |
| Scores.MapDocumentBounded | app.py:173-187 | every entry of a successful mapping except `skin_age` is an integer in [0, 100], for any field list |
| Scores.MapScoresBounded | app.py:173-187 | every entry of a successful mapping except `skin_age` is an integer in [0, 100] |
| Scores.FlatDocumentMaps | app.py:167-173 | a document none of whose values is a dict always maps successfully |
| Scores.FieldDefaults | app.py:176-187 | every default is 50 except `pelle_pulita_percent`, which reads key `all` with default 80 |
| Scores.MapScoresDefaults | app.py:165-188 | a document with none of the read keys maps every bounded entry to its default and `skin_age` to `None` |
| Workflow.FileIdOf | app.py:84-86 | when the reply reaches a first file dict, the result is that dict's `file_id` if truthy and a missing-field error otherwise; a shape error exactly when no first file dict is reached; success exactly when a reached `file_id` is truthy |
| Workflow.UploadOutcome | app.py:80-91 | a failed request is a network error of the upload phase (502); otherwise the id or the parse error of the upload phase (500) |
| Workflow.TaskIdOf | app.py:111-113 | when the reply is a dict whose `data` (default `{}`) is a dict, the result is its `task_id` if truthy and a missing-field error otherwise; a shape error exactly otherwise; success exactly when that `task_id` is truthy |
| Workflow.RunTaskOutcome | app.py:107-118 | a failed request is a network error of the task-start phase (502); otherwise the id or the parse error of that phase (500) |
| Workflow.UploadWellFormed | app.py:84-87 | any reply whose `data.files` starts with a dict holding a truthy `file_id` yields that id, whatever other keys the reply and the entry hold |
| Workflow.MissingFileIdIsParseError | app.py:84-91 | a falsy or absent `file_id` (`None`, `""`, `0`, `False`, `[]`, `{}`) in an otherwise well-formed upload reply makes the outcome a parse error with status 500, never a network error |
| Workflow.MissingTaskIdIsParseError | app.py:111-118 | a falsy or absent `task_id` in a task-start reply whose `data` is a dict makes the outcome a parse error with status 500, never a network error |
| Workflow.Names | app.py:142 | `namelist()` lists the entry names in archive order |
| Workflow.ScoreEntryIndex | app.py:142 | the first name ending with `score_info.json`: it does end so, no earlier one does, and there is none exactly when no name ends so |
| Workflow.FindScoreEntry | app.py:142 | the loop over the names returns the first-match index defined above |
| Workflow.LastNamed | app.py:145 | when names repeat, `open` reads the last entry with that name; an absent name has no entry |
| Workflow.ScoreEntry | app.py:141-145 | the entry read is the one the choice names, every entry the choice names is that one, and there is none exactly when no name ends with `score_info.json` |
| Workflow.ChoiceIsDetermined | app.py:141-145 | the first matching name and the last entry bearing it are unique |
| Workflow.ReadScores | app.py:138-146 | a download failure is a 502; a non-archive a parse error; a missing score file is reported with the name list exactly when no name matches; the result is `Ok(doc)` exactly when the chosen entry decodes to `doc`, and a malformed-file error exactly when it does not decode |
| Workflow.Fetch | app.py:138-146 | the download-and-read method computes the outcome specified above |
| Workflow.Poll | app.py:120-155 | the whole loop over the polls before the deadline: no polls is the timeout, and any timeout names the task and the wait; with `PollTimeoutIff` and `PollStopsAtFirst`, it times out exactly when every poll continues and otherwise ends with the first stopping poll's outcome |
| Workflow.PollStep | app.py:127-154 | one poll never yields the timeout; a failed request stops with a network error of the polling phase |
| Workflow.PollForResult | app.py:120-155 | the polling loop computes the recursive specification of the whole loop |
| Workflow.PollTimeoutIff | app.py:126-155 | the timeout happens exactly when every poll before the deadline says to go on |
| Workflow.PollStopsAtFirst | app.py:126-151 | the loop ends with the outcome of the first poll that does not say to go on |
| Workflow.PollRequestFailure | app.py:153-154 | a failed poll request reached before any terminal status ends the loop with a 502 |
| Workflow.PollRemoteFailure | app.py:130-149 | any reply whose `data` has status `"failed"` stops with the remote error (or `None`) |
| Workflow.PollDone | app.py:130-146 | any reply whose `data` has status `"done"` stops: with a parse error when `result_url` is falsy, otherwise with the archive's outcome |
| Workflow.PollOtherStatus | app.py:130-151 | any other status, an absent one or an absent `data` included, continues polling |
| Workflow.PollShapeError | app.py:130-131 | a reply that is not a dict, or whose `data` is not a dict, stops with a parse error whose status is 500 |
| Workflow.DoneJustBeforeDeadline | app.py:126-146 | any number of `"processing"` replies and then `"done"` on the last poll before the deadline gives the archive's outcome, not a timeout |
| ImageSize.ScaleDown | app.py:55-56 | a side scaled by `limit / longer` stays within the limit, is the limit for the longer side, is 0 exactly when `side * limit < longer`, and never grows |
| ImageSize.ScaleUp | app.py:61-62 | a side scaled by `480 / shorter` is at least 480, exactly 480 for the shorter side, and never shrinks |
| ImageSize.Downscale | app.py:53-56 | an in-bounds image is unchanged; otherwise the longer edge becomes exactly 1920, each side is `floor(side * 1920 / longer)` and none grows; it fails exactly when the shorter side would round down to 0 |
| ImageSize.Upscale | app.py:58-62 | a shorter edge of at least 480 is left alone; the step fails exactly when the shorter edge is 0; otherwise each side is `floor(side * 480 / shorter)`, the shorter edge becomes exactly 480 and no side shrinks |
| ImageSize.PrepareSize | app.py:47-68 | an undecodable image and every failure are a 400; a failing shrink or enlargement fails the call with its own error; a prepared image has a shorter edge of at least 480 and no side over 65500; when both steps succeed, the result is their output unless a side exceeds 65500, which the encoder refuses; an image already within both bounds is unchanged |
| ImageSize.LongerEdgeBound | app.py:53-62 | when no enlargement follows the shrink, the longer edge of the prepared image is at most 1920 |
| ImageSize.PrepareLandscape | app.py:53-62 | a 4000 x 3000 image is prepared as 1920 x 1440 |
| ImageSize.StripTooLongToEncode | app.py:53-68 | a 4000 x 10 image is shrunk to 1920 x 4 and enlarged to 230400 x 480, which the encoder refuses with a 400 |
| ImageSize.EnlargeExceedsLongerBound | app.py:53-62 | the enlargement does not re-check the longer edge: 4000 x 100 becomes 1920 x 48, then 19200 x 480 |
| FloatResize.ShortSideFallsShort | app.py:59-62 | in binary64 an 11-pixel shorter side is enlarged to 479, while exact arithmetic gives 480 |
| FloatResize.LongerEdgeLandsBelow | app.py:54-56 | in binary64 a 2148-pixel longer edge is shrunk to 1919, while exact arithmetic gives 1920 |
| FloatResize.SideVanishes | app.py:53-68 | in binary64 the 49-pixel side of a 94080 x 49 image shrinks to 0, while exact arithmetic gives 1; either way the call ends in a 400 |
| FloatResize.NearestIsUnique | app.py:55-62 | a real number that rounds to one normal double rounds to no other: round-to-nearest, ties-to-even, picks one double |
| FloatResize.RoundingIsUnique | app.py:55-62 | two doubles that are both the rounding of one real are equal |
| FloatResize.FloatScaled | app.py:55-62 | `int(side * (limit / edge))` in binary64, each operation rounded to nearest: a zero divisor has no result and a result is never negative; by `FloatScaledIsAFunction` at most one result is possible |
| FloatResize.FloatScaledIsAFunction | app.py:55-62 | the binary64 computation `int(side * (limit / edge))` has exactly one possible result for given side, limit and edge |

## Left out

- HTTP routing, CORS, the `/health` endpoint, the missing-API-key check, the
  `ragionamento` text and the composition in `/analyze`: framework glue with
  no logic of its own beyond the calls modelled here.
- The HTTP requests themselves, their per-call timeouts and `raise_for_status`
  become one `Reply` value per request: either `RequestFailed` or the decoded
  body. A body that is not JSON also counts as `RequestFailed`, since recent
  versions of `requests` raise a `RequestException` subclass for it.
- The clock and `time.sleep`: `PollForResult` receives the replies to the polls
  that start before the deadline. Its deadline is the length of that sequence,
  not a number of seconds.
- The archive download happens at most once per call. It is one `Download`
  parameter (failed, not a zip archive, or the entries in order), and the
  `result_url` value only has to be truthy. Zip and JSON decoding are outside
  the model: an entry's content is either a decoded document or `NotJson`.
- Pixel decoding, LANCZOS resampling and JPEG encoding (Pillow): the decoder
  contributes only the size it read, or nothing when the bytes are not an
  image. The encoder contributes only its side limit of 65500. Memory
  exhaustion on very large enlargements and Pillow's decompression-bomb
  check are not modelled.
- ImageSize.Downscale: uses the exact ratio `1920 / longer`. The code's float
  ratio can leave the longer edge at 1919, as `FloatResize.LongerEdgeLandsBelow`
  shows; the in-bounds claims hold either way. The float ratio can also zero
  a side the exact ratio keeps at 1 (94080 x 49, `FloatResize.SideVanishes`),
  so `resize` raises where the model shrinks to 1920 x 1. That image still
  ends in a 400 in the model, because its enlargement exceeds the encoder
  limit. The same holds for every image whose side the float ratio zeroes,
  though this is not proved in general.
- ImageSize.Upscale: uses the exact ratio `480 / shorter`, the intended
  behaviour; see Findings for the float-ratio discrepancy.
- FloatResize: models binary64 only in the normal range and only for
  `int(side * (limit / edge))`; the rest of `prepare_image` uses the exact
  model.
- Scores.PyInt: NaN and infinities, which Python's `json` accepts and on
  which `int()` raises, are not JSON values here. Non-ASCII decimal digits in
  strings are not accepted. The 4300-digit limit is Python's default, in force
  since 3.11; a process that raises it with `sys.set_int_max_str_digits` or
  `PYTHONINTMAXSTRDIGITS` is not modelled.
- The exception messages and the `detail` text of each HTTP error: only the
  failure class, its phase, its status code and the data it carries are kept.
- Dictionary key order of the returned mapping: a Dafny map is unordered.

## Findings

| source | as written | input that shows it | evidently intended | confidence | as-written member | corrected member |
|---|---|---|---|---|---|---|
| app.py:59-62 | the enlargement multiplies each side by the binary64 ratio `480 / min_side` and truncates with `int()` | an 11 x 11 image: `480 / 11` rounds to 43.63636363636363, and 11 times it rounds to 479.99999999999994, which truncates to 479 | the shorter side ends at least 480, as the comment at line 58 says; integer arithmetic `side * 480 // min_side` gives this | not executed | FloatResize.ShortSideFallsShort | ImageSize.Upscale |
