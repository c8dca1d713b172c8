# Dessa reminder page: a verified model of its logic

The repository is a one-file Streamlit page (`streamlit/streamlit_app.py`).
Through it, employees create, check and cancel a daily reminder kept by a
remote API. The page holds a view mode (home, create, status, remove) in the
session state. It checks the form fields, posts one JSON request per
submission, and reads the API's answer as success or failure. This project
models that logic in Dafny and proves what the page promises about it.

Modules, one per part of the page:

- `Wrappers`: `Option`, for absent dictionary keys and for a request that may
  or may not be sent.
- `Text`: Python's `str.strip()`, written as CPython computes it: count the
  leading and trailing whitespace, then slice. Lemmas prove that the result is
  the unique stripped middle of the input, that stripping is idempotent, and
  that a string strips to `""` exactly when it is all whitespace.
- `Email`: the pattern `^[\w.+\-]+@([\w\-]+\.)+[A-Za-z]{2,}$`, in two forms.
  `Pattern` follows the pattern's structure: a local part, `@`, one or more
  `label.` groups, then a top-level segment. `Accepts` is a left-to-right
  recogniser with seven kinds of state; `Segment(n)` counts letters up to 2,
  so nine states are reachable. `AcceptsIffPattern` proves the two agree on
  every string. `RegexMatch` adds Python's rule that `$` also matches before a
  final newline. `IsValidEmail`'s contract shows that this rule cannot matter
  after `strip()`.
- `Forms`: the required-field checks of the three forms, in the source's order
  (name first, then e-mail). Also the JSON object each request posts, with its
  inverse.
- `Gateway`: `api_post`. It covers the missing-endpoint error, the success
  rule (`r.ok and bool(data.get("success"))`), which failure message is picked,
  and the connection-error path.
- `Session`: the mode machine. The class `Session` has the `mode` field of the
  session state and three methods. `InitMode` covers lines 10-11 and
  `ResetToHome` covers `reset_to_home`. `Rerun` is one run of the page script
  for one interaction. It is proved equal to the pure functions `NextMode` (the
  new mode) and `React` (what is shown and what is sent), and the lemmas are
  stated about those two functions.

On these points the model follows the code:

- The error texts are the page's Indonesian ones (lines 71, 73, 95 and 117),
  as `Forms.FieldError.Message` gives them.
- The mode is set to home only when the session has no mode yet (lines 10-11).
- A decoded body that is not a JSON object gets no special check (line 19).
  Calling `.get` on it raises `AttributeError`, and the `except` clause turns
  that into a "Kesalahan koneksi: …" reply (lines 21-22). `Gateway.Classify`
  models this.
- `data.get("message", "Gagal memproses.")` (line 20) returns the member's
  value of any JSON type, `null` included. That is why a reply's `value` is a
  `Json`.

## Model

| member | source | states |
|---|---|---|
| `Text.Trim` | streamlit/streamlit_app.py:70 | `strip()` leaves no whitespace at either end and never lengthens the input |
| `Text.TrimSlice` | streamlit/streamlit_app.py:70 | the stripped text is the input with a whitespace prefix and a whitespace suffix removed |
| `Text.TrimUnique` | streamlit/streamlit_app.py:70 | any split of the input into whitespace, a stripped middle and whitespace has `Trim` as its middle |
| `Text.TrimIdempotent` | streamlit/streamlit_app.py:77 | stripping an already stripped field changes nothing |
| `Text.TrimEmptyIff` | streamlit/streamlit_app.py:70 | `not s.strip()` holds exactly when `s` is all whitespace |
| `Email.RegexMatch` | streamlit/streamlit_app.py:8 | definition: `re.match` with the pattern succeeds when the string fits it, or fits it once a final `\n` is dropped (Python's `$`) |
| `Email.Accepts` | streamlit/streamlit_app.py:8 | the recogniser accepts a string exactly when it fits the pattern |
| `Email.AcceptsIffPattern` | streamlit/streamlit_app.py:8 | the recogniser's run from its start state ends accepting if and only if the string fits `^[\w.+\-]+@([\w\-]+\.)+[A-Za-z]{2,}$` |
| `Email.AcceptsSound` | streamlit/streamlit_app.py:8 | every accepted string splits into local part, `@`, labels and a 2+ letter top level |
| `Email.AcceptsComplete` | streamlit/streamlit_app.py:8 | every string of that shape is accepted |
| `Email.IsValidEmail` | streamlit/streamlit_app.py:72 | the form's check is exactly `EMAIL_RE.match(email.strip())`, including Python's `$`-before-newline rule |
| `Email.AcceptedShape` | streamlit/streamlit_app.py:8 | an accepted address has exactly one `@`, ends in a letter and has at least 6 characters |
| `Forms.Fields` | streamlit/streamlit_app.py:77 | the posted object has the action tag plus `name`/`email` for create, or only `id` for status and remove |
| `Forms.FieldsRoundTrip` | streamlit/streamlit_app.py:77 | the posted object determines the request, and a request is read back only from its own object |
| `Forms.FieldError.Message` | streamlit/streamlit_app.py:71-117 | definition: the texts shown for the name, e-mail and id errors (lines 71, 73, 95, 117) |
| `Forms.CheckCreate` | streamlit/streamlit_app.py:69-77 | name error iff the name is blank, whatever the e-mail; e-mail error iff the name is not blank and the stripped e-mail does not match; otherwise it sends the stripped name and e-mail, non-empty, stripped and of the pattern's shape |
| `Forms.CheckStatusId` | streamlit/streamlit_app.py:93-98 | the id error iff the id is blank; otherwise a status request with the stripped, non-empty id |
| `Forms.CheckRemoveId` | streamlit/streamlit_app.py:115-120 | the id error iff the id is blank; otherwise a remove request with the stripped, non-empty id |
| `Forms.CreateResubmits` | streamlit/streamlit_app.py:69-77 | submitting the fields of a well-formed create request sends that same request |
| `Forms.IdResubmits` | streamlit/streamlit_app.py:93-120 | submitting a well-formed id sends the same status or remove request |
| `Gateway.ApiBase` | streamlit/streamlit_app.py:5 | the endpoint as loaded is stripped, and is empty iff the secret is absent or all whitespace |
| `Gateway.Truthy` | streamlit/streamlit_app.py:19 | definition: Python's `bool()` of a decoded value, false exactly for `null`, `false`, zero and empty strings, lists and objects |
| `Gateway.Succeeded` | streamlit/streamlit_app.py:19 | definition: the response is `ok`, the body is an object, and its `success` member is present and truthy |
| `Gateway.Classify` | streamlit/streamlit_app.py:16-22 | ok iff the response is `ok` and the body's `success` is truthy; on success the whole body; otherwise the body's `message`, or "Gagal memproses.", or "Kesalahan koneksi: " and the cause |
| `Gateway.ApiPost` | streamlit/streamlit_app.py:13-22 | with no endpoint: no request, configuration message; otherwise exactly one request to the endpoint with the payload, and the classified reply |
| `Gateway.NoEndpointNoCall` | streamlit/streamlit_app.py:14-15 | with the secret absent or blank nothing is sent, and the network's answer makes no difference |
| `Gateway.SuccessIsStable` | streamlit/streamlit_app.py:19-20 | a successful reply's value is itself a success body |
| `Gateway.ConnectionCauseKept` | streamlit/streamlit_app.py:21-22 | the connection-error text is the fixed prefix followed by the cause, unchanged |
| `Gateway.FailureCases` | streamlit/streamlit_app.py:17-20 | a transport failure, a non-object body, a response that is not ok, or a missing or falsy `success` each fail |
| `Session.InitialMode` | streamlit/streamlit_app.py:10-11 | home when no mode is stored, the stored mode otherwise |
| `Session.NextMode` | streamlit/streamlit_app.py:46-114 | definition: a home button from home selects its view, back from a form view returns home, and nothing else moves the mode (the lemmas below prove these) |
| `Session.React` | streamlit/streamlit_app.py:69-125 | definition: the checks of the form the current view shows, then either the field error or one `api_post` and its reply (the lemmas below prove these) |
| `Session.Session.InitMode` | streamlit/streamlit_app.py:10-11 | sets the mode to home only if it is absent |
| `Session.Session.ResetToHome` | streamlit/streamlit_app.py:24-25 | the mode is home afterwards, whatever it was |
| `Session.Session.Rerun` | streamlit/streamlit_app.py:34-125 | one script run: new mode is `NextMode` of the initialised mode, and what is shown and sent is `React` |
| `Session.HomeButtons` | streamlit/streamlit_app.py:46-55 | the three home buttons lead to create, status and remove |
| `Session.BackIsReset` | streamlit/streamlit_app.py:66-68 | back always ends on home, and a second back changes nothing |
| `Session.OnlyTransitions` | streamlit/streamlit_app.py:34-125 | the mode changes only by a home button from home or by back to home |
| `Session.SubmissionKeepsMode` | streamlit/streamlit_app.py:69-81 | a submission, accepted or refused, never changes the mode |
| `Session.RequestOnlyWhenValid` | streamlit/streamlit_app.py:74-77 | a request goes out only for the current view's form, after its checks pass, and only with an endpoint |
| `Session.CreateRequestBody` | streamlit/streamlit_app.py:69-77 | a create request requires a non-blank name and a matching e-mail, and posts `{"action":"create","name":…,"email":…}` with the stripped fields |
| `Session.IdRequestBody` | streamlit/streamlit_app.py:93-98 | a status or remove submission with a non-blank id posts its action tag and the stripped id |
| `Session.BlankNameNoRequest` | streamlit/streamlit_app.py:69-71 | a blank name shows the name error and sends nothing, whatever the e-mail |
| `Session.BlankIdNoRequest` | streamlit/streamlit_app.py:94-95 | a blank id, in the status or the remove view, shows the id error and sends nothing |
| `Session.ValidSubmissionAnswered` | streamlit/streamlit_app.py:76-77 | a submission that passes its checks, with an endpoint, sends one request and shows the classified reply |
| `Session.NavigationSendsNothing` | streamlit/streamlit_app.py:46-55 | button presses and idle re-runs show nothing and send nothing |

## Left out

- Rendering: titles, captions, layout, spinners, and the text of success and
  error messages (lines 27-30, 35-56, 79, 100-101, 122-123, 127-128). The
  model records which error or reply is shown, not how it is formatted.
- The HTTP call: `requests.post`, its 15-second timeout and JSON decoding
  (lines 17-18). A `Gateway.Transport` value stands for their outcome: a
  failure with the exception's text, or a response with its `ok` flag and the
  decoded body. The text of a foreign exception is a parameter. The only
  exception text the model writes out is the `AttributeError` raised by `.get`
  on a body that is not an object.
- `Response.ok` is taken as a flag. How `requests` derives it from the status
  code is not part of this model.
- JSON numbers are `int` or `real`. NaN and infinities, which Python's decoder
  also accepts, are not modelled.
- Configuration: reading `st.secrets` and `APP_TITLE` (lines 5-6). The endpoint
  secret arrives as a parameter, and `Gateway.ApiBase` models only its default
  and `.strip()`.
- Unicode. `\w` is modelled as ASCII letters, digits and `_`. Whitespace for
  `strip()` is modelled as the ASCII characters Python counts as whitespace
  (space, 9-13, 28-31).
- Streamlit's execution model. Each interaction is one event and one script
  run. A button pressed in one run shows its view on the next run, so the page
  tells users to click twice. The model does not capture this delay. No
  concurrency exists to model.
