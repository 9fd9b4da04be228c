# Transaction classifier: request handling core

This project models the deterministic logic of the Flask application in
`app.py`, a web service that classifies a free-text financial transaction as
Legal, Illegal or Suspicious.

- **Compose** (`compose.dfy`) builds the classifier's input for `/predict`. It
  strips the description and refuses a blank one with status 400. It then
  appends the context clauses of the optional fields that are present:
  `Amount: $…`, `From: …`, `To: …`, `Payment method: …` and `Category: …`, in
  that order, joined with `", "` after `". "`.
- **Labels** (`labels.dfy`) maps the classifier's raw token to a display label.
  The token is looked up upper-cased in a three-entry table. A token missing
  from the table is shown unchanged.
- **Reasons** (`reasons.dfy`) models `get_reason`. It picks one of seven fixed
  sentences by testing the lower-cased label for "legal", "illegal" and
  "suspicious", and by looking for keywords in the lower-cased text.
- **Predict** (`predict.dfy`) chains these steps. The classifier is a function
  parameter that returns a token or the message of the exception it raised.
  `Predict` uses `get_reason` as written. `IntendedPredict` gives the same
  reply with the reason chosen by the corrected `get_reason` (see "## Findings").
- **Accounts** (`accounts.dfy`) holds the user table and the login session in a
  class, `UserRegistry`. Its methods are `Signup`, `Login` and `Logout`.
  Usernames are compared under the `username` column's collation, which is a
  parameter. A case-insensitive collation (MySQL's default) treats "Alice"
  and "alice" as the same user.
- **Reports** (`reports.dfy`) models the per-user counts on the reports page.
  Each count is the number of stored labels that match `LIKE '%Legal%'`,
  `'%Illegal%'` or `'%Suspicious%'`. Whether the database collation ignores
  case is a parameter.
- **Text** (`text.dfy`) defines the Python string primitives these rely on:
  `str.strip` (with the `str.isspace` character set), `lower`, `upper`, the
  substring test `needle in hay`, and `sep.join`.
- **Wrappers** (`wrappers.dfy`) defines `Option` and `Result`.

The reports page reads as if each stored label matched exactly one of the
three patterns. That holds only under a case-sensitive collation. MySQL's
default collation ignores case, and then `%Legal%` also matches `Illegal ❌`. The model follows the code:
`Reports.CaseInsensitiveTotal` proves that every Illegal transaction is then
counted twice.

## Model

| member | source | states |
|---|---|---|
| Text.Strip | app.py:194 | the stripped text neither starts nor ends with a whitespace character |
| Text.TrimStartSuffix | app.py:194 | what the left strip removes is whitespace, and what it keeps is the rest of the text unchanged |
| Text.TrimEndPrefix | app.py:194 | what the right strip removes is whitespace, and what it keeps is the start of the text unchanged |
| Text.StripEmptyIff | app.py:194-195 | the stripped text is empty exactly when every character of the input is whitespace |
| Text.StripInfix | app.py:194 | the input is the stripped text with only whitespace before and after it |
| Text.StripKeepsTrimmed | app.py:138 | a text that neither starts nor ends with whitespace is left unchanged by stripping |
| Text.StripIdempotent | app.py:194 | stripping an already stripped text changes nothing |
| Text.ContainsIff | app.py:99 | the left-to-right substring scan answers true exactly when the needle starts at some position of the text |
| Text.ContainsTransitive | app.py:99-103 | a substring of a substring of the text is a substring of the text |
| Text.NotContains | app.py:99 | a text lacking some character of the needle does not contain the needle |
| Compose.ComposeInput | app.py:193-211 | a missing or blank description is refused with "Description is required" (status 400), and only then |
| Compose.PresentIndices | app.py:200-209 | lists, in increasing order, exactly the positions of the present fields |
| Compose.ContextPartsFollowTable | app.py:199-209 | the handler's five conditional appends produce the clause of each present field, in the fixed order Amount, From, To, Payment method, Category |
| Compose.ComposeSpec | app.py:199-211 | with a usable description, the input is the stripped description, then ". " and the unstripped clauses joined with ", "; it is the stripped description alone exactly when no optional field is present |
| Compose.ComposeExample | app.py:194-211 | "  Pay invoice " with amount 100, sender US and an empty receiver becomes "Pay invoice. Amount: $100, From: US" |
| Labels.MapLabelRange | app.py:87-91 | the display label is one of the three table entries or the raw token; it is the raw token exactly when the token's upper-case form is not a key |
| Labels.ShownIllegalIff | app.py:217 | a token is shown as `Illegal ❌` exactly when it is a case variant of `LABEL_1`, or is the text `Illegal ❌` itself passed through |
| Labels.MapLabelIdempotent | app.py:217 | mapping an already mapped label changes nothing |
| Labels.MapLabelExamples | app.py:217 | `label_0` and `LABEL_0` both give `Legal ✅`, and an unknown token comes back in its original case |
| Reasons.Reason | app.py:97-111 | as written, every reason is one of the seven fixed sentences |
| Reasons.AnyInIff | app.py:100 | the `any(word in text ...)` test is true exactly when some keyword is a substring of the text |
| Reasons.LegalBranch | app.py:99-102 | for a label containing "legal", the first Legal sentence is returned exactly when a Legal keyword occurs, and the second otherwise |
| Reasons.IllegalContainsLegal | app.py:99-103 | every text containing "illegal" contains "legal" |
| Reasons.IllegalBranchUnreachable | app.py:103-106 | as written, neither Illegal sentence is ever returned, for any text and any label |
| Reasons.SuspiciousBranch | app.py:107-110 | for a label containing "suspicious" but not "legal", the first Suspicious sentence is returned exactly when a Suspicious keyword occurs, and the second otherwise |
| Reasons.FallbackIff | app.py:111 | the fallback sentence is returned exactly for labels containing neither "legal" nor "suspicious" |
| Reasons.IllegalLabelGetsLegalReason | app.py:99-102 | the mapped `Illegal ❌` label is always explained with a Legal sentence; with the text "fraud" the reason is "No illegal or suspicious terms detected…" |
| Reasons.SalaryExample | app.py:98-101 | "salary credited" under `Legal ✅` gets the first Legal sentence |
| Reasons.PaymentsExample | app.py:98-101 | keywords match case-blind substrings: "Monthly PAYMENTS" under `Legal ✅` matches "payment" |
| Reasons.NoKeywordExample | app.py:102 | "Weekly rent" under `Legal ✅` gets the second Legal sentence |
| Reasons.FallbackExample | app.py:111 | the label "Unknown ???" gets the fallback sentence whatever the text |
| Reasons.IntendedReason | app.py:97-111 | with the Illegal test first, every reason is still one of the seven sentences |
| Reasons.IntendedIllegalReason | app.py:103-106 | with the Illegal test first, a label containing "illegal" gets the first Illegal sentence exactly when an Illegal keyword occurs, and the second otherwise |
| Reasons.IntendedAgreesElsewhere | app.py:97-111 | on every label not containing "illegal", the corrected function and the as-written one agree |
| Reasons.IntendedIllegalExample | app.py:103-105 | the mapped `Illegal ❌` label with the text "fraud" now gets "Contains keywords typically associated with unlawful…", which differs from the as-written reason |
| Predict.Predict | app.py:193-227 | a blank description is refused with status 400, and only then; a classifier exception becomes status 500 "Model inference failed: …"; otherwise the reply carries the mapped label and `get_reason` as written, applied to the composed input and that label |
| Predict.IntendedPredict | app.py:213-227 | the corrected handler fails exactly when the handler as written fails, with the same error; otherwise it shows the same label, and its reason is the corrected `get_reason` of the composed input and that label |
| Predict.BlankDescriptionSkipsClassifier | app.py:194-196 | a blank description is answered without consulting the classifier |
| Predict.ClassifierSeesComposedInput | app.py:211-214 | the reply depends on the classifier only through its answer on the composed input |
| Predict.IllegalTokenPrediction | app.py:214-218 | as written, a token read as `LABEL_1` in any case is shown as `Illegal ❌` but explained with a Legal sentence: the first exactly when a Legal keyword occurs in the composed input |
| Predict.IntendedIllegalTokenPrediction | app.py:214-218 | in the corrected handler, a token read as `LABEL_1` is shown as `Illegal ❌` and explained with an Illegal sentence: the first exactly when an Illegal keyword occurs |
| Predict.IntendedPredictAgrees | app.py:213-227 | the correction changes no reply whose label does not contain "illegal" |
| Accounts.CheckMatchesGenerate | app.py:146-160 | a generated hash checks against the password it was made from, and against no other |
| Accounts.InsertKeepsTable | app.py:146-148 | adding a user whose name's collation key is new, under the next id, keeps each row under its own key and the ids unique |
| Accounts.InsertKeepsValid | app.py:146-148 | the same insertion keeps the session valid and adds exactly one row |
| Accounts.UserRegistry.constructor | app.py:38-42 | the table and the session start empty, under the given collation |
| Accounts.UserRegistry.Signup | app.py:136-150 | both fields are stripped; an empty field is refused, then a username whose collation key is taken (app.py:143); otherwise exactly one row is added and the other rows are left unchanged |
| Accounts.UserRegistry.Login | app.py:154-167 | both fields are stripped; the login succeeds exactly when the username's collation key finds a row whose hash checks (app.py:159-160), and the session then holds that row's id and stored username; a failed login leaves the session unchanged |
| Accounts.UserRegistry.Logout | app.py:171-175 | the session is cleared |
| Accounts.SignupThenLogin | app.py:136-167 | after a successful signup, logging in with the same credentials succeeds and the session holds the stripped username |
| Accounts.CaseVariantLogin | app.py:143-164 | under a case-insensitive collation, after a successful signup, logging in under a case variant of the name succeeds with the name as signed up in the session, and signing up the variant is refused as taken |
| Reports.NotLike | app.py:286-299 | a label lacking some character of the pattern word, in both cases, never matches `%word%` |
| Reports.LegalLabelMatches | app.py:286-299 | `Legal ✅` matches `%Legal%` and neither other pattern, under either collation |
| Reports.IllegalLabelMatches | app.py:286-299 | `Illegal ❌` matches `%Illegal%` and not `%Suspicious%`; it matches `%Legal%` exactly when case is ignored |
| Reports.SuspiciousLabelMatches | app.py:286-299 | `Suspicious ⚠️` matches `%Suspicious%` and neither other pattern, under either collation |
| Reports.CountsOfDisplayLabels | app.py:286-301 | over display labels, `%Illegal%` and `%Suspicious%` count exactly their own label; `%Legal%` counts the Legal labels, plus the Illegal ones when case is ignored |
| Reports.CaseSensitiveTotal | app.py:301 | when every stored label is one of the three display labels, the case-sensitive total equals the number of stored transactions |
| Reports.CaseInsensitiveTotal | app.py:301 | when every stored label is one of the three display labels, the case-insensitive total exceeds the number of stored transactions by the number of Illegal ones |
| Reports.ReportExample | app.py:286-301 | two Legal and one Illegal give counts 2, 1, 0 and total 3 when case matters, and 3, 1, 0 and total 4 when it does not |

## Left out

- Python's `str.lower` and `str.upper` are modelled for ASCII letters only. Full Unicode case mapping is not modelled. This matters where a non-ASCII character maps to an ASCII one: Python lower-cases U+212A KELVIN SIGN to `k` and `İ` (U+0130) to `i` plus a combining dot, and upper-cases `ı` (U+0131) to `I` and `ſ` (U+017F) to `S`. So a text reading "UNKNOWN" with a Kelvin sign matches the keyword "unknown" at app.py:108 in Python, but not in the model. The label lookup at app.py:217 is not affected, because no table key contains `I` or `S`.
- Request fields are modelled as absent or present strings. JSON values that are not strings (numbers, `null`, lists), and the resulting `AttributeError` on a non-string description, are not modelled.
- The classifier, tokenizer and model loading (app.py:72-82) are a function parameter of `Predict.Predict`. The confidence score and the `all_predictions` field of the reply are floating point and opaque, and are not modelled.
- Password hashing is an ideal digest. `generate_password_hash` stores the secret with a salt, passed in as a parameter in place of the library's randomness. `check_password_hash` compares secrets. The real hash function is not modelled.
- Flask plumbing is not modelled: redirects, `flash` messages, `login_required`, the `next` parameter and template rendering.
- The `/save` endpoint, the history query and `init-db` are persistence and rendering only, and are not modelled. Amount parsing with `float` is floating point.
- Reports.Like: the `LIKE` match models a collation as either case-sensitive or ASCII case-insensitive. Accent folding and other collation rules are not modelled.
- Accounts.Key: a case-insensitive collation is modelled as ASCII lower-casing. Accent-insensitive matching, and MySQL's padding of trailing spaces, are not modelled. Trailing spaces cannot occur because names are stripped first.
- Accounts.UserRegistry.Signup: the 150-character limit of the username column and database commit failures are not modelled.
- script.js, init_db.py and create_database.py are not part of this model. They hold browser UI code and database setup I/O.

## Findings

| source | as written | input that shows it | evidently intended | confidence | as-written member | corrected member |
|---|---|---|---|---|---|---|
| app.py:99-106 | `get_reason` tests `"legal" in label.lower()` before `"illegal"`; every label containing "illegal" also contains "legal", so the Illegal branch is never reached | label `Illegal ❌` (from token `LABEL_1`) with text "fraud" returns "No illegal or suspicious terms detected, indicating lawful activity." | test "illegal" first, so that the Illegal label gets "Contains keywords typically associated with unlawful or fraudulent activity." | high, not executed | Reasons.IllegalBranchUnreachable | Reasons.IntendedIllegalReason |
