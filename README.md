# Klickon Auth: a Dafny model of registration, login and the browser checks

This project models the core of Klickon Auth. Klickon Auth is a small Flask
service in which users register with a username, an email and a password, log
in, see a dashboard and log out. Its browser script checks the forms before they
are sent. The model covers the following.

- **Password hashing** (`password_hasher.dfy`):
  - which bytes reach bcrypt: the UTF-8 text when it has at most 72 bytes, otherwise the 64-character hex SHA-256 digest;
  - the always-prehash fallback of `safe_hash_password`;
  - the two attempts of `safe_verify_password`.

  bcrypt and SHA-256 are function values of a `Crypto` record. The one thing the proofs assume about bcrypt is the premise `Sound`. For inputs it reads in full, a hash it made matches its own input, and checking such an input that it does not refuse against such a hash gives an answer rather than raising. An input it refuses, of any length, makes both hashing and checking raise.
- **UTF-8** (`utf8.dfy`): encoding and strict decoding. Both are written out so that the 72-byte test and the session-id rule can be stated about real bytes.
- **Python `str.strip()`/`str.lower()` and JavaScript `trim()`** (`text.dfy`), each with its own set of whitespace characters.
- **`verify_recaptcha`** (`recaptcha.dfy`): the form it posts and the empty-secret guard. The siteverify endpoint is an oracle.
- **`_generate_sid`** (`session_id.dfy`): a byte identifier becomes text by UTF-8 decoding.
- **The handlers `register`, `login`, `dashboard_get` and `logout`** (`auth_server.dfy`):
  - the `users` collection with its unique index on `email` is a `Directory` class;
  - the session dictionary is a `Session` class;
  - each state-changing handler is a method whose result and new state are those of a pure outcome function (`RegisterOutcome`, `LoginOutcome`);
  - the lemmas are stated on those functions.
- **The browser checks of `static/script.js`** (`client_validation.dfy`):
  - the strength score and its label;
  - the email pattern;
  - the 128-character cap of the password field;
  - `validateForm` on a form reduced to its inputs (type, id, `required`, value) and the message shown beside each.
- **The two password length limits side by side** (`password_caps.dfy`): the browser allows 8 to 128 characters, the server 8 to 200.

The handlers depend on things the model does not compute. These are parameters:

- the email validator (`Services.validateEmail`);
- the reCAPTCHA endpoint;
- the salts `bcrypt.gensalt()` draws;
- the `_id` the store assigns;
- whether the store faults (`insertFault`, `lookupFault`).

Two consequences of the code that the model makes explicit:

- **Verification does not mirror hashing.** The main attempt of `safe_hash_password` prehashes exactly when the password's UTF-8 form has more than 72 bytes; its fallback always prehashes. `safe_verify_password` (app.py:118-123) checks a password of at most 72 bytes raw, and after a mismatch also checks its digest. The extra digest check lets a short password verify against the hash the fallback path made.
- **A different string can verify.** `DigestStringVerifies` shows that the 64-character hex digest of a long password verifies against that password's hash. Its 64 ASCII bytes are exactly what bcrypt hashed, and, having at most 72 bytes, it matches on the raw check at app.py:119. So no lemma can say that every wrong password is refused.
- **A password bcrypt refuses cannot log in.** The premise `Sound` lets bcrypt refuse some inputs outright (in `hashpw` and `checkpw` alike). A password of at most 72 bytes that bcrypt refuses still registers, because the fallback hashes its digest. At login it is checked raw first, bcrypt raises, and the `except` answers false before the digest is tried (`RefusedShortPasswordIsStored`, `RefusedPasswordLocksOut`).

## Model

| member | source | states |
|---|---|---|
| Utf8.Encode | app.py:90-92 | `str.encode('utf-8')`: the byte count the 72-byte test sees is at least the character count and at most four times it |
| Utf8.Decode | app.py:47-48 | strict `bytes.decode('utf-8')`: the empty byte string decodes to the empty text, and a decoded text has no more characters than there were bytes |
| Utf8.DecodeEncode | app.py:47-48 | decoding the UTF-8 encoding of any text gives the same text back |
| Utf8.DecodeFirstEncodeChar | app.py:47-48 | the decoder reads back each scalar value from the front of its encoding, taking exactly the bytes of that encoding |
| Utf8.EncodeCharDecodeFirst | app.py:47-48 | the scalar value the decoder reads at the front of some bytes encodes back to exactly the bytes it took |
| Utf8.EncodeDecode | app.py:47-48 | any bytes that decode as UTF-8 re-encode to exactly those bytes |
| Text.Trim | app.py:136-137 | the result is no longer than the input and neither starts nor ends with whitespace |
| Text.Strip | app.py:136-137 | Python's `strip()`: no longer than the input, and a non-empty result neither starts nor ends with a Python whitespace character |
| Text.JsTrim | static/script.js:171 | JavaScript's `trim()`: no longer than the input, and a non-empty result neither starts nor ends with a JavaScript whitespace character |
| Text.TrimPiece | app.py:136-137 | the stripped value is a contiguous piece of the input, and only whitespace is cut from either end |
| Text.TrimEmptyIff | app.py:141 | a field strips to the empty string exactly when every character of it is whitespace |
| Text.TrimIdempotent | app.py:136-137 | stripping a stripped value changes nothing |
| Text.Lower | app.py:137 | lower-casing keeps the length and lowers each ASCII capital, leaving every other character unchanged |
| PasswordHasher.HexDigest | app.py:93 | the hex digest has two lower-case hex digits per digest byte, the high nibble first |
| PasswordHasher.Prehash | app.py:93-94 | the prehash is always 64 bytes, each the code of a lower-case hex digit |
| PasswordHasher.BcryptInput | app.py:89-97 | bcrypt never gets more than 72 bytes; a password of at most 72 bytes goes in as its UTF-8 bytes, a longer one as its prehash |
| PasswordHasher.SafeHashPassword | app.py:84-110 | never raises; the main attempt's hash whenever it succeeds, otherwise the fallback's; nothing exactly when both attempts failed |
| PasswordHasher.SafeVerifyPassword | app.py:112-127 | a missing or non-string hash is false; otherwise true exactly when a password of at most 72 bytes matched raw, or the raw check was skipped (over 72 bytes) or mismatched and the prehash matched; a bcrypt exception on the raw check is false |
| PasswordHasher.HashThenVerify | app.py:84-127 | whichever path produced the hash, the password it was made from verifies against it, exactly unless it has at most 72 bytes that bcrypt refuses |
| PasswordHasher.RefusedShortPasswordNeverVerifies | app.py:118-127 | a password of at most 72 bytes that bcrypt refuses verifies against no stored hash |
| PasswordHasher.RefusedShortPasswordIsStored | app.py:98-107 | such a password is still hashed, by the fallback, and does not verify against that hash |
| PasswordHasher.DigestStringVerifies | app.py:92-123 | for a password over 72 bytes, its hex SHA-256 digest is a different string that verifies against the same hash |
| PasswordHasher.TwoByteText | app.py:90-92 | text of two-byte characters has twice as many bytes as characters, so 37 of them already take the prehash path |
| Recaptcha.Payload | app.py:74-76 | the posted form has the secret and the token, and the remote address exactly when it is present and not empty |
| Recaptcha.VerifyRecaptcha | app.py:71-82 | false whenever the secret is empty; true exactly when a secret is configured and siteverify answered success |
| SessionId.GenerateSid | app.py:45-49 | a text id is returned as it is; a byte id that decodes gives text whose UTF-8 form is exactly those bytes |
| SessionId.GenerateSidOfEncoded | app.py:47-48 | the UTF-8 bytes of any text normalise to that text |
| SessionId.GenerateSidInjective | app.py:47-48 | two byte ids that normalise to the same text are the same id |
| SessionId.GenerateSidIdempotent | app.py:45-49 | normalising an already normalised id changes nothing |
| AuthServer.Directory.InsertOne | app.py:168 | the insert succeeds exactly when the store does not fault and no record has the email, and only then adds the record under its email |
| AuthServer.Directory.FindOne | app.py:186 | finds a stored record with the given email, or reports that no record has it |
| AuthServer.Session.Clear | app.py:194 | the session becomes empty |
| AuthServer.Session.Put | app.py:195-197 | the session gains one key with its value and keeps the rest |
| AuthServer.MessageText | app.py:142-203 | the text rendered for each status message (no contract of its own; see the next row) |
| AuthServer.MessageTextInjective | app.py:142-203 | different status messages render different texts |
| AuthServer.RegisterRejection | app.py:141-165 | no rejection exactly when all six guards pass |
| AuthServer.RegisterOutcome | app.py:135-174 | once every guard passes, a store fault or an email already on file gives the single "already registered" message and anything else success; the directory is unchanged unless the message is the success message; on success every guard passed, the email was new, and exactly the new record was added |
| AuthServer.CheckRegistration | app.py:136-165 | the guard chain gives the first failing guard's message, or the record to insert once all pass |
| AuthServer.Register | app.py:135-174 | the rendered message and the new directory are those of the outcome function, and one record per email is kept |
| AuthServer.SessionFor | app.py:194-197 | the session after a login holds exactly `user_id`, `username` and `email`, taken from the record |
| AuthServer.LoginOutcome | app.py:178-203 | the fields message exactly when a field is empty; the system-error message exactly when the fields are filled and the lookup faulted; the dashboard, with the record's username and email, exactly when the fields are filled, the lookup did not fault, the email is known and the password verifies; the credentials message exactly when the email is unknown or the password does not verify; only a successful login changes the session, to the matched record's claims |
| AuthServer.Login | app.py:178-203 | the page and the new session are those of the outcome function |
| AuthServer.DashboardGet | app.py:206-210 | forbidden exactly when `user_id` is missing or empty; otherwise the dashboard shows the session's username and email |
| AuthServer.Logout | app.py:213-215 | the session is empty afterwards whatever it held, so a second logout changes nothing; the answer is a redirect to the index |
| AuthServer.RegisterGuardOrder | app.py:141-165 | each rejection message appears exactly when its guard fails and all earlier guards passed, in the order fields, reCAPTCHA, email, too short, too long, hashing |
| AuthServer.RegisterKeepsDirectoryValid | app.py:217-219 | registration keeps every record filed under its own email, so there is one record per email |
| AuthServer.EmptySecretBlocksRegistration | app.py:141-145 | with no reCAPTCHA secret configured, every registration is rejected and the directory is unchanged |
| AuthServer.RegisteredRecord | app.py:136-168 | a stored record has the stripped non-empty username, the validator's form of the stripped lower-cased email, a password of 8 to 200 characters, and a hash that verifies against that password exactly unless bcrypt refuses a password of at most 72 bytes |
| AuthServer.SecondRegistrationRejected | app.py:167-172 | once an email is registered, a later registration with the same validated email does not succeed and leaves the directory unchanged |
| AuthServer.LoginFailuresIndistinguishable | app.py:186-192 | an unknown email and a wrong password give the same page and leave the session untouched |
| AuthServer.RegisterThenLogin | app.py:135-197 | when the validator keeps the normalised email and bcrypt does not refuse a short password, logging in after registering with the same email and password opens the new record's session |
| AuthServer.RefusedPasswordLocksOut | app.py:98-192 | a registered password of at most 72 bytes that bcrypt refuses always fails to log in as wrong credentials |
| AuthServer.RewrittenEmailLocksOut | app.py:148-188 | when the validator rewrites the address, logging in with the email as typed does not find the new account |
| AuthServer.RegisterTwiceSucceedsOnce | app.py:167-174 | the same form with passing guards and no fault registers the first time and is refused as already registered the second |
| AuthServer.DashboardAfterLogin | app.py:194-210 | after a successful login with a non-empty id, the dashboard is allowed and shows the record's username and email |
| ClientValidation.CountTrue | static/script.js:66-71 | the number of criteria met lies between zero and the number of criteria |
| ClientValidation.CountTrueExtremes | static/script.js:66-72 | the count equals the number of criteria exactly when all hold, and is zero exactly when none holds |
| ClientValidation.ScoreAsSum | static/script.js:66-72 | the score is one point for each of the five criteria that holds |
| ClientValidation.GetPasswordStrength | static/script.js:65-73 | the returned strength is the number of criteria the password meets |
| ClientValidation.ScoreRange | static/script.js:65-73 | the score is between 0 and 5, and is 5 exactly when all five criteria hold |
| ClientValidation.EmptyScoresZero | static/script.js:66-72 | the empty password scores 0 |
| ClientValidation.StrengthLabel | static/script.js:96-118 | a label exists exactly for the scores 0 to 5 |
| ClientValidation.WeakestLabelShared | static/script.js:97-101 | scores 0 and 1 share the weakest label and colour |
| ClientValidation.LabelsDistinct | static/script.js:102-117 | scores 1 to 5 have pairwise different messages and colours |
| ClientValidation.IndicatorOf | static/script.js:82-123 | there is no strength box exactly when the field is empty |
| ClientValidation.IndicatorNamesLabel | static/script.js:95-123 | a non-empty password's box names its label and uses its colour, never an undefined one |
| ClientValidation.Truncate | static/script.js:16-17 | the value is at most 128 characters and a prefix of the input; it is unchanged when at most 128, and exactly 128 long otherwise |
| ClientValidation.PasswordField.ShowPasswordStrength | static/script.js:75-126 | the strength box is replaced by the one for the field's value, and nothing else changes |
| ClientValidation.PasswordField.OnInput | static/script.js:12-26 | the value is truncated to 128 characters; a longer value is flagged with the old box kept, while a shorter one clears the error and shows its strength |
| ClientValidation.IsValidEmail | static/script.js:128-131 | the pattern `^[^\s@]+@[^\s@]+\.[^\s@]+$` (no contract of its own; see the next row) |
| ClientValidation.EmailCharacterisation | static/script.js:128-131 | the email pattern matches exactly when there is no whitespace and exactly one '@' with something before it, and the part after it has a '.' that is neither its first nor its last character |
| ClientValidation.FirstIndex | static/script.js:178-185 | the selected input is the first one in document order that the selector picks, or none when no input is picked |
| ClientValidation.EmailError | static/script.js:179-182 | the email message appears exactly when the value is not empty and fails the pattern |
| ClientValidation.PasswordLengthError | static/script.js:186-194 | no message exactly when the length is 8 to 128; the short message below 8 and the long message above 128 |
| ClientValidation.Form.OnEmailBlur | static/script.js:32-38 | leaving an email field shows the email message, or clears it, for that field only |
| ClientValidation.Form.ClearRequiredErrors | static/script.js:166-167 | every required input's message is cleared and the others keep theirs |
| ClientValidation.Form.FlagBlankRequired | static/script.js:169-175 | each required input that trims to nothing is flagged; the result is true exactly when there is none |
| ClientValidation.Form.CheckFirstEmail | static/script.js:177-182 | only the first email input may be flagged; the result is true exactly when it is empty or well formed |
| ClientValidation.Form.CheckPasswordLength | static/script.js:184-194 | only the `#password` element may be flagged; the result is true exactly when its length is 8 to 128 |
| ClientValidation.Form.ValidateForm | static/script.js:162-197 | true exactly when no required input is blank, the first email input is empty or well formed, and the `#password` element holds 8 to 128 characters; every message is the one the validation steps leave |
| ClientValidation.FormValid | static/script.js:162-196 | when `validateForm` accepts a form (no contract of its own; `ValidateForm` returns it) |
| ClientValidation.RefusedFormShowsError | static/script.js:169-194 | a refused form shows at least one message |
| ClientValidation.AcceptedFormClearsRequired | static/script.js:166-196 | an accepted form shows no message on a required input, and no new message on any other |
| PasswordCaps.ClientLimitWithinServerLimit | static/script.js:186-193 | a password length the browser accepts also passes both of the server's length guards |
| PasswordCaps.ServerAcceptsLongerThanClient | app.py:153-157 | a password of 129 to 200 characters is refused by the browser but passes the server's length guards |

## Left out

- Flask routing, template rendering, `redirect` and `abort`: each handler's answer is a `Page` value, and index pages carry a `Message` tag whose text is `AuthServer.MessageText`.
- Redis, MongoDB and flask_session are left out as I/O: the directory and the session are maps. Of the session interface only the bytes-to-text rule of `_generate_sid` is kept.
- How the backend draws a random session id is left out; the id it returns is the input of `GenerateSid`.
- Rate limiting (app.py:59-64, 134, 177) is left out: its counters live inside flask_limiter, and only the configuration is visible.
- bcrypt, SHA-256 and email_validator are foreign code. They are function parameters. The parts of the bcrypt premise `Sound` about matching and answering cover only inputs of at most 72 bytes, which are the only inputs the hasher gives bcrypt; its refusal parts cover inputs of any length.
- The reCAPTCHA HTTP request, its 10-second timeout and JSON decoding are left out as network I/O: `SiteVerify` answers the `success` field, or None when any of them raised.
- PasswordHasher.SafeVerifyPassword: no lemma says a wrong password is refused. Whether bcrypt rejects one is not part of the premise, and the digest string of a long password is accepted (see above).
- Which inputs bcrypt refuses is not modelled: `refuses` is a parameter. Whether the bcrypt version in use refuses NUL bytes, for instance, is outside this model.
- Python strings holding lone surrogates cannot be represented: Dafny characters are Unicode scalar values. For such strings `encode('utf-8')` raises and both hash attempts fail.
- Text.Lower: lowers only the ASCII capitals. Python's `str.lower()` also lowers the other cased Unicode letters.
- The unique index on `email` is created only when the module runs as the main program (app.py:224-225). The model assumes it exists, so the directory always refuses a duplicate email.
- Store faults are one flag per call. A fault while the session is written (app.py:194-197) is not modelled; it would give the system-error page after the session was cleared.
- Startup, environment loading, the log `print`s and `app.run` (app.py:13-28, 224-230) are not modelled. `migrate_sqlite_to_mongo.py` is not part of this model.
- JavaScript strings are treated as sequences of characters. JavaScript's `length` and `substring` count UTF-16 code units, so a non-BMP character counts twice in the browser but once on the server.
- DOM and browser work is not modelled: element creation and removal, CSS, the timers, animations, focus, keyboard shortcuts, theme detection and `showLoading`. The `maxlength` attribute set at static/script.js:10 is also left out.
- Error messages are kept per input. Two inputs that share a parent element, and so share one error slot in the page, are not modelled.
- The `#password` element is taken to be an input of the same form.
