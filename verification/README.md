# Frostlake PDO driver: a model and its proofs

The Frostlake PDO driver turns a prepared statement and its bindings into SQL text, sends that text
to an engine over HTTP as JSON, reads the JSON answer, and keeps one engine session behind each
connection although the engine may lose that session at any moment. This project models those four
parts and proves what they promise.

- **The session protocol** (`Session`, `Login`, `Connection`). One step is one request: a handle, a
  failure slot and what came back give the new handle and slot. `Session` and `Login` state the
  protocol as functions over an arbitrary script of answers; `Connection` is the driver itself, a class
  whose methods update its fields request by request, and each method is held to its function,
  including the exact text of every request it sends. `SessionProofs` holds for any answers at all.
  `Engine` states the contract of an engine that tracks sessions: a request that requires its session
  runs there or nowhere, any other request that runs does so in the session it names or in one with a
  never-used id, and an answer that succeeds or names a session tells the truth about both. Everything
  else is left to an adversary: sessions die between requests, answers get lost or arrive unreadable,
  statements are refused. `ContextSafety`, `OneSession`, `ScopeSafety`, `Delivery`, `Losses`,
  `LoginSafety` and `LoginScope` are about whole runs against such an engine, and `Client` runs the
  class through one. What a statement leaves behind is the real tracker's reading of it, never an
  abstract flag.
- **The SQL scanner, renderer and tracker** (`Scanner`, `Literals`, `Render`, `Lexing`, `Tracker` and
  their proofs). One scanner serves both. It looks at one character before a stretch and one after it,
  which `ScannerProofs` and `Lexing` turn into a local condition: a text's tokens are exactly those that
  fit between their neighbours.
- **The JSON codec** (`Json`, `JsonParser`, `JsonWriter`, `JsonProofs`, `Utf8Proofs`, `RequestText`):
  the recursive parser with its depth bound and exact number lexemes, the tree printer, the two string
  escapers, and the request writer.
- **HTTP body framing** (`Http`, `HttpProofs`) and the **growable buffer** (`StringBuffer`).

The theorems above go through definitions such as the scanner, the tracker's reading of words or the
parser's blanks. `Answers`, `ScannerForms`, `NumeralForms`, `RenderForms`, `TrackerForms`, `LoginForms` and
`JsonSpaced` pin those definitions from outside: they say, with every character and word written out,
which texts each of them accepts, where a stretch ends, what a statement leaves and what a call answers.

C pointers are positions in strings, byte buffers are arrays, and a C `char` is a Dafny `char`.
A text is a `string` whose characters carry byte values; where the source reads a text as a C string,
the model cuts it at its first NUL (`CText.CStr`). Failures keep their SQLSTATE and the reason, not
the wording of the message.

Two results differ from what one might expect of the code.

- *Rendering.* Substituting values leaves the rest of a statement lexing as it did exactly when no
  neighbour disturbs a token (`RenderTheorems.RescanExact`). Placeholders touching a quote, a `$` or
  another placeholder can break it, and so can a placeholder directly after a colon: `:?` bound to NULL
  becomes `:NULL`, which reads as a named parameter (`RenderTheorems.ColonTakesTheValue`).
- *Tracking.* The tracker keeps 31 characters of each of 16 words. It reads a request as the full
  words would exactly when no statement has 15 or more modifiers in front of what decides it, or the
  session is marked anyway (`TrackerProofs.BoundedTracksExactly`). The comment at
  `src/frostlake_sql.c:600-602` claims that splitting errs on the safe side only; that is not claimed
  here. Every guarantee is stated in terms of the tracker's own reading of acknowledged requests.

## Model

| member | source | states |
|---|---|---|
| LoginSafety.ConnectionIsSafe | src/frostlake_driver.c:345-358 | the whole life of a connection: for every data source, every honest engine and every run of calls after a successful login, nothing runs off the session holding what an acknowledged statement left, and every session started after the login gets the data source's USE statements, in login order, before its first statement |
| ContextSafety.ContextSafety | src/frostlake_wire.c:310-338 | over every run against an honest engine: while acknowledged statements have left context or an open transaction, every request of every call runs on that session or not at all, until a call returns 08003; a monitor that never sees the handle decides what is held |
| ContextSafety.CallSafe | src/frostlake_wire.c:253-358 | one call keeps the handle in step with the engine, keeps it agreeing with the monitor, and runs nothing off the held session |
| ContextSafety.ExecuteHonest | src/frostlake_wire.c:310-338 | execute against an honest engine ends in one of three ways: answered, run where the handle now is and tracked; lost with 08003 and nothing held; or failed with flags and held session unchanged |
| OneSession.ContextStaysOnItsSession | src/frostlake_wire.c:288-308 | if call i was acknowledged and its request set `dirty`, then until some call returns 08003 every request of every later call j runs on the session where call i ran, or not at all |
| OneSession.TransactionStaysOnItsSession | src/frostlake_wire.c:288-308 | the same for an open transaction, until an acknowledged statement ends it; the COMMIT or ROLLBACK itself runs there too |
| ScopeSafety.ReplacementsStartOnScope | src/frostlake_wire.c:253-282 | for every session started after connecting: the last requests run on it before its first statement are the whole scope in login order, each accepted or, if not required, refused as a statement, however often a loss restarted the pass |
| ScopeSafety.PassOnScope | src/frostlake_wire.c:253-282 | a pass over the scope, from any entry and with or without a restart behind it, leaves each session's history ending in the entries sent to it |
| Delivery.RunAtMostOnce | src/frostlake_wire.c:202-214 | in every run, with any losses, timeouts and unreadable answers, the engine runs each call's statement at most once, given only that a 404 without a session id means nothing ran |
| Delivery.ExecuteAtMostOnce | src/frostlake_wire.c:310-338 | the same of one call from any state: the second post is reached only after an answer meaning nothing ran |
| Delivery.LostSessionIsReplaced | src/frostlake_wire.c:317-336 | a lost session that held nothing is replaced silently: the statement, each USE in order and the statement once more are sent, and the call succeeds |
| Delivery.InterruptedPassStartsOver | src/frostlake_wire.c:253-282 | a pass that loses its session at any entry sends every entry again, from the first, on a fresh session, and succeeds |
| Delivery.SecondLossEndsThePass | src/frostlake_wire.c:261-267 | a second loss ends the pass with 08003, nothing more sent and the scope still owed |
| Answers.ResponseOfStatement | src/frostlake_wire.c:310-338 | when execute has a response, it is the parsed tree of the last exchange, which is the call's own statement answered with success, and that request carried exactly the call's SQL, its count if and only if it is not negative, and the handle's autocommit mode |
| Answers.ExecuteAnswers | src/frostlake_wire.c:153-338 | for every handle, failure slot and script: a response is the last answer's tree; no response means a failure explained by the last exchange, 08003 for a gone session, HYT00 for a timeout, 08S01 for an unreachable or unreadable server, else HY000 exactly for status 200 and 400, with the engine's message or the fallback |
| Answers.ExecuteFollows | src/frostlake_wire.c:153-338 | every request of a call is sent in the order of the script, a statement with its own SQL and count, a USE with its entry's text and no count, all in the handle's mode, so the second post repeats the first |
| Answers.AnswerIsSaid | src/frostlake_wire.c:164-224 | the response of execute is what the body of the last HTTP answer parses to, an object whose `success` is true |
| Answers.AnswerIsRead | src/frostlake_wire.c:190-224 | a body with `success`, `sessionId`, `newSession` and `errorMessage`, whatever follows them, is read field by field |
| Answers.FaultIsRead | src/frostlake_wire.c:202-207 | a body with only `error` is a failure with that message |
| Answers.OtherOutcomesAreRead | src/frostlake_wire.c:164-200 | a body that is no JSON object is unreadable and no answer is a failed call |
| Answers.AnswerMovesSession | src/frostlake_wire.c:121-148 | an answer that names a session is followed there, one that reports `newSession`, true or false, teaches the handle that the engine tracks sessions, and one started in place of the named session leaves nothing held but what the statement itself sets up, with the scope pending |
| Answers.IdleCheckSendsNothing | src/frostlake_wire.c:340-345 | a liveness check with no session and no scope pending asks only the health check, which decides it |
| Answers.HeldCheckReplacesNothing | src/frostlake_wire.c:353-358 | a check of a session that holds something sends one SELECT 1 that names it, and a loss leaves the handle as it was |
| Answers.FreeCheckIsAStatement | src/frostlake_wire.c:346-352 | a check of a session that holds nothing is a SELECT 1 sent like any statement |
| Losses.NoSilentFailure | src/frostlake_wire.c:153-338 | entered with a clean slot, execute has no response exactly when it leaves a failure in the slot, so tolerated refusals are cleared; and every gone answer, wherever in the call it comes, is followed by a request that names no session or ends the call with 08003 |
| Losses.ExecuteHandles | src/frostlake_wire.c:253-338 | the second half for every handle, slot and script: a gone answer inside the pass, after a restart, on the first post or on the second is retried without an id, or it is the last and the call returns 08003 |
| Losses.RunHandlesLosses | src/frostlake_wire.c:253-358 | the same over every run of calls from any handle; only the probe that never replaces a session may leave its loss to the next statement |
| Losses.LossesAreReported | src/frostlake_wire.c:288-308 | over every run against an honest engine: while the monitor says something is held, a statement that meets a gone answer sends nothing after it and returns 08003, naming the transaction before the context, and a liveness check fails without touching anything |
| SessionProofs.RequestBound | src/frostlake_wire.c:310-338 | against any answers one statement costs at most 18 requests |
| SessionProofs.ApplyScopeKeeps | src/frostlake_wire.c:253-282 | against any answers the pass terminates with at most two requests an entry, a consistent handle, an unchanged scope, success with no failure, and failure with one |
| SessionProofs.ExecuteKeeps | src/frostlake_wire.c:310-338 | against any answers at most 4 requests an entry and 2, and the handle invariants: tracking only moves up through -1, 0 and 1, a held id means it is not -1, a pending scope means it is 1 |
| SessionProofs.RunKeeps | src/frostlake_wire.c:110-148 | the same invariants and a request bound over every run of calls |
| SessionProofs.RunRatchets | src/frostlake_wire.c:157-162 | visible on the wire of every run: no request requires a session without naming one, and after the first that requires its session every request that names one requires it |
| Engine.HonestPost | src/frostlake_wire.c:153-224 | what one honest exchange can do to a handle in step with its engine: a held session is kept and nothing ran elsewhere, a gone one ran nothing and changed nothing, a statement refusal names where it ran |
| LoginSafety.ConnectIsReady | src/frostlake_driver.c:349-358 | a successful login against an honest engine leaves the handle in step, holding nothing, no scope pending, and on a session unless the scope is empty |
| Client.UseConnection | src/frostlake_driver.c:345-375 | a program that opens a connection and makes any calls sends exactly the request texts of the login and the run; if the engine honoured its contract in them, that very run is safe and its later sessions started on the scope |
| Client.MakeCalls | src/frostlake_wire.c:310-358 | one call after another on the class gives the results, the request texts and the state of the run of the theorems |
| LoginSafety.ConnectKeeps | src/frostlake_driver.c:307-375 | against any answers a login costs at most 48 requests, keeps at most four scope entries, succeeds exactly when no failure is left, and then the scope is the accepted names' USE statements in login order |
| LoginScope.ConnectCoversScope | src/frostlake_driver.c:276-301 | the session a successful login leaves has run the USE statement of every accepted name, in login order, each accepted or, if not required, refused as a statement, however often the session was lost on the way |
| LoginScope.PassCovers | src/frostlake_wire.c:253-282 | a pass that succeeds leaves a session that has taken the whole scope in order, from whatever entry it went on and however it was interrupted |
| LoginSafety.UseObjectJoins | src/frostlake_driver.c:260-305 | each tolerated or accepted USE keeps the login invariant, by which a lost role is never put back silently |
| LoginSafety.RefusedKeepsSession | src/frostlake_driver.c:294-301 | a USE that the engine refuses leaves its session held and no scope pending, provided a required entry means `dirty` |
| LoginSafety.UseIsOneStatement | src/frostlake_sql.c:202-230 | an accepted identifier cannot end its USE statement or open a comment: the request is exactly one statement to the scanner |
| Login.CheckIdentifier | src/frostlake_sql.c:202-230 | accepts exactly quoted names whose inner quotes are all paired and unquoted names of identifier characters |
| LoginForms.UnquotedNames | src/frostlake_sql.c:202-230 | an unquoted text is accepted if and only if it is a letter or underscore followed by letters, digits, underscores and dollar signs |
| LoginForms.QuotedNames | src/frostlake_sql.c:206-218 | a text in double quotes is accepted if and only if it is one or more pieces, each a character that is no double quote or a pair of them, between two |
| LoginForms.ScopeOfConnection | src/frostlake_driver.c:349-354 | the scope of an open connection is USE ROLE, required, then USE WAREHOUSE, USE DATABASE and USE SCHEMA, each only for a name given and accepted |
| LoginForms.RefusedUnasked | src/frostlake_driver.c:344-354 | an unhealthy server or a role that is no identifier refuses the connection with 08001 before any request |
| LoginForms.RefusedRole | src/frostlake_driver.c:286-305 | a role whose USE fails for any reason refuses the connection with that failure, nothing more sent |
| LoginForms.OptionalObject | src/frostlake_driver.c:286-305 | an object that is not required refuses the connection exactly when its USE fails other than as a refused statement |
| Connection.Connection.Post | src/frostlake_wire.c:153-224 | updates the connection and the slot as `Session.Post` says of the parsed answer, whose tree is what it answers, and sends exactly the text of the request built from the old state, with requireSession exactly when an id is held and tracking is 1 |
| Connection.ReadAnswer | src/frostlake_wire.c:190-215 | reads the answer's fields by parsing and lookups, with the fallback from errorMessage to error |
| Connection.Connection.AbsorbReply | src/frostlake_wire.c:124-148 | the connection becomes what `Session.Absorb` makes of it: tracking learned, a replaced session's context forgotten, the id adopted |
| Connection.Connection.ForgetSession | src/frostlake_wire.c:110-119 | no session, nothing held, scope pending, everything else unchanged |
| Connection.Connection.ApplyScope | src/frostlake_wire.c:253-282 | the loop with its reset index sends and leaves exactly what the recursive pass does, request texts in order |
| Connection.Connection.SessionLost | src/frostlake_wire.c:288-308 | reads the flags before forgetting them: 08003 for a transaction, else for context, else one more try |
| Connection.Connection.SendAgain | src/frostlake_wire.c:326-337 | the second post, its refusal as 08003, and tracking on an answer |
| Connection.Connection.Send | src/frostlake_wire.c:320-338 | the first post, the loss, the pass and the second post in the order of `Session.SendStatement`, with every request text |
| Connection.Connection.Execute | src/frostlake_wire.c:310-338 | puts a pending scope on first, then sends; state, slot, response and request texts are those of `Session.Execute`, and a response is the tree that the body of the last HTTP answer parses to, an object that says success |
| Connection.ExecuteOn | src/frostlake_wire.c:310-316 | a closed connection answers 08003 and sends nothing; an open one answers, as execute does, what the last HTTP answer's body parses to |
| Connection.Connection.SessionAlive | src/frostlake_wire.c:340-358 | the three ways of checking: health only, a replaceable probe, or a probe that never replaces a session that holds something |
| Connection.Connection.UseObject | src/frostlake_driver.c:260-305 | keeps the entry before sending it, skips or refuses names that are no identifiers, clears a tolerated refusal |
| Connection.HandleFactory | src/frostlake_driver.c:345-375 | opens a connection exactly when the health check and every USE allow it, flags reset, with every request text |
| Connection.Connection.TrackSession | src/frostlake_sql.c:603-637 | the walk to each top-level semicolon sets the two flags to the fold of the per-statement effect over the request's statements |
| Connection.Connection.TrackStatement | src/frostlake_sql.c:619-630 | one statement's effect on the two flags |
| Scanner.SkipNonPlaceholder | src/frostlake_sql.c:40-94 | the pointer walk finds exactly the end of the stretch opening here, with the lookback for `$$` and the lookahead for doubled quotes |
| ScannerForms.StringIsSkipped | src/frostlake_sql.c:41-56 | for every list of string pieces (a character that is neither quote nor backslash, a backslash and any character, or two quotes) between quotes, anywhere in a text with no quote behind it, exactly that stretch is skipped |
| ScannerForms.OpenStringRunsOn | src/frostlake_sql.c:43-55 | the same pieces without a closing quote, with or without a lone backslash last, run to the end of the text |
| ScannerForms.NameIsSkipped | src/frostlake_sql.c:57-70 | the same for quoted identifiers, closed or not, where only a doubled quote is no end |
| ScannerForms.LineIsSkipped | src/frostlake_sql.c:71-74 | a comment from `--` or `//` ends behind its first newline or with the text |
| ScannerForms.BlockIsSkipped | src/frostlake_sql.c:75-82 | a comment from slash-star ends behind the first star-slash or with the text |
| ScannerForms.BodyIsSkipped | src/frostlake_sql.c:83-92 | a body from `$$` ends behind the next `$$` or with the text, and behind a letter, digit, underscore or dollar sign `$$` opens nothing |
| ScannerForms.NothingElseOpens | src/frostlake_sql.c:40-94 | at any other character nothing is skipped |
| ScannerProofs.SkipMoves | src/frostlake_sql.c:40-94 | a stretch is decided by its own text, one character before it and one after it: any text with the same window has the same stretch |
| Literals.IsNumericLiteral | src/frostlake_sql.c:119-164 | accepts exactly what an automaton of numeric literals with surrounding blanks accepts |
| NumeralForms.NumericExactly | src/frostlake_sql.c:117-164 | a text is accepted if and only if it is blanks, an optional sign, digits, an optional point with digits, an optional exponent with at least one digit, and blanks, with a digit before or behind the point |
| Literals.AppendStringLiteral | src/frostlake_sql.c:168-186 | run by run, appends the text with quotes and backslashes doubled, between quotes |
| Literals.AppendBinaryLiteral | src/frostlake_sql.c:188-200 | appends X and the quoted hex pairs of all bytes |
| Literals.LiteralInverse | src/frostlake_sql.c:40-56 | in any text, scanning from the literal's opening quote consumes exactly the literal when no quote follows, and undoing the doubling by the scanner's rules gives back the bound text |
| Literals.UnhexOfHexPairs | src/frostlake_sql.c:188-200 | the hex digits of a binary literal name exactly the bound bytes |
| RenderLexing.LiteralFits | src/frostlake_sql.c:168-186 | between any two characters a quoted literal is one stretch exactly when the next is not a quote |
| RenderLexing.NumberIsTame | src/frostlake_sql.c:270-276 | an accepted number, spaced by append_number, opens no stretch, has no minus before a minus, and after a minus does not start with one |
| Render.AppendNumber | src/frostlake_sql.c:270-276 | appends the number, a space first when a minus would meet a minus |
| Render.AppendValue | src/frostlake_sql.c:307-378 | appends the literal of the value's binding type, or reports a value that cannot be converted |
| RenderForms.ValueReadsBack | src/frostlake_sql.c:307-378 | read by its own first and last characters, every literal means the bound value: keyword, number text, float name, unescaped string or decoded bytes |
| Render.Walk | src/frostlake_sql.c:401-455 | the template position, the counters, the used names and the output move together as the fill over the template's tokens, stopping where it stops |
| RenderForms.ColonOpensName | src/frostlake_sql.c:103-115 | at a colon outside every stretch with a letter or underscore behind it, the walk finds a plain colon exactly when the character before it is a letter, digit, `_`, `$`, `)`, `]`, `}`, a quote of either kind, `?` or `:`; otherwise a name of the colon and the longest run of letters, digits and underscores |
| RenderForms.ColonAlone | src/frostlake_sql.c:104-106 | every other colon is text |
| RenderForms.OtherCharacters | src/frostlake_sql.c:401-455 | outside every stretch a question mark is a placeholder and any other character is copied |
| Render.Render | src/frostlake_sql.c:382-482 | the rendering or the refusal of the statement, text unchanged when nothing is bound |
| RenderForms.UnboundTextIsKept | src/frostlake_sql.c:383-387 | with nothing bound every text goes through unchanged |
| RenderBindings.RenderAccepts | src/frostlake_sql.c:395-468 | rendering succeeds if and only if the template has only positional placeholders and the bound keys are their positions, or only named ones and the bound keys are the names used |
| RenderBindings.MixedStylesRefused | src/frostlake_sql.c:457-461 | with every placeholder bound, the mixed-styles refusal is given if and only if the template uses both, before any count is compared |
| RenderBindings.FirstMissingRefused | src/frostlake_sql.c:410-440 | the first placeholder with nothing bound decides the refusal: a count mismatch for a position, not defined for that very name |
| RenderBindings.FillSucceeds | src/frostlake_sql.c:410-449 | the walk succeeds exactly when every lookup finds something, and then counted every marker and collected every name |
| Lexing.LexFits | src/frostlake_sql.c:401-455 | a sequence of tokens is what the walk finds in its own text if and only if each token fits between the characters next to it |
| RenderTheorems.RenderedText | src/frostlake_sql.c:401-455 | the output spells the template's own tokens in order with the values' tokens between them |
| RenderTheorems.RescanExact | src/frostlake_sql.c:401-455 | rescanning the output finds exactly the template's own tokens in order with the values' tokens between them if and only if no character next to a token disturbs it: a quote after a string, an identifier character before or missing before `$$`, a name after a colon behind no operand |
| RenderTheorems.SafeTemplatesKeepTheirLexing | src/frostlake_sql.c:96-115 | a condition on the template alone is enough: no placeholder touches a single-quoted string or another placeholder, none follows a colon or precedes a `$`, and no number ending in a point or a blank precedes a colon |
| RenderTheorems.ColonTakesTheValue | src/frostlake_sql.c:103-115 | the concrete template where a value after a colon reads as a named parameter |
| RenderTheorems.NoPlaceholderRemains | src/frostlake_sql.c:401-455 | in an undisturbed rendering the scanner finds no placeholder |
| RenderTheorems.StatementCountKept | src/frostlake_sql.c:603-637 | in an undisturbed rendering the number of top-level statements is the template's |
| Tracker.ReadWord | src/frostlake_sql.c:516-523 | a word is passed whole and kept, upper-cased, up to 31 characters |
| Tracker.LeadingWords | src/frostlake_sql.c:501-530 | the kept part, 16 words of 31 characters, of the statement's full list of leading words |
| TrackerForms.GapsAreBlanksAndComments | src/frostlake_sql.c:504-514 | between leading words exactly one of the six blanks, or a comment as the scanner ends it, is passed over at a time |
| CText.LettersAndCapitals | src/frostlake_sql.c:519 | `isalpha` and `toupper` letter by letter: a small letter becomes its capital and every other character stays |
| Tracker.IsOneOf | src/frostlake_sql.c:532-539 | membership in the list |
| Tracker.ReadTouchesSession | src/frostlake_sql.c:553-577 | whether these words move the scope, set a variable, alter the session or make a temporary object, by the object's kind behind its modifiers |
| TrackerForms.SettingTouches | src/frostlake_sql.c:553-560 | every request whose first word is USE, SET or UNSET in any letter case, whatever follows, ends dirty |
| TrackerForms.ObjectTouches | src/frostlake_sql.c:561-577 | so does ALTER SESSION, and CREATE or DROP of DATABASE or SCHEMA behind any of the listed modifiers |
| TrackerForms.TemporaryTouches | src/frostlake_sql.c:541-577 | so does CREATE with TEMPORARY, TEMP or VOLATILE among its modifiers |
| TrackerForms.OtherObjectsLeaveNothing | src/frostlake_sql.c:561-577 | a single ALTER, DROP or CREATE of anything else, no modifier temporary, leaves both flags alone under autocommit |
| TrackerForms.OtherWordsLeaveNothing | src/frostlake_sql.c:553-631 | a single statement with any other first word leaves both flags alone under autocommit, and without it may have opened a transaction |
| TrackerForms.WordlessDoesNothing | src/frostlake_sql.c:501-529 | a statement that starts with no word, blank or comment changes nothing in either mode |
| Tracker.TransactionEffect | src/frostlake_sql.c:582-598 | -1 for words that end a transaction, 1 for words that open one, else 0 |
| TrackerForms.CommitEnds | src/frostlake_sql.c:582-631 | a single COMMIT or ROLLBACK, whatever follows, leaves no transaction in either mode and the context flag as it was |
| TrackerForms.BeginOpens | src/frostlake_sql.c:582-598 | BEGIN with TRANSACTION, WORK or NAME, and START TRANSACTION, leave a transaction open and the context flag as it was |
| TrackerForms.BeginAloneOpens | src/frostlake_sql.c:579-598 | so does BEGIN alone, blanks behind it or none |
| TrackerProofs.FoldMeans | src/frostlake_sql.c:621-630 | `dirty` afterwards means it was set or some statement touches the session; `in_transaction` means some transaction was left open and nothing after it ended it |
| TrackerProofs.BoundedTouchesExactly | src/frostlake_sql.c:501-577 | the kept words answer as the full words do, except exactly for statements whose decisive word lies behind 15 or more modifiers |
| TrackerProofs.BoundedTracksExactly | src/frostlake_sql.c:501-637 | tracking a request on bounded words equals tracking it on full words if and only if the session ends up dirty or no statement is overlooked |
| TrackerProofs.BoundedTracksFully | src/frostlake_sql.c:489-637 | with at most 14 modifiers behind each verb the two are equal |
| TrackerProofs.FifteenModifiersHideTheKind | src/frostlake_sql.c:489-637 | the bound is tight: for the request CREATE, fifteen times OR, DATABASE, the tracker sees nothing where the full words see `dirty` |
| TrackerLaws.TrackConcat | src/frostlake_sql.c:603-637 | tracking `a;b` with `a` lexically closed is tracking `a`, then `b`, despite the `$$` lookback |
| TrackerForms.StatementsRejoin | src/frostlake_sql.c:603-637 | the split loses nothing: the statements joined by semicolons are the request |
| TrackerLaws.OpenTextSwallows | src/frostlake_sql.c:71-74 | closedness is needed: a comment left open hides the USE behind it |
| TrackerLaws.UseTouches | src/frostlake_sql.c:553-560 | any request that starts with USE sets `dirty` |
| TrackerLaws.TrackIgnoresCase | src/frostlake_sql.c:501-530 | requests that differ in ASCII case only are tracked alike |
| TrackerGaps.TrackIgnoresGaps | src/frostlake_sql.c:501-530 | exchanging closed blanks and comments before or between the leading words of any statement of the request changes nothing |
| StringBuffer.StrBuf.Reserve | src/json.c:50-65 | contents kept, room for the extra characters and the terminator, capacity doubled from 256 |
| StringBuffer.StrBuf.Append | src/json.c:67-79 | the contents become old contents and text, terminated, and the storage stays lean |
| StringBuffer.AppendsStayLean | src/json.c:50-75 | over any sequence of appends: length is the sum, capacity is 256 or at most twice the length and its terminator, and all reallocations together moved fewer bytes than the final capacity |
| JsonParser.Parser.ParseHex4 | src/json.c:189-205 | the value of four hex digits of either case, or a failure with the cursor kept |
| JsonParser.Parser.ParseUnicode | src/json.c:229-246 | one escape or a recombined surrogate pair |
| JsonParser.Parser.ParseUnit | src/json.c:212-257 | one character or escape of a string |
| JsonParser.Parser.ParseStringBody | src/json.c:209-272 | the decoded text up to the closing quote and the cursor after it, or a failure |
| JsonParser.Parser.ParseNumber | src/json.c:289-315 | the exact lexeme over the number alphabet |
| JsonParser.Parser.ParseLiteral | src/json.c:326-344 | the word and its value, or a failure |
| JsonParser.Parser.ParseArray | src/json.c:346-376 | the loop's children are the array's elements, depth kept |
| JsonParser.Parser.ParseObject | src/json.c:378-427 | the loop's members are the object's, in order, duplicate keys kept, depth kept |
| JsonParser.Parser.ParseValue | src/json.c:429-451 | the value at the cursor within the depth bound, or a failure; depth restored |
| JsonParser.FlJsonParse | src/json.c:453-468 | the whole text is one value, or nothing |
| JsonParser.FlJsonGet | src/json.c:472-482 | the first member whose key reads as this C string |
| JsonParser.FlJsonGetString | src/json.c:484-487 | its text as a C string, if it is a string |
| JsonParser.FlJsonGetBool | src/json.c:496-502 | its truth, or the fallback |
| JsonProofs.ParseOfPrint | src/json.c:27 | for every tree with NUL-free strings and keys and number lexemes: parsing the printed tree gives the identical tree exactly when containers nest at most 64 deep, and fails otherwise |
| JsonProofs.ValueOfPrinted | src/json.c:346-451 | the same wherever the printed tree stands in a text and whatever depth is left |
| JsonSpaced.ParseOfSpelled | src/json.c:112-117 | the round trip with any runs of space, tab, newline and carriage return around every bracket, comma, colon, key and value and around the whole: the identical tree exactly when containers nest at most 64 deep, else nothing |
| JsonSpaced.ValueSpelled | src/json.c:346-451 | the same for a spelled value anywhere in a text and whatever depth is left |
| JsonSpaced.TrailingTextFails | src/json.c:453-468 | a value with anything but blanks behind it is not parsed |
| JsonSpaced.ShortEscapesRead | src/json.c:215-253 | behind a backslash the eight short escapes are read as their characters and anything else but `u` fails |
| JsonProofs.CodecBody | src/json.c:81-107 | the codec's escapes decode to the text they were made from |
| JsonProofs.WireBody | src/frostlake_wire.c:37-69 | the request writer's escapes decode to all bytes they were made from, NULs included |
| Utf8Proofs.DecodeOfUtf8 | src/json.c:164-187 | the encoder writes what a decoder built from section 3 of RFC 3629 reads, for every scalar value |
| Utf8Proofs.OneEscape | src/json.c:229-246 | a scalar of the basic plane written as one escape comes out as its encoding |
| Utf8Proofs.PairEscape | src/json.c:234-242 | a scalar beyond it written as a surrogate pair is consumed whole and comes out as its encoding |
| JsonWriter.AppendWireString | src/frostlake_wire.c:37-69 | run by run, appends the escaped text of exactly the given bytes |
| JsonWriter.AppendCodecString | src/json.c:81-108 | appends the escaped C string |
| JsonWriter.AppendJson | src/frostlake_sql.c:232-266 | appends the printed tree |
| JsonWriter.AppendElements | src/frostlake_sql.c:250-262 | a comma between every two elements, and the bracket |
| JsonWriter.AppendMembers | src/frostlake_sql.c:250-262 | a comma between every two members, each key before its value, and the brace |
| RequestText.BuildRequest | src/frostlake_wire.c:78-106 | the request's text, each field under its own condition and in order |
| RequestText.ParseOfText | src/frostlake_wire.c:78-106 | parsing that text gives an object of exactly the request's fields |
| RequestText.RequestRoundTrip | src/frostlake_wire.c:78-106 | reading the parsed text back gives the identical request: every byte of the SQL, the id, the demand, the count and the mode |
| RequestText.TextIsOneCString | src/frostlake_wire.c:37-69 | the text holds no control character, as section 7 of RFC 8259 demands, so read as a C string it is still the whole text and its measured length is the whole body whatever bytes the SQL holds |
| Http.MoveDown | src/http.c:163 | an overlapping move downwards copies the old bytes and touches nothing after them |
| Http.TakeChunk | src/http.c:151-168 | one turn of the loop, sizes read with their sign: the chunk's data joins what was written, the write position stays at or before the read position, and the bytes still to be read are untouched |
| Http.DecodeChunked | src/http.c:147-172 | decoding in place leaves the concatenated data at the front, terminated, and answers its length, or -1 for a body without a line end, with a size past the end, or with a negative size that wraps below zero |
| HttpProofs.DecodeOfBody | src/http.c:147-172 | for every body well-formed under section 7.1 of RFC 9112, with any data, extensions and trailer, decoding gives exactly the concatenation of the chunk data |
| HttpProofs.DecodeWithoutLast | src/http.c:150-170 | chunks that end with the body and no last chunk are their data all the same |
| HttpProofs.CutOffBodyFails | src/http.c:151-162 | behind any number of whole chunks, a size line without a line end or data shorter than its size is refused |
| Http.ReadAll | src/http.c:93-123 | the growing array ends up with everything received, terminated, or nothing after an error, and is never oversized |
| HttpProofs.AllIsReceived | src/http.c:100-122 | any pieces up to the end of the stream are received in order and whole |
| HttpProofs.ErrorLosesAll | src/http.c:111-114 | an error before the end of the stream leaves nothing |
| Http.LookUpHeader | src/http.c:126-144 | the text from the first matching header's value on |
| HttpProofs.FindHeaderOfBlock | src/http.c:126-144 | from any line of a block on, the answer is the value of the first header with this name in any letter case, any blanks behind its colon skipped, and what follows it |
| HttpProofs.FindHeaderOfHead | src/http.c:238-248 | the same behind a status line, which is what the source searches |
| Http.SplitResponse | src/http.c:219-266 | cuts the head off in place, decodes in place and answers what `Http.Split` says of the response, except where the decoding copy would leave the array |
| HttpProofs.SplitOfResponse | src/http.c:219-266 | for every status line, every header block and any payload, the split finds the end of the head, the status code and the payload, framed by the head |
| HttpProofs.ChunkedResponse | src/http.c:238-246 | for every such head that names the chunked encoding and every well-formed chunked body, the response is its status and the concatenated chunk data |
| HttpProofs.SizedResponse | src/http.c:247-255 | without it, a declared length that fits cuts the payload, and one that does not, or none, leaves it whole |
| HttpProofs.MalformedResponses | src/http.c:219-233 | a response without `HTTP/1.` in front or shorter than 12 is malformed, and so is one with no empty line anywhere |

## Left out

- Sockets, name lookup, timeouts and the classification of transport errors: what an HTTP call comes back with is a parameter, and a failed call is either a timeout or not.
- The health check of `pdo_frostlake_healthy` is a boolean parameter.
- PHP and PDO plumbing: attributes, exceptions, streams, fetching (`src/frostlake_statement.c`), persistent-handle reuse. A bound value arrives as a null, a boolean, a number's text, a special double, a string or bytes.
- The formatting of doubles: a formatted number is assumed to be a numeric literal where lexing matters.
- Allocation failure, `free` discipline and overflow of `size_t`.
- The release request sent when a connection closes, and the data source parser and its port check.
- Error messages: a failure is its SQLSTATE and its reason, with the engine's own message where it gives one.
- Locales: character classes are those of the C locale.
- Engines that do not report `newSession`, or that answer a demand for a session by starting one: `SessionProofs` covers them, the whole-run theorems about honest engines do not.
- What acknowledged statements really leave on a session beyond what the tracker reads: scripting blocks, CALL, EXECUTE IMMEDIATE, requests that failed part-way or timed out after running.
- Agreement of leading words with the scanner inside `$$` bodies: `$` is a word character to one and opens a body to the other.
- TrackerForms.ObjectTouches: the verb, its modifiers and the kind are at most 16 words, as many as the source keeps; `TrackerProofs.BoundedTracksExactly` says what happens beyond, and that `TrackerForms.TemporaryTouches` has the same bound.
- TrackerForms.CommitEnds: like the other lemmas there about one statement, words are separated by one blank; `TrackerGaps.TrackIgnoresGaps` exchanges it for any blanks and comments.
- RenderBindings.RenderAccepts: assumes fewer than 2^32 bindings, which is all a PHP hash table can hold, because the source compares the counts in 32 bits.
- RenderTheorems.SafeTemplatesKeepTheirLexing: one direction only, because its condition looks at the template alone; the exact condition is `RenderTheorems.RescanExact`.
- OneSession.ContextStaysOnItsSession: starts from a statement, not from a liveness check, whose own probe never sets context.
- OneSession.TransactionStaysOnItsSession: starts from a statement, not from the probe of a liveness check; `ContextSafety.ContextSafety` covers the probe too.
- HttpProofs.DecodeOfBody: the trailer section is any text, since the source stops reading at the last chunk; chunk sizes with a sign, blanks or `0x` in front are outside the grammar, though `Http.ChunkSize` reads them.
- Http.DecodeChunked: promises no result where a negative chunk size passes the source's length check, because the source's copy is not defined there; `Http.NextChunk` says exactly when that is.
- Http.SplitResponse: promises nothing for the same bodies.
- HttpProofs.FindHeaderOfBlock: header lines hold no carriage return and no NUL.
- HttpProofs.SizedResponse: a Content-Length that is no plain number is not covered.
- Http.ReadAll: a single `recv` gives at most 4096 characters, as the source asks of it.
- Utf8Proofs.PairEscape: malformed surrogate escapes are not covered; the parser's treatment of them is part of `Json.StringUnit` but nothing is claimed about it.
- JsonParser.Parser.ParseArray: children are a sequence, not a reallocated array of pointers; sharing and ownership of nodes are not modelled.
- Render.Walk: bindings are a map from positions and names, so the order in which values were bound and hash collisions are not modelled.
