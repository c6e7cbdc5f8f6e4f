# Omega query pipeline, modelled in Dafny

Omega is a Streamlit page that lets a user upload a table and ask for charts
in plain language. Each question runs through three language-model "agents":
a column checker that answers yes or no, a coder that writes a matplotlib
script, and an insight writer that describes the resulting image. A
controller (`process_query`) chains them, runs the generated script in a
temporary directory, and halts early on a "no", on a missing figure or on any
exception. The page keeps a chat history in the session.

This project models the deterministic logic around those calls:

- `Text`: the Python string operations the code relies on: `strip()` with
  Python's exact whitespace set, `lower()`, `startswith`/`endswith`,
  and `str.replace`. A count of occurrences and `str.split`/`join` are
  not called by the application; they serve to reason about `replace`.
- `Coder`: the fence clean-up of the coder's reply (`coder_agent`).
- `Executor`: `os.path.join` for the plot path and the rewrite of the literal
  `'plot.png'` into the quoted temporary path.
- `Pipeline`: verdict normalisation (`query_agent`), the never-raising
  insight writer (`insights_agent`), and the controller `process_query` as a
  function of the external results. Exceptions become a tagged `Outcome`
  (`Returned` or `Raised`). The controller also returns the list of external
  calls it made, so "the coder is never called" can be stated.
- `Chat`: the session history as a class with a field the methods reassign.
  It is created with one greeting if absent. Each submitted query appends the
  user's turn and the assistant's turn.

The language-model replies, the outcome of executing the script (raised, no
file, or the image bytes read back) and the narration are inputs of type
`Oracles`. They are already applied to the dataset and the query, which the
model therefore does not carry.

Behaviour of the code worth knowing:

- The checker's verdict is not binary. Only a reply that trims and
  lower-cases to exactly `no` halts; any other text proceeds
  (`Pipeline.Proceeds`).
- A script that raises yields the generic error reply
  `❌ Error processing query: …`. It does not yield the
  "Failed to generate visualization." reply, which is reserved for a script
  that finishes without writing the file.
- Exceptions from the checker and the coder do not escape: the controller's
  `try` turns them into the error reply too.
- A figure file that exists but is empty is returned as an image of zero
  bytes. The chat page then records a text turn holding the insights
  (`Chat.AssistantTurn`).

## Model

| member | source | states |
|---|---|---|
| Text.IsSpace | app.py:214 | definition of Python's `str.isspace` for one code point, the set `strip()` removes; no ensures |
| Text.StartsWith | app.py:248-250 | definition of `str.startswith`; no ensures; used by CleanCode and its lemmas |
| Text.EndsWith | app.py:252 | definition of `str.endswith`; no ensures; used by CleanCode and its lemmas |
| Text.TrimStart | app.py:245 | what is kept is empty or starts with non-whitespace, and text that already starts with non-whitespace is left as it is |
| Text.TrimEnd | app.py:245 | what is kept is empty or ends with non-whitespace, and text that already ends with non-whitespace is left as it is |
| Text.TrimStartIsSuffix | app.py:245 | the left trim keeps a suffix of the input and everything it drops is whitespace |
| Text.TrimEndIsPrefix | app.py:245 | the right trim keeps a prefix of the input and everything it drops is whitespace |
| Text.Strip | app.py:255 | `strip()` leaves no whitespace at either end, never lengthens, and leaves such text unchanged |
| Text.StripIsSlice | app.py:245 | `strip()` keeps one contiguous slice of the text and everything outside it is whitespace |
| Text.StripIdempotent | app.py:255 | stripping twice is stripping once |
| Text.Lower | app.py:214 | lower-casing keeps the length |
| Text.LowerAt | app.py:214 | every character of the lower-cased text is the lower-cased character at the same position |
| Text.LowerChar | app.py:214 | each upper-case ASCII letter becomes the same letter in lower case, every other character is kept, and whitespace stays whitespace |
| Text.ReplaceAll | app.py:316 | definition of Python's `str.replace`, without an ensures; ReplaceAllIsSplitJoin, ReplaceAllLength, ReplaceAllAbsent and ReplaceAllSelf state its behaviour |
| Text.CountZeroIffAbsent | app.py:316 | the count of non-overlapping occurrences is zero exactly when the pattern does not occur |
| Text.ReplaceAllLength | app.py:316 | `replace` changes the length by the count times the length difference of replacement and pattern |
| Text.ReplaceAllAbsent | app.py:316 | text without the pattern is returned unchanged |
| Text.ReplaceAllSelf | app.py:316 | replacing the pattern by itself changes nothing |
| Text.ReplaceAllIsSplitJoin | app.py:316 | `replace(p, r)` equals `r.join(split(p))`, the reference reading of replace-all |
| Text.SplitJoinRoundTrip | app.py:316 | joining the split pieces with the pattern restores the text |
| Text.SplitHeadIsPrefix | app.py:316 | the first split piece is a prefix of the text |
| Text.SplitPiecesAreFree | app.py:316 | no split piece contains the pattern |
| Coder.CleanCode | app.py:245-255 | the cleaned script has no whitespace at either end and is never longer than the reply |
| Coder.CleanCodeUnfencedIff | app.py:245-255 | the result is just the trimmed reply exactly when the trimmed reply neither starts nor ends with a fence |
| Coder.CleanCodePythonBlock | app.py:248-255 | a "```python" + body + "```" reply yields the trimmed body when the body does not open with a fence, with no stray "python" |
| Coder.CleanCodeBareBlock | app.py:248-255 | a "```" + body + "```" reply yields the trimmed body unless the body starts with "python" |
| Executor.JoinPath | app.py:304 | definition of POSIX `os.path.join` for a relative name, without an ensures; JoinPathShape states its behaviour |
| Executor.PlotPath | app.py:304 | definition of `plot_path`, without an ensures; JoinPathShape states its behaviour |
| Executor.QuotedPlotPath | app.py:316 | definition of the replacement `f"'{plot_path}'"`, without an ensures; QuotedPlotPathIsLonger states its length |
| Executor.JoinPathShape | app.py:304 | `os.path.join` starts with the directory, ends with the name, and puts a '/' between them exactly when the directory is non-empty and does not end with one |
| Executor.QuotedPlotPathIsLonger | app.py:304-316 | inside a non-empty directory the quoted plot path is longer than the quoted literal it replaces |
| Executor.RewriteOutputPath | app.py:316 | the executed script is the original cut at each non-overlapping 'plot.png' literal, found scanning from the left, and glued back with the quoted plot path; RewriteReplacesEveryLiteral and RewriteUnchangedIff state the rest |
| Executor.RewriteReplacesEveryLiteral | app.py:316 | the rewrite cuts the script at each non-overlapping 'plot.png' literal, found scanning from the left, and glues the pieces with the quoted path; the pieces contain no literal and glue back to the script |
| Executor.RewriteUnchangedIff | app.py:316 | for a real temporary directory the script is unchanged exactly when it has no 'plot.png' literal |
| Executor.RewriteIgnoresDoubleQuotes | app.py:316 | a script with no single quote, such as one saving to "plot.png", is executed as generated |
| Pipeline.NormaliseVerdict | app.py:214 | the normalised verdict has no whitespace at either end and is never longer than the reply |
| Pipeline.VerdictIsNoIff | app.py:214 | the verdict is "no" exactly when the trimmed reply is no, No, nO or NO |
| Pipeline.InsightsText | app.py:257-286 | the insight writer never raises; a failed narration becomes "Error generating insights: " and the error text |
| Pipeline.ErrorReply | app.py:332-333 | a caught exception gives a message with the error prefix and no image |
| Pipeline.Proceeds | app.py:295 | definition of the test that lets a query through: the checker answered and its normalised verdict is not "no"; no ensures; VerdictIsNoIff and HaltsExactlyOnNo state it |
| Pipeline.ScriptFor | app.py:300-316 | definition of the executed script: the coder's reply cleaned, then rewritten; no ensures; CleanCode and RewriteOutputPath state its parts |
| Pipeline.ProcessQuery | app.py:288-333 | the external calls form a non-empty prefix of check, generate, execute, narrate; code generation happens exactly when the verdict is not "no"; an image comes back exactly when narration ran |
| Pipeline.AfterExecution | app.py:317-330 | once the script has run, the trace holds at least check, generate and execute, and an image comes back exactly when the script saved one, which is exactly when narration ran |
| Pipeline.ExecutionDecides | app.py:299-330 | once the checker let the query through and the coder answered, the controller's outcome is the one decided by what the script produced |
| Pipeline.ExecutionIffReached | app.py:299-324 | the script was executed exactly when the call trace reaches the execute stage |
| Pipeline.HaltsExactlyOnNo | app.py:295-296 | the fixed "not present" reply without an image comes back exactly when the verdict is "no", and then only the checker was called |
| Pipeline.OtherwiseNotNotPresent | app.py:290-333 | every other path ends in a different reply |
| Pipeline.ExecutionNotNotPresent | app.py:317-330 | once the script ran, the reply is not the "not present" one |
| Pipeline.ErrorIsNotNotPresent | app.py:332-333 | no error reply equals the "not present" message |
| Pipeline.FailedIsNotNotPresent | app.py:324 | the failure message differs from the "not present" message |
| Pipeline.NoFileFails | app.py:320-324 | a script that leaves no file gives the fixed failure reply without an image, and narration is not called |
| Pipeline.ExceptionsAreReported | app.py:332-333 | an exception from checker, coder or script gives the error prefix plus its text, without an image |
| Pipeline.ImageAlwaysComesBack | app.py:326-330 | once an image is read back, the reply is the insights (or the narration's error text) with that image, after all four calls |
| Pipeline.ImageOnlyFromExecution | app.py:319-330 | an image is returned exactly when the script saved one, and it is that image |
| Chat.UserTurn | app.py:449-453 | the user's turn is a text turn holding the query |
| Chat.AssistantTurn | app.py:458-473 | the assistant's turn is a visualization with image and insights exactly when the image is non-empty, and otherwise text holding the message |
| Chat.HistoryAfter | app.py:407-473 | the history after n queries holds 1 + 2n turns |
| Chat.ExchangeKeepsShape | app.py:449-473 | appending a user turn and an assistant turn keeps the greeting-then-pairs shape with well-formed turns |
| Chat.HistoryAfterHasShape | app.py:407-473 | every history starts with the greeting, then user turns at odd and assistant turns at even positions, all well formed |
| Chat.HistoryIsAppendOnly | app.py:449-473 | later queries never change earlier turns |
| Chat.Session.constructor | app.py:407 | a new session holds no history |
| Chat.Session.InitHistory | app.py:407-414 | the history is created holding only the greeting if absent, and left alone otherwise |
| Chat.Session.Append | app.py:449 | append adds one turn at the end |
| Chat.Session.RecordExchange | app.py:449-473 | exactly two turns are added, the user's and then the assistant's, and earlier turns stay |
| Chat.Session.Interact | app.py:407-473 | the history exists afterwards and keeps the greeting-then-pairs shape; an empty input changes nothing; a query appends its two turns with the controller's reply |

## Left out

- The language-model calls (app.py:207-214, 237-245, 263-283). Their replies are inputs (`Oracles.checker`, `Oracles.coder`, `Oracles.narrator`), because they are non-deterministic foreign results. A reply whose content is missing makes `.strip()` raise in the checker and the coder; the model folds that into `Raised`.
- Pipeline.InsightsText: a narration reply whose content is missing is returned as `None` by the source; the model's narrator always returns text.
- Executing the generated script with matplotlib (app.py:317) and reading the figure back (app.py:320-322). They become one input, `Oracles.execute`, applied to the rewritten script, with outcome raised, no file, or the bytes read. The code is arbitrary, so nothing more can be said about it.
- Creating and removing the temporary directory (app.py:303). Its path is a parameter. An error raised while removing it is not modelled.
- Base64 data-URL encoding of the image (app.py:260-261). It is a library call (RFC 4648, section 4) and cannot fail on bytes.
- Dataset upload and parsing with pandas, the dataset summary shown in the sidebar, and the schema and sample text put into prompts (app.py:205, 235, 356-397). These are I/O and library calls.
- All Streamlit rendering, spinners, styles and HTML (app.py:14-176, 335-496), `st.rerun()`, and the API-key lookup (app.py:179-185).
- Text.Lower: models ASCII lower-casing only, not Python's full Unicode `lower()`. No other character lower-cases to `n` or `o`, so the halting decision is unaffected.
- Pipeline.NormaliseVerdict: the bound "never longer than the reply" comes from the ASCII-only lowering; Python's `lower()` can lengthen text (U+0130 becomes two code points). Whether the verdict is "no" is unaffected.
- Pipeline.ProcessQuery: the controller catches only `Exception` (app.py:332). A `SystemExit` raised by the generated script, for instance through `sys.exit()`, escapes the controller and is not modelled; every raise of the script is an `ExecRaised` here.
- Chat.Session.Interact: when such a `SystemExit` escapes, the source has already appended the user's turn (app.py:449-453) and never appends the assistant's (app.py:456-473), so the history is left ending in a user turn and loses its greeting-then-pairs shape. The model always appends both turns.
- Executor.JoinPath: models POSIX `os.path.join` only, for a relative file name.
- Concurrency: overlapping page runs that interleave appends to the history are not modelled. Each `Interact` runs to completion.
- Chat.Session.Interact: an empty string stands for "nothing submitted"; Streamlit's `None` and `""` are both falsy in the source.
