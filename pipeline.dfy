/** The query-processing pipeline: the column checker's verdict, the insight
    generator's error handling and the controller that chains checker, code
    generator, executor and insight generator, halting on a negative verdict,
    on a missing figure or on any exception.

    The language-model calls and the execution of the generated script are
    not modelled; their results are inputs (`Oracles`). Exceptions are not
    control flow here: every external call either returns a value or raises
    an error whose text is `str(e)`. */
module Pipeline {
  import opened Text
  import opened Coder
  import opened Executor

  newtype byte = b: int | 0 <= b < 256

  /** The contents of an image file. */
  type Bytes = seq<byte>

  datatype Option<T> = None | Some(value: T)

  /** What an external call did: returned a value, or raised an exception
      whose string form is `error`. */
  datatype Outcome<T> = Returned(value: T) | Raised(error: string)

  /** What running the rewritten script left behind: it raised (or reading
      its figure back raised), it finished without writing the figure, or it
      wrote the figure, whose bytes were read back. */
  datatype ExecResult = ExecRaised(error: string) | NoFile | Saved(image: Bytes)

  /** The external calls the controller can make, in the order it makes them. */
  datatype Stage = CheckColumns | GenerateCode | ExecuteCode | GenerateInsights

  /** The results of the external calls for one query (already applied to the
      dataset and the query): the checker's raw reply, the coder's raw reply,
      what executing a given script produces, and what narrating a given
      image produces. */
  datatype Oracles = Oracles(
    checker: Outcome<string>,
    coder: Outcome<string>,
    execute: string -> ExecResult,
    narrator: Bytes -> Outcome<string>)

  /** The pair the controller hands back: a message and, on success, the image. */
  datatype Reply = Reply(message: string, image: Option<Bytes>)

  /** One run of the controller: its reply and the external calls it made. */
  datatype Run = Run(reply: Reply, calls: seq<Stage>)

  const AllStages: seq<Stage> := [CheckColumns, GenerateCode, ExecuteCode, GenerateInsights]

  /** The reply when the checker says the columns are missing. */
  const NotPresentMessage: string :=
    "❌ The attributes you're looking for"
    + " are not present in the dataset. Please check the available columns and try again."

  const FailedMessage: string := "❌ Failed to generate visualization."

  const ErrorPrefix: string := "❌ Error processing query: "

  const InsightsErrorPrefix: string := "Error generating insights: "

  /** The checker's reply as the controller compares it: trimmed, then
      lower-cased. */
  function NormaliseVerdict(reply: string): (verdict: string)
    ensures |verdict| <= |reply|
    ensures NoEdgeSpace(verdict)
  {
    var s := Strip(reply);
    if s == [] then [] else
      LowerAt(s, 0);
      LowerAt(s, |s| - 1);
      Lower(s)
  }

  /** Only "no" halts, and "no" is reached from exactly the four spellings of
      "no" in either case, once surrounding whitespace is trimmed. */
  lemma VerdictIsNoIff(reply: string)
    ensures NormaliseVerdict(reply) == "no"
            <==> Strip(reply) in {"no", "No", "nO", "NO"}
  {
    var s := Strip(reply);
    if |s| == 2 {
      LowerAt(s, 0);
      LowerAt(s, 1);
      assert Lower(s) == [LowerChar(s[0]), LowerChar(s[1])];
      assert s == [s[0], s[1]];
    }
  }

  /** The insight generator never raises: a failed narration becomes an
      error message in place of the insights. */
  function InsightsText(narration: Outcome<string>): (text: string)
    ensures narration.Returned? ==> text == narration.value
    ensures narration.Raised? ==> text == InsightsErrorPrefix + narration.error
  {
    match narration
    case Returned(t) => t
    case Raised(e) => InsightsErrorPrefix + e
  }

  /** The reply for an exception caught by the controller. */
  function ErrorReply(error: string): (r: Reply)
    ensures r.image.None? && StartsWith(r.message, ErrorPrefix)
  {
    Reply(ErrorPrefix + error, None)
  }

  /** The script that is executed for a given raw coder reply. */
  function ScriptFor(rawCode: string, tempDir: string): string {
    RewriteOutputPath(CleanCode(rawCode), tempDir)
  }

  /** `calls` is a non-empty prefix of the fixed stage order. */
  predicate IsLinearTrace(calls: seq<Stage>) {
    calls != [] && calls <= AllStages
  }

  /** The checker answered and its verdict is anything but "no". */
  predicate Proceeds(o: Oracles) {
    o.checker.Returned? && NormaliseVerdict(o.checker.value) != "no"
  }

  /** The controller for one query, given the results of the external calls
      and the temporary directory the script runs in. */
  function ProcessQuery(o: Oracles, tempDir: string): (r: Run)
    ensures IsLinearTrace(r.calls)
    ensures GenerateCode in r.calls <==> Proceeds(o)
    ensures r.reply.image.Some? <==> GenerateInsights in r.calls
  {
    match o.checker
    case Raised(e) => Run(ErrorReply(e), [CheckColumns])
    case Returned(verdict) =>
      if NormaliseVerdict(verdict) == "no" then
        Run(Reply(NotPresentMessage, None), [CheckColumns])
      else
        match o.coder
        case Raised(e) => Run(ErrorReply(e), [CheckColumns, GenerateCode])
        case Returned(rawCode) =>
          AfterExecution(o.execute(ScriptFor(rawCode, tempDir)), o.narrator)
  }

  /** The controller's last steps, once the script has run with result `x`. */
  function AfterExecution(x: ExecResult, narrator: Bytes -> Outcome<string>): (r: Run)
    ensures IsLinearTrace(r.calls) && |r.calls| >= 3
    ensures r.reply.image.Some? <==> x.Saved?
    ensures r.reply.image.Some? <==> GenerateInsights in r.calls
  {
    match x
    case ExecRaised(e) => Run(ErrorReply(e), [CheckColumns, GenerateCode, ExecuteCode])
    case NoFile => Run(Reply(FailedMessage, None), [CheckColumns, GenerateCode, ExecuteCode])
    case Saved(image) => Run(Reply(InsightsText(narrator(image)), Some(image)), AllStages)
  }

  /** What executing the script produced, when the controller got that far. */
  function Execution(o: Oracles, tempDir: string): Option<ExecResult>
  {
    if Proceeds(o) && o.coder.Returned? then
      Some(o.execute(ScriptFor(o.coder.value, tempDir)))
    else None
  }

  // ---------------------------------------------------------------------
  // Halt conditions of the controller
  // ---------------------------------------------------------------------

  /** The fixed "not present" reply without an image comes back exactly when
      the normalised verdict is "no"; then only the checker was called. */
  lemma HaltsExactlyOnNo(o: Oracles, tempDir: string)
    ensures var r := ProcessQuery(o, tempDir);
            r.reply == Reply(NotPresentMessage, None)
            <==> o.checker.Returned? && NormaliseVerdict(o.checker.value) == "no"
    ensures o.checker.Returned? && NormaliseVerdict(o.checker.value) == "no"
            ==> ProcessQuery(o, tempDir).calls == [CheckColumns]
  {
    if !(o.checker.Returned? && NormaliseVerdict(o.checker.value) == "no") {
      OtherwiseNotNotPresent(o, tempDir);
    }
  }

  /** Every path but the "no" verdict ends in a reply other than the
      "not present" one. */
  lemma OtherwiseNotNotPresent(o: Oracles, tempDir: string)
    requires !(o.checker.Returned? && NormaliseVerdict(o.checker.value) == "no")
    ensures ProcessQuery(o, tempDir).reply != Reply(NotPresentMessage, None)
  {
    if o.checker.Raised? {
      ErrorIsNotNotPresent(o.checker.error);
    } else if o.coder.Raised? {
      ErrorIsNotNotPresent(o.coder.error);
    } else {
      ExecutionNotNotPresent(o, tempDir);
    }
  }

  /** Once the script has run, the reply is not the "not present" one. */
  lemma ExecutionNotNotPresent(o: Oracles, tempDir: string)
    requires Proceeds(o) && o.coder.Returned?
    ensures ProcessQuery(o, tempDir).reply != Reply(NotPresentMessage, None)
  {
    match Execution(o, tempDir).value
    case ExecRaised(e) =>
      ExceptionsAreReported(o, tempDir, e);
      ErrorIsNotNotPresent(e);
    case NoFile =>
      NoFileFails(o, tempDir);
      FailedIsNotNotPresent();
    case Saved(image) =>
      ImageAlwaysComesBack(o, tempDir, image);
  }

  /** The failure message is not the "not present" message. (The latter is
      written as two literals so that the verifier can index its short
      head.) */
  lemma FailedIsNotNotPresent()
    ensures FailedMessage != NotPresentMessage
  {
    assert FailedMessage[2] == 'F' != NotPresentMessage[2];
  }

  /** No error reply reads like the "not present" reply: they differ at the
      first letter after the cross mark. */
  lemma ErrorIsNotNotPresent(e: string)
    ensures ErrorReply(e).message != NotPresentMessage
  {
    assert ErrorReply(e).message[2] == 'E' != NotPresentMessage[2];
  }

  /** Once the script has run, the controller's outcome is decided by what
      the run produced. */
  lemma ExecutionDecides(o: Oracles, tempDir: string)
    requires Execution(o, tempDir).Some?
    ensures ProcessQuery(o, tempDir) == AfterExecution(Execution(o, tempDir).value, o.narrator)
  {
    assert Proceeds(o) && o.coder.Returned?;
  }

  /** An executed script that leaves no file yields the fixed failure reply
      without an image, and the insight generator is not called. */
  lemma NoFileFails(o: Oracles, tempDir: string)
    requires Execution(o, tempDir) == Some(NoFile)
    ensures ProcessQuery(o, tempDir).reply == Reply(FailedMessage, None)
    ensures GenerateInsights !in ProcessQuery(o, tempDir).calls
  {
    ExecutionDecides(o, tempDir);
  }

  /** An exception raised by the checker, the code generator or the executed
      script is reported with its text, and no image is returned. */
  lemma ExceptionsAreReported(o: Oracles, tempDir: string, e: string)
    requires o.checker == Raised(e)
             || (Proceeds(o) && o.coder == Raised(e))
             || Execution(o, tempDir) == Some(ExecRaised(e))
    ensures ProcessQuery(o, tempDir).reply == Reply(ErrorPrefix + e, None)
  {
    if Execution(o, tempDir) == Some(ExecRaised(e)) {
      ExecutionDecides(o, tempDir);
    }
  }

  /** Once the script has produced an image, that image is returned together
      with the insights, whatever the narration did: a failed narration only
      replaces the insights by its error message. */
  lemma ImageAlwaysComesBack(o: Oracles, tempDir: string, image: Bytes)
    requires Execution(o, tempDir) == Some(Saved(image))
    ensures ProcessQuery(o, tempDir).reply == Reply(InsightsText(o.narrator(image)), Some(image))
    ensures ProcessQuery(o, tempDir).calls == AllStages
  {
    ExecutionDecides(o, tempDir);
  }

  /** The only image the controller ever returns is the one the script
      produced. */
  lemma ImageOnlyFromExecution(o: Oracles, tempDir: string)
    ensures ProcessQuery(o, tempDir).reply.image.Some?
            <==> Execution(o, tempDir).Some? && Execution(o, tempDir).value.Saved?
    ensures ProcessQuery(o, tempDir).reply.image.Some?
            ==> Execution(o, tempDir).value.image == ProcessQuery(o, tempDir).reply.image.value
  {
    if Proceeds(o) && o.coder.Returned? {
      match Execution(o, tempDir).value
      case ExecRaised(e) => ExceptionsAreReported(o, tempDir, e);
      case NoFile => NoFileFails(o, tempDir);
      case Saved(image) => ImageAlwaysComesBack(o, tempDir, image);
    }
  }

  /** The script is executed exactly when the controller's trace reaches the
      third stage. */
  lemma ExecutionIffReached(o: Oracles, tempDir: string)
    ensures Execution(o, tempDir).Some? <==> ExecuteCode in ProcessQuery(o, tempDir).calls
  {
    var calls := ProcessQuery(o, tempDir).calls;
    if Proceeds(o) && o.coder.Returned? {
      match Execution(o, tempDir).value
      case ExecRaised(e) =>
      case NoFile =>
      case Saved(image) => ImageAlwaysComesBack(o, tempDir, image);
    } else {
      assert calls == [CheckColumns] || calls == [CheckColumns, GenerateCode];
    }
  }
}
