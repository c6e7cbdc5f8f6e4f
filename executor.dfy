/** The part of the code executor that is plain text processing: the generated
    script is told to save its figure to 'plot.png', and before it is run that
    file name is redirected into the per-query temporary directory. */
module Executor {
  import opened Text

  /** The file name every generated script is told to save its figure to. */
  const PlotFile: string := "plot.png"

  /** The exact text the rewrite looks for: the file name in single quotes. */
  const PlotLiteral: string := "'plot.png'"

  /** `os.path.join(dir, name)` on POSIX for a relative `name`: a separator is
      inserted unless `dir` is empty or already ends with one. */
  function JoinPath(dir: string, name: string): string {
    if dir == [] || dir[|dir| - 1] == '/' then dir + name else dir + "/" + name
  }

  /** The joined path starts with the directory and ends with the name;
      between them a '/' is inserted exactly when the directory is non-empty
      and does not already end with one. */
  lemma JoinPathShape(dir: string, name: string)
    ensures var p := JoinPath(dir, name);
            && StartsWith(p, dir) && EndsWith(p, name)
            && |dir| + |name| <= |p| <= |dir| + 1 + |name|
            && (|p| == |dir| + 1 + |name| <==> dir != [] && dir[|dir| - 1] != '/')
            && (|p| == |dir| + 1 + |name| ==> p[|dir|] == '/')
  {
  }

  /** Where the figure is expected inside the temporary directory. */
  function PlotPath(tempDir: string): string {
    JoinPath(tempDir, PlotFile)
  }

  /** The replacement text: the plot path in single quotes. */
  function QuotedPlotPath(tempDir: string): string {
    "'" + PlotPath(tempDir) + "'"
  }

  /** Inside a real temporary directory the quoted path is longer than the
      literal it replaces. */
  lemma QuotedPlotPathIsLonger(tempDir: string)
    requires tempDir != []
    ensures |QuotedPlotPath(tempDir)| > |PlotLiteral|
  {
    JoinPathShape(tempDir, PlotFile);
  }

  /** The script as it is executed: every non-overlapping occurrence of the
      single-quoted literal 'plot.png', found scanning from the left, replaced
      by the single-quoted temporary path. */
  function RewriteOutputPath(code: string, tempDir: string): (modified: string)
    ensures modified == Join(Split(code, PlotLiteral), QuotedPlotPath(tempDir))
  {
    ReplaceAllIsSplitJoin(code, PlotLiteral, QuotedPlotPath(tempDir));
    ReplaceAll(code, PlotLiteral, QuotedPlotPath(tempDir))
  }

  /** The rewrite is exactly: cut the script at each non-overlapping
      'plot.png' literal, found scanning from the left, and glue the pieces
      back with the quoted temporary path. The pieces contain no literal, so
      no literal is left to redirect within any piece, and gluing them with
      the literal itself restores the script, so nothing else was touched. */
  lemma RewriteReplacesEveryLiteral(code: string, tempDir: string)
    ensures var parts := Split(code, PlotLiteral);
            && RewriteOutputPath(code, tempDir) == Join(parts, QuotedPlotPath(tempDir))
            && Join(parts, PlotLiteral) == code
            && forall k :: 0 <= k < |parts| ==> !Occurs(parts[k], PlotLiteral)
  {
    ReplaceAllIsSplitJoin(code, PlotLiteral, QuotedPlotPath(tempDir));
    SplitJoinRoundTrip(code, PlotLiteral);
    SplitPiecesAreFree(code, PlotLiteral);
  }

  /** For a real (non-empty) temporary directory the script is left as it is
      exactly when it does not contain the literal 'plot.png'. */
  lemma RewriteUnchangedIff(code: string, tempDir: string)
    requires tempDir != []
    ensures RewriteOutputPath(code, tempDir) == code <==> !Occurs(code, PlotLiteral)
  {
    var rep := QuotedPlotPath(tempDir);
    var d := |rep| - |PlotLiteral|;
    QuotedPlotPathIsLonger(tempDir);
    if Occurs(code, PlotLiteral) {
      var n := Count(code, PlotLiteral);
      CountZeroIffAbsent(code, PlotLiteral);
      ReplaceAllLength(code, PlotLiteral, rep);
      MulPositive(n, d);
      assert |RewriteOutputPath(code, tempDir)| == |code| + n * d;
    } else {
      ReplaceAllAbsent(code, PlotLiteral, rep);
    }
  }

  /** A script without any single quote, for instance one that saves to the
      double-quoted "plot.png", is executed as generated: its figure is then
      written to the working directory, not the temporary one. */
  lemma RewriteIgnoresDoubleQuotes(code: string, tempDir: string)
    requires forall i :: 0 <= i < |code| ==> code[i] != '\''
    ensures RewriteOutputPath(code, tempDir) == code
  {
    forall i: nat ensures !MatchesAt(code, PlotLiteral, i) {
      if i + |PlotLiteral| <= |code| {
        assert code[i..i + |PlotLiteral|][0] == code[i];
      }
    }
    ReplaceAllAbsent(code, PlotLiteral, QuotedPlotPath(tempDir));
  }
}
