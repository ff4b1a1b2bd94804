/** Where the stack parser and the crash comparer meet: a crash state is written frame by frame and compared
    line by line. */
module CrashLines {
  import StackParser
  import CrashComparer

  /** The frame holds no line boundary. */
  ghost predicate IsOneLine(frame: string) {
    forall j :: 0 <= j < |frame| ==> !CrashComparer.IsBreakText([frame[j]])
  }

  lemma LineAndText(line: string, rest: string)
    requires IsOneLine(line)
    ensures CrashComparer.IsFirstLine(line, "\n", rest, line + ("\n" + rest))
  {
  }

  /** A crash state made of frames without line boundaries has these frames for its lines, so the comparison of
      crash states compares frames. */
  lemma {:induction false} LinesOfTerminated(frames: seq<string>)
    requires forall i :: 0 <= i < |frames| ==> IsOneLine(frames[i])
    ensures CrashComparer.IsLineSplit(frames, StackParser.Terminated(frames))
  {
    if frames != [] {
      var line, rest := frames[0], frames[1..];
      LinesOfTerminated(rest);
      StackParser.TerminatedFirst(line, rest);
      assert frames == [line] + rest;
      LineAndText(line, StackParser.Terminated(rest));
      CrashComparer.LineSplitOfFirst(frames, line, "\n", StackParser.Terminated(rest), StackParser.Terminated(frames));
    }
  }
}
