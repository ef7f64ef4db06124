/**
  Gauge's console: the plugin writer that tags every line of a plugin's
  output with the plugin's name, and the console writer's bookkeeping of how
  many lines were printed since the current step's text, which it uses to
  move the cursor back up and repaint the step once the step finishes.
  Printing itself and the terminal's colours are not modelled; the cursor
  movements are returned as numbers.
 */
module Console {
  import opened Collections
  import opened Text

  // ---------------------------------------------------------------------
  // Plugin output prefixing (console.go:18-37)
  // ---------------------------------------------------------------------

  /** The tag put in front of each line a plugin prints: `[<name> Plugin] : `. */
  function Prefix(pluginName: string): (r: string)
    ensures |r| == |pluginName| + 12
    ensures r[0] == '[' && r[1..|pluginName| + 1] == pluginName
    ensures (Newline !in pluginName) <==> (Newline !in r)
  {
    "[" + pluginName + " Plugin] : "
  }

  /** Line `i` of a split message once tagged: a trailing empty line stays empty. */
  function PrefixLine(pluginName: string, lines: seq<string>, i: nat): string
    requires i < |lines|
  {
    if i == |lines| - 1 && lines[i] == "" then lines[i] else Prefix(pluginName) + lines[i]
  }

  function PrefixedLines(pluginName: string, lines: seq<string>): (r: seq<string>)
    ensures |r| == |lines|
    ensures forall i :: 0 <= i < |lines| ==> r[i] == PrefixLine(pluginName, lines, i)
  {
    seq(|lines|, i requires 0 <= i < |lines| => PrefixLine(pluginName, lines, i))
  }

  /** pluginConsoleWriter.addPrefixToEachLine: tag every line of `text`, keeping its line breaks. */
  function AddPrefixToEachLine(pluginName: string, text: string): string
  {
    Join(PrefixedLines(pluginName, Split(text, Newline)), Newline)
  }

  /** The empty message stays empty: its only line is a trailing empty one. */
  lemma AddPrefixEmpty(pluginName: string)
    ensures AddPrefixToEachLine(pluginName, "") == ""
  {
    assert Split("", Newline) == [""];
  }

  /** Every tagged line is free of line breaks when the plugin name is. */
  lemma TaggedLinesPlain(pluginName: string, text: string)
    requires Newline !in pluginName
    ensures var tagged := PrefixedLines(pluginName, Split(text, Newline));
      forall i :: 0 <= i < |tagged| ==> Newline !in tagged[i]
  {
    var lines := Split(text, Newline);
    var tagged := PrefixedLines(pluginName, lines);
    forall i | 0 <= i < |tagged| ensures Newline !in tagged[i] {
      assert Newline !in lines[i];
      assert tagged[i] == PrefixLine(pluginName, lines, i);
    }
  }

  /** For a plugin name without a line break, splitting the tagged message gives back the tagged lines. */
  lemma SplitTagged(pluginName: string, text: string)
    requires Newline !in pluginName
    ensures Split(AddPrefixToEachLine(pluginName, text), Newline) == PrefixedLines(pluginName, Split(text, Newline))
  {
    TaggedLinesPlain(pluginName, text);
    SplitJoin(PrefixedLines(pluginName, Split(text, Newline)), Newline);
  }

  /**
    For a plugin name without a line break, the lines of the tagged message
    are exactly the tagged lines of the message: every line gets the tag,
    except a final empty line (the message ended with a line break).
   */
  lemma {:induction false} AddPrefixLines(pluginName: string, text: string)
    requires Newline !in pluginName
    ensures var lines := Split(text, Newline);
      var out := Split(AddPrefixToEachLine(pluginName, text), Newline);
      && |out| == |lines|
      && (forall i :: 0 <= i < |lines| - 1 ==> out[i] == Prefix(pluginName) + lines[i])
      && (lines[|lines| - 1] == "" ==> out[|out| - 1] == "")
      && (lines[|lines| - 1] != "" ==> out[|out| - 1] == Prefix(pluginName) + lines[|lines| - 1])
  {
    var lines := Split(text, Newline);
    SplitTagged(pluginName, text);
    var out := PrefixedLines(pluginName, lines);
    var last := |lines| - 1;
    assert out[last] == PrefixLine(pluginName, lines, last);
    forall i | 0 <= i < last ensures out[i] == Prefix(pluginName) + lines[i] {
      assert out[i] == PrefixLine(pluginName, lines, i);
    }
  }

  /** For a plugin name without a line break, tagging adds no line break and removes none. */
  lemma {:induction false} AddPrefixKeepsLineBreaks(pluginName: string, text: string)
    requires Newline !in pluginName
    ensures Count(AddPrefixToEachLine(pluginName, text), Newline) == Count(text, Newline)
  {
    var tagged := PrefixedLines(pluginName, Split(text, Newline));
    TaggedLinesPlain(pluginName, text);
    CountJoin(tagged, Newline);
  }

  /** Line `i` of a tagged message with its tag taken off; a trailing empty line has none. */
  function StripLine(pluginName: string, lines: seq<string>, i: nat): string
    requires i < |lines|
  {
    if i == |lines| - 1 && lines[i] == "" then ""
    else if |Prefix(pluginName)| <= |lines[i]| then lines[i][|Prefix(pluginName)|..]
    else lines[i]
  }

  /** Takes the tag off every line of a plugin's tagged output. */
  function RemovePrefixFromEachLine(pluginName: string, text: string): string
  {
    var lines := Split(text, Newline);
    Join(seq(|lines|, i requires 0 <= i < |lines| => StripLine(pluginName, lines, i)), Newline)
  }

  /** Taking the tags off a tagged message gives back the plugin's message. */
  lemma {:induction false} PrefixRoundTrip(pluginName: string, text: string)
    requires Newline !in pluginName
    ensures RemovePrefixFromEachLine(pluginName, AddPrefixToEachLine(pluginName, text)) == text
  {
    var lines := Split(text, Newline);
    var out := Split(AddPrefixToEachLine(pluginName, text), Newline);
    AddPrefixLines(pluginName, text);
    var stripped := seq(|out|, i requires 0 <= i < |out| => StripLine(pluginName, out, i));
    var p := Prefix(pluginName);
    forall i | 0 <= i < |lines| ensures stripped[i] == lines[i] {
      if i == |lines| - 1 && lines[i] == "" {
      } else {
        assert out[i] == p + lines[i];
        assert out[i][|p|..] == lines[i];
      }
    }
    assert stripped == lines;
    JoinSplit(text, Newline);
  }

  // ---------------------------------------------------------------------
  // The step line counter (console.go:39-59, 65-70, 112-135)
  // ---------------------------------------------------------------------

  /** consoleWriter: lines printed since the current step's text, and whether a step is running. */
  datatype ConsoleWriter = ConsoleWriter(linesAfterLastStep: int, isInsideStep: bool)

  /** What Write hands back: the writer's next state and the byte count reported to the caller. */
  datatype Written = Written(writer: ConsoleWriter, n: nat)

  /** What writeStepFinished does: how far the cursor goes up and back down, and the writer's next state. */
  datatype StepFinished = StepFinished(writer: ConsoleWriter, up: int, down: int)

  /** newConsoleWriter: nothing counted, no step running. */
  function NewConsoleWriter(): (r: ConsoleWriter)
    ensures r.linesAfterLastStep == 0 && !r.isInsideStep
  {
    ConsoleWriter(0, false)
  }

  /**
    consoleWriter.Write: the whole message is reported written; its line
    breaks are counted only while a step is running.
   */
  function Write(w: ConsoleWriter, message: string): (r: Written)
    ensures r.n == |message|
    ensures r.writer.isInsideStep == w.isInsideStep
    ensures !w.isInsideStep ==> r.writer == w
    ensures w.isInsideStep ==> r.writer.linesAfterLastStep - w.linesAfterLastStep == Count(message, Newline)
  {
    if w.isInsideStep then Written(w.(linesAfterLastStep := w.linesAfterLastStep + Count(message, Newline)), |message|)
    else Written(w, |message|)
  }

  /** consoleWriter.writeError: counts like Write and reports nothing. */
  function WriteError(w: ConsoleWriter, value: string): (r: ConsoleWriter)
    ensures r == Write(w, value).writer
  {
    if w.isInsideStep then w.(linesAfterLastStep := w.linesAfterLastStep + Count(value, Newline)) else w
  }

  /** consoleWriter.writeStep: a step starts and nothing has been printed after it yet. */
  function WriteStep(w: ConsoleWriter): (r: ConsoleWriter)
    ensures r.isInsideStep && r.linesAfterLastStep == 0
  {
    w.(isInsideStep := true, linesAfterLastStep := 0)
  }

  /**
    consoleWriter.writeStepFinished: the cursor goes up over everything
    printed since the step and over the step's own text (at least one line),
    repaints the step, and comes back down as far; the step is over but the
    counter is left as it was.
   */
  function WriteStepFinished(w: ConsoleWriter, stepText: string): (r: StepFinished)
    ensures r.up == r.down
    ensures r.up == w.linesAfterLastStep + (if Count(stepText, Newline) == 0 then 1 else Count(stepText, Newline))
    ensures !r.writer.isInsideStep && r.writer.linesAfterLastStep == w.linesAfterLastStep
  {
    var linesInStepText := Count(stepText, Newline);
    var linesInStep := if linesInStepText == 0 then 1 else linesInStepText;
    var linesToMoveUp := w.linesAfterLastStep + linesInStep;
    StepFinished(w.(isInsideStep := false), linesToMoveUp, linesToMoveUp)
  }

  /** The writer after a series of writes. */
  function WriteAll(w: ConsoleWriter, messages: seq<string>): ConsoleWriter
    decreases |messages|
  {
    if |messages| == 0 then w else WriteAll(Write(w, messages[0]).writer, messages[1..])
  }

  /** The line breaks in a series of messages. */
  function LineBreaks(messages: seq<string>): nat
  {
    if |messages| == 0 then 0 else Count(messages[0], Newline) + LineBreaks(messages[1..])
  }

  /** Outside a step, writes leave the writer as it was. */
  lemma {:induction false} WritesOutsideStep(w: ConsoleWriter, messages: seq<string>)
    requires !w.isInsideStep
    ensures WriteAll(w, messages) == w
    decreases |messages|
  {
    if |messages| != 0 {
      WritesOutsideStep(w, messages[1..]);
    }
  }

  /** Inside a step, a series of writes adds up the line breaks of all its messages. */
  lemma {:induction false} WritesInsideStep(w: ConsoleWriter, messages: seq<string>)
    requires w.isInsideStep
    ensures WriteAll(w, messages).isInsideStep
    ensures WriteAll(w, messages).linesAfterLastStep == w.linesAfterLastStep + LineBreaks(messages)
    decreases |messages|
  {
    if |messages| != 0 {
      WritesInsideStep(Write(w, messages[0]).writer, messages[1..]);
    }
  }

  /**
    A whole step: whatever the writer's state before, once the step's text is
    shown and the messages are printed, finishing the step moves the cursor up
    over exactly the messages' line breaks plus the step's own lines, and back
    down as far.
   */
  lemma StepTrace(w: ConsoleWriter, messages: seq<string>, stepText: string)
    ensures var f := WriteStepFinished(WriteAll(WriteStep(w), messages), stepText);
      var stepLines := if Count(stepText, Newline) == 0 then 1 else Count(stepText, Newline);
      && f.up == LineBreaks(messages) + stepLines
      && f.down == f.up
      && !f.writer.isInsideStep
  {
    WritesInsideStep(WriteStep(w), messages);
  }

  /** pluginConsoleWriter.Write: tags the message, writes it to the console, and reports the untagged length. */
  function PluginWrite(console: ConsoleWriter, pluginName: string, message: string): (r: Written)
    ensures r.n == |message|
  {
    Written(Write(console, AddPrefixToEachLine(pluginName, message)).writer, |message|)
  }

  /** For a plugin name without a line break, a plugin's write moves the console's counter exactly as its untagged message would. */
  lemma PluginWriteCounts(console: ConsoleWriter, pluginName: string, message: string)
    requires Newline !in pluginName
    ensures PluginWrite(console, pluginName, message).writer == Write(console, message).writer
  {
    AddPrefixKeepsLineBreaks(pluginName, message);
  }
}
