/**
 * The pattern editor's console: the log callback prefixes every line of a
 * message with its level, and the console's tokenizer colours a line by
 * that prefix.
 */
module ConsoleLog {

  import opened MachineInt

  /** The log levels of the pattern language runtime. */
  datatype Level = Debug | Info | Warning | Error

  /** The text editor palette entries the console uses; Max means none. */
  datatype PaletteIndex = Comment | Default | Preprocessor | ErrorMarker | Max

  predicate StartsWith(line: string, prefix: string) {
    |prefix| <= |line| && line[..|prefix|] == prefix
  }

  /** The tokenizer: the first matching prefix picks the palette entry. */
  function Classify(line: string): (p: PaletteIndex)
    ensures p == Max <==> !(StartsWith(line, "D: ") || StartsWith(line, "I: ")
                            || StartsWith(line, "W: ") || StartsWith(line, "E: "))
  {
    if StartsWith(line, "D: ") then Comment
    else if StartsWith(line, "I: ") then Default
    else if StartsWith(line, "W: ") then Preprocessor
    else if StartsWith(line, "E: ") then ErrorMarker
    else Max
  }

  /** The prefix the log callback puts in front of each line. */
  function Prefix(level: Level): (prefix: string)
    ensures |prefix| == 3 && prefix[1..] == ": "
  {
    match level
    case Debug => "D: "
    case Info => "I: "
    case Warning => "W: "
    case Error => "E: "
  }

  /** The colour each level is meant to be shown in. */
  function Palette(level: Level): PaletteIndex
  {
    match level
    case Debug => Comment
    case Info => Default
    case Warning => Preprocessor
    case Error => ErrorMarker
  }

  /** A line logged at some level is coloured as that level, whatever the message. */
  lemma PrefixedLineClassifies(level: Level, message: string)
    ensures Classify(Prefix(level) + message) == Palette(level)
  {
    var line := Prefix(level) + message;
    assert line[..3] == Prefix(level);
  }

  /** The four prefixes are distinct, so a level can be read back from its line. */
  lemma PrefixDeterminesLevel(a: Level, b: Level, x: string, y: string)
    requires Prefix(a) + x == Prefix(b) + y
    ensures a == b
  {
    assert (Prefix(a) + x)[0] == Prefix(a)[0];
    assert (Prefix(b) + y)[0] == Prefix(b)[0];
  }

  /** The lines the callback appends for one message at one level. */
  function PrefixedLines(level: Level, lines: seq<string>): (r: seq<string>)
    ensures |r| == |lines|
    ensures forall i :: 0 <= i < |lines| ==> r[i] == Prefix(level) + lines[i]
    decreases |lines|
  {
    if lines == [] then [] else PrefixedLines(level, lines[..|lines| - 1]) + [Prefix(level) + lines[|lines| - 1]]
  }

  class Console {
    var lines: seq<string>
    var needsUpdate: bool

    constructor ()
      ensures lines == [] && !needsUpdate
    {
      lines := [];
      needsUpdate := false;
    }

    /**
     * The log callback for a message already split at its newlines: each
     * piece is prefixed and appended, and every appended line is coloured as
     * its level.
     */
    method Log(level: Level, messageLines: seq<string>)
      modifies this
      ensures lines == old(lines) + PrefixedLines(level, messageLines)
      ensures forall i :: |old(lines)| <= i < |lines| ==> Classify(lines[i]) == Palette(level)
      ensures needsUpdate == (old(needsUpdate) || |messageLines| > 0)
    {
      for i := 0 to |messageLines|
        invariant lines == old(lines) + PrefixedLines(level, messageLines[..i])
        invariant needsUpdate == (old(needsUpdate) || i > 0)
      {
        assert messageLines[..i + 1][..i] == messageLines[..i];
        lines := lines + [Prefix(level) + messageLines[i]];
        needsUpdate := true;
      }
      assert messageLines[..|messageLines|] == messageLines;
      forall i | |old(lines)| <= i < |lines|
        ensures Classify(lines[i]) == Palette(level)
      {
        PrefixedLineClassifies(level, messageLines[i - |old(lines)|]);
      }
    }
  }
}
