/** The logger of the older tree: a process-wide logging level (a static
    field, here the one field of `Logger`), five labelled levels, a filter
    that emits a message when the current level is at least the message's,
    and the help text listing the levels. The printing itself is left out;
    `LogLine` is the line that would be printed. */
module Logging {
  import opened ArqBasics

  /** util::LoggingLevel is an enum over uint16_t. */
  type LoggingLevel = U16

  const LOGGING_LEVEL_NONE: LoggingLevel := 0
  const LOGGING_LEVEL_ERROR: LoggingLevel := 1
  const LOGGING_LEVEL_WARNING: LoggingLevel := 2
  const LOGGING_LEVEL_INFO: LoggingLevel := 3
  const LOGGING_LEVEL_DEBUG: LoggingLevel := 4

  /** The label of each level, indexed by the level. */
  const LABELS: seq<string> := ["NONE", "ERROR", "WARNING", "INFO", "DEBUG"]

  /** Each level's label, named in full. */
  lemma LabelsOfLevels()
    ensures |LABELS| == 5
    ensures LABELS[LOGGING_LEVEL_NONE] == "NONE" && LABELS[LOGGING_LEVEL_ERROR] == "ERROR"
    ensures LABELS[LOGGING_LEVEL_WARNING] == "WARNING" && LABELS[LOGGING_LEVEL_INFO] == "INFO"
    ensures LABELS[LOGGING_LEVEL_DEBUG] == "DEBUG"
  {
  }

  /** The length of the longest string in `labels` (0 for none). */
  function Longest(labels: seq<string>): (r: nat)
    ensures forall i :: 0 <= i < |labels| ==> |labels[i]| <= r
    ensures labels == [] ==> r == 0
    ensures labels != [] ==> exists i :: 0 <= i < |labels| && |labels[i]| == r
  {
    if labels == [] then 0
    else
      var rest := Longest(labels[1..]);
      assert forall i :: 1 <= i < |labels| ==> labels[i] == labels[1..][i - 1];
      if |labels[0]| >= rest then |labels[0]| else rest
  }

  /** len_longestLabel: "WARNING", seven characters. */
  lemma LongestLabelIsSeven()
    ensures Longest(LABELS) == 7
  {
    assert |LABELS[2]| == 7;
  }

  /** `n` spaces. */
  function Spaces(n: nat): (r: string)
    ensures |r| == n && forall i :: 0 <= i < n ==> r[i] == ' '
  {
    if n == 0 then "" else Spaces(n - 1) + " "
  }

  /** `{:^{width}}`: the text centred in a field of `width` characters, any
      odd space going on the right; text at least as wide is left as it is. */
  function Centred(s: string, width: nat): (r: string)
    ensures |s| >= width ==> r == s
    ensures |s| < width ==> |r| == width
    ensures |s| < width ==> r[(width - |s|) / 2..(width - |s|) / 2 + |s|] == s
  {
    if |s| >= width then s
    else
      var pad := width - |s|;
      Spaces(pad / 2) + s + Spaces(pad - pad / 2)
  }

  /** The line logMessage prints for a message at `level`: the label centred
      in the width of the longest label, in brackets, then the message. */
  function LogLine(level: LoggingLevel, message: string): (r: string)
    requires level < |LABELS|
    ensures |r| == 1 + Longest(LABELS) + 3 + |message|
    ensures r[0] == '[' && r[|r| - |message|..] == message
  {
    LongestLabelIsSeven();
    var field := Centred(LABELS[level], Longest(LABELS));
    assert |field| == Longest(LABELS);
    var line := "[" + field + "]: " + message;
    assert line == ("[" + field + "]: ") + message && line[0] == '[';
    line
  }

  class Logger {
    var loggingLevel: LoggingLevel

    /** The level always names a label. */
    ghost predicate Valid()
      reads this
    {
      loggingLevel < |LABELS|
    }

    /** The static initialiser: INFO. */
    constructor ()
      ensures Valid() && loggingLevel == LOGGING_LEVEL_INFO
    {
      loggingLevel := LOGGING_LEVEL_INFO;
    }

    /** setLoggingLevel: a level with no label is refused with
        invalid_argument and the level is unchanged; any other becomes the
        level. */
    method SetLoggingLevel(newLevel: LoggingLevel) returns (r: Result<()>)
      modifies this
      ensures newLevel >= |LABELS| ==> r == Err(InvalidArgument) && loggingLevel == old(loggingLevel)
      ensures newLevel < |LABELS| ==> r == Ok(()) && loggingLevel == newLevel
      ensures old(Valid()) ==> Valid()
    {
      if newLevel >= |LABELS| {
        return Err(InvalidArgument);
      }
      loggingLevel := newLevel;
      r := Ok(());
    }

    /** loggingLevelStr with its default argument: the current label. */
    function LoggingLevelStr(): (r: string)
      reads this
      requires Valid()
      ensures r == LABELS[loggingLevel] && r in LABELS
    {
      LABELS[loggingLevel]
    }

    /** The filter in logMessage. */
    predicate Emits(level: LoggingLevel)
      reads this
    {
      loggingLevel >= level
    }

    /** logMessage: the printed line when the filter passes, else nothing. */
    function LogMessage(level: LoggingLevel, message: string): (r: Option<string>)
      reads this
      requires level < |LABELS|
      ensures r.Some? <==> loggingLevel >= level
      ensures r.Some? ==> r.value == LogLine(level, message)
    {
      if loggingLevel >= level then Some(LogLine(level, message)) else None
    }
  }

  /** What the filter means for the named levels: NONE silences every
      other level, DEBUG lets everything through, and a message passing at
      some level passes at every more verbose setting. */
  lemma {:induction false} FilterByLevel(log: Logger, level: LoggingLevel, message: string)
    requires level < |LABELS| && LOGGING_LEVEL_ERROR <= level
    ensures log.loggingLevel == LOGGING_LEVEL_NONE ==> log.LogMessage(level, message) == None
    ensures log.loggingLevel == LOGGING_LEVEL_DEBUG ==> log.LogMessage(level, message) == Some(LogLine(level, message))
    ensures log.LogMessage(level, message).Some? <==> level <= log.loggingLevel
  {
  }

  /** One entry of the help list: the level's digit, " = ", its label. */
  function Entry(labels: seq<string>, i: nat): (r: string)
    requires |labels| <= 10 && i < |labels|
    ensures |r| == 4 + |labels[i]| && r[1..4] == " = " && r[4..] == labels[i]
  {
    [('0' as int + i) as char] + " = " + labels[i]
  }

  /** Entries `from` to the end of the help list, "k = LABEL" joined by ", ". */
  function HelpEntries(labels: seq<string>, from: nat): (r: string)
    requires |labels| <= 10 && from <= |labels|
    decreases |labels| - from
  {
    if from == |labels| then ""
    else
      var entry := Entry(labels, from);
      if from == |labels| - 1 then entry else entry + ", " + HelpEntries(labels, from + 1)
  }

  /** The help text for a list of labels. */
  function HelpFor(labels: seq<string>): string
    requires |labels| <= 10
  {
    "set logging level (" + HelpEntries(labels, 0) + ")"
  }

  /** What follows entry `i`: ", " except after the last. */
  function Separator(labels: seq<string>, i: nat): string {
    if i != |labels| - 1 then ", " else ""
  }

  /** The first `k` entries, each followed by ", " except the last one of
      the whole list: what the loop of helpText has built after `k` turns. */
  function HelpPrefix(labels: seq<string>, k: nat): (r: string)
    requires |labels| <= 10 && k <= |labels|
  {
    if k == 0 then ""
    else
      HelpPrefix(labels, k - 1) + Entry(labels, k - 1) + Separator(labels, k - 1)
  }

  /** After all turns the built prefix is the whole list. */
  lemma {:induction false} HelpPrefixWhole(labels: seq<string>, k: nat)
    requires |labels| <= 10 && k <= |labels|
    ensures HelpPrefix(labels, k) + HelpEntries(labels, k) == HelpEntries(labels, 0)
    decreases k
  {
    if k > 0 {
      HelpPrefixWhole(labels, k - 1);
      var entry := Entry(labels, k - 1);
      if k - 1 == |labels| - 1 {
        assert HelpEntries(labels, k - 1) == entry;
      } else {
        assert HelpEntries(labels, k - 1) == entry + ", " + HelpEntries(labels, k);
      }
    }
  }

  /** One turn of the loop of helpText: the digit, " = ", the label and the
      separator are appended. */
  method AppendEntry(help: string, labels: seq<string>, logIdx: nat) returns (help': string)
    requires |labels| <= 10 && logIdx < |labels|
    ensures help' == help + (Entry(labels, logIdx) + Separator(labels, logIdx))
  {
    help' := help + [('0' as int + logIdx) as char];
    help' := help' + " = ";
    help' := help' + labels[logIdx];
    assert help' == help + Entry(labels, logIdx);
    if logIdx != |labels| - 1 {
      help' := help' + ", ";
    }
  }

  /** Appending one more entry to the built prefix. */
  lemma HelpPrefixStep(opening: string, labels: seq<string>, k: nat)
    requires |labels| <= 10 && k < |labels|
    ensures opening + HelpPrefix(labels, k) + (Entry(labels, k) + Separator(labels, k))
         == opening + HelpPrefix(labels, k + 1)
  {
  }

  /** The loop of helpText over a list of at most ten labels (the
      static_assert that keeps each level one digit). */
  method HelpTextFor(labels: seq<string>) returns (help: string)
    requires |labels| <= 10
    ensures help == HelpFor(labels)
  {
    help := "set logging level (";
    var logIdx := 0;
    while logIdx < |labels|
      invariant 0 <= logIdx <= |labels|
      invariant help == "set logging level (" + HelpPrefix(labels, logIdx)
    {
      HelpPrefixStep("set logging level (", labels, logIdx);
      help := AppendEntry(help, labels, logIdx);
      logIdx := logIdx + 1;
    }
    HelpPrefixWhole(labels, |labels|);
    help := help + ")";
  }

  /** helpText: the list over the five levels' labels. */
  method HelpText() returns (help: string)
    ensures help == HelpFor(LABELS)
  {
    help := HelpTextFor(LABELS);
  }

  /** The text helpText produces for the five levels:
      "set logging level (0 = NONE, 1 = ERROR, 2 = WARNING, 3 = INFO, 4 = DEBUG)". */
  lemma HelpTextIs()
    ensures HelpFor(LABELS)
         == "set logging level (" + ("0 = NONE" + ", " + ("1 = ERROR" + ", " + ("2 = WARNING" + ", "
            + ("3 = INFO" + ", " + "4 = DEBUG")))) + ")"
  {
    assert Entry(LABELS, 4) == "4 = DEBUG";
    assert Entry(LABELS, 3) == "3 = INFO";
    assert Entry(LABELS, 2) == "2 = WARNING";
    assert Entry(LABELS, 1) == "1 = ERROR";
    assert Entry(LABELS, 0) == "0 = NONE";
    var e4 := HelpEntries(LABELS, 4);
    var e3 := HelpEntries(LABELS, 3);
    var e2 := HelpEntries(LABELS, 2);
    var e1 := HelpEntries(LABELS, 1);
    var e0 := HelpEntries(LABELS, 0);
    assert e4 == "4 = DEBUG";
    assert e3 == "3 = INFO" + ", " + e4;
    assert e2 == "2 = WARNING" + ", " + e3;
    assert e1 == "1 = ERROR" + ", " + e2;
    assert e0 == "0 = NONE" + ", " + e1;
  }

  /** Refusing an out-of-range level, then setting DEBUG: the first call
      fails and keeps INFO, the second succeeds. */
  method SetLevelScenario() returns (bad: Result<()>, afterBad: string, good: Result<()>, afterGood: string)
    ensures bad == Err(InvalidArgument) && afterBad == "INFO"
    ensures good == Ok(()) && afterGood == "DEBUG"
  {
    var log := new Logger();
    bad := log.SetLoggingLevel(5);
    afterBad := log.LoggingLevelStr();
    good := log.SetLoggingLevel(LOGGING_LEVEL_DEBUG);
    afterGood := log.LoggingLevelStr();
  }
}
