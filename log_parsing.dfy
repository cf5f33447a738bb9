/** The log extraction of the benchmark's graphing script: every line of a
    log file that carries both a sequence number and a parseable timestamp
    yields one (SN text, timestamp) pair, in file order; any other line is
    skipped.

    A line is its text without the newline that ends it (file iteration
    gives each line at most that one newline, which `$` matches before and
    `.` never matches), so the patterns' `.` matches any character here. The
    two regular expressions each wrapper passes are modelled by what they
    extract (`LazyGroup`, `TailGroup`); the date parser is a parameter, a
    partial function from text to a timestamp of any type. */
module LogParsing {
  import opened ArqBasics

  /** `pat` occurs in `s` at index `k`. */
  predicate OccursAt(s: string, pat: string, k: nat) {
    k + |pat| <= |s| && s[k..k + |pat|] == pat
  }

  /** The first index at or after `from` where `pat` occurs in `s`. */
  function Find(s: string, pat: string, from: nat): (r: Option<nat>)
    ensures r.Some? ==> from <= r.value && OccursAt(s, pat, r.value)
    ensures r.Some? ==> forall k :: from <= k < r.value ==> !OccursAt(s, pat, k)
    ensures r.None? ==> forall k :: from <= k ==> !OccursAt(s, pat, k)
    decreases |s| - from
  {
    if from + |pat| > |s| then None
    else if s[from..from + |pat|] == pat then Some(from)
    else Find(s, pat, from + 1)
  }

  /** Group 1 of `prefix(.+?)suffix` as a search finds it: at the first
      occurrence of `prefix` (a later one cannot match where the first does
      not), the shortest non-empty text that `suffix` follows. */
  function LazyGroup(line: string, prefix: string, suffix: string): (r: Option<string>)
    ensures r.Some? ==> |r.value| > 0 && Find(line, prefix, 0).Some?
    ensures r.Some? ==>
      var start := Find(line, prefix, 0).value + |prefix|;
      OccursAt(line, r.value + suffix, start) &&
      forall m :: start < m < start + |r.value| ==> !OccursAt(line, suffix, m)
    ensures r.None? <==>
      (Find(line, prefix, 0).None? || !exists m :: Find(line, prefix, 0).value + |prefix| < m && OccursAt(line, suffix, m))
  {
    match Find(line, prefix, 0)
    case None => None
    case Some(i) =>
      var start := i + |prefix|;
      match Find(line, suffix, start + 1)
      case None => None
      case Some(j) =>
        assert line[start..j + |suffix|] == line[start..j] + line[j..j + |suffix|];
        Some(line[start..j])
  }

  /** Group 1 of `marker(.+?)$`: everything after the first occurrence of
      `marker` up to the end of the line, when that is not empty. */
  function TailGroup(line: string, marker: string): (r: Option<string>)
    ensures r.Some? ==>
      0 < |r.value| && |marker| + |r.value| <= |line| && OccursAt(line, marker + r.value, |line| - |marker| - |r.value|)
    ensures r.Some? ==> Find(line, marker, 0).Some? && r.value == line[Find(line, marker, 0).value + |marker|..]
    ensures r.None? <==> Find(line, marker, 0).None? || Find(line, marker, 0).value + |marker| == |line|
  {
    match Find(line, marker, 0)
    case None => None
    case Some(i) =>
      if i + |marker| == |line| then None
      else
        assert line[i..] == line[i..i + |marker|] + line[i + |marker|..];
        Some(line[i + |marker|..])
  }

  /** What one line contributes: its pair if both extractions succeed and
      the timestamp parses, else nothing. */
  function LinePair<T>(line: string, first: string -> Option<string>, second: string -> Option<string>,
                       parse: string -> Option<T>): (r: seq<(string, T)>)
    ensures |r| <= 1
    ensures r != [] <==> first(line).Some? && second(line).Some? && parse(second(line).value).Some?
    ensures r != [] ==> r[0] == (first(line).value, parse(second(line).value).value)
  {
    match first(line)
    case None => []
    case Some(sn) =>
      match second(line)
      case None => []
      case Some(timestampStr) =>
        match parse(timestampStr)
        case None => []
        case Some(timestamp) => [(sn, timestamp)]
  }

  /** The pairs of a whole file, line by line. */
  function Pairs<T>(lines: seq<string>, first: string -> Option<string>, second: string -> Option<string>,
                    parse: string -> Option<T>): seq<(string, T)>
  {
    if lines == [] then []
    else Pairs(lines[..|lines| - 1], first, second, parse) + LinePair(lines[|lines| - 1], first, second, parse)
  }

  /** The indices of the lines that yield a pair, in increasing order. */
  function Sources<T>(lines: seq<string>, first: string -> Option<string>, second: string -> Option<string>,
                      parse: string -> Option<T>): seq<nat>
  {
    if lines == [] then []
    else
      Sources(lines[..|lines| - 1], first, second, parse)
      + (if LinePair(lines[|lines| - 1], first, second, parse) != [] then [|lines| - 1] else [])
  }

  /** The pairs are exactly those of the lines that yield one, in the order
      of those lines in the file: the k-th pair comes from line Sources[k],
      the sources increase, and every line yielding a pair is a source. So
      there are no more pairs than lines. */
  lemma {:induction false} PairsInFileOrder<T>(lines: seq<string>, first: string -> Option<string>,
                                               second: string -> Option<string>, parse: string -> Option<T>)
    ensures var ps, src := Pairs(lines, first, second, parse), Sources(lines, first, second, parse);
      && |ps| == |src| <= |lines|
      && (forall k :: 0 <= k < |src| ==> src[k] < |lines| && [ps[k]] == LinePair(lines[src[k]], first, second, parse))
      && (forall k, l :: 0 <= k < l < |src| ==> src[k] < src[l])
      && (forall i :: 0 <= i < |lines| && LinePair(lines[i], first, second, parse) != [] ==> i in src)
  {
    if lines != [] {
      var init := lines[..|lines| - 1];
      PairsInFileOrder(init, first, second, parse);
      var ps0, src0 := Pairs(init, first, second, parse), Sources(init, first, second, parse);
      var last := LinePair(lines[|lines| - 1], first, second, parse);
      assert forall i :: 0 <= i < |init| ==> lines[i] == init[i];
      var ps, src := Pairs(lines, first, second, parse), Sources(lines, first, second, parse);
      assert ps == ps0 + last;
      forall k | 0 <= k < |src|
        ensures src[k] < |lines| && [ps[k]] == LinePair(lines[src[k]], first, second, parse)
      {
        if k < |src0| {
          assert src[k] == src0[k] && ps[k] == ps0[k];
        }
      }
    }
  }

  /** A file in which no line yields a pair gives no pairs. */
  lemma {:induction false} NoMatchesNoPairs<T>(lines: seq<string>, first: string -> Option<string>,
                                               second: string -> Option<string>, parse: string -> Option<T>)
    requires forall i :: 0 <= i < |lines| ==> first(lines[i]).None?
    ensures Pairs(lines, first, second, parse) == []
  {
    if lines != [] {
      NoMatchesNoPairs(lines[..|lines| - 1], first, second, parse);
    }
  }

  /** parse_logfile over the lines of the file: each line is tried in turn
      and its pair appended; `output` only prints, so the result does not
      depend on it. */
  method ParseLogfile<T>(lines: seq<string>, first: string -> Option<string>, second: string -> Option<string>,
                         parse: string -> Option<T>, output: bool) returns (timeSeries: seq<(string, T)>)
    ensures timeSeries == Pairs(lines, first, second, parse)
    ensures |timeSeries| <= |lines|
  {
    timeSeries := [];
    var n := 0;
    while n < |lines|
      invariant 0 <= n <= |lines|
      invariant timeSeries == Pairs(lines[..n], first, second, parse)
    {
      var line := lines[n];
      assert lines[..n + 1][..n] == lines[..n];
      n := n + 1;
      var sequenceNumber := first(line);
      if sequenceNumber.None? {
        continue;
      }
      var timestampStr := second(line);
      if timestampStr.None? {
        continue;
      }
      var timestamp := parse(timestampStr.value);
      if timestamp.None? {
        continue;
      }
      timeSeries := timeSeries + [(sequenceNumber.value, timestamp.value)];
    }
    assert lines[..n] == lines;
    PairsInFileOrder(lines, first, second, parse);
  }

  /** The SN pattern of the server log, "Adding packet with SN (.+?) to IB". */
  function ServerSn(line: string): Option<string> {
    LazyGroup(line, "Adding packet with SN ", " to IB")
  }

  /** The timestamp pattern of the server log, " to IB at time (.+?)$". */
  function ServerTimestamp(line: string): Option<string> {
    TailGroup(line, " to IB at time ")
  }

  /** The SN pattern of the client log, "Pushed packet with SN (.+?) to OB". */
  function ClientSn(line: string): Option<string> {
    LazyGroup(line, "Pushed packet with SN ", " to OB")
  }

  /** The timestamp pattern of the client log, " to OB at time (.+?)$". */
  function ClientTimestamp(line: string): Option<string> {
    TailGroup(line, " to OB at time ")
  }

  /** parse_server_logfile: input-buffer pushes. */
  method ParseServerLogfile<T>(lines: seq<string>, parse: string -> Option<T>, output: bool)
    returns (timeSeries: seq<(string, T)>)
    ensures timeSeries == Pairs(lines, ServerSn, ServerTimestamp, parse)
  {
    timeSeries := ParseLogfile(lines, ServerSn, ServerTimestamp, parse, output);
  }

  /** parse_client_logfile: output-buffer pushes. */
  method ParseClientLogfile<T>(lines: seq<string>, parse: string -> Option<T>, output: bool)
    returns (timeSeries: seq<(string, T)>)
    ensures timeSeries == Pairs(lines, ClientSn, ClientTimestamp, parse)
  {
    timeSeries := ParseLogfile(lines, ClientSn, ClientTimestamp, parse, output);
  }

  /** Two texts occurring back to back occur as their concatenation. */
  lemma ConcatOccurs(s: string, a: string, b: string, i: nat)
    requires OccursAt(s, a, i) && OccursAt(s, b, i + |a|)
    ensures OccursAt(s, a + b, i)
  {
    assert s[i..i + |a| + |b|] == s[i..i + |a|] + s[i + |a|..i + |a| + |b|];
  }

  /** A server line yielding a pair carries "Adding packet with SN <sn> to
      IB" and ends in " to IB at time <timestamp>", both texts non-empty. */
  lemma ServerPairShape<T>(line: string, parse: string -> Option<T>)
    requires LinePair(line, ServerSn, ServerTimestamp, parse) != []
    ensures var sn, ts := ServerSn(line).value, ServerTimestamp(line).value;
      && |sn| > 0 && |ts| > 0
      && (exists i: nat :: OccursAt(line, "Adding packet with SN " + sn + " to IB", i))
      && 15 + |ts| <= |line| && OccursAt(line, " to IB at time " + ts, |line| - 15 - |ts|)
  {
    var prefix, suffix := "Adding packet with SN ", " to IB";
    var sn := ServerSn(line).value;
    var i: nat :| OccursAt(line, prefix, i) && OccursAt(line, sn + suffix, i + |prefix|);
    ConcatOccurs(line, prefix, sn + suffix, i);
    assert prefix + (sn + suffix) == prefix + sn + suffix;
  }

  /** The example line of the server log, "Adding packet with SN 2 to IB
      at time 2024-11-27 19:16:12.309514278", gives SN "2". */
  lemma ServerExampleSn()
    ensures ServerSn("Adding packet with SN " + "2" + (" to IB" + " at time 2024-11-27 19:16:12.309514278")) == Some("2")
  {
    var prefix, sn, suffix := "Adding packet with SN ", "2", " to IB";
    var line := prefix + sn + (suffix + " at time 2024-11-27 19:16:12.309514278");
    assert line[..22] == prefix && line[22..23] == sn && line[23..29] == suffix;
    assert OccursAt(line, prefix, 0);
    assert OccursAt(line, suffix, 23);
  }
}
