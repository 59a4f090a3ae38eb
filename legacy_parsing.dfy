/**
 * The parsers of the older copies (`parsing.go`, `datamodel.go` and
 * `cmd/lib.go`): the command-line options of a drill, the selected
 * subsections, and the lesson file read into one Topic whose banks are
 * Go's zero value until they receive an entry.
 */
module LegacyParsing {
  import opened Wrappers
  import opened Strings
  import opened QuestionBank
  import opened Topics
  import opened Session

  // ---------------------------------------------------------------------
  // Command-line options
  // ---------------------------------------------------------------------

  /** The options of InterrogationParameters that Parse sets; the wait is a time.Duration, in nanoseconds. */
  datatype Options = Options(interactive: bool, wait: int, mode: Mode, subsections: string, limit: int, reversed: bool)

  /** What Parse gives: the options with an error carrying the rejected time, or Go's index-out-of-range panic. */
  datatype ParseResult = Done(options: Options, timeError: Option<string>) | OutOfRange

  /** The options before any argument: not interactive, two seconds, random, every subsection, one pass. */
  function Defaults(): (o: Options)
    ensures !o.interactive && o.wait == 2 * Second && o.mode == Random && o.subsections == "" && o.limit == 1 && !o.reversed
  {
    Options(false, 2 * Second, Random, "", 1, false)
  }

  /** The bounds of Go's int and of time.Duration on a 64-bit platform. */
  const MinInt64: int := -0x8000_0000_0000_0000
  const MaxInt64: int := 0x7FFF_FFFF_FFFF_FFFF

  /** time.Millisecond and time.Second, in nanoseconds. */
  const Millisecond: int := 1_000_000
  const Second: int := 1_000_000_000

  /** strconv.Atoi with a 64-bit int: a numeral outside the int64 range is an error too. */
  function Atoi64(s: string): Option<int> {
    match Atoi(s)
    case Some(v) => if MinInt64 <= v <= MaxInt64 then Some(v) else None
    case None => None
  }

  /** Signed 64-bit arithmetic wraps around: the int64 congruent to `x` modulo 2^64. */
  function Wrap64(x: int): (r: int)
    ensures MinInt64 <= r <= MaxInt64
    ensures (x - r) % 0x1_0000_0000_0000_0000 == 0
    ensures MinInt64 <= x <= MaxInt64 ==> r == x
  {
    var r := (x - MinInt64) % 0x1_0000_0000_0000_0000 + MinInt64;
    assert MinInt64 <= x <= MaxInt64 ==> (x - MinInt64) % 0x1_0000_0000_0000_0000 == x - MinInt64;
    r
  }

  /** time.Duration(ms) * time.Millisecond, wrapped to 64 bits. */
  function MillisToDuration(ms: int): int {
    Wrap64(ms * Millisecond)
  }

  /** A wait of up to about 106 days is converted exactly; a longer one wraps to a negative duration. */
  lemma DurationRange(ms: int)
    ensures 0 <= ms <= MaxInt64 / Millisecond ==> MillisToDuration(ms) == ms * Millisecond
    ensures MillisToDuration(MaxInt64 / Millisecond + 1) < 0
  {
    assert MaxInt64 / Millisecond == 9_223_372_036_854;
  }

  /** The options that take the next argument as their value. */
  predicate TakesValue(opt: string) {
    opt == "-t" || opt == "-m" || opt == "-l"
  }

  /**
   * The loop of Parse from argument `i` on. Every argument is matched as an
   * option, the value of an option included; an option that takes a value
   * in last position reads past the end of the arguments.
   */
  function ParseFrom(args: seq<string>, i: nat, o: Options): ParseResult
    requires i <= |args|
    decreases |args| - i
  {
    if i == |args| then Done(o, None)
    else
      var opt := args[i];
      if TakesValue(opt) && i + 1 == |args| then OutOfRange
      else if opt == "-i" then ParseFrom(args, i + 1, o.(interactive := true))
      else if opt == "-t" then
        match Atoi64(args[i + 1])
        case None => Done(o, Some(args[i + 1]))
        case Some(v) => ParseFrom(args, i + 1, o.(wait := MillisToDuration(v)))
      else if opt == "-m" then
        ParseFrom(args, i + 1, if args[i + 1] == "linear" then o.(mode := Linear) else o)
      else if opt == "-s" then ParseFrom(args, i + 1, o.(mode := Summary))
      else if opt == "-l" then ParseFrom(args, i + 1, o.(subsections := args[i + 1]))
      else if opt == "-r" then ParseFrom(args, i + 1, o.(reversed := true))
      else ParseFrom(args, i + 1, o)
  }

  /** Parse(args...). */
  function ParseArgs(args: seq<string>): ParseResult {
    ParseFrom(args, 0, Defaults())
  }

  /** Parse: the loop over the arguments. */
  method Parse(args: seq<string>) returns (r: ParseResult)
    ensures r == ParseArgs(args)
  {
    var p := Defaults();
    for i := 0 to |args|
      invariant ParseFrom(args, i, p) == ParseArgs(args)
    {
      var opt := args[i];
      if TakesValue(opt) && i + 1 == |args| {
        return OutOfRange;
      }
      if opt == "-i" {
        p := p.(interactive := true);
      } else if opt == "-t" {
        var value := Atoi64(args[i + 1]);
        if value.None? {
          return Done(p, Some(args[i + 1]));
        }
        p := p.(wait := MillisToDuration(value.value));
      } else if opt == "-m" {
        if args[i + 1] == "linear" {
          p := p.(mode := Linear);
        }
      } else if opt == "-s" {
        p := p.(mode := Summary);
      } else if opt == "-l" {
        p := p.(subsections := args[i + 1]);
      } else if opt == "-r" {
        p := p.(reversed := true);
      }
    }
    return Done(p, None);
  }

  /** Parsing without error from `i` carries over to any longer argument list. */
  lemma {:induction false} ParseFromAppend(args: seq<string>, extra: seq<string>, i: nat, o: Options, p: Options)
    requires i <= |args| && ParseFrom(args, i, o) == Done(p, None)
    ensures ParseFrom(args + extra, i, o) == ParseFrom(args + extra, |args|, p)
    decreases |args| - i
  {
    var all := args + extra;
    if i < |args| {
      assert all[i] == args[i];
      if i + 1 < |args| {
        assert all[i + 1] == args[i + 1];
      }
      var opt := args[i];
      var next :=
        if opt == "-i" then o.(interactive := true)
        else if opt == "-t" then o.(wait := MillisToDuration(Atoi64(args[i + 1]).value))
        else if opt == "-m" then (if args[i + 1] == "linear" then o.(mode := Linear) else o)
        else if opt == "-s" then o.(mode := Summary)
        else if opt == "-l" then o.(subsections := args[i + 1])
        else if opt == "-r" then o.(reversed := true)
        else o;
      ParseFromAppend(args, extra, i + 1, next, p);
    }
  }

  /** After arguments that parse without error, more arguments continue from the options reached. */
  lemma ParseAppend(args: seq<string>, extra: seq<string>, p: Options)
    requires ParseArgs(args) == Done(p, None)
    ensures ParseArgs(args + extra) == ParseFrom(args + extra, |args|, p)
  {
    ParseFromAppend(args, extra, 0, Defaults(), p);
  }

  /**
   * A trailing "-t d" sets the wait to d milliseconds, as a wrapped 64-bit
   * Duration; a d that is not an integer, or lies outside the int64 range,
   * stops with an error carrying d and the options so far.
   */
  lemma WaitOption(args: seq<string>, d: string, p: Options)
    requires ParseArgs(args) == Done(p, None) && !TakesValue(d) && d != "-i" && d != "-s" && d != "-r"
    ensures Atoi(d).Some? && MinInt64 <= Atoi(d).value <= MaxInt64 ==>
      ParseArgs(args + ["-t", d]) == Done(p.(wait := MillisToDuration(Atoi(d).value)), None)
    ensures Atoi(d).None? || Atoi(d).value < MinInt64 || Atoi(d).value > MaxInt64 ==>
      ParseArgs(args + ["-t", d]) == Done(p, Some(d))
  {
    ParseAppend(args, ["-t", d], p);
    var all := args + ["-t", d];
    assert all[|args|] == "-t" && all[|args| + 1] == d;
    if Atoi64(d).Some? {
      var q := p.(wait := MillisToDuration(Atoi64(d).value));
      assert ParseFrom(all, |args| + 1, q) == ParseFrom(all, |args| + 2, q);
    }
  }

  /** A trailing "-s" selects the summary, whatever mode was chosen before. */
  lemma SummaryWins(args: seq<string>, p: Options)
    requires ParseArgs(args) == Done(p, None)
    ensures ParseArgs(args + ["-s"]) == Done(p.(mode := Summary), None)
  {
    ParseAppend(args, ["-s"], p);
    assert (args + ["-s"])[|args|] == "-s";
  }

  /** The value of "-l" is matched as an option too: "-l -r" selects the subsection "-r" and reverses. */
  lemma ValueReadAsOption(args: seq<string>, p: Options)
    requires ParseArgs(args) == Done(p, None)
    ensures ParseArgs(args + ["-l", "-r"]) == Done(p.(subsections := "-r", reversed := true), None)
  {
    ParseAppend(args, ["-l", "-r"], p);
    var all := args + ["-l", "-r"];
    assert all[|args|] == "-l" && all[|args| + 1] == "-r";
    var q := p.(subsections := "-r");
    assert "-r"[1] == 'r';
    assert ParseFrom(all, |args| + 1, q) == ParseFrom(all, |args| + 2, q.(reversed := true));
  }

  /** An option that takes a value, given last, reads past the end of the arguments. */
  lemma MissingValue(args: seq<string>, opt: string, p: Options)
    requires ParseArgs(args) == Done(p, None) && TakesValue(opt)
    ensures ParseArgs(args + [opt]) == OutOfRange
  {
    ParseAppend(args, [opt], p);
    assert (args + [opt])[|args|] == opt;
  }

  // ---------------------------------------------------------------------
  // Selected subsections
  // ---------------------------------------------------------------------

  /**
   * GetListOfSubsections of `datamodel.go`: no list for an empty option,
   * otherwise the comma-separated pieces, none holding a comma, which
   * joined by commas give back the option.
   */
  function ListOfSubsections(subsections: string): (r: seq<string>)
    ensures subsections == "" ==> r == []
    ensures subsections != "" ==> |r| >= 1 && Join(r, ",") == subsections
    ensures forall k :: 0 <= k < |r| ==> Free(r[k], ',')
  {
    if |subsections| == 0 then []
    else
      SplitJoin(subsections, ",");
      SplitNonEmpty(subsections, ",");
      SplitPieces(subsections, ',');
      Split(subsections, ",")
  }

  /** No piece of a split on one character holds that character. */
  lemma SplitPieces(s: string, c: char)
    ensures forall k :: 0 <= k < |Split(s, [c])| ==> Free(Split(s, [c])[k], c)
  {
    forall k | 0 <= k < |Split(s, [c])|
      ensures Free(Split(s, [c])[k], c)
    {
      SplitPiecesFree(s, [c], k);
      FreeOfContains(Split(s, [c])[k], c);
    }
  }

  /** A string without the one-character separator is free of that character. */
  lemma FreeOfContains(s: string, c: char)
    requires !Contains(s, [c])
    ensures Free(s, c)
  {
    forall j | 0 <= j < |s|
      ensures s[j] != c
    {
      if s[j] == c {
        OccursAtChar(s, c, j);
        IndexCharFacts(s, c);
      }
    }
  }

  /** Subsection names without commas, written joined by commas, are read back as they were. */
  lemma SubsectionsRoundTrip(names: seq<string>)
    requires |names| >= 1 && Join(names, ",") != ""
    requires forall k :: 0 <= k < |names| ==> Free(names[k], ',')
    ensures ListOfSubsections(Join(names, ",")) == names
  {
    SplitJoinedPieces(names, ',');
  }

  // ---------------------------------------------------------------------
  // ParseTopic
  // ---------------------------------------------------------------------

  /** TopicParsingParameters of the older copies: one announce and the separator. */
  datatype TopicParameters = TopicParameters(topicAnnounce: string, qaSep: string)

  /** The state of ParseTopic's loop: the topic's map, the current id and the current bank. */
  datatype Reading = Reading(list: map<string, QA>, id: string, current: QA)

  /** A line that adds an entry: not empty, and cut in two or more by the separator. */
  predicate IsEntry(line: string, sep: string) {
    line != "" && |Split(line, sep)| >= 2
  }

  /** One line of the file. */
  function Step(st: Reading, line: string, p: TopicParameters): Reading
  {
    if |line| == 0 then st
    else if |Split(line, p.qaSep)| == 1 then
      if HasPrefix(line, p.topicAnnounce) then
        var id := TrimPrefix(line, p.topicAnnounce);
        var (qa, l) := GetOrCreate(st.list, id, Legacy);
        Reading(l, id, qa)
      else st
    else
      assert |Split(line, p.qaSep)| >= 2 by {
        if p.qaSep != [] {
          SplitNonEmpty(line, p.qaSep);
        }
      }
      var parts := Split(line, p.qaSep);
      var qa := st.current.WithEntry(parts[0], Join(parts[1..], p.qaSep));
      Reading(st.list[st.id := qa], st.id, qa)
  }

  /** The lines, one after the other. */
  function Lines(st: Reading, lines: seq<string>, p: TopicParameters): Reading
  {
    if lines == [] then st else Step(Lines(st, lines[..|lines| - 1], p), lines[|lines| - 1], p)
  }

  /** `make([]string, 50)`: the fifty empty strings the lines are appended to. */
  function Blanks(k: nat): (r: seq<string>)
    ensures |r| == k && forall j :: 0 <= j < k ==> r[j] == ""
  {
    seq(k, _ => "")
  }

  /** The state before the first line: an empty map, the empty id, the zero bank. */
  function Initial(): Reading {
    Reading(map[], "", NewQA(Legacy))
  }

  /** ParseTopic over the lines the scanner gives. */
  function ParseTopicSpec(input: seq<string>, p: TopicParameters): map<string, QA> {
    Lines(Initial(), Blanks(50) + input, p).list
  }

  /** ParseTopic: fifty blank lines, the input lines, then the loop over them on a legacy Topic. */
  method ParseTopic(input: seq<string>, p: TopicParameters) returns (topic: Topic)
    ensures fresh(topic) && topic.variant == Legacy
    ensures topic.list == ParseTopicSpec(input, p)
  {
    var lines := Blanks(50) + input;
    topic := new Topic(Legacy);
    var subsectionID: string := "";
    var qaSubsection := NewQA(Legacy);
    for i := 0 to |lines|
      invariant topic.variant == Legacy
      invariant Reading(topic.list, subsectionID, qaSubsection) == Lines(Initial(), lines[..i], p)
    {
      var line := lines[i];
      SliceSnoc(lines, 0, i);
      if |line| > 0 {
        var split := Split(line, p.qaSep);
        if |split| == 1 {
          if HasPrefix(line, p.topicAnnounce) {
            subsectionID := TrimPrefix(line, p.topicAnnounce);
            qaSubsection := topic.GetSubsection(subsectionID);
          }
        } else {
          if p.qaSep != [] {
            SplitNonEmpty(line, p.qaSep);
          }
          qaSubsection := qaSubsection.WithEntry(split[0], Join(split[1..], p.qaSep));
          topic.SetSubsection(subsectionID, qaSubsection);
        }
      }
    }
    assert lines[..|lines|] == lines;
  }

  /** Blank lines do nothing, and in particular the fifty that ParseTopic puts first. */
  lemma {:induction false} BlanksIgnored(st: Reading, k: nat, input: seq<string>, p: TopicParameters)
    ensures Lines(st, Blanks(k) + input, p) == Lines(st, input, p)
    decreases |input|, k
  {
    if input == [] {
      assert Blanks(k) + input == Blanks(k);
      if k > 0 {
        assert Blanks(k)[..k - 1] == Blanks(k - 1);
        BlanksIgnored(st, k - 1, [], p);
        assert Blanks(k - 1) + [] == Blanks(k - 1);
      }
    } else {
      var all := Blanks(k) + input;
      assert all[..|all| - 1] == Blanks(k) + input[..|input| - 1];
      BlanksIgnored(st, k, input[..|input| - 1], p);
    }
  }

  /** The number of entry lines. */
  function EntryCount(lines: seq<string>, sep: string): nat {
    if lines == [] then 0
    else EntryCount(lines[..|lines| - 1], sep) + if IsEntry(lines[|lines| - 1], sep) then 1 else 0
  }

  /**
   * The loop's invariant: every bank is valid, and the current bank is the
   * one stored under the current id, or the zero bank if nothing is stored
   * there yet.
   */
  predicate Consistent(st: Reading) {
    && ValidList(st.list) && st.current.Valid()
    && (st.id in st.list ==> st.list[st.id] == st.current)
    && (st.id !in st.list ==> st.current == NewQA(Legacy))
  }

  /** A line keeps the reading consistent and adds its entry, if it is one, to the total. */
  lemma StepCounts(st: Reading, line: string, p: TopicParameters)
    requires Consistent(st)
    ensures Consistent(Step(st, line, p))
    ensures TotalCount(Step(st, line, p).list) == TotalCount(st.list) + if IsEntry(line, p.qaSep) then 1 else 0
  {
    if |line| > 0 {
      if |Split(line, p.qaSep)| == 1 {
        if HasPrefix(line, p.topicAnnounce) {
          OpenCounts(st, TrimPrefix(line, p.topicAnnounce));
        }
      } else {
        StoreCounts(st, Step(st, line, p).current);
      }
    }
  }

  /** An announce opens a subsection: the reading stays consistent and the total is unchanged. */
  lemma OpenCounts(st: Reading, id: string)
    requires Consistent(st)
    ensures var (qa, l) := GetOrCreate(st.list, id, Legacy);
      Consistent(Reading(l, id, qa)) && TotalCount(l) == TotalCount(st.list)
  {
    if Fetch(st.list, id).nilQuestions {
      TotalCountUpdate(st.list, id, NewQA(Legacy));
    }
  }

  /** Storing the current bank with one more entry: consistent again, and one more in total. */
  lemma StoreCounts(st: Reading, qa: QA)
    requires Consistent(st) && qa.Valid() && qa.GetCount() == st.current.GetCount() + 1
    ensures Consistent(Reading(st.list[st.id := qa], st.id, qa))
    ensures TotalCount(st.list[st.id := qa]) == TotalCount(st.list) + 1
  {
    TotalCountUpdate(st.list, st.id, qa);
  }

  /** Reading lines keeps the reading consistent and stores one entry per entry line. */
  lemma {:induction false} LinesCount(st: Reading, lines: seq<string>, p: TopicParameters)
    requires Consistent(st)
    ensures Consistent(Lines(st, lines, p))
    ensures TotalCount(Lines(st, lines, p).list) == TotalCount(st.list) + EntryCount(lines, p.qaSep)
  {
    if lines != [] {
      LinesCount(st, lines[..|lines| - 1], p);
      StepCounts(Lines(st, lines[..|lines| - 1], p), lines[|lines| - 1], p);
    }
  }

  /**
   * No entry is lost: the parsed topic holds valid banks only, and as many
   * entries in all as the input has entry lines, those before the first
   * announce being stored under the empty id.
   */
  lemma EveryEntryStored(input: seq<string>, p: TopicParameters)
    ensures ValidList(ParseTopicSpec(input, p))
    ensures TotalCount(ParseTopicSpec(input, p)) == EntryCount(input, p.qaSep)
  {
    BlanksIgnored(Initial(), 50, input, p);
    LinesCount(Initial(), input, p);
  }

  /** An entry line adds its entry to the current bank and stores that bank under the current id, before any announce too. */
  lemma EntryStored(st: Reading, line: string, p: TopicParameters)
    requires IsEntry(line, p.qaSep)
    ensures var st' := Step(st, line, p);
      var e := Split(line, p.qaSep);
      && e[0] + p.qaSep + Join(e[1..], p.qaSep) == line
      && st'.id == st.id && st'.current == st.current.WithEntry(e[0], Join(e[1..], p.qaSep))
      && st'.list == st.list[st.id := st'.current]
  {
    SplitFirst(line, p.qaSep);
  }

  /** A line without the separator that is not an announce is ignored. */
  lemma OtherLineIgnored(st: Reading, line: string, p: TopicParameters)
    requires |Split(line, p.qaSep)| == 1 && !HasPrefix(line, p.topicAnnounce)
    ensures Step(st, line, p) == st
  {
  }

  /**
   * An announce line opens its subsection: a bank stored with entries is
   * resumed, otherwise the zero bank is stored and is current; the other
   * subsections keep their banks.
   */
  lemma Announced(st: Reading, id: string, p: TopicParameters)
    requires p.qaSep != [] && p.topicAnnounce + id != [] && !Contains(p.topicAnnounce + id, p.qaSep)
    ensures var st' := Step(st, p.topicAnnounce + id, p);
      && st'.id == id && id in st'.list && st'.list[id] == st'.current
      && (!Fetch(st.list, id).nilQuestions ==> st'.list == st.list && st'.current == st.list[id])
      && (Fetch(st.list, id).nilQuestions ==> st'.current == NewQA(Legacy) && st'.list == st.list[id := NewQA(Legacy)])
  {
    var line := p.topicAnnounce + id;
    SplitSingleton(line, p.qaSep);
    assert line[..|p.topicAnnounce|] == p.topicAnnounce;
    assert TrimPrefix(line, p.topicAnnounce) == id;
  }
}
