/**
 * What task_3/main.py does with parsed records: the fail-fast loader, the
 * filter by level, the per-level counts in first-seen order, and the part of
 * `main` that validates the requested level and picks the records to list.
 */
module LogAnalysis {
  import opened Wrappers
  import opened Text
  import opened LogParser

  // ---------------------------------------------------------------- loading

  /**
   * A reader of one line, as `parse_log_line` is. The loader below is written
   * for any reader and `Run` hands it `ParseLogLine`, so that reasoning about the
   * loop does not look inside the line format.
   */
  type LineParser = string -> Result<LogRecord, ParseError>

  predicate AllParse(lines: seq<string>, parse: LineParser) {
    forall i | 0 <= i < |lines| :: parse(lines[i]).Success?
  }

  /** The records of lines that all parse, one per line and in line order. */
  function Loaded(lines: seq<string>, parse: LineParser): (logs: seq<LogRecord>)
    requires AllParse(lines, parse)
    ensures |logs| == |lines|
  {
    seq(|lines|, i requires 0 <= i < |lines| => parse(lines[i]).value)
  }

  /**
   * `load_logs`, over the lines `read_file` yields (each with its line feed, the
   * last one possibly without): every line is parsed in order and the first
   * line that does not parse aborts the load, with no partial list.
   */
  method LoadLogs(lines: seq<string>, parse: LineParser) returns (r: Result<seq<LogRecord>, ParseError>)
    ensures r.Success? <==> AllParse(lines, parse)
    ensures r.Success? ==>
              |r.value| == |lines| && forall i | 0 <= i < |lines| :: parse(lines[i]) == Success(r.value[i])
    ensures r.Failure? ==>
              exists i | 0 <= i < |lines| ::
                (forall j | 0 <= j < i :: parse(lines[j]).Success?) && parse(lines[i]) == Failure(r.error)
  {
    var logs := [];
    for i := 0 to |lines|
      invariant |logs| == i
      invariant forall j | 0 <= j < i :: parse(lines[j]) == Success(logs[j])
    {
      var entry := parse(lines[i]);
      if entry.Failure? {
        return Failure(entry.error);
      }
      logs := logs + [entry.value];
    }
    return Success(logs);
  }

  /** A final line without its line feed makes the whole load fail. */
  lemma UnterminatedLastLineFailsLoad(lines: seq<string>)
    requires lines != []
    requires var last := lines[|lines| - 1]; last == [] || last[|last| - 1] != '\n'
    ensures !AllParse(lines, ParseLogLine)
  {
    UnterminatedLineRejected(lines[|lines| - 1]);
  }

  // ---------------------------------------------------------------- filtering

  /** The level `main` accepts on the command line: the four literals, in any case. */
  function ParseLevel(s: string): (r: Option<Level>)
    ensures forall level :: r == Some(level) <==> Upper(s) == Name(level)
  {
    var u := Upper(s);
    if u == Name(DEBUG) then Some(DEBUG)
    else if u == Name(INFO) then Some(INFO)
    else if u == Name(WARNING) then Some(WARNING)
    else if u == Name(ERROR) then Some(ERROR)
    else None
  }

  /** `a` is `b` with some elements left out, the rest kept in order. */
  ghost predicate IsSubsequence<T>(a: seq<T>, b: seq<T>)
    decreases |b|
  {
    if a == [] then true
    else if b == [] then false
    else if a[0] == b[0] then IsSubsequence(a[1..], b[1..])
    else IsSubsequence(a, b[1..])
  }

  /** The number of records with the given level. */
  function Occurrences(logs: seq<LogRecord>, level: Level): nat {
    if logs == [] then 0
    else Occurrences(logs[..|logs| - 1], level) + (if logs[|logs| - 1].level == level then 1 else 0)
  }

  lemma {:induction false} OccurrencesCons(r: LogRecord, logs: seq<LogRecord>, level: Level)
    ensures Occurrences([r] + logs, level) == (if r.level == level then 1 else 0) + Occurrences(logs, level)
    decreases |logs|
  {
    if logs != [] {
      var init := logs[..|logs| - 1];
      assert ([r] + logs)[..|logs|] == [r] + init;
      OccurrencesCons(r, init, level);
    } else {
      assert [r] + logs == [r];
      assert [r][..0] == [];
    }
  }

  /**
   * `filter_logs_by_level`: the records whose level equals `level.upper()`, in
   * their original order; the level itself is not validated, so an unknown one
   * selects nothing.
   */
  function FilterByLevel(logs: seq<LogRecord>, level: string): (r: seq<LogRecord>)
    ensures forall k | 0 <= k < |r| :: Name(r[k].level) == Upper(level)
    ensures IsSubsequence(r, logs)
    ensures ParseLevel(level) == None ==> r == []
    ensures forall l :: ParseLevel(level) == Some(l) ==> |r| == Occurrences(logs, l)
  {
    if logs == [] then []
    else
      var rest := FilterByLevel(logs[1..], level);
      OccurrencesConsAll(logs);
      if Name(logs[0].level) == Upper(level) then [logs[0]] + rest else rest
  }

  lemma OccurrencesConsAll(logs: seq<LogRecord>)
    requires logs != []
    ensures forall l :: Occurrences(logs, l) == (if logs[0].level == l then 1 else 0) + Occurrences(logs[1..], l)
  {
    forall l ensures Occurrences(logs, l) == (if logs[0].level == l then 1 else 0) + Occurrences(logs[1..], l) {
      OccurrencesCons(logs[0], logs[1..], l);
      assert [logs[0]] + logs[1..] == logs;
    }
  }

  // ---------------------------------------------------------------- counting

  /** One key of the counter and its count. */
  datatype Entry = Entry(level: Level, count: nat)

  /** The dictionary `count_logs_by_level` returns, in its iteration order. */
  type Counts = seq<Entry>

  function Keys(c: Counts): (ks: seq<Level>)
    ensures |ks| == |c| && forall i | 0 <= i < |c| :: ks[i] == c[i].level
  {
    seq(|c|, i requires 0 <= i < |c| => c[i].level)
  }

  /** `counts[level]` for a `Counter`: zero for a level that is absent. */
  function CountOf(c: Counts, level: Level): nat {
    if c == [] then 0
    else if c[0].level == level then c[0].count
    else CountOf(c[1..], level)
  }

  function Total(c: Counts): nat {
    if c == [] then 0 else c[0].count + Total(c[1..])
  }

  /** The levels of the records, in record order. */
  function Levels(logs: seq<LogRecord>): seq<Level> {
    seq(|logs|, i requires 0 <= i < |logs| => logs[i].level)
  }

  /** The elements of `s` without repeats, each where it first occurs. */
  function Distinct<T(==)>(s: seq<T>): seq<T> {
    if s == [] then []
    else
      var d := Distinct(s[..|s| - 1]);
      if s[|s| - 1] in d then d else d + [s[|s| - 1]]
  }

  /** `counter[level] += 1`: an existing key keeps its place, a new one goes last. */
  function Tally(c: Counts, level: Level): Counts {
    if c == [] then [Entry(level, 1)]
    else if c[0].level == level then [Entry(level, c[0].count + 1)] + c[1..]
    else [c[0]] + Tally(c[1..], level)
  }

  /** `dict(Counter(log["log_level"] for log in logs))`. */
  function CountByLevel(logs: seq<LogRecord>): Counts {
    if logs == [] then []
    else Tally(CountByLevel(logs[..|logs| - 1]), logs[|logs| - 1].level)
  }

  /** Tallying a level that is a key keeps the keys; a new level is appended last. */
  lemma {:induction false} TallyKeys(c: Counts, level: Level)
    ensures Keys(Tally(c, level)) == if level in Keys(c) then Keys(c) else Keys(c) + [level]
  {
    if c != [] && c[0].level != level {
      TallyKeys(c[1..], level);
      assert Keys(c) == [c[0].level] + Keys(c[1..]);
      var t := Tally(c, level);
      assert t[1..] == Tally(c[1..], level);
      assert Keys(t) == [c[0].level] + Keys(Tally(c[1..], level));
    } else if c != [] {
      assert Keys(Tally(c, level)) == Keys(c);
    }
  }

  /** Tallying adds one to the count of that level and to no other. */
  lemma {:induction false} TallyCount(c: Counts, level: Level, l: Level)
    ensures CountOf(Tally(c, level), l) == CountOf(c, l) + (if l == level then 1 else 0)
  {
    if c != [] && c[0].level != level {
      TallyCount(c[1..], level, l);
    }
  }

  lemma {:induction false} TallyTotal(c: Counts, level: Level)
    ensures Total(Tally(c, level)) == Total(c) + 1
  {
    if c != [] && c[0].level != level {
      TallyTotal(c[1..], level);
    }
  }

  lemma {:induction false} TallyPositive(c: Counts, level: Level)
    requires forall i | 0 <= i < |c| :: c[i].count >= 1
    ensures forall i | 0 <= i < |Tally(c, level)| :: Tally(c, level)[i].count >= 1
  {
    if c != [] && c[0].level != level {
      assert forall i | 0 <= i < |c| - 1 :: c[1..][i].count >= 1;
      TallyPositive(c[1..], level);
      var t := Tally(c, level);
      forall i | 0 <= i < |t| ensures t[i].count >= 1 {
        if i > 0 { assert t[i] == Tally(c[1..], level)[i - 1]; }
      }
    }
  }

  /**
   * The counter's keys are exactly the levels that occur, each once, in the order
   * of their first occurrence; each count is the number of records with that
   * level and is at least one; absent levels count zero; the counts add up to
   * the number of records.
   */
  lemma CountByLevelSpec(logs: seq<LogRecord>)
    ensures Keys(CountByLevel(logs)) == Distinct(Levels(logs))
    ensures forall l :: CountOf(CountByLevel(logs), l) == Occurrences(logs, l)
    ensures forall i | 0 <= i < |CountByLevel(logs)| :: CountByLevel(logs)[i].count >= 1
    ensures Total(CountByLevel(logs)) == |logs|
  {
    CountByLevelKeys(logs);
    forall l ensures CountOf(CountByLevel(logs), l) == Occurrences(logs, l) {
      CountByLevelCount(logs, l);
    }
    CountByLevelPositive(logs);
    CountByLevelTotal(logs);
  }

  lemma {:induction false} CountByLevelKeys(logs: seq<LogRecord>)
    ensures Keys(CountByLevel(logs)) == Distinct(Levels(logs))
  {
    if logs != [] {
      var init := logs[..|logs| - 1];
      CountByLevelKeys(init);
      TallyKeys(CountByLevel(init), logs[|logs| - 1].level);
      assert Levels(logs)[..|logs| - 1] == Levels(init);
    }
  }

  lemma {:induction false} CountByLevelCount(logs: seq<LogRecord>, l: Level)
    ensures CountOf(CountByLevel(logs), l) == Occurrences(logs, l)
  {
    if logs != [] {
      var init := logs[..|logs| - 1];
      CountByLevelCount(init, l);
      TallyCount(CountByLevel(init), logs[|logs| - 1].level, l);
    }
  }

  lemma {:induction false} CountByLevelPositive(logs: seq<LogRecord>)
    ensures forall i | 0 <= i < |CountByLevel(logs)| :: CountByLevel(logs)[i].count >= 1
  {
    if logs != [] {
      var init := logs[..|logs| - 1];
      CountByLevelPositive(init);
      TallyPositive(CountByLevel(init), logs[|logs| - 1].level);
    }
  }

  lemma {:induction false} CountByLevelTotal(logs: seq<LogRecord>)
    ensures Total(CountByLevel(logs)) == |logs|
  {
    if logs != [] {
      var init := logs[..|logs| - 1];
      CountByLevelTotal(init);
      TallyTotal(CountByLevel(init), logs[|logs| - 1].level);
    }
  }

  /** The first position of `x` in `s`. */
  function FirstIndex<T(==)>(s: seq<T>, x: T): (i: nat)
    requires x in s
    ensures i < |s| && s[i] == x && x !in s[..i]
  {
    if s[0] == x then 0 else 1 + FirstIndex(s[1..], x)
  }

  lemma {:induction false} FirstIndexInInit<T>(s: seq<T>, x: T)
    requires s != [] && x in s[..|s| - 1]
    ensures FirstIndex(s, x) == FirstIndex(s[..|s| - 1], x)
  {
    var i := FirstIndex(s[..|s| - 1], x);
    var j := FirstIndex(s, x);
    assert s[..|s| - 1][..i] == s[..i];
  }

  /**
   * `Distinct` keeps every element once and nothing else, and lists the elements
   * in the order of their first occurrence.
   */
  lemma {:induction false} DistinctSpec<T>(s: seq<T>)
    ensures forall x | x in Distinct(s) :: x in s
    ensures forall x | x in s :: x in Distinct(s)
    ensures forall i, j | 0 <= i < j < |Distinct(s)| :: Distinct(s)[i] != Distinct(s)[j]
    ensures forall i, j | 0 <= i < j < |Distinct(s)| :: FirstIndex(s, Distinct(s)[i]) < FirstIndex(s, Distinct(s)[j])
  {
    if s != [] {
      var init := s[..|s| - 1];
      var x := s[|s| - 1];
      DistinctSpec(init);
      var d := Distinct(init);
      assert s == init + [x];
      forall y | y in d ensures FirstIndex(s, y) == FirstIndex(init, y) {
        FirstIndexInInit(s, y);
      }
      if x !in d {
        assert FirstIndex(s, x) == |s| - 1;
      }
    }
  }

  /** For a valid level, the records listed are as many as the counter holds for it. */
  lemma FilterMatchesCount(logs: seq<LogRecord>, level: Level)
    ensures |FilterByLevel(logs, Name(level))| == CountOf(CountByLevel(logs), level)
  {
    LevelNameIsUpper(level);
    CountByLevelSpec(logs);
  }

  // ---------------------------------------------------------------- main

  datatype Details =
    | NoDetails                                               // no level requested
    | InvalidLevel                                            // the requested level was refused
    | Listing(level: Level, records: seq<LogRecord>)          // the records shown for the level

  /** What `main` reports for a file: the load error, or the counts and the details. */
  datatype Report =
    | LoadFailed(error: ParseError)
    | Summary(counts: Counts, details: Details)

  /**
   * The part of `main` that follows the counts: nothing when no level (or an
   * empty one) was given; otherwise the level is upper-cased, anything but the
   * four literals is refused, and the records of that level are listed.
   */
  function DetailsFor(logs: seq<LogRecord>, requested: Option<string>): (d: Details)
    ensures d == NoDetails <==> requested == None || requested == Some("")
    ensures d == InvalidLevel <==> requested.Some? && requested.value != "" && ParseLevel(requested.value) == None
    ensures d.Listing? ==>
              && requested.Some? && ParseLevel(requested.value) == Some(d.level)
              && d.records == FilterByLevel(logs, Name(d.level))
              && |d.records| == CountOf(CountByLevel(logs), d.level)
  {
    if requested == None || requested == Some("") then NoDetails
    else
      var level := Upper(requested.value);
      match ParseLevel(level)
      case None => InvalidLevel
      case Some(l) =>
        UpperOfUppered(level);
        FilterMatchesCount(logs, l);
        Listing(l, FilterByLevel(logs, level))
  }

  /**
   * `main` after the argument check: load the file's lines, then report the
   * counts (displayed before the level is looked at) and the details.
   */
  method Run(lines: seq<string>, requested: Option<string>) returns (report: Report)
    ensures report.LoadFailed? <==> !AllParse(lines, ParseLogLine)
    ensures report.LoadFailed? ==>
              exists i | 0 <= i < |lines| ::
                (forall j | 0 <= j < i :: ParseLogLine(lines[j]).Success?) && ParseLogLine(lines[i]) == Failure(report.error)
    ensures report.Summary? ==>
              var logs := Loaded(lines, ParseLogLine);
              report.counts == CountByLevel(logs) && report.details == DetailsFor(logs, requested)
  {
    var loaded := LoadLogs(lines, ParseLogLine);
    if loaded.Failure? {
      return LoadFailed(loaded.error);
    }
    var logs := loaded.value;
    assert logs == Loaded(lines, ParseLogLine);
    return Summary(CountByLevel(logs), DetailsFor(logs, requested));
  }
}
