/** The rank-score reporter (`print_rankscore` and `print_helper`): scans the records of a
    variant file, reads each record's rank score, and prints the records whose score stands
    in the chosen relation to a threshold, as a full line, a column subset or the scores. */
module RankScore {
  import opened Wrappers
  import opened Strings
  import opened Variants

  /** The comparison modes; `Always` is the mode given as None (no filtering). */
  datatype Comparison = Equal | Greater | Less | LessOrEqual | GreaterOrEqual | Always

  /** The name a mode is requested by. */
  function ModeName(c: Comparison): Option<string>
  {
    match c
    case Equal => Some("equal")
    case Greater => Some("greater")
    case Less => Some("less")
    case LessOrEqual => Some("lessorequal")
    case GreaterOrEqual => Some("greaterorequal")
    case Always => None
  }

  /** The mode assertion: a request passes exactly when it names one of the six modes. */
  function ParseComparison(compType: Option<string>): (c: Option<Comparison>)
    ensures c.Some? ==> ModeName(c.value) == compType
    ensures c.None? <==> forall m :: ModeName(m) != compType
  {
    match compType
    case None => Some(Always)
    case Some(name) =>
      if name == "equal" then Some(Equal)
      else if name == "greater" then Some(Greater)
      else if name == "less" then Some(Less)
      else if name == "lessorequal" then Some(LessOrEqual)
      else if name == "greaterorequal" then Some(GreaterOrEqual)
      else None
  }

  /** The relation each mode applies between a record's score and the threshold. */
  predicate Holds(c: Comparison, score: real, compVal: real)
  {
    match c
    case Equal => score == compVal
    case Greater => score > compVal
    case Less => score < compVal
    case LessOrEqual => score <= compVal
    case GreaterOrEqual => score >= compVal
    case Always => true
  }

  /** One printed line. */
  datatype Line =
    | Header(cells: seq<string>)                    // tab-joined header cells
    | FullRecord(rec: Record)                       // the record's own text line
    | Row(cells: seq<string>)                       // tab-joined column-mode cells
    | ScoreList(score: real, subscores: seq<int>)   // a Python list: score, then subscores
    | BareScore(score: real)                        // the score alone

  /** What a run printed, and the exception that ended it, if any. */
  datatype Run = Run(lines: seq<Line>, failure: Option<Failure>)

  /** The options of one run, after the mode and the column list are parsed. `categories`
      is the rank model's category names, None when no rank model is given. */
  datatype Config = Config(
    comparison: Comparison,
    compVal: real,
    printFull: bool,
    columns: Option<seq<int>>,
    categories: Option<seq<string>>,
    head: int,
    conv: Conversions)

  /** The column list, when one is given: its comma-separated pieces, each read as an integer. */
  function ParseColumns(columnsStr: Option<string>, conv: Conversions): (r: Result<Option<seq<int>>, Failure>)
    ensures columnsStr.None? ==> r == Success(None)
    ensures columnsStr.Some? && r.Success? ==>
              var pieces := Split(columnsStr.value, ',');
              && r.value.Some? && |r.value.value| == |pieces|
              && forall j :: 0 <= j < |pieces| ==> conv.parseInt(pieces[j]) == Some(r.value.value[j])
    ensures columnsStr.Some? && r.Failure? ==>
              && r.error.NotAnInteger? && conv.parseInt(r.error.text).None?
              && r.error.text in Split(columnsStr.value, ',')
  {
    match columnsStr
    case None => Success(None)
    case Some(text) =>
      var columns :- ParseInts(Split(text, ','), conv.parseInt);
      Success(Some(columns))
  }

  /** The header printed before the first record: all header fields in full mode; the
      selected fields, "RankScore" and the categories in column mode; "RankScore" and the
      categories in score-only mode with a rank model; nothing otherwise. */
  function HeaderLines(cfg: Config, headerFields: seq<string>): (r: Result<seq<Line>, Failure>)
    ensures r.Success? ==> |r.value| <= 1 && forall j :: 0 <= j < |r.value| ==> r.value[j].Header?
    ensures cfg.printFull ==> r == Success([Header(headerFields)])
    ensures !cfg.printFull && cfg.columns.Some? ==>
              var cols := cfg.columns.value;
              && (r.Success? <==> forall j :: 0 <= j < |cols| ==> PyIndex(headerFields, cols[j]).Some?)
              && (r.Success? ==>
                    && |r.value| == 1
                    && var cells := r.value[0].cells;
                    && |cells| == |cols| + 1 + (if cfg.categories.Some? then |cfg.categories.value| else 0)
                    && (forall j :: 0 <= j < |cols| ==> PyIndex(headerFields, cols[j]) == Some(cells[j]))
                    && cells[|cols|] == "RankScore"
                    && (cfg.categories.Some? ==> cells[|cols| + 1..] == cfg.categories.value))
    ensures !cfg.printFull && cfg.columns.None? ==>
              r == Success(if cfg.categories.Some? then [Header(["RankScore"] + cfg.categories.value)] else [])
  {
    if cfg.printFull then Success([Header(headerFields)])
    else if cfg.columns.Some? then
      var selected :- Select(headerFields, cfg.columns.value);
      var cells := selected + ["RankScore"];
      Success([Header(if cfg.categories.Some? then cells + cfg.categories.value else cells)])
    else if cfg.categories.Some? then Success([Header(["RankScore"] + cfg.categories.value)])
    else Success([])
  }

  /** The rank score: the text between the first and the second colon of the first
      RankScore value, read as a float. */
  function RankScoreOf(r: Record, conv: Conversions): (score: Result<real, Failure>)
    ensures FirstInfo(r, "RankScore").Failure? ==> score == Failure(FirstInfo(r, "RankScore").error)
    ensures FirstInfo(r, "RankScore").Success? ==>
              var v := FirstInfo(r, "RankScore").value;
              score == Failure(NoScoreSeparator(v)) <==> ':' !in v
    ensures FirstInfo(r, "RankScore").Success? && ':' in FirstInfo(r, "RankScore").value ==>
              var piece := Split(FirstInfo(r, "RankScore").value, ':')[1];
              && (conv.parseFloat(piece).Some? ==> score == Success(conv.parseFloat(piece).value))
              && (conv.parseFloat(piece).None? ==> score == Failure(NotAFloat(piece)))
  {
    var text :- FirstInfo(r, "RankScore");
    var parts := Split(text, ':');
    if |parts| < 2 then Failure(NoScoreSeparator(text))
    else match conv.parseFloat(parts[1])
      case None => Failure(NotAFloat(parts[1]))
      case Some(x) => Success(x)
  }

  /** A RankScore value `prefix:text` with a colon-free prefix and text carries the score `text`. */
  lemma RankScoreOfEncoded(r: Record, conv: Conversions, prefix: string, text: string)
    requires "RankScore" in r.info && |r.info["RankScore"]| > 0
    requires r.info["RankScore"][0] == prefix + ":" + text
    requires ':' !in prefix && ':' !in text
    ensures RankScoreOf(r, conv) ==
              match conv.parseFloat(text)
              case Some(x) => Success(x)
              case None => Failure(NotAFloat(text))
  {
    SplitAfterHead(prefix, ':', text);
    SplitNoSeparator(text, ':');
  }

  /** A RankScore value `prefix:text:tail` with a colon-free prefix and text carries the
      score `text`, whatever the tail holds. */
  lemma RankScoreOfSegments(r: Record, conv: Conversions, prefix: string, text: string, tail: string)
    requires "RankScore" in r.info && |r.info["RankScore"]| > 0
    requires r.info["RankScore"][0] == prefix + ":" + text + ":" + tail
    requires ':' !in prefix && ':' !in text
    ensures RankScoreOf(r, conv) ==
              match conv.parseFloat(text)
              case Some(x) => Success(x)
              case None => Failure(NotAFloat(text))
  {
    var value := r.info["RankScore"][0];
    assert value == prefix + [':'] + (text + ":" + tail);
    SplitAfterHead(prefix, ':', text + ":" + tail);
    assert text + ":" + tail == text + [':'] + tail;
    SplitAfterHead(text, ':', tail);
  }

  /** The subscores: the pipe-separated pieces of the first RankResult value, each read as an integer. */
  function SubscoresOf(r: Record, conv: Conversions): (subscores: Result<seq<int>, Failure>)
    ensures FirstInfo(r, "RankResult").Failure? ==> subscores == Failure(FirstInfo(r, "RankResult").error)
    ensures FirstInfo(r, "RankResult").Success? &&
            (forall j :: 0 <= j < |Split(FirstInfo(r, "RankResult").value, '|')| ==>
                           conv.parseInt(Split(FirstInfo(r, "RankResult").value, '|')[j]).Some?) ==>
              subscores.Success?
    ensures subscores.Success? ==>
              var pieces := Split(FirstInfo(r, "RankResult").value, '|');
              |subscores.value| == |pieces|
              && forall j :: 0 <= j < |pieces| ==> conv.parseInt(pieces[j]) == Some(subscores.value[j])
    ensures FirstInfo(r, "RankResult").Success? && subscores.Failure? ==>
              && subscores.error.NotAnInteger? && conv.parseInt(subscores.error.text).None?
              && subscores.error.text in Split(FirstInfo(r, "RankResult").value, '|')
  {
    var text :- FirstInfo(r, "RankResult");
    ParseInts(Split(text, '|'), conv.parseInt)
  }

  /** The subscores are read only when a rank model is given. */
  function OptionalSubscores(cfg: Config, r: Record): (subscores: Result<Option<seq<int>>, Failure>)
    ensures cfg.categories.None? ==> subscores == Success(None)
    ensures cfg.categories.Some? ==>
              (subscores.Success? <==> SubscoresOf(r, cfg.conv).Success?)
              && (subscores.Success? ==> subscores.value == Some(SubscoresOf(r, cfg.conv).value))
  {
    if cfg.categories.None? then Success(None)
    else
      var s :- SubscoresOf(r, cfg.conv);
      Success(Some(s))
  }

  /** `print_helper`: the line printed for a matching record. In column mode the row is the
      selected fields, then the score, then the subscores. */
  function Render(cfg: Config, r: Record, score: real, subscores: Option<seq<int>>): (line: Result<Line, Failure>)
    ensures cfg.printFull ==> line == Success(FullRecord(r))
    ensures !cfg.printFull && cfg.columns.Some? ==>
              var cols := cfg.columns.value;
              var subs := if subscores.Some? then subscores.value else [];
              && (line.Success? <==> forall j :: 0 <= j < |cols| ==> PyIndex(r.fields, cols[j]).Some?)
              && (line.Success? ==>
                    && line.value.Row?
                    && var cells := line.value.cells;
                    && |cells| == |cols| + 1 + |subs|
                    && (forall j :: 0 <= j < |cols| ==> PyIndex(r.fields, cols[j]) == Some(cells[j]))
                    && cells[|cols|] == cfg.conv.showFloat(score)
                    && (forall j :: 0 <= j < |subs| ==> cells[|cols| + 1 + j] == IntToString(subs[j])))
    ensures !cfg.printFull && cfg.columns.None? ==>
              line == Success(if subscores.Some? then ScoreList(score, subscores.value) else BareScore(score))
  {
    if cfg.printFull then Success(FullRecord(r))
    else if cfg.columns.Some? then
      var selected :- Select(r.fields, cfg.columns.value);
      var cells := selected + [cfg.conv.showFloat(score)];
      var shown := if subscores.Some? then seq(|subscores.value|, j requires 0 <= j < |subscores.value| => IntToString(subscores.value[j])) else [];
      Success(Row(cells + shown))
    else if subscores.Some? then Success(ScoreList(score, subscores.value))
    else Success(BareScore(score))
  }

  /** One record's turn in the loop: the score and subscores are read first (and may fail
      whether or not the record matches); a matching record yields its line. */
  function Examine(cfg: Config, r: Record): (seen: Result<Option<Line>, Failure>)
    ensures RankScoreOf(r, cfg.conv).Failure? ==> seen == Failure(RankScoreOf(r, cfg.conv).error)
    ensures RankScoreOf(r, cfg.conv).Success? && OptionalSubscores(cfg, r).Failure? ==>
              seen == Failure(OptionalSubscores(cfg, r).error)
    ensures seen.Success? ==>
              (seen.value.Some? <==> Holds(cfg.comparison, RankScoreOf(r, cfg.conv).value, cfg.compVal))
    ensures seen.Success? && seen.value.Some? ==>
              Render(cfg, r, RankScoreOf(r, cfg.conv).value, OptionalSubscores(cfg, r).value)
                == Success(seen.value.value)
  {
    var score :- RankScoreOf(r, cfg.conv);
    var subscores :- OptionalSubscores(cfg, r);
    if Holds(cfg.comparison, score, cfg.compVal) then
      var line :- Render(cfg, r, score, subscores);
      Success(Some(line))
    else Success(None)
  }

  /** The lines a record's turn adds: its line if it matched, none otherwise. */
  function Emitted(seen: Option<Line>): (lines: seq<Line>)
    ensures |lines| <= 1
  {
    if seen.Some? then [seen.value] else []
  }

  /** The loop's state between two records: what has been printed, the `printed_entries`
      counter, the `is_first_line` flag, and whether the loop has ended (by the `break`
      or by an exception, which `failure` then holds). */
  datatype Progress = Progress(
    lines: seq<Line>,
    printed: nat,
    isFirstLine: bool,
    stopped: bool,
    failure: Option<Failure>)

  const Start := Progress([], 0, true, false, None)

  /** How a running loop's state changes once the header (or its failure) and the record's
      examination are known. */
  function Advance(cfg: Config, s: Progress, header: Result<seq<Line>, Failure>,
                   examined: Result<Option<Line>, Failure>): (next: Progress)
    ensures s.lines <= next.lines
  {
    match header
    case Failure(e) => s.(stopped := true, failure := Some(e))
    case Success(lines) =>
      match examined
      case Failure(e) => Progress(s.lines + lines, s.printed, false, true, Some(e))
      case Success(seen) =>
        var printed := s.printed + |Emitted(seen)|;
        Progress(s.lines + lines + Emitted(seen), printed, false, printed > cfg.head, None)
  }

  /** One record's turn in the loop, from the state before it. */
  function Step(cfg: Config, headerFields: seq<string>, s: Progress, r: Record): (next: Progress)
    ensures s.lines <= next.lines
  {
    if s.stopped then s
    else Advance(cfg, s, if s.isFirstLine then HeaderLines(cfg, headerFields) else Success([]), Examine(cfg, r))
  }

  /** The loop's state after the records `recs`. */
  function Scan(cfg: Config, headerFields: seq<string>, recs: seq<Record>): Progress
    decreases |recs|
  {
    if recs == [] then Start
    else Step(cfg, headerFields, Scan(cfg, headerFields, recs[..|recs| - 1]), recs[|recs| - 1])
  }

  /** The whole reporter: the mode assertion, the column list, then the loop. */
  function Report(recs: seq<Record>, headerFields: seq<string>, compVal: real, compType: Option<string>,
                  printFull: bool, categories: Option<seq<string>>, columnsStr: Option<string>,
                  head: int, conv: Conversions): (run: Run)
    ensures ParseComparison(compType).None? ==> run == Run([], Some(InvalidMode(compType)))
    ensures ParseComparison(compType).Some? && ParseColumns(columnsStr, conv).Failure? ==>
              run == Run([], Some(ParseColumns(columnsStr, conv).error))
  {
    match ParseComparison(compType)
    case None => Run([], Some(InvalidMode(compType)))
    case Some(comparison) =>
      match ParseColumns(columnsStr, conv)
      case Failure(e) => Run([], Some(e))
      case Success(columns) =>
        var s := Scan(Config(comparison, compVal, printFull, columns, categories, head, conv), headerFields, recs);
        Run(s.lines, s.failure)
  }

  lemma ScanExtend(cfg: Config, headerFields: seq<string>, recs: seq<Record>, i: nat)
    requires i < |recs|
    ensures Scan(cfg, headerFields, recs[..i + 1])
              == Step(cfg, headerFields, Scan(cfg, headerFields, recs[..i]), recs[i])
  {
    assert recs[..i + 1][..i] == recs[..i];
  }

  /** Once the loop has ended, later records change nothing. */
  lemma {:induction false} ScanStopped(cfg: Config, headerFields: seq<string>, recs: seq<Record>, k: nat)
    requires k <= |recs| && Scan(cfg, headerFields, recs[..k]).stopped
    ensures Scan(cfg, headerFields, recs) == Scan(cfg, headerFields, recs[..k])
    decreases |recs| - k
  {
    if k < |recs| {
      var longer := recs[..k + 1];
      assert longer[..k] == recs[..k];
      assert Scan(cfg, headerFields, longer) == Scan(cfg, headerFields, recs[..k]);
      ScanStopped(cfg, headerFields, recs, k + 1);
    } else {
      assert recs[..k] == recs;
    }
  }

  /** Printed lines are never taken back: the lines after some records start the lines
      after more of them. */
  lemma {:induction false} ScanOnlyAppends(cfg: Config, headerFields: seq<string>, recs: seq<Record>, k: nat)
    requires k <= |recs|
    ensures Scan(cfg, headerFields, recs[..k]).lines <= Scan(cfg, headerFields, recs).lines
    decreases |recs| - k
  {
    if k < |recs| {
      ScanExtend(cfg, headerFields, recs, k);
      ScanOnlyAppends(cfg, headerFields, recs, k + 1);
    } else {
      assert recs[..k] == recs;
    }
  }

  function Min(a: int, b: int): int
  {
    if a < b then a else b
  }

  function Max(a: int, b: int): int
  {
    if a < b then b else a
  }

  /** The scan's bookkeeping: a header line can only come first, every other line is a
      record's and is counted in `printed`, and the counter never passes `head + 1` (the
      loop tests the counter after printing, so one line more than `head` can appear). */
  predicate Tallied(cfg: Config, s: Progress)
  {
    && (s.isFirstLine ==> s.lines == [] && s.printed == 0)
    && (forall j :: 0 < j < |s.lines| ==> !s.lines[j].Header?)
    && |s.lines| == s.printed + (if |s.lines| > 0 && s.lines[0].Header? then 1 else 0)
    && s.printed <= Max(cfg.head, 0) + 1
    && (!s.stopped ==> s.printed <= Max(cfg.head, 0))
  }

  /** Every state the loop reaches, whatever the input, keeps the bookkeeping. */
  lemma {:induction false} ScanCounts(cfg: Config, headerFields: seq<string>, recs: seq<Record>)
    ensures Tallied(cfg, Scan(cfg, headerFields, recs))
    decreases |recs|
  {
    if recs != [] {
      var prefix, r := recs[..|recs| - 1], recs[|recs| - 1];
      ScanCounts(cfg, headerFields, prefix);
      var s := Scan(cfg, headerFields, prefix);
      if !s.stopped {
        var header := if s.isFirstLine then HeaderLines(cfg, headerFields) else Success([]);
        var examined := Examine(cfg, r);
        if examined.Success? && examined.value.Some? {
          ExaminedLineIsRecordLine(cfg, r);
        }
        AdvanceTallied(cfg, s, header, examined);
      }
    }
  }

  /** One unstopped turn of the loop keeps the bookkeeping, given that the header part is
      at most one header line and only on the first turn, and a record's line is no header. */
  lemma AdvanceTallied(cfg: Config, s: Progress, header: Result<seq<Line>, Failure>,
                       examined: Result<Option<Line>, Failure>)
    requires Tallied(cfg, s) && !s.stopped
    requires header.Success? ==>
               && |header.value| <= 1
               && (forall l | l in header.value :: l.Header?)
               && (!s.isFirstLine ==> header.value == [])
    requires examined.Success? && examined.value.Some? ==> !examined.value.value.Header?
    ensures Tallied(cfg, Advance(cfg, s, header, examined))
  {
    if header.Success? && |header.value| == 1 {
      assert header.value[0] in header.value;
    }
  }

  /** The line printed for a record is never a header line. */
  lemma ExaminedLineIsRecordLine(cfg: Config, r: Record)
    requires Examine(cfg, r).Success? && Examine(cfg, r).value.Some?
    ensures !Examine(cfg, r).value.value.Header?
  {
  }

  /** A record the loop gets through without an exception: its score can be read, its
      subscores too when a rank model is given, and its line can be built if it matches. */
  predicate Clean(cfg: Config, r: Record)
  {
    && RankScoreOf(r, cfg.conv).Success?
    && OptionalSubscores(cfg, r).Success?
    && (Holds(cfg.comparison, RankScoreOf(r, cfg.conv).value, cfg.compVal) ==>
          Render(cfg, r, RankScoreOf(r, cfg.conv).value, OptionalSubscores(cfg, r).value).Success?)
  }

  /** Whether a readable record's score stands in the chosen relation to the threshold. */
  predicate Matches(cfg: Config, r: Record)
    requires RankScoreOf(r, cfg.conv).Success?
  {
    Holds(cfg.comparison, RankScoreOf(r, cfg.conv).value, cfg.compVal)
  }

  /** The line `print_helper` prints for a matching record. */
  function Shown(cfg: Config, r: Record): Line
    requires Clean(cfg, r) && Matches(cfg, r)
  {
    Render(cfg, r, RankScoreOf(r, cfg.conv).value, OptionalSubscores(cfg, r).value).value
  }

  /** The lines of all matching records, in file order, with no count limit. */
  function Selected(cfg: Config, recs: seq<Record>): seq<Line>
    requires forall r | r in recs :: Clean(cfg, r)
    decreases |recs|
  {
    if recs == [] then []
    else
      var r := recs[|recs| - 1];
      assert r in recs && Clean(cfg, r);
      Selected(cfg, recs[..|recs| - 1]) + (if Matches(cfg, r) then [Shown(cfg, r)] else [])
  }

  /** The matching records themselves, in file order. */
  function MatchingRecords(cfg: Config, recs: seq<Record>): seq<Record>
    requires forall r | r in recs :: Clean(cfg, r)
    decreases |recs|
  {
    if recs == [] then []
    else
      var r := recs[|recs| - 1];
      assert r in recs && Clean(cfg, r);
      MatchingRecords(cfg, recs[..|recs| - 1]) + (if Matches(cfg, r) then [r] else [])
  }

  lemma ExamineClean(cfg: Config, r: Record)
    requires Clean(cfg, r)
    ensures Examine(cfg, r) == Success(if Matches(cfg, r) then Some(Shown(cfg, r)) else None)
  {
  }

  /** The reporter's central promise, for records that raise nothing and `head >= 0`: after
      the header it prints the first `head + 1` matching records in file order (all of them
      if there are fewer), and it has stopped exactly when more than `head` records match. */
  lemma {:induction false} ScanOfCleanRecords(cfg: Config, headerFields: seq<string>, recs: seq<Record>,
                                              header: seq<Line>)
    requires cfg.head >= 0 && recs != []
    requires HeaderLines(cfg, headerFields) == Success(header)
    requires forall r | r in recs :: Clean(cfg, r)
    ensures var selected := Selected(cfg, recs);
            var n := Min(|selected|, cfg.head + 1);
            Scan(cfg, headerFields, recs) == Progress(header + selected[..n], n, false, |selected| > cfg.head, None)
    decreases |recs|
  {
    var prefix, r := recs[..|recs| - 1], recs[|recs| - 1];
    assert r in recs;
    if prefix == [] {
      CleanFirst(cfg, headerFields, r, header);
      assert recs == [r];
    } else {
      assert forall x | x in prefix :: x in recs;
      ScanOfCleanRecords(cfg, headerFields, prefix, header);
      CleanStep(cfg, headerFields, Scan(cfg, headerFields, prefix), r, header, Selected(cfg, prefix));
    }
  }

  /** The first record of a clean scan: the base case of `ScanOfCleanRecords`. */
  lemma CleanFirst(cfg: Config, headerFields: seq<string>, r: Record, header: seq<Line>)
    requires cfg.head >= 0 && Clean(cfg, r)
    requires HeaderLines(cfg, headerFields) == Success(header)
    ensures var selected := Selected(cfg, [r]);
            var n := Min(|selected|, cfg.head + 1);
            Scan(cfg, headerFields, [r]) == Progress(header + selected[..n], n, false, |selected| > cfg.head, None)
  {
    SelectedOne(cfg, r);
    var shown := Emitted(Examine(cfg, r).value);
    FirstStep(cfg, headerFields, r, header, Examine(cfg, r).value);
    assert shown[..|shown|] == shown;
  }

  /** The first record's turn when neither the header nor the record raises. */
  lemma FirstStep(cfg: Config, headerFields: seq<string>, r: Record, header: seq<Line>, seen: Option<Line>)
    requires HeaderLines(cfg, headerFields) == Success(header)
    requires Examine(cfg, r) == Success(seen)
    ensures Scan(cfg, headerFields, [r])
              == Progress(header + Emitted(seen), |Emitted(seen)|, false, |Emitted(seen)| > cfg.head, None)
  {
    assert [r][..0] == [];
  }

  /** A single record that raises nothing contributes exactly the line its turn prints. */
  lemma SelectedOne(cfg: Config, r: Record)
    requires Clean(cfg, r)
    ensures Selected(cfg, [r]) == Emitted(Examine(cfg, r).value)
  {
    ExamineClean(cfg, r);
    assert [r][..0] == [];
  }

  /** One record of a clean scan past the first: the induction step of `ScanOfCleanRecords`. */
  lemma CleanStep(cfg: Config, headerFields: seq<string>, s: Progress, r: Record, header: seq<Line>,
                  before: seq<Line>)
    requires cfg.head >= 0 && Clean(cfg, r)
    requires var n := Min(|before|, cfg.head + 1);
             s == Progress(header + before[..n], n, false, |before| > cfg.head, None)
    ensures var selected := before + (if Matches(cfg, r) then [Shown(cfg, r)] else []);
            var n := Min(|selected|, cfg.head + 1);
            Step(cfg, headerFields, s, r) == Progress(header + selected[..n], n, false, |selected| > cfg.head, None)
  {
    ExamineClean(cfg, r);
    var selected := before + (if Matches(cfg, r) then [Shown(cfg, r)] else []);
    assert selected[..|before|] == before;
    if |before| > cfg.head {
      assert selected[..cfg.head + 1] == before[..cfg.head + 1];
    } else {
      assert before[..|before|] == before;
      assert selected[..|selected|] == selected;
    }
  }

  /** Once more than `head` records have matched, nothing after them is even read: a record
      that would raise, later in the file, does not. */
  lemma LaterRecordsIgnored(cfg: Config, headerFields: seq<string>, recs: seq<Record>, rest: seq<Record>,
                            header: seq<Line>)
    requires cfg.head >= 0 && recs != []
    requires HeaderLines(cfg, headerFields) == Success(header)
    requires forall r | r in recs :: Clean(cfg, r)
    requires |Selected(cfg, recs)| > cfg.head
    ensures Scan(cfg, headerFields, recs + rest) == Scan(cfg, headerFields, recs)
  {
    ScanOfCleanRecords(cfg, headerFields, recs, header);
    assert (recs + rest)[..|recs|] == recs;
    ScanStopped(cfg, headerFields, recs + rest, |recs|);
  }

  /** A record whose score cannot be read ends the run with that error once the scan reaches
      it, whether or not it would have matched; what was printed before it stays printed. A
      RankScore value without a colon is such a record. */
  lemma UnreadableScoreEndsRun(cfg: Config, headerFields: seq<string>, recs: seq<Record>, bad: Record,
                               rest: seq<Record>, header: seq<Line>)
    requires cfg.head >= 0
    requires HeaderLines(cfg, headerFields) == Success(header)
    requires forall r | r in recs :: Clean(cfg, r)
    requires |Selected(cfg, recs)| <= cfg.head
    requires RankScoreOf(bad, cfg.conv).Failure?
    ensures Scan(cfg, headerFields, recs + [bad] + rest)
              == Progress(header + Selected(cfg, recs), |Selected(cfg, recs)|, false, true,
                          Some(RankScoreOf(bad, cfg.conv).error))
    ensures FirstInfo(bad, "RankScore").Success? && ':' !in FirstInfo(bad, "RankScore").value ==>
              Scan(cfg, headerFields, recs + [bad] + rest).failure
                == Some(NoScoreSeparator(FirstInfo(bad, "RankScore").value))
  {
    var upTo := recs + [bad];
    assert upTo[..|recs|] == recs;
    if recs == [] {
      assert Scan(cfg, headerFields, recs) == Start;
    } else {
      ScanOfCleanRecords(cfg, headerFields, recs, header);
      var selected := Selected(cfg, recs);
      assert selected[..|selected|] == selected;
    }
    assert Scan(cfg, headerFields, upTo).stopped;
    assert (upTo + rest)[..|upTo|] == upTo;
    ScanStopped(cfg, headerFields, upTo + rest, |upTo|);
    assert recs + [bad] + rest == upTo + rest;
  }

  /** With a negative `head` the counter already exceeds it after the first record, so only
      the first record is ever looked at. */
  lemma NegativeHeadReadsOneRecord(cfg: Config, headerFields: seq<string>, recs: seq<Record>)
    requires cfg.head < 0 && recs != []
    ensures Scan(cfg, headerFields, recs) == Scan(cfg, headerFields, recs[..1])
    ensures |Scan(cfg, headerFields, recs).lines| <= 2
  {
    assert recs[..1][..0] == [];
    assert Scan(cfg, headerFields, recs[..1]).stopped;
    ScanStopped(cfg, headerFields, recs, 1);
  }

  /** In full mode the printed lines are the matching records themselves. */
  lemma {:induction false} SelectedInFullMode(cfg: Config, recs: seq<Record>)
    requires cfg.printFull
    requires forall r | r in recs :: Clean(cfg, r)
    ensures var matching := MatchingRecords(cfg, recs);
            |Selected(cfg, recs)| == |matching|
            && forall j :: 0 <= j < |matching| ==> Selected(cfg, recs)[j] == FullRecord(matching[j])
    decreases |recs|
  {
    if recs != [] {
      var prefix := recs[..|recs| - 1];
      assert forall x | x in prefix :: x in recs;
      SelectedInFullMode(cfg, prefix);
    }
  }

  /** The reporter end to end, for a valid mode and column list, records that raise
      nothing and `head >= 0`: the header, then the first `head + 1` matching records. */
  lemma ReportOfCleanRecords(recs: seq<Record>, headerFields: seq<string>, compVal: real, compType: Option<string>,
                             printFull: bool, categories: Option<seq<string>>, columnsStr: Option<string>,
                             head: int, conv: Conversions, comparison: Comparison, columns: Option<seq<int>>,
                             header: seq<Line>)
    requires ParseComparison(compType) == Some(comparison)
    requires ParseColumns(columnsStr, conv) == Success(columns)
    requires head >= 0 && recs != []
    requires var cfg := Config(comparison, compVal, printFull, columns, categories, head, conv);
             && HeaderLines(cfg, headerFields) == Success(header)
             && forall r | r in recs :: Clean(cfg, r)
    ensures var cfg := Config(comparison, compVal, printFull, columns, categories, head, conv);
            var selected := Selected(cfg, recs);
            Report(recs, headerFields, compVal, compType, printFull, categories, columnsStr, head, conv)
              == Run(header + selected[..Min(|selected|, head + 1)], None)
  {
    var cfg := Config(comparison, compVal, printFull, columns, categories, head, conv);
    ScanOfCleanRecords(cfg, headerFields, recs, header);
    assert Report(recs, headerFields, compVal, compType, printFull, categories, columnsStr, head, conv)
             == Run(Scan(cfg, headerFields, recs).lines, Scan(cfg, headerFields, recs).failure);
  }

  /** One pass of `print_rankscore`'s loop body over `record`: the header on the first
      record, then the score, the comparison, the printing and the counter. */
  method VisitRecord(cfg: Config, headerFields: seq<string>, state: Progress, record: Record)
    returns (next: Progress)
    requires !state.stopped && state.failure.None?
    ensures next == Step(cfg, headerFields, state, record)
  {
    var lines, printedEntries := state.lines, state.printed;
    var header: Result<seq<Line>, Failure> := Success([]);
    if state.isFirstLine {
      header := HeaderLines(cfg, headerFields);
      if header.Failure? {
        return state.(stopped := true, failure := Some(header.error));
      }
      lines := lines + header.value;
    }
    var examined := Examine(cfg, record);
    if examined.Failure? {
      return Progress(lines, printedEntries, false, true, Some(examined.error));
    }
    if examined.value.Some? {
      lines := lines + [examined.value.value];
      printedEntries := printedEntries + 1;
    }
    return Progress(lines, printedEntries, false, printedEntries > cfg.head, None);
  }

  /** The `for record in fh` loop of `print_rankscore`. */
  method ScanRecords(cfg: Config, headerFields: seq<string>, recs: seq<Record>) returns (state: Progress)
    ensures state == Scan(cfg, headerFields, recs)
  {
    state := Start;
    var i := 0;
    while i < |recs|
      invariant 0 <= i <= |recs|
      invariant state == Scan(cfg, headerFields, recs[..i])
      invariant !state.stopped && state.failure.None?
    {
      ScanExtend(cfg, headerFields, recs, i);
      state := VisitRecord(cfg, headerFields, state, recs[i]);
      if state.stopped {
        ScanStopped(cfg, headerFields, recs, i + 1);
        return;
      }
      i := i + 1;
    }
    assert recs[..i] == recs;
  }

  /** `print_rankscore`: the mode assertion, the column list, then the loop. */
  method PrintRankscore(recs: seq<Record>, headerFields: seq<string>, compVal: real, compType: Option<string>,
                        printFull: bool, categories: Option<seq<string>>, columnsStr: Option<string>,
                        head: int, conv: Conversions) returns (run: Run)
    ensures run == Report(recs, headerFields, compVal, compType, printFull, categories, columnsStr, head, conv)
  {
    var comparison := ParseComparison(compType);
    if comparison.None? {
      return Run([], Some(InvalidMode(compType)));
    }
    var columns := ParseColumns(columnsStr, conv);
    if columns.Failure? {
      return Run([], Some(columns.error));
    }
    var cfg := Config(comparison.value, compVal, printFull, columns.value, categories, head, conv);
    var state := ScanRecords(cfg, headerFields, recs);
    return Run(state.lines, state.failure);
  }
}
