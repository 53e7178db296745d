/** `filter_info`: print the records whose first value of one INFO field stands in a
    chosen relation to a threshold, or, in debug mode, report how many records lack it. */
module InfoFilter {
  import opened Wrappers
  import opened Variants

  /** The five accepted values of the `type` argument. */
  datatype Mode = Equal | Greater | Less | GreaterOrEqual | LessOrEqual

  function ModeName(m: Mode): string
  {
    match m
    case Equal => "equal"
    case Greater => "greater"
    case Less => "less"
    case GreaterOrEqual => "greaterorequal"
    case LessOrEqual => "lessorequal"
  }

  /** The opening assertion: the mode name must be one of the five. */
  function ParseMode(name: string): (m: Option<Mode>)
    ensures m.Some? ==> ModeName(m.value) == name
    ensures m.None? <==> forall k: Mode :: ModeName(k) != name
  {
    if name == "equal" then Some(Equal)
    else if name == "greater" then Some(Greater)
    else if name == "less" then Some(Less)
    else if name == "greaterorequal" then Some(GreaterOrEqual)
    else if name == "lessorequal" then Some(LessOrEqual)
    else None
  }

  /** What the function prints: the first record's raw INFO value (debug mode), a record
      (otherwise), and the closing count of records without the field (debug mode). */
  datatype Line = RawValue(value: Option<seq<string>>) | RecordLine(rec: Record) | MissingCount(count: nat)

  datatype Run = Run(lines: seq<Line>, failure: Option<Failure>)

  /** The arguments after validation; the preparser and `float` are parameters. */
  datatype Config = Config(field: string, compVal: string, mode: Mode, preparse: string -> string,
                           parseFloat: string -> Option<real>, debug: bool)

  /** The values of an INFO field, None when the record lacks it. */
  function Lookup(r: Record, field: string): Option<seq<string>>
  {
    if field in r.info then Some(r.info[field]) else None
  }

  /** The relation a preparsed value must stand in to the threshold for its record to be
      printed: text equality for `equal`; `>=` and `<=` between the two numbers for
      `greater` and `less`; nothing for the two or-equal modes, which have no branch. */
  predicate Satisfies(cfg: Config, value: string)
  {
    match cfg.mode
    case Equal => value == cfg.compVal
    case Greater =>
      && cfg.parseFloat(value).Some? && cfg.parseFloat(cfg.compVal).Some?
      && cfg.parseFloat(value).value >= cfg.parseFloat(cfg.compVal).value
    case Less =>
      && cfg.parseFloat(value).Some? && cfg.parseFloat(cfg.compVal).Some?
      && cfg.parseFloat(value).value <= cfg.parseFloat(cfg.compVal).value
    case _ => false
  }

  /** The comparison as the code runs it: a value that is not a number is skipped silently,
      and the threshold is converted only after the value has been, so a threshold that is
      not a number raises only when a numeric value reaches it. */
  function Decide(cfg: Config, value: string): (keep: Result<bool, Failure>)
    ensures keep.Failure? <==>
              && (cfg.mode == Greater || cfg.mode == Less)
              && cfg.parseFloat(value).Some? && cfg.parseFloat(cfg.compVal).None?
    ensures keep.Failure? ==> keep.error == NotAFloat(cfg.compVal)
    ensures keep == Success(true) <==> Satisfies(cfg, value)
  {
    match cfg.mode
    case Equal => Success(value == cfg.compVal)
    case Greater | Less =>
      (match cfg.parseFloat(value)
       case None => Success(false)
       case Some(x) =>
         match cfg.parseFloat(cfg.compVal)
         case None => Failure(NotAFloat(cfg.compVal))
         case Some(threshold) => Success(if cfg.mode == Greater then x >= threshold else x <= threshold))
    case GreaterOrEqual | LessOrEqual => Success(false)
  }

  /** What the loop body decides about one record. */
  datatype Verdict = Missing | Keep | Skip

  /** A record whose field is absent is counted; one whose value list is empty raises
      (`info_val[0]`); otherwise its first value, preparsed, is compared. */
  function Judge(cfg: Config, r: Record): (v: Result<Verdict, Failure>)
    ensures v == Success(Missing) <==> cfg.field !in r.info
    ensures v.Failure? <==>
              && cfg.field in r.info
              && (|r.info[cfg.field]| == 0 || Decide(cfg, cfg.preparse(r.info[cfg.field][0])).Failure?)
    ensures cfg.field in r.info && r.info[cfg.field] == [] ==> v == Failure(EmptyInfo(cfg.field))
  {
    match Lookup(r, cfg.field)
    case None => Success(Missing)
    case Some(values) =>
      if values == [] then Failure(EmptyInfo(cfg.field))
      else
        var keep :- Decide(cfg, cfg.preparse(values[0]));
        Success(if keep then Keep else Skip)
  }

  /** Whether a record's field is present and its first value, preparsed, satisfies the
      relation: the records the function prints outside debug mode. */
  predicate Passes(cfg: Config, r: Record)
  {
    cfg.field in r.info && |r.info[cfg.field]| > 0 && Satisfies(cfg, cfg.preparse(r.info[cfg.field][0]))
  }

  /** The loop's variables: what was printed, `nbr_missing`, `first_record`, and the
      exception that ended the loop, if one did. */
  datatype Progress = Progress(lines: seq<Line>, missing: nat, firstRecord: bool, failure: Option<Failure>)

  const Start := Progress([], 0, true, None)

  /** One record's turn: in debug mode the first record's raw value is printed before
      anything else can happen to it. */
  function Step(cfg: Config, s: Progress, r: Record): (next: Progress)
    ensures s.lines <= next.lines
  {
    if s.failure.Some? then s
    else
      var lines := s.lines + if cfg.debug && s.firstRecord then [RawValue(Lookup(r, cfg.field))] else [];
      match Judge(cfg, r)
      case Failure(e) => Progress(lines, s.missing, s.firstRecord, Some(e))
      case Success(Missing) => Progress(lines, s.missing + 1, false, None)
      case Success(Keep) => Progress(lines + if cfg.debug then [] else [RecordLine(r)], s.missing, false, None)
      case Success(Skip) => Progress(lines, s.missing, false, None)
  }

  /** The loop's state after the records `recs`. */
  function Scan(cfg: Config, recs: seq<Record>): Progress
    decreases |recs|
  {
    if recs == [] then Start
    else Step(cfg, Scan(cfg, recs[..|recs| - 1]), recs[|recs| - 1])
  }

  /** The whole function: the mode assertion, the loop, then the count in debug mode. */
  function Report(recs: seq<Record>, field: string, compVal: string, modeName: string,
                  preparse: string -> string, parseFloat: string -> Option<real>, debug: bool): (run: Run)
    ensures ParseMode(modeName).None? ==> run == Run([], Some(InvalidMode(Some(modeName))))
    ensures debug && run.failure.None? ==> |run.lines| > 0 && run.lines[|run.lines| - 1].MissingCount?
  {
    match ParseMode(modeName)
    case None => Run([], Some(InvalidMode(Some(modeName))))
    case Some(mode) =>
      var s := Scan(Config(field, compVal, mode, preparse, parseFloat, debug), recs);
      Run(s.lines + if debug && s.failure.None? then [MissingCount(s.missing)] else [], s.failure)
  }

  lemma ScanExtend(cfg: Config, recs: seq<Record>, i: nat)
    requires i < |recs|
    ensures Scan(cfg, recs[..i + 1]) == Step(cfg, Scan(cfg, recs[..i]), recs[i])
  {
    assert recs[..i + 1][..i] == recs[..i];
  }

  /** An exception ends the loop: the records after it change nothing. */
  lemma {:induction false} ScanFailed(cfg: Config, recs: seq<Record>, k: nat)
    requires k <= |recs| && Scan(cfg, recs[..k]).failure.Some?
    ensures Scan(cfg, recs) == Scan(cfg, recs[..k])
    decreases |recs| - k
  {
    if k < |recs| {
      var longer := recs[..k + 1];
      assert longer[..k] == recs[..k];
      assert Scan(cfg, longer) == Scan(cfg, recs[..k]);
      ScanFailed(cfg, recs, k + 1);
    } else {
      assert recs[..k] == recs;
    }
  }

  /** Printed lines are never taken back: the lines after some records start the lines
      after more of them. */
  lemma {:induction false} ScanOnlyAppends(cfg: Config, recs: seq<Record>, k: nat)
    requires k <= |recs|
    ensures Scan(cfg, recs[..k]).lines <= Scan(cfg, recs).lines
    decreases |recs| - k
  {
    if k < |recs| {
      ScanExtend(cfg, recs, k);
      ScanOnlyAppends(cfg, recs, k + 1);
    } else {
      assert recs[..k] == recs;
    }
  }

  /** How many of the records lack the field. */
  function CountMissing(field: string, recs: seq<Record>): nat
    decreases |recs|
  {
    if recs == [] then 0
    else CountMissing(field, recs[..|recs| - 1]) + if field !in recs[|recs| - 1].info then 1 else 0
  }

  /** The records that pass the filter, in file order. */
  function Kept(cfg: Config, recs: seq<Record>): seq<Record>
    decreases |recs|
  {
    if recs == [] then []
    else Kept(cfg, recs[..|recs| - 1]) + if Passes(cfg, recs[|recs| - 1]) then [recs[|recs| - 1]] else []
  }

  /** Each record printed as a line. */
  function AsLines(recs: seq<Record>): (lines: seq<Line>)
    ensures |lines| == |recs| && forall j :: 0 <= j < |recs| ==> lines[j] == RecordLine(recs[j])
  {
    if recs == [] then [] else [RecordLine(recs[0])] + AsLines(recs[1..])
  }

  lemma {:induction false} AsLinesAppend(a: seq<Record>, b: seq<Record>)
    ensures AsLines(a + b) == AsLines(a) + AsLines(b)
    decreases |a|
  {
    if a != [] {
      assert (a + b)[1..] == a[1..] + b;
      AsLinesAppend(a[1..], b);
    }
  }

  /** A judged record's verdict in terms of the declarative filter. */
  lemma JudgePasses(cfg: Config, r: Record)
    requires Judge(cfg, r).Success?
    ensures Judge(cfg, r).value == Keep <==> Passes(cfg, r)
  {
  }

  /** Whatever the input, `nbr_missing` counts exactly the records read so far that lack
      the field, as long as no exception has been raised. */
  lemma {:induction false} ScanCountsMissing(cfg: Config, recs: seq<Record>)
    requires Scan(cfg, recs).failure.None?
    ensures Scan(cfg, recs).missing == CountMissing(cfg.field, recs)
    decreases |recs|
  {
    if recs != [] {
      ScanCountsMissing(cfg, recs[..|recs| - 1]);
    }
  }

  /** Outside debug mode, when no exception is raised, the printed lines are exactly the
      records that pass the filter, in file order. */
  lemma {:induction false} ScanPrintsKept(cfg: Config, recs: seq<Record>)
    requires !cfg.debug && Scan(cfg, recs).failure.None?
    ensures Scan(cfg, recs).lines == AsLines(Kept(cfg, recs))
    decreases |recs|
  {
    if recs != [] {
      var prefix, r := recs[..|recs| - 1], recs[|recs| - 1];
      ScanPrintsKept(cfg, prefix);
      JudgePasses(cfg, r);
      AsLinesAppend(Kept(cfg, prefix), if Passes(cfg, r) then [r] else []);
    }
  }

  /** In debug mode no record is printed: whatever happens, the only line of the loop is
      the first record's raw value. */
  lemma {:induction false} DebugPrintsOnlyFirstValue(cfg: Config, recs: seq<Record>)
    requires cfg.debug
    ensures Scan(cfg, recs).lines == if recs == [] then [] else [RawValue(Lookup(recs[0], cfg.field))]
    ensures recs != [] && Scan(cfg, recs).failure.None? ==> !Scan(cfg, recs).firstRecord
    decreases |recs|
  {
    if recs != [] {
      var prefix := recs[..|recs| - 1];
      DebugPrintsOnlyFirstValue(cfg, prefix);
      if prefix != [] {
        assert prefix[0] == recs[0];
      }
    }
  }

  /** The two or-equal modes are accepted by the assertion but print no record. */
  lemma {:induction false} OrEqualModesPrintNoRecord(cfg: Config, recs: seq<Record>)
    requires cfg.mode == GreaterOrEqual || cfg.mode == LessOrEqual
    ensures forall l | l in Scan(cfg, recs).lines :: !l.RecordLine?
    ensures Scan(cfg, recs).failure.None? || Scan(cfg, recs).failure == Some(EmptyInfo(cfg.field))
    decreases |recs|
  {
    if recs != [] {
      OrEqualModesPrintNoRecord(cfg, recs[..|recs| - 1]);
    }
  }

  /** The only exceptions of the loop: an empty value list, or a threshold that is not a
      number in a numeric mode. */
  lemma {:induction false} ScanFailures(cfg: Config, recs: seq<Record>)
    ensures var f := Scan(cfg, recs).failure;
            || f.None?
            || f == Some(EmptyInfo(cfg.field))
            || (&& f == Some(NotAFloat(cfg.compVal))
                && (cfg.mode == Greater || cfg.mode == Less)
                && cfg.parseFloat(cfg.compVal).None?)
    decreases |recs|
  {
    if recs != [] {
      ScanFailures(cfg, recs[..|recs| - 1]);
    }
  }

  /** A record whose field holds no value ends the run with `EmptyInfo` when the loop
      reaches it; what was printed before stays printed. */
  lemma EmptyValueEndsRun(cfg: Config, recs: seq<Record>, bad: Record, rest: seq<Record>)
    requires Scan(cfg, recs).failure.None?
    requires cfg.field in bad.info && bad.info[cfg.field] == []
    ensures Scan(cfg, recs + [bad] + rest).failure == Some(EmptyInfo(cfg.field))
    ensures Scan(cfg, recs + [bad] + rest).lines
              == Scan(cfg, recs).lines + if cfg.debug && recs == [] then [RawValue(Some([]))] else []
  {
    var upTo := recs + [bad];
    assert upTo[..|recs|] == recs;
    if recs != [] && cfg.debug {
      DebugPrintsOnlyFirstValue(cfg, recs);
    }
    assert (upTo + rest)[..|upTo|] == upTo;
    ScanFailed(cfg, upTo + rest, |upTo|);
    assert recs + [bad] + rest == upTo + rest;
  }

  /** The function end to end outside debug mode when nothing raises: the passing records. */
  lemma ReportPrintsKept(recs: seq<Record>, field: string, compVal: string, modeName: string,
                         preparse: string -> string, parseFloat: string -> Option<real>, mode: Mode)
    requires ParseMode(modeName) == Some(mode)
    requires Scan(Config(field, compVal, mode, preparse, parseFloat, false), recs).failure.None?
    ensures Report(recs, field, compVal, modeName, preparse, parseFloat, false)
              == Run(AsLines(Kept(Config(field, compVal, mode, preparse, parseFloat, false), recs)), None)
  {
    ScanPrintsKept(Config(field, compVal, mode, preparse, parseFloat, false), recs);
  }

  /** The function end to end in debug mode when nothing raises: the first record's raw
      value, then the number of records without the field. */
  lemma ReportInDebugMode(recs: seq<Record>, field: string, compVal: string, modeName: string,
                          preparse: string -> string, parseFloat: string -> Option<real>, mode: Mode)
    requires ParseMode(modeName) == Some(mode)
    requires Scan(Config(field, compVal, mode, preparse, parseFloat, true), recs).failure.None?
    ensures Report(recs, field, compVal, modeName, preparse, parseFloat, true)
              == Run((if recs == [] then [] else [RawValue(Lookup(recs[0], field))])
                       + [MissingCount(CountMissing(field, recs))], None)
  {
    var cfg := Config(field, compVal, mode, preparse, parseFloat, true);
    DebugPrintsOnlyFirstValue(cfg, recs);
    ScanCountsMissing(cfg, recs);
  }

  /** One pass of the loop body. */
  method VisitRecord(cfg: Config, state: Progress, record: Record) returns (next: Progress)
    requires state.failure.None?
    ensures next == Step(cfg, state, record)
  {
    var lines, nbrMissing := state.lines, state.missing;
    if cfg.debug && state.firstRecord {
      lines := lines + [RawValue(Lookup(record, cfg.field))];
    }
    var verdict := Judge(cfg, record);
    if verdict.Failure? {
      return Progress(lines, nbrMissing, state.firstRecord, Some(verdict.error));
    }
    match verdict.value {
      case Missing =>
        nbrMissing := nbrMissing + 1;
      case Keep =>
        if !cfg.debug {
          lines := lines + [RecordLine(record)];
        }
      case Skip =>
    }
    return Progress(lines, nbrMissing, false, None);
  }

  /** `filter_info`, as the loop it is. */
  method FilterInfo(recs: seq<Record>, field: string, compVal: string, modeName: string,
                    preparse: string -> string, parseFloat: string -> Option<real>, debug: bool)
    returns (run: Run)
    ensures run == Report(recs, field, compVal, modeName, preparse, parseFloat, debug)
  {
    var mode := ParseMode(modeName);
    if mode.None? {
      return Run([], Some(InvalidMode(Some(modeName))));
    }
    var cfg := Config(field, compVal, mode.value, preparse, parseFloat, debug);
    var state := Start;
    var i := 0;
    while i < |recs|
      invariant 0 <= i <= |recs|
      invariant state == Scan(cfg, recs[..i])
      invariant state.failure.None?
    {
      ScanExtend(cfg, recs, i);
      state := VisitRecord(cfg, state, recs[i]);
      if state.failure.Some? {
        ScanFailed(cfg, recs, i + 1);
        return Run(state.lines, state.failure);
      }
      i := i + 1;
    }
    assert recs[..i] == recs;
    var lines := state.lines;
    if debug {
      lines := lines + [MissingCount(state.missing)];
    }
    return Run(lines, None);
  }
}
