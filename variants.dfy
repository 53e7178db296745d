/** What the utilities see of a variant file: records as handed out by the variant-file
    reader, the errors that end a run, and the lookups all three pipelines share. */
module Variants {
  import opened Wrappers
  import opened Strings

  /** One record of a variant file. `fields` is the record's text line, trailing
      whitespace stripped, split on tabs; `info` maps an INFO key to its raw values. */
  datatype Record = Record(
    chrom: string,
    pos: nat,
    alts: seq<string>,
    fields: seq<string>,
    info: map<string, seq<string>>)

  /** The uncaught Python exceptions a run can end with. */
  datatype Failure =
    | InvalidMode(mode: Option<string>)   // the mode assertion fails (AssertionError)
    | NotAnInteger(text: string)          // `int(text)` raises ValueError
    | NotAFloat(text: string)             // `float(text)` raises ValueError
    | MissingInfo(key: string)            // `info.get(key)` is None, indexing it raises TypeError
    | EmptyInfo(key: string)              // the value tuple is empty, `[0]` raises IndexError
    | NoScoreSeparator(value: string)     // `value.split(":")[1]` raises IndexError
    | ColumnOutOfRange(index: int)        // a column index outside the field list (IndexError)

  /** Text-to-number conversions and float formatting, which belong to the Python runtime:
      `float(s)`, `int(s)` (None where Python raises ValueError) and `str(x)` for a float. */
  datatype Conversions = Conversions(
    parseFloat: string -> Option<real>,
    parseInt: string -> Option<int>,
    showFloat: real -> string)

  /** The first raw value of an INFO key. */
  function FirstInfo(r: Record, key: string): (v: Result<string, Failure>)
    ensures v.Success? <==> key in r.info && |r.info[key]| > 0
    ensures v.Success? ==> v.value == r.info[key][0]
    ensures key !in r.info ==> v == Failure(MissingInfo(key))
    ensures key in r.info && r.info[key] == [] ==> v == Failure(EmptyInfo(key))
  {
    if key !in r.info then Failure(MissingInfo(key))
    else if |r.info[key]| == 0 then Failure(EmptyInfo(key))
    else Success(r.info[key][0])
  }

  /** Python's `xs[i]`: a negative index counts from the end; out of range gives None. */
  function PyIndex<T>(xs: seq<T>, i: int): (r: Option<T>)
    ensures r.Some? <==> -|xs| <= i < |xs|
    ensures 0 <= i < |xs| ==> r == Some(xs[i])
    ensures -|xs| <= i < 0 ==> r == Some(xs[|xs| + i])
  {
    if 0 <= i < |xs| then Some(xs[i])
    else if -|xs| <= i < 0 then Some(xs[|xs| + i])
    else None
  }

  /** `[xs[i] for i in columns]`: fails on the first index outside `xs`. */
  function Select<T>(xs: seq<T>, columns: seq<int>): (r: Result<seq<T>, Failure>)
    ensures r.Success? <==> forall j :: 0 <= j < |columns| ==> PyIndex(xs, columns[j]).Some?
    ensures r.Success? ==> |r.value| == |columns|
    ensures r.Success? ==> forall j :: 0 <= j < |columns| ==> PyIndex(xs, columns[j]) == Some(r.value[j])
    ensures r.Failure? ==> r.error.ColumnOutOfRange? && r.error.index in columns
                             && PyIndex(xs, r.error.index).None?
  {
    if columns == [] then Success([])
    else match PyIndex(xs, columns[0])
      case None => Failure(ColumnOutOfRange(columns[0]))
      case Some(x) =>
        var rest :- Select(xs, columns[1..]);
        Success([x] + rest)
  }

  /** `[int(t) for t in texts]`: fails on the first text that is not an integer. */
  function ParseInts(texts: seq<string>, parseInt: string -> Option<int>): (r: Result<seq<int>, Failure>)
    ensures r.Success? <==> forall j :: 0 <= j < |texts| ==> parseInt(texts[j]).Some?
    ensures r.Success? ==> |r.value| == |texts|
    ensures r.Success? ==> forall j :: 0 <= j < |texts| ==> parseInt(texts[j]) == Some(r.value[j])
    ensures r.Failure? ==> r.error.NotAnInteger? && r.error.text in texts
                             && parseInt(r.error.text).None?
  {
    if texts == [] then Success([])
    else match parseInt(texts[0])
      case None => Failure(NotAnInteger(texts[0]))
      case Some(n) =>
        var rest :- ParseInts(texts[1..], parseInt);
        Success([n] + rest)
  }

  /** The identity of a variant across files: chromosome, position and the alternate alleles
      joined by slashes, separated by colons. */
  function Key(r: Record): (key: string)
    ensures |key| > |r.chrom| && key[..|r.chrom| + 1] == r.chrom + ":"
  {
    r.chrom + ":" + NatToString(r.pos) + ":" + Join(r.alts, '/')
  }

  /** A record whose parts cannot run into each other inside its key. */
  predicate WellFormedAlleles(r: Record)
  {
    && ':' !in r.chrom
    && forall i :: 0 <= i < |r.alts| ==> r.alts[i] != [] && ':' !in r.alts[i] && '/' !in r.alts[i]
  }

  lemma {:induction false} JoinAvoids(xs: seq<string>, sep: char, c: char)
    requires c != sep
    requires forall i :: 0 <= i < |xs| ==> c !in xs[i]
    ensures c !in Join(xs, sep)
    decreases |xs|
  {
    if |xs| > 1 {
      JoinAvoids(xs[1..], sep, c);
    }
  }

  lemma {:induction false} JoinNonEmpty(xs: seq<string>, sep: char)
    requires |xs| > 0 && xs[0] != []
    ensures Join(xs, sep) != []
  {
  }

  /** The key splits back into chromosome, position text and joined alleles. */
  lemma KeyParts(r: Record)
    requires WellFormedAlleles(r)
    ensures Split(Key(r), ':') == [r.chrom, NatToString(r.pos), Join(r.alts, '/')]
  {
    var parts := [r.chrom, NatToString(r.pos), Join(r.alts, '/')];
    JoinAvoids(r.alts, '/', ':');
    assert ':' !in NatToString(r.pos) by {
      var p := NatToString(r.pos);
      forall i | 0 <= i < |p| ensures p[i] != ':' { assert IsDigit(p[i]); }
    }
    assert Join(parts, ':') == Key(r) by {
      assert Join(parts[2..], ':') == parts[2];
      assert Join(parts[1..], ':') == parts[1] + [':'] + parts[2];
    }
    SplitJoin(parts, ':');
  }

  /** Two well-formed records have the same key exactly when they agree on chromosome,
      position and alternate alleles. */
  lemma KeyIdentifiesVariant(a: Record, b: Record)
    requires WellFormedAlleles(a) && WellFormedAlleles(b)
    ensures Key(a) == Key(b) <==> (a.chrom == b.chrom && a.pos == b.pos && a.alts == b.alts)
  {
    if Key(a) == Key(b) {
      KeyParts(a);
      KeyParts(b);
      NatToStringInjective(a.pos, b.pos);
      var ja, jb := Join(a.alts, '/'), Join(b.alts, '/');
      assert ja == jb;
      if a.alts == [] || b.alts == [] {
        if a.alts != [] { JoinNonEmpty(a.alts, '/'); }
        if b.alts != [] { JoinNonEmpty(b.alts, '/'); }
      } else {
        SplitJoin(a.alts, '/');
        SplitJoin(b.alts, '/');
      }
    }
  }
}
