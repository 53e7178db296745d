/** `make_recs_dict` and `snv_diff`: index two files' records by variant key and report
    the variants found in only one of them. */
module SnvDiff {
  import opened Variants

  /** The dictionary `make_recs_dict` builds from the records read so far: each record is
      stored under its key, over whatever an earlier record left there. */
  function RecsDict(recs: seq<Record>): (dict: map<string, Record>)
    ensures recs != [] ==> Key(recs[|recs| - 1]) in dict && dict[Key(recs[|recs| - 1])] == recs[|recs| - 1]
    decreases |recs|
  {
    if recs == [] then map[]
    else RecsDict(recs[..|recs| - 1])[Key(recs[|recs| - 1]) := recs[|recs| - 1]]
  }

  /** The keys of the records. */
  function KeysOf(recs: seq<Record>): (keys: set<string>)
    ensures forall i | 0 <= i < |recs| :: Key(recs[i]) in keys
  {
    set r | r in recs :: Key(r)
  }

  /** No record after position `i` has the key of the record at `i`. */
  predicate LastWithKey(recs: seq<Record>, i: int)
    requires 0 <= i < |recs|
  {
    forall j | i < j < |recs| :: Key(recs[j]) != Key(recs[i])
  }

  /** The dictionary holds exactly the records' keys, each mapped to a record with that key. */
  lemma RecsDictKeys(recs: seq<Record>)
    ensures RecsDict(recs).Keys == KeysOf(recs)
    ensures forall k | k in RecsDict(recs) :: RecsDict(recs)[k] in recs && Key(RecsDict(recs)[k]) == k
  {
    RecsDictKeySet(recs);
    RecsDictValues(recs);
  }

  lemma {:induction false} RecsDictKeySet(recs: seq<Record>)
    ensures RecsDict(recs).Keys == KeysOf(recs)
    decreases |recs|
  {
    if recs != [] {
      var prefix, r := recs[..|recs| - 1], recs[|recs| - 1];
      RecsDictKeySet(prefix);
      KeysOfSnoc(prefix, r);
      assert recs == prefix + [r];
      assert RecsDict(recs) == RecsDict(prefix)[Key(r) := r];
      assert RecsDict(recs).Keys == RecsDict(prefix).Keys + {Key(r)};
    }
  }

  lemma {:induction false} RecsDictValues(recs: seq<Record>)
    ensures forall k | k in RecsDict(recs) :: RecsDict(recs)[k] in recs && Key(RecsDict(recs)[k]) == k
    decreases |recs|
  {
    if recs != [] {
      var prefix, r := recs[..|recs| - 1], recs[|recs| - 1];
      RecsDictValues(prefix);
      assert recs == prefix + [r];
      var before := RecsDict(prefix);
      forall k | k in before
        ensures before[k] in recs
      {
        assert before[k] in prefix;
      }
    }
  }

  lemma KeysOfSnoc(recs: seq<Record>, r: Record)
    ensures KeysOf(recs + [r]) == KeysOf(recs) + {Key(r)}
  {
    assert forall x | x in recs + [r] :: x in recs || x == r;
  }

  /** A record that no later record shares a key with is the one kept: the last one wins. */
  lemma {:induction false} RecsDictLastWins(recs: seq<Record>)
    ensures forall i | 0 <= i < |recs| && LastWithKey(recs, i) ::
              Key(recs[i]) in RecsDict(recs) && RecsDict(recs)[Key(recs[i])] == recs[i]
    decreases |recs|
  {
    if recs != [] {
      var prefix := recs[..|recs| - 1];
      RecsDictLastWins(prefix);
      forall i | 0 <= i < |recs| - 1 && LastWithKey(recs, i)
        ensures Key(recs[i]) in RecsDict(recs) && RecsDict(recs)[Key(recs[i])] == recs[i]
      {
        assert prefix[i] == recs[i];
        assert LastWithKey(prefix, i);
      }
    }
  }

  /** `make_recs_dict`, as the loop it is. */
  method MakeRecsDict(recs: seq<Record>) returns (variantRecs: map<string, Record>)
    ensures variantRecs == RecsDict(recs)
  {
    variantRecs := map[];
    var i := 0;
    while i < |recs|
      invariant 0 <= i <= |recs|
      invariant variantRecs == RecsDict(recs[..i])
    {
      assert recs[..i + 1][..i] == recs[..i];
      variantRecs := variantRecs[Key(recs[i]) := recs[i]];
      i := i + 1;
    }
    assert recs[..i] == recs;
  }

  /** What `snv_diff` prints: the two counts, or the records under the keys found in only
      one file, those of the first file before those of the second. Each group is printed in
      the iteration order of a Python set, which the model leaves unordered. */
  datatype DiffOutput =
    | Counts(onlyFirst: nat, onlySecond: nat)
    | Listing(first: map<string, Record>, second: map<string, Record>)

  /** The entries of `dict` whose keys are not in `other`. */
  function Only(dict: map<string, Record>, other: set<string>): (only: map<string, Record>)
    ensures only.Keys == dict.Keys - other
    ensures forall k | k in only :: only[k] == dict[k]
  {
    map k | k in dict.Keys - other :: dict[k]
  }

  /** `snv_diff` over the two dictionaries. */
  function Diff(recs1: seq<Record>, recs2: seq<Record>, printRecs: bool): (out: DiffOutput)
    ensures !printRecs ==>
              out == Counts(|KeysOf(recs1) - KeysOf(recs2)|, |KeysOf(recs2) - KeysOf(recs1)|)
    ensures printRecs ==>
              && out.Listing?
              && out.first.Keys == KeysOf(recs1) - KeysOf(recs2)
              && out.second.Keys == KeysOf(recs2) - KeysOf(recs1)
              && (forall k | k in out.first :: k in RecsDict(recs1) && out.first[k] == RecsDict(recs1)[k])
              && (forall k | k in out.second :: k in RecsDict(recs2) && out.second[k] == RecsDict(recs2)[k])
  {
    RecsDictKeys(recs1);
    RecsDictKeys(recs2);
    var dict1, dict2 := RecsDict(recs1), RecsDict(recs2);
    if printRecs then Listing(Only(dict1, dict2.Keys), Only(dict2, dict1.Keys))
    else Counts(|dict1.Keys - dict2.Keys|, |dict2.Keys - dict1.Keys|)
  }

  /** `snv_diff`, building both dictionaries with `make_recs_dict`. */
  method SnvDiff(recs1: seq<Record>, recs2: seq<Record>, printRecs: bool) returns (out: DiffOutput)
    ensures out == Diff(recs1, recs2, printRecs)
  {
    var vcf1Recs := MakeRecsDict(recs1);
    var vcf2Recs := MakeRecsDict(recs2);
    var vcf1Only := vcf1Recs.Keys - vcf2Recs.Keys;
    var vcf2Only := vcf2Recs.Keys - vcf1Recs.Keys;
    if !printRecs {
      out := Counts(|vcf1Only|, |vcf2Only|);
    } else {
      out := Listing(Only(vcf1Recs, vcf2Recs.Keys), Only(vcf2Recs, vcf1Recs.Keys));
    }
  }

  /** The two counts differ by exactly the difference in the number of distinct variants. */
  lemma CountsDiffer(recs1: seq<Record>, recs2: seq<Record>)
    ensures var out := Diff(recs1, recs2, false);
            out.onlyFirst - out.onlySecond == |KeysOf(recs1)| - |KeysOf(recs2)|
  {
    var keys1, keys2 := KeysOf(recs1), KeysOf(recs2);
    assert keys1 == (keys1 - keys2) + (keys1 * keys2);
    assert keys2 == (keys2 - keys1) + (keys1 * keys2);
    assert (keys1 - keys2) * (keys1 * keys2) == {};
    assert (keys2 - keys1) * (keys1 * keys2) == {};
  }

  /** Swapping the two files swaps the two counts. */
  lemma CountsSwap(recs1: seq<Record>, recs2: seq<Record>)
    ensures var out := Diff(recs1, recs2, false);
            Diff(recs2, recs1, false) == Counts(out.onlySecond, out.onlyFirst)
  {
  }

  /** A no-counts listing never puts one key in both groups. */
  lemma ListingGroupsDisjoint(recs1: seq<Record>, recs2: seq<Record>)
    ensures var out := Diff(recs1, recs2, true);
            out.first.Keys * out.second.Keys == {}
  {
  }

  /** For records whose alleles are well formed, a record of the first file has its key
      among those found only in the first file exactly when no record of the second file
      has the same chromosome, position and alternate alleles. */
  lemma OnlyFirstMeansNoSameVariant(recs1: seq<Record>, recs2: seq<Record>, r: Record)
    requires r in recs1 && WellFormedAlleles(r)
    requires forall x | x in recs2 :: WellFormedAlleles(x)
    ensures (Key(r) in KeysOf(recs1) - KeysOf(recs2))
              <==> forall x | x in recs2 :: !(x.chrom == r.chrom && x.pos == r.pos && x.alts == r.alts)
  {
    forall x | x in recs2
      ensures Key(x) == Key(r) <==> (x.chrom == r.chrom && x.pos == r.pos && x.alts == r.alts)
    {
      KeyIdentifiesVariant(x, r);
    }
  }
}
