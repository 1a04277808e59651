/** The one name correction the dashboard applies to its table before any
    counting or lookup: the historical "West Germany" is folded into "Germany"
    in both the winner and the runner-up column. */
module Normalization {
  import opened Dataset

  const FormerName: string := "West Germany"
  const CurrentName: string := "Germany"

  /** Exact-match replacement of one cell value. */
  function NormalizeName(s: string): (r: string)
    ensures r != FormerName
    ensures s != FormerName ==> r == s
    ensures r != s ==> s == FormerName && r == CurrentName
  {
    if s == FormerName then CurrentName else s
  }

  /** Replaces the former name in the two name columns; the year is untouched. */
  function NormalizeRecord(rec: Record): (r: Record)
    ensures r.year == rec.year
    ensures r.winner != FormerName && r.runnerUp != FormerName
    ensures rec.winner != FormerName ==> r.winner == rec.winner
    ensures rec.runnerUp != FormerName ==> r.runnerUp == rec.runnerUp
    ensures rec.winner == FormerName ==> r.winner == CurrentName
    ensures rec.runnerUp == FormerName ==> r.runnerUp == CurrentName
  {
    Record(rec.year, NormalizeName(rec.winner), NormalizeName(rec.runnerUp))
  }

  /** The whole-table replacement, applied cell by cell. */
  function Normalize(d: seq<Record>): (r: seq<Record>)
    ensures |r| == |d|
    ensures forall i :: 0 <= i < |d| ==> r[i] == NormalizeRecord(d[i])
  {
    if d == [] then [] else [NormalizeRecord(d[0])] + Normalize(d[1..])
  }

  /** No name cell of the table is the former name. */
  ghost predicate Normalized(d: seq<Record>)
  {
    forall i :: 0 <= i < |d| ==> d[i].winner != FormerName && d[i].runnerUp != FormerName
  }

  /** After normalization the former name appears nowhere, and the years and
      every other name are exactly as before. */
  lemma NormalizeEffect(d: seq<Record>)
    ensures Normalized(Normalize(d))
    ensures Years(Normalize(d)) == Years(d)
    ensures forall i :: 0 <= i < |d| && d[i].winner != FormerName ==> Normalize(d)[i].winner == d[i].winner
    ensures forall i :: 0 <= i < |d| && d[i].runnerUp != FormerName ==> Normalize(d)[i].runnerUp == d[i].runnerUp
  {
  }

  /** A table that is already normalized is left exactly as it is. */
  lemma NormalizeFixesNormalized(d: seq<Record>)
    requires Normalized(d)
    ensures Normalize(d) == d
  {
  }

  /** Applying the replacement twice changes nothing further. */
  lemma NormalizeIdempotent(d: seq<Record>)
    ensures Normalize(Normalize(d)) == Normalize(d)
  {
    NormalizeEffect(d);
    NormalizeFixesNormalized(Normalize(d));
  }

  /** On the embedded table the replacement is a no-op: no final of the table
      names "West Germany". */
  lemma NormalizeRawDataIsIdentity()
    ensures Normalize(RawData) == RawData
  {
    NormalizeFixesNormalized(RawData);
  }
}
