/** Field values, records and the lower-casing used to route records to collections. */
module Documents {

  /** A cell of a data frame / a field of a MongoDB document. */
  datatype Value =
    | Str(s: string)
    | Num(x: real)
    | Stamp(t: int)   // a pandas Timestamp, as produced by `to_datetime`
    | Missing         // NaN / NaT

  /** A record of `df.to_dict('records')`, or the fields of a stored document. */
  type Document = map<string, Value>

  function LowerChar(c: char): (r: char)
    ensures !('A' <= r <= 'Z')
    ensures !('A' <= c <= 'Z') ==> r == c
  {
    if 'A' <= c <= 'Z' then (c as int - 'A' as int + 'a' as int) as char else c
  }

  predicate IsLower(s: string) {
    forall i :: 0 <= i < |s| ==> !('A' <= s[i] <= 'Z')
  }

  /** `str.lower()` on the ASCII range. */
  function Lower(s: string): (r: string)
    ensures |r| == |s| && IsLower(r)
    ensures forall i :: 0 <= i < |s| ==> r[i] == LowerChar(s[i])
    ensures IsLower(s) ==> r == s
  {
    seq(|s|, i requires 0 <= i < |s| => LowerChar(s[i]))
  }

  /** Lower-casing an already lower-cased key changes nothing: the readers' `state.lower()`
      and the writer's `record['state'].lower()` name the same collection. */
  lemma LowerIdempotent(s: string)
    ensures Lower(Lower(s)) == Lower(s)
  {
  }
}
