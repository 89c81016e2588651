/** Entries and the draft are plain JavaScript objects: built-in keys (`date`,
    `category`, `topics`, ...), the custom-field keys and `id` all live in one
    key space, so here a record is one map from key to value. */
module Records {
  import opened Js

  datatype Option<T> = None | Some(value: T)

  /** The values the component stores under a key: text typed into a field, a
      number (`id` from the clock, the clamped `confidence`), or the array of
      topic names picked in the autocomplete. */
  datatype Value = Str(s: string) | Num(n: real) | List(items: seq<string>)

  type Record = map<string, Value>

  /** Reading `record.id`; `None` stands for JavaScript's `undefined`. */
  function IdOf(r: Record): (id: Option<Value>)
    ensures id.None? <==> "id" !in r
    ensures id.Some? ==> id.value == r["id"]
  {
    if "id" in r then Some(r["id"]) else None
  }

  /** Array-to-string conversion: the items joined with commas. */
  function JoinComma(items: seq<string>): (r: string)
    ensures items == [] ==> r == ""
    ensures |items| == 1 ==> r == items[0]
    ensures |items| > 0 ==> |r| >= |items[0]| && r[..|items[0]|] == items[0]
    ensures |items| > 1 ==> |r| > |items[0]| && r[|items[0]|] == ','
  {
    if items == [] then ""
    else if |items| == 1 then items[0]
    else items[0] + "," + JoinComma(items[1..])
  }

  /** `parseFloat(v) || 0` for a stored value. A number reads as itself and text
      through the decimal reader; an array is first turned into its string. */
  function NumberOf(v: Value): (x: real)
    ensures v == Str("") ==> x == 0.0
    ensures v.Num? ==> x == v.n
  {
    match v
    case Str(s) => ParseNum(s)
    case Num(n) => n
    case List(items) => ParseNum(JoinComma(items))
  }

  /** `parseFloat(record[key]) || 0`: a missing key reads `undefined`, which
      parses to NaN and so counts as 0, as does the empty string. */
  function NumberAt(r: Record, key: string): (x: real)
    ensures key !in r ==> x == 0.0
    ensures key in r && r[key] == Str("") ==> x == 0.0
  {
    if key in r then NumberOf(r[key]) else 0.0
  }

  /** A key holding a written natural number reads as that number. */
  lemma NumberAtOfNat(r: Record, key: string, n: nat)
    requires key in r && r[key] == Str(NatToDigits(n))
    ensures NumberAt(r, key) == n as real
  {
    ParseNumOfNat(n);
  }
}
