/** The decoded form of one event message: a JSON object whose values are
    looked up with `event.get(key, None)`. */
module Events {

  datatype Option<+T> = None | Some(value: T)

  /** A decoded JSON value, as far as the validators tell values apart:
      `null`, an integer, a string, or anything else (floats, booleans,
      arrays, objects). */
  datatype Value = Null | Int(i: int) | Str(s: string) | Other

  /** A decoded event: the JSON object's keys and values. */
  type Event = map<string, Value>

  /** `event.get(key, None)`: a missing key reads as `null`. */
  function Get(e: Event, key: string): Value {
    if key in e then e[key] else Null
  }

  /** A key set to `null` and a missing key read the same, for every key. */
  lemma NullReadsAsAbsent(e: Event, k: string, key: string)
    ensures Get(e[k := Null], key) == Get(e - {k}, key)
  {
  }
}
