/**
 * The browser's local storage as the client pages use it: a map from slot
 * name to stored text, where the text is seen through what `JSON.parse`
 * makes of it.
 */
module Storage {

  /** A parsed JSON value. */
  datatype Json =
    | JNull
    | JBool(b: bool)
    | JNum(n: int)
    | JStr(s: string)
    | JArr(items: seq<Json>)
    | JObj(fields: map<string, Json>)

  /**
   * The text held in a slot: the empty string, text that `JSON.parse`
   * rejects, or text that parses to `value`.
   */
  datatype Cell = Blank | Malformed | Holds(value: Json)

  type Slots = map<string, Cell>

  const TodosKey: string := "todos"
  const ActivityKey: string := "activityDates"

  /**
   * `readLocalStorageJSON(key, fallback)`: the parsed slot, or the fallback
   * when the slot is absent, empty or not JSON.
   */
  function ReadJson(slots: Slots, key: string, fallback: Json): (v: Json)
    ensures key !in slots ==> v == fallback
    ensures key in slots && !slots[key].Holds? ==> v == fallback
    ensures key in slots && slots[key].Holds? ==> v == slots[key].value
  {
    if key in slots && slots[key].Holds? then slots[key].value else fallback
  }

  /** `writeLocalStorageJSON(key, value)`: the slot then holds the text of `value`. */
  function WriteJson(slots: Slots, key: string, value: Json): (r: Slots)
    ensures r.Keys == slots.Keys + {key}
  {
    slots[key := Holds(value)]
  }

  /** A value written is the value read back, and no other slot reads differently. */
  lemma ReadAfterWrite(slots: Slots, key: string, value: Json, other: string, fallback: Json)
    ensures ReadJson(WriteJson(slots, key, value), key, fallback) == value
    ensures other != key ==> ReadJson(WriteJson(slots, key, value), other, fallback) == ReadJson(slots, other, fallback)
  {
  }
}
