/** Decoded JSON values: objects keep the order of their keys, numbers with a fraction are reals. */
module JsonValues {
  import opened Dicts

  datatype Json =
    | Null
    | Bool(flag: bool)
    | Int(number: int)
    | Real(fraction: real)
    | Str(text: string)
    | Arr(items: seq<Json>)
    | Obj(fields: Dict<Json>)

  /** Every object has each of its keys once. */
  predicate Proper(j: Json)
    decreases j, 1
  {
    match j
    case Arr(items) => ProperItems(items)
    case Obj(fields) => Distinct(fields) && ProperFields(fields)
    case _ => true
  }

  predicate ProperItems(items: seq<Json>)
    decreases items, 0
  {
    items != [] ==> Proper(items[0]) && ProperItems(items[1..])
  }

  predicate ProperFields(d: Dict<Json>)
    decreases d, 0
  {
    d != [] ==> assert d[0].1 < d[0]; Proper(d[0].1) && ProperFields(d[1..])
  }
}
