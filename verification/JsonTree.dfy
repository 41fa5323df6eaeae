/** The value a cJSON item and its children stand for. */
module JsonTree {
  import opened Bytes

  /** CJSON_NESTING_LIMIT */
  const NESTING_LIMIT: nat := 1000

  /** The number mantissa * 10^exp10, not rounded to a double. */
  datatype Decimal = Decimal(mantissa: int, exp10: int)

  datatype Member = Member(key: seq<byte>, value: Json)

  datatype Json =
    | Null
    | False
    | True
    | Number(num: Decimal)
    | String(str: seq<byte>)
    | Array(items: seq<Json>)
    | Object(members: seq<Member>)

  /** How deeply arrays and objects are nested in a value. */
  function Nesting(t: Json): nat {
    match t
    case Array(items) => 1 + NestingOfItems(items)
    case Object(members) => 1 + NestingOfMembers(members)
    case _ => 0
  }

  function NestingOfItems(items: seq<Json>): nat {
    if |items| == 0 then 0 else Max(Nesting(items[0]), NestingOfItems(items[1..]))
  }

  function NestingOfMembers(members: seq<Member>): nat {
    if |members| == 0 then 0 else Max(Nesting(members[0].value), NestingOfMembers(members[1..]))
  }

  /** 10^15: below it "%1.15g" prints an integer exactly and in plain decimal. */
  const EXACT_LIMIT: int := 1_000_000_000_000_000

  /** Trees this model prints: integers below 10^15, and C strings (no NUL inside). */
  ghost predicate Printable(t: Json) {
    match t
    case Number(n) => n.exp10 == 0 && -EXACT_LIMIT < n.mantissa < EXACT_LIMIT
    case String(s) => NulFree(s)
    case Array(items) => PrintableItems(items)
    case Object(members) => PrintableMembers(members)
    case _ => true
  }

  ghost predicate PrintableItems(items: seq<Json>) {
    |items| == 0 || (Printable(items[0]) && PrintableItems(items[1..]))
  }

  ghost predicate PrintableMembers(members: seq<Member>) {
    |members| == 0
    || (NulFree(members[0].key) && Printable(members[0].value) && PrintableMembers(members[1..]))
  }
}
