/** cJSON_Compare, case sensitive, and the equality of JSON values it decides. */
module JsonCompare {
  import opened Bytes
  import opened JsonTree

  // ---------- numbers ----------

  function PowerOfTen(k: nat): (p: real)
    ensures p > 0.0
  {
    if k == 0 then 1.0 else 10.0 * PowerOfTen(k - 1)
  }

  function RealOf(d: Decimal): real {
    if d.exp10 >= 0 then d.mantissa as real * PowerOfTen(d.exp10)
    else d.mantissa as real / PowerOfTen(-d.exp10)
  }

  function Abs(x: real): (r: real)
    ensures r >= 0.0 && (r == x || r == -x)
  {
    if x < 0.0 then -x else x
  }

  /** 1 / DBL_EPSILON */
  const INVERSE_EPSILON: int := 0x10_0000_0000_0000

  /** compare_double, over real numbers */
  function CompareDouble(a: real, b: real): bool {
    var maxVal := if Abs(a) > Abs(b) then Abs(a) else Abs(b);
    Abs(a - b) * INVERSE_EPSILON as real <= maxVal
  }

  /** On integers below 2^52 the tolerance of compare_double is no tolerance at all. */
  lemma IntegersCompareExactly(a: int, b: int)
    requires -INVERSE_EPSILON < a < INVERSE_EPSILON && -INVERSE_EPSILON < b < INVERSE_EPSILON
    ensures CompareDouble(a as real, b as real) <==> a == b
  {
    if a != b {
      assert Abs(a as real - b as real) >= 1.0;
    }
  }

  /** And no further: the first two neighbours that compare equal are 2^52 and the next. */
  lemma ToleranceBegins()
    ensures INVERSE_EPSILON == 4_503_599_627_370_496
    ensures CompareDouble(4_503_599_627_370_496.0, 4_503_599_627_370_497.0)
  {
  }

  /** Which real number a decimal is does not depend on its spelling, and an integer is itself. */
  lemma DecimalAsReal(m: int, e: int)
    ensures RealOf(Decimal(m, 0)) == m as real
    ensures RealOf(Decimal(10 * m, e - 1)) == RealOf(Decimal(m, e))
  {
    assert PowerOfTen(0) == 1.0;
    if e > 0 {
      assert PowerOfTen(e) == 10.0 * PowerOfTen(e - 1);
      Regroup(m as real, PowerOfTen(e - 1));
    } else {
      assert PowerOfTen(1 - e) == 10.0 * PowerOfTen(-e);
      Shorten(m as real, PowerOfTen(-e));
    }
  }

  lemma Regroup(x: real, p: real)
    ensures 10.0 * x * p == x * (10.0 * p)
  {
  }

  lemma Shorten(x: real, p: real)
    requires p > 0.0
    ensures 10.0 * x / (10.0 * p) == x / p
  {
    var q := x / p;
    assert x == q * p;
    assert 10.0 * x == q * (10.0 * p);
  }

  // ---------- the comparison, as a function ----------

  function Size(t: Json): nat {
    match t
    case Array(items) => 1 + SizeOfItems(items)
    case Object(members) => 1 + SizeOfMembers(members)
    case _ => 1
  }

  function SizeOfItems(items: seq<Json>): nat {
    if |items| == 0 then 0 else 1 + Size(items[0]) + SizeOfItems(items[1..])
  }

  function SizeOfMembers(members: seq<Member>): nat {
    if |members| == 0 then 0 else 1 + Size(members[0].value) + SizeOfMembers(members[1..])
  }

  /** get_object_item: the index of the first member of that name, or the number of members. */
  function Find(members: seq<Member>, name: seq<byte>): (i: nat)
    ensures i <= |members|
    ensures i < |members| ==> members[i].key == name && Size(members[i].value) < SizeOfMembers(members)
    ensures forall k :: 0 <= k < i ==> members[k].key != name
  {
    if |members| == 0 || members[0].key == name then 0
    else
      var i := Find(members[1..], name);
      assert i < |members[1..]| ==> members[1..][i] == members[i + 1];
      assert forall k :: 1 <= k < i + 1 ==> members[k] == members[1..][k - 1];
      i + 1
  }

  function Equal(a: Json, b: Json): bool
    decreases Size(a) + Size(b)
  {
    match (a, b)
    case (Null, Null) => true
    case (False, False) => true
    case (True, True) => true
    case (Number(x), Number(y)) => CompareDouble(RealOf(x), RealOf(y))
    case (String(x), String(y)) => x == y
    case (Array(xs), Array(ys)) => EqualItems(xs, ys)
    case (Object(xs), Object(ys)) => Covered(xs, ys) && Covered(ys, xs)
    case _ => false
  }

  function EqualItems(xs: seq<Json>, ys: seq<Json>): bool
    decreases SizeOfItems(xs) + SizeOfItems(ys)
  {
    if |xs| == 0 || |ys| == 0 then |xs| == |ys|
    else Equal(xs[0], ys[0]) && EqualItems(xs[1..], ys[1..])
  }

  /** Every member of xs has a counterpart of the same name in ys that compares equal. */
  function Covered(xs: seq<Member>, ys: seq<Member>): bool
    decreases SizeOfMembers(xs) + SizeOfMembers(ys)
  {
    if |xs| == 0 then true
    else
      var i := Find(ys, xs[0].key);
      i < |ys| && Equal(xs[0].value, ys[i].value) && Covered(xs[1..], ys)
  }

  // ---------- the loops of cJSON_Compare ----------

  /** get_object_item, case sensitive */
  method GetObjectItem(members: seq<Member>, name: seq<byte>) returns (i: nat)
    ensures i == Find(members, name)
  {
    i := 0;
    while i < |members| && name != members[i].key
      invariant i <= |members|
      invariant Find(members, name) == i + Find(members[i..], name)
    {
      assert members[i..][1..] == members[i + 1..];
      i := i + 1;
    }
  }

  /** cJSON_Compare; `identical` tells whether the two pointers are the same. */
  method Compare(a: Json, b: Json, identical: bool) returns (equal: bool)
    requires identical ==> a == b
    ensures equal <==> identical || Equal(a, b)
    decreases Size(a) + Size(b)
  {
    if identical {
      return true;
    }
    match (a, b)
    case (Null, Null) => return true;
    case (False, False) => return true;
    case (True, True) => return true;
    case (Number(x), Number(y)) => return CompareDouble(RealOf(x), RealOf(y));
    case (String(x), String(y)) => return x == y;
    case (Array(xs), Array(ys)) => equal := CompareArrays(xs, ys);
    case (Object(xs), Object(ys)) =>
      equal := CompareMembers(xs, ys);
      if equal {
        equal := CompareMembers(ys, xs);
      }
    case _ => return false;
  }

  method CompareArrays(xs: seq<Json>, ys: seq<Json>) returns (equal: bool)
    ensures equal <==> EqualItems(xs, ys)
    decreases SizeOfItems(xs) + SizeOfItems(ys), 0
  {
    var i, j := 0, 0;
    while i < |xs| && j < |ys|
      invariant i == j <= |xs| && j <= |ys|
      invariant EqualItems(xs, ys) <==> EqualItems(xs[i..], ys[j..])
      invariant SizeOfItems(xs[i..]) <= SizeOfItems(xs) && SizeOfItems(ys[j..]) <= SizeOfItems(ys)
    {
      assert xs[i..][1..] == xs[i + 1..] && ys[j..][1..] == ys[j + 1..];
      equal := Compare(xs[i], ys[j], false);
      if !equal {
        return;
      }
      i, j := i + 1, j + 1;
    }
    equal := i == |xs| && j == |ys|;
  }

  method CompareMembers(xs: seq<Member>, ys: seq<Member>) returns (equal: bool)
    ensures equal <==> Covered(xs, ys)
    decreases SizeOfMembers(xs) + SizeOfMembers(ys), 0
  {
    var i := 0;
    while i < |xs|
      invariant i <= |xs|
      invariant Covered(xs, ys) <==> Covered(xs[i..], ys)
      invariant SizeOfMembers(xs[i..]) <= SizeOfMembers(xs)
    {
      assert xs[i..][1..] == xs[i + 1..];
      var found := GetObjectItem(ys, xs[i].key);
      if found == |ys| {
        return false;
      }
      equal := Compare(xs[i].value, ys[found].value, false);
      if !equal {
        return;
      }
      i := i + 1;
    }
    equal := true;
  }

  // ---------- what it decides ----------

  /** A JSON value; an object is a map from names to values. */
  datatype Value =
    | VNull
    | VFalse
    | VTrue
    | VNumber(n: int)
    | VString(s: seq<byte>)
    | VArray(values: seq<Value>)
    | VObject(fields: map<seq<byte>, Value>)

  /** Integers below 2^52 in magnitude: the numbers compare_double keeps apart. */
  ghost predicate SmallIntegers(t: Json) {
    match t
    case Number(n) => n.exp10 == 0 && -INVERSE_EPSILON < n.mantissa < INVERSE_EPSILON
    case Array(items) => SmallIntegersIn(items)
    case Object(members) => SmallIntegersInMembers(members)
    case _ => true
  }

  ghost predicate SmallIntegersIn(items: seq<Json>) {
    |items| == 0 || (SmallIntegers(items[0]) && SmallIntegersIn(items[1..]))
  }

  ghost predicate SmallIntegersInMembers(members: seq<Member>) {
    |members| == 0 || (SmallIntegers(members[0].value) && SmallIntegersInMembers(members[1..]))
  }

  /** The value a tree denotes; where a name is repeated, its first member counts. */
  ghost function Denotes(t: Json): Value {
    match t
    case Null => VNull
    case False => VFalse
    case True => VTrue
    case Number(n) => VNumber(n.mantissa)
    case String(s) => VString(s)
    case Array(items) => VArray(DenotesItems(items))
    case Object(members) => VObject(DenotesMembers(members))
  }

  ghost function DenotesItems(items: seq<Json>): (vs: seq<Value>)
    ensures |vs| == |items|
  {
    if |items| == 0 then [] else [Denotes(items[0])] + DenotesItems(items[1..])
  }

  ghost function DenotesMembers(members: seq<Member>): map<seq<byte>, Value> {
    if |members| == 0 then map[]
    else DenotesMembers(members[1..])[members[0].key := Denotes(members[0].value)]
  }

  /** Wherever an object repeats a name, all its members of that name denote the same value. */
  ghost predicate Consistent(t: Json) {
    match t
    case Array(items) => ConsistentItems(items)
    case Object(members) => ConsistentMembers(members, DenotesMembers(members))
    case _ => true
  }

  ghost predicate ConsistentItems(items: seq<Json>) {
    |items| == 0 || (Consistent(items[0]) && ConsistentItems(items[1..]))
  }

  ghost predicate ConsistentMembers(members: seq<Member>, fields: map<seq<byte>, Value>) {
    |members| == 0
    || (&& Consistent(members[0].value)
        && members[0].key in fields && fields[members[0].key] == Denotes(members[0].value)
        && ConsistentMembers(members[1..], fields))
  }

  /** Looking a name up finds the member whose value the object gives that name. */
  lemma {:induction false} FindDenotes(members: seq<Member>, name: seq<byte>)
    ensures name in DenotesMembers(members) <==> Find(members, name) < |members|
    ensures name in DenotesMembers(members)
      ==> DenotesMembers(members)[name] == Denotes(members[Find(members, name)].value)
  {
    if |members| > 0 && members[0].key != name {
      FindDenotes(members[1..], name);
    }
  }

  /** The member a name finds is consistent, for every name of xs. */
  ghost predicate FindsConsistent(xs: seq<Member>, ys: seq<Member>) {
    |xs| == 0
    || (&& (Find(ys, xs[0].key) < |ys| ==> Consistent(ys[Find(ys, xs[0].key)].value))
        && FindsConsistent(xs[1..], ys))
  }

  lemma {:induction false} ConsistentAt(xs: seq<Member>, fields: map<seq<byte>, Value>, i: nat)
    requires ConsistentMembers(xs, fields) && i < |xs|
    ensures Consistent(xs[i].value) && xs[i].key in fields && fields[xs[i].key] == Denotes(xs[i].value)
  {
    if i > 0 {
      ConsistentAt(xs[1..], fields, i - 1);
    }
  }

  lemma {:induction false} FindsAmongConsistent(xs: seq<Member>, ys: seq<Member>, fields: map<seq<byte>, Value>)
    requires ConsistentMembers(ys, fields)
    ensures FindsConsistent(xs, ys)
  {
    if |xs| > 0 {
      if Find(ys, xs[0].key) < |ys| {
        ConsistentAt(ys, fields, Find(ys, xs[0].key));
      }
      FindsAmongConsistent(xs[1..], ys, fields);
    }
  }

  lemma {:induction false} SmallAt(ms: seq<Member>, i: nat)
    requires SmallIntegersInMembers(ms) && i < |ms|
    ensures SmallIntegers(ms[i].value)
  {
    if i > 0 {
      SmallAt(ms[1..], i - 1);
    }
  }

  /** Two maps that agree on each other's members are equal. */
  lemma FieldsAgree(xs: seq<Member>, ys: seq<Member>)
    requires ConsistentMembers(xs, DenotesMembers(ys)) && ConsistentMembers(ys, DenotesMembers(xs))
    ensures DenotesMembers(xs) == DenotesMembers(ys)
  {
    forall name
      ensures name in DenotesMembers(xs) <==> name in DenotesMembers(ys)
      ensures name in DenotesMembers(xs) ==> DenotesMembers(xs)[name] == DenotesMembers(ys)[name]
    {
      FindDenotes(xs, name);
      FindDenotes(ys, name);
      var i, j := Find(xs, name), Find(ys, name);
      if i < |xs| {
        ConsistentAt(xs, DenotesMembers(ys), i);
      }
      if j < |ys| {
        ConsistentAt(ys, DenotesMembers(xs), j);
      }
    }
  }

  /**
   * cJSON_Compare on two different items holds exactly when both denote the same JSON value,
   * whatever the order of members, and neither repeats a name with different values.
   */
  lemma {:induction false} EqualMeansSameValue(a: Json, b: Json)
    requires SmallIntegers(a) && SmallIntegers(b)
    ensures Equal(a, b) <==> Consistent(a) && Consistent(b) && Denotes(a) == Denotes(b)
    decreases Size(a) + Size(b), 2
  {
    hide *;
    if a.Number? && b.Number? {
      EqualNumbersMean(a, b);
    } else if a.Array? && b.Array? {
      EqualArraysMean(a, b);
    } else if a.Object? && b.Object? {
      EqualTreesMean(a, b);
    } else {
      OtherKinds(a, b);
    }
  }

  lemma EqualNumbersMean(a: Json, b: Json)
    requires SmallIntegers(a) && SmallIntegers(b) && a.Number? && b.Number?
    ensures Equal(a, b) <==> Consistent(a) && Consistent(b) && Denotes(a) == Denotes(b)
  {
    hide CompareDouble, RealOf;
    IntegerAsReal(a.num);
    IntegerAsReal(b.num);
    IntegersCompareExactly(a.num.mantissa, b.num.mantissa);
  }

  lemma IntegerAsReal(d: Decimal)
    requires d.exp10 == 0
    ensures RealOf(d) == d.mantissa as real
  {
    assert PowerOfTen(0) == 1.0;
  }

  lemma {:induction false} EqualArraysMean(a: Json, b: Json)
    requires SmallIntegers(a) && SmallIntegers(b) && a.Array? && b.Array?
    ensures Equal(a, b) <==> Consistent(a) && Consistent(b) && Denotes(a) == Denotes(b)
    decreases Size(a) + Size(b), 1
  {
    hide SmallIntegersIn, EqualItems, ConsistentItems, DenotesItems;
    EqualItemsMeans(a.items, b.items);
  }

  lemma {:induction false} EqualTreesMean(a: Json, b: Json)
    requires SmallIntegers(a) && SmallIntegers(b) && a.Object? && b.Object?
    ensures Equal(a, b) <==> Consistent(a) && Consistent(b) && Denotes(a) == Denotes(b)
    decreases Size(a) + Size(b), 1
  {
    hide SmallIntegersInMembers, Covered, ConsistentMembers, DenotesMembers;
    EqualObjectsMeans(a.members, b.members);
  }

  lemma OtherKinds(a: Json, b: Json)
    requires !(a.Number? && b.Number?) && !(a.Array? && b.Array?) && !(a.Object? && b.Object?)
    ensures Equal(a, b) <==> Consistent(a) && Consistent(b) && Denotes(a) == Denotes(b)
  {
    hide ConsistentMembers, DenotesMembers, ConsistentItems, DenotesItems;
    if a.Array? || a.Object? || b.Array? || b.Object? {
      assert !Equal(a, b) && Denotes(a) != Denotes(b);
    }
  }

  lemma {:induction false} EqualObjectsMeans(xs: seq<Member>, ys: seq<Member>)
    requires SmallIntegersInMembers(xs) && SmallIntegersInMembers(ys)
    ensures Covered(xs, ys) && Covered(ys, xs)
       <==> ConsistentMembers(xs, DenotesMembers(xs)) && ConsistentMembers(ys, DenotesMembers(ys))
            && DenotesMembers(xs) == DenotesMembers(ys)
    decreases SizeOfMembers(xs) + SizeOfMembers(ys), 1
  {
    hide Covered, ConsistentMembers, FindsConsistent, DenotesMembers;
    CoveredMeans(xs, ys);
    CoveredMeans(ys, xs);
    if Covered(xs, ys) && Covered(ys, xs) {
      FieldsAgree(xs, ys);
    }
    if ConsistentMembers(xs, DenotesMembers(xs)) && ConsistentMembers(ys, DenotesMembers(ys)) {
      FindsAmongConsistent(xs, ys, DenotesMembers(ys));
      FindsAmongConsistent(ys, xs, DenotesMembers(xs));
    }
  }

  lemma {:induction false} EqualItemsMeans(xs: seq<Json>, ys: seq<Json>)
    requires SmallIntegersIn(xs) && SmallIntegersIn(ys)
    ensures EqualItems(xs, ys)
       <==> ConsistentItems(xs) && ConsistentItems(ys) && DenotesItems(xs) == DenotesItems(ys)
    decreases SizeOfItems(xs) + SizeOfItems(ys)
  {
    if |xs| > 0 && |ys| > 0 {
      EqualMeansSameValue(xs[0], ys[0]);
      EqualItemsMeans(xs[1..], ys[1..]);
      assert DenotesItems(xs)[0] == Denotes(xs[0]) && DenotesItems(ys)[0] == Denotes(ys[0]);
      assert DenotesItems(xs)[1..] == DenotesItems(xs[1..]) && DenotesItems(ys)[1..] == DenotesItems(ys[1..]);
    }
  }

  lemma {:induction false} CoveredMeans(xs: seq<Member>, ys: seq<Member>)
    requires SmallIntegersInMembers(xs) && SmallIntegersInMembers(ys)
    ensures Covered(xs, ys) <==> ConsistentMembers(xs, DenotesMembers(ys)) && FindsConsistent(xs, ys)
    decreases SizeOfMembers(xs) + SizeOfMembers(ys), 0
  {
    if |xs| > 0 {
      var i := Find(ys, xs[0].key);
      FindDenotes(ys, xs[0].key);
      if i < |ys| {
        SmallAt(ys, i);
        EqualMeansSameValue(xs[0].value, ys[i].value);
      }
      CoveredMeans(xs[1..], ys);
    }
  }

  /** No name is repeated in any object of the tree. */
  ghost predicate DistinctNames(t: Json) {
    match t
    case Array(items) => DistinctNamesIn(items)
    case Object(members) => DistinctNamesOfMembers(members)
    case _ => true
  }

  ghost predicate DistinctNamesIn(items: seq<Json>) {
    |items| == 0 || (DistinctNames(items[0]) && DistinctNamesIn(items[1..]))
  }

  ghost predicate DistinctNamesOfMembers(members: seq<Member>) {
    |members| == 0
    || (&& DistinctNames(members[0].value)
        && Find(members[1..], members[0].key) == |members[1..]|
        && DistinctNamesOfMembers(members[1..]))
  }

  /** Trees whose objects have distinct names are consistent: for them equality is the whole story. */
  lemma {:induction false} DistinctMeansConsistent(t: Json)
    requires DistinctNames(t)
    ensures Consistent(t)
    decreases t, 2
  {
    match t
    case Array(items) => DistinctItemsConsistent(items);
    case Object(members) => DistinctMembersConsistent(members);
    case _ =>
  }

  lemma {:induction false} DistinctItemsConsistent(items: seq<Json>)
    requires DistinctNamesIn(items)
    ensures ConsistentItems(items)
    decreases items, 0
  {
    if |items| > 0 {
      DistinctMeansConsistent(items[0]);
      DistinctItemsConsistent(items[1..]);
    }
  }

  lemma {:induction false} DistinctMembersConsistent(members: seq<Member>)
    requires DistinctNamesOfMembers(members)
    ensures ConsistentMembers(members, DenotesMembers(members))
    decreases members, 0
  {
    if |members| > 0 {
      DistinctMeansConsistent(members[0].value);
      DistinctMembersConsistent(members[1..]);
      FindDenotes(members[1..], members[0].key);
      AddField(members[1..], DenotesMembers(members[1..]), members[0].key, Denotes(members[0].value));
    }
  }

  lemma {:induction false} AddField(
    members: seq<Member>, fields: map<seq<byte>, Value>, name: seq<byte>, value: Value)
    requires ConsistentMembers(members, fields) && name !in fields
    ensures ConsistentMembers(members, fields[name := value])
  {
    if |members| > 0 {
      AddField(members[1..], fields, name, value);
    }
  }

  /** The comparison is symmetric on all trees, even with fractions and repeated names. */
  lemma {:induction false} EqualIsSymmetric(a: Json, b: Json)
    ensures Equal(a, b) <==> Equal(b, a)
    decreases a, 1
  {
    match (a, b)
    case (Array(xs), Array(ys)) => EqualItemsSymmetric(xs, ys);
    case _ =>
  }

  lemma {:induction false} EqualItemsSymmetric(xs: seq<Json>, ys: seq<Json>)
    ensures EqualItems(xs, ys) <==> EqualItems(ys, xs)
    decreases xs, 0
  {
    if |xs| > 0 && |ys| > 0 {
      EqualIsSymmetric(xs[0], ys[0]);
      EqualItemsSymmetric(xs[1..], ys[1..]);
    }
  }
}
