/** JSON values, equality across the two integer kinds, and the order of object keys. Characters are bytes. */
module JsonValue {
  import opened Words

  datatype Member = Member(key: string, value: Value)

  /** An object is a map kept in key order, as `std::map` keeps it. A double is known only by its text. */
  datatype Value =
    | Null
    | Bool(bit: bool)
    | Int(i: i64)
    | UInt(u: u64)
    | Double(token: string)
    | String(s: string)
    | Array(items: seq<Value>)
    | Object(members: seq<Member>)

  // -------------------------------------------------------------------------
  // Key order
  // -------------------------------------------------------------------------

  /** Byte-wise lexicographic order. */
  predicate Less(a: string, b: string) {
    b != "" && (a == "" || a[0] < b[0] || (a[0] == b[0] && Less(a[1..], b[1..])))
  }

  lemma {:induction false} LessIsStrict(a: string, b: string)
    ensures Less(a, b) ==> a != b && !Less(b, a)
    ensures !Less(a, b) && !Less(b, a) ==> a == b
  {
    if a != "" && b != "" && a[0] == b[0] {
      LessIsStrict(a[1..], b[1..]);
      assert a == [a[0]] + a[1..] && b == [b[0]] + b[1..];
    }
  }

  lemma {:induction false} LessIsTransitive(a: string, b: string, c: string)
    requires Less(a, b) && Less(b, c)
    ensures Less(a, c)
  {
    if a != "" && a[0] == b[0] == c[0] {
      LessIsTransitive(a[1..], b[1..], c[1..]);
    }
  }

  /** Keys strictly increase. */
  predicate Sorted(members: seq<Member>) {
    forall i, j :: 0 <= i < j < |members| ==> Less(members[i].key, members[j].key)
  }

  /** Every key comes before `key`. */
  predicate Before(members: seq<Member>, key: string) {
    forall i :: 0 <= i < |members| ==> Less(members[i].key, key)
  }

  // -------------------------------------------------------------------------
  // Values
  // -------------------------------------------------------------------------

  /** Object keys strictly increase, at every level. */
  predicate Proper(v: Value) {
    match v
    case Array(items) => forall i :: 0 <= i < |items| ==> Proper(items[i])
    case Object(members) => Sorted(members) && forall i :: 0 <= i < |members| ==> Proper(members[i].value)
    case _ => true
  }

  predicate DoubleFree(v: Value) {
    match v
    case Double(_) => false
    case Array(items) => forall i :: 0 <= i < |items| ==> DoubleFree(items[i])
    case Object(members) => forall i :: 0 <= i < |members| ==> DoubleFree(members[i].value)
    case _ => true
  }

  /** No part of the value has more than `room` containers around it. */
  predicate Fits(v: Value, room: int) {
    && room >= 0
    && match v
       case Array(items) => forall i :: 0 <= i < |items| ==> Fits(items[i], room - 1)
       case Object(members) => forall i :: 0 <= i < |members| ==> Fits(members[i].value, room - 1)
       case _ => true
  }

  /** `operator==`. */
  predicate Eq(a: Value, b: Value) {
    match (a, b)
    case (Int(i), UInt(u)) => AsInt(a) >= 0 && AsInt(b) >= 0 && AsUInt(a) == AsUInt(b)
    case (UInt(u), Int(i)) => AsInt(a) >= 0 && AsInt(b) >= 0 && AsUInt(a) == AsUInt(b)
    case (Array(x), Array(y)) => |x| == |y| && forall i :: 0 <= i < |x| ==> Eq(x[i], y[i])
    case (Object(x), Object(y)) => |x| == |y| && forall i :: 0 <= i < |x| ==>
        x[i].key == y[i].key && Eq(x[i].value, y[i].value)
    case _ => a == b
  }

  /** `as_int` on an integer: the upper half of the unsigned range turns negative. */
  function AsInt(v: Value): i64
    requires v.Int? || v.UInt?
  {
    if v.Int? then v.i else if v.u < I64_LIMIT then v.u else v.u - U64_LIMIT
  }

  /** `as_uint` on an integer: negative numbers fall back to zero. */
  function AsUInt(v: Value): u64
    requires v.Int? || v.UInt?
  {
    if v.UInt? then v.u else if v.i < 0 then 0 else v.i
  }

  /** The value with every non-negative integer in its unsigned form, under which equal integers are identical. */
  function Norm(v: Value): (n: Value)
    ensures v.Array? ==> n.Array? && |n.items| == |v.items| && forall i :: 0 <= i < |v.items| ==>
            n.items[i] == Norm(v.items[i])
    ensures v.Object? ==>
              n.Object? && |n.members| == |v.members|
              && forall i :: 0 <= i < |v.members| ==> n.members[i] == Member(v.members[i].key, Norm(v.members[i].value))
    ensures v.Int? || v.UInt? ==> n.Int? || n.UInt?
    ensures !v.Array? && !v.Object? && !v.Int? ==> n == v
  {
    match v
    case Int(i) => if i >= 0 then UInt(i) else v
    case Array(items) => Array(NormItems(items))
    case Object(members) => Object(NormMembers(members))
    case _ => v
  }

  function NormItems(items: seq<Value>): (n: seq<Value>)
    ensures |n| == |items| && forall i :: 0 <= i < |items| ==> n[i] == Norm(items[i])
  {
    if items == [] then [] else [Norm(items[0])] + NormItems(items[1..])
  }

  function NormMembers(members: seq<Member>): (n: seq<Member>)
    ensures |n| == |members| && forall i :: 0 <= i < |members| ==>
            n[i] == Member(members[i].key, Norm(members[i].value))
  {
    if members == [] then [] else [Member(members[0].key, Norm(members[0].value))] + NormMembers(members[1..])
  }

  /** Two values are equal exactly when they normalize to one value. */
  lemma {:induction false} EqIsSameNorm(a: Value, b: Value)
    ensures Eq(a, b) <==> Norm(a) == Norm(b)
    decreases a
  {
    match (a, b)
    case (Array(x), Array(y)) =>
      if |x| == |y| {
        forall i | 0 <= i < |x| ensures Eq(x[i], y[i]) <==> Norm(x[i]) == Norm(y[i]) {
          EqIsSameNorm(x[i], y[i]);
        }
        SameItems(x, y);
      }
    case (Object(x), Object(y)) =>
      if |x| == |y| {
        forall i | 0 <= i < |x| ensures Eq(x[i].value, y[i].value) <==> Norm(x[i].value) == Norm(y[i].value) {
          EqIsSameNorm(x[i].value, y[i].value);
        }
        SameMembers(x, y);
      }
    case _ =>
  }

  lemma SameItems(x: seq<Value>, y: seq<Value>)
    requires |x| == |y|
    ensures NormItems(x) == NormItems(y) <==> forall i :: 0 <= i < |x| ==> Norm(x[i]) == Norm(y[i])
  {
    hide Norm;
    if NormItems(x) == NormItems(y) {
      forall i | 0 <= i < |x| ensures Norm(x[i]) == Norm(y[i]) {
        assert NormItems(x)[i] == NormItems(y)[i];
      }
    }
  }

  lemma SameMembers(x: seq<Member>, y: seq<Member>)
    requires |x| == |y|
    ensures NormMembers(x) == NormMembers(y) <==>
            forall i :: 0 <= i < |x| ==> x[i].key == y[i].key && Norm(x[i].value) == Norm(y[i].value)
  {
    hide Norm;
    if NormMembers(x) == NormMembers(y) {
      forall i | 0 <= i < |x| ensures x[i].key == y[i].key && Norm(x[i].value) == Norm(y[i].value) {
        assert NormMembers(x)[i] == NormMembers(y)[i];
      }
    }
  }

  /** Without doubles, `operator==` is an equivalence, across signed and unsigned integers too. */
  lemma EqIsEquivalence(a: Value, b: Value, c: Value)
    requires DoubleFree(a) && DoubleFree(b) && DoubleFree(c)
    ensures Eq(a, a)
    ensures Eq(a, b) ==> Eq(b, a)
    ensures Eq(a, b) && Eq(b, c) ==> Eq(a, c)
  {
    hide Eq, Norm;
    EqIsSameNorm(a, a);
    EqIsSameNorm(a, b);
    EqIsSameNorm(b, a);
    EqIsSameNorm(b, c);
    EqIsSameNorm(a, c);
  }

  lemma {:induction false} NormIsStable(v: Value)
    ensures Norm(Norm(v)) == Norm(v)
  {
    match v
    case Array(items) =>
      forall i | 0 <= i < |items| ensures Norm(Norm(items[i])) == Norm(items[i]) {
        NormIsStable(items[i]);
      }
      SameItems(NormItems(items), items);
    case Object(members) =>
      forall i | 0 <= i < |members| ensures Norm(Norm(members[i].value)) == Norm(members[i].value) {
        NormIsStable(members[i].value);
      }
      SameMembers(NormMembers(members), members);
    case _ =>
  }

  lemma NormIsEq(v: Value)
    ensures Eq(Norm(v), v)
  {
    hide Eq, Norm;
    NormIsStable(v);
    EqIsSameNorm(Norm(v), v);
  }
}
