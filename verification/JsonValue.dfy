/** The JSON value of iotchain/include/json.hpp, without floating-point numbers, together with the
    errors its operations throw and its comparison operator. */
module JsonValue {

  const TWO63: int := 0x8000_0000_0000_0000
  const TWO64: int := 0x1_0000_0000_0000_0000

  type Int64 = i: int | -TWO63 <= i < TWO63
  type Uint64 = u: int | 0 <= u < TWO64

  /** Objects are string-keyed maps; whoever walks one does so in the order of `Ordering.SortedKeys`. */
  datatype Json =
    | Null
    | Bool(b: bool)
    | Str(s: string)
    | Int(i: Int64)
    | Uint(u: Uint64)
    | Arr(elems: seq<Json>)
    | Obj(members: map<string, Json>)

  /** The exception classes that json.hpp throws. `Aborted` stands for a failed `assert`, and
      `FloatingPoint` for a number that the parser would store as a float. */
  datatype Error = OutOfRange | DomainError | InvalidArgument | LengthError | Aborted | FloatingPoint

  datatype Result<+T> = Ok(value: T) | Err(error: Error) {
    predicate IsFailure() {
      Err?
    }

    function PropagateFailure<U>(): Result<U>
      requires Err?
    {
      Err(error)
    }

    function Extract(): T
      requires Ok?
    {
      value
    }
  }

  /** `static_cast<int64_t>` of an unsigned value. */
  function ToSigned(u: Uint64): Int64 {
    if u < TWO63 then u else u - TWO64
  }

  /** operator== (json.hpp:5523-5596). Signed and unsigned numbers are compared after a cast to
      signed, so a large unsigned number equals the negative one with the same bits. */
  predicate Equal(x: Json, y: Json)
    decreases x
  {
    match (x, y)
    case (Null, Null) => true
    case (Bool(a), Bool(b)) => a == b
    case (Str(a), Str(b)) => a == b
    case (Int(a), Int(b)) => a == b
    case (Uint(a), Uint(b)) => a == b
    case (Uint(a), Int(b)) => ToSigned(a) == b
    case (Int(a), Uint(b)) => a == ToSigned(b)
    case (Arr(a), Arr(b)) => |a| == |b| && forall i | 0 <= i < |a| :: Equal(a[i], b[i])
    case (Obj(a), Obj(b)) => a.Keys == b.Keys && forall k | k in a :: Equal(a[k], b[k])
    case _ => false
  }

  /** `type()`: whether two values have the same type tag. */
  predicate SameType(x: Json, y: Json) {
    match x
    case Null => y.Null?
    case Bool(_) => y.Bool?
    case Str(_) => y.Str?
    case Int(_) => y.Int?
    case Uint(_) => y.Uint?
    case Arr(_) => y.Arr?
    case Obj(_) => y.Obj?
  }

  lemma {:induction false} EqualReflexive(x: Json)
    ensures Equal(x, x)
  {
    match x
    case Arr(a) =>
      forall i | 0 <= i < |a| ensures Equal(a[i], a[i]) {
        EqualReflexive(a[i]);
      }
    case Obj(m) =>
      forall k | k in m ensures Equal(m[k], m[k]) {
        EqualReflexive(m[k]);
      }
    case _ =>
  }

  /** The value with every number replaced by the signed one with the same 64 bits. */
  function SignedBits(x: Json): Json {
    match x
    case Uint(u) => Int(if u >= TWO63 then u - TWO64 else u)
    case Arr(a) => Arr(seq(|a|, i requires 0 <= i < |a| => SignedBits(a[i])))
    case Obj(m) => Obj(map k | k in m :: SignedBits(m[k]))
    case _ => x
  }

  /** The comparison finds values equal exactly when they are the same but for the signedness of numbers
      with the same bits; so it is an equivalence. */
  lemma {:induction false} EqualIffSameBits(x: Json, y: Json)
    ensures Equal(x, y) <==> SignedBits(x) == SignedBits(y)
    decreases x
  {
    match (x, y)
    case (Arr(a), Arr(b)) =>
      forall i | 0 <= i < |a| && i < |b| ensures Equal(a[i], b[i]) <==> SignedBits(a[i]) == SignedBits(b[i]) {
        EqualIffSameBits(a[i], b[i]);
      }
      SameElements(a, b);
    case (Obj(m), Obj(n)) =>
      forall k | k in m && k in n ensures Equal(m[k], n[k]) <==> SignedBits(m[k]) == SignedBits(n[k]) {
        EqualIffSameBits(m[k], n[k]);
      }
      SameMembers(m, n);
    case _ =>
  }

  lemma SameElements(a: seq<Json>, b: seq<Json>)
    ensures SignedBits(Arr(a)) == SignedBits(Arr(b)) <==>
            |a| == |b| && forall i | 0 <= i < |a| :: SignedBits(a[i]) == SignedBits(b[i])
  {
    var s, t := SignedBits(Arr(a)).elems, SignedBits(Arr(b)).elems;
    assert |s| == |a| && forall i | 0 <= i < |a| :: s[i] == SignedBits(a[i]);
    assert |t| == |b| && forall i | 0 <= i < |b| :: t[i] == SignedBits(b[i]);
  }

  lemma SameMembers(m: map<string, Json>, n: map<string, Json>)
    ensures SignedBits(Obj(m)) == SignedBits(Obj(n)) <==>
            m.Keys == n.Keys && forall k | k in m :: SignedBits(m[k]) == SignedBits(n[k])
  {
    hide SignedBits;
    MembersBits(m);
    MembersBits(n);
    SameMaps(SignedBits(Obj(m)).members, SignedBits(Obj(n)).members);
  }

  lemma MembersBits(m: map<string, Json>)
    ensures SignedBits(Obj(m)).Obj? && SignedBits(Obj(m)).members.Keys == m.Keys
    ensures forall k | k in m :: SignedBits(Obj(m)).members[k] == SignedBits(m[k])
  {
  }

  lemma SameMaps<V>(s: map<string, V>, t: map<string, V>)
    ensures s == t <==> s.Keys == t.Keys && forall k | k in s.Keys :: s[k] == t[k]
  {
  }
}
