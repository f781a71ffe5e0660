/** What unflatten does with any object, not only a flattened one (json.hpp:9233-9287, 9655-9685): where an
    assignment succeeds, where its value can be found afterwards, and what stays as it was. */
module JsonRebuild {
  import opened Strings
  import opened JsonValue
  import opened JsonPointer
  import opened Decimal
  import opened Ordering
  import opened JsonPatch
  import opened JsonFlatten

  /** The containers that a path makes where there is nothing. */
  function Nested(ts: seq<string>, v: Json): Json {
    if ts == [] then v
    else if ts[0] == "0" then Arr([Nested(ts[1..], v)])
    else Obj(map[ts[0] := Nested(ts[1..], v)])
  }

  /** The value that a path leads to, with indices as `stoi` reads them. */
  function Reaches(j: Json, ts: seq<string>): Option<Json>
    decreases |ts|
  {
    if ts == [] then Some(j)
    else match j
      case Obj(m) => if ts[0] in m then Reaches(m[ts[0]], ts[1..]) else None
      case Arr(a) => if Indexes(ts[0], |a|) then Reaches(a[Stoi(ts[0]).value], ts[1..]) else None
      case _ => None
  }

  predicate Indexes(t: string, size: nat) {
    Stoi(t).Ok? && 0 <= Stoi(t).value < size
  }

  /** No value that is neither null nor a container stands on the path, and no token that is not an index
      stands in front of an array. */
  predicate Passable(j: Json, ts: seq<string>)
    decreases |ts|
  {
    ts != [] ==>
      match j
      case Null => true
      case Obj(m) => ts[0] in m ==> Passable(m[ts[0]], ts[1..])
      case Arr(a) =>
        && Stoi(ts[0]).Ok? && Stoi(ts[0]).value >= 0
        && (Indexes(ts[0], |a|) ==> Passable(a[Stoi(ts[0]).value], ts[1..]))
      case _ => false
  }

  lemma {:induction false} CreateFromNothing(ts: seq<string>, v: Json)
    ensures Create(Null, ts, v) == Ok(Nested(ts, v))
    decreases |ts|
  {
    if ts != [] {
      CreateFromNothing(ts[1..], v);
    }
  }

  /** An assignment succeeds exactly when its path is passable. */
  lemma {:induction false} CreateSucceedsIff(j: Json, ts: seq<string>, v: Json)
    ensures Create(j, ts, v).Ok? <==> Passable(j, ts)
    decreases |ts|
  {
    hide Stoi;
    if ts != [] {
      match j
      case Null => CreateFromNothing(ts, v);
      case Obj(m) =>
        CreateSucceedsIff(JsonFlatten.Child(m, ts[0]), ts[1..], v);
        NullIsPassable(ts[1..]);
      case Arr(a) =>
        var i := Stoi(ts[0]);
        if i.Ok? && i.value >= 0 {
          CreateSucceedsIff(Padded(a, i.value)[i.value], ts[1..], v);
          NullIsPassable(ts[1..]);
          PaddedNull(a, i.value);
        }
      case _ =>
    }
  }

  lemma NullIsPassable(ts: seq<string>)
    ensures Passable(Null, ts)
  {
  }

  lemma PaddedNull(a: seq<Json>, i: nat)
    ensures |Padded(a, i)| == (if i < |a| then |a| else i + 1)
    ensures forall k | 0 <= k < |Padded(a, i)| :: Padded(a, i)[k] == if k < |a| then a[k] else Null
  {
  }

  /** Afterwards its path leads to the value. */
  lemma {:induction false} CreateReaches(j: Json, ts: seq<string>, v: Json)
    requires Create(j, ts, v).Ok?
    ensures Reaches(Create(j, ts, v).value, ts) == Some(v)
    decreases |ts|
  {
    hide Stoi;
    if ts != [] {
      match j
      case Null =>
        CreateReaches(Null, ts[1..], v);
        StoiOfZero();
      case Obj(m) => CreateReaches(JsonFlatten.Child(m, ts[0]), ts[1..], v);
      case Arr(a) =>
        var i := Stoi(ts[0]).value;
        PaddedNull(a, i);
        CreateReaches(Padded(a, i)[i], ts[1..], v);
    }
  }

  lemma StoiOfZero()
    ensures Stoi("0") == Ok(0)
  {
    StoiOfDecimal(0);
  }

  /** The other path goes another way somewhere. */
  predicate Parts(j: Json, ts: seq<string>, us: seq<string>)
    decreases |ts|
  {
    && ts != [] && us != []
    && match j
       case Obj(m) => us[0] in m && (ts[0] != us[0] || Parts(m[us[0]], ts[1..], us[1..]))
       case Arr(a) =>
         && Stoi(ts[0]).Ok? && Indexes(us[0], |a|)
         && (Stoi(ts[0]) != Stoi(us[0]) || Parts(a[Stoi(us[0]).value], ts[1..], us[1..]))
       case _ => false
  }

  /** What lies on another path stays as it was. */
  lemma {:induction false} CreateLeavesOthers(j: Json, ts: seq<string>, v: Json, us: seq<string>)
    requires Create(j, ts, v).Ok? && Parts(j, ts, us)
    ensures Reaches(Create(j, ts, v).value, us) == Reaches(j, us)
    decreases |ts|
  {
    hide Stoi;
    match j
    case Obj(m) =>
      if ts[0] == us[0] {
        CreateLeavesOthers(m[us[0]], ts[1..], v, us[1..]);
      }
    case Arr(a) =>
      var i := Stoi(ts[0]).value;
      PaddedNull(a, i);
      if Stoi(ts[0]) == Stoi(us[0]) {
        CreateLeavesOthers(a[i], ts[1..], v, us[1..]);
      }
  }

  /** The members and elements that an assignment adds: its own child, and nulls in front of it. */
  lemma CreateGrows(j: Json, ts: seq<string>, v: Json)
    requires Create(j, ts, v).Ok? && ts != []
    ensures var r := Create(j, ts, v).value;
            match j
            case Obj(m) => r.Obj? && r.members.Keys == m.Keys + {ts[0]}
            case Arr(a) =>
              var i := Stoi(ts[0]).value;
              && r.Arr? && |r.elems| == (if i < |a| then |a| else i + 1)
              && forall k | |a| <= k < |r.elems| && k != i :: r.elems[k] == Null
            case _ => r == Nested(ts, v)
  {
    hide Stoi;
    match j
    case Null => CreateFromNothing(ts, v);
    case Obj(m) =>
    case Arr(a) => PaddedNull(a, Stoi(ts[0]).value);
  }

  /** The error of an assignment that fails is that of the first token that does not lead on. */
  lemma {:induction false} CreateError(j: Json, ts: seq<string>, v: Json)
    requires ts != [] && Create(j, ts, v).Err?
    ensures var e := Create(j, ts, v).error;
            match j
            case Obj(m) => ts[0] in m && Create(m[ts[0]], ts[1..], v) == Err(e)
            case Arr(a) =>
              if Stoi(ts[0]).Err? then e == Stoi(ts[0]).error
              else if Stoi(ts[0]).value < 0 then e == LengthError
              else Indexes(ts[0], |a|) && Create(a[Stoi(ts[0]).value], ts[1..], v) == Err(e)
            case _ => j != Null && e == DomainError
  {
    hide Stoi;
    match j
    case Null => CreateFromNothing(ts, v);
    case Obj(m) => CreateFromNothing(ts[1..], v);
    case Arr(a) =>
      CreateFromNothing(ts[1..], v);
      if Stoi(ts[0]).Ok? && Stoi(ts[0]).value >= 0 {
        PaddedNull(a, Stoi(ts[0]).value);
      }
    case _ =>
  }

  // ----- unflatten -----

  /** One entry. */
  lemma UnflattenOne(ts: seq<string>, v: Json)
    ensures Unflattened(Obj(map[ToString(ts) := v])) ==
            if Primitive(v) then Ok(Nested(ts, v)) else Err(DomainError)
  {
    hide ToString, Split, Create, SortedKeys;
    var k := ToString(ts);
    var m := map[k := v];
    var keys := SortedKeys(m.Keys);
    assert m.Keys == {k};
    assert |keys| == 1 && keys[0] in keys && keys[0] == k && keys[1..] == [];
    SplitOfToString(ts);
    CreateFromNothing(ts, v);
    if Primitive(v) {
      assert Replay(Nested(ts, v), m, keys[1..]) == Ok(Nested(ts, v));
    }
  }

  /** Only objects of primitive values under well-formed pointers can be unflattened. */
  lemma UnflattenNeeds(value: Json, k: string)
    ensures !value.Obj? ==> Unflattened(value) == Err(DomainError)
    ensures Unflattened(value).Ok? && k in value.members ==> Primitive(value.members[k]) && Split(k).Ok?
  {
    hide Split, Create, SortedKeys;
    if Unflattened(value).Ok? && k in value.members {
      var keys := SortedKeys(value.members.Keys);
      assert k in keys;
      var i :| 0 <= i < |keys| && keys[i] == k;
      ReplayNeeds(Null, value.members, keys, i);
    }
  }

  lemma {:induction false} ReplayNeeds(result: Json, m: map<string, Json>, keys: seq<string>, i: nat)
    requires (forall n | 0 <= n < |keys| :: keys[n] in m) && i < |keys| && Replay(result, m, keys).Ok?
    ensures Primitive(m[keys[i]]) && Split(keys[i]).Ok?
    decreases |keys|
  {
    hide Split, Create;
    if i > 0 {
      ReplayNeeds(Create(result, Split(keys[0]).value, m[keys[0]]).value, m, keys[1..], i - 1);
    }
  }

  /** A value under a value cannot be put anywhere. */
  lemma UnderPrimitive(v: Json, w: Json, t: string, rest: seq<string>)
    requires Primitive(v) && v != Null
    ensures Create(v, [t] + rest, w) == Err(DomainError)
  {
  }
}
