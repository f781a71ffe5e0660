/** flatten and unflatten (json.hpp:9233-9287, 9601-9685). A value is flattened into an object that
    maps JSON pointers to primitive values; unflatten replays the entries in the order of the
    pointers' texts, so index 10 comes before index 2. The promise `j == j.flatten().unflatten()`
    (json.hpp:9856-9859) holds exactly for the `Recoverable` values. */
module JsonFlatten {
  import opened Strings
  import opened JsonValue
  import opened JsonPointer
  import opened Decimal
  import opened Ordering
  import opened JsonPatch
  import opened JsonPaths

  /** is_primitive. */
  predicate Primitive(j: Json) {
    !j.Arr? && !j.Obj?
  }

  // ----- flatten -----

  /** The entries that flatten adds for the value `j` at the reference string `ref`. */
  function Leaves(ref: string, j: Json): map<string, Json>
    decreases j, 1, 0
  {
    match j
    case Arr(a) => if a == [] then map[ref := Null] else ElementLeaves(ref, j, 0)
    case Obj(m) => if m == map[] then map[ref := Null] else MemberLeaves(ref, j, SortedKeys(m.Keys))
    case _ => map[ref := j]
  }

  function ElementLeaves(ref: string, j: Json, i: nat): map<string, Json>
    requires j.Arr?
    decreases j, 0, |j.elems| - i
  {
    if i >= |j.elems| then map[]
    else Leaves(IndexPath(ref, i), j.elems[i]) + ElementLeaves(ref, j, i + 1)
  }

  function MemberLeaves(ref: string, j: Json, keys: seq<string>): map<string, Json>
    requires j.Obj? && forall i | 0 <= i < |keys| :: keys[i] in j.members
    decreases j, 0, |keys|
  {
    if keys == [] then map[]
    else Leaves(KeyPath(ref, keys[0]), j.members[keys[0]]) + MemberLeaves(ref, j, keys[1..])
  }

  function Flattened(j: Json): Json {
    Obj(Leaves("", j))
  }

  /** The recursive helper (json.hpp:9601-9652), which adds to the object it is given. */
  method FlattenInto(ref: string, j: Json, result: map<string, Json>) returns (r: map<string, Json>)
    ensures r == result + Leaves(ref, j)
    decreases j, 1
  {
    hide ElementLeaves, MemberLeaves, SortedKeys;
    if j.Arr? && j.elems != [] {
      r := FlattenElements(ref, j, result);
    } else if j.Obj? && j.members != map[] {
      r := FlattenMembers(ref, j, result);
    } else if Primitive(j) {
      r := result[ref := j];
    } else {
      r := result[ref := Null];
    }
  }

  method FlattenElements(ref: string, j: Json, result: map<string, Json>) returns (r: map<string, Json>)
    requires j.Arr?
    ensures r == result + ElementLeaves(ref, j, 0)
    decreases j, 0
  {
    hide Leaves, IndexPath;
    r := result;
    for i := 0 to |j.elems|
      invariant result + ElementLeaves(ref, j, 0) == r + ElementLeaves(ref, j, i)
    {
      MergeAssociative(r, Leaves(IndexPath(ref, i), j.elems[i]), ElementLeaves(ref, j, i + 1));
      r := FlattenInto(IndexPath(ref, i), j.elems[i], r);
    }
  }

  method FlattenMembers(ref: string, j: Json, result: map<string, Json>) returns (r: map<string, Json>)
    requires j.Obj?
    ensures r == result + MemberLeaves(ref, j, SortedKeys(j.members.Keys))
    decreases j, 0
  {
    hide Leaves, KeyPath, SortedKeys, MemberLeaves;
    var m, keys := j.members, SortedKeys(j.members.Keys);
    r := result;
    for i := 0 to |keys|
      invariant result + MemberLeaves(ref, j, keys) == r + MemberLeaves(ref, j, keys[i..])
    {
      var k := keys[i];
      assert k in keys;
      MemberStep(ref, j, keys, i);
      MergeAssociative(r, Leaves(KeyPath(ref, k), m[k]), MemberLeaves(ref, j, keys[i + 1..]));
      var below := PathBelow(ref, k);
      r := FlattenInto(below, m[k], r);
    }
    MemberStep(ref, j, keys, |keys|);
  }

  lemma MemberStep(ref: string, j: Json, keys: seq<string>, i: nat)
    requires j.Obj? && i <= |keys| && forall n | 0 <= n < |keys| :: keys[n] in j.members
    ensures MemberLeaves(ref, j, keys[i..]) ==
            if i == |keys| then map[]
            else Leaves(KeyPath(ref, keys[i]), j.members[keys[i]]) + MemberLeaves(ref, j, keys[i + 1..])
  {
    hide Leaves, KeyPath;
    if i < |keys| {
      assert keys[i..][1..] == keys[i + 1..];
    }
  }

  method Flatten(j: Json) returns (r: Json)
    ensures r == Flattened(j)
  {
    hide Leaves;
    var result := FlattenInto("", j, map[]);
    r := Obj(result);
  }

  lemma MergeAssociative(a: map<string, Json>, b: map<string, Json>, c: map<string, Json>)
    ensures a + (b + c) == a + b + c
  {
  }

  // ----- unflatten -----

  /** The assignment through get_and_create (json.hpp:9233-9287): the walk makes the containers that
      are missing, an array where a null meets the token "0" and an object where it meets any other. */
  function Create(j: Json, tokens: seq<string>, v: Json): Result<Json>
    decreases |tokens|
  {
    if tokens == [] then Ok(v)
    else match j
      case Null =>
        var child :- Create(Null, tokens[1..], v);
        Ok(if tokens[0] == "0" then Arr([child]) else Obj(map[tokens[0] := child]))
      case Obj(m) =>
        var child :- Create(Child(m, tokens[0]), tokens[1..], v);
        Ok(Obj(m[tokens[0] := child]))
      case Arr(a) =>
        var i :- Stoi(tokens[0]);
        if i < 0 then Err(LengthError)
        else
          var child :- Create(Padded(a, i)[i], tokens[1..], v);
          Ok(Arr(Padded(a, i)[i := child]))
      case _ => Err(DomainError)
  }

  /** `operator[](key)` on an object makes a null member. */
  function Child(m: map<string, Json>, k: string): Json {
    if k in m then m[k] else Null
  }

  function Replay(result: Json, m: map<string, Json>, keys: seq<string>): Result<Json>
    requires forall i | 0 <= i < |keys| :: keys[i] in m
    decreases |keys|
  {
    if keys == [] then Ok(result)
    else if !Primitive(m[keys[0]]) then Err(DomainError)
    else
      var tokens :- Split(keys[0]);
      var next :- Create(result, tokens, m[keys[0]]);
      Replay(next, m, keys[1..])
  }

  function Unflattened(value: Json): Result<Json> {
    if !value.Obj? then Err(DomainError)
    else Replay(Null, value.members, SortedKeys(value.members.Keys))
  }

  /** The loop of unflatten (json.hpp:9659-9685). */
  method Unflatten(value: Json) returns (r: Result<Json>)
    ensures r == Unflattened(value)
  {
    hide Create, Split, SortedKeys;
    if !value.Obj? {
      return Err(DomainError);
    }
    var m := value.members;
    var keys := SortedKeys(m.Keys);
    var result := Null;
    for i := 0 to |keys|
      invariant Replay(Null, m, keys) == Replay(result, m, keys[i..])
    {
      var k := keys[i];
      assert k in keys && keys[i..][1..] == keys[i + 1..];
      if !Primitive(m[k]) {
        return Err(DomainError);
      }
      var tokens := Split(k);
      if tokens.Err? {
        return Err(tokens.error);
      }
      var next := Create(result, tokens.value, m[k]);
      if next.Err? {
        return Err(next.error);
      }
      result := next.value;
    }
    r := Ok(result);
  }

  // ----- which values come back -----

  /** The token under which the first entry of the flattened object lies. */
  function FirstToken(j: Json): Option<string> {
    var keys := SortedKeys(Flattened(j).members.Keys);
    if keys == [] then None
    else match Split(keys[0])
      case Ok(tokens) => if tokens == [] then None else Some(tokens[0])
      case Err(_) => None
  }

  predicate Container(j: Json) {
    (j.Arr? && j.elems != []) || (j.Obj? && j.members != map[])
  }

  /** The entries below the member `k` come before those of the member "0", whose value is `zero`: in the
      order of their texts, in which '/' ends a key and stands for itself as "~1". */
  predicate BeforeZero(k: string, zero: Json) {
    || k == ""
    || (k[0] < '0' && k[0] != '/')
    || (Container(zero) && |k| >= 2 && k[0] == '0' && k[1] < '/')
  }

  /** The entries of the member "0" come first. */
  predicate ZeroFirst(m: map<string, Json>) {
    "0" in m && forall k | k in m && k != "0" :: !BeforeZero(k, m["0"])
  }

  /** No empty container, no array with an index that `stoi` rejects, and no object whose first flattened
      entry belongs to the member "0" and so looks like the first element of an array. */
  predicate Recoverable(j: Json) {
    match j
    case Arr(a) => 0 < |a| <= TWO31 && forall i | 0 <= i < |a| :: Recoverable(a[i])
    case Obj(m) => m != map[] && !ZeroFirst(m) && forall k | k in m :: Recoverable(m[k])
    case _ => true
  }

  // ----- leaves by token path -----

  function IndexOf(token: string): Option<nat> {
    if token != "" && AllDigits(token) && DecimalText(DigitsValue(token)) == token then Some(DigitsValue(token))
        else None
  }

  lemma IndexOfDecimal(i: nat)
    ensures IndexOf(DecimalText(i)) == Some(i)
  {
    DecimalValue(i);
  }

  /** What flatten stores at a path, if it stores anything there. */
  function Leaf(j: Json, ts: seq<string>): Option<Json>
    decreases |ts|
  {
    match j
    case Arr(a) =>
      if a == [] then (if ts == [] then Some(Null) else None)
      else if ts == [] then None
      else
        (match IndexOf(ts[0])
         case None => None
         case Some(i) => if i < |a| then Leaf(a[i], ts[1..]) else None)
    case Obj(m) =>
      if m == map[] then (if ts == [] then Some(Null) else None)
      else if ts != [] && ts[0] in m then Leaf(m[ts[0]], ts[1..])
      else None
    case _ => if ts == [] then Some(j) else None
  }

  /** Every key of the flattened value is the text of a leaf's path. */
  ghost predicate Sound(entries: map<string, Json>, q: seq<string>, j: Json) {
    forall x | x in entries :: EntryIsLeaf(x, entries[x], q, j)
  }

  predicate EntryIsLeaf(x: string, v: Json, q: seq<string>, j: Json) {
    && Split(x).Ok?
    && q <= Split(x).value
    && Leaf(j, Split(x).value[|q|..]) == Some(v)
  }

  lemma {:induction false} LeavesAreSound(q: seq<string>, j: Json)
    ensures Sound(Leaves(ToString(q), j), q, j)
    decreases j, 1, 0
  {
    hide ToString, Split, SortedKeys, ElementLeaves, MemberLeaves, EntryIsLeaf;
    match j
    case Arr(a) =>
      if a == [] { HereIsLeaf(q, j, Null); } else { ElementsAreSound(q, j, 0); }
    case Obj(m) =>
      if m == map[] { HereIsLeaf(q, j, Null); } else { MembersAreSound(q, j, SortedKeys(m.Keys)); }
    case _ => HereIsLeaf(q, j, j);
  }

  lemma HereIsLeaf(q: seq<string>, j: Json, v: Json)
    requires Leaf(j, []) == Some(v)
    ensures EntryIsLeaf(ToString(q), v, q, j)
  {
    hide ToString, Split, Leaf;
    SplitOfToString(q);
    assert q[|q|..] == [];
  }

  lemma {:induction false} ElementsAreSound(q: seq<string>, j: Json, i: nat)
    requires j.Arr? && j.elems != []
    ensures Sound(ElementLeaves(ToString(q), j, i), q, j)
    decreases j, 0, |j.elems| - i
  {
    hide ToString, Leaves, EntryIsLeaf, IndexPath, DecimalText;
    if i < |j.elems| {
      LeavesAreSound(q + [DecimalText(i)], j.elems[i]);
      IndexPathText(q, i);
      ElementsAreSound(q, j, i + 1);
      var head := Leaves(IndexPath(ToString(q), i), j.elems[i]);
      forall x | x in head ensures EntryIsLeaf(x, head[x], q, j) {
        LeafOfElement(x, head[x], q, j, i);
      }
    }
  }

  lemma LeafOfElement(x: string, v: Json, q: seq<string>, j: Json, i: nat)
    requires j.Arr? && i < |j.elems| && EntryIsLeaf(x, v, q + [DecimalText(i)], j.elems[i])
    ensures EntryIsLeaf(x, v, q, j)
  {
    hide Split, DecimalText, IndexOf;
    IndexOfDecimal(i);
    TailOfPrefix(q, DecimalText(i), Split(x).value);
  }

  lemma TailOfPrefix(q: seq<string>, t: string, w: seq<string>)
    requires q + [t] <= w
    ensures q <= w && w[|q|..] != [] && w[|q|..][0] == t && w[|q|..][1..] == w[|q + [t]|..]
  {
    assert (q + [t])[|q|] == t;
  }

  lemma {:induction false} MembersAreSound(q: seq<string>, j: Json, keys: seq<string>)
    requires j.Obj? && j.members != map[] && forall i | 0 <= i < |keys| :: keys[i] in j.members
    ensures Sound(MemberLeaves(ToString(q), j, keys), q, j)
    decreases j, 0, |keys|
  {
    hide ToString, Leaves, EntryIsLeaf, KeyPath;
    if keys != [] {
      var k := keys[0];
      LeavesAreSound(q + [k], j.members[k]);
      KeyPathText(q, k);
      MembersAreSound(q, j, keys[1..]);
      var head := Leaves(KeyPath(ToString(q), k), j.members[k]);
      forall x | x in head ensures EntryIsLeaf(x, head[x], q, j) {
        LeafOfMember(x, head[x], q, j, k);
      }
    }
  }

  lemma LeafOfMember(x: string, v: Json, q: seq<string>, j: Json, k: string)
    requires j.Obj? && k in j.members && EntryIsLeaf(x, v, q + [k], j.members[k])
    ensures EntryIsLeaf(x, v, q, j)
  {
    hide Split;
    TailOfPrefix(q, k, Split(x).value);
  }

  /** Every leaf has an entry. */
  lemma {:induction false} LeavesAreComplete(q: seq<string>, j: Json, ts: seq<string>)
    requires Leaf(j, ts).Some?
    ensures ToString(q + ts) in Leaves(ToString(q), j)
    decreases |ts|
  {
    hide ToString, IndexOf, SortedKeys, DecimalText;
    if ts == [] {
      assert q + ts == q;
    } else {
      assert q + ts == q + [ts[0]] + ts[1..];
      match j
      case Arr(a) =>
        var i := IndexOf(ts[0]).value;
        assert DecimalText(i) == ts[0] by { IndexOfToken(ts[0]); }
        LeavesAreComplete(q + [ts[0]], a[i], ts[1..]);
        IndexPathText(q, i);
        ElementEntry(ToString(q), j, 0, i, ToString(q + ts));
      case Obj(m) =>
        LeavesAreComplete(q + [ts[0]], m[ts[0]], ts[1..]);
        KeyPathText(q, ts[0]);
        assert ts[0] in SortedKeys(m.Keys);
        MemberEntry(ToString(q), j, SortedKeys(m.Keys), ts[0], ToString(q + ts));
      case _ =>
    }
  }

  lemma IndexOfToken(t: string)
    requires IndexOf(t).Some?
    ensures DecimalText(IndexOf(t).value) == t
  {
  }

  lemma {:induction false} ElementEntry(ref: string, j: Json, from: nat, i: nat, x: string)
    requires j.Arr? && from <= i < |j.elems| && x in Leaves(IndexPath(ref, i), j.elems[i])
    ensures x in ElementLeaves(ref, j, from)
    decreases i - from
  {
    hide Leaves, IndexPath;
    if from < i {
      ElementEntry(ref, j, from + 1, i, x);
    }
  }

  lemma {:induction false} MemberEntry(ref: string, j: Json, keys: seq<string>, k: string, x: string)
    requires j.Obj? && (forall i | 0 <= i < |keys| :: keys[i] in j.members) && k in keys
    requires x in Leaves(KeyPath(ref, k), j.members[k])
    ensures x in MemberLeaves(ref, j, keys)
    decreases |keys|
  {
    hide Leaves, KeyPath;
    if k != keys[0] {
      MemberEntry(ref, j, keys[1..], k, x);
    }
  }
}
