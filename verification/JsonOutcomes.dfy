/** When each operation of a JSON Patch (RFC 6902, section 4) succeeds, what it leaves and how it fails
    (json.hpp:9920-10179), as conditions on the document and the pointer. */
module JsonOutcomes {
  import opened Strings
  import opened JsonValue
  import opened JsonPointer
  import opened Decimal
  import opened JsonPatch
  import opened JsonPaths
  import opened JsonDiff
  import opened JsonOperations

  function ReplaceOp(path: seq<string>, v: Json): Json {
    Document(Replace(ToString(path), v))
  }

  // ----- where the walk stops -----

  /** A pointer that does not resolve has a longest prefix that does. */
  lemma {:induction false} FirstMissing(doc: Json, p: seq<string>) returns (n: nat)
    requires GetChecked(doc, p).Err?
    ensures n < |p| && GetChecked(doc, p[..n]).Ok? && GetChecked(doc, p[..n] + [p[n]]).Err?
    decreases |p|
  {
    hide GetChecked;
    var front, last := p[..|p| - 1], p[|p| - 1] by { GetNothing(doc); }
    assert p == front + [last];
    if GetChecked(doc, front).Ok? {
      n := |p| - 1;
    } else {
      n := FirstMissing(doc, front);
      assert front[..n] == p[..n];
    }
  }

  lemma GetNothing(doc: Json)
    ensures GetChecked(doc, []) == Ok(doc)
  {
  }

  /** The child that a reference token names (RFC 6901, section 4), with the errors of `at`. */
  function Child(j: Json, t: string): Result<Json> {
    match j
    case Obj(m) => if t in m then Ok(m[t]) else Err(OutOfRange)
    case Arr(a) =>
      if t == "-" then Err(OutOfRange)
      else if LeadingZero(t) then Err(DomainError)
      else if Stoi(t).Err? then Err(Stoi(t).error)
      else if IndexIn(t, |a|) then Ok(a[Stoi(t).value]) else Err(OutOfRange)
    case _ => Err(OutOfRange)
  }

  predicate LeadingZero(t: string) {
    |t| > 1 && t[0] == '0'
  }

  predicate IndexIn(t: string, size: nat) {
    Stoi(t).Ok? && 0 <= Stoi(t).value < size
  }

  /** Resolution one token further. */
  lemma ResolveNext(doc: Json, p: seq<string>, t: string)
    ensures GetChecked(doc, p + [t]) ==
            if GetChecked(doc, p).Ok? then Child(GetChecked(doc, p).value, t) else GetChecked(doc, p)
  {
    hide GetChecked, Child;
    if GetChecked(doc, p).Ok? {
      GetAt(doc, p, [t]);
      ResolveOne(GetChecked(doc, p).value, t);
    } else {
      ResolveFails(doc, p, [t]);
    }
  }

  lemma ResolveOne(j: Json, t: string)
    ensures GetChecked(j, [t]) == Child(j, t)
  {
    hide Stoi;
    assert [t][1..] == [];
  }

  lemma {:induction false} ResolveFails(doc: Json, p: seq<string>, q: seq<string>)
    requires GetChecked(doc, p).Err?
    ensures GetChecked(doc, p + q) == GetChecked(doc, p)
    decreases |p|
  {
    hide CheckedIndex;
    if p != [] {
      assert (p + q)[1..] == p[1..] + q;
      match doc
      case Obj(m) =>
        if p[0] in m {
          ResolveFails(m[p[0]], p[1..], q);
        }
      case Arr(a) =>
        var i := CheckedIndex(p[0], |a|);
        if i.Ok? {
          ResolveFails(a[i.value], p[1..], q);
        }
      case _ =>
    }
  }

  // ----- what the unchecked walk makes -----

  /** `operator[]` on a value without a child for `t`: an object gets a member, an array grows to the
      index, anything else refuses; and a walk does not get through what it has just made. */
  function Made(j: Json, t: string, rest: seq<string>, v: Json): Result<Json> {
    match j
    case Obj(m) => if rest == [] then Ok(Obj(m[t := v])) else Err(OutOfRange)
    case Arr(a) =>
      if LeadingZero(t) then Err(DomainError)
      else if t != "-" && Stoi(t).Err? then Err(Stoi(t).error)
      else if t != "-" && Stoi(t).value < 0 then Err(LengthError)
      else if rest != [] then Err(OutOfRange)
      else Ok(Arr(a + Repeat(Null, Gap(t, |a|)) + [v]))
    case _ => Err(OutOfRange)
  }

  /** How many nulls lie between the elements and the new one. */
  function Gap(t: string, size: nat): nat {
    if t != "-" && Stoi(t).Ok? && Stoi(t).value > size then Stoi(t).value - size else 0
  }

  /** Whether there is room for a new child under `t`. */
  predicate CanMake(j: Json, t: string) {
    match j
    case Obj(m) => t !in m
    case Arr(a) => t == "-" || (!LeadingZero(t) && Stoi(t).Ok? && Stoi(t).value >= |a|)
    case _ => false
  }

  lemma MadeIff(j: Json, t: string, rest: seq<string>, v: Json)
    requires Child(j, t).Err?
    ensures Made(j, t, rest, v).Ok? <==> rest == [] && CanMake(j, t)
  {
    hide Stoi;
  }

  lemma EditMissing(j: Json, t: string, rest: seq<string>, e: Edit)
    requires Child(j, t).Err? && !e.Erase?
    ensures EditUnchecked(j, [t] + rest, e) ==
            Made(j, t, rest, if e.Assign? then e.value else Obj(map[e.last := e.value]))
  {
    hide Stoi;
    var v := if e.Assign? then e.value else Obj(map[e.last := e.value]);
    assert ([t] + rest)[0] == t && ([t] + rest)[1..] == rest;
    NewChild(rest, e);
    match j
    case Obj(m) =>
    case Arr(a) =>
      var i := UncheckedIndex(t, |a|);
      if i.Ok? {
        assert i.value >= |a|;
        assert Gap(t, |a|) == i.value - |a|;
        assert Padded(a, i.value)[i.value := v] == a + Repeat(Null, i.value - |a|) + [v];
      }
    case _ =>
  }

  lemma NewChild(rest: seq<string>, e: Edit)
    requires !e.Erase?
    ensures EditUnchecked(Null, rest, e) ==
            if rest == [] then Ok(if e.Assign? then e.value else Obj(map[e.last := e.value])) else Err(OutOfRange)
  {
  }

  /** The walk behind the longest prefix that resolves. */
  lemma WalkPastMissing(doc: Json, q: seq<string>, t: string, rest: seq<string>, e: Edit)
    requires GetChecked(doc, q).Ok? && GetChecked(doc, q + [t]).Err? && !e.Erase?
    ensures EditUnchecked(doc, q + ([t] + rest), e) ==
            Lift(doc, q, Made(GetChecked(doc, q).value, t, rest,
                              if e.Assign? then e.value else Obj(map[e.last := e.value])))
  {
    hide GetChecked, EditUnchecked, Made, Child, Lift;
    EditUncheckedAt(doc, q, [t] + rest, e);
    ResolveNext(doc, q, t);
    EditMissing(GetChecked(doc, q).value, t, rest, e);
  }

  // ----- add -----

  /** Adding to the root replaces the document. */
  lemma AddToRoot(doc: Json, v: Json)
    ensures ApplyOperation(doc, AddOp([], v)) == Ok(v)
  {
    AddIs(doc, [], v);
  }

  /** An addition below the root fails with the error of resolving its first token. */
  lemma AddNeedsTop(doc: Json, path: seq<string>, v: Json)
    requires |path| >= 2 && GetChecked(doc, path[..1]).Err?
    ensures ApplyOperation(doc, AddOp(path, v)) == Err(GetChecked(doc, path[..1]).error)
  {
    hide GetChecked, ApplyOperation, AddOp;
    AddIs(doc, path, v);
  }

  /** The members, or the number of elements, at the root. */
  predicate SameRoot(x: Json, y: Json) {
    match x
    case Obj(m) => y.Obj? && y.members.Keys == m.Keys
    case Arr(a) => y.Arr? && |y.elems| == |a|
    case _ => false
  }

  /** One that succeeds leaves the members, or the number of elements, of the root as they were. */
  lemma AddKeepsRoot(doc: Json, path: seq<string>, v: Json)
    requires |path| >= 2 && ApplyOperation(doc, AddOp(path, v)).Ok?
    ensures SameRoot(doc, ApplyOperation(doc, AddOp(path, v)).value)
  {
    hide ApplyOperation, AddOp, CheckedIndex, UncheckedIndex, ApplyEdit;
    AddIs(doc, path, v);
    var top, front := path[..1], path[..|path| - 1];
    assert top[1..] == [] && front[0] == top[0];
    if doc.Arr? {
      SameIndex(top[0], |doc.elems|);
    }
  }

  /** What may be added to a value that exists. */
  predicate CanInsert(j: Json, x: string) {
    match j
    case Null => true
    case Obj(_) => true
    case Arr(a) => x == "-" || IndexIn(x, |a| + 1)
    case _ => false
  }

  /** Whether the parent of a new value is made on the way. */
  predicate ParentIsMade(doc: Json, p: seq<string>) {
    |p| >= 2 && GetChecked(doc, p).Err? && GetChecked(doc, p[..|p| - 1]).Ok?
    && CanMake(GetChecked(doc, p[..|p| - 1]).value, p[|p| - 1])
  }

  /** An addition succeeds exactly when its parent takes the new value, or is itself a new child, at
      least two tokens deep, of a value that exists. */
  lemma AddSucceedsIff(doc: Json, p: seq<string>, x: string, v: Json)
    ensures ApplyOperation(doc, AddOp(p + [x], v)).Ok? <==>
            if GetChecked(doc, p).Ok? then CanInsert(GetChecked(doc, p).value, x) else ParentIsMade(doc, p)
  {
    hide ApplyOperation, AddOp, GetChecked, PatchAdd, ApplyEdit, CanInsert, CanMake, Made;
    if GetChecked(doc, p).Ok? {
      AddIs(doc, p + [x], v);
      AddBelow(doc, p, x, v);
      InsertSucceedsIff(GetChecked(doc, p).value, x, v);
    } else {
      var n := FirstMissing(doc, p);
      var q, t, rest := p[..n], p[n], p[n + 1..];
      assert p == q + ([t] + rest);
      if n == 0 {
        TopMissing(doc, p, x, v);
      } else {
        AddPastMissing(doc, q, t, rest, x, v);
        ResolveNext(doc, q, t);
        MadeIff(GetChecked(doc, q).value, t, rest, Obj(map[x := v]));
        if rest != [] {
          StillMissing(doc, p, n + 1, |p| - 1);
        }
      }
    }
  }

  lemma TopMissing(doc: Json, p: seq<string>, x: string, v: Json)
    requires p != [] && GetChecked(doc, p[..0] + [p[0]]).Err?
    ensures ApplyOperation(doc, AddOp(p + [x], v)).Err? && !ParentIsMade(doc, p)
  {
    hide ApplyOperation, AddOp, GetChecked, CanMake;
    assert (p + [x])[..1] == p[..1] == p[..0] + [p[0]];
    AddNeedsTop(doc, p + [x], v);
    if |p| >= 2 {
      StillMissing(doc, p, 1, |p| - 1);
    }
  }

  lemma StillMissing(doc: Json, p: seq<string>, m: nat, n: nat)
    requires m <= n <= |p|
    requires m >= 1 && GetChecked(doc, p[..m - 1] + [p[m - 1]]).Err?
    ensures GetChecked(doc, p[..n]).Err?
  {
    hide GetChecked;
    assert p[..m - 1] + [p[m - 1]] == p[..m];
    assert p[..n] == p[..m] + p[m..n];
    ResolveFails(doc, p[..m], p[m..n]);
  }

  lemma InsertSucceedsIff(j: Json, x: string, v: Json)
    ensures ApplyEdit(j, Insert(x, v)).Ok? <==> CanInsert(j, x)
  {
    hide Stoi;
  }

  /** What lies at the parent of a value that has been added to it, and how that fails. */
  function WithAdded(j: Json, x: string, v: Json): Result<Json> {
    if !CanInsert(j, x) then
      (if !j.Arr? then Err(Aborted) else if Stoi(x).Err? then Err(Stoi(x).error) else Err(OutOfRange))
    else match j
      case Obj(m) => Ok(Obj(m[x := v]))
      case Arr(a) => Ok(Arr(if x == "-" then a + [v] else a[..Stoi(x).value] + [v] + a[Stoi(x).value..]))
      case _ => Ok(Obj(map[x := v]))
  }

  /** An addition to a parent that exists changes the parent alone. */
  lemma AddToParent(doc: Json, p: seq<string>, x: string, v: Json)
    requires GetChecked(doc, p).Ok?
    ensures ApplyOperation(doc, AddOp(p + [x], v)) == Lift(doc, p, WithAdded(GetChecked(doc, p).value, x, v))
  {
    hide ApplyOperation, AddOp, GetChecked, PatchAdd, Lift, Stoi;
    AddIs(doc, p + [x], v);
    AddBelow(doc, p, x, v);
  }

  /** An addition behind a token that does not resolve: a missing parent is made, where RFC 6902
      (section 4.1) asks for an error, but no more than that. */
  lemma AddPastMissing(doc: Json, q: seq<string>, t: string, rest: seq<string>, x: string, v: Json)
    requires q != [] && GetChecked(doc, q).Ok? && GetChecked(doc, q + [t]).Err?
    ensures ApplyOperation(doc, AddOp(q + ([t] + rest) + [x], v)) ==
            Lift(doc, q, Made(GetChecked(doc, q).value, t, rest, Obj(map[x := v])))
  {
    hide ApplyOperation, AddOp, GetChecked, EditUnchecked, Made, Lift;
    var front := q + ([t] + rest);
    AddIs(doc, front + [x], v);
    TopExists(doc, q);
    assert (front + [x])[..1] == q[..1] && (front + [x])[..|front|] == front;
    WalkPastMissing(doc, q, t, rest, Insert(x, v));
  }

  // ----- remove -----

  predicate CanErase(j: Json, x: string) {
    match j
    case Obj(m) => x in m
    case Arr(a) => IndexIn(x, |a|)
    case _ => true
  }

  /** What lies at the parent of a value that has been removed. Below anything but an object or an
      array nothing happens, where RFC 6902 (section 4.2) asks for an error. */
  function WithErased(j: Json, x: string): Result<Json> {
    if CanErase(j, x) then
      Ok(match j
         case Obj(m) => Obj(m - {x})
         case Arr(a) => Arr(a[..Stoi(x).value] + a[Stoi(x).value + 1..])
         case _ => j)
    else if j.Arr? && Stoi(x).Err? then Err(Stoi(x).error)
    else Err(OutOfRange)
  }

  /** A removal fails as its parent fails to resolve, or changes the parent alone. */
  lemma RemoveFromParent(doc: Json, p: seq<string>, x: string)
    ensures ApplyOperation(doc, RemoveOp(p + [x])) ==
            if GetChecked(doc, p).Err? then Err(GetChecked(doc, p).error)
            else Lift(doc, p, WithErased(GetChecked(doc, p).value, x))
  {
    hide ApplyOperation, RemoveOp, GetChecked, EditChecked, Lift, Stoi;
    RemoveIs(doc, p + [x]);
    assert (p + [x])[..|p|] == p;
    if GetChecked(doc, p).Ok? {
      assert PatchRemove(doc, p + [x]) == EditChecked(doc, p, Erase(x));
      RemoveBelow(doc, p, x);
    } else {
      EditFails(doc, p, Erase(x));
    }
  }

  lemma {:induction false} EditFails(doc: Json, p: seq<string>, e: Edit)
    requires GetChecked(doc, p).Err?
    ensures EditChecked(doc, p, e) == Err(GetChecked(doc, p).error)
    decreases |p|
  {
    hide CheckedIndex, ApplyEdit;
    if p != [] {
      match doc
      case Obj(m) =>
        if p[0] in m {
          EditFails(m[p[0]], p[1..], e);
        }
      case Arr(a) =>
        var i := CheckedIndex(p[0], |a|);
        if i.Ok? {
          EditFails(a[i.value], p[1..], e);
        }
      case _ =>
    }
  }

  lemma RemoveOfRoot(doc: Json)
    ensures ApplyOperation(doc, RemoveOp([])) == Err(DomainError)
  {
    RemoveIs(doc, []);
  }

  // ----- replace, copy, test, move -----

  /** A replacement needs its target, and changes it alone. */
  lemma ReplaceAt(doc: Json, path: seq<string>, v: Json)
    ensures ApplyOperation(doc, ReplaceOp(path, v)) ==
            if GetChecked(doc, path).Ok? then Ok(Put(doc, path, v)) else Err(GetChecked(doc, path).error)
  {
    hide ToString, Split, GetChecked, EditChecked, Put;
    SplitOfToString(path);
    if GetChecked(doc, path).Ok? {
      AssignIsPut(doc, path, v);
    }
  }

  /** A copy onto a value that exists replaces it. */
  lemma CopyOnto(doc: Json, from: seq<string>, path: seq<string>)
    requires GetChecked(doc, from).Ok? && GetChecked(doc, path).Ok?
    ensures ApplyOperation(doc, CopyOp(from, path)) == Ok(Put(doc, path, GetChecked(doc, from).value))
  {
    hide ApplyOperation, CopyOp, GetChecked, EditUnchecked;
    CopyIs(doc, from, path);
    EditUncheckedAt(doc, path, [], Assign(GetChecked(doc, from).value));
    assert path + [] == path;
    AssignHere(GetChecked(doc, path).value, GetChecked(doc, from).value);
  }

  lemma AssignHere(j: Json, v: Json)
    ensures EditUnchecked(j, [], Assign(v)) == Ok(v)
  {
  }

  /** A copy behind a token that does not resolve. */
  lemma CopyPastMissing(doc: Json, from: seq<string>, q: seq<string>, t: string, rest: seq<string>)
    requires GetChecked(doc, from).Ok? && GetChecked(doc, q).Ok? && GetChecked(doc, q + [t]).Err?
    ensures ApplyOperation(doc, CopyOp(from, q + ([t] + rest))) ==
            Lift(doc, q, Made(GetChecked(doc, q).value, t, rest, GetChecked(doc, from).value))
  {
    hide ApplyOperation, CopyOp, GetChecked, EditUnchecked, Made, Lift;
    CopyIs(doc, from, q + ([t] + rest));
    WalkPastMissing(doc, q, t, rest, Assign(GetChecked(doc, from).value));
  }

  /** A copy succeeds exactly when its source exists and its target exists or is a new child of a value
      that exists; an array is filled up to the index, where RFC 6902 (section 4.5) asks for an error. */
  lemma CopySucceedsIff(doc: Json, from: seq<string>, path: seq<string>)
    ensures ApplyOperation(doc, CopyOp(from, path)).Ok? <==>
            GetChecked(doc, from).Ok? &&
            (GetChecked(doc, path).Ok?
             || (path != [] && GetChecked(doc, path[..|path| - 1]).Ok?
                 && CanMake(GetChecked(doc, path[..|path| - 1]).value, path[|path| - 1])))
  {
    hide ApplyOperation, CopyOp, GetChecked, CanMake, Made, Lift, Put;
    if GetChecked(doc, from).Err? {
      SourceMissing(doc, from, path);
    } else if GetChecked(doc, path).Ok? {
      CopyOnto(doc, from, path);
    } else {
      var n := FirstMissing(doc, path);
      var q, t, rest := path[..n], path[n], path[n + 1..];
      assert path == q + ([t] + rest);
      CopyPastMissing(doc, from, q, t, rest);
      ResolveNext(doc, q, t);
      LiftOk(doc, q, Made(GetChecked(doc, q).value, t, rest, GetChecked(doc, from).value));
      MadeIff(GetChecked(doc, q).value, t, rest, GetChecked(doc, from).value);
      if rest != [] {
        StillMissing(doc, path, n + 1, |path| - 1);
      }
    }
  }

  lemma LiftOk(doc: Json, p: seq<string>, r: Result<Json>)
    requires GetChecked(doc, p).Ok?
    ensures Lift(doc, p, r).Ok? <==> r.Ok?
  {
  }

  /** A move or a copy fails as its source fails to resolve. */
  lemma SourceMissing(doc: Json, from: seq<string>, path: seq<string>)
    requires GetChecked(doc, from).Err?
    ensures ApplyOperation(doc, MoveOp(from, path)) == Err(GetChecked(doc, from).error)
    ensures ApplyOperation(doc, CopyOp(from, path)) == Err(GetChecked(doc, from).error)
  {
    hide ToString, Split, GetChecked, EditUnchecked, PatchRemove, PatchAdd;
    SplitOfToString(path);
    SplitOfToString(from);
  }

  /** A test that does not pass: what is missing counts as unequal, what is malformed does not. */
  lemma TestFailure(doc: Json, path: seq<string>, v: Json)
    requires ApplyOperation(doc, TestOp(path, v)).Err?
    ensures ApplyOperation(doc, TestOp(path, v)).error ==
            if GetChecked(doc, path).Ok? || GetChecked(doc, path).error == OutOfRange then DomainError
            else GetChecked(doc, path).error
  {
    hide ToString, Split, GetChecked, Equal;
    SplitOfToString(path);
  }

  /** The second half of a move is an addition to what the removal has left: it needs its first token
      there, and keeps the root of it. */
  lemma MoveKeepsRoot(doc: Json, from: seq<string>, path: seq<string>)
    requires |path| >= 2 && GetChecked(doc, from).Ok? && ApplyOperation(doc, RemoveOp(from)).Ok?
    ensures var removed := ApplyOperation(doc, RemoveOp(from)).value;
            var r := ApplyOperation(doc, MoveOp(from, path));
            && (GetChecked(removed, path[..1]).Err? ==> r == Err(GetChecked(removed, path[..1]).error))
            && (r.Ok? ==> SameRoot(removed, r.value))
  {
    hide ApplyOperation, MoveOp, RemoveOp, AddOp, GetChecked, ApplyAll, SameRoot;
    var v, removed := GetChecked(doc, from).value, ApplyOperation(doc, RemoveOp(from)).value;
    MoveIsRemoveThenAdd(doc, from, path);
    ApplyTwo(doc, RemoveOp(from), AddOp(path, v));
    if GetChecked(removed, path[..1]).Err? {
      AddNeedsTop(removed, path, v);
    } else if ApplyOperation(removed, AddOp(path, v)).Ok? {
      AddKeepsRoot(removed, path, v);
    }
  }

  /** A move of a member into itself, which RFC 6902 (section 4.4) forbids, fails at the root alone:
      deeper down the value comes to lie inside a new object that takes its place. */
  lemma MoveIntoItself(doc: Json, p: seq<string>, m: map<string, Json>, k: string, x: string)
    requires GetChecked(doc, p) == Ok(Obj(m)) && k in m
    ensures ApplyOperation(doc, MoveOp(p + [k], p + [k] + [x])) ==
            if p == [] then Err(OutOfRange) else Ok(Put(doc, p, Obj(m[k := Obj(map[x := m[k]])])))
  {
    hide ApplyOperation, MoveOp, RemoveOp, AddOp, GetChecked, ApplyAll, Put;
    var from, path := p + [k], p + [k] + [x];
    ResolveNext(doc, p, k);
    MoveIsRemoveThenAdd(doc, from, path);
    ApplyTwo(doc, RemoveOp(from), AddOp(path, m[k]));
    RemoveFromParent(doc, p, k);
    var n := m - {k};
    var removed := Put(doc, p, Obj(n));
    GetPut(doc, p, Obj(n));
    ResolveNext(removed, p, k);
    if p == [] {
      assert path[..1] == p + [k];
      AddNeedsTop(removed, path, m[k]);
    } else {
      assert path == p + ([k] + []) + [x];
      AddPastMissing(removed, p, k, [], x, m[k]);
      assert n[k := Obj(map[x := m[k]])] == m[k := Obj(map[x := m[k]])];
      PutPut(doc, p, Obj(n), Obj(m[k := Obj(map[x := m[k]])]));
    }
  }

  // ----- operations as documents -----

  predicate IsText(m: map<string, Json>, name: string) {
    name in m && m[name].Str?
  }

  predicate IsPointer(m: map<string, Json>, name: string) {
    IsText(m, name) && Split(m[name].s).Ok?
  }

  /** The members an operation has to have. */
  predicate WellFormed(m: map<string, Json>) {
    && IsText(m, "op") && IsPointer(m, "path")
    && (m["op"].s in {"add", "remove", "replace", "move", "copy", "test"})
    && (m["op"].s in {"add", "replace", "test"} ==> "value" in m)
    && (m["op"].s in {"move", "copy"} ==> IsPointer(m, "from"))
  }

  /** The same operation written with the members it has to have. */
  function Normal(m: map<string, Json>): Json
    requires WellFormed(m)
  {
    var path := Split(m["path"].s).value;
    match m["op"].s
    case "add" => AddOp(path, m["value"])
    case "remove" => RemoveOp(path)
    case "replace" => ReplaceOp(path, m["value"])
    case "move" => MoveOp(Split(m["from"].s).value, path)
    case "copy" => CopyOp(Split(m["from"].s).value, path)
    case _ => TestOp(path, m["value"])
  }

  /** Further members do not matter. */
  lemma NormalApplies(doc: Json, m: map<string, Json>)
    requires WellFormed(m)
    ensures ApplyOperation(doc, Obj(m)) == ApplyOperation(doc, Normal(m))
  {
    hide ToString, Split, GetChecked, EditChecked, EditUnchecked, PatchAdd, PatchRemove, Equal;
    ToStringOfSplit(m["path"].s);
    if "from" in m && m["from"].Str? && Split(m["from"].s).Ok? {
      ToStringOfSplit(m["from"].s);
    }
  }

  /** What is not an operation fails, with `invalid_argument` when a member it always has to have is
      missing, is not a string, or names no operation. */
  lemma MalformedFails(doc: Json, val: Json)
    requires val.Obj? ==> !WellFormed(val.members)
    ensures ApplyOperation(doc, val).Err?
    ensures val.Obj? && IsText(val.members, "op") && IsText(val.members, "path") && Split(val.members["path"].s).Err?
            ==> ApplyOperation(doc, val) == Err(Split(val.members["path"].s).error)
    ensures !val.Obj? || !IsText(val.members, "op") || !IsText(val.members, "path")
            ==> ApplyOperation(doc, val) == Err(InvalidArgument)
    ensures val.Obj? && IsText(val.members, "op") && IsPointer(val.members, "path")
            && val.members["op"].s !in {"add", "remove", "replace", "move", "copy", "test"}
            ==> ApplyOperation(doc, val) == Err(InvalidArgument)
    ensures val.Obj? && IsText(val.members, "op") && IsPointer(val.members, "path")
            && val.members["op"].s == "add" && "value" !in val.members
            ==> ApplyOperation(doc, val) == Err(InvalidArgument)
  {
    hide ToString, Split, GetChecked, EditChecked, EditUnchecked, PatchAdd, PatchRemove, Equal;
  }

  /** A patch applies its operations in order and stops at the first error; it has to be an array. */
  lemma PatchComposes(doc: Json, patch: Json, op: Json, a: seq<Json>, b: seq<Json>)
    ensures !patch.Arr? ==> Patch(doc, patch) == Err(InvalidArgument)
    ensures Patch(doc, Arr([])) == Ok(doc) && Patch(doc, Arr([op])) == ApplyOperation(doc, op)
    ensures Patch(doc, Arr(a + b)) ==
            match Patch(doc, Arr(a)) case Ok(d) => Patch(d, Arr(b)) case Err(e) => Err(e)
  {
    hide ApplyOperation;
    ApplyAllAppend(doc, a, b);
    assert [op][1..] == [];
    var r := ApplyOperation(doc, op);
    if r.Ok? {
      assert ApplyAll(r.value, []) == Ok(r.value);
    }
  }
}
