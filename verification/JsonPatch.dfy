/** Resolution of JSON pointers inside a value, JSON Patch (RFC 6902, section 4) and structural
    difference, as json.hpp:9233-9484 and 9920-10343 implement them. */
module JsonPatch {
  import opened Strings
  import opened JsonValue
  import opened JsonPointer
  import opened Decimal
  import opened Ordering

  // ----- walking to the value a pointer refers to -----

  /** The array index of a reference token under `at()` (json.hpp:9359-9377). */
  function CheckedIndex(token: string, size: nat): (r: Result<nat>)
    ensures r.Ok? ==> r.value < size
  {
    if token == "-" then Err(OutOfRange)
    else if |token| > 1 && token[0] == '0' then Err(DomainError)
    else
      var i :- Stoi(token);
      if 0 <= i < size then Ok(i) else Err(OutOfRange)
  }

  /** get_checked (json.hpp:9346-9388). */
  function GetChecked(j: Json, tokens: seq<string>): Result<Json>
    decreases |tokens|
  {
    if tokens == [] then Ok(j)
    else match j
      case Obj(m) =>
        if tokens[0] in m then GetChecked(m[tokens[0]], tokens[1..]) else Err(OutOfRange)
      case Arr(a) =>
        var i :- CheckedIndex(tokens[0], |a|);
        GetChecked(a[i], tokens[1..])
      case _ => Err(OutOfRange)
  }

  /** What happens to the value that the walk ends at. */
  datatype Edit =
    | Assign(value: Json)
    | Insert(last: string, value: Json)
    | Erase(last: string)

  function ApplyEdit(j: Json, e: Edit): Result<Json> {
    match e
    case Assign(v) => Ok(v)
    case Insert(last, v) =>  // the switch of json.hpp:9979-10018
      (match j
       case Null => Ok(Obj(map[last := v]))
       case Obj(m) => Ok(Obj(m[last := v]))
       case Arr(a) =>
         if last == "-" then Ok(Arr(a + [v]))
         else
           var i :- Stoi(last);
           if 0 <= i <= |a| then Ok(Arr(a[..i] + [v] + a[i..])) else Err(OutOfRange)
       case _ => Err(Aborted))
    case Erase(last) =>  // json.hpp:10030-10047
      (match j
       case Obj(m) => if last in m then Ok(Obj(m - {last})) else Err(OutOfRange)
       case Arr(a) =>
         var i :- Stoi(last);
         if 0 <= i < |a| then Ok(Arr(a[..i] + a[i + 1..])) else Err(OutOfRange)
       case _ => Ok(j))
  }

  /** An edit of the value that `at(tokens)` refers to. */
  function EditChecked(j: Json, tokens: seq<string>, e: Edit): Result<Json>
    decreases |tokens|
  {
    if tokens == [] then ApplyEdit(j, e)
    else match j
      case Obj(m) =>
        if tokens[0] !in m then Err(OutOfRange)
        else
          var v :- EditChecked(m[tokens[0]], tokens[1..], e);
          Ok(Obj(m[tokens[0] := v]))
      case Arr(a) =>
        var i :- CheckedIndex(tokens[0], |a|);
        var v :- EditChecked(a[i], tokens[1..], e);
        Ok(Arr(a[i := v]))
      case _ => Err(OutOfRange)
  }

  /** The array index under `operator[]` (json.hpp:9315-9334): "-" is the index past the end. A
      negative index wraps to a size that no vector can grow to. */
  function UncheckedIndex(token: string, size: nat): Result<nat> {
    if |token| > 1 && token[0] == '0' then Err(DomainError)
    else if token == "-" then Ok(size)
    else
      var i :- Stoi(token);
      if 0 <= i then Ok(i) else Err(LengthError)
  }

  /** `operator[](idx)` fills the array with nulls up to the index (json.hpp:3404-3410). */
  function Padded(a: seq<Json>, i: nat): (r: seq<Json>)
    ensures i < |r| && (i < |a| ==> r == a)
  {
    if i < |a| then a else a + Repeat(Null, i - |a| + 1)
  }

  /** An edit of the value that the mutable get_unchecked (json.hpp:9302-9344) refers to. */
  function EditUnchecked(j: Json, tokens: seq<string>, e: Edit): Result<Json>
    decreases |tokens|
  {
    if tokens == [] then ApplyEdit(j, e)
    else match j
      case Obj(m) =>
        var child := if tokens[0] in m then m[tokens[0]] else Null;
        var v :- EditUnchecked(child, tokens[1..], e);
        Ok(Obj(m[tokens[0] := v]))
      case Arr(a) =>
        var i :- UncheckedIndex(tokens[0], |a|);
        var v :- EditUnchecked(Padded(a, i)[i], tokens[1..], e);
        Ok(Arr(Padded(a, i)[i := v]))
      case _ => Err(OutOfRange)
  }

  // ----- patch -----

  /** operation_add (json.hpp:9959-10020). */
  function PatchAdd(doc: Json, ptr: seq<string>, v: Json): Result<Json> {
    if ptr == [] then Ok(v)
    else
      var _ :- if |ptr| > 1 then GetChecked(doc, ptr[..1]) else Ok(Null);
      EditUnchecked(doc, ptr[..|ptr| - 1], Insert(ptr[|ptr| - 1], v))
  }

  /** operation_remove (json.hpp:10023-10048). */
  function PatchRemove(doc: Json, ptr: seq<string>): Result<Json> {
    if ptr == [] then Err(DomainError)
    else EditChecked(doc, ptr[..|ptr| - 1], Erase(ptr[|ptr| - 1]))
  }

  /** get_value (json.hpp:10061-10085). */
  function Member(val: Json, name: string, stringType: bool): (r: Result<Json>)
    requires val.Obj?
    ensures r.Ok? && stringType ==> r.value.Str?
  {
    if name !in val.members then Err(InvalidArgument)
    else if stringType && !val.members[name].Str? then Err(InvalidArgument)
    else Ok(val.members[name])
  }

  /** One operation of a patch document (json.hpp:10087-10175). */
  function ApplyOperation(doc: Json, val: Json): Result<Json> {
    if !val.Obj? then Err(InvalidArgument)
    else
      var op :- Member(val, "op", true);
      var path :- Member(val, "path", true);
      var ptr :- Split(path.s);
      if op.s == "add" then
        var v :- Member(val, "value", false);
        PatchAdd(doc, ptr, v)
      else if op.s == "remove" then PatchRemove(doc, ptr)
      else if op.s == "replace" then
        var _ :- GetChecked(doc, ptr);
        var v :- Member(val, "value", false);
        EditChecked(doc, ptr, Assign(v))
      else if op.s == "move" then
        var from :- Member(val, "from", true);
        var fromPtr :- Split(from.s);
        var v :- GetChecked(doc, fromPtr);
        var removed :- PatchRemove(doc, fromPtr);
        PatchAdd(removed, ptr, v)
      else if op.s == "copy" then
        var from :- Member(val, "from", true);
        var fromPtr :- Split(from.s);
        var v :- GetChecked(doc, fromPtr);
        EditUnchecked(doc, ptr, Assign(v))
      else if op.s == "test" then
        (match GetChecked(doc, ptr)
         case Err(OutOfRange) => Err(DomainError)
         case Err(other) => Err(other)
         case Ok(actual) =>
           var v :- Member(val, "value", false);
           if Equal(actual, v) then Ok(doc) else Err(DomainError))
      else Err(InvalidArgument)
  }

  function ApplyAll(doc: Json, ops: seq<Json>): Result<Json>
    decreases |ops|
  {
    if ops == [] then Ok(doc)
    else
      var next :- ApplyOperation(doc, ops[0]);
      ApplyAll(next, ops[1..])
  }

  /** patch (json.hpp:9920-10179). */
  function Patch(source: Json, patch: Json): Result<Json> {
    if patch.Arr? then ApplyAll(source, patch.elems) else Err(InvalidArgument)
  }

  /** The loop of patch, with its working copy. */
  method PatchLoop(source: Json, patch: Json) returns (r: Result<Json>)
    ensures r == Patch(source, patch)
  {
    if !patch.Arr? {
      return Err(InvalidArgument);
    }
    var result := source;
    for i := 0 to |patch.elems|
      invariant ApplyAll(source, patch.elems) == ApplyAll(result, patch.elems[i..])
    {
      hide ApplyOperation;
      var step := ApplyOperation(result, patch.elems[i]);
      assert patch.elems[i..][1..] == patch.elems[i + 1..];
      if step.Err? {
        return Err(step.error);
      }
      result := step.value;
    }
    r := Ok(result);
  }

  /** The loop of get_checked: the pointer steps down one token at a time. */
  method At(j: Json, tokens: seq<string>) returns (r: Result<Json>)
    ensures r == GetChecked(j, tokens)
  {
    var ptr := j;
    for i := 0 to |tokens|
      invariant GetChecked(j, tokens) == GetChecked(ptr, tokens[i..])
    {
      assert tokens[i..][1..] == tokens[i + 1..];
      match ptr
      case Obj(m) =>
        if tokens[i] !in m {
          return Err(OutOfRange);
        }
        ptr := m[tokens[i]];
      case Arr(a) =>
        var index := CheckedIndex(tokens[i], |a|);
        if index.Err? {
          return Err(index.error);
        }
        ptr := a[index.value];
      case _ =>
        return Err(OutOfRange);
    }
    r := Ok(ptr);
  }

  // ----- diff -----

  datatype Op =
    | Add(path: string, value: Json)
    | Remove(path: string)
    | Replace(path: string, value: Json)

  /** The object that stands for an operation in a patch document. */
  function Document(op: Op): Json {
    match op
    case Add(path, v) => Obj(map["op" := Str("add"), "path" := Str(path), "value" := v])
    case Remove(path) => Obj(map["op" := Str("remove"), "path" := Str(path)])
    case Replace(path, v) => Obj(map["op" := Str("replace"), "path" := Str(path), "value" := v])
  }

  function Documents(ops: seq<Op>): (ds: seq<Json>)
    ensures |ds| == |ops|
  {
    seq(|ops|, i requires 0 <= i < |ops| => Document(ops[i]))
  }

  /** `path + "/" + std::to_string(i)`. */
  function IndexPath(path: string, i: nat): string {
    path + "/" + DecimalText(i)
  }

  /** `path + "/" + escape(key)`. */
  function KeyPath(path: string, key: string): string {
    path + "/" + Escape(key)
  }

  /** The key is escaped in place first. */
  method PathBelow(path: string, key: string) returns (below: string)
    ensures below == KeyPath(path, key)
  {
    var escaped := EscapeInPlace(key);
    below := path + "/" + escaped;
  }

  /** diff (json.hpp:10213-10343), as a list of operations. */
  function DiffOps(s: Json, t: Json, path: string): seq<Op>
    decreases s, 1, 0
  {
    if Equal(s, t) then []
    else if !SameType(s, t) then [Replace(path, t)]
    else match s
      case Arr(a) =>
        DiffElements(s, t, path, 0) + Removals(path, |t.elems|, |a|) + Additions(t.elems, path, |a|)
      case Obj(m) =>
        DiffMembers(s, t, path, SortedKeys(m.Keys)) + NewMembers(m, t.members, path, SortedKeys(t.members.Keys))
      case _ => [Replace(path, t)]
  }

  /** The common elements from index `i` on. */
  function DiffElements(s: Json, t: Json, path: string, i: nat): seq<Op>
    requires s.Arr? && t.Arr?
    decreases s, 0, |s.elems| - i
  {
    if i >= |s.elems| || i >= |t.elems| then []
    else DiffOps(s.elems[i], t.elems[i], IndexPath(path, i)) + DiffElements(s, t, path, i + 1)
  }

  /** Indices `from` to `end` are removed in descending order. */
  function Removals(path: string, from: nat, end: nat): seq<Op>
    decreases end - from
  {
    if from >= end then [] else Removals(path, from + 1, end) + [Remove(IndexPath(path, from))]
  }

  function Additions(b: seq<Json>, path: string, i: nat): seq<Op>
    decreases |b| - i
  {
    if i >= |b| then [] else [Add(IndexPath(path, i), b[i])] + Additions(b, path, i + 1)
  }

  /** The members of the source, in the order of `keys`. */
  function DiffMembers(s: Json, t: Json, path: string, keys: seq<string>): seq<Op>
    requires s.Obj? && t.Obj? && forall i | 0 <= i < |keys| :: keys[i] in s.members
    decreases s, 0, |keys|
  {
    if keys == [] then []
    else
      var k := keys[0];
      var head := if k in t.members then DiffOps(s.members[k], t.members[k], KeyPath(path, k))
          else [Remove(KeyPath(path, k))];
      head + DiffMembers(s, t, path, keys[1..])
  }

  /** The members that only the target has. */
  function NewMembers(m: map<string, Json>, n: map<string, Json>, path: string, keys: seq<string>): seq<Op>
    requires forall i | 0 <= i < |keys| :: keys[i] in n
  {
    if keys == [] then []
    else
      var k := keys[0];
      var head := if k in m then [] else [Add(KeyPath(path, k), n[k])];
      head + NewMembers(m, n, path, keys[1..])
  }

  /** `diff(source, target)` as the JSON document that patch takes. */
  function DiffDocument(s: Json, t: Json): Json {
    Arr(Documents(DiffOps(s, t, "")))
  }

  /** The loops of diff, which appends to its result. Elements that only the source has are removed
      by inserting each new operation in front of the earlier removals. */
  method Diff(source: Json, target: Json, path: string) returns (result: seq<Op>)
    ensures result == DiffOps(source, target, path)
    decreases source, 1, 0
  {
    hide DiffElements, DiffMembers, NewMembers, Removals, Additions, SortedKeys, Equal;
    if Equal(source, target) {
      return [];
    }
    if SameType(source, target) && source.Arr? {
      result := DiffArrays(source, target, path);
    } else if SameType(source, target) && source.Obj? {
      result := DiffObjects(source, target, path);
    } else {
      result := [Replace(path, target)];
    }
  }

  method DiffArrays(source: Json, target: Json, path: string) returns (result: seq<Op>)
    requires source.Arr? && target.Arr?
    ensures result == DiffElements(source, target, path, 0) + Removals(path, |target.elems|, |source.elems|) +
                      Additions(target.elems, path, |source.elems|)
    decreases source, 0, 1
  {
    hide *;
    var i;
    result, i := DiffCommon(source, target, path);
    result := RemoveRest(result, path, i, |source.elems|);
    RemovalsFrom(path, |source.elems|, |target.elems|);
    result := AddRest(result, target.elems, path, |source.elems|);
  }

  /** The first pass, over the elements that both arrays have. */
  method DiffCommon(source: Json, target: Json, path: string) returns (result: seq<Op>, i: nat)
    requires source.Arr? && target.Arr?
    ensures result == DiffElements(source, target, path, 0)
    ensures i == if |source.elems| < |target.elems| then |source.elems| else |target.elems|
    decreases source, 0, 0
  {
    hide DiffOps, DiffElements, IndexPath;
    var a, b := source.elems, target.elems;
    ghost var all := DiffElements(source, target, path, 0);
    result, i := [], 0;
    while i < |a| && i < |b|
      invariant i <= |a| && i <= |b|
      invariant all == result + DiffElements(source, target, path, i)
    {
      var head := Diff(a[i], b[i], IndexPath(path, i));
      ElementsStep(source, target, path, i);
      Appended(all, result, head, DiffElements(source, target, path, i + 1));
      result := result + head;
      i := i + 1;
    }
    ElementsStep(source, target, path, i);
  }

  lemma ElementsStep(s: Json, t: Json, path: string, i: nat)
    requires s.Arr? && t.Arr?
    ensures DiffElements(s, t, path, i) ==
            if i >= |s.elems| || i >= |t.elems| then []
            else DiffOps(s.elems[i], t.elems[i], IndexPath(path, i)) + DiffElements(s, t, path, i + 1)
  {
    hide DiffOps, IndexPath;
  }

  lemma Appended<T>(all: seq<T>, done: seq<T>, next: seq<T>, rest: seq<T>)
    requires all == done + (next + rest)
    ensures all == done + next + rest
  {
  }

  lemma RemovalsFrom(path: string, n: nat, m: nat)
    ensures Removals(path, if n < m then n else m, n) == Removals(path, m, n)
  {
  }

  /** The second pass: every removal goes in front of those for smaller indices. */
  method RemoveRest(ops: seq<Op>, path: string, from: nat, end: nat) returns (result: seq<Op>)
    requires from <= end
    ensures result == ops + Removals(path, from, end)
  {
    hide IndexPath;
    result := ops;
    assert Removals(path, from, from) == [];
    var endIndex := |ops|;
    for i := from to end
      invariant result == ops + Removals(path, from, i)
    {
      RemovalsFront(path, from, i);
      Inserted(ops, Removals(path, from, i), Remove(IndexPath(path, i)));
      result := result[..endIndex] + [Remove(IndexPath(path, i))] + result[endIndex..];
    }
  }

  lemma Inserted<T>(front: seq<T>, back: seq<T>, x: T)
    ensures var s := front + back; s[..|front|] + [x] + s[|front|..] == front + ([x] + back)
  {
  }

  lemma {:induction false} RemovalsFront(path: string, from: nat, end: nat)
    requires from <= end
    ensures Removals(path, from, end + 1) == [Remove(IndexPath(path, end))] + Removals(path, from, end)
    decreases end - from
  {
    if from < end {
      RemovalsFront(path, from + 1, end);
    }
  }

  method AddRest(ops: seq<Op>, b: seq<Json>, path: string, from: nat) returns (result: seq<Op>)
    ensures result == ops + Additions(b, path, from)
  {
    hide IndexPath;
    result := ops;
    ghost var all := ops + Additions(b, path, from);
    var i := from;
    while i < |b|
      invariant i <= |b| || i == from
      invariant all == result + Additions(b, path, i)
    {
      Appended(all, result, [Add(IndexPath(path, i), b[i])], Additions(b, path, i + 1));
      result := result + [Add(IndexPath(path, i), b[i])];
      i := i + 1;
    }
  }

  method DiffObjects(source: Json, target: Json, path: string) returns (result: seq<Op>)
    requires source.Obj? && target.Obj?
    ensures result == DiffMembers(source, target, path, SortedKeys(source.members.Keys)) +
                      NewMembers(source.members, target.members, path, SortedKeys(target.members.Keys))
    decreases source, 0, 1
  {
    hide DiffMembers, NewMembers, SortedKeys;
    result := DiffKeys(source, target, path, SortedKeys(source.members.Keys));
    result := AddKeys(result, source.members, target.members, path, SortedKeys(target.members.Keys));
  }

  method DiffKeys(source: Json, target: Json, path: string, keys: seq<string>) returns (result: seq<Op>)
    requires source.Obj? && target.Obj? && forall i | 0 <= i < |keys| :: keys[i] in source.members
    ensures result == DiffMembers(source, target, path, keys)
    decreases source, 0, 0
  {
    hide DiffOps, KeyPath;
    ghost var all := DiffMembers(source, target, path, keys);
    result := [];
    for i := 0 to |keys|
      invariant all == result + DiffMembers(source, target, path, keys[i..])
    {
      var k := keys[i];
      assert keys[i..][1..] == keys[i + 1..];
      var below := PathBelow(path, k);
      var head := [Remove(below)];
      if k in target.members {
        head := Diff(source.members[k], target.members[k], below);
      }
      Appended(all, result, head, DiffMembers(source, target, path, keys[i + 1..]));
      result := result + head;
    }
  }

  method AddKeys(ops: seq<Op>, m: map<string, Json>, n: map<string, Json>, path: string,
      keys: seq<string>) returns (result: seq<Op>)
    requires forall i | 0 <= i < |keys| :: keys[i] in n
    ensures result == ops + NewMembers(m, n, path, keys)
  {
    hide KeyPath;
    ghost var all := ops + NewMembers(m, n, path, keys);
    result := ops;
    for i := 0 to |keys|
      invariant all == result + NewMembers(m, n, path, keys[i..])
    {
      var k := keys[i];
      assert keys[i..][1..] == keys[i + 1..];
      if k !in m {
        var below := PathBelow(path, k);
        Appended(all, result, [Add(below, n[k])], NewMembers(m, n, path, keys[i + 1..]));
        result := result + [Add(below, n[k])];
      }
    }
  }
}
