/** What the operations of a JSON Patch (RFC 6902, section 4) do to each other (json.hpp:9920-10179):
    which undo which, that a move is a removal and an addition, and when a copy is an addition. */
module JsonOperations {
  import opened JsonValue
  import opened JsonPointer
  import opened Decimal
  import opened JsonPatch
  import opened JsonPaths
  import opened JsonDiff

  function AddOp(path: seq<string>, v: Json): Json {
    Document(Add(ToString(path), v))
  }

  function RemoveOp(path: seq<string>): Json {
    Document(Remove(ToString(path)))
  }

  function MoveOp(from: seq<string>, path: seq<string>): Json {
    Obj(map["op" := Str("move"), "path" := Str(ToString(path)), "from" := Str(ToString(from))])
  }

  function CopyOp(from: seq<string>, path: seq<string>): Json {
    Obj(map["op" := Str("copy"), "path" := Str(ToString(path)), "from" := Str(ToString(from))])
  }

  function TestOp(path: seq<string>, v: Json): Json {
    Obj(map["op" := Str("test"), "path" := Str(ToString(path)), "value" := v])
  }

  // ----- one operation -----

  lemma AddIs(doc: Json, path: seq<string>, v: Json)
    ensures ApplyOperation(doc, AddOp(path, v)) == PatchAdd(doc, path, v)
  {
    hide ToString, Split, PatchAdd;
    SplitOfToString(path);
  }

  lemma RemoveIs(doc: Json, path: seq<string>)
    ensures ApplyOperation(doc, RemoveOp(path)) == PatchRemove(doc, path)
  {
    hide ToString, Split, PatchRemove;
    SplitOfToString(path);
  }

  function Moved(doc: Json, from: seq<string>, path: seq<string>): Result<Json> {
    if GetChecked(doc, from).Err? then Err(GetChecked(doc, from).error)
    else if PatchRemove(doc, from).Err? then Err(PatchRemove(doc, from).error)
    else PatchAdd(PatchRemove(doc, from).value, path, GetChecked(doc, from).value)
  }

  lemma MoveIs(doc: Json, from: seq<string>, path: seq<string>)
    ensures ApplyOperation(doc, MoveOp(from, path)) == Moved(doc, from, path)
  {
    hide ToString, Split, PatchRemove, PatchAdd, GetChecked;
    SplitOfToString(path);
    SplitOfToString(from);
  }

  lemma CopyIs(doc: Json, from: seq<string>, path: seq<string>)
    requires GetChecked(doc, from).Ok?
    ensures ApplyOperation(doc, CopyOp(from, path)) == EditUnchecked(doc, path, Assign(GetChecked(doc, from).value))
  {
    hide ToString, Split, EditUnchecked, GetChecked;
    SplitOfToString(path);
    SplitOfToString(from);
  }

  lemma ApplyTwo(doc: Json, a: Json, b: Json)
    ensures ApplyAll(doc, [a, b]) ==
            if ApplyOperation(doc, a).Ok? then ApplyOperation(ApplyOperation(doc, a).value, b)
            else ApplyOperation(doc, a)
  {
    hide ApplyOperation;
    var next := ApplyOperation(doc, a);
    assert [a, b][1..] == [b];
    if next.Ok? {
      var last := ApplyOperation(next.value, b);
      assert [b][1..] == [];
      assert ApplyAll(next.value, [b]) == last;
    }
  }

  /** A test passes, and changes nothing, exactly when the path exists and holds an equal value. */
  lemma TestPassesIff(doc: Json, path: seq<string>, v: Json)
    ensures var r := ApplyOperation(doc, TestOp(path, v));
            && (r.Ok? <==> GetChecked(doc, path).Ok? && Equal(GetChecked(doc, path).value, v))
            && (r.Ok? ==> r.value == doc)
  {
    hide ToString, Split, GetChecked, Equal;
    SplitOfToString(path);
  }

  /** A move is the removal of the value followed by its addition (RFC 6902, section 4.4). */
  lemma MoveIsRemoveThenAdd(doc: Json, from: seq<string>, path: seq<string>)
    requires GetChecked(doc, from).Ok?
    ensures ApplyOperation(doc, MoveOp(from, path)) ==
            ApplyAll(doc, [RemoveOp(from), AddOp(path, GetChecked(doc, from).value)])
  {
    hide ApplyOperation, MoveOp, RemoveOp, AddOp, PatchRemove, PatchAdd, GetChecked, ApplyAll;
    var v := GetChecked(doc, from).value;
    MoveIs(doc, from, path);
    RemoveIs(doc, from);
    ApplyTwo(doc, RemoveOp(from), AddOp(path, v));
    if PatchRemove(doc, from).Ok? {
      AddIs(PatchRemove(doc, from).value, path, v);
    }
  }

  // ----- children -----

  lemma AddBelow(doc: Json, p: seq<string>, x: string, v: Json)
    requires GetChecked(doc, p).Ok?
    ensures PatchAdd(doc, p + [x], v) == Lift(doc, p, ApplyEdit(GetChecked(doc, p).value, Insert(x, v)))
  {
    hide Apply, PatchAdd, ToString, GetChecked, Lift, ApplyEdit;
    ApplyAdd(doc, p + [x], v);
    AddChild(doc, p, x, v);
  }

  lemma RemoveBelow(doc: Json, p: seq<string>, x: string)
    requires GetChecked(doc, p).Ok?
    ensures PatchRemove(doc, p + [x]) == Lift(doc, p, ApplyEdit(GetChecked(doc, p).value, Erase(x)))
  {
    hide Apply, PatchRemove, ToString, GetChecked, Lift, ApplyEdit;
    ApplyRemove(doc, p + [x]);
    RemoveChild(doc, p, x);
  }

  /** Two edits of the same value, the second of which takes back the first. */
  lemma EditsCancel(doc: Json, p: seq<string>, e: Edit, f: Edit)
    requires GetChecked(doc, p).Ok?
    requires var j := GetChecked(doc, p).value; ApplyEdit(j, e).Ok? && ApplyEdit(ApplyEdit(j, e).value, f) == Ok(j)
    ensures var d := Lift(doc, p, ApplyEdit(GetChecked(doc, p).value, e)).value;
            GetChecked(d, p).Ok? && Lift(d, p, ApplyEdit(GetChecked(d, p).value, f)) == Ok(doc)
  {
    hide GetChecked, ApplyEdit, Put;
    var j := GetChecked(doc, p).value;
    var k := ApplyEdit(j, e).value;
    GetPut(doc, p, k);
    PutPut(doc, p, k, j);
    PutGet(doc, p);
  }

  lemma RemoveUndoes(doc: Json, p: seq<string>, x: string, v: Json)
    requires GetChecked(doc, p).Ok?
    requires var j := GetChecked(doc, p).value;
             ApplyEdit(j, Insert(x, v)).Ok? && ApplyEdit(ApplyEdit(j, Insert(x, v)).value, Erase(x)) == Ok(j)
    ensures ApplyAll(doc, [AddOp(p + [x], v), RemoveOp(p + [x])]) == Ok(doc)
  {
    hide ApplyOperation, ApplyAll, AddOp, RemoveOp, PatchAdd, PatchRemove, GetChecked, ApplyEdit, Put;
    ApplyTwo(doc, AddOp(p + [x], v), RemoveOp(p + [x]));
    AddIs(doc, p + [x], v);
    AddBelow(doc, p, x, v);
    EditsCancel(doc, p, Insert(x, v), Erase(x));
    var d := Lift(doc, p, ApplyEdit(GetChecked(doc, p).value, Insert(x, v))).value;
    RemoveIs(d, p + [x]);
    RemoveBelow(d, p, x);
  }

  lemma AddUndoes(doc: Json, p: seq<string>, x: string, v: Json)
    requires GetChecked(doc, p).Ok?
    requires var j := GetChecked(doc, p).value;
             ApplyEdit(j, Erase(x)).Ok? && ApplyEdit(ApplyEdit(j, Erase(x)).value, Insert(x, v)) == Ok(j)
    ensures ApplyAll(doc, [RemoveOp(p + [x]), AddOp(p + [x], v)]) == Ok(doc)
  {
    hide ApplyOperation, ApplyAll, AddOp, RemoveOp, PatchAdd, PatchRemove, GetChecked, ApplyEdit, Put;
    ApplyTwo(doc, RemoveOp(p + [x]), AddOp(p + [x], v));
    RemoveIs(doc, p + [x]);
    RemoveBelow(doc, p, x);
    EditsCancel(doc, p, Erase(x), Insert(x, v));
    var d := Lift(doc, p, ApplyEdit(GetChecked(doc, p).value, Erase(x))).value;
    AddIs(d, p + [x], v);
    AddBelow(d, p, x, v);
  }

  // ----- elements and members -----

  function Inserted(a: seq<Json>, i: nat, v: Json): (r: seq<Json>)
    requires i <= |a|
  {
    a[..i] + [v] + a[i..]
  }

  function Erased(a: seq<Json>, i: nat): (r: seq<Json>)
    requires i < |a|
  {
    a[..i] + a[i + 1..]
  }

  lemma EraseOfInsert(a: seq<Json>, i: nat, v: Json)
    requires i <= |a|
    ensures Erased(Inserted(a, i, v), i) == a
  {
  }

  lemma InsertOfErase(a: seq<Json>, i: nat)
    requires i < |a|
    ensures Inserted(Erased(a, i), i, a[i]) == a
  {
  }

  lemma ElementEdits(a: seq<Json>, i: nat, v: Json)
    requires i < TWO31
    ensures i <= |a| ==> ApplyEdit(Arr(a), Insert(DecimalText(i), v)) == Ok(Arr(Inserted(a, i, v)))
    ensures i < |a| ==> ApplyEdit(Arr(a), Erase(DecimalText(i))) == Ok(Arr(Erased(a, i)))
    ensures i > |a| ==> ApplyEdit(Arr(a), Insert(DecimalText(i), v)) == Err(OutOfRange)
  {
    hide Stoi, DecimalText;
    StoiOfDecimal(i);
    DecimalIsNotDash(i);
  }

  /** Removing an element that has just been added restores the document, at every position of every
      array in it, the one behind the last element included. */
  lemma RemoveUndoesAdd(doc: Json, p: seq<string>, a: seq<Json>, i: nat, v: Json)
    requires GetChecked(doc, p) == Ok(Arr(a)) && i <= |a| && i < TWO31
    ensures ApplyAll(doc, [AddOp(p + [DecimalText(i)], v), RemoveOp(p + [DecimalText(i)])]) == Ok(doc)
  {
    hide ApplyAll, AddOp, RemoveOp, GetChecked, ApplyEdit, DecimalText, Inserted, Erased;
    ElementEdits(a, i, v);
    InsertedAt(a, i, v);
    ElementEdits(Inserted(a, i, v), i, v);
    EraseOfInsert(a, i, v);
    RemoveUndoes(doc, p, DecimalText(i), v);
  }

  /** Adding back an element that has been removed restores the document. */
  lemma AddUndoesRemove(doc: Json, p: seq<string>, a: seq<Json>, i: nat)
    requires GetChecked(doc, p) == Ok(Arr(a)) && i < |a| && i < TWO31
    ensures ApplyAll(doc, [RemoveOp(p + [DecimalText(i)]), AddOp(p + [DecimalText(i)], a[i])]) == Ok(doc)
  {
    hide ApplyAll, AddOp, RemoveOp, GetChecked, ApplyEdit, DecimalText;
    ElementEdits(a, i, a[i]);
    ElementEdits(Erased(a, i), i, a[i]);
    InsertOfErase(a, i);
    AddUndoes(doc, p, DecimalText(i), a[i]);
  }

  /** The same for members; adding over an existing member is not undone by removing it. */
  lemma RemoveUndoesAddIff(doc: Json, p: seq<string>, m: map<string, Json>, k: string, v: Json)
    requires GetChecked(doc, p) == Ok(Obj(m))
    ensures ApplyAll(doc, [AddOp(p + [k], v), RemoveOp(p + [k])]) == Ok(doc) <==> k !in m
  {
    hide ApplyAll, AddOp, RemoveOp, GetChecked, ApplyOperation, PatchAdd, PatchRemove, Put;
    if k !in m {
      assert m[k := v] - {k} == m;
      RemoveUndoes(doc, p, k, v);
    } else {
      AddRemoveMember(doc, p, m, k, v);
      assert k !in m - {k};
    }
  }

  lemma AddRemoveMember(doc: Json, p: seq<string>, m: map<string, Json>, k: string, v: Json)
    requires GetChecked(doc, p) == Ok(Obj(m))
    ensures var r := ApplyAll(doc, [AddOp(p + [k], v), RemoveOp(p + [k])]);
            r.Ok? && GetChecked(r.value, p) == Ok(Obj(m - {k}))
  {
    hide ApplyAll, AddOp, RemoveOp, GetChecked, ApplyOperation, PatchAdd, PatchRemove, Put;
    ApplyTwo(doc, AddOp(p + [k], v), RemoveOp(p + [k]));
    AddIs(doc, p + [k], v);
    AddBelow(doc, p, k, v);
    var d := Put(doc, p, Obj(m[k := v]));
    GetPut(doc, p, Obj(m[k := v]));
    RemoveIs(d, p + [k]);
    RemoveBelow(d, p, k);
    assert m[k := v] - {k} == m - {k};
    GetPut(d, p, Obj(m - {k}));
  }

  /** A copy to a position of an array does what an addition does exactly when the position is the one
      behind the last element: an existing element is overwritten, where RFC 6902 (section 4.5) inserts. */
  lemma CopyIsAddIff(doc: Json, p: seq<string>, a: seq<Json>, i: nat, from: seq<string>)
    requires GetChecked(doc, p) == Ok(Arr(a)) && i <= |a| && i < TWO31 && GetChecked(doc, from).Ok?
    ensures ApplyOperation(doc, CopyOp(from, p + [DecimalText(i)]))
            == ApplyOperation(doc, AddOp(p + [DecimalText(i)], GetChecked(doc, from).value))
            <==> i == |a|
  {
    hide ApplyOperation, CopyOp, AddOp, PatchAdd, GetChecked, EditUnchecked, DecimalText, ApplyEdit, Put, Inserted;
    var x, v := DecimalText(i), GetChecked(doc, from).value;
    CopyIs(doc, from, p + [x]);
    AddIs(doc, p + [x], v);
    AddBelow(doc, p, x, v);
    EditUncheckedAt(doc, p, [x], Assign(v));
    ElementEdits(a, i, v);
    CopiedElement(a, i, v);
    var copied := if i < |a| then a[i := v] else a + [v];
    GetPut(doc, p, Arr(copied));
    GetPut(doc, p, Arr(Inserted(a, i, v)));
    InsertedLast(a, i, v);
  }

  lemma InsertedLast(a: seq<Json>, i: nat, v: Json)
    requires i <= |a|
    ensures |Inserted(a, i, v)| == |a| + 1 && (i == |a| ==> Inserted(a, i, v) == a + [v])
  {
  }

  lemma CopiedElement(a: seq<Json>, i: nat, v: Json)
    requires i <= |a| && i < TWO31
    ensures EditUnchecked(Arr(a), [DecimalText(i)], Assign(v)) == Ok(Arr(if i < |a| then a[i := v] else a + [v]))
  {
    hide DecimalText, Stoi;
    var x := DecimalText(i);
    StoiOfDecimal(i);
    DecimalIsNotDash(i);
    DecimalValue(i);
    assert [x][1..] == [];
    assert UncheckedIndex(x, |a|) == Ok(i);
    assert EditUnchecked(Padded(a, i)[i], [], Assign(v)) == Ok(v);
    assert Padded(a, i)[i := v] == if i < |a| then a[i := v] else a + [v];
  }

  /** A copy to a member is an addition. */
  lemma CopyToMemberIsAdd(doc: Json, p: seq<string>, m: map<string, Json>, k: string, from: seq<string>)
    requires GetChecked(doc, p) == Ok(Obj(m)) && GetChecked(doc, from).Ok?
    ensures ApplyOperation(doc, CopyOp(from, p + [k]))
            == ApplyOperation(doc, AddOp(p + [k], GetChecked(doc, from).value))
  {
    hide ApplyOperation, CopyOp, AddOp, PatchAdd, GetChecked, Put;
    var v := GetChecked(doc, from).value;
    CopyIs(doc, from, p + [k]);
    AddIs(doc, p + [k], v);
    AddBelow(doc, p, k, v);
    EditUncheckedAt(doc, p, [k], Assign(v));
    assert [k][1..] == [];
  }

  // ----- moves within an array -----

  lemma MoveBelow(doc: Json, p: seq<string>, a: seq<Json>, i: nat, j: nat)
    requires GetChecked(doc, p) == Ok(Arr(a)) && i < |a| && j < |a| && i < TWO31 && j < TWO31
    ensures ApplyOperation(doc, MoveOp(p + [DecimalText(i)], p + [DecimalText(j)])) ==
            Ok(Put(doc, p, Arr(Inserted(Erased(a, i), j, a[i]))))
  {
    hide ApplyOperation, MoveOp, PatchAdd, PatchRemove, GetChecked, DecimalText, ApplyEdit, Put, Inserted;
    var x, y := DecimalText(i), DecimalText(j);
    MoveIs(doc, p + [x], p + [y]);
    GetAt(doc, p, [x]);
    GetElement(a, i);
    RemoveBelow(doc, p, x);
    ElementEdits(a, i, a[i]);
    var b := Erased(a, i);
    GetPut(doc, p, Arr(b));
    AddBelow(Put(doc, p, Arr(b)), p, y, a[i]);
    ElementEdits(b, j, a[i]);
    PutPut(doc, p, Arr(b), Arr(Inserted(b, j, a[i])));
  }

  lemma InsertedAt(b: seq<Json>, j: nat, v: Json)
    requires j <= |b|
    ensures |Inserted(b, j, v)| == |b| + 1 && Inserted(b, j, v)[j] == v
  {
  }

  /** Moving an element within its array and moving it back restores the document. */
  lemma MoveBackRestores(doc: Json, p: seq<string>, a: seq<Json>, i: nat, j: nat)
    requires GetChecked(doc, p) == Ok(Arr(a)) && i < |a| && j < |a| && i < TWO31 && j < TWO31
    ensures var x, y := p + [DecimalText(i)], p + [DecimalText(j)];
            ApplyAll(doc, [MoveOp(x, y), MoveOp(y, x)]) == Ok(doc)
  {
    hide ApplyAll, ApplyOperation, MoveOp, GetChecked, DecimalText, Put, Inserted, Erased;
    var x, y := p + [DecimalText(i)], p + [DecimalText(j)];
    var b := Erased(a, i);
    ErasedLength(a, i);
    var c := Inserted(b, j, a[i]);
    ApplyTwo(doc, MoveOp(x, y), MoveOp(y, x));
    MoveBelow(doc, p, a, i, j);
    GetPut(doc, p, Arr(c));
    InsertedAt(b, j, a[i]);
    MoveBelow(Put(doc, p, Arr(c)), p, c, j, i);
    EraseOfInsert(b, j, a[i]);
    InsertOfErase(a, i);
    PutPut(doc, p, Arr(c), Arr(a));
    PutGet(doc, p);
  }

  lemma ErasedLength(a: seq<Json>, i: nat)
    requires i < |a|
    ensures |Erased(a, i)| == |a| - 1
  {
  }
}
