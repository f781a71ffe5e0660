/** How the walks of JsonPatch compose: an edit at a longer path is an edit of the value at its
    prefix, and nothing else in the document changes. */
module JsonPaths {
  import opened Strings
  import opened JsonValue
  import opened JsonPointer
  import opened Decimal
  import opened JsonPatch

  /** The document with the value at `p` replaced. */
  function Put(doc: Json, p: seq<string>, v: Json): Json
    requires GetChecked(doc, p).Ok?
    decreases |p|
  {
    if p == [] then v
    else match doc
      case Obj(m) => Obj(m[p[0] := Put(m[p[0]], p[1..], v)])
      case Arr(a) =>
        var i := CheckedIndex(p[0], |a|).value;
        Arr(a[i := Put(a[i], p[1..], v)])
      case _ => doc
  }

  /** An edit of the value at `p` seen from the document that holds it. */
  function Lift(doc: Json, p: seq<string>, r: Result<Json>): Result<Json>
    requires GetChecked(doc, p).Ok?
  {
    match r
    case Ok(v) => Ok(Put(doc, p, v))
    case Err(e) => Err(e)
  }

  lemma {:induction false} GetPut(doc: Json, p: seq<string>, v: Json)
    requires GetChecked(doc, p).Ok?
    ensures GetChecked(Put(doc, p, v), p) == Ok(v)
    decreases |p|
  {
    hide CheckedIndex;
    if p != [] {
      match doc
      case Obj(m) => GetPut(m[p[0]], p[1..], v);
      case Arr(a) => GetPut(a[CheckedIndex(p[0], |a|).value], p[1..], v);
      case _ =>
    }
  }

  lemma {:induction false} PutGet(doc: Json, p: seq<string>)
    requires GetChecked(doc, p).Ok?
    ensures Put(doc, p, GetChecked(doc, p).value) == doc
    decreases |p|
  {
    hide CheckedIndex;
    if p != [] {
      match doc
      case Obj(m) =>
        PutGet(m[p[0]], p[1..]);
        assert m[p[0] := m[p[0]]] == m;
      case Arr(a) => PutGet(a[CheckedIndex(p[0], |a|).value], p[1..]);
      case _ =>
    }
  }

  lemma PutInObject(m: map<string, Json>, p: seq<string>, v: Json)
    requires p != [] && p[0] in m && GetChecked(m[p[0]], p[1..]).Ok?
    ensures GetChecked(Obj(m), p).Ok? && Put(Obj(m), p, v) == Obj(m[p[0] := Put(m[p[0]], p[1..], v)])
  {
  }

  lemma PutInArray(a: seq<Json>, p: seq<string>, i: nat, v: Json)
    requires p != [] && CheckedIndex(p[0], |a|) == Ok(i) && GetChecked(a[i], p[1..]).Ok?
    ensures GetChecked(Arr(a), p).Ok? && Put(Arr(a), p, v) == Arr(a[i := Put(a[i], p[1..], v)])
  {
    hide CheckedIndex;
  }

  lemma {:induction false} PutPut(doc: Json, p: seq<string>, v: Json, w: Json)
    requires GetChecked(doc, p).Ok?
    ensures GetChecked(Put(doc, p, v), p).Ok? && Put(Put(doc, p, v), p, w) == Put(doc, p, w)
    decreases |p|
  {
    hide CheckedIndex, Put;
    GetPut(doc, p, v);
    if p == [] {
      PutHere(doc, v);
      PutHere(doc, w);
      PutHere(v, w);
    } else {
      match doc
      case Obj(m) =>
        PutPut(m[p[0]], p[1..], v, w);
        var x, y := Put(m[p[0]], p[1..], v), Put(m[p[0]], p[1..], w);
        PutInObject(m, p, v);
        PutInObject(m, p, w);
        PutInObject(m[p[0] := x], p, w);
        assert m[p[0] := x][p[0] := y] == m[p[0] := y];
      case Arr(a) =>
        var i := CheckedIndex(p[0], |a|).value;
        PutPut(a[i], p[1..], v, w);
        var x, y := Put(a[i], p[1..], v), Put(a[i], p[1..], w);
        PutInArray(a, p, i, v);
        PutInArray(a, p, i, w);
        PutInArray(a[i := x], p, i, w);
        assert a[i := x][i := y] == a[i := y];
      case _ =>
    }
  }

  lemma PutHere(doc: Json, v: Json)
    ensures Put(doc, [], v) == v
  {
  }

  lemma {:induction false} GetAt(doc: Json, p: seq<string>, q: seq<string>)
    requires GetChecked(doc, p).Ok?
    ensures GetChecked(doc, p + q) == GetChecked(GetChecked(doc, p).value, q)
    decreases |p|
  {
    hide CheckedIndex;
    if p == [] {
      assert p + q == q;
    } else {
      assert (p + q)[1..] == p[1..] + q;
      match doc
      case Obj(m) => GetAt(m[p[0]], p[1..], q);
      case Arr(a) => GetAt(a[CheckedIndex(p[0], |a|).value], p[1..], q);
      case _ =>
    }
  }

  lemma {:induction false} EditAt(doc: Json, p: seq<string>, q: seq<string>, e: Edit)
    requires GetChecked(doc, p).Ok?
    ensures EditChecked(doc, p + q, e) == Lift(doc, p, EditChecked(GetChecked(doc, p).value, q, e))
    decreases |p|
  {
    hide CheckedIndex, ApplyEdit;
    if p == [] {
      assert p + q == q;
    } else {
      assert (p + q)[1..] == p[1..] + q;
      match doc
      case Obj(m) => EditAt(m[p[0]], p[1..], q, e);
      case Arr(a) => EditAt(a[CheckedIndex(p[0], |a|).value], p[1..], q, e);
      case _ =>
    }
  }

  lemma SameIndex(token: string, size: nat)
    requires CheckedIndex(token, size).Ok?
    ensures UncheckedIndex(token, size) == CheckedIndex(token, size)
  {
  }

  lemma {:induction false} EditUncheckedAt(doc: Json, p: seq<string>, q: seq<string>, e: Edit)
    requires GetChecked(doc, p).Ok?
    ensures EditUnchecked(doc, p + q, e) == Lift(doc, p, EditUnchecked(GetChecked(doc, p).value, q, e))
    decreases |p|
  {
    hide CheckedIndex, UncheckedIndex, ApplyEdit;
    if p == [] {
      assert p + q == q;
    } else {
      assert (p + q)[1..] == p[1..] + q;
      match doc
      case Obj(m) => EditUncheckedAt(m[p[0]], p[1..], q, e);
      case Arr(a) =>
        SameIndex(p[0], |a|);
        EditUncheckedAt(a[CheckedIndex(p[0], |a|).value], p[1..], q, e);
      case _ =>
    }
  }

  lemma TopExists(doc: Json, p: seq<string>)
    requires p != [] && GetChecked(doc, p).Ok?
    ensures GetChecked(doc, p[..1]).Ok?
  {
    assert p[..1][1..] == [];
  }

  /** An index below 2^31 resolves; a larger one does not fit `stoi`. */
  lemma IndexResolves(i: nat, size: nat)
    requires i < size
    ensures CheckedIndex(DecimalText(i), size) == if i < TWO31 then Ok(i) else Err(OutOfRange)
    ensures UncheckedIndex(DecimalText(i), size) == if i < TWO31 then Ok(i) else Err(OutOfRange)
  {
    hide Stoi, DecimalText, DigitsValue;
    DecimalValue(i);
    StoiOfDecimal(i);
    assert IsDigit(DecimalText(i)[0]);
  }

  lemma GetElement(a: seq<Json>, i: nat)
    requires i < |a| && i < TWO31
    ensures GetChecked(Arr(a), [DecimalText(i)]) == Ok(a[i])
  {
    hide CheckedIndex;
    IndexResolves(i, |a|);
    assert [DecimalText(i)][1..] == [];
  }

  lemma PutElement(a: seq<Json>, i: nat, v: Json)
    requires i < |a| && i < TWO31
    ensures GetChecked(Arr(a), [DecimalText(i)]).Ok? && Put(Arr(a), [DecimalText(i)], v) == Arr(a[i := v])
  {
    hide CheckedIndex;
    IndexResolves(i, |a|);
    assert [DecimalText(i)][1..] == [];
  }

  lemma GetMember(m: map<string, Json>, k: string)
    requires k in m
    ensures GetChecked(Obj(m), [k]) == Ok(m[k])
  {
    assert [k][1..] == [];
  }

  lemma PutMember(m: map<string, Json>, k: string, v: Json)
    requires k in m
    ensures GetChecked(Obj(m), [k]).Ok? && Put(Obj(m), [k], v) == Obj(m[k := v])
  {
    assert [k][1..] == [];
  }

  /** Replacing below `p` replaces at `p`. */
  lemma {:induction false} PutAt(doc: Json, p: seq<string>, q: seq<string>, v: Json)
    requires GetChecked(doc, p).Ok? && GetChecked(GetChecked(doc, p).value, q).Ok?
    ensures GetChecked(doc, p + q).Ok? && Put(doc, p + q, v) == Put(doc, p, Put(GetChecked(doc, p).value, q, v))
    decreases |p|
  {
    hide CheckedIndex;
    GetAt(doc, p, q);
    if p == [] {
      assert p + q == q;
    } else {
      assert (p + q)[1..] == p[1..] + q;
      match doc
      case Obj(m) => PutAt(m[p[0]], p[1..], q, v);
      case Arr(a) => PutAt(a[CheckedIndex(p[0], |a|).value], p[1..], q, v);
      case _ =>
    }
  }

  // ----- path texts -----

  lemma {:induction false} DigitsAreNotEscaped(s: string)
    requires AllDigits(s)
    ensures Escape(s) == s
  {
    hide Escape;
    EscapeMeaning(s);
    EscapedDigits(s);
  }

  lemma {:induction false} EscapedDigits(s: string)
    requires AllDigits(s)
    ensures Escaped(s) == s
  {
    if s != "" {
      assert IsDigit(s[0]);
      EscapedDigits(s[1..]);
      assert s == [s[0]] + s[1..];
    }
  }

  lemma IndexPathText(p: seq<string>, i: nat)
    ensures IndexPath(ToString(p), i) == ToString(p + [DecimalText(i)])
  {
    hide Escape, ToString, DecimalText;
    DigitsAreNotEscaped(DecimalText(i));
    ToStringAppend(p, [DecimalText(i)]);
    ToStringOne(DecimalText(i));
    AppendAssociative(ToString(p), "/", DecimalText(i));
  }

  lemma KeyPathText(p: seq<string>, k: string)
    ensures KeyPath(ToString(p), k) == ToString(p + [k])
  {
    hide Escape, ToString;
    ToStringAppend(p, [k]);
    ToStringOne(k);
    AppendAssociative(ToString(p), "/", Escape(k));
  }
}
