/** The promise of json.hpp:10187-10191: applying `diff(source, target)` to the source yields the
    target. It holds exactly when no array index in the patch is too large for `std::stoi`. */
module JsonDiff {
  import opened Strings
  import opened JsonValue
  import opened JsonPointer
  import opened Decimal
  import opened Ordering
  import opened JsonPatch
  import opened JsonPaths

  // ----- what patching yields, and when -----

  /** The source with everything that differs replaced by the target's value. Where the comparison
      operator finds no difference, the source's value stays (a signed number may stay signed). */
  function Patched(s: Json, t: Json): Json
    decreases s
  {
    if Equal(s, t) then s
    else match (s, t)
      case (Arr(a), Arr(b)) =>
        Arr(seq(|b|, i requires 0 <= i < |b| => if i < |a| then Patched(a[i], b[i]) else b[i]))
      case (Obj(m), Obj(n)) =>
        Obj(map k | k in n :: if k in m then Patched(m[k], n[k]) else n[k])
      case _ => t
  }

  /** No differing array position lies at or beyond index 2^31. */
  predicate Fits(s: Json, t: Json)
    decreases s
  {
    Equal(s, t) ||
    match (s, t)
    case (Arr(a), Arr(b)) =>
      && (|a| == |b| || (|a| <= TWO31 && |b| <= TWO31))
      && forall i | 0 <= i < |a| && i < |b| :: Equal(a[i], b[i]) || (i < TWO31 && Fits(a[i], b[i]))
    case (Obj(m), Obj(n)) =>
      forall k | k in m && k in n :: Fits(m[k], n[k])
    case _ => true
  }

  lemma {:induction false} PatchedEqualsTarget(s: Json, t: Json)
    ensures Equal(Patched(s, t), t)
  {
    if !Equal(s, t) {
      match (s, t)
      case (Arr(a), Arr(b)) =>
        forall i | 0 <= i < |b| ensures Equal(Patched(s, t).elems[i], b[i]) {
          if i < |a| {
            PatchedEqualsTarget(a[i], b[i]);
          } else {
            EqualReflexive(b[i]);
          }
        }
      case (Obj(m), Obj(n)) =>
        forall k | k in n ensures Equal(Patched(s, t).members[k], n[k]) {
          if k in m {
            PatchedEqualsTarget(m[k], n[k]);
          } else {
            EqualReflexive(n[k]);
          }
        }
      case _ => EqualReflexive(t);
    }
  }

  // ----- applying operations -----

  function Apply(doc: Json, ops: seq<Op>): Result<Json> {
    ApplyAll(doc, Documents(ops))
  }

  function Then(r: Result<Json>, ops: seq<Op>): Result<Json> {
    match r
    case Ok(doc) => Apply(doc, ops)
    case Err(e) => Err(e)
  }

  lemma {:induction false} ApplyAllAppend(doc: Json, a: seq<Json>, b: seq<Json>)
    ensures ApplyAll(doc, a + b) == match ApplyAll(doc, a) case Ok(d) => ApplyAll(d, b) case Err(e) => Err(e)
    decreases |a|
  {
    hide ApplyOperation;
    if a == [] {
      assert a + b == b;
    } else {
      assert (a + b)[1..] == a[1..] + b;
      var next := ApplyOperation(doc, a[0]);
      if next.Ok? {
        ApplyAllAppend(next.value, a[1..], b);
      }
    }
  }

  lemma ApplyAppend(doc: Json, a: seq<Op>, b: seq<Op>)
    ensures Apply(doc, a + b) == Then(Apply(doc, a), b)
  {
    hide ApplyAll, Documents;
    DocumentsAppend(a, b);
    ApplyAllAppend(doc, Documents(a), Documents(b));
  }

  lemma DocumentsAppend(a: seq<Op>, b: seq<Op>)
    ensures Documents(a + b) == Documents(a) + Documents(b)
  {
    hide Document;
  }

  lemma ApplyNone(doc: Json)
    ensures Apply(doc, []) == Ok(doc)
  {
  }

  lemma ApplyOne(doc: Json, op: Op)
    ensures Apply(doc, [op]) == ApplyOperation(doc, Document(op))
  {
    hide ApplyOperation, Document;
    var ds := [Document(op)];
    assert Documents([op]) == ds && ds[1..] == [];
    var next := ApplyOperation(doc, ds[0]);
    if next.Ok? {
      assert ApplyAll(next.value, []) == next;
    }
  }

  // What the operations of a diff do, once their path text has been split again.

  lemma ApplyReplace(doc: Json, p: seq<string>, v: Json)
    ensures Apply(doc, [Replace(ToString(p), v)]) == if GetChecked(doc, p).Ok? then Ok(Put(doc, p, v))
            else Err(GetChecked(doc, p).error)
  {
    hide ToString, Split, GetChecked, EditChecked;
    ApplyOne(doc, Replace(ToString(p), v));
    SplitOfToString(p);
    if GetChecked(doc, p).Ok? {
      AssignIsPut(doc, p, v);
    }
  }

  lemma AssignIsPut(doc: Json, p: seq<string>, v: Json)
    requires GetChecked(doc, p).Ok?
    ensures EditChecked(doc, p, Assign(v)) == Ok(Put(doc, p, v))
  {
    EditAt(doc, p, [], Assign(v));
    assert p + [] == p;
  }

  lemma ApplyRemove(doc: Json, p: seq<string>)
    ensures Apply(doc, [Remove(ToString(p))]) == PatchRemove(doc, p)
  {
    hide ToString, Split, PatchRemove;
    ApplyOne(doc, Remove(ToString(p)));
    SplitOfToString(p);
  }

  lemma ApplyAdd(doc: Json, p: seq<string>, v: Json)
    ensures Apply(doc, [Add(ToString(p), v)]) == PatchAdd(doc, p, v)
  {
    hide ToString, Split, PatchAdd;
    ApplyOne(doc, Add(ToString(p), v));
    SplitOfToString(p);
  }

  /** Removing a child of the value at `p`. */
  lemma RemoveChild(doc: Json, p: seq<string>, x: string)
    requires GetChecked(doc, p).Ok?
    ensures Apply(doc, [Remove(ToString(p + [x]))]) == Lift(doc, p, ApplyEdit(GetChecked(doc, p).value, Erase(x)))
  {
    hide Apply, ToString, GetChecked, Lift, ApplyEdit;
    ApplyRemove(doc, p + [x]);
    assert (p + [x])[..|p|] == p && p + [] == p;
    EditAt(doc, p, [], Erase(x));
  }

  /** Adding a child to the value at `p`. */
  lemma AddChild(doc: Json, p: seq<string>, x: string, v: Json)
    requires GetChecked(doc, p).Ok?
    ensures Apply(doc, [Add(ToString(p + [x]), v)]) == Lift(doc, p, ApplyEdit(GetChecked(doc, p).value, Insert(x, v)))
  {
    hide Apply, ToString, GetChecked, Lift, ApplyEdit;
    ApplyAdd(doc, p + [x], v);
    assert (p + [x])[..|p|] == p && p + [] == p;
    EditUncheckedAt(doc, p, [], Insert(x, v));
    if p != [] {
      TopExists(doc, p);
      assert (p + [x])[..1] == p[..1];
    }
  }

  // ----- the induction -----

  /** Applying `diff(s, t, path)` to any document that holds `s` at that path replaces exactly that
      value; it fails, with out_of_range, exactly when some index does not fit. */
  lemma {:induction false} DiffApplies(doc: Json, p: seq<string>, s: Json, t: Json)
    requires GetChecked(doc, p) == Ok(s)
    ensures Apply(doc, DiffOps(s, t, ToString(p))) == if Fits(s, t) then Ok(Put(doc, p, Patched(s, t)))
            else Err(OutOfRange)
    decreases s, 1, 0
  {
    hide ToString, Put, GetChecked, Apply;
    var path := ToString(p);
    if Equal(s, t) {
      ApplyNone(doc);
      PutGet(doc, p);
    } else if SameType(s, t) && s.Arr? {
      ArrayDiffApplies(doc, p, s, t);
    } else if SameType(s, t) && s.Obj? {
      ObjectDiffApplies(doc, p, s, t);
    } else {
      ApplyReplace(doc, p, t);
    }
  }

  // Arrays.

  /** The array after its first `n` common elements have been patched. */
  function Mixed(a: seq<Json>, b: seq<Json>, n: nat): (r: seq<Json>)
    requires n <= |a| && n <= |b|
    ensures |r| == |a|
  {
    seq(|a|, i requires 0 <= i < |a| => if i < n then Patched(a[i], b[i]) else a[i])
  }

  predicate FitsAt(a: seq<Json>, b: seq<Json>, i: nat)
    requires i < |a| && i < |b|
  {
    Equal(a[i], b[i]) || (i < TWO31 && Fits(a[i], b[i]))
  }

  predicate FitsFrom(a: seq<Json>, b: seq<Json>, i: nat) {
    forall k | i <= k < |a| && k < |b| :: FitsAt(a, b, k)
  }

  function Common(a: seq<Json>, b: seq<Json>): (n: nat)
    ensures n <= |a| && n <= |b| && (n == |a| || n == |b|)
  {
    if |a| <= |b| then |a| else |b|
  }

  lemma {:induction false} ArrayDiffApplies(doc: Json, p: seq<string>, s: Json, t: Json)
    requires GetChecked(doc, p) == Ok(s) && s.Arr? && t.Arr? && !Equal(s, t)
    ensures Apply(doc, DiffOps(s, t, ToString(p))) == if Fits(s, t) then Ok(Put(doc, p, Patched(s, t)))
            else Err(OutOfRange)
    decreases s, 0, |s.elems| + 1
  {
    hide ToString, Put, GetChecked, Apply, Removals, Additions, DiffElements, Fits, Patched, Mixed, FitsFrom, Equal;
    var a, b, path := s.elems, t.elems, ToString(p);
    var c := Mixed(a, b, Common(a, b));
    ArrayFacts(s, t);
    PutGet(doc, p);
    ElementsApply(doc, p, s, t, 0);
    ArrayDiffSplits(s, t, path);
    ApplyAppend(doc, DiffElements(s, t, path, 0) + Removals(path, |b|, |a|), Additions(b, path, |a|));
    ApplyAppend(doc, DiffElements(s, t, path, 0), Removals(path, |b|, |a|));
    RemovalsApply(doc, p, c, |b|);
    if |b| < |a| {
      AdditionsApply(doc, p, c[..|b|], b, |a|);
    } else {
      AdditionsApply(doc, p, c, b, |a|);
    }
  }

  lemma ArrayDiffSplits(s: Json, t: Json, path: string)
    requires s.Arr? && t.Arr? && !Equal(s, t)
    ensures DiffOps(s, t, path) ==
            DiffElements(s, t, path, 0) + Removals(path, |t.elems|, |s.elems|) + Additions(t.elems, path, |s.elems|)
  {
  }

  lemma ArrayFacts(s: Json, t: Json)
    requires s.Arr? && t.Arr? && !Equal(s, t)
    ensures var a, b := s.elems, t.elems; var c := Mixed(a, b, Common(a, b));
            && Mixed(a, b, 0) == a
            && (|a| == |b| ==> Patched(s, t) == Arr(c))
            && (|b| < |a| ==> Patched(s, t) == Arr(c[..|b|]))
            && (|a| < |b| ==> Patched(s, t) == Arr(c + b[|a|..]))
            && (Fits(s, t) <==> FitsFrom(a, b, 0) && (|a| == |b| || (|a| <= TWO31 && |b| <= TWO31)))
  {
    hide Equal, Patched, Mixed, Fits, FitsFrom;
    MixedNothing(s.elems, t.elems);
    MixedCommon(s, t);
    FitsArray(s, t);
  }

  lemma MixedNothing(a: seq<Json>, b: seq<Json>)
    ensures Mixed(a, b, 0) == a
  {
    hide Patched;
  }

  lemma MixedCommon(s: Json, t: Json)
    requires s.Arr? && t.Arr? && !Equal(s, t)
    ensures var a, b := s.elems, t.elems; var c := Mixed(a, b, Common(a, b));
            Patched(s, t) == Arr(if |b| <= |a| then c[..|b|] else c + b[|a|..])
  {
    hide Equal;
    var a, b := s.elems, t.elems;
    var c := Mixed(a, b, Common(a, b));
    assert Patched(s, t).elems == if |b| <= |a| then c[..|b|] else c + b[|a|..];
  }

  lemma FitsArray(s: Json, t: Json)
    requires s.Arr? && t.Arr? && !Equal(s, t)
    ensures var a, b := s.elems, t.elems;
            Fits(s, t) <==> FitsFrom(a, b, 0) && (|a| == |b| || (|a| <= TWO31 && |b| <= TWO31))
  {
    hide Equal;
    var a, b := s.elems, t.elems;
    if FitsFrom(a, b, 0) && (|a| == |b| || (|a| <= TWO31 && |b| <= TWO31)) {
      forall i | 0 <= i < |a| && i < |b| ensures Equal(a[i], b[i]) || (i < TWO31 && Fits(a[i], b[i])) {
        assert FitsAt(a, b, i);
      }
    }
  }

  /** The recursive calls on the common elements, from index `i` on. */
  lemma {:induction false} ElementsApply(doc: Json, p: seq<string>, s: Json, t: Json, i: nat)
    requires GetChecked(doc, p).Ok? && s.Arr? && t.Arr? && i <= Common(s.elems, t.elems)
    ensures Apply(Put(doc, p, Arr(Mixed(s.elems, t.elems, i))), DiffElements(s, t, ToString(p), i)) ==
            if FitsFrom(s.elems, t.elems, i) then
              Ok(Put(doc, p, Arr(Mixed(s.elems, t.elems, Common(s.elems, t.elems)))))
            else Err(OutOfRange)
    decreases s, 0, |s.elems| - i
  {
    hide ToString, Put, GetChecked, Apply, DiffOps, Fits, Patched, Equal, Mixed, FitsAt, IndexPath;
    var a, b, path := s.elems, t.elems, ToString(p);
    var now := Put(doc, p, Arr(Mixed(a, b, i)));
    if i == Common(a, b) {
      ApplyNone(now);
    } else {
      ApplyAppend(now, DiffOps(a[i], b[i], IndexPath(path, i)), DiffElements(s, t, path, i + 1));
      ElementApplies(doc, p, s, t, i);
      if FitsAt(a, b, i) {
        ElementsApply(doc, p, s, t, i + 1);
      }
    }
  }

  lemma CommonBound(a: seq<Json>, b: seq<Json>)
    ensures Common(a, b) <= |a| && Common(a, b) <= |b|
  {
  }

  /** One more element is patched; patching an equal one changes nothing. */
  lemma MixedNext(a: seq<Json>, b: seq<Json>, i: nat)
    requires i < |a| && i < |b|
    ensures Mixed(a, b, i)[i] == a[i] && Mixed(a, b, i + 1) == Mixed(a, b, i)[i := Patched(a[i], b[i])]
    ensures Equal(a[i], b[i]) ==> Mixed(a, b, i + 1) == Mixed(a, b, i)
  {
    hide Equal;
    assert Equal(a[i], b[i]) ==> Patched(a[i], b[i]) == a[i];
  }

  lemma {:induction false} ElementApplies(doc: Json, p: seq<string>, s: Json, t: Json, i: nat)
    requires GetChecked(doc, p).Ok? && s.Arr? && t.Arr? && i < Common(s.elems, t.elems)
    ensures Apply(Put(doc, p, Arr(Mixed(s.elems, t.elems, i))),
            DiffOps(s.elems[i], t.elems[i], IndexPath(ToString(p), i))) ==
            if FitsAt(s.elems, t.elems, i) then Ok(Put(doc, p, Arr(Mixed(s.elems, t.elems, i + 1))))
                else Err(OutOfRange)
    decreases s, 0, |s.elems| - i, 0
  {
    hide ToString, Put, GetChecked, Apply, DiffOps, Fits, Equal, Patched, Mixed, IndexPath, DecimalText, Common;
    var a, b, q := s.elems, t.elems, [DecimalText(i)];
    var c := Mixed(a, b, i);
    var now := Put(doc, p, Arr(c));
    CommonBound(a, b);
    MixedNext(a, b, i);
    GetPut(doc, p, Arr(c));
    IndexPathText(p, i);
    if i < TWO31 {
      GetElement(c, i);
      GetAt(now, p, q);
      DiffApplies(now, p + q, a[i], b[i]);
      EqualFits(a[i], b[i]);
      PutElement(c, i, Patched(a[i], b[i]));
      PutAt(now, p, q, Patched(a[i], b[i]));
      PutPut(doc, p, Arr(c), Arr(c[i := Patched(a[i], b[i])]));
    } else if Equal(a[i], b[i]) {
      EqualDiff(a[i], b[i], IndexPath(ToString(p), i));
      ApplyNone(now);
    } else {
      LargeIndexFails(now, p, c, i, a[i], b[i]);
    }
  }

  lemma EqualFits(s: Json, t: Json)
    ensures Equal(s, t) ==> Fits(s, t)
  {
  }

  lemma EqualDiff(s: Json, t: Json, path: string)
    requires Equal(s, t)
    ensures DiffOps(s, t, path) == [] && Patched(s, t) == s
  {
  }

  /** From the last element down to index `from`. */
  lemma {:induction false} RemovalsApply(doc: Json, p: seq<string>, c: seq<Json>, from: nat)
    requires GetChecked(doc, p).Ok?
    ensures Apply(Put(doc, p, Arr(c)), Removals(ToString(p), from, |c|)) ==
            if from >= |c| then Ok(Put(doc, p, Arr(c)))
            else if |c| <= TWO31 then Ok(Put(doc, p, Arr(c[..from])))
            else Err(OutOfRange)
    decreases |c| - from
  {
    hide ToString, Put, GetChecked, Apply, Stoi, DecimalText;
    var path, now := ToString(p), Put(doc, p, Arr(c));
    if from >= |c| {
      ApplyNone(now);
    } else {
      RemovalsApply(doc, p, c, from + 1);
      ApplyAppend(now, Removals(path, from + 1, |c|), [Remove(IndexPath(path, from))]);
      assert c[..|c|] == c;
      var x := c[..from + 1];
      if |c| <= TWO31 || from + 1 == |c| {
        IndexPathText(p, from);
        GetPut(doc, p, Arr(x));
        RemoveChild(Put(doc, p, Arr(x)), p, DecimalText(from));
        StoiOfDecimal(from);
        assert x[..from] + x[from + 1..] == c[..from];
        PutPut(doc, p, Arr(x), Arr(c[..from]));
      }
    }
  }

  /** Elements of the target from index `i` on are appended. */
  lemma {:induction false} AdditionsApply(doc: Json, p: seq<string>, c: seq<Json>, b: seq<Json>, i: nat)
    requires GetChecked(doc, p).Ok? && (i < |b| ==> |c| == i)
    ensures Apply(Put(doc, p, Arr(c)), Additions(b, ToString(p), i)) ==
            if i >= |b| then Ok(Put(doc, p, Arr(c)))
            else if |b| <= TWO31 then Ok(Put(doc, p, Arr(c + b[i..])))
            else Err(OutOfRange)
    decreases |b| - i
  {
    hide ToString, Put, GetChecked, Apply, Stoi, DecimalText;
    var path, now := ToString(p), Put(doc, p, Arr(c));
    if i >= |b| {
      ApplyNone(now);
    } else {
      var x := c + [b[i]];
      ApplyAppend(now, [Add(IndexPath(path, i), b[i])], Additions(b, path, i + 1));
      IndexPathText(p, i);
      GetPut(doc, p, Arr(c));
      AddChild(now, p, DecimalText(i), b[i]);
      StoiOfDecimal(i);
      DecimalIsNotDash(i);
      assert c[..i] + [b[i]] + c[i..] == x;
      PutPut(doc, p, Arr(c), Arr(x));
      AdditionsApply(doc, p, x, b, i + 1);
      assert x + b[i + 1..] == c + b[i..];
      assert i + 1 == |b| ==> x == c + b[i..];
    }
  }

  lemma DecimalIsNotDash(i: nat)
    ensures DecimalText(i) != "-"
  {
    assert IsDigit(DecimalText(i)[0]);
  }

  // Objects.

  /** The members after the source keys in `done` have been dealt with. */
  function MixedMembers(m: map<string, Json>, n: map<string, Json>, done: set<string>): map<string, Json> {
    map k | k in m && (k !in done || k in n) :: if k in done then Patched(m[k], n[k]) else m[k]
  }

  /** The members after all source keys and the target keys in `done` have been dealt with. */
  function GrownMembers(m: map<string, Json>, n: map<string, Json>, done: set<string>): map<string, Json> {
    map k | k in n && (k in m || k in done) :: if k in m then Patched(m[k], n[k]) else n[k]
  }

  predicate FitsKeys(m: map<string, Json>, n: map<string, Json>, keys: seq<string>)
    requires forall i | 0 <= i < |keys| :: keys[i] in m
  {
    forall i | 0 <= i < |keys| && keys[i] in n :: Fits(m[keys[i]], n[keys[i]])
  }

  lemma {:induction false} ObjectDiffApplies(doc: Json, p: seq<string>, s: Json, t: Json)
    requires GetChecked(doc, p) == Ok(s) && s.Obj? && t.Obj? && !Equal(s, t)
    ensures Apply(doc, DiffOps(s, t, ToString(p))) == if Fits(s, t) then Ok(Put(doc, p, Patched(s, t)))
            else Err(OutOfRange)
    decreases s, 0, |s.members| + 1
  {
    hide ToString, Put, GetChecked, Apply, DiffMembers, NewMembers, SortedKeys, MixedMembers, GrownMembers, Patched,
         Fits, Equal;
    var m, n, path := s.members, t.members, ToString(p);
    var keys := SortedKeys(m.Keys);
    MixedStart(s, t);
    PutGet(doc, p);
    assert m.Keys - {} == m.Keys && n.Keys - {} == n.Keys;
    MembersApply(doc, p, s, t, {}, keys);
    NewMembersApply(doc, p, m, n, {}, SortedKeys(n.Keys));
    ObjectDiffSplits(s, t, path);
    ApplyAppend(doc, DiffMembers(s, t, path, keys), NewMembers(m, n, path, SortedKeys(n.Keys)));
  }

  lemma ObjectDiffSplits(s: Json, t: Json, path: string)
    requires s.Obj? && t.Obj? && !Equal(s, t)
    ensures DiffOps(s, t, path) ==
            DiffMembers(s, t, path, SortedKeys(s.members.Keys)) + NewMembers(s.members, t.members, path,
                SortedKeys(t.members.Keys))
  {
    hide Equal, DiffMembers, NewMembers, DiffElements, Removals, Additions, SortedKeys;
  }

  lemma MixedStart(s: Json, t: Json)
    requires s.Obj? && t.Obj? && !Equal(s, t)
    ensures MixedMembers(s.members, t.members, {}) == s.members
    ensures MixedMembers(s.members, t.members, s.members.Keys) == GrownMembers(s.members, t.members, {})
    ensures Obj(GrownMembers(s.members, t.members, t.members.Keys)) == Patched(s, t)
    ensures FitsKeys(s.members, t.members, SortedKeys(s.members.Keys)) <==> Fits(s, t)
  {
    var m, n := s.members, t.members;
    MixedNone(m, n);
    MixedAll(m, n);
    GrownAll(s, t);
    FitsAllKeys(s, t);
  }

  lemma MixedNone(m: map<string, Json>, n: map<string, Json>)
    ensures MixedMembers(m, n, {}) == m
  {
    hide Patched;
  }

  lemma MixedAll(m: map<string, Json>, n: map<string, Json>)
    ensures MixedMembers(m, n, m.Keys) == GrownMembers(m, n, {})
  {
    hide Patched;
    var x, y := MixedMembers(m, n, m.Keys), GrownMembers(m, n, {});
    assert x.Keys == y.Keys;
  }

  lemma GrownAll(s: Json, t: Json)
    requires s.Obj? && t.Obj? && !Equal(s, t)
    ensures Obj(GrownMembers(s.members, t.members, t.members.Keys)) == Patched(s, t)
  {
    hide Equal;
    var x, y := GrownMembers(s.members, t.members, t.members.Keys), Patched(s, t).members;
    assert x.Keys == t.members.Keys == y.Keys;
  }

  lemma FitsAllKeys(s: Json, t: Json)
    requires s.Obj? && t.Obj? && !Equal(s, t)
    ensures FitsKeys(s.members, t.members, SortedKeys(s.members.Keys)) <==> Fits(s, t)
  {
    hide Equal, SortedKeys;
    var m, n, keys := s.members, t.members, SortedKeys(s.members.Keys);
    if FitsKeys(m, n, keys) {
      forall k | k in m && k in n ensures Fits(m[k], n[k]) {
        assert k in keys;
      }
    }
  }

  lemma {:induction false} MembersApply(doc: Json, p: seq<string>, s: Json, t: Json, done: set<string>,
      keys: seq<string>)
    requires GetChecked(doc, p).Ok? && s.Obj? && t.Obj?
    requires Enumerates(keys, s.members.Keys - done) && done <= s.members.Keys
    requires forall i | 0 <= i < |keys| :: keys[i] in s.members
    ensures Apply(Put(doc, p, Obj(MixedMembers(s.members, t.members, done))), DiffMembers(s, t, ToString(p), keys)) ==
            if FitsKeys(s.members, t.members, keys) then
                Ok(Put(doc, p, Obj(MixedMembers(s.members, t.members, s.members.Keys))))
            else Err(OutOfRange)
    decreases s, 0, |keys|
  {
    hide ToString, Put, GetChecked, Apply, DiffOps, Fits, Patched;
    var m, n, path := s.members, t.members, ToString(p);
    var now := Put(doc, p, Obj(MixedMembers(m, n, done)));
    if keys == [] {
      assert done == m.Keys by {
        forall k | k in m.Keys ensures k in done {
          assert k !in keys;
        }
      }
      ApplyNone(now);
    } else {
      var k := keys[0];
      assert k in keys;
      var head := if k in n then DiffOps(m[k], n[k], KeyPath(path, k)) else [Remove(KeyPath(path, k))];
      ApplyAppend(now, head, DiffMembers(s, t, path, keys[1..]));
      MemberApplies(doc, p, s, t, done, k);
      if k !in n || Fits(m[k], n[k]) {
        EnumeratesTail(keys, m.Keys - done);
        assert m.Keys - done - {k} == m.Keys - (done + {k});
        MembersApply(doc, p, s, t, done + {k}, keys[1..]);
        assert FitsKeys(m, n, keys) <==> FitsKeys(m, n, keys[1..]) by {
          assert keys == [k] + keys[1..];
        }
      }
    }
  }

  lemma EnumeratesTail(keys: seq<string>, all: set<string>)
    requires Enumerates(keys, all) && keys != []
    ensures Enumerates(keys[1..], all - {keys[0]})
  {
    assert keys == [keys[0]] + keys[1..];
  }

  lemma {:induction false} MemberApplies(doc: Json, p: seq<string>, s: Json, t: Json, done: set<string>, k: string)
    requires GetChecked(doc, p).Ok? && s.Obj? && t.Obj? && k in s.members && k !in done
    ensures Apply(Put(doc, p, Obj(MixedMembers(s.members, t.members, done))),
                  if k in t.members then DiffOps(s.members[k], t.members[k], KeyPath(ToString(p), k))
                      else [Remove(KeyPath(ToString(p), k))]) ==
            if k !in t.members || Fits(s.members[k], t.members[k]) then
                Ok(Put(doc, p, Obj(MixedMembers(s.members, t.members, done + {k}))))
            else Err(OutOfRange)
    decreases s, 0, 0
  {
    hide ToString, Put, GetChecked, Apply, DiffOps, Fits, Patched, MixedMembers;
    var m, n := s.members, t.members;
    var c, next := MixedMembers(m, n, done), MixedMembers(m, n, done + {k});
    var now := Put(doc, p, Obj(c));
    GetPut(doc, p, Obj(c));
    KeyPathText(p, k);
    PutPut(doc, p, Obj(c), Obj(next));
    MixedStep(m, n, done, k);
    if k in n {
      GetMember(c, k);
      GetAt(now, p, [k]);
      DiffApplies(now, p + [k], m[k], n[k]);
      PutMember(c, k, Patched(m[k], n[k]));
      PutAt(now, p, [k], Patched(m[k], n[k]));
    } else {
      RemoveChild(now, p, k);
    }
  }

  lemma MixedStep(m: map<string, Json>, n: map<string, Json>, done: set<string>, k: string)
    requires k in m && k !in done
    ensures var c, next := MixedMembers(m, n, done), MixedMembers(m, n, done + {k});
            && k in c && c[k] == m[k]
            && next == if k in n then c[k := Patched(m[k], n[k])] else c - {k}
  {
    hide Patched;
    var c, next := MixedMembers(m, n, done), MixedMembers(m, n, done + {k});
    if k in n {
      assert next.Keys == c.Keys + {k};
    } else {
      assert next.Keys == c.Keys - {k};
    }
  }

  lemma {:induction false} NewMembersApply(doc: Json, p: seq<string>, m: map<string, Json>, n: map<string, Json>,
      done: set<string>, keys: seq<string>)
    requires GetChecked(doc, p).Ok? && Enumerates(keys, n.Keys - done) && done <= n.Keys
    requires forall i | 0 <= i < |keys| :: keys[i] in n
    ensures Apply(Put(doc, p, Obj(GrownMembers(m, n, done))), NewMembers(m, n, ToString(p), keys)) ==
            Ok(Put(doc, p, Obj(GrownMembers(m, n, n.Keys))))
    decreases |keys|
  {
    hide ToString, Put, GetChecked, Apply, Patched;
    var path := ToString(p);
    var c := GrownMembers(m, n, done);
    var now := Put(doc, p, Obj(c));
    if keys == [] {
      assert done == n.Keys by {
        forall k | k in n.Keys ensures k in done {
          assert k !in keys;
        }
      }
      ApplyNone(now);
    } else {
      var k := keys[0];
      assert k in keys;
      var next := GrownMembers(m, n, done + {k});
      var head := if k in m then [] else [Add(KeyPath(path, k), n[k])];
      ApplyAppend(now, head, NewMembers(m, n, path, keys[1..]));
      if k in m {
        ApplyNone(now);
        assert c == next;
      } else {
        KeyPathText(p, k);
        GetPut(doc, p, Obj(c));
        AddChild(now, p, k, n[k]);
        PutPut(doc, p, Obj(c), Obj(next));
        assert c[k := n[k]] == next;
      }
      EnumeratesTail(keys, n.Keys - done);
      assert n.Keys - done - {k} == n.Keys - (done + {k});
      NewMembersApply(doc, p, m, n, done + {k}, keys[1..]);
    }
  }

  // Indices that do not fit.

  ghost predicate Under(op: Op, q: seq<string>) {
    exists rest: seq<string> :: op.path == ToString(q + rest)
  }

  ghost predicate AllUnder(ops: seq<Op>, q: seq<string>) {
    forall i | 0 <= i < |ops| :: Under(ops[i], q)
  }

  lemma UnderLonger(op: Op, q: seq<string>, x: seq<string>)
    requires Under(op, q + x)
    ensures Under(op, q)
  {
    var rest: seq<string> :| op.path == ToString(q + x + rest);
    assert q + x + rest == q + (x + rest);
  }

  lemma UnderSelf(op: Op, q: seq<string>, x: seq<string>)
    requires op.path == ToString(q + x)
    ensures Under(op, q)
  {
  }

  /** Every operation of a difference works at or below the path it was taken at. */
  lemma {:induction false} DiffIsUnder(s: Json, t: Json, q: seq<string>)
    ensures AllUnder(DiffOps(s, t, ToString(q)), q)
    decreases s, 1, 0
  {
    hide ToString, Under, Equal, DiffElements, DiffMembers, NewMembers, Removals, Additions, SortedKeys;
    var path := ToString(q);
    if Equal(s, t) {
    } else if SameType(s, t) && s.Arr? {
      ElementsAreUnder(s, t, q, 0);
      RemovalsAreUnder(q, |t.elems|, |s.elems|);
      AdditionsAreUnder(t.elems, q, |s.elems|);
    } else if SameType(s, t) && s.Obj? {
      MembersAreUnder(s, t, q, SortedKeys(s.members.Keys));
      NewMembersAreUnder(s.members, t.members, q, SortedKeys(t.members.Keys));
    } else {
      assert q + [] == q;
      UnderSelf(Replace(path, t), q, []);
    }
  }

  lemma {:induction false} ElementsAreUnder(s: Json, t: Json, q: seq<string>, i: nat)
    requires s.Arr? && t.Arr?
    ensures AllUnder(DiffElements(s, t, ToString(q), i), q)
    decreases s, 0, |s.elems| - i
  {
    hide ToString, AllUnder, Equal, DiffOps, IndexPath, DecimalText;
    if i >= |s.elems| || i >= |t.elems| {
      assert AllUnder([], q) by { NothingUnder(q); }
    }
    if i < |s.elems| && i < |t.elems| {
      IndexPathText(q, i);
      var head := DiffOps(s.elems[i], t.elems[i], IndexPath(ToString(q), i));
      DiffIsUnder(s.elems[i], t.elems[i], q + [DecimalText(i)]);
      AllUnderLonger(head, q, [DecimalText(i)]);
      ElementsAreUnder(s, t, q, i + 1);
      AllUnderAppend(head, DiffElements(s, t, ToString(q), i + 1), q);
    }
  }

  lemma NothingUnder(q: seq<string>)
    ensures AllUnder([], q)
  {
  }

  lemma AllUnderLonger(ops: seq<Op>, q: seq<string>, x: seq<string>)
    requires AllUnder(ops, q + x)
    ensures AllUnder(ops, q)
  {
    hide Under;
    forall j | 0 <= j < |ops| ensures Under(ops[j], q) {
      UnderLonger(ops[j], q, x);
    }
  }

  lemma AllUnderAppend(a: seq<Op>, b: seq<Op>, q: seq<string>)
    requires AllUnder(a, q) && AllUnder(b, q)
    ensures AllUnder(a + b, q)
  {
    hide Under;
  }

  lemma {:induction false} RemovalsAreUnder(q: seq<string>, from: nat, end: nat)
    ensures AllUnder(Removals(ToString(q), from, end), q)
    decreases end - from
  {
    hide ToString, Under;
    if from < end {
      RemovalsAreUnder(q, from + 1, end);
      IndexPathText(q, from);
      UnderSelf(Remove(IndexPath(ToString(q), from)), q, [DecimalText(from)]);
    }
  }

  lemma {:induction false} AdditionsAreUnder(b: seq<Json>, q: seq<string>, i: nat)
    ensures AllUnder(Additions(b, ToString(q), i), q)
    decreases |b| - i
  {
    hide ToString, Under;
    if i < |b| {
      AdditionsAreUnder(b, q, i + 1);
      IndexPathText(q, i);
      UnderSelf(Add(IndexPath(ToString(q), i), b[i]), q, [DecimalText(i)]);
    }
  }

  lemma {:induction false} MembersAreUnder(s: Json, t: Json, q: seq<string>, keys: seq<string>)
    requires s.Obj? && t.Obj? && forall i | 0 <= i < |keys| :: keys[i] in s.members
    ensures AllUnder(DiffMembers(s, t, ToString(q), keys), q)
    decreases s, 0, |keys|
  {
    hide ToString, Under, Equal, DiffOps;
    if keys != [] {
      var k := keys[0];
      KeyPathText(q, k);
      if k in t.members {
        var head := DiffOps(s.members[k], t.members[k], KeyPath(ToString(q), k));
        DiffIsUnder(s.members[k], t.members[k], q + [k]);
        forall j | 0 <= j < |head| ensures Under(head[j], q) {
          UnderLonger(head[j], q, [k]);
        }
      } else {
        UnderSelf(Remove(KeyPath(ToString(q), k)), q, [k]);
      }
      MembersAreUnder(s, t, q, keys[1..]);
    }
  }

  lemma {:induction false} NewMembersAreUnder(m: map<string, Json>, n: map<string, Json>, q: seq<string>,
      keys: seq<string>)
    requires forall i | 0 <= i < |keys| :: keys[i] in n
    ensures AllUnder(NewMembers(m, n, ToString(q), keys), q)
    decreases |keys|
  {
    hide ToString, Under;
    if keys != [] {
      var k := keys[0];
      KeyPathText(q, k);
      UnderSelf(Add(KeyPath(ToString(q), k), n[k]), q, [k]);
      NewMembersAreUnder(m, n, q, keys[1..]);
    }
  }

  /** Only equal values have an empty difference. */
  lemma {:induction false} EmptyDiffMeansEqual(s: Json, t: Json, path: string)
    requires DiffOps(s, t, path) == []
    ensures Equal(s, t)
    decreases s, 1, 0
  {
    hide DiffElements, DiffMembers, NewMembers, Removals, Additions, SortedKeys;
    if !Equal(s, t) && SameType(s, t) {
      match s
      case Arr(a) =>
        RemovalsLength(path, |t.elems|, |a|);
        AdditionsLength(t.elems, path, |a|);
        forall i | 0 <= i < |a| ensures Equal(a[i], t.elems[i]) {
          EmptyElementsMeanEqual(s, t, path, 0, i);
        }
      case Obj(m) =>
        var keys := SortedKeys(m.Keys);
        forall k | k in m ensures k in t.members && Equal(m[k], t.members[k]) {
          assert k in keys;
          EmptyMembersMeanEqual(s, t, path, keys, k);
        }
        var keys' := SortedKeys(t.members.Keys);
        forall k | k in t.members ensures k in m {
          assert k in keys';
          NoNewMembers(m, t.members, path, keys', k);
        }
      case _ =>
    }
  }

  lemma {:induction false} RemovalsLength(path: string, from: nat, end: nat)
    ensures |Removals(path, from, end)| == (if from < end then end - from else 0)
    decreases end - from
  {
    hide IndexPath;
    if from < end {
      RemovalsLength(path, from + 1, end);
    }
  }

  lemma {:induction false} AdditionsLength(b: seq<Json>, path: string, i: nat)
    ensures |Additions(b, path, i)| == (if i < |b| then |b| - i else 0)
    decreases |b| - i
  {
    hide IndexPath;
    if i < |b| {
      AdditionsLength(b, path, i + 1);
    }
  }

  lemma {:induction false} EmptyElementsMeanEqual(s: Json, t: Json, path: string, i: nat, k: nat)
    requires s.Arr? && t.Arr? && i <= k < |s.elems| && k < |t.elems|
    requires DiffElements(s, t, path, i) == []
    ensures Equal(s.elems[k], t.elems[k])
    decreases s, 0, |s.elems| - i
  {
    hide DiffOps, Equal, IndexPath;
    if i == k {
      EmptyDiffMeansEqual(s.elems[k], t.elems[k], IndexPath(path, k));
    } else {
      EmptyElementsMeanEqual(s, t, path, i + 1, k);
    }
  }

  lemma {:induction false} EmptyMembersMeanEqual(s: Json, t: Json, path: string, keys: seq<string>, k: string)
    requires s.Obj? && t.Obj? && (forall i | 0 <= i < |keys| :: keys[i] in s.members) && k in keys
    requires DiffMembers(s, t, path, keys) == []
    ensures k in t.members && Equal(s.members[k], t.members[k])
    decreases s, 0, |keys|
  {
    hide DiffOps, Equal;
    if k == keys[0] {
      if k in t.members {
        EmptyDiffMeansEqual(s.members[k], t.members[k], KeyPath(path, k));
      }
    } else {
      EmptyMembersMeanEqual(s, t, path, keys[1..], k);
    }
  }

  lemma {:induction false} NoNewMembers(m: map<string, Json>, n: map<string, Json>, path: string, keys: seq<string>,
      k: string)
    requires (forall i | 0 <= i < |keys| :: keys[i] in n) && k in keys && NewMembers(m, n, path, keys) == []
    ensures k in m
    decreases |keys|
  {
    if k != keys[0] {
      NoNewMembers(m, n, path, keys[1..], k);
    }
  }

  /** An operation below an array element whose index does not fit an `int` throws out_of_range. */
  lemma LargeIndexOpFails(doc: Json, p: seq<string>, a: seq<Json>, i: nat, op: Op)
    requires GetChecked(doc, p) == Ok(Arr(a)) && TWO31 <= i < |a| && Under(op, p + [DecimalText(i)])
    ensures Apply(doc, [op]) == Err(OutOfRange)
  {
    hide ToString, Apply, CheckedIndex, UncheckedIndex, Stoi, DecimalText;
    var x := DecimalText(i);
    var rest: seq<string> :| op.path == ToString(p + [x] + rest);
    var q := [x] + rest;
    assert p + [x] + rest == p + q;
    IndexResolves(i, |a|);
    GetAt(doc, p, q);
    match op
    case Replace(path, v) =>
      ApplyReplace(doc, p + q, v);
    case Remove(path) =>
      ApplyRemove(doc, p + q);
      LargeIndexEdit(doc, p, a, i, rest);
    case Add(path, v) =>
      ApplyAdd(doc, p + q, v);
      LargeIndexAdd(doc, p, a, i, rest, v);
  }

  lemma LargeIndexEdit(doc: Json, p: seq<string>, a: seq<Json>, i: nat, rest: seq<string>)
    requires GetChecked(doc, p) == Ok(Arr(a)) && TWO31 <= i < |a|
    ensures PatchRemove(doc, p + ([DecimalText(i)] + rest)) == Err(OutOfRange)
  {
    hide GetChecked, CheckedIndex, Stoi, DecimalText, EditChecked, ApplyEdit, PatchRemove;
    var x := DecimalText(i);
    var q := [x] + rest;
    var front, last := q[..|q| - 1], q[|q| - 1];
    SplitLast(p, q);
    RemoveUnfold(doc, p + q);
    EditAt(doc, p, front, Erase(last));
    EditLargeIndex(a, i, front, Erase(last), last);
  }

  lemma SplitLast(p: seq<string>, q: seq<string>)
    requires q != []
    ensures p + q != [] && (p + q)[..|p + q| - 1] == p + q[..|q| - 1] && (p + q)[|p + q| - 1] == q[|q| - 1]
  {
  }

  lemma RemoveUnfold(doc: Json, r: seq<string>)
    requires r != []
    ensures PatchRemove(doc, r) == EditChecked(doc, r[..|r| - 1], Erase(r[|r| - 1]))
  {
  }

  /** An edit that has to resolve a too large index fails, whether the index is on the way or is the
      last token itself. */
  lemma EditLargeIndex(a: seq<Json>, i: nat, front: seq<string>, e: Edit, last: string)
    requires TWO31 <= i < |a| && (e.Erase? || e.Insert?) && e.last == last
    requires if front == [] then last == DecimalText(i) else front[0] == DecimalText(i)
    ensures EditChecked(Arr(a), front, e) == Err(OutOfRange) && EditUnchecked(Arr(a), front, e) == Err(OutOfRange)
  {
    hide CheckedIndex, UncheckedIndex, Stoi, DecimalText;
    IndexResolves(i, |a|);
    StoiOfDecimal(i);
    DecimalIsNotDash(i);
  }

  lemma AddFails(doc: Json, r: seq<string>, v: Json)
    requires r != [] && EditUnchecked(doc, r[..|r| - 1], Insert(r[|r| - 1], v)) == Err(OutOfRange)
    requires GetChecked(doc, r[..1]).Ok? || GetChecked(doc, r[..1]) == Err(OutOfRange)
    ensures PatchAdd(doc, r, v) == Err(OutOfRange)
  {
    hide EditUnchecked, GetChecked;
  }

  lemma FirstOfPath(p: seq<string>, q: seq<string>)
    requires q != []
    ensures (p + q)[..1] == if p == [] then [q[0]] else p[..1]
  {
  }

  lemma LargeIndexAdd(doc: Json, p: seq<string>, a: seq<Json>, i: nat, rest: seq<string>, v: Json)
    requires GetChecked(doc, p) == Ok(Arr(a)) && TWO31 <= i < |a|
    ensures PatchAdd(doc, p + ([DecimalText(i)] + rest), v) == Err(OutOfRange)
  {
    hide CheckedIndex, Stoi, DecimalText, EditUnchecked, ApplyEdit, GetChecked, PatchAdd;
    var q := [DecimalText(i)] + rest;
    var front, last := q[..|q| - 1], q[|q| - 1];
    SplitLast(p, q);
    FirstOfPath(p, q);
    EditUncheckedAt(doc, p, front, Insert(last, v));
    EditLargeIndex(a, i, front, Insert(last, v), last);
    if p == [] {
      TopLarge(doc, a, i);
    } else {
      TopExists(doc, p);
    }
    AddFails(doc, p + q, v);
  }

  lemma TopLarge(doc: Json, a: seq<Json>, i: nat)
    requires GetChecked(doc, []) == Ok(Arr(a)) && TWO31 <= i < |a|
    ensures GetChecked(doc, [DecimalText(i)]) == Err(OutOfRange)
  {
    hide CheckedIndex, DecimalText;
    IndexResolves(i, |a|);
  }

  lemma LargeIndexFails(doc: Json, p: seq<string>, a: seq<Json>, i: nat, s: Json, t: Json)
    requires GetChecked(doc, p) == Ok(Arr(a)) && TWO31 <= i < |a| && !Equal(s, t)
    ensures Apply(doc, DiffOps(s, t, IndexPath(ToString(p), i))) == Err(OutOfRange)
  {
    hide ToString, Apply, GetChecked, DiffOps, Equal, DecimalText, Under;
    var q := p + [DecimalText(i)];
    IndexPathText(p, i);
    var ops := DiffOps(s, t, ToString(q));
    if ops == [] {
      EmptyDiffMeansEqual(s, t, ToString(q));
    }
    DiffIsUnder(s, t, q);
    LargeIndexOpFails(doc, p, a, i, ops[0]);
    assert ops == [ops[0]] + ops[1..];
    ApplyAppend(doc, [ops[0]], ops[1..]);
  }

  // ----- the promise -----

  /** `source.patch(diff(source, target)) == target`, whenever the indices fit; otherwise patch
      throws out_of_range. */
  lemma PatchOfDiff(source: Json, target: Json)
    ensures var r := Patch(source, DiffDocument(source, target));
            if Fits(source, target) then r == Ok(Patched(source, target)) && Equal(r.value, target)
            else r == Err(OutOfRange)
  {
    hide Patched, Fits, DiffOps, Equal;
    DiffApplies(source, [], source, target);
    PatchedEqualsTarget(source, target);
  }

  // ----- when the very target comes back -----

  /** Negative numbers are signed and all others unsigned, and none of them looks like the other kind. */
  predicate Normal(j: Json) {
    match j
    case Int(i) => i < 0
    case Uint(u) => u < TWO63
    case Arr(a) => forall i | 0 <= i < |a| :: Normal(a[i])
    case Obj(m) => forall k | k in m :: Normal(m[k])
    case _ => true
  }

  /** For such values operator== is equality. */
  lemma {:induction false} EqualMeansSame(x: Json, y: Json)
    requires Normal(x) && Normal(y) && Equal(x, y)
    ensures x == y
    decreases x
  {
    match (x, y)
    case (Arr(a), Arr(b)) =>
      forall i | 0 <= i < |a| ensures a[i] == b[i] {
        EqualMeansSame(a[i], b[i]);
      }
      assert a == b;
    case (Obj(m), Obj(n)) =>
      forall k | k in m ensures m[k] == n[k] {
        EqualMeansSame(m[k], n[k]);
      }
      assert m == n;
    case _ =>
  }

  lemma {:induction false} PatchedIsNormal(s: Json, t: Json)
    requires Normal(s) && Normal(t)
    ensures Normal(Patched(s, t))
    decreases s
  {
    if !Equal(s, t) {
      match (s, t)
      case (Arr(a), Arr(b)) =>
        forall i | 0 <= i < |b| ensures Normal(Patched(s, t).elems[i]) {
          if i < |a| {
            PatchedIsNormal(a[i], b[i]);
          }
        }
      case (Obj(m), Obj(n)) =>
        forall k | k in n ensures Normal(Patched(s, t).members[k]) {
          if k in m {
            PatchedIsNormal(m[k], n[k]);
          }
        }
      case _ =>
    }
  }

  /** Patching then yields the target itself, number for number. */
  lemma PatchOfDiffIsTarget(source: Json, target: Json)
    requires Normal(source) && Normal(target) && Fits(source, target)
    ensures Patch(source, DiffDocument(source, target)) == Ok(target)
  {
    hide Patched, Fits, Equal, Normal, Patch, DiffDocument;
    PatchOfDiff(source, target);
    PatchedIsNormal(source, target);
    EqualMeansSame(Patched(source, target), target);
  }

  /** A concrete difference that does not apply to its own source. */
  lemma HugeArrayDoesNotFit()
    ensures var source := Arr(Repeat(Null, TWO31 + 1));
            Patch(source, DiffDocument(source, Arr([]))) == Err(OutOfRange)
  {
    hide Patch, DiffDocument, Repeat;
    PatchOfDiff(Arr(Repeat(Null, TWO31 + 1)), Arr([]));
  }

  /** Small arrays always fit. */
  predicate SmallArrays(j: Json) {
    match j
    case Arr(a) => |a| <= TWO31 && forall i | 0 <= i < |a| :: SmallArrays(a[i])
    case Obj(m) => forall k | k in m :: SmallArrays(m[k])
    case _ => true
  }

  lemma {:induction false} SmallArraysFit(s: Json, t: Json)
    requires SmallArrays(s) && SmallArrays(t)
    ensures Fits(s, t)
    decreases s
  {
    match (s, t)
    case (Arr(a), Arr(b)) =>
      forall i | 0 <= i < |a| && i < |b| ensures Equal(a[i], b[i]) || (i < TWO31 && Fits(a[i], b[i])) {
        SmallArraysFit(a[i], b[i]);
      }
    case (Obj(m), Obj(n)) =>
      forall k | k in m && k in n ensures Fits(m[k], n[k]) {
        SmallArraysFit(m[k], n[k]);
      }
    case _ =>
  }
}
