/** The promise of json.hpp:9856-9859, `j == j.flatten().unflatten()`: it holds exactly for the
    `Recoverable` values. Replaying the entries of a flattened value from an empty result splits, by
    the first token of each path, into replaying the entries of every child on its own. */
module JsonUnflatten {
  import opened Strings
  import opened JsonValue
  import opened JsonPointer
  import opened Decimal
  import opened Ordering
  import opened JsonPatch
  import opened JsonPaths
  import opened JsonFlatten

  // ----- replaying a list of leaves -----

  datatype Entry = Entry(path: seq<string>, value: Json)

  function Build(j: Json, es: seq<Entry>): Result<Json>
    decreases |es|, 0
  {
    if es == [] then Ok(j)
    else Onward(Create(j, es[0].path, es[0].value), es[1..])
  }

  function Onward(r: Result<Json>, es: seq<Entry>): Result<Json>
    decreases |es|, 1
  {
    if r.Ok? then Build(r.value, es) else r
  }

  /** The entries below the token `k`, with that token removed. */
  function Below(es: seq<Entry>, k: string): seq<Entry> {
    if es == [] then []
    else if es[0].path != [] && es[0].path[0] == k then [Entry(es[0].path[1..], es[0].value)] + Below(es[1..], k)
    else Below(es[1..], k)
  }

  lemma {:induction false} BelowMember(es: seq<Entry>, k: string, e: Entry)
    ensures e in Below(es, k) <==> Entry([k] + e.path, e.value) in es
  {
    if es != [] {
      BelowMember(es[1..], k, e);
      var x := es[0];
      assert es == [x] + es[1..];
      if x.path != [] && x.path[0] == k {
        assert x.path == [k] + x.path[1..];
        assert e.path == ([k] + e.path)[1..];
      } else {
        assert ([k] + e.path)[0] == k;
      }
    }
  }

  /** No entry stands for the container itself. */
  ghost predicate Deep(es: seq<Entry>) {
    forall e | e in es :: e.path != []
  }

  lemma DeepTail(es: seq<Entry>)
    requires Deep(es) && es != []
    ensures es[0].path != [] && Deep(es[1..])
  {
    assert es[0] in es;
    forall e | e in es[1..] ensures e in es {
    }
  }

  /** An empty list, and an entry for `k` in front of the others. */
  lemma BelowHead(es: seq<Entry>, k: string)
    requires es != [] && es[0].path != []
    ensures Below(es, k) ==
            if es[0].path[0] == k then [Entry(es[0].path[1..], es[0].value)] + Below(es[1..], k) else Below(es[1..], k)
  {
  }

  lemma BuildHead(j: Json, e: Entry, es: seq<Entry>)
    ensures Build(j, [e] + es) == Onward(Create(j, e.path, e.value), es)
  {
    hide Create;
    assert ([e] + es)[1..] == es;
  }

  // Objects.

  /** The replay on an object, seen child by child. */
  ghost predicate BuiltObject(r: Result<Json>, m: map<string, Json>, es: seq<Entry>) {
    && (r.Ok? <==> forall k :: Build(Child(m, k), Below(es, k)).Ok?)
    && (r.Ok? ==> r.value.Obj? && forall k ::
          && (k in r.value.members <==> k in m || Below(es, k) != [])
          && Build(Child(m, k), Below(es, k)) == Ok(Child(r.value.members, k)))
  }

  lemma {:induction false} ObjectBuild(m: map<string, Json>, es: seq<Entry>)
    requires Deep(es)
    ensures BuiltObject(Build(Obj(m), es), m, es)
    decreases |es|
  {
    hide Create, BuiltObject, Below, Build;
    if es == [] {
      ObjectBuildNone(m);
    } else {
      DeepTail(es);
      var k, rest, v := es[0].path[0], es[0].path[1..], es[0].value;
      assert es[0] == Entry([k] + rest, v) && es == [es[0]] + es[1..];
      CreateInObject(m, k, rest, v);
      BuildHead(Obj(m), es[0], es[1..]);
      BuildHead(Child(m, k), Entry(rest, v), Below(es[1..], k));
      BelowHead(es, k);
      var c := Create(Child(m, k), rest, v);
      if c.Err? {
        ObjectBuildFails(m, es, k, c.error);
      } else {
        ObjectBuild(m[k := c.value], es[1..]);
        ObjectBuildStep(Build(Obj(m), es), m, es, c.value);
      }
    }
  }

  lemma ObjectBuildNone(m: map<string, Json>)
    ensures BuiltObject(Build(Obj(m), []), m, [])
  {
  }

  lemma ObjectBuildFails(m: map<string, Json>, es: seq<Entry>, k: string, e: Error)
    requires Build(Child(m, k), Below(es, k)) == Err(e)
    ensures BuiltObject(Err(e), m, es)
  {
    hide Build, Below;
  }

  lemma ObjectBuildStep(r: Result<Json>, m: map<string, Json>, es: seq<Entry>, c: Json)
    requires es != [] && es[0].path != []
    requires var k := es[0].path[0];
             && BuiltObject(r, m[k := c], es[1..])
             && Build(Child(m, k), Below(es, k)) == Build(c, Below(es[1..], k))
    ensures BuiltObject(r, m, es)
  {
    hide Build, Below;
    var m' := m[es[0].path[0] := c];
    forall k
      ensures Build(Child(m, k), Below(es, k)) == Build(Child(m', k), Below(es[1..], k))
      ensures k in m || Below(es, k) != [] <==> k in m' || Below(es[1..], k) != []
    {
      BelowHead(es, k);
    }
  }

  lemma CreateInObject(m: map<string, Json>, k: string, rest: seq<string>, v: Json)
    ensures Create(Obj(m), [k] + rest, v) ==
            match Create(Child(m, k), rest, v) case Ok(c) => Ok(Obj(m[k := c])) case Err(x) => Err(x)
  {
    assert ([k] + rest)[1..] == rest;
  }

  // Arrays.

  /** The element that the walk finds at an index, which may have been filled in. */
  function Element(a: seq<Json>, i: nat): Json {
    if i < |a| then a[i] else Null
  }

  /** Every first token is the text of an index below `n`. */
  ghost predicate Indexed(es: seq<Entry>, n: nat) {
    forall e | e in es :: e.path != [] && exists i: nat | i < n :: e.path[0] == DecimalText(i)
  }

  /** The replay on an array, seen element by element. */
  ghost predicate BuiltArray(r: Result<Json>, a: seq<Json>, es: seq<Entry>, n: nat) {
    && (r.Ok? <==>
          forall i: nat | i < n ::
            Build(Element(a, i), Below(es, DecimalText(i))).Ok? && (TWO31 <= i ==> Below(es, DecimalText(i)) == []))
    && (r.Ok? ==> r.value.Arr? && |a| <= |r.value.elems| <= n && forall i: nat | i < n ::
          && (Below(es, DecimalText(i)) != [] ==> i < |r.value.elems|)
          && Build(Element(a, i), Below(es, DecimalText(i))) == Ok(Element(r.value.elems, i)))
  }

  lemma {:induction false} ArrayBuild(a: seq<Json>, es: seq<Entry>, n: nat)
    requires Indexed(es, n) && |a| <= n
    ensures BuiltArray(Build(Arr(a), es), a, es, n)
    decreases |es|
  {
    hide Create, DecimalText, Padded, BuiltArray, Below, Build;
    if es == [] {
      ArrayBuildNone(a, n);
    } else {
      assert es[0] in es;
      var i: nat :| i < n && es[0].path[0] == DecimalText(i);
      var k, rest, v := DecimalText(i), es[0].path[1..], es[0].value;
      assert es[0] == Entry([k] + rest, v) && es == [es[0]] + es[1..];
      CreateInArray(a, i, rest, v);
      BuildHead(Arr(a), es[0], es[1..]);
      BuildHead(Element(a, i), Entry(rest, v), Below(es[1..], k));
      BelowHead(es, k);
      var c := Create(Element(a, i), rest, v);
      if TWO31 <= i || c.Err? {
        ArrayBuildFails(Build(Arr(a), es), a, es, n, i);
      } else {
        var a' := Padded(a, i)[i := c.value];
        PaddedElements(a, i, c.value);
        ArrayBuild(a', es[1..], n);
        ArrayBuildStep(Build(Arr(a), es), a, a', es, n, i);
      }
    }
  }

  lemma ArrayBuildNone(a: seq<Json>, n: nat)
    requires |a| <= n
    ensures BuiltArray(Build(Arr(a), []), a, [], n)
  {
  }

  lemma ArrayBuildFails(r: Result<Json>, a: seq<Json>, es: seq<Entry>, n: nat, i: nat)
    requires r.Err? && i < n && Below(es, DecimalText(i)) != []
    requires TWO31 <= i || Build(Element(a, i), Below(es, DecimalText(i))).Err?
    ensures BuiltArray(r, a, es, n)
  {
    hide Build, Below, DecimalText;
  }

  lemma ArrayBuildStep(r: Result<Json>, a: seq<Json>, a': seq<Json>, es: seq<Entry>, n: nat, i0: nat)
    requires es != [] && es[0].path != [] && es[0].path[0] == DecimalText(i0) && i0 < n && i0 < TWO31
    requires BuiltArray(r, a', es[1..], n) && |a| <= |a'| && i0 < |a'|
    requires forall i: nat | i != i0 :: Element(a', i) == Element(a, i)
    requires Build(Element(a, i0), Below(es, DecimalText(i0)))
             == Build(Element(a', i0), Below(es[1..], DecimalText(i0)))
    ensures BuiltArray(r, a, es, n)
  {
    hide Build, Below, DecimalText, Element;
    forall i: nat | i < n
      ensures Build(Element(a, i), Below(es, DecimalText(i))) == Build(Element(a', i), Below(es[1..], DecimalText(i)))
      ensures i != i0 ==> Below(es, DecimalText(i)) == Below(es[1..], DecimalText(i))
    {
      BelowHead(es, DecimalText(i));
      if DecimalText(i) == DecimalText(i0) {
        DecimalInjective(i, i0);
      }
    }
  }

  lemma PaddedElements(a: seq<Json>, i: nat, c: Json)
    ensures var a' := Padded(a, i)[i := c];
            && |a| <= |a'| && i < |a'| && (|a'| == |a| || |a'| == i + 1)
            && forall k: nat :: Element(a', k) == if k == i then c else Element(a, k)
  {
  }

  lemma CreateInArray(a: seq<Json>, i: nat, rest: seq<string>, v: Json)
    ensures Create(Arr(a), [DecimalText(i)] + rest, v) ==
            if TWO31 <= i then Err(OutOfRange)
            else match Create(Element(a, i), rest, v) case Ok(c) => Ok(Arr(Padded(a, i)[i := c])) case Err(x) => Err(x)
  {
    hide Stoi, DecimalText;
    StoiOfDecimal(i);
    assert ([DecimalText(i)] + rest)[1..] == rest;
    assert Padded(a, i)[i] == Element(a, i);
  }

  /** Once the result is an array it stays one. */
  lemma {:induction false} ArrayStaysArray(a: seq<Json>, es: seq<Entry>)
    requires Deep(es)
    ensures Build(Arr(a), es).Ok? ==> Build(Arr(a), es).value.Arr?
    decreases |es|
  {
    hide Padded, Stoi;
    if es != [] {
      DeepTail(es);
      var next := Create(Arr(a), es[0].path, es[0].value);
      if next.Ok? {
        ArrayStaysArray(next.value.elems, es[1..]);
      }
    }
  }

  /** The first entry decides what the missing container becomes. */
  lemma BuildFromNull(es: seq<Entry>)
    requires es != [] && es[0].path != []
    ensures Build(Null, es) == Build(if es[0].path[0] == "0" then Arr([]) else Obj(map[]), es)
  {
    hide Create;
    var k, rest, v := es[0].path[0], es[0].path[1..], es[0].value;
    assert es[0].path == [k] + rest;
    CreateFromNull(k, rest, v);
  }

  lemma CreateFromNull(k: string, rest: seq<string>, v: Json)
    ensures Create(Null, [k] + rest, v) == Create(if k == "0" then Arr([]) else Obj(map[]), [k] + rest, v)
  {
    assert ([k] + rest)[1..] == rest;
    var c := Create(Null, rest, v);
    if k == "0" {
      SingleZero();
      CreateInArray([], 0, rest, v);
      if c.Ok? {
        assert Padded([], 0)[0 := c.value] == [c.value];
      }
    } else {
      CreateInObject(map[], k, rest, v);
    }
  }

  lemma SingleZero()
    ensures DecimalText(0) == "0"
  {
  }

  /** Entries for the place itself overwrite each other. */
  lemma {:induction false} BuildHere(j: Json, es: seq<Entry>, v: Json)
    requires es != [] && forall e | e in es :: e == Entry([], v)
    ensures Build(j, es) == Ok(v)
    decreases |es|
  {
    assert es[0] in es;
    if es[1..] != [] {
      forall e | e in es[1..] ensures e == Entry([], v) {
        assert e in es;
      }
      BuildHere(v, es[1..], v);
    }
  }

  // ----- the entries of a flattened value -----

  ghost predicate InOrder(es: seq<Entry>) {
    es != [] ==> (forall e | e in es[1..] :: Less(ToString(es[0].path), ToString(e.path))) && InOrder(es[1..])
  }

  /** The list holds exactly the leaves of `j`, in the order of their paths' texts. */
  ghost predicate Lists(es: seq<Entry>, j: Json) {
    && (forall e | e in es :: Leaf(j, e.path) == Some(e.value))
    && (forall ts | Leaf(j, ts).Some? :: Entry(ts, Leaf(j, ts).value) in es)
    && InOrder(es)
  }

  lemma {:induction false} BelowInOrder(es: seq<Entry>, k: string)
    requires InOrder(es)
    ensures InOrder(Below(es, k))
  {
    hide ToString, Less;
    if es != [] {
      BelowInOrder(es[1..], k);
      var x := es[0];
      if x.path != [] && x.path[0] == k {
        var head, tail := Entry(x.path[1..], x.value), Below(es[1..], k);
        assert x.path == [k] + x.path[1..];
        forall e | e in tail ensures Less(ToString(head.path), ToString(e.path)) {
          BelowMember(es[1..], k, e);
          TokenPrefixOrder(k, head.path, e.path);
        }
        assert ([head] + tail)[1..] == tail;
      }
    }
  }

  lemma TokenPrefixOrder(k: string, a: seq<string>, b: seq<string>)
    ensures Less(ToString([k] + a), ToString([k] + b)) <==> Less(ToString(a), ToString(b))
  {
    hide ToString, Less, Escape;
    ToStringCons(k, a);
    ToStringCons(k, b);
    AppendAssociative("/", Escape(k), ToString(a));
    AppendAssociative("/", Escape(k), ToString(b));
    LessPrefix("/" + Escape(k), ToString(a), ToString(b));
  }

  lemma ListsMember(es: seq<Entry>, j: Json, k: string)
    requires Lists(es, j) && j.Obj? && k in j.members
    ensures Lists(Below(es, k), j.members[k])
  {
    hide ToString, InOrder, Below;
    BelowInOrder(es, k);
    forall e ensures e in Below(es, k) <==> Leaf(j.members[k], e.path) == Some(e.value) {
      BelowMember(es, k, e);
      assert ([k] + e.path)[1..] == e.path;
      assert Leaf(j, [k] + e.path) == Leaf(j.members[k], e.path);
    }
  }

  lemma ListsElement(es: seq<Entry>, j: Json, i: nat)
    requires Lists(es, j) && j.Arr? && i < |j.elems|
    ensures Lists(Below(es, DecimalText(i)), j.elems[i])
  {
    hide ToString, InOrder, Below, DecimalText, IndexOf;
    var k := DecimalText(i);
    IndexOfDecimal(i);
    BelowInOrder(es, k);
    forall e ensures e in Below(es, k) <==> Leaf(j.elems[i], e.path) == Some(e.value) {
      BelowMember(es, k, e);
      assert ([k] + e.path)[1..] == e.path;
      assert Leaf(j, [k] + e.path) == Leaf(j.elems[i], e.path);
    }
  }

  lemma {:induction false} HasLeaf(j: Json) returns (ts: seq<string>)
    ensures Leaf(j, ts).Some?
  {
    hide DecimalText, IndexOf;
    ts := [];
    if j.Arr? && j.elems != [] {
      ts := HasLeaf(j.elems[0]);
      IndexOfDecimal(0);
      ts := ConsLeaf(DecimalText(0), ts);
    } else if j.Obj? && j.members != map[] {
      var k :| k in j.members;
      ts := HasLeaf(j.members[k]);
      ts := ConsLeaf(k, ts);
    }
  }

  lemma ConsLeaf(k: string, rest: seq<string>) returns (ts: seq<string>)
    ensures ts == [k] + rest && ts[0] == k && ts[1..] == rest
  {
    ts := [k] + rest;
  }

  lemma ListsNotEmpty(es: seq<Entry>, j: Json)
    requires Lists(es, j)
    ensures es != []
  {
    var ts := HasLeaf(j);
    assert Entry(ts, Leaf(j, ts).value) in es;
  }

  // ----- which entry comes first -----

  lemma EscapeFirst(k: string)
    requires k != ""
    ensures Escape("0") == "0" && Escape("") == ""
    ensures Escape(k) == EscapeChar(k[0]) + Escape(k[1..])
  {
    EscapeMeaning(k);
    EscapeMeaning(k[1..]);
    EscapeMeaning("0");
    EscapeMeaning("");
    assert Escaped("0") == "0";
  }

  /** What follows a token in a reference string. */
  predicate TokenEnd(text: string) {
    text == "" || text[0] == '/'
  }

  lemma RestOfText(ts: seq<string>)
    ensures TokenEnd(ToString(ts)) && (ToString(ts) == "" <==> ts == [])
  {
    if ts == [] {
      EmptyToString();
    } else {
      assert ts == [ts[0]] + ts[1..];
      ToStringCons(ts[0], ts[1..]);
    }
  }

  /** An escaped key never goes on with the slash that would end it. */
  lemma TextOrder(k: string, t: string, zeroText: string)
    requires k != "0" && TokenEnd(t) && TokenEnd(zeroText)
    ensures Less(Escape(k) + t, "0" + zeroText)
            <==> k == "" || (k[0] < '0' && k[0] != '/') || (zeroText != "" && |k| >= 2 && k[0] == '0' && k[1] < '/')
  {
    hide Escape;
    if k == "" {
      EscapeFirst("0");
      assert Escape(k) + t == t;
      FirstCharLess(t, "0" + zeroText);
    } else {
      EscapeFirst(k);
      var rest := Escape(k[1..]) + t;
      assert Escape(k) + t == EscapeChar(k[0]) + rest;
      if k[0] == '0' {
        assert Escape(k) + t == "0" + rest;
        LessPrefix("0", rest, zeroText);
        EscapeFirst(k[1..]);
        assert rest == EscapeChar(k[1]) + (Escape(k[1..][1..]) + t);
        FirstCharLess(rest, zeroText);
      } else {
        FirstCharLess(Escape(k) + t, "0" + zeroText);
      }
    }
  }

  lemma FirstCharLess(a: string, b: string)
    requires a == "" || b == "" || a[0] != b[0]
    ensures Less(a, b) <==> b != "" && (a == "" || a[0] < b[0])
  {
  }

  lemma PathOrder(k: string, rest: seq<string>, zeroRest: seq<string>, zero: Json)
    requires k != "0" && Leaf(zero, zeroRest).Some?
    ensures Less(ToString([k] + rest), ToString(["0"] + zeroRest)) <==> BeforeZero(k, zero)
  {
    hide ToString, Less, Escape;
    ToStringCons(k, rest);
    ToStringCons("0", zeroRest);
    EscapeFirst("0");
    LessPrefix("/", Escape(k) + ToString(rest), "0" + ToString(zeroRest));
    RestOfText(rest);
    RestOfText(zeroRest);
    TextOrder(k, ToString(rest), ToString(zeroRest));
  }

  lemma EntryOfMember(es: seq<Entry>, j: Json, k: string) returns (e: Entry)
    requires Lists(es, j) && j.Obj? && k in j.members
    ensures e in es && e.path != [] && e.path[0] == k && Leaf(j.members[k], e.path[1..]).Some?
  {
    hide InOrder;
    var rest := HasLeaf(j.members[k]);
    var ts := ConsLeaf(k, rest);
    e := Entry(ts, Leaf(j, ts).value);
  }

  /** The first entry belongs to the member "0" exactly when the keys say so. */
  lemma ZeroFirstIff(es: seq<Entry>, j: Json)
    requires Lists(es, j) && j.Obj? && j.members != map[]
    ensures es != [] && es[0].path != []
    ensures es[0].path[0] == "0" <==> ZeroFirst(j.members)
  {
    hide ToString, Less, Lists, BeforeZero;
    var m := j.members;
    ListsNotEmpty(es, j);
    FirstOfMember(es, j);
    var k0 := es[0].path[0];
    assert es[0].path == [k0] + es[0].path[1..];
    if "0" in m {
      var zero := EntryOfMember(es, j, "0");
      assert zero.path == ["0"] + zero.path[1..];
      if k0 == "0" {
        forall k | k in m && k != "0" ensures !BeforeZero(k, m["0"]) {
          var e := EntryOfMember(es, j, k);
          assert e.path == [k] + e.path[1..];
          PathOrder(k, e.path[1..], es[0].path[1..], m["0"]);
          ListsInOrder(es, j);
          FirstOfInOrder(es, e);
          LessAsymmetric(ToString(es[0].path), ToString(e.path));
        }
      } else {
        PathOrder(k0, es[0].path[1..], zero.path[1..], m["0"]);
        ListsInOrder(es, j);
        FirstOfInOrder(es, zero);
      }
    }
  }

  lemma ListsInOrder(es: seq<Entry>, j: Json)
    requires Lists(es, j)
    ensures InOrder(es)
  {
  }

  lemma FirstOfMember(es: seq<Entry>, j: Json)
    requires Lists(es, j) && es != [] && j.Obj? && j.members != map[]
    ensures es[0].path != [] && es[0].path[0] in j.members && Leaf(j.members[es[0].path[0]], es[0].path[1..]).Some?
  {
    hide InOrder;
    assert es[0] in es;
    assert Leaf(j, es[0].path).Some?;
  }

  /** The first flattened entry of an object lies under the token "0" exactly when this can be seen from
      its keys: there is a member "0", and no key is empty, or begins with a smaller character that is not
      a slash, or, if that member is itself an object or array, begins with "0" and such a character. */
  lemma FirstTokenIsZeroIff(j: Json)
    requires j.Obj? && j.members != map[]
    ensures FirstToken(j) == Some("0") <==> ZeroFirst(j.members)
  {
    hide Leaves, SortedKeys, Split, Lists, FirstToken, ZeroFirst, Parsed;
    ParsedLists(j);
    var es := Parsed(Leaves("", j), SortedKeys(Leaves("", j).Keys));
    FirstEntry(es, j);
    ZeroFirstIff(es, j);
  }

  /** The first entry is the one that FirstToken speaks of. */
  lemma FirstEntry(es: seq<Entry>, j: Json)
    requires Lists(es, j)
    ensures es != []
    ensures FirstToken(j) == if es[0].path == [] then None else Some(es[0].path[0])
  {
    hide ToString, Split, Less, SortedKeys, Leaves, Leaf;
    ListsNotEmpty(es, j);
    var leaves := Leaves("", j);
    var keys := SortedKeys(leaves.Keys);
    var p := es[0].path;
    EmptyToString();
    assert es[0] in es && [] + p == p;
    LeavesAreComplete([], j, p);
    assert ToString(p) in keys;
    var x := keys[0];
    assert x in keys;
    LeavesAreSound([], j);
    var w := Split(x).value;
    assert EntryIsLeaf(x, leaves[x], [], j) && w[0..] == w;
    assert Entry(w, leaves[x]) in es;
    ToStringOfSplit(x);
    HeadIsLeast(keys, ToString(p));
    FirstOfInOrder(es, Entry(w, leaves[x]));
    if x != ToString(p) {
      LessAsymmetric(x, ToString(p));
    }
    SplitOfToString(p);
  }

  lemma FirstOfInOrder(es: seq<Entry>, e: Entry)
    requires InOrder(es) && e in es
    ensures e == es[0] || Less(ToString(es[0].path), ToString(e.path))
  {
    hide ToString, Less;
    assert es == [es[0]] + es[1..];
  }

  // ----- the induction -----

  /** Replaying the leaves of `j` gives `j` back exactly when it is recoverable. */
  lemma {:induction false} BuildOfLeaves(es: seq<Entry>, j: Json)
    requires Lists(es, j)
    ensures Build(Null, es) == Ok(j) <==> Recoverable(j)
    decreases j
  {
    hide Build, Lists, ZeroFirst, Recoverable;
    ListsNotEmpty(es, j);
    match j
    case Arr(a) =>
      if a == [] {
        BuildOfLone(es, j, Null);
      } else {
        forall i | 0 <= i < |a| ensures Build(Null, Below(es, DecimalText(i))) == Ok(a[i]) <==> Recoverable(a[i]) {
          ListsElement(es, j, i);
          BuildOfLeaves(Below(es, DecimalText(i)), a[i]);
        }
        BuildOfArray(es, j);
      }
    case Obj(m) =>
      if m == map[] {
        BuildOfLone(es, j, Null);
      } else {
        forall k | k in m ensures Build(Null, Below(es, k)) == Ok(m[k]) <==> Recoverable(m[k]) {
          ListsMember(es, j, k);
          BuildOfLeaves(Below(es, k), m[k]);
        }
        BuildOfObject(es, j);
      }
    case _ =>
      BuildOfLone(es, j, j);
  }

  /** A value that is flattened to a single entry for the place itself. */
  lemma BuildOfLone(es: seq<Entry>, j: Json, v: Json)
    requires Lists(es, j) && es != []
    requires Leaf(j, []) == Some(v)
    ensures Build(Null, es) == Ok(v)
    ensures Recoverable(j) <==> v == j
  {
    hide Build, InOrder;
    forall e | e in es ensures e == Entry([], v) {
      LoneLeaf(j, e.path);
    }
    BuildHere(Null, es, v);
  }

  lemma LoneLeaf(j: Json, ts: seq<string>)
    requires Leaf(j, []).Some? && Leaf(j, ts).Some?
    ensures ts == []
  {
  }

  lemma LeavesAreDeep(es: seq<Entry>, j: Json)
    requires Lists(es, j) && ((j.Arr? && j.elems != []) || (j.Obj? && j.members != map[]))
    ensures Deep(es)
  {
    hide InOrder;
    forall e | e in es ensures e.path != [] {
      assert Leaf(j, e.path).Some?;
    }
  }

  lemma BuildOfObject(es: seq<Entry>, j: Json)
    requires Lists(es, j) && es != [] && j.Obj? && j.members != map[]
    requires forall k | k in j.members :: Build(Null, Below(es, k)) == Ok(j.members[k]) <==> Recoverable(j.members[k])
    ensures Build(Null, es) == Ok(j) <==> Recoverable(j)
  {
    hide Build, Lists, ZeroFirst, Below;
    LeavesAreDeep(es, j);
    DeepTail(es);
    BuildFromNull(es);
    ZeroFirstIff(es, j);
    if es[0].path[0] == "0" {
      ArrayStaysArray([], es);
    } else {
      ObjectBuild(map[], es);
      MembersOfLeaves(es, j);
      ObjectMatches(Build(Null, es), es, j);
    }
  }

  lemma MembersOfLeaves(es: seq<Entry>, j: Json)
    requires Lists(es, j) && j.Obj? && j.members != map[]
    ensures forall k :: Below(es, k) != [] <==> k in j.members
  {
    hide Below, InOrder;
    forall k ensures Below(es, k) != [] <==> k in j.members {
      if k in j.members {
        ListsMember(es, j, k);
        ListsNotEmpty(Below(es, k), j.members[k]);
      }
      if Below(es, k) != [] {
        var e := Below(es, k)[0];
        BelowMember(es, k, e);
        LeafOfMemberKey(j, k, e.path);
      }
    }
  }

  lemma LeafOfMemberKey(j: Json, k: string, rest: seq<string>)
    requires j.Obj? && j.members != map[] && Leaf(j, [k] + rest).Some?
    ensures k in j.members
  {
  }

  lemma ObjectMatches(r: Result<Json>, es: seq<Entry>, j: Json)
    requires j.Obj? && BuiltObject(r, map[], es)
    requires forall k :: Below(es, k) != [] <==> k in j.members
    ensures r == Ok(j) <==> forall k | k in j.members :: Build(Null, Below(es, k)) == Ok(j.members[k])
  {
    hide Build, Below;
    forall k | k !in j.members ensures Build(Null, Below(es, k)) == Ok(Null) {
      BuildNothing(Null);
    }
    if forall k | k in j.members :: Build(Null, Below(es, k)) == Ok(j.members[k]) {
      forall k ensures Build(Child(map[], k), Below(es, k)).Ok? {
      }
      assert r.value.members.Keys == j.members.Keys;
      assert r.value.members == j.members;
    }
  }

  lemma BuildNothing(j: Json)
    ensures Build(j, []) == Ok(j)
  {
  }

  lemma BuildOfArray(es: seq<Entry>, j: Json)
    requires Lists(es, j) && es != [] && j.Arr? && j.elems != []
    requires forall i | 0 <= i < |j.elems| ::
               Build(Null, Below(es, DecimalText(i))) == Ok(j.elems[i]) <==> Recoverable(j.elems[i])
    ensures Build(Null, es) == Ok(j) <==> Recoverable(j)
  {
    hide Build, Lists, Below, DecimalText;
    var a := j.elems;
    LeavesAreDeep(es, j);
    DeepTail(es);
    BuildFromNull(es);
    ZeroComesFirst(es, j);
    LeavesAreIndexed(es, j);
    ArrayBuild([], es, |a|);
    forall i | 0 <= i < |a| ensures Below(es, DecimalText(i)) != [] {
      ListsElement(es, j, i);
      ListsNotEmpty(Below(es, DecimalText(i)), a[i]);
    }
    ArrayMatches(Build(Null, es), es, j);
  }

  lemma LeavesAreIndexed(es: seq<Entry>, j: Json)
    requires Lists(es, j) && j.Arr? && j.elems != []
    ensures Indexed(es, |j.elems|)
  {
    hide InOrder, DecimalText, IndexOf;
    forall e | e in es ensures e.path != [] && exists i: nat | i < |j.elems| :: e.path[0] == DecimalText(i) {
      assert Leaf(j, e.path).Some?;
      IndexOfToken(e.path[0]);
    }
  }

  /** No index text precedes "0". */
  lemma ZeroComesFirst(es: seq<Entry>, j: Json)
    requires Lists(es, j) && es != [] && j.Arr? && j.elems != [] && es[0].path != []
    ensures es[0].path[0] == "0"
  {
    hide InOrder, DecimalText, IndexOf, ToString, Less;
    var x := es[0];
    assert x in es;
    IndexOfToken(x.path[0]);
    var i := IndexOf(x.path[0]).value;
    IndexOfDecimal(0);
    SingleZero();
    var rest := HasLeaf(j.elems[0]);
    var ts := ConsLeaf("0", rest);
    var e := Entry(ts, Leaf(j, ts).value);
    FirstOfInOrder(es, e);
    if i != 0 {
      assert x.path == [DecimalText(i)] + x.path[1..];
      ZeroIsLess(i, rest, x.path[1..]);
      LessAsymmetric(ToString(x.path), ToString(ts));
    }
  }

  lemma ZeroIsLess(i: nat, a: seq<string>, b: seq<string>)
    requires i != 0
    ensures Less(ToString(["0"] + a), ToString([DecimalText(i)] + b))
  {
    hide ToString, DecimalText, Escape;
    SingleZero();
    ToStringCons("0", a);
    ToStringCons(DecimalText(i), b);
    DigitsAreNotEscaped("0");
    DigitsAreNotEscaped(DecimalText(i));
    DecimalValue(i);
    var x, y := "0" + ToString(a), DecimalText(i) + ToString(b);
    assert IsDigit(y[0]);
    assert Less(x, y);
    LessPrefix("/", x, y);
  }

  lemma ArrayMatches(r: Result<Json>, es: seq<Entry>, j: Json)
    requires j.Arr? && j.elems != [] && BuiltArray(r, [], es, |j.elems|)
    requires forall i | 0 <= i < |j.elems| :: Below(es, DecimalText(i)) != []
    ensures r == Ok(j) <==> |j.elems| <= TWO31 && forall i | 0 <= i < |j.elems| ::
            Build(Null, Below(es, DecimalText(i))) == Ok(j.elems[i])
  {
    hide Build, Below, DecimalText;
    var a := j.elems;
    assert |a| > TWO31 ==> Below(es, DecimalText(TWO31)) != [];
    if r == Ok(j) {
      forall i | 0 <= i < |a| ensures Build(Null, Below(es, DecimalText(i))) == Ok(a[i]) {
        assert Build(Element([], i), Below(es, DecimalText(i))) == Ok(Element(r.value.elems, i));
      }
    }
    if |a| <= TWO31 && forall i | 0 <= i < |a| :: Build(Null, Below(es, DecimalText(i))) == Ok(a[i]) {
      forall i: nat | i < |a| ensures Build(Element([], i), Below(es, DecimalText(i))) == Ok(a[i]) {
      }
      var b := r.value.elems;
      assert |b| == |a| by {
        assert Below(es, DecimalText(|a| - 1)) != [];
      }
      forall i | 0 <= i < |a| ensures b[i] == a[i] {
        assert Build(Element([], i), Below(es, DecimalText(i))) == Ok(Element(b, i));
      }
      assert b == a && r.value == Arr(b);
    }
  }

  // ----- the promise -----

  /** The entries that unflatten reads. */
  function Parsed(m: map<string, Json>, keys: seq<string>): seq<Entry>
    requires forall i | 0 <= i < |keys| :: keys[i] in m && Split(keys[i]).Ok?
  {
    if keys == [] then [] else [Entry(Split(keys[0]).value, m[keys[0]])] + Parsed(m, keys[1..])
  }

  lemma {:induction false} ReplayIsBuild(r: Json, m: map<string, Json>, keys: seq<string>)
    requires forall i | 0 <= i < |keys| :: keys[i] in m && Split(keys[i]).Ok? && Primitive(m[keys[i]])
    ensures Replay(r, m, keys) == Build(r, Parsed(m, keys))
    decreases |keys|
  {
    hide Split, Create;
    if keys != [] {
      var e := Entry(Split(keys[0]).value, m[keys[0]]);
      BuildHead(r, e, Parsed(m, keys[1..]));
      var next := Create(r, e.path, e.value);
      if next.Ok? {
        ReplayIsBuild(next.value, m, keys[1..]);
      }
    }
  }

  lemma {:induction false} ParsedMember(m: map<string, Json>, keys: seq<string>, e: Entry)
    requires forall i | 0 <= i < |keys| :: keys[i] in m && Split(keys[i]).Ok?
    ensures e in Parsed(m, keys) <==> ToString(e.path) in keys && m[ToString(e.path)] == e.value
    decreases |keys|
  {
    hide Split, ToString;
    if keys != [] {
      ParsedMember(m, keys[1..], e);
      assert keys == [keys[0]] + keys[1..];
      ToStringOfSplit(keys[0]);
      SplitOfToString(e.path);
    }
  }

  lemma {:induction false} ParsedInOrder(m: map<string, Json>, keys: seq<string>)
    requires Sorted(keys) && forall i | 0 <= i < |keys| :: keys[i] in m && Split(keys[i]).Ok?
    ensures InOrder(Parsed(m, keys))
    decreases |keys|
  {
    hide Split, ToString, Less;
    if keys != [] {
      ParsedInOrder(m, keys[1..]);
      ToStringOfSplit(keys[0]);
      forall e | e in Parsed(m, keys[1..]) ensures Less(keys[0], ToString(e.path)) {
        ParsedMember(m, keys[1..], e);
      }
      PrependInOrder(Entry(Split(keys[0]).value, m[keys[0]]), Parsed(m, keys[1..]));
    }
  }

  lemma PrependInOrder(e: Entry, es: seq<Entry>)
    requires InOrder(es) && forall x | x in es :: Less(ToString(e.path), ToString(x.path))
    ensures InOrder([e] + es)
  {
    hide ToString, Less;
    assert ([e] + es)[1..] == es;
  }

  lemma ParsedLists(j: Json)
    ensures var m := Leaves("", j); var keys := SortedKeys(m.Keys);
            && (forall i | 0 <= i < |keys| :: keys[i] in m && Split(keys[i]).Ok? && Primitive(m[keys[i]]))
            && Lists(Parsed(m, keys), j)
  {
    hide Split, ToString, Less, SortedKeys, Leaves, Leaf, Parsed, InOrder;
    var m := Leaves("", j);
    var keys := SortedKeys(m.Keys);
    EmptyToString();
    LeavesAreSound([], j);
    forall i | 0 <= i < |keys| ensures keys[i] in m && Split(keys[i]).Ok? && Primitive(m[keys[i]]) {
      assert keys[i] in keys;
      assert EntryIsLeaf(keys[i], m[keys[i]], [], j);
      LeafIsPrimitive(j, Split(keys[i]).value[0..]);
    }
    ParsedInOrder(m, keys);
    var es := Parsed(m, keys);
    forall e | e in es ensures Leaf(j, e.path) == Some(e.value) {
      ParsedMember(m, keys, e);
      assert EntryIsLeaf(ToString(e.path), e.value, [], j);
      SplitOfToString(e.path);
      assert e.path[0..] == e.path;
    }
    forall ts | Leaf(j, ts).Some? ensures Entry(ts, Leaf(j, ts).value) in es {
      assert [] + ts == ts;
      LeavesAreComplete([], j, ts);
      assert EntryIsLeaf(ToString(ts), m[ToString(ts)], [], j);
      SplitOfToString(ts);
      assert ts[0..] == ts;
      assert ToString(ts) in keys;
      ParsedMember(m, keys, Entry(ts, Leaf(j, ts).value));
    }
  }

  lemma {:induction false} LeafIsPrimitive(j: Json, ts: seq<string>)
    requires Leaf(j, ts).Some?
    ensures Primitive(Leaf(j, ts).value)
    decreases |ts|
  {
    hide IndexOf;
    if ts != [] {
      match j
      case Arr(a) => LeafIsPrimitive(a[IndexOf(ts[0]).value], ts[1..]);
      case Obj(m) => LeafIsPrimitive(m[ts[0]], ts[1..]);
      case _ =>
    }
  }

  /** `j.flatten().unflatten()` is `j` exactly when `j` is recoverable. */
  lemma UnflattenOfFlatten(j: Json)
    ensures Unflattened(Flattened(j)) == Ok(j) <==> Recoverable(j)
  {
    hide Leaves, SortedKeys, Split, Lists, Build, Replay, Recoverable, Parsed;
    var m := Leaves("", j);
    var keys := SortedKeys(m.Keys);
    ParsedLists(j);
    ReplayIsBuild(Null, m, keys);
    BuildOfLeaves(Parsed(m, keys), j);
  }

  // ----- up to the comparison operator -----

  /** Replaying the leaves of a value gives the value itself if it gives one that is equal to it. */
  lemma {:induction false} EqualIsSame(es: seq<Entry>, j: Json, v: Json)
    requires Lists(es, j) && Build(Null, es) == Ok(v) && Equal(v, j)
    ensures v == j
    decreases j
  {
    hide Build, Lists;
    ListsNotEmpty(es, j);
    match j
    case Arr(a) =>
      if a == [] {
        BuildOfLone(es, j, Null);
      } else {
        ElementsBuilt(es, j, v);
        forall i | 0 <= i < |a| ensures v.elems[i] == a[i] {
          ListsElement(es, j, i);
          EqualIsSame(Below(es, DecimalText(i)), a[i], v.elems[i]);
        }
        assert v.elems == a;
      }
    case Obj(m) =>
      if m == map[] {
        BuildOfLone(es, j, Null);
      } else {
        MembersBuilt(es, j, v);
        forall k | k in m ensures v.members[k] == m[k] {
          ListsMember(es, j, k);
          EqualIsSame(Below(es, k), m[k], v.members[k]);
        }
        assert v.members == m;
      }
    case _ =>
      BuildOfLone(es, j, j);
  }

  lemma ElementsBuilt(es: seq<Entry>, j: Json, v: Json)
    requires Lists(es, j) && es != [] && j.Arr? && j.elems != [] && Build(Null, es) == Ok(v) && Equal(v, j)
    ensures v.Arr? && |v.elems| == |j.elems|
    ensures forall i | 0 <= i < |v.elems| :: Build(Null, Below(es, DecimalText(i))) == Ok(v.elems[i])
  {
    hide Build, Lists, Below, DecimalText;
    LeavesAreDeep(es, j);
    DeepTail(es);
    BuildFromNull(es);
    ZeroComesFirst(es, j);
    LeavesAreIndexed(es, j);
    ArrayBuild([], es, |j.elems|);
    forall i | 0 <= i < |v.elems| ensures Build(Null, Below(es, DecimalText(i))) == Ok(v.elems[i]) {
      assert Build(Element([], i), Below(es, DecimalText(i))) == Ok(Element(v.elems, i));
    }
  }

  lemma MembersBuilt(es: seq<Entry>, j: Json, v: Json)
    requires Lists(es, j) && es != [] && j.Obj? && j.members != map[] && Build(Null, es) == Ok(v) && Equal(v, j)
    ensures v.Obj? && v.members.Keys == j.members.Keys
    ensures forall k | k in v.members :: Build(Null, Below(es, k)) == Ok(v.members[k])
  {
    hide Build, Lists, Below;
    LeavesAreDeep(es, j);
    DeepTail(es);
    BuildFromNull(es);
    if es[0].path[0] == "0" {
      ArrayStaysArray([], es);
    } else {
      ObjectBuild(map[], es);
      forall k | k in v.members ensures Build(Null, Below(es, k)) == Ok(v.members[k]) {
        assert Build(Child(map[], k), Below(es, k)) == Ok(Child(v.members, k));
      }
    }
  }

  /** The promise as it is documented, with the comparison operator: `j == j.flatten().unflatten()` exactly
      when `j` is recoverable. */
  lemma UnflattenEqualIff(j: Json)
    ensures Unflattened(Flattened(j)).Ok? && Equal(Unflattened(Flattened(j)).value, j) <==> Recoverable(j)
  {
    hide Leaves, SortedKeys, Split, Lists, Build, Replay, Recoverable, Parsed, Equal;
    var m := Leaves("", j);
    var keys := SortedKeys(m.Keys);
    UnflattenOfFlatten(j);
    EqualReflexive(j);
    ParsedLists(j);
    ReplayIsBuild(Null, m, keys);
    var r := Unflattened(Flattened(j));
    if r.Ok? && Equal(r.value, j) {
      EqualIsSame(Parsed(m, keys), j, r.value);
    }
  }

  /** The condition of the header's documentation, without empty containers, and with no key "0". */
  predicate Plain(j: Json) {
    match j
    case Arr(a) => 0 < |a| <= TWO31 && forall i | 0 <= i < |a| :: Plain(a[i])
    case Obj(m) => m != map[] && "0" !in m && forall k | k in m :: Plain(m[k])
    case _ => true
  }

  lemma {:induction false} PlainIsRecoverable(j: Json)
    requires Plain(j)
    ensures Recoverable(j)
    decreases j
  {
    match j
    case Arr(a) =>
      forall i | 0 <= i < |a| ensures Recoverable(a[i]) {
        PlainIsRecoverable(a[i]);
      }
    case Obj(m) =>
      forall k | k in m ensures Recoverable(m[k]) {
        PlainIsRecoverable(m[k]);
      }
    case _ =>
  }

  /** An object with the one key "0" comes back as an array with one element. */
  lemma ZeroBecomesArray(v: Json)
    requires Primitive(v)
    ensures Unflattened(Flattened(Obj(map["0" := v]))) == Ok(Arr([v]))
  {
    hide Leaves, Replay, SortedKeys;
    LeavesOfZero(v);
    ReplayOfZero(v);
    OneKey("/0");
    assert map["/0" := v].Keys == {"/0"};
  }

  lemma LeavesOfZero(v: Json)
    requires Primitive(v)
    ensures Leaves("", Obj(map["0" := v])) == map["/0" := v]
  {
    hide Leaves, Escape;
    LeavesOfOne("0", v);
    EscapeFirst("0");
    assert KeyPath("", "0") == "/0";
    assert Leaves("/0", v) == map["/0" := v] by { LeavesOfPrimitive("/0", v); }
  }

  lemma LeavesOfPrimitive(ref: string, v: Json)
    requires Primitive(v)
    ensures Leaves(ref, v) == map[ref := v]
  {
  }

  lemma LeavesOfOne(k: string, v: Json)
    ensures Leaves("", Obj(map[k := v])) == Leaves(KeyPath("", k), v)
  {
    hide KeyPath, SortedKeys, ElementLeaves, MemberLeaves;
    var j := Obj(map[k := v]);
    OneKey(k);
    assert j.members.Keys == {k} && k in j.members;
    LeavesOfLast("", j, k);
  }

  lemma LeavesOfLast(ref: string, j: Json, k: string)
    requires j.Obj? && k in j.members
    ensures MemberLeaves(ref, j, [k]) == Leaves(KeyPath(ref, k), j.members[k])
  {
    hide KeyPath, Leaves;
    var leaves := Leaves(KeyPath(ref, k), j.members[k]);
    assert [k][1..] == [];
    assert MemberLeaves(ref, j, []) == map[];
    assert leaves + map[] == leaves;
  }

  lemma ReplayOfZero(v: Json)
    requires Primitive(v)
    ensures Replay(Null, map["/0" := v], ["/0"]) == Ok(Arr([v]))
  {
    hide Split, ToString, Create;
    ToStringCons("0", []);
    EmptyToString();
    EscapeFirst("0");
    assert ["0"] + [] == ["0"] && "/" + ("0" + "") == "/0";
    SplitOfToString(["0"]);
    CreateZero(v);
    assert ["/0"][1..] == [];
    assert Replay(Arr([v]), map["/0" := v], []) == Ok(Arr([v]));
  }

  lemma CreateZero(v: Json)
    ensures Create(Null, ["0"], v) == Ok(Arr([v]))
  {
    assert ["0"][1..] == [];
    assert Create(Null, [], v) == Ok(v);
  }

  lemma OneKey(k: string)
    ensures SortedKeys({k}) == [k]
  {
    var s := SortedKeys({k});
    assert s[0] in s;
  }
}
