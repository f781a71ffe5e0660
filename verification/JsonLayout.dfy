/** The layout of dumped text (json.hpp:6263-6401), told from the tokens alone: the compact form is their
    texts in a row, and the pretty form puts every element and member on a line of its own, indented by
    its depth. */
module JsonLayout {
  import opened Strings
  import opened JsonValue
  import opened Ordering
  import opened JsonDump
  import opened JsonLexer
  import opened JsonScanner

  // ----- the printer -----

  predicate Opens(kind: Kind) {
    kind == BeginArray || kind == BeginObject
  }

  predicate Closes(kind: Kind) {
    kind == EndArray || kind == EndObject
  }

  /** A line break, and the indentation for a depth; the column is a 32-bit number. */
  function Line(l: Layout, depth: nat): string {
    if l.pretty then "\n" + Repeat(' ', Column(l, depth)) else ""
  }

  function Column(l: Layout, depth: nat): nat {
    depth * l.step % TWO32
  }

  /** Prints tokens at a depth. `bare` says that a bracket has just been opened, whose line ends here
      unless it is closed at once. */
  function Printed(ls: seq<Lexeme>, l: Layout, depth: nat, bare: bool): string {
    if ls == [] then ""
    else
      var text, rest := ls[0].text, ls[1..];
      if Closes(ls[0].kind) then
        var outer := if depth == 0 then 0 else depth - 1;
        (if bare then "" else Line(l, outer)) + text + Printed(rest, l, outer, false)
      else
        (if bare then Line(l, depth) else "") + text +
        (if Opens(ls[0].kind) then Printed(rest, l, depth + 1, true)
         else if ls[0].kind == ValueSeparator then Line(l, depth) + Printed(rest, l, depth, false)
         else if ls[0].kind == NameSeparator then (if l.pretty then " " else "") + Printed(rest, l, depth, false)
         else Printed(rest, l, depth, false))
  }

  /** The indentation that dump has reached. */
  function Indent(l: Layout, depth: nat): nat {
    if l.pretty then Column(l, depth) else 0
  }

  lemma DeeperIndent(l: Layout, depth: nat)
    ensures Deeper(l, Indent(l, depth)) == Indent(l, depth + 1)
    ensures Shallower(l, Indent(l, depth + 1)) == Indent(l, depth)
  {
    if l.pretty {
      assert (depth + 1) * l.step == depth * l.step + l.step;
      AddModulo(depth * l.step, l.step);
      SubtractModulo(depth * l.step + l.step, l.step);
      IndentIsSmall(depth * l.step);
    }
  }

  lemma IndentIsSmall(x: nat)
    ensures (x % TWO32) % TWO32 == x % TWO32
  {
  }

  lemma AddModulo(x: nat, y: nat)
    ensures (x % TWO32 + y) % TWO32 == (x + y) % TWO32
  {
    var q := x / TWO32;
    assert x + y == x % TWO32 + y + q * TWO32;
    Multiple(x % TWO32 + y, q);
  }

  lemma SubtractModulo(x: int, y: int)
    ensures (x % TWO32 - y) % TWO32 == (x - y) % TWO32
  {
    var q := x / TWO32;
    assert x - y == x % TWO32 - y + q * TWO32;
    Multiple(x % TWO32 - y, q);
  }

  lemma Multiple(x: int, p: int)
    ensures (x + p * TWO32) % TWO32 == x % TWO32
  {
    var d := (x + p * TWO32) / TWO32 - x / TWO32 - p;
    assert (x + p * TWO32) % TWO32 == x + p * TWO32 - ((x + p * TWO32) / TWO32) * TWO32;
    assert x % TWO32 == x - x / TWO32 * TWO32;
    assert d * TWO32 == x % TWO32 - (x + p * TWO32) % TWO32;
  }

  lemma LineIs(l: Layout, depth: nat)
    ensures Line(l, depth) == Newline(l) + Spaces(Indent(l, depth))
  {
    assert Repeat<char>(' ', 0) == "";
  }

  // ----- one token -----

  predicate Starts(ls: seq<Lexeme>) {
    ls != [] && !Closes(ls[0].kind)
  }

  /** The first token behind an opening bracket begins a line. */
  lemma PrintsBare(ls: seq<Lexeme>, l: Layout, depth: nat)
    requires Starts(ls)
    ensures Printed(ls, l, depth, true) == Line(l, depth) + Printed(ls, l, depth, false)
  {
    hide Line, Column, Printed;
    var text, rest := ls[0].text, ls[1..];
    PrintsFirst(ls, l, depth, true);
    PrintsFirst(ls, l, depth, false);
    var tail := After(ls[0].kind, rest, l, depth);
    assert "" + text + tail == text + tail;
    AppendAssociative(Line(l, depth), text, tail);
  }

  /** What follows the text of a token that closes nothing. */
  function After(kind: Kind, rest: seq<Lexeme>, l: Layout, depth: nat): string {
    if Opens(kind) then Printed(rest, l, depth + 1, true)
    else if kind == ValueSeparator then Line(l, depth) + Printed(rest, l, depth, false)
    else if kind == NameSeparator then (if l.pretty then " " else "") + Printed(rest, l, depth, false)
    else Printed(rest, l, depth, false)
  }

  lemma PrintsFirst(ls: seq<Lexeme>, l: Layout, depth: nat, bare: bool)
    requires Starts(ls)
    ensures Printed(ls, l, depth, bare) ==
            (if bare then Line(l, depth) else "") + ls[0].text + After(ls[0].kind, ls[1..], l, depth)
  {
    hide Line;
  }

  lemma PrintsToken(x: Lexeme, rest: seq<Lexeme>, l: Layout, depth: nat)
    requires !Closes(x.kind)
    ensures Printed([x] + rest, l, depth, false) == x.text + After(x.kind, rest, l, depth)
  {
    hide Printed, After;
    PrintsFirst([x] + rest, l, depth, false);
    assert ([x] + rest)[1..] == rest;
    assert "" + x.text == x.text;
  }

  lemma PrintsClose(x: Lexeme, rest: seq<Lexeme>, l: Layout, depth: nat, bare: bool)
    requires Closes(x.kind)
    ensures Printed([x] + rest, l, depth + 1, bare) ==
            (if bare then "" else Line(l, depth)) + x.text + Printed(rest, l, depth, false)
  {
    hide Line;
    assert ([x] + rest)[1..] == rest;
  }

  // ----- a value -----

  lemma PrintsLeaf(x: Lexeme, rest: seq<Lexeme>, l: Layout, depth: nat)
    requires !Closes(x.kind) && !Opens(x.kind) && x.kind != ValueSeparator && x.kind != NameSeparator
    ensures Printed([x] + rest, l, depth, false) == x.text + Printed(rest, l, depth, false)
  {
    hide Printed;
    PrintsToken(x, rest, l, depth);
  }

  lemma LexemesStart(j: Json, rest: seq<Lexeme>)
    ensures Starts(Lexemes(j) + rest)
  {
    hide ElementLexemes, MemberLexemes;
  }

  /** The printer writes what dump writes. */
  lemma {:induction false} PrintsValue(j: Json, l: Layout, depth: nat, rest: seq<Lexeme>)
    ensures Printed(Lexemes(j) + rest, l, depth, false) ==
            Dumped(j, l, Indent(l, depth)) + Printed(rest, l, depth, false)
    decreases j, 1, 0
  {
    hide Printed, Indent, ElementLexemes, MemberLexemes, DumpedElements, DumpedMembers, SortedKeys, Quoted,
         IntegerText, Bracketed, Deeper;
    match j
    case Null => PrintsLeaf(Lexeme(NullLiteral, "null"), rest, l, depth);
    case Bool(b) =>
      PrintsLeaf(if b then Lexeme(TrueLiteral, "true") else Lexeme(FalseLiteral, "false"), rest, l, depth);
    case Str(s) => PrintsLeaf(Lexeme(StringToken, Quoted(s)), rest, l, depth);
    case Int(i) => PrintsLeaf(Lexeme(NumberToken, IntegerText(i)), rest, l, depth);
    case Uint(u) => PrintsLeaf(Lexeme(NumberToken, IntegerText(u)), rest, l, depth);
    case Arr(a) => PrintsArray(j, l, depth, rest);
    case Obj(m) => PrintsObject(j, l, depth, rest);
  }

  /** A bracketed list of elements or members. */
  lemma PrintsBrackets(open: Lexeme, body: seq<Lexeme>, close: Lexeme, rest: seq<Lexeme>, l: Layout, depth: nat,
      text: string)
    requires Opens(open.kind) && Closes(close.kind) && Starts(body)
    requires Spaces(Indent(l, depth + 1)) + Printed(body + ([close] + rest), l, depth + 1, false) ==
             text + Printed([close] + rest, l, depth + 1, false)
    ensures Printed([open] + body + [close] + rest, l, depth, false) ==
            Bracketed(l, Indent(l, depth + 1), open.text, text, close.text) + Printed(rest, l, depth, false)
  {
    hide Printed, Indent, Spaces, Newline, Line, Shallower, After;
    var inside := body + ([close] + rest);
    assert [open] + body + [close] + rest == [open] + inside;
    PrintsToken(open, inside, l, depth);
    PrintsBare(inside, l, depth + 1);
    AfterOpening(open.kind, inside, l, depth);
    LineIs(l, depth + 1);
    PrintsClose(close, rest, l, depth, false);
    LineIs(l, depth);
    DeeperIndent(l, depth);
    var tail := Printed(rest, l, depth, false);
    Around(open.text, Newline(l), Spaces(Indent(l, depth + 1)), Printed(inside, l, depth + 1, false), text,
           Spaces(Indent(l, depth)), close.text, tail);
  }

  lemma AfterOpening(kind: Kind, rest: seq<Lexeme>, l: Layout, depth: nat)
    requires Opens(kind)
    ensures After(kind, rest, l, depth) == Printed(rest, l, depth + 1, true)
  {
    hide Printed;
  }

  lemma Around(open: string, line: string, spaces: string, inside: string, text: string, outer: string, close: string,
      tail: string)
    requires spaces + inside == text + (line + outer + close + tail)
    ensures open + (line + spaces + inside) == open + line + text + line + outer + close + tail
  {
    assert line + spaces + inside == line + (spaces + inside);
    assert open + (line + (text + (line + outer + close + tail))) == open + line + text + line + outer + close + tail;
  }

  lemma {:induction false} PrintsArray(j: Json, l: Layout, depth: nat, rest: seq<Lexeme>)
    requires j.Arr?
    ensures Printed(Lexemes(j) + rest, l, depth, false) ==
            Dumped(j, l, Indent(l, depth)) + Printed(rest, l, depth, false)
    decreases j, 0, |j.elems| + 1
  {
    hide Printed, Indent, ElementLexemes, DumpedElements, Bracketed, Deeper, Spaces;
    var open, close := Lexeme(BeginArray, "["), Lexeme(EndArray, "]");
    if j.elems == [] {
      NoElements(j);
      PrintsEmpty(open, close, rest, l, depth);
      assert [open] + [] + [close] + rest == [open] + ([close] + rest);
    } else {
      DeeperIndent(l, depth);
      PrintsElements(j, l, depth + 1, 0, [close] + rest);
      ElementsStart(j);
      PrintsBrackets(open, ElementLexemes(j, 0), close, rest, l, depth, DumpedElements(j, l, Indent(l, depth + 1), 0));
    }
  }

  lemma NoElements(j: Json)
    requires j.Arr? && j.elems == []
    ensures ElementLexemes(j, 0) == []
  {
  }

  lemma ElementsStart(j: Json)
    requires j.Arr? && j.elems != []
    ensures Starts(ElementLexemes(j, 0))
  {
    hide Lexemes;
    LexemesStart(j.elems[0], ElementLexemes(j, 1));
  }

  lemma PrintsEmpty(open: Lexeme, close: Lexeme, rest: seq<Lexeme>, l: Layout, depth: nat)
    requires Opens(open.kind) && Closes(close.kind)
    ensures Printed([open] + ([close] + rest), l, depth, false) ==
            open.text + close.text + Printed(rest, l, depth, false)
  {
    hide Printed, Line, After;
    PrintsToken(open, [close] + rest, l, depth);
    AfterOpening(open.kind, [close] + rest, l, depth);
    PrintsClose(close, rest, l, depth, true);
    var tail := Printed(rest, l, depth, false);
    assert "" + close.text + tail == close.text + tail;
    AppendAssociative(open.text, close.text, tail);
  }

  /** A comma, and the line break behind it. */
  lemma PrintsComma(rest: seq<Lexeme>, l: Layout, depth: nat)
    ensures Printed([Comma()] + rest, l, depth, false) ==
            Separator(l, false) + (Spaces(Indent(l, depth)) + Printed(rest, l, depth, false))
  {
    hide Printed, Line, Indent, Spaces, Newline;
    PrintsToken(Comma(), rest, l, depth);
    LineIs(l, depth);
    var tail := Printed(rest, l, depth, false);
    AppendAssociative(Newline(l), Spaces(Indent(l, depth)), tail);
    AppendAssociative(",", Newline(l), Spaces(Indent(l, depth)) + tail);
  }

  /** The elements from index `i` on; the first one stands at the start of its line already. */
  lemma {:induction false} PrintsElements(j: Json, l: Layout, depth: nat, i: nat, rest: seq<Lexeme>)
    requires j.Arr?
    ensures (if i == 0 && i < |j.elems| then Spaces(Indent(l, depth)) else "") +
            Printed(ElementLexemes(j, i) + rest, l, depth, false) ==
            DumpedElements(j, l, Indent(l, depth), i) + Printed(rest, l, depth, false)
    decreases j, 0, |j.elems| - i
  {
    hide Printed, Indent, Lexemes, Dumped, Separator, Spaces, ElementLexemes, DumpedElements;
    var n, tail := Indent(l, depth), Printed(rest, l, depth, false);
    ElementsUnfold(j, l, n, i);
    if i >= |j.elems| {
      assert [] + rest == rest && "" + tail == tail;
    } else {
      var e, more := j.elems[i], ElementLexemes(j, i + 1);
      PrintsElements(j, l, depth, i + 1, rest);
      var after := DumpedElements(j, l, n, i + 1);
      assert "" + Printed(more + rest, l, depth, false) == Printed(more + rest, l, depth, false);
      PrintsValue(e, l, depth, more + rest);
      var here := Dumped(e, l, n) + (after + tail);
      ThreeAndRest(if i == 0 then [] else [Comma()], Lexemes(e), more, rest);
      if i == 0 {
        assert [] + (Lexemes(e) + (more + rest)) == Lexemes(e) + (more + rest);
        FirstSeparator(l);
      } else {
        PrintsComma(Lexemes(e) + (more + rest), l, depth);
      }
      FourAndRest(Separator(l, i == 0), Spaces(n), Dumped(e, l, n), after, tail);
      assert "" + (Spaces(n) + here) == Spaces(n) + here;
      assert "" + (Separator(l, i == 0) + (Spaces(n) + here)) == Separator(l, i == 0) + (Spaces(n) + here);
    }
  }

  lemma ElementsUnfold(j: Json, l: Layout, n: nat, i: nat)
    requires j.Arr?
    ensures ElementLexemes(j, i) == if i >= |j.elems| then []
            else (if i == 0 then [] else [Comma()]) + Lexemes(j.elems[i]) + ElementLexemes(j, i + 1)
    ensures DumpedElements(j, l, n, i) == if i >= |j.elems| then ""
            else Separator(l, i == 0) + Spaces(n) + Dumped(j.elems[i], l, n) + DumpedElements(j, l, n, i + 1)
  {
    hide Lexemes, Dumped, Spaces, Separator;
  }

  lemma FirstSeparator(l: Layout)
    ensures Separator(l, true) == ""
  {
  }

  lemma {:induction false} PrintsObject(j: Json, l: Layout, depth: nat, rest: seq<Lexeme>)
    requires j.Obj?
    ensures Printed(Lexemes(j) + rest, l, depth, false) ==
            Dumped(j, l, Indent(l, depth)) + Printed(rest, l, depth, false)
    decreases j, 0, |j.members| + 1
  {
    hide Printed, Indent, MemberLexemes, DumpedMembers, Bracketed, Deeper, Spaces, SortedKeys;
    var open, close := Lexeme(BeginObject, "{"), Lexeme(EndObject, "}");
    var keys := SortedKeys(j.members.Keys);
    KeysAreMembers(j.members);
    if j.members == map[] {
      NoMembersAtAll(j);
      PrintsEmpty(open, close, rest, l, depth);
      assert [open] + [] + [close] + rest == [open] + ([close] + rest);
    } else {
      DeeperIndent(l, depth);
      SomeKeys(j.members);
      PrintsMembers(j, l, depth + 1, keys, true, [close] + rest);
      MembersStart(j, keys);
      PrintsBrackets(open, MemberLexemes(j, keys, true), close, rest, l, depth,
                     DumpedMembers(j, l, Indent(l, depth + 1), keys, true));
    }
  }

  lemma SomeKeys(m: map<string, Json>)
    requires m != map[]
    ensures SortedKeys(m.Keys) != [] && |SortedKeys(m.Keys)| == |m|
  {
    hide SortedKeys;
    assert |SortedKeys(m.Keys)| == |m.Keys|;
    if m.Keys == {} {
      NoKeysAtAll(m);
    }
  }

  lemma NoKeysAtAll(m: map<string, Json>)
    requires m.Keys == {}
    ensures m == map[]
  {
  }

  lemma NoMembersAtAll(j: Json)
    requires j.Obj? && j.members == map[]
    ensures SortedKeys(j.members.Keys) == [] && MemberLexemes(j, [], true) == []
  {
    hide SortedKeys;
    assert |SortedKeys(j.members.Keys)| == |j.members.Keys|;
  }

  lemma MembersStart(j: Json, keys: seq<string>)
    requires j.Obj? && keys != [] && forall i | 0 <= i < |keys| :: keys[i] in j.members
    ensures Starts(MemberLexemes(j, keys, true))
  {
    hide Lexemes, Quoted;
  }

  lemma PrintsName(k: string, rest: seq<Lexeme>, l: Layout, depth: nat)
    ensures Printed([Lexeme(StringToken, Quoted(k))] + ([Lexeme(NameSeparator, ":")] + rest), l, depth, false) ==
            Quoted(k) + (Colon(l) + Printed(rest, l, depth, false))
  {
    hide Printed, Quoted;
    PrintsLeaf(Lexeme(StringToken, Quoted(k)), [Lexeme(NameSeparator, ":")] + rest, l, depth);
    PrintsToken(Lexeme(NameSeparator, ":"), rest, l, depth);
    var tail := Printed(rest, l, depth, false);
    assert l.pretty ==> ":" + (" " + tail) == ": " + tail;
    assert !l.pretty ==> "" + tail == tail;
  }

  lemma {:induction false} PrintsMembers(j: Json, l: Layout, depth: nat, keys: seq<string>, first: bool,
      rest: seq<Lexeme>)
    requires j.Obj? && (forall i | 0 <= i < |keys| :: keys[i] in j.members) && |keys| <= |j.members|
    ensures (if first && keys != [] then Spaces(Indent(l, depth)) else "") +
            Printed(MemberLexemes(j, keys, first) + rest, l, depth, false) ==
            DumpedMembers(j, l, Indent(l, depth), keys, first) + Printed(rest, l, depth, false)
    decreases j, 0, |keys|
  {
    hide Printed, Indent, Lexemes, Dumped, Separator, Spaces, Quoted, Colon;
    var tail := Printed(rest, l, depth, false);
    if keys == [] {
      assert [] + rest == rest && "" + tail == tail;
    } else {
      var k, v, more := keys[0], j.members[keys[0]], MemberLexemes(j, keys[1..], false);
      var n := Indent(l, depth);
      var name, colon := Lexeme(StringToken, Quoted(k)), Lexeme(NameSeparator, ":");
      PrintsMembers(j, l, depth, keys[1..], false, rest);
      var after := DumpedMembers(j, l, n, keys[1..], false);
      assert "" + Printed(more + rest, l, depth, false) == Printed(more + rest, l, depth, false);
      PrintsValue(v, l, depth, more + rest);
      PrintsName(k, Lexemes(v) + (more + rest), l, depth);
      var here := Quoted(k) + (Colon(l) + (Dumped(v, l, n) + (after + tail)));
      MemberAndRest(if first then [] else [Comma()], name, colon, Lexemes(v), more, rest);
      if first {
        assert [] + ([name] + ([colon] + (Lexemes(v) + (more + rest)))) ==
               [name] + ([colon] + (Lexemes(v) + (more + rest)));
        FirstSeparator(l);
      } else {
        PrintsComma([name] + ([colon] + (Lexemes(v) + (more + rest))), l, depth);
      }
      SixAndRest(Separator(l, first), Spaces(n), Quoted(k), Colon(l), Dumped(v, l, n), after, tail);
      assert "" + (Spaces(n) + here) == Spaces(n) + here;
      assert "" + (Separator(l, first) + (Spaces(n) + here)) == Separator(l, first) + (Spaces(n) + here);
    }
  }

  // ----- the whole text -----

  /** Dumped text is the printed form of the tokens of the value: pretty for an indent of 0 or more, which
      is the step from one depth to the next, and compact for a negative one. */
  lemma DumpIsPrinted(j: Json, indent: int)
    ensures Dump(j, indent) ==
            Printed(Lexemes(j), if indent >= 0 then Layout(true, indent) else Layout(false, 0), 0, false)
  {
    hide Printed, Lexemes, Dumped;
    var l := LayoutOf(indent);
    PrintsValue(j, l, 0, []);
    assert Lexemes(j) + [] == Lexemes(j);
    PrintsNothing(l);
    assert Dumped(j, l, 0) + "" == Dumped(j, l, 0);
  }

  lemma PrintsNothing(l: Layout)
    ensures Printed([], l, 0, false) == "" && Indent(l, 0) == 0
  {
  }

  function Texts(ls: seq<Lexeme>): string {
    if ls == [] then "" else ls[0].text + Texts(ls[1..])
  }

  lemma CompactStep(ls: seq<Lexeme>, l: Layout, depth: nat, bare: bool) returns (next: nat, bare': bool)
    requires !l.pretty && ls != []
    ensures Printed(ls, l, depth, bare) == ls[0].text + Printed(ls[1..], l, next, bare')
  {
    var text, rest := ls[0].text, ls[1..];
    assert "" + text == text;
    if Closes(ls[0].kind) {
      next, bare' := if depth == 0 then 0 else depth - 1, false;
    } else {
      hide Printed;
      next, bare' := if Opens(ls[0].kind) then depth + 1 else depth, Opens(ls[0].kind);
      PrintsFirst(ls, l, depth, bare);
      assert "" + Printed(rest, l, next, bare') == Printed(rest, l, next, bare');
    }
  }

  lemma {:induction false} CompactTexts(ls: seq<Lexeme>, l: Layout, depth: nat, bare: bool)
    requires !l.pretty
    ensures Printed(ls, l, depth, bare) == Texts(ls)
    decreases |ls|
  {
    if ls != [] {
      hide Printed;
      var next, bare' := CompactStep(ls, l, depth, bare);
      CompactTexts(ls[1..], l, next, bare');
    }
  }

  /** The compact form has no layout at all. */
  lemma CompactIsTexts(j: Json, indent: int)
    requires indent < 0
    ensures Dump(j, indent) == Texts(Lexemes(j))
  {
    hide Dump, Printed, Lexemes, Texts;
    DumpIsPrinted(j, indent);
    CompactTexts(Lexemes(j), LayoutOf(indent), 0, false);
  }
}
