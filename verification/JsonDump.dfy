/** Serialization of a JSON value (json.hpp:6091-6401): escaping of strings, and dump in compact form
    and with indentation. */
module JsonDump {
  import opened Strings
  import opened Hexadecimal
  import opened JsonValue
  import opened Decimal
  import opened Ordering

  const TWO32: int := 0x1_0000_0000

  // ----- escape_string -----

  predicate IsControl(c: char) {
    c as int < 0x20
  }

  /** The short form of an escape sequence, where there is one. */
  function ShortEscape(c: char): Option<char> {
    if c == '"' then Some('"')
    else if c == '\\' then Some('\\')
    else if c as int == 0x08 then Some('b')
    else if c as int == 0x0c then Some('f')
    else if c as int == 0x0a then Some('n')
    else if c as int == 0x0d then Some('r')
    else if c as int == 0x09 then Some('t')
    else None
  }

  function EscapedChar(c: char): (e: string)
    ensures |e| == 1 + Extra(c)
  {
    match ShortEscape(c)
    case Some(x) => ['\\', x]
    case None => if IsControl(c) then ['\\', 'u', '0', '0', HexDigit(c as int / 16), HexDigit(c as int % 16)] else [c]
  }

  function Escaped(s: string): string {
    if s == "" then "" else EscapedChar(s[0]) + Escaped(s[1..])
  }

  /** The bytes that escaping one character adds. */
  function Extra(c: char): nat {
    if ShortEscape(c).Some? then 1 else if IsControl(c) then 5 else 0
  }

  function ExtraSum(s: string): nat {
    if s == "" then 0 else Extra(s[0]) + ExtraSum(s[1..])
  }

  lemma {:induction false} ExtraSumAppend(s: string, t: string)
    ensures ExtraSum(s + t) == ExtraSum(s) + ExtraSum(t)
  {
    if s == "" {
      assert s + t == t;
    } else {
      ExtraSumAppend(s[1..], t);
      assert (s + t)[1..] == s[1..] + t;
    }
  }

  lemma ExtraSumOne(c: char)
    ensures ExtraSum([c]) == Extra(c)
  {
  }

  lemma {:induction false} EscapedAppend(s: string, t: string)
    ensures Escaped(s + t) == Escaped(s) + Escaped(t)
  {
    hide EscapedChar;
    if s == "" {
      assert s + t == t;
    } else {
      EscapedAppend(s[1..], t);
      assert (s + t)[1..] == s[1..] + t;
      AppendAssociative(EscapedChar(s[0]), Escaped(s[1..]), Escaped(t));
    }
  }

  lemma EscapedOne(c: char)
    ensures Escaped([c]) == EscapedChar(c)
  {
    assert [c][1..] == "";
  }

  /** The prefix read so far, and the character after it. */
  lemma PrefixStep(s: string, i: nat)
    requires i < |s|
    ensures s[..i + 1] == s[..i] + [s[i]]
    ensures ExtraSum(s[..i + 1]) == ExtraSum(s[..i]) + Extra(s[i])
    ensures Escaped(s[..i + 1]) == Escaped(s[..i]) + EscapedChar(s[i])
  {
    assert s[..i + 1] == s[..i] + [s[i]];
    ExtraSumAppend(s[..i], [s[i]]);
    ExtraSumOne(s[i]);
    EscapedAppend(s[..i], [s[i]]);
    EscapedOne(s[i]);
  }

  lemma {:induction false} EscapedLength(s: string)
    ensures |Escaped(s)| == |s| + ExtraSum(s)
  {
    if s != "" {
      EscapedLength(s[1..]);
    }
  }

  lemma {:induction false} NothingToEscape(s: string)
    requires ExtraSum(s) == 0
    ensures Escaped(s) == s
  {
    if s != "" {
      NothingToEscape(s[1..]);
      assert s == [s[0]] + s[1..];
    }
  }

  lemma {:induction false} ExtraSumSplit(s: string, i: nat)
    requires i <= |s|
    ensures ExtraSum(s[..i]) <= ExtraSum(s)
  {
    hide ExtraSum;
    assert s == s[..i] + s[i..];
    ExtraSumAppend(s[..i], s[i..]);
  }

  /** extra_space: a fold over the characters. */
  method ExtraSpace(s: string) returns (space: nat)
    ensures space == ExtraSum(s)
  {
    space := 0;
    for i := 0 to |s|
      invariant space == ExtraSum(s[..i])
    {
      PrefixStep(s, i);
      space := space + Extra(s[i]);
    }
    assert s[..|s|] == s;
  }

  /** escape_string: the result is allocated once, full of backslashes, and filled in place; it is
      filled exactly. */
  method EscapeString(s: string) returns (r: string)
    ensures r == Escaped(s)
  {
    hide Escaped, ExtraSum, Filled, Extra, EscapedChar;
    var space := ExtraSpace(s);
    if space == 0 {
      NothingToEscape(s);
      return s;
    }
    var result := new char[|s| + space](_ => '\\');
    var pos := 0;
    FilledStart(result[..]);
    for i := 0 to |s|
      invariant pos == i + ExtraSum(s[..i])
      invariant Filled(result[..], pos, s[..i], |s| + space)
    {
      PrefixStep(s, i);
      ExtraSumSplit(s, i + 1);
      ghost var before := result[..];
      FilledTail(before, pos, s[..i], |s| + space);
      FillIn(result, pos, s[i]);
      FilledStep(before, result[..], pos, s[..i], s[i], |s| + space);
      pos := pos + 1 + Extra(s[i]);
    }
    FilledEnd(result[..], pos, s);
    r := result[..];
  }

  lemma FilledStart(b: string)
    requires forall k | 0 <= k < |b| :: b[k] == '\\'
    ensures Filled(b, 0, "", |b|) && ExtraSum("") == 0
  {
  }

  lemma FilledEnd(b: string, pos: nat, s: string)
    requires pos == |s| + ExtraSum(s[..|s|]) && Filled(b, pos, s[..|s|], |s| + ExtraSum(s))
    ensures b == Escaped(s)
  {
    hide Escaped, ExtraSum;
    assert s[..|s|] == s;
    EscapedLength(s);
    assert b[..pos] == b;
  }

  /** Up to `pos` the buffer holds the escaped prefix, after it backslashes. */
  ghost predicate Filled(b: string, pos: nat, prefix: string, size: nat) {
    pos <= |b| == size && b[..pos] == Escaped(prefix) && forall k | pos <= k < |b| :: b[k] == '\\'
  }

  lemma FilledTail(b: string, pos: nat, prefix: string, size: nat)
    requires Filled(b, pos, prefix, size)
    ensures pos <= |b| == size && forall k | pos <= k < |b| :: b[k] == '\\'
  {
  }

  lemma FilledStep(b: string, b': string, pos: nat, prefix: string, c: char, size: nat)
    requires Filled(b, pos, prefix, size) && |b'| == size && pos + 1 + Extra(c) <= size
    requires Escaped(prefix + [c]) == Escaped(prefix) + EscapedChar(c)
    requires b'[pos..pos + 1 + Extra(c)] == EscapedChar(c)
    requires forall k | 0 <= k < pos :: b'[k] == b[k]
    requires forall k | pos + 1 + Extra(c) <= k < size :: b'[k] == '\\'
    ensures Filled(b', pos + 1 + Extra(c), prefix + [c], size)
  {
    hide Escaped, EscapedChar, Extra;
    assert b'[..pos + 1 + Extra(c)] == b'[..pos] + b'[pos..pos + 1 + Extra(c)];
    assert b'[..pos] == b[..pos];
  }

  /** The switch of the loop body, on a stretch that still holds backslashes. */
  method FillIn(result: array<char>, pos: nat, c: char)
    requires pos + 1 + Extra(c) <= result.Length
    requires forall k | pos <= k < result.Length :: result[k] == '\\'
    modifies result
    ensures result[pos..pos + 1 + Extra(c)] == EscapedChar(c)
    ensures forall k | 0 <= k < pos :: result[k] == old(result[k])
    ensures forall k | pos + 1 + Extra(c) <= k < result.Length :: result[k] == '\\'
  {
    hide ShortEscape, HexDigit;
    if ShortEscape(c).Some? {
      FillShort(result, pos, ShortEscape(c).value);
    } else if IsControl(c) {
      FillControl(result, pos, HexDigit(c as int / 16), HexDigit(c as int % 16));
    } else {
      result[pos] := c;
      assert result[pos..pos + 1] == [c];
    }
  }

  method FillShort(result: array<char>, pos: nat, c: char)
    requires pos + 2 <= result.Length && result[pos] == '\\'
    modifies result
    ensures result[pos..pos + 2] == ['\\', c]
    ensures forall k | 0 <= k < result.Length && k != pos + 1 :: result[k] == old(result[k])
  {
    result[pos + 1] := c;
  }

  method FillControl(result: array<char>, pos: nat, high: char, low: char)
    requires pos + 6 <= result.Length && result[pos] == '\\'
    modifies result
    ensures result[pos..pos + 6] == ['\\', 'u', '0', '0', high, low]
    ensures forall k | 0 <= k < result.Length && !(pos < k < pos + 6) :: result[k] == old(result[k])
  {
    result[pos + 1], result[pos + 2], result[pos + 3] := 'u', '0', '0';
    result[pos + 4], result[pos + 5] := high, low;
  }

  // ----- dump -----

  /** How dump lays out its text: `step` is an `unsigned int`. */
  datatype Layout = Layout(pretty: bool, step: nat)

  function Newline(l: Layout): string {
    if l.pretty then "\n" else ""
  }

  function Spaces(n: nat): string {
    Repeat(' ', n)
  }

  /** `new_indent += indent_step` in unsigned arithmetic. */
  function Deeper(l: Layout, indent: nat): nat {
    if l.pretty then (indent + l.step) % TWO32 else indent
  }

  function Shallower(l: Layout, indent: nat): nat {
    if l.pretty then (indent - l.step) % TWO32 else indent
  }

  function Quoted(s: string): string {
    "\"" + Escaped(s) + "\""
  }

  function IntegerText(i: int): string {
    if i < 0 then "-" + DecimalText(-i) else DecimalText(i)
  }

  /** A body between its brackets, each on a line of its own in the pretty form. */
  function Bracketed(l: Layout, inner: nat, open: string, body: string, close: string): string {
    open + Newline(l) + body + Newline(l) + Spaces(Shallower(l, inner)) + close
  }

  /** dump (json.hpp:6263-6401). */
  function Dumped(j: Json, l: Layout, indent: nat): string
    decreases j, 1, 0
  {
    match j
    case Null => "null"
    case Bool(b) => if b then "true" else "false"
    case Str(s) => Quoted(s)
    case Int(i) => IntegerText(i)
    case Uint(u) => IntegerText(u)
    case Arr(a) =>
      if a == [] then "[]"
      else
        var inner := Deeper(l, indent);
        Bracketed(l, inner, "[", DumpedElements(j, l, inner, 0), "]")
    case Obj(m) =>
      if m == map[] then "{}"
      else
        var inner := Deeper(l, indent);
        Bracketed(l, inner, "{", DumpedMembers(j, l, inner, SortedKeys(m.Keys), true), "}")
  }

  /** What comes between two elements. */
  function Separator(l: Layout, first: bool): string {
    if first then "" else "," + Newline(l)
  }

  function DumpedElements(j: Json, l: Layout, indent: nat, i: nat): string
    requires j.Arr?
    decreases j, 0, |j.elems| - i
  {
    if i >= |j.elems| then ""
    else Separator(l, i == 0) + Spaces(indent) + Dumped(j.elems[i], l, indent) + DumpedElements(j, l, indent, i + 1)
  }

  function DumpedMembers(j: Json, l: Layout, indent: nat, keys: seq<string>, first: bool): string
    requires j.Obj? && forall i | 0 <= i < |keys| :: keys[i] in j.members
    decreases j, 0, |keys|
  {
    if keys == [] then ""
    else
      Separator(l, first) + Spaces(indent) + Quoted(keys[0]) + Colon(l) + Dumped(j.members[keys[0]], l, indent) +
      DumpedMembers(j, l, indent, keys[1..], false)
  }

  function Colon(l: Layout): string {
    if l.pretty then ": " else ":"
  }

  /** The public member: a negative indent asks for the compact form. */
  function LayoutOf(indent: int): Layout {
    if indent >= 0 then Layout(true, indent) else Layout(false, 0)
  }

  function Dump(j: Json, indent: int): string {
    Dumped(j, LayoutOf(indent), 0)
  }

  // The writes to the stream `o`.

  method Write(o: string, j: Json, l: Layout, indent: nat) returns (r: string)
    ensures r == o + Dumped(j, l, indent)
    decreases j, 2
  {
    hide Bracketed, DumpedElements, DumpedMembers, Quoted, IntegerText, SortedKeys;
    match j
    case Null => r := o + "null";
    case Bool(b) => r := o + (if b then "true" else "false");
    case Str(s) =>
      var text := QuotedText(s);
      r := o + text;
    case Int(i) => r := o + IntegerText(i);
    case Uint(u) => r := o + IntegerText(u);
    case Arr(a) =>
      if a == [] {
        r := o + "[]";
      } else {
        r := WriteArray(o, j, l, indent);
      }
    case Obj(m) =>
      if m == map[] {
        r := o + "{}";
      } else {
        r := WriteObject(o, j, l, indent);
      }
  }

  method WriteArray(o: string, j: Json, l: Layout, indent: nat) returns (r: string)
    requires j.Arr?
    ensures r == o + Bracketed(l, Deeper(l, indent), "[", DumpedElements(j, l, Deeper(l, indent), 0), "]")
    decreases j, 1
  {
    hide DumpedElements, Newline, Deeper, Spaces;
    var newIndent := Deeper(l, indent);
    r := WriteElements(o + "[" + Newline(l), j, l, newIndent);
    r := r + Newline(l) + Spaces(Shallower(l, newIndent)) + "]";
    BracketedGroups(o, l, newIndent, "[", DumpedElements(j, l, newIndent, 0), "]");
  }

  method WriteObject(o: string, j: Json, l: Layout, indent: nat) returns (r: string)
    requires j.Obj?
    ensures r == o + Bracketed(l, Deeper(l, indent), "{",
            DumpedMembers(j, l, Deeper(l, indent), SortedKeys(j.members.Keys), true), "}")
    decreases j, 1
  {
    hide DumpedMembers, Newline, Deeper, Spaces, SortedKeys;
    var newIndent := Deeper(l, indent);
    r := WriteMembers(o + "{" + Newline(l), j, l, newIndent);
    r := r + Newline(l) + Spaces(Shallower(l, newIndent)) + "}";
    BracketedGroups(o, l, newIndent, "{", DumpedMembers(j, l, newIndent, SortedKeys(j.members.Keys), true), "}");
  }

  lemma BracketedGroups(o: string, l: Layout, inner: nat, open: string, body: string, close: string)
    ensures o + Bracketed(l, inner, open, body, close) ==
            o + open + Newline(l) + body + Newline(l) + Spaces(Shallower(l, inner)) + close
  {
    hide Newline, Spaces, Shallower;
    RegroupMember(o, open, Newline(l), body, Newline(l), Spaces(Shallower(l, inner)), close);
    assert open + Newline(l) + body + Newline(l) + Spaces(Shallower(l, inner)) + close
           == Bracketed(l, inner, open, body, close);
  }

  method WriteElements(o: string, j: Json, l: Layout, indent: nat) returns (r: string)
    requires j.Arr?
    ensures r == o + DumpedElements(j, l, indent, 0)
    decreases j, 0
  {
    hide Dumped, Spaces, Separator;
    r := o;
    for i := 0 to |j.elems|
      invariant o + DumpedElements(j, l, indent, 0) == r + DumpedElements(j, l, indent, i)
    {
      Regroup(r, Separator(l, i == 0), Spaces(indent), Dumped(j.elems[i], l, indent),
          DumpedElements(j, l, indent, i + 1));
      r := r + Separator(l, i == 0);
      r := r + Spaces(indent);
      r := Write(r, j.elems[i], l, indent);
    }
  }

  lemma Regroup(a: string, b: string, c: string, d: string, e: string)
    ensures a + (b + c + d + e) == a + b + c + d + e
  {
  }

  lemma RegroupMember(a: string, b: string, c: string, d: string, e: string, f: string, g: string)
    ensures a + (b + c + d + e + f + g) == a + b + c + d + e + f + g
  {
  }

  method WriteMembers(o: string, j: Json, l: Layout, indent: nat) returns (r: string)
    requires j.Obj?
    ensures r == o + DumpedMembers(j, l, indent, SortedKeys(j.members.Keys), true)
    decreases j, 0
  {
    hide *;
    var keys := SortedKeys(j.members.Keys);
    KeysAreMembers(j.members);
    ghost var all := o + DumpedMembers(j, l, indent, keys, true);
    r := o;
    for i := 0 to |keys|
      invariant all == r + DumpedMembers(j, l, indent, keys[i..], i == 0)
    {
      var k := keys[i];
      MembersStep(j, l, indent, keys, i);
      RegroupMember(r, Separator(l, i == 0), Spaces(indent), Quoted(k), Colon(l), Dumped(j.members[k], l, indent),
                    DumpedMembers(j, l, indent, keys[i + 1..], false));
      r := r + Separator(l, i == 0);
      r := r + Spaces(indent);
      var text := QuotedText(k);
      r := r + text;
      r := r + Colon(l);
      r := Write(r, j.members[k], l, indent);
    }
    MembersStep(j, l, indent, keys, |keys|);
  }

  lemma KeysAreMembers(m: map<string, Json>)
    ensures forall i | 0 <= i < |SortedKeys(m.Keys)| :: SortedKeys(m.Keys)[i] in m
  {
    hide SortedKeys;
    var keys := SortedKeys(m.Keys);
    forall i | 0 <= i < |keys| ensures keys[i] in m {
      assert keys[i] in keys;
    }
  }

  lemma MembersStep(j: Json, l: Layout, indent: nat, keys: seq<string>, i: nat)
    requires j.Obj? && i <= |keys| && forall n | 0 <= n < |keys| :: keys[n] in j.members
    ensures DumpedMembers(j, l, indent, keys[i..], i == 0) ==
            if i == |keys| then ""
            else Separator(l, i == 0) + Spaces(indent) + Quoted(keys[i]) + Colon(l) +
                 Dumped(j.members[keys[i]], l, indent) +
                 DumpedMembers(j, l, indent, keys[i + 1..], false)
  {
    hide Dumped, Spaces, Separator, Quoted, Colon;
    if i < |keys| {
      assert keys[i..][1..] == keys[i + 1..];
    }
  }

  method QuotedText(s: string) returns (r: string)
    ensures r == Quoted(s)
  {
    var escaped := EscapeString(s);
    r := "\"" + escaped + "\"";
  }
}
