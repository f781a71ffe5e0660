/** JSON Pointer (RFC 6901, sections 3 and 4) as json.hpp:9133-9690 implements it: reference strings,
    their split into tokens, and the two-pass escaping. */
module JsonPointer {
  import opened Strings
  import opened JsonValue

  // ----- replace_substring -----

  /** Every occurrence of `f`, found from the left and never overlapping, replaced by `t`. */
  function Replaced(s: string, f: string, t: string): string
    requires f != []
  {
    if s == "" then ""
    else if f <= s then t + Replaced(s[|f|..], f, t)
    else [s[0]] + Replaced(s[1..], f, t)
  }

  /** The offset of the first occurrence of `f` in `s`. */
  function First(s: string, f: string): (r: Option<nat>)
    requires f != []
    ensures r.Some? ==> r.value + |f| <= |s|
  {
    if s == "" then None
    else if f <= s then Some(0)
    else
      match First(s[1..], f)
      case None => None
      case Some(n) => Some(n + 1)
  }

  /** `s.find(f, pos)`; `None` is npos. */
  method Find(s: string, f: string, pos: nat) returns (r: Option<nat>)
    requires f != [] && pos <= |s|
    ensures r == Offset(pos, First(s[pos..], f))
  {
    hide First, Offset;
    var p := pos;
    while p < |s|
      invariant pos <= p <= |s|
      invariant Offset(pos, First(s[pos..], f)) == Offset(p, First(s[p..], f))
    {
      FindStep(s, f, p);
      if f <= s[p..] {
        return Some(p);
      }
      p := p + 1;
    }
    FindEnd(s, f);
    r := None;
  }

  lemma FindStep(s: string, f: string, p: nat)
    requires f != [] && p < |s|
    ensures Offset(p, First(s[p..], f)) == if f <= s[p..] then Some(p) else Offset(p + 1, First(s[p + 1..], f))
  {
    assert s[p..][1..] == s[p + 1..];
  }

  lemma FindEnd(s: string, f: string)
    requires f != []
    ensures Offset(|s|, First(s[|s|..], f)) == None
  {
  }

  function Offset(base: nat, r: Option<nat>): Option<nat> {
    match r
    case None => None
    case Some(n) => Some(base + n)
  }

  lemma {:induction false} ReplacedNone(s: string, f: string, t: string)
    requires f != [] && First(s, f).None?
    ensures Replaced(s, f, t) == s
  {
    if s != "" {
      ReplacedNone(s[1..], f, t);
    }
  }

  lemma {:induction false} ReplacedFirst(s: string, f: string, t: string, n: nat)
    requires f != [] && First(s, f) == Some(n)
    ensures Replaced(s, f, t) == s[..n] + (t + Replaced(s[n + |f|..], f, t))
  {
    if n != 0 {
      ReplacedFirst(s[1..], f, t, n - 1);
      DropDrop(s, n - 1 + |f|);
      Prepend(s, n, t + Replaced(s[n + |f|..], f, t), Replaced(s[1..], f, t));
    }
  }

  lemma DropDrop(s: string, k: nat)
    requires k < |s|
    ensures s[1..][k..] == s[k + 1..]
  {
  }

  lemma Prepend(s: string, n: nat, x: string, out: string)
    requires 1 <= n <= |s| && out == s[1..][..n - 1] + x
    ensures [s[0]] + out == s[..n] + x
  {
  }

  /** replace_substring (json.hpp:9562-9574). */
  method ReplaceSubstring(input: string, f: string, t: string) returns (s: string)
    requires f != []
    ensures s == Replaced(input, f, t)
  {
    hide Replaced, First, Progress;
    s := input;
    ghost var done, rest := "", input;
    assert input[0..] == input;
    StartOfText(input, f, t);
    var pos := Find(s, f, 0);
    while pos.Some?
      invariant Progress(input, s, done, rest, f, t)
      invariant pos == Offset(|done|, First(rest, f))
      decreases |rest|
    {
      var at := pos.value;
      ghost var n := at - |done|;
      FoundInside(rest, f, n);
      SpliceStep(input, s, done, rest, f, t, n);
      s := s[..at] + t + s[at + |f|..];
      done, rest := done + rest[..n] + t, rest[n + |f|..];
      RestOfText(input, s, done, rest, f, t);
      pos := Find(s, f, at + |t|);
    }
    EndOfText(input, s, done, rest, f, t);
  }

  lemma StartOfText(input: string, f: string, t: string)
    requires f != []
    ensures Progress(input, input, "", input, f, t)
  {
    hide Replaced;
    assert "" + input == input && "" + Replaced(input, f, t) == Replaced(input, f, t);
  }

  lemma FoundInside(rest: string, f: string, n: nat)
    requires f != [] && First(rest, f) == Some(n)
    ensures n + |f| <= |rest|
  {
    hide First;
  }

  /** What is still to be searched starts behind what is final. */
  lemma RestOfText(input: string, s: string, done: string, rest: string, f: string, t: string)
    requires f != [] && Progress(input, s, done, rest, f, t)
    ensures |done| <= |s| && s[|done|..] == rest
  {
    hide Replaced;
  }

  lemma EndOfText(input: string, s: string, done: string, rest: string, f: string, t: string)
    requires f != [] && Progress(input, s, done, rest, f, t) && First(rest, f).None?
    ensures s == Replaced(input, f, t)
  {
    hide Replaced, First;
    ReplacedNone(rest, f, t);
  }

  /** `done` is final and `rest` is still to be searched. */
  ghost predicate Progress(input: string, s: string, done: string, rest: string, f: string, t: string)
    requires f != []
  {
    s == done + rest && Replaced(input, f, t) == done + Replaced(rest, f, t)
  }

  /** One `s.replace(pos, f.size(), t)` seen from the part of the string already dealt with. */
  lemma SpliceStep(input: string, s: string, done: string, rest: string, f: string, t: string, n: nat)
    requires f != [] && First(rest, f) == Some(n) && Progress(input, s, done, rest, f, t)
    ensures |done| + n + |f| <= |s|
    ensures Progress(input, s[..|done| + n] + t + s[|done| + n + |f|..], done + rest[..n] + t, rest[n + |f|..], f, t)
  {
    ReplacedFirst(rest, f, t, n);
    Regroup(done, rest[..n], t, Replaced(rest[n + |f|..], f, t));
    var at := |done| + n;
    assert s[..at] == done + rest[..n];
    assert s[at + |f|..] == rest[n + |f|..];
  }

  lemma Regroup(a: string, b: string, c: string, d: string)
    ensures a + (b + (c + d)) == a + b + c + d
  {
  }

  // ----- escape and unescape -----

  /** escape (json.hpp:9579-9583): first the tildes, then the slashes. */
  function Escape(s: string): string {
    Replaced(Replaced(s, "~", "~0"), "/", "~1")
  }

  /** unescape (json.hpp:9586-9592): first "~1", then "~0". */
  function Unescape(s: string): string {
    Replaced(Replaced(s, "~1", "/"), "~0", "~")
  }

  method EscapeInPlace(s: string) returns (r: string)
    ensures r == Escape(s)
  {
    r := ReplaceSubstring(s, "~", "~0");
    r := ReplaceSubstring(r, "/", "~1");
  }

  method UnescapeInPlace(s: string) returns (r: string)
    ensures r == Unescape(s)
  {
    r := ReplaceSubstring(s, "~1", "/");
    r := ReplaceSubstring(r, "~0", "~");
  }

  /** What escaping means character by character. */
  function EscapeChar(c: char): string {
    if c == '~' then "~0" else if c == '/' then "~1" else [c]
  }

  function Escaped(s: string): string {
    if s == "" then "" else EscapeChar(s[0]) + Escaped(s[1..])
  }

  lemma {:induction false} ReplacedAppend(x: string, y: string, c: char, t: string)
    ensures Replaced(x + y, [c], t) == Replaced(x, [c], t) + Replaced(y, [c], t)
  {
    if x == "" {
      assert x + y == y;
    } else {
      ReplacedAppend(x[1..], y, c, t);
      assert (x + y)[1..] == x[1..] + y;
      assert [c] <= x + y <==> [c] <= x;
      var first := if [c] <= x then t else [x[0]];
      AppendAssociative(first, Replaced(x[1..], [c], t), Replaced(y, [c], t));
    }
  }

  lemma ReplacedChar(d: char, c: char, t: string)
    ensures Replaced([d], [c], t) == if d == c then t else [d]
  {
    assert [d][1..] == "";
    assert [c] <= [d] ==> [c][0] == [d][0];
  }

  lemma {:induction false} EscapeMeaning(s: string)
    ensures Escape(s) == Escaped(s)
  {
    if s != "" {
      var c, rest := s[0], s[1..];
      EscapeMeaning(rest);
      assert s == [c] + rest;
      ReplacedAppend([c], rest, '~', "~0");
      ReplacedChar(c, '~', "~0");
      var first := if c == '~' then "~0" else [c];
      ReplacedAppend(first, Replaced(rest, "~", "~0"), '/', "~1");
      ReplacedChar(c, '/', "~1");
      if c == '~' {
        assert "~0" == ['~'] + ['0'];
        ReplacedAppend(['~'], ['0'], '/', "~1");
        ReplacedChar('0', '/', "~1");
      }
    }
  }

  /** Every tilde is followed by 0 or 1 (the test of json.hpp:9524-9537). */
  predicate WellEscaped(w: string) {
    forall p | 0 <= p < |w| && w[p] == '~' :: p + 1 < |w| && (w[p + 1] == '0' || w[p + 1] == '1')
  }

  predicate NoSlash(w: string) {
    forall p | 0 <= p < |w| :: w[p] != '/'
  }

  function Unescaped(w: string): string
    requires WellEscaped(w)
  {
    if w == "" then ""
    else if w[0] == '~' then
      WellEscapedDrop(w, 2);
      [if w[1] == '1' then '/' else '~'] + Unescaped(w[2..])
    else
      WellEscapedDrop(w, 1);
      [w[0]] + Unescaped(w[1..])
  }

  lemma WellEscapedDrop(w: string, n: nat)
    requires WellEscaped(w) && n <= |w|
    ensures WellEscaped(w[n..])
  {
    forall p | 0 <= p < |w[n..]| && w[n..][p] == '~'
      ensures p + 1 < |w[n..]| && (w[n..][p + 1] == '0' || w[n..][p + 1] == '1') {
      assert w[n + p] == '~';
    }
  }

  lemma {:induction false} UnescapeMeaning(w: string)
    requires WellEscaped(w)
    ensures Unescape(w) == Unescaped(w)
  {
    if w != "" {
      if w[0] == '~' {
        WellEscapedDrop(w, 2);
        UnescapeMeaning(w[2..]);
        UnescapePair(w, Replaced(w[2..], "~1", "/"));
      } else {
        WellEscapedDrop(w, 1);
        UnescapeMeaning(w[1..]);
        UnescapeSingle(w, Replaced(w[1..], "~1", "/"));
      }
    }
  }

  lemma UnescapeSingle(w: string, x: string)
    requires w != "" && w[0] != '~' && x == Replaced(w[1..], "~1", "/")
    ensures Unescape(w) == [w[0]] + Replaced(x, "~0", "~")
  {
    var y := [w[0]] + x;
    assert w[0] != "~1"[0];
    assert y[1..] == x && y[0] != "~0"[0];
  }

  lemma UnescapePair(w: string, x: string)
    requires |w| >= 2 && w[0] == '~' && (w[1] == '0' || w[1] == '1') && x == Replaced(w[2..], "~1", "/")
    ensures Unescape(w) == [if w[1] == '1' then '/' else '~'] + Replaced(x, "~0", "~")
  {
    if w[1] == '1' {
      assert w == "~1" + w[2..];
      var y := "/" + x;
      assert Replaced(w, "~1", "/") == y;
      assert y[1..] == x && y[0] != "~0"[0];
    } else {
      assert w[1] != "~1"[1];
      var v := w[1..];
      assert v[0] != "~1"[0] && v[1..] == w[2..];
      assert Replaced(v, "~1", "/") == "0" + x;
      var y := "~" + ("0" + x);
      assert Replaced(w, "~1", "/") == y;
      assert y == "~0" + x;
      assert y[2..] == x;
    }
  }

  lemma {:induction false} UnescapedEscaped(s: string)
    ensures WellEscaped(Escaped(s)) && NoSlash(Escaped(s)) && Unescaped(Escaped(s)) == s
  {
    if s != "" {
      UnescapedEscaped(s[1..]);
      EscapeCharKeeps(s[0], Escaped(s[1..]));
      assert s == [s[0]] + s[1..];
    }
  }

  lemma EscapeCharKeeps(c: char, rest: string)
    requires WellEscaped(rest) && NoSlash(rest)
    ensures var w := EscapeChar(c) + rest; WellEscaped(w) && NoSlash(w) && Unescaped(w) == [c] + Unescaped(rest)
  {
    var e := EscapeChar(c);
    var w := e + rest;
    assert w[|e|..] == rest;
    forall p | 0 <= p < |w| && w[p] == '~' ensures p + 1 < |w| && (w[p + 1] == '0' || w[p + 1] == '1') {
      assert p >= |e| ==> rest[p - |e|] == '~';
    }
  }

  lemma {:induction false} EscapedUnescaped(w: string)
    requires WellEscaped(w) && NoSlash(w)
    ensures Escaped(Unescaped(w)) == w
  {
    if w != "" {
      var n := if w[0] == '~' then 2 else 1;
      WellEscapedDrop(w, n);
      EscapedUnescaped(w[n..]);
      var u := Unescaped(w);
      assert u[1..] == Unescaped(w[n..]);
      assert EscapeChar(u[0]) == w[..n];
      assert w == w[..n] + w[n..];
    }
  }

  // ----- to_string and split -----

  /** to_string (json.hpp:9180-9188): a left fold over the tokens. */
  function ToString(tokens: seq<string>): string {
    if tokens == [] then "" else ToString(tokens[..|tokens| - 1]) + TokenText(tokens[|tokens| - 1])
  }

  function TokenText(token: string): string {
    "/" + Escape(token)
  }

  /** The stretches of `s` between slashes. */
  function Pieces(s: string): (ps: seq<string>)
    ensures ps != []
  {
    var n := SlashAt(s);
    if n == |s| then [s] else [s[..n]] + Pieces(s[n + 1..])
  }

  /** The position of the first slash, or the length. */
  function SlashAt(s: string): (n: nat)
    ensures n <= |s| && NoSlash(s[..n])
    ensures n < |s| ==> s[n] == '/'
  {
    if s == "" || s[0] == '/' then 0 else 1 + SlashAt(s[1..])
  }

  lemma {:induction false} SlashAtUnique(e: string, rest: string)
    requires NoSlash(e) && (rest == "" || rest[0] == '/')
    ensures SlashAt(e + rest) == |e|
  {
    if e == "" {
      assert e + rest == rest;
    } else {
      SlashAtUnique(e[1..], rest);
      assert (e + rest)[1..] == e[1..] + rest;
    }
  }

  function UnescapeAll(ps: seq<string>): Result<seq<string>> {
    if ps == [] then Ok([])
    else if !WellEscaped(ps[0]) then Err(DomainError)
    else
      var rest :- UnescapeAll(ps[1..]);
      Ok([Unescape(ps[0])] + rest)
  }

  /** split (json.hpp:9487-9545). */
  function Split(s: string): Result<seq<string>> {
    if s == "" then Ok([])
    else if s[0] != '/' then Err(DomainError)
    else UnescapeAll(Pieces(s[1..]))
  }

  lemma {:induction false} ToStringAppend(a: seq<string>, b: seq<string>)
    ensures ToString(a + b) == ToString(a) + ToString(b)
  {
    hide TokenText;
    if b == [] {
      assert a + b == a;
    } else {
      var front := b[..|b| - 1];
      ToStringAppend(a, front);
      assert (a + b)[..|a + b| - 1] == a + front;
      AppendAssociative(ToString(a), ToString(front), TokenText(b[|b| - 1]));
    }
  }

  lemma ToStringOne(t: string)
    ensures ToString([t]) == TokenText(t)
  {
    hide TokenText;
    assert [t][..0] == [];
    assert ToString([]) == "";
  }

  lemma ToStringCons(t: string, ts: seq<string>)
    ensures ToString([t] + ts) == "/" + (Escape(t) + ToString(ts))
  {
    hide Escape;
    ToStringAppend([t], ts);
    ToStringOne(t);
  }

  /** A token has no slash once it is escaped, and unescaping gives it back. */
  lemma EscapeRoundTrip(t: string)
    ensures WellEscaped(Escape(t)) && NoSlash(Escape(t)) && Unescape(Escape(t)) == t
  {
    EscapeMeaning(t);
    UnescapedEscaped(t);
    UnescapeMeaning(Escape(t));
  }

  lemma UnescapeRoundTrip(w: string)
    requires WellEscaped(w) && NoSlash(w)
    ensures Escape(Unescape(w)) == w
  {
    UnescapeMeaning(w);
    EscapedUnescaped(w);
    EscapeMeaning(Unescape(w));
  }

  lemma PiecesLast(e: string)
    requires NoSlash(e)
    ensures Pieces(e) == [e]
  {
    SlashAtUnique(e, "");
    assert e + "" == e && e[..|e|] == e;
  }

  lemma PiecesCons(e: string, rest: string)
    requires NoSlash(e)
    ensures Pieces(e + ("/" + rest)) == [e] + Pieces(rest)
  {
    var s := e + ("/" + rest);
    SlashAtUnique(e, "/" + rest);
    assert s[..|e|] == e && s[|e| + 1..] == rest;
  }

  lemma UnescapeAllCons(e: string, ps: seq<string>)
    ensures UnescapeAll([e] + ps) ==
            if !WellEscaped(e) then Err(DomainError)
            else match UnescapeAll(ps) case Ok(ts) => Ok([Unescape(e)] + ts) case Err(x) => Err(x)
  {
    hide Unescape, WellEscaped;
    assert ([e] + ps)[1..] == ps;
  }

  /** What follows the leading slash of a reference string comes apart at its slashes. */
  lemma {:induction false} PiecesOfToString(t: string, ts: seq<string>)
    ensures UnescapeAll(Pieces(Escape(t) + ToString(ts))) == Ok([t] + ts)
    decreases |ts|
  {
    hide *;
    var e := Escape(t);
    EscapeRoundTrip(t);
    if ts == [] {
      EmptyToString();
      assert e + "" == e;
      PiecesLast(e);
      UnescapeAllCons(e, []);
      assert [e] + [] == [e] && [t] + ts == [t];
    } else {
      var head, rest := ts[0], ts[1..];
      assert ts == [head] + rest;
      ToStringCons(head, rest);
      PiecesCons(e, Escape(head) + ToString(rest));
      PiecesOfToString(head, rest);
      UnescapeAllCons(e, Pieces(Escape(head) + ToString(rest)));
    }
  }

  lemma EmptyToString()
    ensures ToString([]) == "" && UnescapeAll([]) == Ok([])
  {
  }

  /** Splitting the text of a token list gives the list back (the invariant of json.hpp:9168-9171). */
  lemma SplitOfToString(ts: seq<string>)
    ensures Split(ToString(ts)) == Ok(ts)
  {
    hide ToString, Escape, Pieces, UnescapeAll;
    if ts == [] {
      EmptyToString();
    } else {
      assert ts == [ts[0]] + ts[1..];
      ToStringCons(ts[0], ts[1..]);
      var s := ToString(ts);
      assert s[1..] == Escape(ts[0]) + ToString(ts[1..]);
      PiecesOfToString(ts[0], ts[1..]);
    }
  }

  lemma SplitSlash(s: string)
    ensures NoSlash(s) || exists p: string, rest: string :: NoSlash(p) && |rest| < |s| && s == p + ("/" + rest)
  {
    hide SlashAt;
    var n := SlashAt(s);
    BeforeSlash(s, n);
    if n == |s| {
      assert s[..n] == s;
    } else {
      var p, rest := s[..n], s[n + 1..];
      assert NoSlash(p) && s == p + ("/" + rest);
    }
  }

  lemma {:induction false} ToStringOfPieces(s: string)
    requires UnescapeAll(Pieces(s)).Ok?
    ensures ToString(UnescapeAll(Pieces(s)).value) == "/" + s
    decreases |s|
  {
    hide Pieces, UnescapeAll, Escape, Unescape, ToString, WellEscaped, NoSlash;
    SplitSlash(s);
    if NoSlash(s) {
      PiecesLast(s);
      EmptyToString();
      assert [s] + [] == [s];
      UnescapeAllCons(s, []);
      UnescapeRoundTrip(s);
      assert [Unescape(s)] + [] == [Unescape(s)];
      ToStringCons(Unescape(s), []);
      assert s + "" == s;
    } else {
      var p: string, rest: string :| NoSlash(p) && |rest| < |s| && s == p + ("/" + rest);
      PiecesCons(p, rest);
      UnescapeAllCons(p, Pieces(rest));
      UnescapeRoundTrip(p);
      ToStringOfPieces(rest);
      ToStringCons(Unescape(p), UnescapeAll(Pieces(rest)).value);
    }
  }

  /** The text of what a reference string splits into is that string. */
  lemma ToStringOfSplit(s: string)
    requires Split(s).Ok?
    ensures ToString(Split(s).value) == s
  {
    hide ToString, Pieces, UnescapeAll;
    if s == "" {
      EmptyToString();
    } else {
      ToStringOfPieces(s[1..]);
      assert s == "/" + s[1..];
    }
  }

  lemma ToStringInjective(a: seq<string>, b: seq<string>)
    requires ToString(a) == ToString(b)
    ensures a == b
  {
    SplitOfToString(a);
    SplitOfToString(b);
  }

  /** The loop of split, with its in-place unescaping. */
  method SplitInPlace(s: string) returns (r: Result<seq<string>>)
    ensures r == Split(s)
  {
    if s == "" {
      return Ok([]);
    }
    if s[0] != '/' {
      return Err(DomainError);
    }
    hide *;
    var tokens: seq<string> := [];
    var start := 1;
    var slash := FindSlash(s, 1);
    SplitStart(s);
    while true
      invariant 1 <= start <= |s| && slash == start + SlashAt(s[start..])
      invariant Remaining(Split(s), tokens, s[start..])
      decreases |s| - start
    {
      SplitStep(s, start, slash, Split(s), tokens);
      var token := s[start..slash];
      var ok := CheckEscapes(token);
      if !ok {
        return Err(DomainError);
      }
      token := UnescapeInPlace(token);
      tokens := tokens + [token];
      if slash == |s| {
        break;
      }
      start := slash + 1;
      slash := FindSlash(s, start);
    }
    r := Ok(tokens);
  }

  /** One round of the loop. */
  lemma SplitStep(s: string, start: nat, slash: nat, whole: Result<seq<string>>, tokens: seq<string>)
    requires start <= |s| && slash == start + SlashAt(s[start..]) && Remaining(whole, tokens, s[start..])
    ensures start <= slash <= |s|
    ensures var token := s[start..slash];
            if !WellEscaped(token) then whole == Err(DomainError)
            else if slash == |s| then whole == Ok(tokens + [Unescape(token)])
            else Remaining(whole, tokens + [Unescape(token)], s[slash + 1..])
  {
    hide *;
    SliceOfRest(s, start, slash);
    PieceStep(s[start..], slash - start, whole, tokens);
    if slash < |s| {
      RestOfRest(s, start, slash + 1);
    }
  }

  lemma SliceOfRest(s: string, start: nat, end: nat)
    requires start <= end <= |s|
    ensures s[start..end] == s[start..][..end - start]
  {
  }

  lemma RestOfRest(s: string, start: nat, end: nat)
    requires start <= end <= |s|
    ensures s[start..][end - start..] == s[end..]
  {
  }

  /** `whole` is `tokens` followed by the tokens of the text still to come. */
  predicate Remaining(whole: Result<seq<string>>, tokens: seq<string>, text: string) {
    match UnescapeAll(Pieces(text))
    case Ok(more) => whole == Ok(tokens + more)
    case Err(e) => whole == Err(e)
  }

  lemma SplitStart(s: string)
    requires s != "" && s[0] == '/'
    ensures Remaining(Split(s), [], s[1..])
  {
    hide UnescapeAll, Pieces;
    var r := UnescapeAll(Pieces(s[1..]));
    if r.Ok? {
      assert [] + r.value == r.value;
    }
  }

  lemma PieceStep(text: string, n: nat, whole: Result<seq<string>>, tokens: seq<string>)
    requires n == SlashAt(text) && Remaining(whole, tokens, text)
    ensures var token := text[..n];
            if !WellEscaped(token) then whole == Err(DomainError)
            else if n == |text| then whole == Ok(tokens + [Unescape(token)])
            else Remaining(whole, tokens + [Unescape(token)], text[n + 1..])
  {
    hide Unescape, WellEscaped, UnescapeAll, Pieces, NoSlash, SlashAt;
    var token := text[..n];
    BeforeSlash(text, n);
    if n == |text| {
      PiecesLast(token);
      EmptyToString();
      LastPiece(token, whole, tokens);
    } else {
      PiecesCons(token, text[n + 1..]);
      MiddlePiece(token, Pieces(text[n + 1..]), whole, tokens);
    }
  }

  lemma BeforeSlash(text: string, n: nat)
    requires n == SlashAt(text)
    ensures NoSlash(text[..n])
    ensures text == if n == |text| then text[..n] else text[..n] + ("/" + text[n + 1..])
  {
    hide SlashAt, NoSlash;
    if n == |text| {
      assert text[..n] == text;
    } else {
      SplitAt(text, n);
      assert [text[n]] == "/";
    }
  }

  lemma LastPiece(token: string, whole: Result<seq<string>>, tokens: seq<string>)
    requires match UnescapeAll([token]) case Ok(more) => whole == Ok(tokens + more) case Err(e) => whole == Err(e)
    ensures whole == if WellEscaped(token) then Ok(tokens + [Unescape(token)]) else Err(DomainError)
  {
    hide Unescape, WellEscaped, UnescapeAll;
    EmptyToString();
    assert [token] + [] == [token];
    UnescapeAllCons(token, []);
    assert [Unescape(token)] + [] == [Unescape(token)];
  }

  lemma MiddlePiece(token: string, ps: seq<string>, whole: Result<seq<string>>, tokens: seq<string>)
    requires match UnescapeAll([token] + ps) case Ok(more) => whole == Ok(tokens + more) case Err(e) => whole == Err(e)
    ensures if !WellEscaped(token) then whole == Err(DomainError)
            else match UnescapeAll(ps)
              case Ok(more) => whole == Ok(tokens + [Unescape(token)] + more)
              case Err(e) => whole == Err(e)
  {
    hide Unescape, WellEscaped, UnescapeAll;
    UnescapeAllCons(token, ps);
    if WellEscaped(token) && UnescapeAll(ps).Ok? {
      var more := UnescapeAll(ps).value;
      assert tokens + ([Unescape(token)] + more) == (tokens + [Unescape(token)]) + more;
    }
  }

  /** `s.find_first_of("/", start)`, with the end of the string for npos. */
  method FindSlash(s: string, start: nat) returns (slash: nat)
    requires start <= |s|
    ensures slash == start + SlashAt(s[start..])
  {
    slash := start;
    while slash < |s| && s[slash] != '/'
      invariant start <= slash <= |s|
      invariant SlashAt(s[start..]) == slash - start + SlashAt(s[slash..])
    {
      assert s[slash..][1..] == s[slash + 1..];
      slash := slash + 1;
    }
  }

  /** The scan of json.hpp:9524-9538 over one token. */
  method CheckEscapes(token: string) returns (ok: bool)
    ensures ok == WellEscaped(token)
  {
    for pos := 0 to |token|
      invariant forall p | 0 <= p < pos && token[p] == '~' ::
                  p + 1 < |token| && (token[p + 1] == '0' || token[p + 1] == '1')
    {
      if token[pos] == '~' && (pos == |token| - 1 || (token[pos + 1] != '0' && token[pos + 1] != '1')) {
        return false;
      }
    }
    ok := true;
  }
}
