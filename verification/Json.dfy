/** JSON documents as `json.loads` returns them, and `json.dumps(..., sort_keys=True)`.

    A number is carried by the text that `json.dumps` prints for it, so that two numbers are
    equal here exactly when they are printed alike.  An object is a map: the order in which a
    Python dict lists its keys never shows, because every text is produced with sorted keys. */
module Json {
  import opened Sorting
  import opened Text

  predicate IsNumberToken(s: string) {
    && s != ""
    && (s[0] == '-' || s[0] == 'N' || s[0] == 'I' || '0' <= s[0] <= '9')
    && forall c :: c in s ==> !IsDelimiter(c)
  }

  type NumberToken = s: string | IsNumberToken(s) witness "0"

  datatype Value =
    | Null
    | Bool(b: bool)
    | Num(token: NumberToken)
    | Str(s: string)
    | Arr(items: seq<Value>)
    | Obj(members: map<string, Value>)

  /** `dict.get`: a missing key reads as null. */
  function Get(v: Value, key: string): Value {
    if v.Obj? && key in v.members then v.members[key] else Null
  }

  /** The options the scripts pass: `ensure_ascii`, and separators with or without blanks. */
  datatype Style = Style(ascii: bool, spaced: bool) {
    function Separator(c: char): string { if spaced then [c, ' '] else [c] }
  }

  // ----- strings -----

  function ShortEscape(c: char): Option<char> {
    match c
    case '"' => Some('"')
    case '\\' => Some('\\')
    case '\n' => Some('n')
    case '\r' => Some('r')
    case '\t' => Some('t')
    case '\U{0008}' => Some('b')
    case '\U{000c}' => Some('f')
    case _ => None
  }

  function Hex4(n: nat): string
    requires n < 0x10000
  {
    [DIGITS[n / 16 / 16 / 16], DIGITS[n / 16 / 16 % 16], DIGITS[n / 16 % 16], DIGITS[n % 16]]
  }

  function Unicode4(n: nat, tail: string): string
    requires n < 0x10000
  {
    "\\u" + Hex4(n) + tail
  }

  function HighSurrogate(c: char): (n: nat)
    requires c as int >= 0x10000
    ensures 0xD800 <= n < 0xDC00
  {
    0xD800 + (c as int - 0x10000) / 0x400
  }

  function LowSurrogate(c: char): (n: nat)
    requires c as int >= 0x10000
    ensures 0xDC00 <= n < 0xE000
  {
    0xDC00 + (c as int - 0x10000) % 0x400
  }

  datatype EscapeKind = Plain | Short | Long | Pair

  /** How a character is written inside a JSON string; above U+FFFF an ASCII text uses a
      surrogate pair. */
  function Kind(c: char, ascii: bool): EscapeKind {
    if ShortEscape(c).Some? then Short
    else if c < ' ' then Long
    else if !ascii || c <= '~' then Plain
    else if c as int < 0x10000 then Long
    else Pair
  }

  // Every printing function takes the text that follows, so that no text is taken apart again.

  function Escape(c: char, ascii: bool, tail: string): string {
    match Kind(c, ascii)
    case Plain => [c] + tail
    case Short => ['\\', ShortEscape(c).value] + tail
    case Long => Unicode4(c as int, tail)
    case Pair => Unicode4(HighSurrogate(c), Unicode4(LowSurrogate(c), tail))
  }

  function QuoteBody(s: string, ascii: bool, tail: string): string {
    if s == "" then ['"'] + tail else Escape(s[0], ascii, QuoteBody(s[1..], ascii, tail))
  }

  function Quote(s: string, ascii: bool, tail: string): string {
    ['"'] + QuoteBody(s, ascii, tail)
  }

  // ----- sorted keys -----

  lemma {:induction false} LeastKeyExists(keys: set<string>)
    requires keys != {}
    ensures exists k :: k in keys && forall j | j in keys :: LexLeq(k, j)
  {
    hide *;
    var k :| k in keys;
    LexTotal(k, k);
    if keys == {k} {
      assert forall j | j in keys :: LexLeq(k, j);
    } else {
      LeastKeyExists(keys - {k});
      var m :| m in keys - {k} && forall j | j in keys - {k} :: LexLeq(m, j);
      LexTotal(k, m);
      var least := if LexLeq(k, m) then k else m;
      forall j | j in keys ensures LexLeq(least, j) {
        if least == k && j != k {
          LexTransitive(k, m, j);
        }
      }
    }
  }

  lemma LexAntisymmetricAll()
    ensures forall a, b :: LexLeq(a, b) && LexLeq(b, a) ==> a == b
  {
    forall a, b | LexLeq(a, b) && LexLeq(b, a) ensures a == b {
      LexAntisymmetric(a, b);
    }
  }

  function LeastKey(keys: set<string>): (k: string)
    requires keys != {}
    ensures k in keys && forall j | j in keys :: LexLeq(k, j)
  {
    LeastKeyExists(keys);
    LexAntisymmetricAll();
    var k :| k in keys && forall j | j in keys :: LexLeq(k, j);
    k
  }

  /** `sorted(keys)`: every key once, in code-point order. */
  function SortedKeys(keys: set<string>): (s: seq<string>)
    ensures (set k | k in s) == keys
    ensures forall i, j :: 0 <= i < j < |s| ==> s[i] != s[j] && LexLeq(s[i], s[j])
  {
    if keys == {} then []
    else
      var k := LeastKey(keys);
      var rest := SortedKeys(keys - {k});
      assert forall i :: 0 <= i < |rest| ==> rest[i] in (set j | j in rest);
      assert (set j | j in [k] + rest) == {k} + (set j | j in rest);
      [k] + rest
  }

  // ----- documents -----

  /** `json.dumps(v, sort_keys=True)` in the given style. */
  function Dumps(v: Value, st: Style): string {
    Print(v, st, "")
  }

  function Print(v: Value, st: Style, tail: string): string
    decreases v
  {
    match v
    case Null => "null" + tail
    case Bool(b) => if b then "true" + tail else "false" + tail
    case Num(token) => token + tail
    case Str(s) => Quote(s, st.ascii, tail)
    case Arr(items) =>
      if items == [] then "[]" + tail
      else ['['] + Print(items[0], st, PrintItems(items[1..], st, tail))
    case Obj(members) =>
      var keys := SortedKeys(members.Keys);
      if keys == [] then "{}" + tail
      else ['{'] + PrintMember(v, keys[0], st, PrintMembers(v, keys[1..], st, tail))
  }

  /** The items after the first one, and the closing bracket. */
  function PrintItems(items: seq<Value>, st: Style, tail: string): string
    decreases items
  {
    if items == [] then [']'] + tail
    else st.Separator(',') + Print(items[0], st, PrintItems(items[1..], st, tail))
  }

  function PrintMember(v: Value, key: string, st: Style, tail: string): string
    requires v.Obj? && key in v.members
    decreases v, 0
  {
    Quote(key, st.ascii, st.Separator(':') + Print(v.members[key], st, tail))
  }

  /** The members after the first one, and the closing brace. */
  function PrintMembers(v: Value, keys: seq<string>, st: Style, tail: string): string
    requires v.Obj? && forall k | k in keys :: k in v.members
    decreases v, 1, |keys|
  {
    if keys == [] then ['}'] + tail
    else st.Separator(',') + PrintMember(v, keys[0], st, PrintMembers(v, keys[1..], st, tail))
  }

  // ----- the text determines the document -----

  predicate IsDelimiter(c: char) { c == ',' || c == ']' || c == '}' }

  /** What may follow a value inside a document. */
  predicate Delimited(s: string) { s == "" || IsDelimiter(s[0]) }

  lemma DigitsDistinct(m: nat, n: nat)
    requires m < 16 && n < 16 && DIGITS[m] == DIGITS[n]
    ensures m == n
  {
    DigitRoundTrip(m);
    DigitRoundTrip(n);
  }

  lemma SplitHex(n: nat)
    requires n < 0x10000
    ensures n == 16 * (16 * (16 * (n / 16 / 16 / 16) + n / 16 / 16 % 16) + n / 16 % 16) + n % 16
  {
    var a := n / 16;
    var b := a / 16;
    assert n == 16 * a + n % 16 && a == 16 * b + a % 16 && b == 16 * (b / 16) + b % 16;
  }

  lemma Hex4Injective(m: nat, n: nat)
    requires m < 0x10000 && n < 0x10000 && Hex4(m) == Hex4(n)
    ensures m == n
  {
    DigitsDistinct(Hex4Digit(m, 0), Hex4Digit(n, 0));
    DigitsDistinct(Hex4Digit(m, 1), Hex4Digit(n, 1));
    DigitsDistinct(Hex4Digit(m, 2), Hex4Digit(n, 2));
    DigitsDistinct(Hex4Digit(m, 3), Hex4Digit(n, 3));
    SplitHex(m);
    SplitHex(n);
  }

  function Hex4Digit(n: nat, i: nat): (d: nat)
    requires n < 0x10000 && i < 4
    ensures d < 16 && DIGITS[d] == Hex4(n)[i]
  {
    if i == 0 then n / 16 / 16 / 16 else if i == 1 then n / 16 / 16 % 16 else if i == 2 then n / 16 % 16 else n % 16
  }

  lemma Unicode4Prefix(m: nat, n: nat, s: string, t: string)
    requires m < 0x10000 && n < 0x10000 && Unicode4(m, s) == Unicode4(n, t)
    ensures m == n && s == t
  {
    AppendCancel("\\u" + Hex4(m), "\\u" + Hex4(n), s, t);
    AppendCancel("\\u", "\\u", Hex4(m), Hex4(n));
    Hex4Injective(m, n);
  }

  lemma SurrogatesInjective(c: char, d: char)
    requires c as int >= 0x10000 && d as int >= 0x10000
    requires HighSurrogate(c) == HighSurrogate(d) && LowSurrogate(c) == LowSurrogate(d)
    ensures c == d
  {
    var x, y := c as int - 0x10000, d as int - 0x10000;
    assert x == 0x400 * (x / 0x400) + x % 0x400;
    assert y == 0x400 * (y / 0x400) + y % 0x400;
  }

  /** Which kind of escape a text starts with can be read off its first two characters, except
      that a pair starts like a long one. */
  lemma EscapeShape(c: char, ascii: bool, tail: string)
    ensures var e := Escape(c, ascii, tail);
      && |e| >= 1 && e[0] != '"'
      && (Kind(c, ascii) == Plain <==> e[0] != '\\')
      && (Kind(c, ascii) != Plain ==> |e| >= 2)
      && (Kind(c, ascii) == Short ==> e[1] == ShortEscape(c).value != 'u')
      && (Kind(c, ascii) == Long || Kind(c, ascii) == Pair ==> e[1] == 'u')
  {
  }

  /** A character above U+FFFF is never mistaken for one below: surrogates are no characters. */
  lemma LongIsNotPair(c: char, d: char, ascii: bool, s: string, t: string)
    requires Escape(c, ascii, s) == Escape(d, ascii, t)
    requires Kind(c, ascii) == Long
    ensures Kind(d, ascii) != Pair
  {
    if Kind(d, ascii) == Pair {
      Unicode4Prefix(c as int, HighSurrogate(d), s, Unicode4(LowSurrogate(d), t));
    }
  }

  lemma EscapePrefix(c: char, d: char, ascii: bool, s: string, t: string)
    requires Escape(c, ascii, s) == Escape(d, ascii, t)
    ensures c == d && s == t
  {
    EscapeShape(c, ascii, s);
    EscapeShape(d, ascii, t);
    match Kind(c, ascii)
    case Plain =>
      AppendCancel([c], [d], s, t);
    case Short =>
      AppendCancel(['\\', ShortEscape(c).value], ['\\', ShortEscape(d).value], s, t);
    case Long =>
      LongIsNotPair(c, d, ascii, s, t);
      Unicode4Prefix(c as int, d as int, s, t);
    case Pair =>
      if Kind(d, ascii) == Long {
        LongIsNotPair(d, c, ascii, t, s);
      }
      Unicode4Prefix(HighSurrogate(c), HighSurrogate(d), Unicode4(LowSurrogate(c), s), Unicode4(LowSurrogate(d), t));
      Unicode4Prefix(LowSurrogate(c), LowSurrogate(d), s, t);
      SurrogatesInjective(c, d);
  }

  lemma {:induction false} QuoteBodyPrefix(a: string, b: string, ascii: bool, s: string, t: string)
    requires QuoteBody(a, ascii, s) == QuoteBody(b, ascii, t)
    ensures a == b && s == t
  {
    assert a == "" <==> b == "" by {
      if a != "" { EscapeShape(a[0], ascii, QuoteBody(a[1..], ascii, s)); }
      if b != "" { EscapeShape(b[0], ascii, QuoteBody(b[1..], ascii, t)); }
    }
    if a == "" {
      AppendCancel(['"'], ['"'], s, t);
    } else {
      EscapePrefix(a[0], b[0], ascii, QuoteBody(a[1..], ascii, s), QuoteBody(b[1..], ascii, t));
      QuoteBodyPrefix(a[1..], b[1..], ascii, s, t);
      assert a == [a[0]] + a[1..] && b == [b[0]] + b[1..];
    }
  }

  lemma QuotePrefix(a: string, b: string, ascii: bool, s: string, t: string)
    requires Quote(a, ascii, s) == Quote(b, ascii, t)
    ensures a == b && s == t
  {
    AppendCancel(['"'], ['"'], QuoteBody(a, ascii, s), QuoteBody(b, ascii, t));
    QuoteBodyPrefix(a, b, ascii, s, t);
  }

  function UpToDelimiter(s: string): nat {
    if s == "" || IsDelimiter(s[0]) then 0 else 1 + UpToDelimiter(s[1..])
  }

  lemma {:induction false} TokenLength(a: string, s: string)
    requires (forall c :: c in a ==> !IsDelimiter(c)) && Delimited(s)
    ensures UpToDelimiter(a + s) == |a|
  {
    if a == "" {
      assert a + s == s;
    } else {
      TokenLength(a[1..], s);
      assert (a + s)[1..] == a[1..] + s;
    }
  }

  lemma TokenPrefix(a: NumberToken, b: NumberToken, s: string, t: string)
    requires a + s == b + t && Delimited(s) && Delimited(t)
    ensures a == b && s == t
  {
    TokenLength(a, s);
    TokenLength(b, t);
    AppendCancel(a, b, s, t);
  }

  /** The first character of a value's text tells its kind. */
  lemma PrintHead(v: Value, st: Style, tail: string)
    ensures var p := Print(v, st, tail);
      && p != "" && !IsDelimiter(p[0])
      && (v.Null? <==> p[0] == 'n')
      && (v == Bool(true) <==> p[0] == 't')
      && (v == Bool(false) <==> p[0] == 'f')
      && (v.Str? <==> p[0] == '"')
      && (v.Arr? <==> p[0] == '[')
      && (v.Obj? <==> p[0] == '{')
  {
  }

  /** A value's text is recognisable inside a longer text: both the value and what follows it
      are determined. */
  lemma {:induction false} PrintPrefix(a: Value, b: Value, st: Style, s: string, t: string)
    requires Print(a, st, s) == Print(b, st, t) && Delimited(s) && Delimited(t)
    ensures a == b && s == t
    decreases a
  {
    PrintHead(a, st, s);
    PrintHead(b, st, t);
    match a
    case Null => AppendCancel("null", "null", s, t);
    case Bool(x) => if x { AppendCancel("true", "true", s, t); } else { AppendCancel("false", "false", s, t); }
    case Num(token) => TokenPrefix(a.token, b.token, s, t);
    case Str(x) => QuotePrefix(a.s, b.s, st.ascii, s, t);
    case Arr(items) => ArrayPrefix(a, b, st, s, t);
    case Obj(members) => ObjectPrefix(a, b, st, s, t);
  }

  lemma {:induction false} ArrayPrefix(a: Value, b: Value, st: Style, s: string, t: string)
    requires a.Arr? && b.Arr? && Print(a, st, s) == Print(b, st, t)
    ensures a == b && s == t
    decreases a, 0
  {
    var xs, ys := a.items, b.items;
    assert xs == [] <==> ys == [] by {
      if xs != [] { PrintHead(xs[0], st, PrintItems(xs[1..], st, s)); assert Print(a, st, s)[1] != ']'; }
      if ys != [] { PrintHead(ys[0], st, PrintItems(ys[1..], st, t)); assert Print(b, st, t)[1] != ']'; }
    }
    if xs == [] {
      AppendCancel("[]", "[]", s, t);
    } else {
      var u, w := PrintItems(xs[1..], st, s), PrintItems(ys[1..], st, t);
      AppendCancel(['['], ['['], Print(xs[0], st, u), Print(ys[0], st, w));
      PrintPrefix(xs[0], ys[0], st, u, w);
      ItemsPrefix(xs[1..], ys[1..], st, s, t);
      assert xs == [xs[0]] + xs[1..] && ys == [ys[0]] + ys[1..];
    }
  }

  lemma {:induction false} ItemsPrefix(xs: seq<Value>, ys: seq<Value>, st: Style, s: string, t: string)
    requires PrintItems(xs, st, s) == PrintItems(ys, st, t)
    ensures xs == ys && s == t
    decreases xs
  {
    assert xs == [] <==> PrintItems(xs, st, s)[0] == ']';
    assert ys == [] <==> PrintItems(ys, st, t)[0] == ']';
    if xs == [] {
      AppendCancel([']'], [']'], s, t);
    } else {
      var u, w := PrintItems(xs[1..], st, s), PrintItems(ys[1..], st, t);
      AppendCancel(st.Separator(','), st.Separator(','), Print(xs[0], st, u), Print(ys[0], st, w));
      PrintPrefix(xs[0], ys[0], st, u, w);
      ItemsPrefix(xs[1..], ys[1..], st, s, t);
      assert xs == [xs[0]] + xs[1..] && ys == [ys[0]] + ys[1..];
    }
  }

  lemma {:induction false} ObjectPrefix(a: Value, b: Value, st: Style, s: string, t: string)
    requires a.Obj? && b.Obj? && Print(a, st, s) == Print(b, st, t)
    ensures a == b && s == t
    decreases a, 2
  {
    var ks, ls := SortedKeys(a.members.Keys), SortedKeys(b.members.Keys);
    assert ks == [] <==> Print(a, st, s)[1] == '}';
    assert ls == [] <==> Print(b, st, t)[1] == '}';
    if ks == [] {
      AppendCancel("{}", "{}", s, t);
    } else {
      var u, w := PrintMembers(a, ks[1..], st, s), PrintMembers(b, ls[1..], st, t);
      AppendCancel(['{'], ['{'], PrintMember(a, ks[0], st, u), PrintMember(b, ls[0], st, w));
      MemberPrefix(a, b, ks[0], ls[0], st, u, w);
      MembersPrefix(a, b, ks[1..], ls[1..], st, s, t);
      assert ks == [ks[0]] + ks[1..] && ls == [ls[0]] + ls[1..];
    }
    SameMembers(a, b, ks);
  }

  lemma SameMembers(a: Value, b: Value, ks: seq<string>)
    requires a.Obj? && b.Obj?
    requires (set k | k in ks) == a.members.Keys == b.members.Keys
    requires forall k :: k in ks ==> k in a.members && k in b.members && a.members[k] == b.members[k]
    ensures a == b
  {
    forall k | k in a.members ensures a.members[k] == b.members[k] {
      assert k in (set j | j in ks);
    }
    assert a.members == b.members;
  }

  lemma {:induction false} MemberPrefix(a: Value, b: Value, k: string, l: string, st: Style, s: string, t: string)
    requires a.Obj? && b.Obj? && k in a.members && l in b.members
    requires PrintMember(a, k, st, s) == PrintMember(b, l, st, t) && Delimited(s) && Delimited(t)
    ensures k == l && a.members[k] == b.members[l] && s == t
    decreases a, 0
  {
    var x, y := Print(a.members[k], st, s), Print(b.members[l], st, t);
    QuotePrefix(k, l, st.ascii, st.Separator(':') + x, st.Separator(':') + y);
    AppendCancel(st.Separator(':'), st.Separator(':'), x, y);
    PrintPrefix(a.members[k], b.members[l], st, s, t);
  }

  lemma {:induction false} MembersPrefix(a: Value, b: Value, ks: seq<string>, ls: seq<string>, st: Style, s: string, t: string)
    requires a.Obj? && b.Obj? && (forall k | k in ks :: k in a.members) && forall l | l in ls :: l in b.members
    requires PrintMembers(a, ks, st, s) == PrintMembers(b, ls, st, t)
    ensures ks == ls && s == t
    ensures forall k :: k in ks ==> a.members[k] == b.members[k]
    decreases a, 1, |ks|
  {
    assert ks == [] <==> PrintMembers(a, ks, st, s)[0] == '}';
    assert ls == [] <==> PrintMembers(b, ls, st, t)[0] == '}';
    if ks == [] {
      AppendCancel(['}'], ['}'], s, t);
    } else {
      var u, w := PrintMembers(a, ks[1..], st, s), PrintMembers(b, ls[1..], st, t);
      AppendCancel(st.Separator(','), st.Separator(','), PrintMember(a, ks[0], st, u), PrintMember(b, ls[0], st, w));
      MemberPrefix(a, b, ks[0], ls[0], st, u, w);
      MembersPrefix(a, b, ks[1..], ls[1..], st, s, t);
      assert ks == [ks[0]] + ks[1..] && ls == [ls[0]] + ls[1..];
    }
  }

  /** Two documents with the same text are the same document. */
  lemma DumpsInjective(a: Value, b: Value, st: Style)
    requires Dumps(a, st) == Dumps(b, st)
    ensures a == b
  {
    PrintPrefix(a, b, st, "", "");
  }

  /** Comparing documents by their text is a total order. */
  lemma TextOrder(leq: (Value, Value) -> bool, st: Style)
    requires forall a, b :: leq(a, b) <==> LexLeq(Dumps(a, st), Dumps(b, st))
    ensures TotalOrder(leq)
  {
    hide Dumps, LexLeq;
    forall a, b ensures leq(a, b) || leq(b, a) {
      LexTotal(Dumps(a, st), Dumps(b, st));
    }
    forall a, b, c | leq(a, b) && leq(b, c) ensures leq(a, c) {
      LexTransitive(Dumps(a, st), Dumps(b, st), Dumps(c, st));
    }
    forall a, b | leq(a, b) && leq(b, a) ensures a == b {
      LexAntisymmetric(Dumps(a, st), Dumps(b, st));
      DumpsInjective(a, b, st);
    }
  }
}
