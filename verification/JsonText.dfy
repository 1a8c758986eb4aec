/** The text that `json.dumps` prints, construct by construct: punctuation and separators written out,
    characters as section 7 of RFC 8259 reads them. */
module JsonText {
  import opened Text
  import opened Json

  // ----- printing in front of a tail -----

  lemma EscapeTail(c: char, ascii: bool, tail: string)
    ensures Escape(c, ascii, tail) == Escape(c, ascii, "") + tail
  {
    hide Hex4, Kind, ShortEscape, HighSurrogate, LowSurrogate;
  }

  lemma {:induction false} QuoteBodyTail(s: string, ascii: bool, tail: string)
    ensures QuoteBody(s, ascii, tail) == QuoteBody(s, ascii, "") + tail
  {
    if s != "" {
      QuoteBodyTail(s[1..], ascii, tail);
      hide Escape;
      EscapeTail(s[0], ascii, QuoteBody(s[1..], ascii, tail));
      EscapeTail(s[0], ascii, QuoteBody(s[1..], ascii, ""));
    }
  }

  lemma QuoteTail(s: string, ascii: bool, tail: string)
    ensures Quote(s, ascii, tail) == Quote(s, ascii, "") + tail
  {
    hide QuoteBody;
    QuoteBodyTail(s, ascii, tail);
  }

  lemma Regroup(a: string, x: string, p: string, tail: string)
    ensures a + (x + (p + tail)) == a + (x + p) + tail
  {
  }

  lemma {:induction false} PrintTail(v: Value, st: Style, tail: string)
    ensures Print(v, st, tail) == Print(v, st, "") + tail
    decreases v, 2, 0
  {
    match v
    case Str(s) =>
      QuoteTail(s, st.ascii, tail);
      hide Quote;
    case Arr(items) =>
      if items != [] { ListTail(items, st, tail); }
    case Obj(members) =>
      if SortedKeys(members.Keys) != [] { ObjectTail(v, st, tail); }
    case _ =>
  }

  lemma {:induction false} ListTail(items: seq<Value>, st: Style, tail: string)
    requires items != []
    ensures Print(Arr(items), st, tail) == Print(Arr(items), st, "") + tail
    decreases Arr(items), 1, 0
  {
    var rest := items[1..];
    hide *;
    ListText(items, st, tail);
    ListText(items, st, "");
    PrintItemsTail(rest, st, tail);
    var p := PrintItems(rest, st, "");
    PrintTail(items[0], st, p + tail);
    PrintTail(items[0], st, p);
    Regroup(['['], Print(items[0], st, ""), p, tail);
  }

  lemma {:induction false} ObjectTail(v: Value, st: Style, tail: string)
    requires v.Obj? && SortedKeys(v.members.Keys) != []
    ensures Print(v, st, tail) == Print(v, st, "") + tail
    decreases v, 1, |v.members.Keys| + 1
  {
    var keys := SortedKeys(v.members.Keys);
    KeyCount(v.members.Keys);
    hide *;
    ObjectText(v, keys, st, tail);
    ObjectText(v, keys, st, "");
    PrintMembersTail(v, keys[1..], st, tail);
    var p := PrintMembers(v, keys[1..], st, "");
    PrintMemberTail(v, keys[0], st, p + tail);
    PrintMemberTail(v, keys[0], st, p);
    Regroup(['{'], PrintMember(v, keys[0], st, ""), p, tail);
  }

  lemma {:induction false} KeyCount(keys: set<string>)
    ensures |SortedKeys(keys)| == |keys|
  {
    if keys != {} {
      KeyCount(keys - {LeastKey(keys)});
    }
  }

  lemma ListText(items: seq<Value>, st: Style, tail: string)
    requires items != []
    ensures Print(Arr(items), st, tail) == ['['] + Print(items[0], st, PrintItems(items[1..], st, tail))
  {
    hide PrintItems;
  }

  lemma ObjectText(v: Value, keys: seq<string>, st: Style, tail: string)
    requires v.Obj? && keys == SortedKeys(v.members.Keys) && keys != []
    ensures keys[0] in v.members && (forall k | k in keys[1..] :: k in v.members)
    ensures Print(v, st, tail) == ['{'] + PrintMember(v, keys[0], st, PrintMembers(v, keys[1..], st, tail))
  {
    hide PrintMembers, PrintMember, SortedKeys;
    assert keys[0] in (set k | k in keys);
    forall k | k in keys[1..] ensures k in v.members {
      assert k in (set k | k in keys);
    }
  }

  lemma {:induction false} PrintItemsTail(items: seq<Value>, st: Style, tail: string)
    ensures PrintItems(items, st, tail) == PrintItems(items, st, "") + tail
    decreases items, 1, 0
  {
    if items != [] {
      ItemsText(items, st, tail);
      ItemsText(items, st, "");
      hide *;
      PrintItemsTail(items[1..], st, tail);
      var p := PrintItems(items[1..], st, "");
      PrintTail(items[0], st, p + tail);
      PrintTail(items[0], st, p);
      Regroup(st.Separator(','), Print(items[0], st, ""), p, tail);
    }
  }

  lemma ItemsText(items: seq<Value>, st: Style, tail: string)
    requires items != []
    ensures PrintItems(items, st, tail) == st.Separator(',') + Print(items[0], st, PrintItems(items[1..], st, tail))
  {
    hide Print;
  }

  lemma {:induction false} PrintMemberTail(v: Value, key: string, st: Style, tail: string)
    requires v.Obj? && key in v.members
    ensures PrintMember(v, key, st, tail) == PrintMember(v, key, st, "") + tail
    decreases v, 0, 0
  {
    hide Print, Quote;
    PrintTail(v.members[key], st, tail);
    QuoteTail(key, st.ascii, st.Separator(':') + Print(v.members[key], st, tail));
    QuoteTail(key, st.ascii, st.Separator(':') + Print(v.members[key], st, ""));
  }

  lemma {:induction false} PrintMembersTail(v: Value, keys: seq<string>, st: Style, tail: string)
    requires v.Obj? && forall k | k in keys :: k in v.members
    ensures PrintMembers(v, keys, st, tail) == PrintMembers(v, keys, st, "") + tail
    decreases v, 1, |keys|
  {
    if keys != [] {
      MembersText(v, keys, st, tail);
      MembersText(v, keys, st, "");
      hide *;
      PrintMembersTail(v, keys[1..], st, tail);
      var p := PrintMembers(v, keys[1..], st, "");
      PrintMemberTail(v, keys[0], st, p + tail);
      PrintMemberTail(v, keys[0], st, p);
      Regroup(st.Separator(','), PrintMember(v, keys[0], st, ""), p, tail);
    }
  }

  lemma MembersText(v: Value, keys: seq<string>, st: Style, tail: string)
    requires v.Obj? && keys != [] && forall k | k in keys :: k in v.members
    ensures PrintMembers(v, keys, st, tail) == st.Separator(',') + PrintMember(v, keys[0], st, PrintMembers(v, keys[1..], st, tail))
  {
    hide PrintMember;
  }

  // ----- lists and objects -----

  function Comma(spaced: bool): string { if spaced then ", " else "," }
  function Colon(spaced: bool): string { if spaced then ": " else ":" }

  function Texts(items: seq<Value>, st: Style): (r: seq<string>)
    ensures |r| == |items| && forall i :: 0 <= i < |r| ==> r[i] == Dumps(items[i], st)
  {
    seq(|items|, i requires 0 <= i < |items| => Dumps(items[i], st))
  }

  lemma JoinMore(pieces: seq<string>, sep: string)
    requires |pieces| > 1
    ensures Join(pieces, sep) == pieces[0] + sep + Join(pieces[1..], sep)
  {
  }

  lemma Regroup4(a: string, sep: string, b: string, close: string, p: string)
    requires b + close == p
    ensures a + sep + b + close == a + (sep + p)
  {
  }

  lemma {:induction false} MoreItems(items: seq<Value>, st: Style)
    requires items != []
    ensures Join(Texts(items, st), Comma(st.spaced)) + "]" == Print(items[0], st, PrintItems(items[1..], st, ""))
    decreases |items|
  {
    var all, rest := Texts(items, st), items[1..];
    assert all[0] == Print(items[0], st, "");
    assert rest != [] ==> all[1..] == Texts(rest, st);
    assert rest == [] ==> all == [all[0]] && PrintItems(rest, st, "") == "]";
    assert rest != [] ==> st.Separator(',') == Comma(st.spaced);
    hide Print, PrintItems, Texts, Comma, Style.Separator;
    PrintTail(items[0], st, PrintItems(rest, st, ""));
    if rest != [] {
      MoreItems(rest, st);
      hide Join;
      JoinMore(all, Comma(st.spaced));
      ItemsText(rest, st, "");
      Regroup4(all[0], Comma(st.spaced), Join(Texts(rest, st), Comma(st.spaced)), "]", Print(rest[0], st, PrintItems(rest[1..], st, "")));
    }
  }

  /** A list is the texts of its items between brackets, with a comma between them. */
  lemma TextOfList(items: seq<Value>, st: Style)
    ensures Dumps(Arr(items), st) == "[" + Join(Texts(items, st), Comma(st.spaced)) + "]"
  {
    if items != [] {
      MoreItems(items, st);
      ListText(items, st, "");
      hide Print, PrintItems, Join, Texts;
    } else {
      assert Texts(items, st) == [];
    }
  }

  function MemberTexts(v: Value, keys: seq<string>, st: Style): (r: seq<string>)
    requires v.Obj? && forall k | k in keys :: k in v.members
    ensures |r| == |keys|
    ensures forall i :: 0 <= i < |r| ==>
              keys[i] in v.members && r[i] == Dumps(Str(keys[i]), st) + Colon(st.spaced) + Dumps(v.members[keys[i]], st)
  {
    seq(|keys|, i requires 0 <= i < |keys| => Dumps(Str(keys[i]), st) + Colon(st.spaced) + Dumps(v.members[keys[i]], st))
  }

  lemma MemberText(v: Value, key: string, st: Style)
    requires v.Obj? && key in v.members
    ensures PrintMember(v, key, st, "") == Dumps(Str(key), st) + Colon(st.spaced) + Dumps(v.members[key], st)
  {
    QuoteTail(key, st.ascii, st.Separator(':') + Print(v.members[key], st, ""));
    hide Quote;
  }

  lemma {:induction false} MoreMembers(v: Value, keys: seq<string>, st: Style)
    requires v.Obj? && keys != [] && forall k | k in keys :: k in v.members
    ensures Join(MemberTexts(v, keys, st), Comma(st.spaced)) + "}" == PrintMember(v, keys[0], st, PrintMembers(v, keys[1..], st, ""))
    decreases |keys|
  {
    var all, rest := MemberTexts(v, keys, st), keys[1..];
    MemberText(v, keys[0], st);
    assert all[0] == PrintMember(v, keys[0], st, "");
    assert rest != [] ==> all[1..] == MemberTexts(v, rest, st);
    assert rest == [] ==> all == [all[0]] && PrintMembers(v, rest, st, "") == "}";
    assert st.Separator(',') == Comma(st.spaced);
    hide PrintMember, PrintMembers, MemberTexts, Comma, Style.Separator, Print;
    PrintMemberTail(v, keys[0], st, PrintMembers(v, rest, st, ""));
    if rest != [] {
      MoreMembers(v, rest, st);
      hide Join;
      JoinMore(all, Comma(st.spaced));
      MembersText(v, rest, st, "");
      Regroup4(all[0], Comma(st.spaced), Join(MemberTexts(v, rest, st), Comma(st.spaced)), "}",
               PrintMember(v, rest[0], st, PrintMembers(v, rest[1..], st, "")));
    }
  }

  /** An object is its members between braces, sorted by key, with a comma between them and a colon
      behind each key. */
  lemma TextOfObject(v: Value, st: Style)
    requires v.Obj?
    ensures forall k | k in SortedKeys(v.members.Keys) :: k in v.members
    ensures Dumps(v, st) == "{" + Join(MemberTexts(v, SortedKeys(v.members.Keys), st), Comma(st.spaced)) + "}"
  {
    var keys := SortedKeys(v.members.Keys);
    hide SortedKeys;
    forall k | k in keys ensures k in v.members {
      assert k in (set k | k in keys);
    }
    if keys != [] {
      MoreMembers(v, keys, st);
      ObjectText(v, keys, st, "");
      hide Print, PrintMember, PrintMembers, Join;
    } else {
      assert MemberTexts(v, keys, st) == [];
    }
  }

  /** The three literals and numbers. */
  lemma TextOfScalar(v: Value, st: Style)
    ensures v == Null ==> Dumps(v, st) == "null"
    ensures v == Bool(true) ==> Dumps(v, st) == "true"
    ensures v == Bool(false) ==> Dumps(v, st) == "false"
    ensures v.Num? ==> Dumps(v, st) == v.token
  {
  }

  // ----- strings -----

  /** The four digits after `\u`. */
  ghost predicate IsUnit(t: string, n: int) {
    && |t| == 6 && t[0] == '\\' && t[1] == 'u'
    && (forall i :: 2 <= i < 6 ==> DigitValue(t[i]).Some? && !('A' <= t[i] <= 'F'))
    && n == 4096 * DigitValue(t[2]).value + 256 * DigitValue(t[3]).value + 16 * DigitValue(t[4]).value + DigitValue(t[5]).value
  }

  /** How section 7 of RFC 8259 reads a character of a string. */
  ghost predicate Denotes(t: string, c: char) {
    || (t == [c] && c != '"' && c != '\\' && c as int >= 0x20)
    || (t == "\\\"" && c == '"') || (t == "\\\\" && c == '\\')
    || (t == "\\b" && c as int == 8) || (t == "\\f" && c as int == 12) || (t == "\\n" && c as int == 10)
    || (t == "\\r" && c as int == 13) || (t == "\\t" && c as int == 9)
    || IsUnit(t, c as int)
    || exists a, b, m, n :: t == a + b && IsUnit(a, m) && IsUnit(b, n) && IsPair(m, n, c)
  }

  predicate IsPair(m: int, n: int, c: char) {
    0xD800 <= m < 0xDC00 && 0xDC00 <= n < 0xE000 && c as int == 0x10000 + (m - 0xD800) * 0x400 + (n - 0xDC00)
  }

  lemma HexUnit(n: nat)
    requires n < 0x10000
    ensures IsUnit("\\u" + Hex4(n), n)
  {
    var t := "\\u" + Hex4(n);
    var a, b, c, d := Hex4Digit(n, 0), Hex4Digit(n, 1), Hex4Digit(n, 2), Hex4Digit(n, 3);
    assert t[2] == DIGITS[a] && t[3] == DIGITS[b] && t[4] == DIGITS[c] && t[5] == DIGITS[d];
    DigitRoundTrip(a);
    DigitRoundTrip(b);
    DigitRoundTrip(c);
    DigitRoundTrip(d);
    SmallDigit(a);
    SmallDigit(b);
    SmallDigit(c);
    SmallDigit(d);
    SplitHex(n);
    hide DigitValue, Hex4, DIGITS;
  }

  lemma SmallDigit(d: nat)
    requires d < 16
    ensures !('A' <= DIGITS[d] <= 'F')
  {
  }

  lemma SurrogatesPair(c: char)
    requires c as int >= 0x10000
    ensures IsPair(HighSurrogate(c), LowSurrogate(c), c)
  {
    var x := c as int - 0x10000;
    assert x == 0x400 * (x / 0x400) + x % 0x400;
  }

  /** Every character is written so that it reads as itself; as itself wherever the style allows that. */
  lemma CharacterText(c: char, ascii: bool)
    ensures Denotes(Escape(c, ascii, ""), c)
    ensures (c != '"' && c != '\\' && c as int >= 0x20 && (!ascii || c as int < 0x7f)) <==> Escape(c, ascii, "") == [c]
  {
    var t := Escape(c, ascii, "");
    match Kind(c, ascii)
    case Plain =>
    case Short =>
    case Long =>
      HexUnit(c as int);
      assert t == "\\u" + Hex4(c as int);
    case Pair =>
      HexUnit(HighSurrogate(c));
      HexUnit(LowSurrogate(c));
      SurrogatesPair(c);
      hide IsUnit, IsPair, Hex4, HighSurrogate, LowSurrogate;
      var a, b := "\\u" + Hex4(HighSurrogate(c)), "\\u" + Hex4(LowSurrogate(c));
      assert t == a + b;
  }

  function Characters(s: string, ascii: bool): string {
    if s == "" then "" else Escape(s[0], ascii, "") + Characters(s[1..], ascii)
  }

  /** A string is its characters between quotes. */
  lemma {:induction false} TextOfString(s: string, st: Style)
    ensures Dumps(Str(s), st) == "\"" + Characters(s, st.ascii) + "\""
  {
    StringBody(s, st.ascii);
  }

  lemma {:induction false} StringBody(s: string, ascii: bool)
    ensures QuoteBody(s, ascii, "") == Characters(s, ascii) + "\""
  {
    if s != "" {
      StringBody(s[1..], ascii);
      hide Escape;
      EscapeTail(s[0], ascii, QuoteBody(s[1..], ascii, ""));
    }
  }
}
