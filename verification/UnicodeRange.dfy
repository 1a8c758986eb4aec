/** `format_ranges` and `parse_ranges` of scripts/subset_fonts.py: code points compressed to the
    text of a CSS unicode-range descriptor, and the text read back. */
module UnicodeRange {
  import opened Text

  datatype Range = Range(lo: nat, hi: nat)

  // ----- runs of consecutive code points -----

  function Interval(lo: nat, hi: nat): (s: seq<nat>)
    ensures |s| == if lo <= hi then hi - lo + 1 else 0
    ensures forall i :: 0 <= i < |s| ==> s[i] == lo + i
    decreases hi + 1 - lo
  {
    if lo > hi then [] else [lo] + Interval(lo + 1, hi)
  }

  /** The code points a list of ranges stands for. */
  function Expand(ranges: seq<Range>): seq<nat> {
    if ranges == [] then [] else Interval(ranges[0].lo, ranges[0].hi) + Expand(ranges[1..])
  }

  /** No range can be joined with the next one. */
  ghost predicate Maximal(ranges: seq<Range>) {
    && (forall i :: 0 <= i < |ranges| ==> ranges[i].lo <= ranges[i].hi)
    && (forall i, j :: 0 <= i && j == i + 1 && j < |ranges| ==> ranges[j].lo != ranges[i].hi + 1)
  }

  /** The runs of a list, taken off its end one element at a time. */
  function Runs(codepoints: seq<nat>): (ranges: seq<Range>)
    ensures codepoints != [] ==> ranges != [] && ranges[|ranges|-1].hi == codepoints[|codepoints|-1]
  {
    if codepoints == [] then []
    else
      var n := |codepoints| - 1;
      var before := Runs(codepoints[..n]);
      if before != [] && codepoints[n] == codepoints[n-1] + 1
      then before[..|before|-1] + [Range(before[|before|-1].lo, codepoints[n])]
      else before + [Range(codepoints[n], codepoints[n])]
  }

  lemma {:induction false} ExpandAppend(a: seq<Range>, b: seq<Range>)
    ensures Expand(a + b) == Expand(a) + Expand(b)
  {
    if a == [] {
      assert a + b == b;
    } else {
      assert (a + b)[1..] == a[1..] + b;
      ExpandAppend(a[1..], b);
    }
  }

  lemma ExpandLast(ranges: seq<Range>, r: Range)
    ensures Expand(ranges + [r]) == Expand(ranges) + Interval(r.lo, r.hi)
  {
    ExpandAppend(ranges, [r]);
    assert Expand([r]) == Interval(r.lo, r.hi) by { assert [r][1..] == []; }
  }

  lemma ExtendRun(before: seq<Range>, cp: nat)
    requires before != [] && Maximal(before) && before[|before|-1].hi + 1 == cp
    ensures var more := before[..|before|-1] + [Range(before[|before|-1].lo, cp)];
            Expand(more) == Expand(before) + [cp] && Maximal(more)
  {
    hide Expand, Interval;
    var m := |before| - 1;
    var last := before[m];
    assert before == before[..m] + [last];
    ExpandLast(before[..m], last);
    ExpandLast(before[..m], Range(last.lo, cp));
    assert Interval(last.lo, cp) == Interval(last.lo, last.hi) + [cp];
  }

  lemma StartRun(before: seq<Range>, cp: nat)
    requires Maximal(before) && (before != [] ==> before[|before|-1].hi + 1 != cp)
    ensures Expand(before + [Range(cp, cp)]) == Expand(before) + [cp] && Maximal(before + [Range(cp, cp)])
  {
    hide Expand;
    assert Expand(before + [Range(cp, cp)]) == Expand(before) + [cp] by {
      hide Maximal;
      ExpandLast(before, Range(cp, cp));
      assert Interval(cp, cp) == [cp];
    }
  }

  lemma ExpandNothing()
    ensures Expand([]) == [] && Maximal([])
  {
  }

  /** The ranges stand for exactly the list, in its order, and are as long as they can be. */
  lemma {:induction false} RunsCorrect(codepoints: seq<nat>)
    ensures Expand(Runs(codepoints)) == codepoints && Maximal(Runs(codepoints))
  {
    hide Expand, Maximal;
    if codepoints == [] {
      ExpandNothing();
    } else {
      var n := |codepoints| - 1;
      var cp, before := codepoints[n], Runs(codepoints[..n]);
      RunsCorrect(codepoints[..n]);
      assert codepoints == codepoints[..n] + [cp];
      if before != [] && cp == codepoints[n-1] + 1 {
        ExtendRun(before, cp);
      } else {
        StartRun(before, cp);
      }
    }
  }

  ghost predicate StrictlyIncreasing(codepoints: seq<nat>) {
    forall i, j :: 0 <= i < j < |codepoints| ==> codepoints[i] < codepoints[j]
  }

  lemma {:induction false} ExpandEnds(ranges: seq<Range>, i: nat)
    requires Maximal(ranges) && i + 1 < |ranges|
    ensures exists p, q :: 0 <= p < q < |Expand(ranges)| && Expand(ranges)[p] == ranges[i].hi && Expand(ranges)[q] == ranges[i+1].lo
  {
    var a, b, c, d := ranges[..i], ranges[i], ranges[i+1], ranges[i+2..];
    assert ranges == a + [b] + [c] + d;
    ExpandAppend(a + [b] + [c], d);
    ExpandLast(a + [b], c);
    ExpandLast(a, b);
    var p := |Expand(a)| + (b.hi - b.lo);
    assert Expand(ranges)[p] == b.hi && Expand(ranges)[p+1] == c.lo;
  }

  /** For an increasing list, a gap separates neighbouring ranges. */
  lemma RunsHaveGaps(codepoints: seq<nat>, i: nat)
    requires StrictlyIncreasing(codepoints) && i + 1 < |Runs(codepoints)|
    ensures Runs(codepoints)[i].hi + 1 < Runs(codepoints)[i+1].lo
  {
    RunsCorrect(codepoints);
    ExpandEnds(Runs(codepoints), i);
  }

  // ----- printing -----

  function PrintRange(r: Range): string {
    if r.lo == r.hi then "U+" + Numeral(r.lo, Hexadecimal)
    else "U+" + Numeral(r.lo, Hexadecimal) + "-" + Numeral(r.hi, Hexadecimal)
  }

  function PrintAll(ranges: seq<Range>): seq<string> {
    if ranges == [] then []
    else PrintAll(ranges[..|ranges|-1]) + [PrintRange(ranges[|ranges|-1])]
  }

  function PrintRanges(ranges: seq<Range>): string {
    Join(PrintAll(ranges), ", ")
  }

  lemma PrintMore(ranges: seq<Range>, r: Range)
    ensures PrintAll(ranges + [r]) == PrintAll(ranges) + [PrintRange(r)]
  {
    hide PrintRange;
    assert (ranges + [r])[..|ranges|] == ranges;
  }

  lemma NextRun(codepoints: seq<nat>, i: nat)
    requires 0 < i < |codepoints|
    ensures var before := Runs(codepoints[..i]);
      && before != []
      && Runs(codepoints[..i+1]) ==
         if codepoints[i] == codepoints[i-1] + 1
         then before[..|before|-1] + [Range(before[|before|-1].lo, codepoints[i])]
         else before + [Range(codepoints[i], codepoints[i])]
  {
    assert codepoints[..i+1][..i] == codepoints[..i];
  }

  /** `format_ranges`; an empty list is an index error. */
  method FormatRanges(codepoints: seq<nat>) returns (text: Option<string>)
    ensures text == if codepoints == [] then None else Some(PrintRanges(Runs(codepoints)))
  {
    if codepoints == [] {
      return None;
    }
    hide PrintRange, Numeral;
    var parts: seq<string> := [];
    ghost var done: seq<Range> := [];
    var start: nat, prev: nat := codepoints[0], codepoints[0];
    for i := 1 to |codepoints| + 1
      invariant i <= |codepoints| ==> Runs(codepoints[..i]) == done + [Range(start, prev)] && prev == codepoints[i-1]
      invariant i > |codepoints| ==> Runs(codepoints) == done
      invariant parts == PrintAll(done)
    {
      var cp: int := if i < |codepoints| then codepoints[i] else -1;
      if i < |codepoints| {
        NextRun(codepoints, i);
      } else {
        assert codepoints[..i] == codepoints;
      }
      if cp == prev + 1 {
        prev := cp;
      } else {
        PrintMore(done, Range(start, prev));
        parts := parts + [PrintRange(Range(start, prev))];
        done := done + [Range(start, prev)];
        if i < |codepoints| {
          start, prev := codepoints[i], codepoints[i];
        }
      }
    }
    return Some(Join(parts, ", "));
  }

  // ----- reading -----

  /** The characters `str.strip` removes. */
  predicate IsSpace(c: char) {
    var n := c as int;
    || 9 <= n <= 13 || 28 <= n <= 32 || n == 0x85 || n == 0xA0 || n == 0x1680 || 0x2000 <= n <= 0x200A
    || n == 0x2028 || n == 0x2029 || n == 0x202F || n == 0x205F || n == 0x3000
  }

  function StripLeft(s: string): string {
    if s != "" && IsSpace(s[0]) then StripLeft(s[1..]) else s
  }

  function StripRight(s: string): string {
    if s != "" && IsSpace(s[|s|-1]) then StripRight(s[..|s|-1]) else s
  }

  function RemovePrefix(s: string, prefix: string): string {
    if StartsWith(s, prefix) then s[|prefix|..] else s
  }

  /** The text before and after the first hyphen; nothing after it when there is none. */
  function Partition(s: string): (string, string) {
    if s == "" then ("", "")
    else if s[0] == '-' then ("", s[1..])
    else
      var rest := Partition(s[1..]);
      ([s[0]] + rest.0, rest.1)
  }

  function ParsePart(part: string): Option<Range> {
    var (start, end) := Partition(RemovePrefix(RemovePrefix(StripRight(StripLeft(part)), "U+"), "u+"));
    var lo := NumeralValue(start, Hexadecimal);
    var hi := NumeralValue(if end == "" then start else end, Hexadecimal);
    if lo.None? || hi.None? then None else Some(Range(lo.value, hi.value))
  }

  function ParseParts(parts: seq<string>): Option<seq<Range>> {
    if parts == [] then Some([])
    else
      var before := ParseParts(parts[..|parts|-1]);
      var last := ParsePart(parts[|parts|-1]);
      if before.None? || last.None? then None else Some(before.value + [last.value])
  }

  lemma {:induction false} ParsePrefix(parts: seq<string>, i: nat)
    requires i <= |parts| && ParseParts(parts[..i]).None?
    ensures ParseParts(parts).None?
    decreases |parts|
  {
    hide ParsePart;
    if i < |parts| {
      var n := |parts| - 1;
      assert parts[..n][..i] == parts[..i];
      ParsePrefix(parts[..n], i);
    } else {
      assert parts[..i] == parts;
    }
  }

  /** `parse_ranges` */
  method ParseRanges(value: string) returns (ranges: Option<seq<Range>>)
    ensures ranges == ParseParts(Split(value, ','))
  {
    hide ParsePart, Split;
    var parts := Split(value, ',');
    var read: seq<Range> := [];
    for i := 0 to |parts|
      invariant ParseParts(parts[..i]) == Some(read)
    {
      assert parts[..i+1][..i] == parts[..i];
      var part := ParsePart(parts[i]);
      if part.None? {
        ParsePrefix(parts, i + 1);
        return None;
      }
      read := read + [part.value];
    }
    assert parts[..|parts|] == parts;
    return Some(read);
  }

  // ----- reading what was printed -----

  lemma {:induction false} PartitionPlain(s: string, rest: string)
    requires '-' !in s
    ensures Partition(s) == (s, "") && Partition(s + "-" + rest) == (s, rest)
  {
    if s == "" {
      assert s + "-" + rest == "-" + rest;
      assert ("-" + rest)[1..] == rest;
    } else {
      PartitionPlain(s[1..], rest);
      var whole := s + "-" + rest;
      assert whole[1..] == s[1..] + "-" + rest && s == [s[0]] + s[1..];
    }
  }

  lemma OtherStart(s: string, prefix: string)
    requires s != "" && prefix != "" && s[0] != prefix[0]
    ensures !StartsWith(s, prefix)
  {
    assert |prefix| <= |s| ==> s[..|prefix|][0] == s[0];
  }

  lemma HexText(n: nat)
    ensures var h := Numeral(n, Hexadecimal);
      && '-' !in h && ',' !in h && h[0] != 'u' && !IsSpace(h[|h|-1])
  {
    hide Numeral;
    NumeralDigits(n, Hexadecimal);
    var h := Numeral(n, Hexadecimal);
    assert h[0] in h && h[|h|-1] in h;
  }

  lemma StripSpaced(s: string)
    requires s != "" && !IsSpace(s[0]) && !IsSpace(s[|s|-1])
    ensures StripRight(StripLeft(s)) == s && StripRight(StripLeft(" " + s)) == s
  {
    assert (" " + s)[1..] == s;
  }

  lemma PrintedRange(r: Range)
    ensures var p := PrintRange(r);
      && |p| > 2 && p[0] == 'U' && ',' !in p && !IsSpace(p[|p|-1])
      && RemovePrefix(p, "U+") == p[2..] && !StartsWith(p[2..], "u+")
      && Partition(p[2..]) == (Numeral(r.lo, Hexadecimal), if r.lo == r.hi then "" else Numeral(r.hi, Hexadecimal))
  {
    hide Numeral, Partition;
    var p := PrintRange(r);
    var lo, hi := Numeral(r.lo, Hexadecimal), Numeral(r.hi, Hexadecimal);
    HexText(r.lo);
    HexText(r.hi);
    PartitionPlain(lo, hi);
    assert p[..2] == "U+";
    assert p[2..] == if r.lo == r.hi then lo else lo + "-" + hi;
    OtherStart(p[2..], "u+");
  }

  /** Each printed range is read back, with or without the blank that follows a comma. */
  lemma ParsePrinted(r: Range)
    ensures ParsePart(PrintRange(r)) == Some(r) && ParsePart(" " + PrintRange(r)) == Some(r)
  {
    PrintedRange(r);
    StripSpaced(PrintRange(r));
    NumeralRoundTrip(r.lo, Hexadecimal);
    NumeralRoundTrip(r.hi, Hexadecimal);
  }

  /** Everything printed is read back: the pieces between the commas are the printed ranges, all
      but the first after a blank. */
  lemma {:induction false} ParsePrintedParts(ranges: seq<Range>)
    requires ranges != []
    ensures ParseParts(Split(PrintRanges(ranges), ',')) == Some(ranges)
  {
    var n := |ranges| - 1;
    var before, r := ranges[..n], ranges[n];
    assert ranges == before + [r];
    hide PrintRange, ParsePart, ParseParts, PrintAll, Split, Join;
    PrintMore(before, r);
    PrintedRange(r);
    ParsePrinted(r);
    if before == [] {
      PrintNothing();
      FirstPart(PrintRange(r));
      ParseMore([], [], PrintRange(r), r);
    } else {
      ParsePrintedParts(before);
      PrintedCount(before);
      LastPart(PrintAll(before), PrintRange(r));
      ParseMore(Split(PrintRanges(before), ','), before, " " + PrintRange(r), r);
    }
  }

  lemma PrintNothing()
    ensures PrintAll([]) == [] && ParseParts([]) == Some([])
  {
  }

  lemma {:induction false} PrintedCount(ranges: seq<Range>)
    ensures |PrintAll(ranges)| == |ranges|
  {
    if ranges != [] { PrintedCount(ranges[..|ranges|-1]); }
  }

  lemma FirstPart(part: string)
    requires ',' !in part
    ensures Split(Join([part], ", "), ',') == [] + [part]
  {
    SplitPiece(part, ',', []);
  }

  lemma LastPart(parts: seq<string>, part: string)
    requires parts != [] && ',' !in part
    ensures Split(Join(parts + [part], ", "), ',') == Split(Join(parts, ", "), ',') + [" " + part]
  {
    hide Split, Join;
    JoinLast(parts, ", ", part);
    var text := Join(parts, ", ");
    assert text + ", " + part == text + [','] + (" " + part);
    SplitLast(text, ',', " " + part);
  }

  lemma ParseMore(parts: seq<string>, ranges: seq<Range>, part: string, r: Range)
    requires ParseParts(parts) == Some(ranges) && ParsePart(part) == Some(r)
    ensures ParseParts(parts + [part]) == Some(ranges + [r])
  {
    hide ParsePart;
    assert (parts + [part])[..|parts|] == parts;
  }

  /** The whole way: printing a list of code points, reading the text and expanding the ranges
      gives back exactly the list. */
  lemma RoundTrip(codepoints: seq<nat>)
    requires codepoints != []
    ensures var read := ParseParts(Split(PrintRanges(Runs(codepoints)), ','));
            read.Some? && Expand(read.value) == codepoints && Maximal(read.value)
  {
    RunsCorrect(codepoints);
    ParsePrintedParts(Runs(codepoints));
  }

  ghost predicate Blank(s: string) {
    forall i :: 0 <= i < |s| ==> IsSpace(s[i])
  }

  lemma {:induction false} StripBlanks(left: string, s: string, right: string)
    requires Blank(left) && Blank(right) && s != "" && !IsSpace(s[0]) && !IsSpace(s[|s|-1])
    ensures StripRight(StripLeft(left + s + right)) == s
    decreases |left| + |right|
  {
    hide IsSpace;
    var t := left + s + right;
    if left != "" {
      StripBlanks(left[1..], s, right);
      assert t[1..] == left[1..] + s + right && t[0] == left[0];
    } else if right != "" {
      var n := |right| - 1;
      StripBlanks("", s, right[..n]);
      var shorter := "" + s + right[..n];
      assert t[..|t|-1] == shorter && t[|t|-1] == right[n] && t[0] == s[0] && shorter[0] == s[0];
      assert StripLeft(t) == t && StripLeft(shorter) == shorter;
    } else {
      assert t == s;
    }
  }

  lemma {:induction false} OnlyDigits(s: string)
    requires NumeralValue(s, Hexadecimal).Some?
    ensures s != "" && forall i :: 0 <= i < |s| ==> DigitValue(s[i]).Some?
  {
    hide DigitValue;
    if |s| > 1 { OnlyDigits(s[..|s|-1]); }
  }

  lemma DigitIsPlain(c: char)
    requires DigitValue(c).Some?
    ensures c != 'u' && c != 'U' && c != '-' && !IsSpace(c)
  {
  }

  lemma Unprefixed(prefix: string, body: string)
    requires prefix == "" || prefix == "U+" || prefix == "u+"
    requires body != "" && body[0] != 'U' && body[0] != 'u'
    ensures RemovePrefix(RemovePrefix(prefix + body, "U+"), "u+") == body
  {
    OtherStart(body, "U+");
    OtherStart(body, "u+");
    var s := prefix + body;
    if prefix == "" {
      assert s == body;
    } else {
      assert s[..2] == prefix && s[2..] == body;
    }
  }

  /** Further spellings that are read: either prefix or none, digits in either case, blanks around, and one
      number or two. */
  lemma ReadsLoosely(left: string, prefix: string, start: string, end: string, right: string)
    requires Blank(left) && Blank(right) && (prefix == "" || prefix == "U+" || prefix == "u+")
    requires NumeralValue(start, Hexadecimal).Some? && (end == "" || NumeralValue(end, Hexadecimal).Some?)
    ensures var lo := NumeralValue(start, Hexadecimal).value;
            var hi := if end == "" then lo else NumeralValue(end, Hexadecimal).value;
            var body := if end == "" then start else start + "-" + end;
            ParsePart(left + (prefix + body) + right) == Some(Range(lo, hi))
  {
    var body := if end == "" then start else start + "-" + end;
    OnlyDigits(start);
    if end != "" { OnlyDigits(end); }
    forall i | 0 <= i < |start| ensures start[i] != '-' { DigitIsPlain(start[i]); }
    DigitIsPlain(body[0]);
    DigitIsPlain(body[|body|-1]);
    PartitionPlain(start, end);
    Unprefixed(prefix, body);
    var whole := prefix + body;
    assert whole[0] == (if prefix == "" then body[0] else prefix[0]) && whole[|whole|-1] == body[|body|-1];
    StripBlanks(left, whole, right);
    hide Partition, StripLeft, StripRight, RemovePrefix, NumeralValue, IsSpace;
  }

  // ----- handing the characters out to the font faces -----

  predicate Covers(ranges: seq<Range>, cp: nat) {
    exists i :: 0 <= i < |ranges| && ranges[i].lo <= cp <= ranges[i].hi
  }

  /** The first face that covers a code point gets it. */
  ghost predicate Assigned(faces: seq<seq<Range>>, chars: set<nat>, i: nat, cp: nat)
    requires i < |faces|
  {
    cp in chars && Covers(faces[i], cp) && forall j :: 0 <= j < i ==> !Covers(faces[j], cp)
  }

  /** The allocation loop of `build_sans`: no code point is handed out twice, and none that some
      face covers is left over. */
  method AllocateFaces(faces: seq<seq<Range>>, chars: set<nat>) returns (hits: seq<set<nat>>, remaining: set<nat>)
    ensures |hits| == |faces|
    ensures forall i, cp :: 0 <= i < |faces| ==> (cp in hits[i] <==> Assigned(faces, chars, i, cp))
    ensures forall cp :: cp in remaining <==> cp in chars && forall j :: 0 <= j < |faces| ==> !Covers(faces[j], cp)
    ensures forall i, j :: 0 <= i < j < |hits| ==> hits[i] !! hits[j]
  {
    hits, remaining := [], chars;
    for i := 0 to |faces|
      invariant |hits| == i
      invariant forall k, cp :: 0 <= k < i ==> (cp in hits[k] <==> Assigned(faces, chars, k, cp))
      invariant forall cp :: cp in remaining <==> cp in chars && forall j :: 0 <= j < i ==> !Covers(faces[j], cp)
    {
      var hit := set cp | cp in remaining && Covers(faces[i], cp);
      remaining := remaining - hit;
      hits := hits + [hit];
    }
    forall i, j | 0 <= i < j < |hits| ensures hits[i] !! hits[j] {
      forall cp | cp in hits[i] ensures cp !in hits[j] {
        assert Assigned(faces, chars, i, cp);
      }
    }
  }
}
