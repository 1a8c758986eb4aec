/** Strings as the scripts use them: code-point order, splitting and joining, and
    numerals in a given base. */
module Text {

  datatype Option<+T> = None | Some(value: T)

  // ----- code-point order, the order Python compares strings in -----

  predicate LexLeq(a: string, b: string) {
    a == "" || (b != "" && (a[0] < b[0] || (a[0] == b[0] && LexLeq(a[1..], b[1..]))))
  }

  lemma {:induction false} LexTotal(a: string, b: string)
    ensures LexLeq(a, b) || LexLeq(b, a)
  {
    if a != "" && b != "" && a[0] == b[0] {
      LexTotal(a[1..], b[1..]);
    }
  }

  lemma {:induction false} LexTransitive(a: string, b: string, c: string)
    requires LexLeq(a, b) && LexLeq(b, c)
    ensures LexLeq(a, c)
  {
    if a != "" && a[0] == b[0] && b[0] == c[0] {
      LexTransitive(a[1..], b[1..], c[1..]);
    }
  }

  lemma {:induction false} LexAntisymmetric(a: string, b: string)
    requires LexLeq(a, b) && LexLeq(b, a)
    ensures a == b
  {
    if a != "" {
      LexAntisymmetric(a[1..], b[1..]);
      assert a == [a[0]] + a[1..] && b == [b[0]] + b[1..];
    }
  }

  // ----- splitting and joining -----

  /** `s.split(c)`: never empty, one piece more than there are separators. */
  function Split<T(==)>(s: seq<T>, c: T): (pieces: seq<seq<T>>)
    ensures |pieces| > 0
  {
    if s == [] then [[]]
    else
      var rest := Split(s[1..], c);
      if s[0] == c then [[]] + rest else [[s[0]] + rest[0]] + rest[1..]
  }

  /** `sep.join(pieces)` */
  function Join<T>(pieces: seq<seq<T>>, sep: seq<T>): seq<T> {
    if pieces == [] then []
    else if |pieces| == 1 then pieces[0]
    else pieces[0] + sep + Join(pieces[1..], sep)
  }

  lemma {:induction false} SplitPiece<T>(piece: seq<T>, c: T, rest: seq<T>)
    requires c !in piece
    ensures Split(piece, c) == [piece]
    ensures Split(piece + [c] + rest, c) == [piece] + Split(rest, c)
  {
    if piece == [] {
      assert piece + [c] + rest == [c] + rest;
      assert ([c] + rest)[1..] == rest;
    } else {
      SplitPiece(piece[1..], c, rest);
      var whole := piece + [c] + rest;
      assert whole[1..] == piece[1..] + [c] + rest;
      assert [piece[0]] + piece[1..] == piece;
    }
  }

  /** Splitting undoes joining with a separator that occurs in no piece. */
  lemma {:induction false} SplitJoin<T>(pieces: seq<seq<T>>, c: T)
    requires pieces != []
    requires forall i :: 0 <= i < |pieces| ==> c !in pieces[i]
    ensures Split(Join(pieces, [c]), c) == pieces
  {
    if |pieces| == 1 {
      SplitPiece(pieces[0], c, []);
    } else {
      SplitJoin(pieces[1..], c);
      SplitPiece(pieces[0], c, Join(pieces[1..], [c]));
      assert [pieces[0]] + pieces[1..] == pieces;
    }
  }

  lemma {:induction false} JoinLast<T>(pieces: seq<seq<T>>, sep: seq<T>, last: seq<T>)
    requires pieces != []
    ensures Join(pieces + [last], sep) == Join(pieces, sep) + sep + last
  {
    if |pieces| == 1 {
      assert (pieces + [last])[1..] == [last];
    } else {
      JoinLast(pieces[1..], sep, last);
      assert (pieces + [last])[1..] == pieces[1..] + [last];
    }
  }

  lemma {:induction false} SplitLast<T>(s: seq<T>, c: T, last: seq<T>)
    requires c !in last
    ensures Split(s + [c] + last, c) == Split(s, c) + [last]
  {
    if s == [] {
      assert s + [c] + last == [c] + last && ([c] + last)[1..] == last;
      SplitPiece(last, c, []);
    } else {
      SplitLast(s[1..], c, last);
      assert (s + [c] + last)[1..] == s[1..] + [c] + last;
    }
  }

  /** Every piece followed by a separator. */
  function Terminate<T>(pieces: seq<seq<T>>, c: T): seq<T> {
    if pieces == [] then [] else pieces[0] + [c] + Terminate(pieces[1..], c)
  }

  lemma {:induction false} SplitTerminated<T>(pieces: seq<seq<T>>, c: T)
    requires forall i :: 0 <= i < |pieces| ==> c !in pieces[i]
    ensures Split(Terminate(pieces, c), c) == pieces + [[]]
  {
    if pieces != [] {
      SplitTerminated(pieces[1..], c);
      SplitPiece(pieces[0], c, Terminate(pieces[1..], c));
      assert pieces == [pieces[0]] + pieces[1..];
    }
  }

  // ----- numerals -----

  const DIGITS := "0123456789abcdef"

  function DigitValue(c: char): Option<nat> {
    if '0' <= c <= '9' then Some(c as int - '0' as int)
    else if 'a' <= c <= 'f' then Some(c as int - 'a' as int + 10)
    else if 'A' <= c <= 'F' then Some(c as int - 'A' as int + 10)
    else None
  }

  lemma DigitRoundTrip(d: nat)
    requires d < 16
    ensures DigitValue(DIGITS[d]) == Some(d)
  {
    assert d == 0 || d == 1 || d == 2 || d == 3 || d == 4 || d == 5 || d == 6 || d == 7 ||
           d == 8 || d == 9 || d == 10 || d == 11 || d == 12 || d == 13 || d == 14 || d == 15;
  }

  datatype Base = Decimal | Hexadecimal {
    function Size(): nat { if Decimal? then 10 else 16 }
    function High(n: nat): nat { if Decimal? then n / 10 else n / 16 }
    function Low(n: nat): (d: nat) ensures d < Size() <= 16 { if Decimal? then n % 10 else n % 16 }
    function Combine(high: nat, low: nat): nat { if Decimal? then high * 10 + low else high * 16 + low }
  }

  /** The shortest lower-case numeral, as `format(n, "d")` and `format(n, "x")` print it. */
  function Numeral(n: nat, base: Base): (s: string)
    ensures s != ""
  {
    if n < base.Size() then [DIGITS[n]] else Numeral(base.High(n), base) + [DIGITS[base.Low(n)]]
  }

  /** The value of a numeral: nothing for an empty text or a character that is no digit of the base. */
  function NumeralValue(s: string, base: Base): Option<nat> {
    if s == "" then None
    else
      var last := DigitValue(s[|s|-1]);
      if last.None? || last.value >= base.Size() then None
      else if |s| == 1 then last
      else
        var high := NumeralValue(s[..|s|-1], base);
        if high.None? then None else Some(base.Combine(high.value, last.value))
  }

  lemma ExtendNumeral(s: string, d: nat, base: Base)
    requires d < base.Size() && NumeralValue(s, base).Some?
    ensures NumeralValue(s + [DIGITS[d]], base) == Some(base.Combine(NumeralValue(s, base).value, d))
  {
    DigitRoundTrip(d);
    var t := s + [DIGITS[d]];
    assert t[..|t|-1] == s && t[|t|-1] == DIGITS[d];
  }

  lemma {:induction false} NumeralRoundTrip(n: nat, base: Base)
    ensures NumeralValue(Numeral(n, base), base) == Some(n)
  {
    if n < base.Size() {
      DigitRoundTrip(n);
    } else {
      NumeralRoundTrip(base.High(n), base);
      ExtendNumeral(Numeral(base.High(n), base), base.Low(n), base);
    }
  }

  lemma {:induction false} NumeralDigits(n: nat, base: Base)
    ensures forall c :: c in Numeral(n, base) ==> DigitValue(c).Some?
  {
    if n < base.Size() {
      DigitRoundTrip(n);
    } else {
      DigitRoundTrip(base.Low(n));
      NumeralDigits(base.High(n), base);
    }
  }

  lemma NumeralInjective(m: nat, n: nat, base: Base)
    requires Numeral(m, base) == Numeral(n, base)
    ensures m == n
  {
    NumeralRoundTrip(m, base);
    NumeralRoundTrip(n, base);
  }

  // ----- prefixes -----

  predicate StartsWith(s: string, prefix: string) {
    |prefix| <= |s| && s[..|prefix|] == prefix
  }

  lemma AppendCancel<T>(a: seq<T>, b: seq<T>, s: seq<T>, t: seq<T>)
    requires a + s == b + t && |a| == |b|
    ensures a == b && s == t
  {
    assert a == (a + s)[..|a|] == (b + t)[..|b|] == b;
    assert s == (a + s)[|a|..] == (b + t)[|b|..] == t;
  }

  // ----- digests -----

  /** No two texts have the same digest. */
  ghost predicate CollisionFree(digest: string -> string) {
    forall a, b :: digest(a) == digest(b) ==> a == b
  }
}
