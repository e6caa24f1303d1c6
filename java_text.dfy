/**
 * The few pieces of java.lang.String and java.lang.Integer behaviour that the two
 * controllers rely on, written out so that the controllers' models can be exact:
 *   - String.split(",") with its default limit of 0 (a literal one-character
 *     separator, a leading empty token kept, trailing empty tokens dropped, and a
 *     line with no comma returned whole);
 *   - String.equalsIgnoreCase, restricted to an ASCII case fold;
 *   - String.format("%02d", n) and Java's truncating int division and remainder.
 */
module JavaText {

  // ---------------------------------------------------------------------------
  // Splitting on a literal comma
  // ---------------------------------------------------------------------------

  const Comma: char := ','

  /** The comma-separated fields of `s`, every one kept: one more than the number of commas. */
  function Fields(s: string): (r: seq<string>)
    ensures |r| >= 1
    decreases |s|
  {
    if s == [] then [""]
    else
      var rest := Fields(s[1..]);
      if s[0] == Comma then [""] + rest
      else [[s[0]] + rest[0]] + rest[1..]
  }

  /** `xs` without its trailing run of empty strings. */
  function StripTrailingEmpty(xs: seq<string>): (r: seq<string>)
    ensures |r| <= |xs|
    decreases |xs|
  {
    if xs == [] then []
    else if xs[|xs| - 1] == "" then StripTrailingEmpty(xs[..|xs| - 1])
    else xs
  }

  /** What is stripped is a run of empty strings at the end, and what is kept does not end in one. */
  lemma {:induction false} StripTrailingEmptyDropsEmpties(xs: seq<string>)
    ensures var r := StripTrailingEmpty(xs);
            r == xs[..|r|] && (r == [] || r[|r| - 1] != "")
            && forall k :: |r| <= k < |xs| ==> xs[k] == ""
    decreases |xs|
  {
    if xs != [] && xs[|xs| - 1] == "" {
      StripTrailingEmptyDropsEmpties(xs[..|xs| - 1]);
    }
  }

  /** Whether `s` contains a comma, scanned from the front. */
  predicate HasComma(s: string)
    decreases |s|
  {
    s != [] && (s[0] == Comma || HasComma(s[1..]))
  }

  lemma {:induction false} HasCommaIsMembership(s: string)
    ensures HasComma(s) <==> Comma in s
    decreases |s|
  {
    if s != [] {
      HasCommaIsMembership(s[1..]);
      assert s == [s[0]] + s[1..];
    }
  }

  /**
   * Java's line.split(","): when no comma occurs the result is the whole line
   * (even an empty line gives one token); otherwise the fields with the
   * trailing empty ones removed.
   */
  function Split(s: string): seq<string>
  {
    if !HasComma(s) then [s] else StripTrailingEmpty(Fields(s))
  }

  /** The inverse direction: tokens glued back together with commas. */
  function Join(ts: seq<string>): string
  {
    if ts == [] then ""
    else if |ts| == 1 then ts[0]
    else ts[0] + [Comma] + Join(ts[1..])
  }

  ghost predicate NoComma(t: string) {
    Comma !in t
  }

  function Empties(n: nat): (r: seq<string>)
    ensures |r| == n && forall k :: 0 <= k < n ==> r[k] == ""
  {
    if n == 0 then [] else Empties(n - 1) + [""]
  }

  /** No field contains the separator. */
  lemma {:induction false} FieldsHaveNoComma(s: string)
    ensures forall k :: 0 <= k < |Fields(s)| ==> NoComma(Fields(s)[k])
    decreases |s|
  {
    if s != [] {
      FieldsHaveNoComma(s[1..]);
    }
  }

  /** There is exactly one more field than there are commas in the line. */
  lemma {:induction false} FieldsCount(s: string)
    ensures |Fields(s)| == multiset(s)[Comma] + 1
    decreases |s|
  {
    if s != [] {
      FieldsCount(s[1..]);
      assert s == [s[0]] + s[1..];
      assert multiset(s) == multiset{s[0]} + multiset(s[1..]);
    }
  }

  /** Gluing the fields back together with commas gives back the line. */
  lemma {:induction false} JoinFields(s: string)
    ensures Join(Fields(s)) == s
    decreases |s|
  {
    if s != [] {
      var rest := Fields(s[1..]);
      JoinFields(s[1..]);
      if s[0] == Comma {
        assert ([""] + rest)[1..] == rest;
        assert s == [s[0]] + s[1..];
      } else {
        var r := [[s[0]] + rest[0]] + rest[1..];
        assert r[1..] == rest[1..];
        if |rest| == 1 {
          assert s == [s[0]] + rest[0];
        } else {
          assert Join(rest) == rest[0] + [Comma] + Join(rest[1..]);
          assert s == [s[0]] + s[1..];
        }
      }
    }
  }

  /** Splitting a comma-join of comma-free tokens fields them back exactly. */
  lemma {:induction false} FieldsJoin(ts: seq<string>)
    requires ts != []
    requires forall k :: 0 <= k < |ts| ==> NoComma(ts[k])
    ensures Fields(Join(ts)) == ts
    decreases |ts|
  {
    if |ts| == 1 {
      FieldsOfCommaFree(ts[0]);
    } else {
      assert NoComma(ts[0]);
      FieldsJoin(ts[1..]);
      FieldsAfterToken(ts[0], Join(ts[1..]));
      assert [ts[0]] + ts[1..] == ts;
    }
  }

  /** A line without a comma is a single field. */
  lemma {:induction false} FieldsOfCommaFree(t: string)
    requires NoComma(t)
    ensures Fields(t) == [t]
    decreases |t|
  {
    if t != [] {
      assert t == [t[0]] + t[1..];
      FieldsOfCommaFree(t[1..]);
    }
  }

  /** A comma-free token followed by a comma is the first field, and the rest is fielded on. */
  lemma {:induction false} FieldsAfterToken(t: string, rest: string)
    requires NoComma(t)
    ensures Fields(t + [Comma] + rest) == [t] + Fields(rest)
    decreases |t|
  {
    var s := t + [Comma] + rest;
    if t == [] {
      assert s[1..] == rest;
    } else {
      assert t == [t[0]] + t[1..];
      assert s[1..] == t[1..] + [Comma] + rest;
      FieldsAfterToken(t[1..], rest);
    }
  }

  /** split drops nothing but a run of empty fields at the end of the line. */
  lemma SplitDropsOnlyTrailingEmpties(s: string)
    ensures |Split(s)| <= |Fields(s)|
    ensures Fields(s) == Split(s) + Empties(|Fields(s)| - |Split(s)|)
  {
    HasCommaIsMembership(s);
    if Comma in s {
      assert Split(s) == StripTrailingEmpty(Fields(s));
      StrippedPlusEmpties(Fields(s));
    } else {
      FieldsOfCommaFree(s);
      assert Empties(0) == [];
    }
  }

  lemma StrippedPlusEmpties(xs: seq<string>)
    ensures |StripTrailingEmpty(xs)| <= |xs|
    ensures xs == StripTrailingEmpty(xs) + Empties(|xs| - |StripTrailingEmpty(xs)|)
  {
    var r := StripTrailingEmpty(xs);
    StripTrailingEmptyDropsEmpties(xs);
    var e := Empties(|xs| - |r|);
    forall k | 0 <= k < |xs|
      ensures xs[k] == (r + e)[k]
    {
      if k < |r| {
        assert r[k] == xs[k];
      } else {
        assert e[k - |r|] == "";
      }
    }
    assert xs == r + e;
  }

  /** Every token of a split line is free of commas. */
  lemma SplitHasNoComma(s: string)
    ensures forall k :: 0 <= k < |Split(s)| ==> NoComma(Split(s)[k])
  {
    HasCommaIsMembership(s);
    FieldsHaveNoComma(s);
    StripTrailingEmptyDropsEmpties(Fields(s));
  }

  /** A line that does not end in a comma is the comma-join of its tokens. */
  lemma JoinSplit(s: string)
    requires s == [] || s[|s| - 1] != Comma
    ensures Join(Split(s)) == s
  {
    if HasComma(s) {
      var f := Fields(s);
      JoinFields(s);
      LastFieldOfNonCommaEnd(s);
      assert StripTrailingEmpty(f) == f;
    }
  }

  lemma {:induction false} LastFieldOfNonCommaEnd(s: string)
    requires s != [] && s[|s| - 1] != Comma
    ensures Fields(s)[|Fields(s)| - 1] != ""
    decreases |s|
  {
    var rest := Fields(s[1..]);
    var f := Fields(s);
    if |s| == 1 {
      assert s[1..] == [];
      assert f == [[s[0]] + ""];
    } else {
      LastFieldOfNonCommaEnd(s[1..]);
      if s[0] == Comma {
        assert f == [""] + rest;
        assert f[|f| - 1] == rest[|rest| - 1];
      } else if |rest| == 1 {
        assert f == [[s[0]] + rest[0]];
      } else {
        assert f == [[s[0]] + rest[0]] + rest[1..];
        assert f[|f| - 1] == rest[|rest| - 1];
      }
    }
  }

  /**
   * The inverse round trip: comma-free tokens whose last one is not empty (or
   * a single token, which is returned whole) are split back exactly.
   */
  lemma SplitJoin(ts: seq<string>)
    requires ts != []
    requires forall k :: 0 <= k < |ts| ==> NoComma(ts[k])
    requires |ts| == 1 || ts[|ts| - 1] != ""
    ensures Split(Join(ts)) == ts
  {
    if |ts| == 1 {
      HasCommaIsMembership(ts[0]);
    } else {
      var j := Join(ts);
      FieldsJoin(ts);
      JoinHasComma(ts);
      HasCommaIsMembership(j);
      assert Split(j) == StripTrailingEmpty(ts);
    }
  }

  lemma JoinHasComma(ts: seq<string>)
    requires |ts| >= 2
    ensures Comma in Join(ts)
  {
    var j := Join(ts);
    assert j == ts[0] + [Comma] + Join(ts[1..]);
    assert j[|ts[0]|] == Comma;
  }

  /**
   * A trailing comma after comma-free tokens, the last of them not empty, adds
   * no token: five values and a comma still make five tokens.
   */
  lemma TrailingCommaKeepsTokens(ts: seq<string>)
    requires |ts| >= 2
    requires forall k :: 0 <= k < |ts| ==> NoComma(ts[k])
    requires ts[|ts| - 1] != ""
    ensures Split(Join(ts) + [Comma]) == ts
  {
    SplitJoin(ts);
    JoinHasComma(ts);
    JoinEndsOutsideComma(ts);
    TrailingCommaSplit(Join(ts));
  }

  /** The comma-join of comma-free tokens whose last one is not empty does not end in a comma. */
  lemma {:induction false} JoinEndsOutsideComma(ts: seq<string>)
    requires ts != []
    requires forall k :: 0 <= k < |ts| ==> NoComma(ts[k])
    requires ts[|ts| - 1] != ""
    ensures Join(ts) != [] && Join(ts)[|Join(ts)| - 1] != Comma
    decreases |ts|
  {
    var t := ts[0];
    if |ts| == 1 {
      assert t[|t| - 1] in t;
    } else {
      var j := Join(ts[1..]);
      JoinEndsOutsideComma(ts[1..]);
      assert Join(ts) == t + [Comma] + j;
      assert Join(ts)[|Join(ts)| - 1] == j[|j| - 1];
    }
  }

  /** "A,1,2,3,4," still has five tokens. */
  lemma TrailingCommaFiveValues()
    ensures Split("A,1,2,3,4,") == ["A", "1", "2", "3", "4"]
  {
    TrailingCommaKeepsTokens(["A", "1", "2", "3", "4"]);
    assert Join(["A", "1", "2", "3", "4"]) + [Comma] == "A,1,2,3,4,";
  }

  /** "A,1,2,3," still has four tokens. */
  lemma TrailingCommaFourValues()
    ensures Split("A,1,2,3,") == ["A", "1", "2", "3"]
  {
    TrailingCommaKeepsTokens(["A", "1", "2", "3"]);
    assert Join(["A", "1", "2", "3"]) + [Comma] == "A,1,2,3,";
  }

  /** An empty value in the middle of a line is kept as an empty token. */
  lemma SplitInnerEmpty()
    ensures Split("Bob,,70,80,75") == ["Bob", "", "70", "80", "75"]
  {
    SplitJoin(["Bob", "", "70", "80", "75"]);
    assert Join(["Bob", "", "70", "80", "75"]) == "Bob,,70,80,75";
  }

  /** An empty line is one empty token; a line of commas has none. */
  lemma SplitDegenerate()
    ensures Split("") == [""] && Split(",,") == []
  {
    assert HasComma(",,");
    assert Fields(",,") == ["", "", ""];
    StripTrailingEmptyDropsEmpties(["", "", ""]);
  }

  /** One trailing comma after a line that does not end in one adds no token. */
  lemma TrailingCommaSplit(s: string)
    requires Comma in s && s[|s| - 1] != Comma
    ensures Split(s + [Comma]) == Split(s)
  {
    var t := s + [Comma];
    FieldsAppendComma(s);
    LastFieldOfNonCommaEnd(s);
    assert Comma in t by { assert t[|s|] == Comma; }
    HasCommaIsMembership(s);
    HasCommaIsMembership(t);
    var f := Fields(s);
    assert Fields(t)[..|f|] == f;
    assert StripTrailingEmpty(Fields(t)) == StripTrailingEmpty(f);
  }

  lemma {:induction false} FieldsAppendComma(s: string)
    ensures Fields(s + [Comma]) == Fields(s) + [""]
    decreases |s|
  {
    if s == [] {
      assert [Comma][1..] == [];
    } else {
      FieldsAppendComma(s[1..]);
      assert (s + [Comma])[1..] == s[1..] + [Comma];
      var rest := Fields(s[1..]);
      if s[0] != Comma {
        assert (rest + [""])[1..] == rest[1..] + [""];
      }
    }
  }

  // ---------------------------------------------------------------------------
  // equalsIgnoreCase
  // ---------------------------------------------------------------------------

  function Upper(c: char): char {
    if 'a' <= c <= 'z' then (c as int - 32) as char else c
  }

  function Lower(c: char): char {
    if 'A' <= c <= 'Z' then (c as int + 32) as char else c
  }

  /** Java compares character pairs: equal, equal in upper case, or equal in lower case. */
  predicate CharsEqualIgnoreCase(c: char, d: char) {
    c == d || Upper(c) == Upper(d) || Lower(c) == Lower(d)
  }

  predicate EqualsIgnoreCase(a: string, b: string) {
    |a| == |b| && forall k :: 0 <= k < |a| ==> CharsEqualIgnoreCase(a[k], b[k])
  }

  function FoldCase(s: string): (r: string)
    ensures |r| == |s| && forall k :: 0 <= k < |s| ==> r[k] == Lower(s[k])
  {
    if s == [] then [] else [Lower(s[0])] + FoldCase(s[1..])
  }

  lemma CharFold(c: char, d: char)
    ensures CharsEqualIgnoreCase(c, d) <==> Lower(c) == Lower(d)
  {
  }

  /** With the ASCII fold, equalsIgnoreCase is equality of the lower-cased strings. */
  lemma EqualsIgnoreCaseIsFoldedEquality(a: string, b: string)
    ensures EqualsIgnoreCase(a, b) <==> FoldCase(a) == FoldCase(b)
  {
    if EqualsIgnoreCase(a, b) {
      forall k | 0 <= k < |a| ensures FoldCase(a)[k] == FoldCase(b)[k] {
        CharFold(a[k], b[k]);
      }
    }
    if FoldCase(a) == FoldCase(b) {
      forall k | 0 <= k < |a| ensures CharsEqualIgnoreCase(a[k], b[k]) {
        assert FoldCase(a)[k] == FoldCase(b)[k];
        CharFold(a[k], b[k]);
      }
    }
  }

  /** equalsIgnoreCase is an equivalence relation. */
  lemma EqualsIgnoreCaseEquivalence(a: string, b: string, c: string)
    ensures EqualsIgnoreCase(a, a)
    ensures EqualsIgnoreCase(a, b) ==> EqualsIgnoreCase(b, a)
    ensures EqualsIgnoreCase(a, b) && EqualsIgnoreCase(b, c) ==> EqualsIgnoreCase(a, c)
  {
    EqualsIgnoreCaseIsFoldedEquality(a, a);
    EqualsIgnoreCaseIsFoldedEquality(a, b);
    EqualsIgnoreCaseIsFoldedEquality(b, a);
    EqualsIgnoreCaseIsFoldedEquality(b, c);
    EqualsIgnoreCaseIsFoldedEquality(a, c);
  }

  // ---------------------------------------------------------------------------
  // int division and String.format("%02d", n)
  // ---------------------------------------------------------------------------

  function Abs(x: int): nat {
    if x >= 0 then x else -x
  }

  /** Java's int `/`: the quotient truncated toward zero. */
  function JavaDiv(a: int, b: int): int
    requires b != 0
  {
    if (a >= 0) == (b > 0) then Abs(a) / Abs(b) else -(Abs(a) / Abs(b))
  }

  /** Java's int `%`: the remainder takes the sign of the dividend. */
  function JavaRem(a: int, b: int): int
    requires b != 0
  {
    if a >= 0 then Abs(a) % Abs(b) else -(Abs(a) % Abs(b))
  }

  /**
   * The two belong together as the JLS requires: (a / b) * b + a % b == a, the
   * remainder smaller than the divisor and zero or of the dividend's sign.
   */
  lemma JavaDivision(a: int, b: int)
    requires b != 0
    ensures JavaDiv(a, b) * b + JavaRem(a, b) == a
    ensures Abs(JavaRem(a, b)) < Abs(b)
    ensures JavaRem(a, b) == 0 || (JavaRem(a, b) > 0) == (a > 0)
  {
    var A: int, B: int := Abs(a), Abs(b);
    var q: int, m: int := A / B, A % B;
    var d, r := JavaDiv(a, b), JavaRem(a, b);
    assert A == q * B + m && 0 <= m < B;
    assert d == if (a >= 0) == (b > 0) then q else -q;
    assert r == if a >= 0 then m else -m;
    SignedDivision(a, b, d, r, q, m, q * B);
  }

  /** The sign bookkeeping of JavaDivision, with the products named. */
  lemma SignedDivision(a: int, b: int, d: int, r: int, q: int, m: int, qB: int)
    requires b != 0 && Abs(a) == qB + m && 0 <= m < Abs(b)
    requires qB == q * Abs(b)
    requires d == if (a >= 0) == (b > 0) then q else -q
    requires r == if a >= 0 then m else -m
    ensures d * b + r == a
    ensures Abs(r) < Abs(b)
    ensures r == 0 || (r > 0) == (a > 0)
  {
    if b > 0 {
      assert Abs(b) == b;
      assert q * b == qB;
    } else {
      assert Abs(b) == -b;
      assert q * b == -qB;
    }
    if (a >= 0) == (b > 0) {
      assert d * b == q * b;
    } else {
      assert d * b == -(q * b);
    }
  }

  function DigitChar(d: int): char
    requires 0 <= d < 10
  {
    ('0' as int + d) as char
  }

  /** The decimal digits of `n`, without leading zeros ("0" for zero). */
  function Digits(n: nat): (r: string)
    ensures |r| >= 1
    ensures forall k :: 0 <= k < |r| ==> '0' <= r[k] <= '9'
  {
    if n < 10 then [DigitChar(n)] else Digits(n / 10) + [DigitChar(n % 10)]
  }

  /** The value of a string of decimal digits. */
  function DigitsValue(s: string): int
    requires forall k :: 0 <= k < |s| ==> '0' <= s[k] <= '9'
  {
    if s == [] then 0 else DigitsValue(s[..|s| - 1]) * 10 + (s[|s| - 1] as int - '0' as int)
  }

  lemma {:induction false} DigitsRoundTrip(n: nat)
    ensures DigitsValue(Digits(n)) == n
    ensures n < 10 <==> |Digits(n)| == 1
    ensures 10 <= n < 100 ==> |Digits(n)| == 2
  {
    if n >= 10 {
      DigitsRoundTrip(n / 10);
      var d := Digits(n);
      assert d[..|d| - 1] == Digits(n / 10);
    }
  }

  /** `%02d`: at least two characters, padded with zeros after any sign. */
  function Pad2(n: int): string
  {
    if n < 0 then "-" + Digits(-n)
    else if n < 10 then "0" + Digits(n)
    else Digits(n)
  }
}
