/** The few Python `str` operations the dashboard relies on, over `seq<char>`:
    `split` with an explicit separator, `join`, case-insensitive substring
    search and the decimal rendering of a count. */
module Strings {

  // ---------------------------------------------------------------------
  // split and join
  // ---------------------------------------------------------------------

  /** Python's `s.split(sep)` for a one-character separator: every separator
      cuts, so "" gives [""], "a,,b" gives ["a", "", "b"] and a trailing
      separator gives a trailing "". */
  function Split(s: string, sep: char): (parts: seq<string>)
    ensures |parts| >= 1
    ensures forall i :: 0 <= i < |parts| ==> sep !in parts[i]
    decreases |s|
  {
    if |s| == 0 then [""]
    else
      var rest := Split(s[1..], sep);
      if s[0] == sep then [""] + rest
      else [[s[0]] + rest[0]] + rest[1..]
  }

  /** Python's `sep.join(parts)`; the empty list gives "". */
  function Join(parts: seq<string>, sep: string): string
    decreases |parts|
  {
    if |parts| == 0 then ""
    else if |parts| == 1 then parts[0]
    else parts[0] + sep + Join(parts[1..], sep)
  }

  /** Joining the pieces of a split with the same separator gives back the
      original text. */
  lemma {:induction false} JoinSplit(s: string, sep: char)
    ensures Join(Split(s, sep), [sep]) == s
    decreases |s|
  {
    if |s| > 0 {
      var rest := Split(s[1..], sep);
      JoinSplit(s[1..], sep);
      if s[0] == sep {
        assert Split(s, sep) == [""] + rest;
        assert ([""] + rest)[1..] == rest;
        assert s == [sep] + s[1..];
      } else {
        var parts := Split(s, sep);
        assert parts == [[s[0]] + rest[0]] + rest[1..];
        if |rest| == 1 {
          assert s == [s[0]] + s[1..];
        } else {
          assert parts[1..] == rest[1..];
          assert Join(rest, [sep]) == rest[0] + [sep] + Join(rest[1..], [sep]);
          assert s == [s[0]] + s[1..];
        }
      }
    }
  }

  /** A text without the separator splits into itself alone. */
  lemma {:induction false} SplitWithoutSeparator(p: string, sep: char)
    requires sep !in p
    ensures Split(p, sep) == [p]
    decreases |p|
  {
    if |p| > 0 {
      SplitWithoutSeparator(p[1..], sep);
      assert p == [p[0]] + p[1..];
    }
  }

  /** Splitting at the first separator: what precedes it is the first piece. */
  lemma {:induction false} SplitAtSeparator(p: string, t: string, sep: char)
    requires sep !in p
    ensures Split(p + [sep] + t, sep) == [p] + Split(t, sep)
    decreases |p|
  {
    var s := p + [sep] + t;
    if |p| == 0 {
      assert s[1..] == t;
    } else {
      assert s[1..] == p[1..] + [sep] + t;
      SplitAtSeparator(p[1..], t, sep);
      assert [p[0]] + p[1..] == p;
    }
  }

  /** Splitting a join of separator-free pieces gives back the pieces, so
      `join` loses nothing when no piece holds the separator. */
  lemma {:induction false} SplitJoin(parts: seq<string>, sep: char)
    requires |parts| >= 1
    requires forall i :: 0 <= i < |parts| ==> sep !in parts[i]
    ensures Split(Join(parts, [sep]), sep) == parts
    decreases |parts|
  {
    if |parts| == 1 {
      SplitWithoutSeparator(parts[0], sep);
    } else {
      SplitJoin(parts[1..], sep);
      SplitAtSeparator(parts[0], Join(parts[1..], [sep]), sep);
      assert [parts[0]] + parts[1..] == parts;
    }
  }

  /** A separator at the very end yields an empty last piece (and so at
      least two pieces). */
  lemma {:induction false} TrailingSeparatorGivesEmptyPiece(p: string, sep: char)
    ensures |Split(p + [sep], sep)| >= 2
    ensures Split(p + [sep], sep)[|Split(p + [sep], sep)| - 1] == ""
    decreases |p|
  {
    var s := p + [sep];
    if |p| == 0 {
      assert Split(s, sep) == [""] + Split("", sep);
    } else {
      assert s[1..] == p[1..] + [sep];
      TrailingSeparatorGivesEmptyPiece(p[1..], sep);
    }
  }

  /** Two separators in a row yield an empty piece, and not as the first
      piece: it is the one between them. */
  lemma {:induction false} DoubledSeparatorGivesEmptyPiece(p: string, t: string, sep: char)
    ensures exists j :: 1 <= j < |Split(p + [sep, sep] + t, sep)| && Split(p + [sep, sep] + t, sep)[j] == ""
    decreases |p|
  {
    var s := p + [sep, sep] + t;
    if |p| == 0 {
      assert s[1..] == [sep] + t;
      assert s[1..][1..] == t;
      assert Split(s[1..], sep) == [""] + Split(t, sep);
      assert Split(s, sep)[1] == "";
    } else {
      assert s[1..] == p[1..] + [sep, sep] + t;
      DoubledSeparatorGivesEmptyPiece(p[1..], t, sep);
      var rest := Split(s[1..], sep);
      var j :| 1 <= j < |rest| && rest[j] == "";
      if s[0] == sep {
        assert Split(s, sep)[j + 1] == rest[j];
      } else {
        assert Split(s, sep)[j] == rest[j];
      }
    }
  }

  // ---------------------------------------------------------------------
  // case-insensitive substring search
  // ---------------------------------------------------------------------

  /** ASCII lower-casing of one character; other characters are kept. */
  function LowerChar(c: char): (r: char)
    ensures 'A' <= c <= 'Z' ==> 'a' <= r <= 'z' && r as int - 'a' as int == c as int - 'A' as int
    ensures !('A' <= c <= 'Z') ==> r == c
  {
    if 'A' <= c <= 'Z' then (c as int + 32) as char else c
  }

  function Lower(s: string): (r: string)
    ensures |r| == |s|
    ensures forall i :: 0 <= i < |s| ==> r[i] == LowerChar(s[i])
  {
    seq(|s|, i requires 0 <= i < |s| => LowerChar(s[i]))
  }

  /** `term` occurs in `text` starting at position `i`. */
  predicate OccursAt(text: string, term: string, i: nat) {
    i + |term| <= |text| && text[i..i + |term|] == term
  }

  /** Python's `term in text`: some position where `term` occurs. */
  predicate Contains(text: string, term: string) {
    exists i :: 0 <= i <= |text| && OccursAt(text, term, i)
  }

  /** A search for `term` in `text` that ignores letter case. */
  predicate ContainsIgnoringCase(text: string, term: string) {
    Contains(Lower(text), Lower(term))
  }

  /** At position `i` every character of `term` agrees with the text's
      character once both are lower-cased. */
  predicate AgreesIgnoringCaseAt(text: string, term: string, i: nat) {
    i + |term| <= |text| &&
    forall k :: 0 <= k < |term| ==> LowerChar(text[i + k]) == LowerChar(term[k])
  }

  /** The search ignores case exactly: `term` is found in `text` iff at
      some position it agrees with the text up to case. */
  lemma ContainsIgnoringCaseAt(text: string, term: string)
    ensures ContainsIgnoringCase(text, term) <==> exists i: nat :: AgreesIgnoringCaseAt(text, term, i)
  {
    var lt, lw := Lower(text), Lower(term);
    if ContainsIgnoringCase(text, term) {
      var i :| 0 <= i <= |lt| && OccursAt(lt, lw, i);
      forall k | 0 <= k < |term| ensures LowerChar(text[i + k]) == LowerChar(term[k]) {
        assert lt[i..i + |lw|][k] == lw[k];
      }
      assert AgreesIgnoringCaseAt(text, term, i);
    }
    if exists i: nat :: AgreesIgnoringCaseAt(text, term, i) {
      var i: nat :| AgreesIgnoringCaseAt(text, term, i);
      assert lt[i..i + |lw|] == lw;
      assert OccursAt(lt, lw, i);
    }
  }

  /** Letters that differ only in case fold to the same character, and
      folding never merges two different letters. */
  lemma LowerCharIgnoresOnlyCase(a: char, b: char)
    ensures LowerChar(a) == LowerChar(b) <==>
              a == b || (a as int - b as int == 32 && 'a' <= a <= 'z') || (b as int - a as int == 32 && 'a' <= b <= 'z')
  {
  }

  /** The empty term occurs in every text. */
  lemma EmptyTermOccurs(text: string)
    ensures ContainsIgnoringCase(text, "")
  {
    assert OccursAt(Lower(text), Lower(""), 0);
  }

  // ---------------------------------------------------------------------
  // decimal rendering of a count (Python's f"{n}")
  // ---------------------------------------------------------------------

  predicate IsDigit(c: char) {
    '0' <= c <= '9'
  }

  function DigitChar(d: nat): (c: char)
    requires d < 10
    ensures IsDigit(c)
  {
    ('0' as int + d) as char
  }

  /** The decimal digits of `n`, most significant first, without leading zeros. */
  function Decimal(n: nat): (s: string)
    ensures |s| >= 1
    ensures forall i :: 0 <= i < |s| ==> IsDigit(s[i])
    ensures n > 0 ==> s[0] != '0'
    decreases n
  {
    if n < 10 then [DigitChar(n)] else Decimal(n / 10) + [DigitChar(n % 10)]
  }

  function DigitValue(c: char): (d: nat)
    requires IsDigit(c)
    ensures d < 10 && DigitChar(d) == c
  {
    c as int - '0' as int
  }

  /** The number a string of decimal digits denotes. */
  function ParseDecimal(s: string): nat
    requires forall i :: 0 <= i < |s| ==> IsDigit(s[i])
    decreases |s|
  {
    if |s| == 0 then 0
    else ParseDecimal(s[..|s| - 1]) * 10 + DigitValue(s[|s| - 1])
  }

  /** Reading back the rendering of a count gives the count. */
  lemma {:induction false} ParseDecimalOfDecimal(n: nat)
    ensures ParseDecimal(Decimal(n)) == n
    decreases n
  {
    if n >= 10 {
      ParseDecimalOfDecimal(n / 10);
      var s := Decimal(n);
      assert s[..|s| - 1] == Decimal(n / 10);
    }
  }

  /** Two counts with the same rendering are equal. */
  lemma DecimalInjective(a: nat, b: nat)
    requires Decimal(a) == Decimal(b)
    ensures a == b
  {
    ParseDecimalOfDecimal(a);
    ParseDecimalOfDecimal(b);
  }
}
