/**
 * Text helpers shared by the JavaScript widgets and the Python feed builder:
 * whitespace trimming (`String.prototype.trim`, `str.strip`), lower-casing
 * (`toLowerCase`, `str.lower`), substring search (`includes`, `in`),
 * splitting on one separator (`split(",")`) and decimal numerals.
 * Whitespace and case are the ASCII ones.
 */
module Strings {

  /**
   * ASCII whitespace as JavaScript's `trim` sees it: space, tab, line feed,
   * vertical tab, form feed, carriage return. Python's `strip` also removes
   * the separators \x1c to \x1f, which this predicate does not include.
   */
  predicate IsSpace(c: char) {
    c == ' ' || c == '\t' || c == '\n' || c == '\U{B}' || c == '\U{C}' || c == '\r'
  }

  predicate NoSpaceAtEnds(s: string) {
    s == [] || (!IsSpace(s[0]) && !IsSpace(s[|s| - 1]))
  }

  /** Drops leading whitespace. */
  function TrimStart(s: string): (r: string)
    ensures |r| <= |s|
    ensures forall i :: 0 <= i < |s| - |r| ==> IsSpace(s[i])
    ensures r == [] || !IsSpace(r[0])
  {
    if s != [] && IsSpace(s[0]) then TrimStart(s[1..]) else s
  }

  /** What TrimStart keeps is a suffix of its argument. */
  lemma {:induction false} TrimStartSuffix(s: string)
    ensures TrimStart(s) == s[|s| - |TrimStart(s)|..]
  {
    if s != [] && IsSpace(s[0]) {
      TrimStartSuffix(s[1..]);
    }
  }

  /** Drops trailing whitespace. */
  function TrimEnd(s: string): (r: string)
    ensures |r| <= |s| && r == s[..|r|]
    ensures forall i :: |r| <= i < |s| ==> IsSpace(s[i])
    ensures r == [] || !IsSpace(r[|r| - 1])
  {
    if s != [] && IsSpace(s[|s| - 1]) then TrimEnd(s[..|s| - 1]) else s
  }

  /** Drops whitespace at both ends. */
  function Trim(s: string): (r: string)
    ensures NoSpaceAtEnds(r)
  {
    TrimEnd(TrimStart(s))
  }

  /** The bounds of `Trim(s)` inside `s`: everything outside them is whitespace. */
  lemma TrimBounds(s: string) returns (a: nat, b: nat)
    ensures a <= b <= |s| && Trim(s) == s[a..b]
    ensures forall i :: 0 <= i < a ==> IsSpace(s[i])
    ensures forall i :: b <= i < |s| ==> IsSpace(s[i])
  {
    var t := TrimStart(s);
    TrimStartSuffix(s);
    a := |s| - |t|;
    b := a + |TrimEnd(t)|;
    assert TrimEnd(t) == t[..b - a];
    assert t[..b - a] == s[a..b];
    forall i | b <= i < |s| ensures IsSpace(s[i]) {
      assert s[i] == t[i - a];
    }
  }

  /** Trimming text that has no whitespace at its ends leaves it alone. */
  lemma TrimNoSpaceAtEnds(s: string)
    requires NoSpaceAtEnds(s)
    ensures Trim(s) == s
  {
  }

  /** Trimming is idempotent. */
  lemma TrimIdempotent(s: string)
    ensures Trim(Trim(s)) == Trim(s)
  {
    TrimNoSpaceAtEnds(Trim(s));
  }

  /** Trimming drops characters and adds none. */
  lemma TrimSubset(s: string, c: char)
    requires c !in s
    ensures c !in Trim(s)
  {
    var a, b := TrimBounds(s);
  }

  /** A text with a character that is not whitespace does not trim to nothing. */
  lemma TrimNonBlank(s: string, i: nat)
    requires i < |s| && !IsSpace(s[i])
    ensures Trim(s) != []
  {
    var a, b := TrimBounds(s);
  }

  /** A text of whitespace only trims to nothing. */
  lemma TrimBlank(s: string)
    requires forall i :: 0 <= i < |s| ==> IsSpace(s[i])
    ensures Trim(s) == []
  {
    var a, b := TrimBounds(s);
  }

  function LowerChar(c: char): char {
    if 'A' <= c <= 'Z' then (c as int + 32) as char else c
  }

  /** ASCII lower-casing, character by character. */
  function ToLower(s: string): (r: string)
    ensures |r| == |s|
  {
    seq(|s|, i requires 0 <= i < |s| => LowerChar(s[i]))
  }

  predicate IsLower(s: string) {
    forall i :: 0 <= i < |s| ==> LowerChar(s[i]) == s[i]
  }

  lemma ToLowerIsLower(s: string)
    ensures IsLower(ToLower(s))
  {
  }

  lemma ToLowerOfLower(s: string)
    requires IsLower(s)
    ensures ToLower(s) == s
  {
  }

  /** Lower-casing keeps whitespace and non-whitespace apart, so it commutes with trimming. */
  lemma {:induction false} ToLowerTrimStart(s: string)
    ensures ToLower(TrimStart(s)) == TrimStart(ToLower(s))
  {
    if s != [] {
      assert ToLower(s)[0] == LowerChar(s[0]);
      if IsSpace(s[0]) {
        assert ToLower(s)[1..] == ToLower(s[1..]);
        ToLowerTrimStart(s[1..]);
      }
    }
  }

  lemma {:induction false} ToLowerTrimEnd(s: string)
    ensures ToLower(TrimEnd(s)) == TrimEnd(ToLower(s))
  {
    if s != [] {
      assert ToLower(s)[|s| - 1] == LowerChar(s[|s| - 1]);
      if IsSpace(s[|s| - 1]) {
        assert ToLower(s)[..|s| - 1] == ToLower(s[..|s| - 1]);
        ToLowerTrimEnd(s[..|s| - 1]);
      }
    }
  }

  lemma ToLowerTrim(s: string)
    ensures ToLower(Trim(s)) == Trim(ToLower(s))
  {
    ToLowerTrimStart(s);
    ToLowerTrimEnd(TrimStart(s));
  }

  /** Trimmed and lower-cased: `text.strip().lower()`, `s.trim().toLowerCase()`. */
  function Normalized(text: string): string {
    ToLower(Trim(text))
  }

  lemma ToLowerIdempotent(s: string)
    ensures ToLower(ToLower(s)) == ToLower(s)
  {
    ToLowerIsLower(s);
    ToLowerOfLower(ToLower(s));
  }

  /** Normalizing twice is normalizing once. */
  lemma NormalizedIdempotent(s: string)
    ensures Normalized(Normalized(s)) == Normalized(s)
  {
    ToLowerTrim(ToLower(Trim(s)));
    TrimIdempotent(ToLower(s));
    ToLowerTrim(s);
    ToLowerIdempotent(Trim(s));
  }

  /** `s.startsWith(prefix)`. */
  predicate StartsWith(s: string, prefix: string) {
    |prefix| <= |s| && s[..|prefix|] == prefix
  }

  /** `n` occurs in `s` starting at position `i`. */
  predicate OccursAt(s: string, n: string, i: int) {
    0 <= i && i + |n| <= |s| && s[i..i + |n|] == n
  }

  /** Substring test: JavaScript `s.includes(n)`, Python `n in s`. */
  predicate Contains(s: string, n: string) {
    exists i :: 0 <= i <= |s| && OccursAt(s, n, i)
  }

  /**
   * A needle that neither starts nor ends with whitespace occurs in the
   * trimmed text exactly when it occurs in the text.
   */
  lemma ContainsTrim(s: string, n: string)
    requires n != [] && NoSpaceAtEnds(n)
    ensures Contains(Trim(s), n) <==> Contains(s, n)
  {
    var a, b := TrimBounds(s);
    if Contains(s, n) {
      var i :| 0 <= i <= |s| && OccursAt(s, n, i);
      OccurrenceInside(s, n, a, b, i);
    }
    if Contains(Trim(s), n) {
      var j :| 0 <= j <= |Trim(s)| && OccursAt(Trim(s), n, j);
      OccurrenceOutside(s, n, a, b, j);
    }
  }

  lemma OccurrenceInside(s: string, n: string, a: nat, b: nat, i: int)
    requires n != [] && NoSpaceAtEnds(n)
    requires a <= b <= |s|
    requires forall k :: 0 <= k < a ==> IsSpace(s[k])
    requires forall k :: b <= k < |s| ==> IsSpace(s[k])
    requires OccursAt(s, n, i)
    ensures OccursAt(s[a..b], n, i - a)
  {
    assert s[i] == s[i..i + |n|][0] == n[0];
    assert !IsSpace(s[i]);
    assert a <= i;
    var e := i + |n| - 1;
    assert s[e] == s[i..i + |n|][|n| - 1] == n[|n| - 1];
    assert !IsSpace(s[e]);
    assert e < b;
    forall k | 0 <= k < |n| ensures s[a..b][i - a..i - a + |n|][k] == n[k] {
      assert s[a..b][i - a + k] == s[i + k] == s[i..i + |n|][k];
    }
  }

  lemma OccurrenceOutside(s: string, n: string, a: nat, b: nat, j: int)
    requires a <= b <= |s|
    requires OccursAt(s[a..b], n, j)
    ensures OccursAt(s, n, a + j)
  {
    forall k | 0 <= k < |n| ensures s[a + j..a + j + |n|][k] == n[k] {
      assert s[a + j + k] == s[a..b][j + k];
    }
  }

  /** JavaScript `s.split(sep)` for a one-character separator: never empty. */
  function Split(s: string, sep: char): (r: seq<string>)
    ensures |r| >= 1
    ensures forall k :: 0 <= k < |r| ==> sep !in r[k]
  {
    if s == [] then [[]]
    else if s[0] == sep then [[]] + Split(s[1..], sep)
    else
      var rest := Split(s[1..], sep);
      [[s[0]] + rest[0]] + rest[1..]
  }

  /** JavaScript `pieces.join(sep)`. */
  function Join(pieces: seq<string>, sep: char): string
    requires |pieces| >= 1
  {
    if |pieces| == 1 then pieces[0] else pieces[0] + [sep] + Join(pieces[1..], sep)
  }

  /** Joining the pieces of a split gives back the text. */
  lemma {:induction false} JoinSplit(s: string, sep: char)
    ensures Join(Split(s, sep), sep) == s
  {
    if s != [] {
      JoinSplit(s[1..], sep);
      if s[0] != sep {
        var rest := Split(s[1..], sep);
        if |rest| > 1 {
          assert ([[s[0]] + rest[0]] + rest[1..])[1..] == rest[1..];
        }
      } else {
        assert ([[]] + Split(s[1..], sep))[1..] == Split(s[1..], sep);
      }
    }
  }

  /** Splitting at a separator splits both sides. */
  lemma {:induction false} SplitAppend(a: string, sep: char, b: string)
    ensures Split(a + [sep] + b, sep) == Split(a, sep) + Split(b, sep)
  {
    if a == [] {
      assert a + [sep] + b == [sep] + b;
      assert ([sep] + b)[1..] == b;
    } else {
      var t := a + [sep] + b;
      assert t[0] == a[0] && t[1..] == a[1..] + [sep] + b;
      SplitAppend(a[1..], sep, b);
    }
  }

  /** A text without the separator splits into itself. */
  lemma SplitNoSep(s: string, sep: char)
    requires sep !in s
    ensures Split(s, sep) == [s]
  {
    SplitJoin([s], sep);
  }

  /** Splitting a join of separator-free pieces gives back the pieces. */
  lemma {:induction false} SplitJoin(pieces: seq<string>, sep: char)
    requires |pieces| >= 1
    requires forall k :: 0 <= k < |pieces| ==> sep !in pieces[k]
    ensures Split(Join(pieces, sep), sep) == pieces
  {
    if |pieces| == 1 {
      SplitPiece(pieces[0], sep, [], pieces);
      assert pieces[0] + [] == pieces[0];
    } else {
      SplitJoin(pieces[1..], sep);
      var tail := [sep] + Join(pieces[1..], sep);
      assert tail[1..] == Join(pieces[1..], sep);
      assert ([pieces[0]] + pieces[1..])[1..] == pieces[1..];
      SplitPiece(pieces[0], sep, tail, [pieces[0]] + pieces[1..]);
      assert [pieces[0]] + pieces[1..] == pieces;
      assert Join(pieces, sep) == pieces[0] + tail;
    }
  }

  /** Helper for SplitJoin: a separator-free piece `p` in front of `tail` joins the first piece of its split. */
  lemma {:induction false} SplitPiece(p: string, sep: char, tail: string, want: seq<string>)
    requires sep !in p
    requires |want| >= 1 && want[0] == p
    requires tail == [] ==> want == [p]
    requires tail != [] ==> tail[0] == sep && Split(tail[1..], sep) == want[1..]
    ensures Split(p + tail, sep) == want
  {
    if p == [] {
      assert p + tail == tail;
      if tail != [] {
        assert [[]] + want[1..] == want;
      }
    } else {
      assert (p + tail)[0] == p[0];
      assert (p + tail)[1..] == p[1..] + tail;
      SplitPiece(p[1..], sep, tail, [p[1..]] + want[1..]);
      assert [p[0]] + p[1..] == p;
      assert [p] + want[1..] == want;
    }
  }

  predicate IsDigit(c: char) {
    '0' as int <= c as int <= '9' as int
  }

  function DigitChar(d: nat): char
    requires d < 10
  {
    ('0' as int + d) as char
  }

  function DigitValue(c: char): (d: nat)
    requires IsDigit(c)
    ensures d < 10
  {
    c as int - '0' as int
  }

  /** The decimal numeral of `n`, as a JavaScript template literal prints it. */
  function NatToDecimal(n: nat): (r: string)
    ensures r != [] && forall i :: 0 <= i < |r| ==> IsDigit(r[i])
  {
    if n < 10 then [DigitChar(n)] else NatToDecimal(n / 10) + [DigitChar(n % 10)]
  }

  /** The value of a string of decimal digits (0 for the empty string). */
  function DecimalValue(s: string): nat
    requires forall i :: 0 <= i < |s| ==> IsDigit(s[i])
  {
    if s == [] then 0 else 10 * DecimalValue(s[..|s| - 1]) + DigitValue(s[|s| - 1])
  }

  /** Reading back the numeral of `n` gives `n`. */
  lemma {:induction false} DecimalRoundTrip(n: nat)
    ensures DecimalValue(NatToDecimal(n)) == n
  {
    if n >= 10 {
      var s := NatToDecimal(n);
      assert s[..|s| - 1] == NatToDecimal(n / 10);
      DecimalRoundTrip(n / 10);
    }
  }
}
