/** The few Qt string operations the controller relies on (QString::indexOf,
    contains, mid, split, arg(int) and toLong), stated over `string`. */
module Text {

  datatype Option<T> = None | Some(value: T)

  /** `pat` occurs in `s` starting at position `i`. */
  predicate OccursAt(s: string, pat: string, i: int)
  {
    0 <= i && i + |pat| <= |s| && s[i..i + |pat|] == pat
  }

  /** QString::indexOf(pat, from): the first position at or after `from` where
      `pat` occurs, or -1 when there is none. */
  function IndexOfFrom(s: string, pat: string, from: nat): (r: int)
    ensures r == -1 || (from <= r && OccursAt(s, pat, r))
    ensures r == -1 ==> forall i :: from <= i ==> !OccursAt(s, pat, i)
    ensures forall i :: from <= i < r ==> !OccursAt(s, pat, i)
    decreases |s| - from
  {
    if from + |pat| > |s| then -1
    else if s[from..from + |pat|] == pat then from
    else IndexOfFrom(s, pat, from + 1)
  }

  /** QString::contains / QByteArray::contains: indexOf finds something,
      which is the case exactly when `pat` occurs somewhere in `s`. */
  function Contains(s: string, pat: string): (r: bool)
    ensures r <==> exists i :: OccursAt(s, pat, i)
  {
    IndexOfFrom(s, pat, 0) != -1
  }

  /** Pins down indexOf from its characterisation: an occurrence at `k` with
      none between `from` and `k` is the one reported. */
  lemma IndexOfFromIs(s: string, pat: string, from: nat, k: int)
    requires from <= k && OccursAt(s, pat, k)
    requires forall i :: from <= i < k ==> !OccursAt(s, pat, i)
    ensures IndexOfFrom(s, pat, from) == k
  {
  }

  /** Qt 4's QString::mid(position, n), including its treatment of a negative
      length ("the rest of the string") and of positions out of range. */
  function Mid(s: string, position: int, n: int): (r: string)
    ensures |r| <= |s|
    ensures 0 <= position <= |s| && n < 0 ==> r == s[position..]
    ensures 0 <= position && 0 <= n && position + n <= |s| ==> r == s[position..position + n]
  {
    if position > |s| then ""
    else
      var n1 := if n < 0 then |s| - position else n;
      var p := if position < 0 then 0 else position;
      var n2 := if position < 0 then n1 + position else n1;
      var n3 := if n2 + p > |s| then |s| - p else n2;
      if n3 <= 0 then "" else s[p..p + n3]
  }

  /** Number of occurrences of `c` in `s`. */
  function Count(s: string, c: char): nat
  {
    if s == [] then 0 else (if s[0] == c then 1 else 0) + Count(s[1..], c)
  }

  /** The parts joined back with `sep` between them (the inverse of Split). */
  function Join(parts: seq<string>, sep: char): string
    requires |parts| >= 1
  {
    if |parts| == 1 then parts[0] else parts[0] + [sep] + Join(parts[1..], sep)
  }

  /** QString::split(sep) with Qt's default KeepEmptyParts: the pieces between
      separators, empty ones included, so "a\n" gives ["a", ""]. */
  function Split(s: string, sep: char): (parts: seq<string>)
    ensures |parts| == Count(s, sep) + 1
    ensures forall k :: 0 <= k < |parts| ==> sep !in parts[k]
    ensures Join(parts, sep) == s
  {
    if s == [] then [""]
    else
      var rest := Split(s[1..], sep);
      if s[0] == sep then [""] + rest
      else
        assert s == [s[0]] + s[1..];
        [[s[0]] + rest[0]] + rest[1..]
  }

  /** Splitting text that begins with a separator-free `a` and then `sep`. */
  lemma {:induction false} SplitAfter(a: string, sep: char, t: string)
    requires sep !in a
    ensures Split(a + [sep] + t, sep) == [a] + Split(t, sep)
  {
    if a != [] {
      assert (a + [sep] + t)[1..] == a[1..] + [sep] + t;
      SplitAfter(a[1..], sep, t);
      assert [a[0]] + a[1..] == a;
    } else {
      assert a + [sep] + t == [sep] + t;
    }
  }

  lemma {:induction false} SplitNoSep(a: string, sep: char)
    requires sep !in a
    ensures Split(a, sep) == [a]
  {
    if a != [] {
      SplitNoSep(a[1..], sep);
      assert [a[0]] + a[1..] == a;
    }
  }

  /** Split undoes Join when no part holds the separator. */
  lemma {:induction false} SplitJoin(parts: seq<string>, sep: char)
    requires |parts| >= 1
    requires forall k :: 0 <= k < |parts| ==> sep !in parts[k]
    ensures Split(Join(parts, sep), sep) == parts
  {
    if |parts| == 1 {
      SplitNoSep(parts[0], sep);
    } else {
      SplitJoin(parts[1..], sep);
      SplitAfter(parts[0], sep, Join(parts[1..], sep));
      assert [parts[0]] + parts[1..] == parts;
    }
  }

  predicate IsDigit(c: char)
  {
    '0' <= c <= '9'
  }

  function DigitChar(d: nat): (c: char)
    requires d < 10
    ensures IsDigit(c)
  {
    ('0' as int + d) as char
  }

  function DigitValue(c: char): nat
    requires IsDigit(c)
  {
    c as int - '0' as int
  }

  /** Decimal rendering of a natural number, most significant digit first. */
  function NatToString(n: nat): (s: string)
    ensures |s| >= 1
    ensures forall k :: 0 <= k < |s| ==> IsDigit(s[k])
  {
    if n < 10 then [DigitChar(n)] else NatToString(n / 10) + [DigitChar(n % 10)]
  }

  /** One or more decimal digits without a leading zero (a lone "0" aside). */
  predicate CanonicalDigits(t: string)
  {
    |t| >= 1 && AllDigits(t) && (t[0] == '0' ==> |t| == 1)
  }

  /** The numerals arg(int) writes: canonical digits, with a '-' before a
      non-zero magnitude. */
  predicate Canonical(s: string)
  {
    CanonicalDigits(s) || (|s| >= 2 && s[0] == '-' && CanonicalDigits(s[1..]) && s[1] != '0')
  }

  /** QString::arg(int) with the default width and base: decimal, with a
      leading '-' for negative values and no '+' or leading zeros; toLong
      reads the number back. */
  function IntToString(i: int): (r: string)
    ensures |r| >= 1 && (r[0] == '-' <==> i < 0)
    ensures Canonical(r)
    ensures ParseLong(r) == Some(i)
  {
    if i < 0 then
      var s := "-" + NatToString(-i);
      assert s[1..] == NatToString(-i);
      NatToStringValue(-i);
      NatCanonical(-i);
      s
    else
      var s := NatToString(i);
      assert IsDigit(s[0]) && AllDigits(s);
      NatToStringValue(i);
      NatCanonical(i);
      s
  }

  /** Rendering a natural number never produces a leading zero. */
  lemma {:induction false} NatCanonical(n: nat)
    ensures CanonicalDigits(NatToString(n))
    ensures n >= 1 ==> NatToString(n)[0] != '0'
  {
    if n >= 10 {
      NatCanonical(n / 10);
      assert NatToString(n)[0] == NatToString(n / 10)[0];
    }
  }

  predicate AllDigits(s: string)
  {
    forall k :: 0 <= k < |s| ==> IsDigit(s[k])
  }

  function DigitsValue(s: string): nat
    requires AllDigits(s)
  {
    if s == [] then 0 else DigitsValue(s[..|s| - 1]) * 10 + DigitValue(s[|s| - 1])
  }

  /** QString::toLong(&ok, 10): an optional sign followed by at least one
      decimal digit; None where `ok` would be false. */
  function ParseLong(s: string): (r: Option<int>)
    ensures r.Some? <==> (|s| >= 1 && AllDigits(s)) ||
                         (|s| >= 2 && (s[0] == '-' || s[0] == '+') && AllDigits(s[1..]))
    ensures r.Some? && r.value < 0 ==> s[0] == '-'
  {
    if |s| >= 2 && s[0] == '-' && AllDigits(s[1..]) then Some(-(DigitsValue(s[1..]) as int))
    else if |s| >= 2 && s[0] == '+' && AllDigits(s[1..]) then Some(DigitsValue(s[1..]))
    else if |s| >= 1 && AllDigits(s) then Some(DigitsValue(s))
    else None
  }

  lemma {:induction false} NatToStringValue(n: nat)
    ensures DigitsValue(NatToString(n)) == n
  {
    var s := NatToString(n);
    if n >= 10 {
      NatToStringValue(n / 10);
      assert s[..|s| - 1] == NatToString(n / 10);
    }
  }

  /** Digits whose first one is not zero have a positive value. */
  lemma {:induction false} LeadingNonZero(t: string)
    requires |t| >= 1 && AllDigits(t) && t[0] != '0'
    ensures DigitsValue(t) >= 1
  {
    if |t| > 1 {
      var p := t[..|t| - 1];
      assert p[0] == t[0];
      LeadingNonZero(p);
    }
  }

  /** Canonical digits are exactly what rendering their value gives. */
  lemma {:induction false} DigitsRender(t: string)
    requires CanonicalDigits(t)
    ensures NatToString(DigitsValue(t)) == t
  {
    var last := t[|t| - 1];
    var d := DigitValue(last);
    assert DigitChar(d) == last;
    if |t| == 1 {
      assert DigitsValue(t[..0]) == 0;
    } else {
      var p := t[..|t| - 1];
      assert p[0] == t[0] != '0';
      LeadingNonZero(p);
      DigitsRender(p);
      var n := DigitsValue(t);
      assert n == DigitsValue(p) * 10 + d;
      assert n / 10 == DigitsValue(p) && n % 10 == d;
      assert t == p + [last];
    }
  }

  /** The reverse round trip: a canonical numeral parses to the number that
      arg(int) renders as that very numeral. */
  lemma ParseRender(s: string)
    requires Canonical(s)
    ensures ParseLong(s).Some? && IntToString(ParseLong(s).value) == s
  {
    if CanonicalDigits(s) {
      assert IsDigit(s[0]);
      DigitsRender(s);
    } else {
      var t := s[1..];
      LeadingNonZero(t);
      DigitsRender(t);
      assert s == "-" + t;
    }
  }
}
