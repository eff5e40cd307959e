/** The string primitives the program relies on: Python's str.strip(),
    str.split(","), str.isdigit(), int() and str() of an int. */
module Text {
  import opened Wrappers

  /** The characters str.isspace() accepts, hence the ones str.strip() removes. */
  predicate IsSpace(c: char) {
    ('\t' <= c <= '\r') || ('\U{001C}' <= c <= '\U{001F}') || c == ' ' ||
    c == '\U{0085}' || c == '\U{00A0}' || c == '\U{1680}' ||
    ('\U{2000}' <= c <= '\U{200A}') || c == '\U{2028}' || c == '\U{2029}' ||
    c == '\U{202F}' || c == '\U{205F}' || c == '\U{3000}'
  }

  predicate AllSpace(s: string) {
    forall k :: 0 <= k < |s| ==> IsSpace(s[k])
  }

  /** Where the text after the leading whitespace of `s` starts. */
  function StripStart(s: string): (lo: nat)
    ensures lo <= |s|
    ensures forall k :: 0 <= k < lo ==> IsSpace(s[k])
    ensures lo < |s| ==> !IsSpace(s[lo])
  {
    if s != [] && IsSpace(s[0]) then
      var lo := 1 + StripStart(s[1..]);
      assert forall k :: 1 <= k < lo ==> s[k] == s[1..][k - 1];
      lo
    else 0
  }

  /** Where the trailing whitespace of s[lo..hi] starts, given that s[hi..] is
      all whitespace. */
  function StripStop(s: string, lo: nat, hi: nat): (stop: nat)
    requires lo <= hi <= |s|
    requires forall k :: hi <= k < |s| ==> IsSpace(s[k])
    ensures lo <= stop <= hi
    ensures forall k :: stop <= k < |s| ==> IsSpace(s[k])
    ensures lo < stop ==> !IsSpace(s[stop - 1])
    decreases hi
  {
    if lo < hi && IsSpace(s[hi - 1]) then StripStop(s, lo, hi - 1) else hi
  }

  /** Python's s.strip(): the infix of `s` left after removing whitespace at both
      ends, so that it neither starts nor ends with whitespace. */
  function Strip(s: string): (r: string)
    ensures var lo := StripStart(s); var hi := StripStop(s, lo, |s|);
      r == s[lo..hi] && AllSpace(s[..lo]) && AllSpace(s[hi..])
    ensures r != [] ==> !IsSpace(r[0]) && !IsSpace(r[|r| - 1])
  {
    var lo := StripStart(s);
    s[lo..StripStop(s, lo, |s|)]
  }

  /** Stripping yields the empty string exactly when the whole string is whitespace. */
  lemma StripEmpty(s: string)
    ensures Strip(s) == [] <==> AllSpace(s)
  {
    var lo := StripStart(s);
    if Strip(s) != [] {
      assert s[lo] == Strip(s)[0];
    }
  }

  /** A string that does not start or end with whitespace is its own strip. */
  lemma StripNoEdgeSpace(s: string)
    requires s != [] ==> !IsSpace(s[0]) && !IsSpace(s[|s| - 1])
    ensures StripStart(s) == 0 && StripStop(s, 0, |s|) == |s|
    ensures Strip(s) == s
  {
  }

  /** Stripping twice is stripping once. */
  lemma StripIdempotent(s: string)
    ensures Strip(Strip(s)) == Strip(s)
  {
    StripNoEdgeSpace(Strip(s));
  }

  /** The number of occurrences of `c` in `s`. */
  function Count(s: string, c: char): nat {
    if s == [] then 0 else (if s[0] == c then 1 else 0) + Count(s[1..], c)
  }

  lemma {:induction false} CountAppend(a: string, b: string, c: char)
    ensures Count(a + b, c) == Count(a, c) + Count(b, c)
  {
    if a == [] {
      assert a + b == b;
    } else {
      assert (a + b)[0] == a[0] && (a + b)[1..] == a[1..] + b;
      CountAppend(a[1..], b, c);
    }
  }

  lemma {:induction false} CountInSpace(s: string, c: char)
    requires !IsSpace(c) && AllSpace(s)
    ensures Count(s, c) == 0
  {
    if s != [] {
      assert IsSpace(s[0]);
      assert AllSpace(s[1..]) by {
        forall k | 0 <= k < |s[1..]| ensures IsSpace(s[1..][k]) {
          assert s[1..][k] == s[k + 1];
        }
      }
      CountInSpace(s[1..], c);
    }
  }

  /** Stripping removes only whitespace, so it keeps every other character. */
  lemma StripKeeps(s: string, c: char)
    requires !IsSpace(c)
    ensures Count(Strip(s), c) == Count(s, c)
  {
    var lo := StripStart(s);
    var hi := StripStop(s, lo, |s|);
    var r := Strip(s);
    assert s == s[..lo] + (r + s[hi..]);
    CountBetweenSpace(s[..lo], r, s[hi..], c);
  }

  lemma CountBetweenSpace(a: string, r: string, b: string, c: char)
    requires AllSpace(a) && AllSpace(b) && !IsSpace(c)
    ensures Count(a + (r + b), c) == Count(r, c)
  {
    CountAppend(a, r + b, c);
    CountAppend(r, b, c);
    CountInSpace(a, c);
    CountInSpace(b, c);
  }

  /** Python's s.split(sep) with an explicit separator: every separator ends a
      segment, so empty segments are kept and there is always a segment. */
  function Split(s: string, sep: char): (parts: seq<string>)
    ensures |parts| == Count(s, sep) + 1
    ensures forall i :: 0 <= i < |parts| ==> sep !in parts[i]
    ensures Join(parts, sep) == s
  {
    if s == [] then [[]]
    else
      var rest := Split(s[1..], sep);
      assert s == [s[0]] + s[1..];
      if s[0] == sep then [[]] + rest
      else
        assert ([[s[0]] + rest[0]] + rest[1..])[1..] == rest[1..];
        [[s[0]] + rest[0]] + rest[1..]
  }

  /** The segments of a split put back together with the separator between them. */
  function Join(parts: seq<string>, sep: char): string
    requires |parts| > 0
  {
    if |parts| == 1 then parts[0] else parts[0] + [sep] + Join(parts[1..], sep)
  }

  lemma {:induction false} SplitPrefix(p: string, t: string, sep: char)
    requires sep !in p
    ensures Split(p + t, sep) == [p + Split(t, sep)[0]] + Split(t, sep)[1..]
  {
    if p == [] {
      assert p + t == t;
      var st := Split(t, sep);
      assert p + st[0] == st[0];
      assert st == [st[0]] + st[1..];
    } else {
      var st := Split(t, sep);
      assert p + t == [p[0]] + (p[1..] + t);
      SplitPrefix(p[1..], t, sep);
      var rest := Split(p[1..] + t, sep);
      assert rest[0] == p[1..] + st[0] && rest[1..] == st[1..];
      SplitLead(p[0], p[1..] + t, sep);
      assert [p[0]] + (p[1..] + st[0]) == p + st[0];
    }
  }

  lemma SplitLead(c: char, t: string, sep: char)
    requires c != sep
    ensures Split([c] + t, sep) == [[c] + Split(t, sep)[0]] + Split(t, sep)[1..]
  {
    var u := [c] + t;
    assert u[0] == c && u[1..] == t;
  }

  lemma SplitSepLead(t: string, sep: char)
    ensures Split([sep] + t, sep) == [[]] + Split(t, sep)
  {
    var u := [sep] + t;
    assert u[0] == sep && u[1..] == t;
  }

  /** Splitting is the inverse of joining segments that hold no separator, so
      Split is characterized by the three facts in its own contract. */
  lemma {:induction false} SplitJoin(parts: seq<string>, sep: char)
    requires |parts| > 0
    requires forall i :: 0 <= i < |parts| ==> sep !in parts[i]
    ensures Split(Join(parts, sep), sep) == parts
  {
    var p := parts[0];
    if |parts| == 1 {
      SplitPrefix(p, [], sep);
      assert p + [] == p;
      assert Split(p, sep) == [p + []];
    } else {
      var tail := parts[1..];
      var j := Join(tail, sep);
      SplitJoin(tail, sep);
      SplitSepLead(j, sep);
      var u := [sep] + j;
      var su := Split(u, sep);
      assert su[0] == [] && su[1..] == tail;
      SplitPrefix(p, u, sep);
      assert p + su[0] == p;
      assert Join(parts, sep) == p + u;
      assert parts == [p] + tail;
    }
  }

  // ---- digits ---------------------------------------------------------------

  predicate IsDigit(c: char) {
    '0' <= c <= '9'
  }

  /** Python's s.isdigit(), restricted to ASCII digits: false on "". */
  predicate IsDigits(s: string) {
    |s| > 0 && forall k :: 0 <= k < |s| ==> IsDigit(s[k])
  }

  function DigitValue(c: char): nat
    requires IsDigit(c)
  {
    c as int - '0' as int
  }

  function DigitChar(d: nat): (c: char)
    requires d < 10
    ensures IsDigit(c) && DigitValue(c) == d
  {
    ('0' as int + d) as char
  }

  /** The value of a string of decimal digits, most significant first. */
  function DigitsValue(s: string): nat
    requires forall k :: 0 <= k < |s| ==> IsDigit(s[k])
  {
    if s == [] then 0 else DigitsValue(s[..|s| - 1]) * 10 + DigitValue(s[|s| - 1])
  }

  /** Python's str(n) for n >= 0: decimal digits without leading zeros whose value is n. */
  function NatToString(n: nat): (r: string)
    ensures IsDigits(r)
    ensures DigitsValue(r) == n
    ensures r[0] == '0' ==> r == "0"
  {
    if n < 10 then [DigitChar(n)]
    else
      var r := NatToString(n / 10) + [DigitChar(n % 10)];
      assert r[..|r| - 1] == NatToString(n / 10);
      r
  }

  /** Decimal digits without leading zeros are printed back as themselves. */
  lemma {:induction false} NatToStringOfDigits(s: string)
    requires IsDigits(s) && (s[0] == '0' ==> s == "0")
    ensures NatToString(DigitsValue(s)) == s
  {
    var n := DigitsValue(s);
    if |s| == 1 {
      assert s[..0] == [];
      assert DigitsValue(s[..0]) == 0;
      assert n == DigitValue(s[0]);
      assert [DigitChar(n)] == s;
    } else {
      var init := s[..|s| - 1];
      assert IsDigits(init) && init[0] == s[0];
      DigitsValueNonZeroLead(init);
      NatToStringOfDigits(init);
      assert n / 10 == DigitsValue(init) && n % 10 == DigitValue(s[|s| - 1]);
      assert s == init + [s[|s| - 1]];
    }
  }

  lemma {:induction false} DigitsValueNonZeroLead(s: string)
    requires IsDigits(s) && s[0] != '0'
    ensures DigitsValue(s) >= 1
  {
    if |s| > 1 {
      var init := s[..|s| - 1];
      assert init[0] == s[0];
      DigitsValueNonZeroLead(init);
    }
  }

  /** Python's str(n) for any integer: a minus sign exactly for a negative n,
      then the decimal digits of its magnitude. */
  function IntToString(n: int): (r: string)
    ensures n >= 0 ==> IsDigits(r) && DigitsValue(r) == n
    ensures n < 0 ==> |r| > 1 && r[0] == '-' && IsDigits(r[1..]) && DigitsValue(r[1..]) == -n
  {
    if n < 0 then
      var d := NatToString(-n);
      assert ("-" + d)[1..] == d;
      "-" + d
    else NatToString(n)
  }

  // ---- int() --------------------------------------------------------------

  /** The digit strings int() accepts after the sign: digits, with single
      underscores allowed between two digits. */
  predicate IsDecimalLiteral(t: string) {
    |t| > 0 && IsDigit(t[0]) && IsDigit(t[|t| - 1]) &&
    (forall k :: 0 <= k < |t| ==> IsDigit(t[k]) || t[k] == '_') &&
    NoDoubleUnderscore(t)
  }

  /** Of any two neighbouring characters of `t`, at least one is a digit. */
  predicate NoDoubleUnderscore(t: string) {
    |t| < 2 || ((IsDigit(t[0]) || IsDigit(t[1])) && NoDoubleUnderscore(t[1..]))
  }

  lemma {:induction false} DigitsNoDoubleUnderscore(t: string)
    requires forall k :: 0 <= k < |t| ==> IsDigit(t[k])
    ensures NoDoubleUnderscore(t)
  {
    if |t| >= 2 {
      assert forall k :: 0 <= k < |t[1..]| ==> t[1..][k] == t[k + 1];
      DigitsNoDoubleUnderscore(t[1..]);
    }
  }

  /** `t` with its grouping underscores dropped. */
  function DropUnderscores(t: string): (r: string)
    requires forall k :: 0 <= k < |t| ==> IsDigit(t[k]) || t[k] == '_'
    ensures forall k :: 0 <= k < |r| ==> IsDigit(r[k])
    ensures |r| <= |t|
  {
    if t == [] then []
    else if t[0] == '_' then DropUnderscores(t[1..])
    else [t[0]] + DropUnderscores(t[1..])
  }

  /** The ASCII information separators U+001C..U+001F: str.isspace() accepts
      them, but int() does not skip them as whitespace. */
  predicate IsSeparator(c: char) {
    '\U{001C}' <= c <= '\U{001F}'
  }

  predicate NoSeparator(s: string) {
    forall k :: 0 <= k < |s| ==> !IsSeparator(s[k])
  }

  /** Python's int(s) in base 10: surrounding whitespace is ignored, one optional
      sign, then a decimal literal; None where Python raises ValueError. The
      whitespace int() skips is str.strip()'s without the separators. */
  function ParseInt(s: string): Option<int> {
    if EdgesClear(s) then ParseSigned(Strip(s)) else None
  }

  /** The whitespace str.strip() removes from `s` holds no separator. */
  predicate EdgesClear(s: string) {
    var lo := StripStart(s);
    NoSeparator(s[..lo]) && NoSeparator(s[StripStop(s, lo, |s|)..])
  }

  /** int() on text without surrounding whitespace: one optional sign, then a
      decimal literal. */
  function ParseSigned(t: string): Option<int> {
    if |t| > 0 && (t[0] == '+' || t[0] == '-') then
      var u := t[1..];
      if IsDecimalLiteral(u) then
        var v: int := DigitsValue(DropUnderscores(u));
        Some(if t[0] == '-' then -v else v)
      else None
    else if IsDecimalLiteral(t) then Some(DigitsValue(DropUnderscores(t)))
    else None
  }

  lemma DropUnderscoresOfDigits(t: string)
    requires forall k :: 0 <= k < |t| ==> IsDigit(t[k])
    ensures DropUnderscores(t) == t
  {
    if t != [] {
      DropUnderscoresOfDigits(t[1..]);
    }
  }

  /** A string of ASCII digits is read by int() as its decimal value; this is
      update_status's isdigit-then-int path. */
  lemma ParseIntOfDigits(s: string)
    requires IsDigits(s)
    ensures ParseInt(s) == Some(DigitsValue(s))
  {
    ParseIntOfTrimmed(s);
    DigitsAreLiteral(s);
  }

  /** Text without surrounding whitespace is read as it stands. */
  lemma ParseIntOfTrimmed(s: string)
    requires s != [] ==> !IsSpace(s[0]) && !IsSpace(s[|s| - 1])
    ensures ParseInt(s) == ParseSigned(s)
  {
    StripNoEdgeSpace(s);
    assert s[..0] == [] && s[|s|..] == [];
  }

  /** int(str(n)) == n for every integer n: the round trip the saved done column needs. */
  lemma ParseIntOfIntToString(n: int)
    ensures ParseInt(IntToString(n)) == Some(n)
  {
    if n >= 0 {
      ParseIntOfDigits(NatToString(n));
    } else {
      var digits := NatToString(-n);
      var s := "-" + digits;
      assert IntToString(n) == s;
      assert s[1..] == digits;
      ParseIntOfNegative(s);
    }
  }

  /** A minus sign followed by ASCII digits is read as the negated value. */
  lemma ParseIntOfNegative(t: string)
    requires |t| > 1 && t[0] == '-' && IsDigits(t[1..])
    ensures ParseInt(t) == Some(-(DigitsValue(t[1..]) as int))
  {
    assert IsDigit(t[|t| - 1]) by { assert t[|t| - 1] == t[1..][|t| - 2]; }
    ParseIntOfTrimmed(t);
    DigitsAreLiteral(t[1..]);
    ParseSignedNegative(t);
  }

  lemma ParseSignedNegative(t: string)
    requires |t| > 0 && t[0] == '-' && IsDecimalLiteral(t[1..])
    ensures ParseSigned(t) == Some(-(DigitsValue(DropUnderscores(t[1..])) as int))
  {
  }

  lemma DigitsAreLiteral(s: string)
    requires IsDigits(s)
    ensures IsDecimalLiteral(s) && DropUnderscores(s) == s
  {
    DigitsNoDoubleUnderscore(s);
    DropUnderscoresOfDigits(s);
  }

  /** int() rejects anything that holds no digit at all, "" and whitespace among them. */
  lemma ParseIntNeedsDigit(s: string)
    requires forall k :: 0 <= k < |s| ==> !IsDigit(s[k])
    ensures ParseInt(s).None?
  {
    var t := Strip(s);
    assert ParseInt(s) == None || ParseInt(s) == ParseSigned(t);
    var lo := StripStart(s);
    if |t| > 0 {
      assert t[|t| - 1] == s[lo + |t| - 1];
      if |t| > 1 {
        assert t[1..][|t| - 2] == s[lo + |t| - 1];
      }
    }
  }

  /** A field that starts or ends with a separator is rejected, although
      str.strip() would remove that separator. */
  lemma ParseIntRejectsSeparator(s: string)
    requires s != [] && (IsSeparator(s[0]) || IsSeparator(s[|s| - 1]))
    ensures ParseInt(s).None?
  {
    var lo := StripStart(s);
    var hi := StripStop(s, lo, |s|);
    if IsSeparator(s[0]) {
      assert s[..lo][0] == s[0];
    } else if hi < |s| {
      assert s[hi..][|s| - 1 - hi] == s[|s| - 1];
    } else {
      assert s[..lo][|s| - 1] == s[|s| - 1];
    }
  }

  /** A done field "\U{001C}1" is rejected. */
  lemma ParseIntSeparatorExample()
    ensures ParseInt("\U{001C}1") == None
  {
    ParseIntRejectsSeparator("\U{001C}1");
  }

  /** Tabs and newlines around the digits are skipped: "\t7\n" is read as 7. */
  lemma ParseIntSpaceExample()
    ensures ParseInt("\t7\n") == Some(7)
  {
    var s := "\t7\n";
    assert StripStart(s) == 1 by { assert StripStart(s[1..]) == 0; }
    assert StripStop(s, 1, 3) == 2;
    assert s[..1] == "\t" && s[2..] == "\n";
    assert EdgesClear(s);
    assert Strip(s) == "7";
    ParseIntOfTrimmed("7");
    ParseIntOfDigits("7");
  }

  // ---- sequences ------------------------------------------------------------

  /** A prefix one longer is the prefix and the next element. */
  lemma TakeOneMore<T>(s: seq<T>, i: nat)
    requires i < |s|
    ensures s[..i + 1] == s[..i] + [s[i]]
  {
  }
}
