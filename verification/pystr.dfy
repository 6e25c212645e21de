/** The few pieces of Python's `str` and `int` behaviour the protocol code
    relies on: `strip()`, `split(c)`, the `in` substring test, `int(s)` and
    the decimal rendering of an `int` inside an f-string. Messages are ASCII
    text, so only ASCII whitespace and ASCII digits are modelled. */
module PyStr {
  import opened Wrappers

  /** The Python exceptions the modelled code can raise. */
  datatype Exception = IndexError | ValueError

  // ---------------------------------------------------------------------------
  // Whitespace, str.strip() and the whitespace int() skips
  // ---------------------------------------------------------------------------

  /** Which characters count as whitespace. `str.strip()` removes what
      `str.isspace()` accepts; `int()` on an ASCII string skips only tab,
      line feed, vertical tab, form feed, carriage return and space. */
  datatype Blanks = StrBlanks | IntBlanks

  /** The four ASCII information separators 0x1c-0x1f: whitespace to
      `str.isspace()`, but not to `int()`. */
  predicate IsInfoSeparator(c: char) {
    28 <= c as int <= 31
  }

  predicate IsBlank(b: Blanks, c: char) {
    var x := c as int;
    (9 <= x <= 13) || x == 32 || (b == StrBlanks && IsInfoSeparator(c))
  }

  predicate AllBlank(b: Blanks, s: string) {
    forall i :: 0 <= i < |s| ==> IsBlank(b, s[i])
  }

  /** No whitespace at either end. */
  predicate TrimmedBy(b: Blanks, s: string) {
    s == [] || (!IsBlank(b, s[0]) && !IsBlank(b, s[|s| - 1]))
  }

  /** Removes the longest whitespace prefix. */
  function LStrip(b: Blanks, s: string): (r: string)
    ensures |r| <= |s| && r == s[|s| - |r|..]
    ensures forall k :: 0 <= k < |s| - |r| ==> IsBlank(b, s[k])
    ensures r == [] || !IsBlank(b, r[0])
  {
    if |s| > 0 && IsBlank(b, s[0]) then LStrip(b, s[1..]) else s
  }

  /** Removes the longest whitespace suffix. */
  function RStrip(b: Blanks, s: string): (r: string)
    ensures |r| <= |s| && r == s[..|r|]
    ensures forall k :: |r| <= k < |s| ==> IsBlank(b, s[k])
    ensures r == [] || !IsBlank(b, r[|r| - 1])
  {
    if |s| > 0 && IsBlank(b, s[|s| - 1]) then RStrip(b, s[..|s| - 1]) else s
  }

  /** Removes whitespace from both ends. */
  function Trim(b: Blanks, s: string): (r: string)
    ensures TrimmedBy(b, r)
    ensures |r| <= |s|
    ensures r == [] ==> AllBlank(b, s)
  {
    LStrip(b, RStrip(b, s))
  }

  /** Python's `s.strip()` with no argument. */
  function Strip(s: string): (r: string)
    ensures TrimmedBy(StrBlanks, r)
    ensures |r| <= |s|
    ensures r == [] ==> AllBlank(StrBlanks, s)
  {
    Trim(StrBlanks, s)
  }

  /** Trimming keeps a contiguous middle part of the input and drops only
      whitespace on either side of it. */
  lemma TrimDecompose(b: Blanks, s: string) returns (i: nat, j: nat)
    ensures i <= j <= |s|
    ensures Trim(b, s) == s[i..j]
    ensures forall k :: 0 <= k < i ==> IsBlank(b, s[k])
    ensures forall k :: j <= k < |s| ==> IsBlank(b, s[k])
  {
    var m := RStrip(b, s);
    j := |m|;
    i := |m| - |LStrip(b, m)|;
    assert m == s[..j];
    assert m[i..] == s[i..j];
    forall k | 0 <= k < i
      ensures IsBlank(b, s[k])
    {
      assert m[k] == s[k];
    }
  }

  /** The same decomposition as whitespace pieces around the trimmed text. */
  lemma TrimPadding(b: Blanks, s: string) returns (w1: string, w2: string)
    ensures AllBlank(b, w1) && AllBlank(b, w2)
    ensures s == w1 + Trim(b, s) + w2
  {
    var i, j := TrimDecompose(b, s);
    w1, w2 := s[..i], s[j..];
    SliceThree(s, i, j);
  }

  /** On a text without the information separators, the whitespace
      `strip()` removes after the kept slice is whitespace to `int()` too. */
  lemma StripPaddingForInt(s: string) returns (w1: string, w2: string)
    requires forall k :: 0 <= k < |s| ==> !IsInfoSeparator(s[k])
    ensures AllBlank(StrBlanks, w1) && AllBlank(IntBlanks, w2)
    ensures s == w1 + Strip(s) + w2
  {
    var i, j := TrimDecompose(StrBlanks, s);
    w1, w2 := s[..i], s[j..];
    SliceThree(s, i, j);
    forall k | 0 <= k < |w2|
      ensures IsBlank(IntBlanks, w2[k])
    {
      assert w2[k] == s[j + k];
    }
  }

  lemma SliceThree(s: string, i: nat, j: nat)
    requires i <= j <= |s|
    ensures s == s[..i] + s[i..j] + s[j..]
  {
    assert s[..j] == s[..i] + s[i..j];
    assert s == s[..j] + s[j..];
  }

  /** A character that is not whitespace occurs in the trimmed text exactly
      when it occurs in the input. */
  lemma TrimKeepsVisible(b: Blanks, s: string, c: char)
    requires !IsBlank(b, c)
    ensures c in Trim(b, s) <==> c in s
  {
    var i, j := TrimDecompose(b, s);
    VisibleInSlice(b, s, i, j, c);
  }

  lemma VisibleInSlice(b: Blanks, s: string, i: nat, j: nat, c: char)
    requires i <= j <= |s| && !IsBlank(b, c)
    requires forall k :: 0 <= k < i ==> IsBlank(b, s[k])
    requires forall k :: j <= k < |s| ==> IsBlank(b, s[k])
    ensures c in s[i..j] <==> c in s
  {
    if c in s {
      var k :| 0 <= k < |s| && s[k] == c;
      assert s[i..j][k - i] == c;
    }
  }

  /** Whitespace appended to a string does not survive stripping. */
  lemma {:induction false} RStripAppendBlank(b: Blanks, s: string, w: string)
    requires AllBlank(b, w)
    ensures RStrip(b, s + w) == RStrip(b, s)
    decreases |w|
  {
    if |w| > 0 {
      var w' := w[..|w| - 1];
      assert (s + w)[..|s + w| - 1] == s + w';
      RStripAppendBlank(b, s, w');
    } else {
      assert s + w == s;
    }
  }

  lemma {:induction false} LStripPrependBlank(b: Blanks, w: string, s: string)
    requires AllBlank(b, w)
    ensures LStrip(b, w + s) == LStrip(b, s)
    decreases |w|
  {
    if |w| > 0 {
      assert (w + s)[1..] == w[1..] + s;
      LStripPrependBlank(b, w[1..], s);
    } else {
      assert w + s == s;
    }
  }

  /** Trimming is the inverse of padding a trimmed string with whitespace. */
  lemma TrimPadded(b: Blanks, w1: string, t: string, w2: string)
    requires AllBlank(b, w1) && AllBlank(b, w2) && TrimmedBy(b, t)
    ensures Trim(b, w1 + t + w2) == t
  {
    RStripAppendBlank(b, w1 + t, w2);
    if t == [] {
      assert w1 + t == w1;
      assert RStrip(b, w1) == [];
    } else {
      assert RStrip(b, w1 + t) == w1 + t;
      LStripPrependBlank(b, w1, t);
    }
  }

  /** Trimming a trimmed text changes nothing. */
  lemma TrimTrimmed(b: Blanks, t: string)
    requires TrimmedBy(b, t)
    ensures Trim(b, t) == t
  {
    TrimPadded(b, [], t, []);
    assert [] + t + [] == t;
  }

  /** Trailing whitespace does not change the trimmed text. */
  lemma TrimAppendBlank(b: Blanks, s: string, w: string)
    requires AllBlank(b, w)
    ensures Trim(b, s + w) == Trim(b, s)
  {
    RStripAppendBlank(b, s, w);
  }

  /** Whitespace contains no character that is not whitespace. */
  lemma BlankLacks(b: Blanks, w: string, c: char)
    requires AllBlank(b, w) && !IsBlank(b, c)
    ensures c !in w
  {
  }

  // ---------------------------------------------------------------------------
  // str.split(c) and its inverse c.join(parts)
  // ---------------------------------------------------------------------------

  /** `sep.join(parts)` for a one-character separator. */
  function Join(parts: seq<string>, sep: char): (r: string)
    requires |parts| >= 1
    ensures |parts| > 1 ==> sep in r
    ensures parts[0] <= r
  {
    if |parts| == 1 then parts[0]
    else parts[0] + [sep] + Join(parts[1..], sep)
  }

  /** Python's `s.split(sep)` for a one-character separator: the pieces
      between separators, always at least one (`"".split(sep) == [""]`). */
  function Split(s: string, sep: char): (r: seq<string>)
    ensures |r| >= 1
    ensures forall i :: 0 <= i < |r| ==> sep !in r[i]
    ensures sep in s <==> |r| > 1
    ensures r[0] <= s
    decreases |s|
  {
    if |s| == 0 then [""]
    else
      var rest := Split(s[1..], sep);
      if s[0] == sep then [""] + rest
      else [[s[0]] + rest[0]] + rest[1..]
  }

  /** A join is its first piece followed by nothing or by the separator. */
  lemma JoinHead(parts: seq<string>, sep: char) returns (after: string)
    requires |parts| >= 1
    ensures Join(parts, sep) == parts[0] + after
    ensures after == [] || after[0] == sep
  {
    if |parts| == 1 {
      after := [];
    } else {
      after := [sep] + Join(parts[1..], sep);
    }
  }

  /** Round trip: joining the pieces of a split gives the string back. */
  lemma {:induction false} JoinSplit(s: string, sep: char)
    ensures Join(Split(s, sep), sep) == s
    decreases |s|
  {
    if |s| > 0 {
      var rest := Split(s[1..], sep);
      JoinSplit(s[1..], sep);
      var r := Split(s, sep);
      if s[0] == sep {
        assert r == [""] + rest;
        assert r[1..] == rest;
      } else {
        assert r == [[s[0]] + rest[0]] + rest[1..];
        JoinPrependFirst(rest, [s[0]], sep);
      }
      assert s == [s[0]] + s[1..];
    }
  }

  /** A string without the separator is a single piece. */
  lemma {:induction false} SplitNoSep(a: string, sep: char)
    requires sep !in a
    ensures Split(a, sep) == [a]
  {
    JoinSplit(a, sep);
  }

  /** Splitting at the first separator peels off the piece before it. */
  lemma {:induction false} SplitAtSep(a: string, b: string, sep: char)
    requires sep !in a
    ensures Split(a + [sep] + b, sep) == [a] + Split(b, sep)
    decreases |a|
  {
    var s := a + [sep] + b;
    if |a| == 0 {
      assert s[1..] == b;
    } else {
      assert s[1..] == a[1..] + [sep] + b;
      SplitAtSep(a[1..], b, sep);
      assert [a[0]] + a[1..] == a;
    }
  }

  /** Round trip: splitting a join of separator-free pieces gives the pieces
      back (the contract of `Split` gives the other direction). */
  lemma {:induction false} SplitJoin(parts: seq<string>, sep: char)
    requires |parts| >= 1
    requires forall i :: 0 <= i < |parts| ==> sep !in parts[i]
    ensures Split(Join(parts, sep), sep) == parts
    decreases |parts|
  {
    if |parts| == 1 {
      SplitNoSep(parts[0], sep);
    } else {
      SplitJoin(parts[1..], sep);
      SplitAtSep(parts[0], Join(parts[1..], sep), sep);
      assert [parts[0]] + parts[1..] == parts;
    }
  }

  /** Appending to the last piece appends to the joined string. */
  lemma {:induction false} JoinAppendLast(parts: seq<string>, w: string, sep: char)
    requires |parts| >= 1
    ensures Join(parts[..|parts| - 1] + [parts[|parts| - 1] + w], sep) == Join(parts, sep) + w
    decreases |parts|
  {
    var n := |parts|;
    var q := parts[..n - 1] + [parts[n - 1] + w];
    if n > 1 {
      JoinAppendLast(parts[1..], w, sep);
      assert q[1..] == parts[1..][..n - 2] + [parts[1..][n - 2] + w];
      calc {
        Join(q, sep);
        q[0] + [sep] + Join(q[1..], sep);
        parts[0] + [sep] + (Join(parts[1..], sep) + w);
        Join(parts, sep) + w;
      }
    } else {
      assert q == [parts[0] + w];
    }
  }

  /** A separator-free prefix lands in the first piece. */
  lemma SplitPrepend(w: string, s: string, sep: char)
    requires sep !in w
    ensures Split(w + s, sep) == [w + Split(s, sep)[0]] + Split(s, sep)[1..]
  {
    var p := Split(s, sep);
    var q := [w + p[0]] + p[1..];
    JoinPrependFirst(p, w, sep);
    JoinSplit(s, sep);
    assert forall i :: 0 <= i < |q| ==> sep !in q[i] by {
      forall i | 0 <= i < |q|
        ensures sep !in q[i]
      {
        if i > 0 {
          assert q[i] == p[i];
        }
      }
    }
    SplitJoin(q, sep);
  }

  /** Prepending to the first piece prepends to the joined string. */
  lemma JoinPrependFirst(parts: seq<string>, w: string, sep: char)
    requires |parts| >= 1
    ensures Join([w + parts[0]] + parts[1..], sep) == w + Join(parts, sep)
  {
    var q := [w + parts[0]] + parts[1..];
    if |parts| > 1 {
      assert q[1..] == parts[1..];
    }
  }

  /** A separator-free suffix lands in the last piece. */
  lemma SplitAppend(s: string, w: string, sep: char)
    requires sep !in w
    ensures var p := Split(s, sep);
      Split(s + w, sep) == p[..|p| - 1] + [p[|p| - 1] + w]
  {
    var p := Split(s, sep);
    var n := |p|;
    var q := p[..n - 1] + [p[n - 1] + w];
    JoinSplit(s, sep);
    JoinAppendLast(p, w, sep);
    assert forall i :: 0 <= i < |q| ==> sep !in q[i] by {
      forall i | 0 <= i < |q|
        ensures sep !in q[i]
      {
        if i < n - 1 {
          assert q[i] == p[i];
        }
      }
    }
    SplitJoin(q, sep);
  }

  // ---------------------------------------------------------------------------
  // The `in` operator on strings
  // ---------------------------------------------------------------------------

  predicate OccursAt(s: string, t: string, i: int) {
    0 <= i && i + |t| <= |s| && s[i..i + |t|] == t
  }

  /** Python's `t in s` for strings: a scan from the left for a position
      where `t` starts. It holds exactly when `t` occurs somewhere in `s`. */
  function Contains(s: string, t: string): (r: bool)
    ensures r <==> exists i :: 0 <= i <= |s| - |t| && OccursAt(s, t, i)
    decreases |s|
  {
    if |t| > |s| then false
    else if s[..|t|] == t then
      assert OccursAt(s, t, 0);
      true
    else
      ShiftOccurrence(s, t);
      Contains(s[1..], t)
  }

  /** Past the first position, the occurrences in `s` are those in `s[1..]`
      moved one place on. */
  lemma ShiftOccurrence(s: string, t: string)
    requires |t| <= |s| && s[..|t|] != t
    ensures (exists i :: 0 <= i <= |s| - |t| && OccursAt(s, t, i)) <==>
            (exists i :: 0 <= i <= |s| - 1 - |t| && OccursAt(s[1..], t, i))
  {
    forall i | 0 <= i <= |s| - 1 - |t|
      ensures OccursAt(s[1..], t, i) <==> OccursAt(s, t, i + 1)
    {
      assert s[1..][i..i + |t|] == s[i + 1..i + 1 + |t|];
    }
    if exists i :: 0 <= i <= |s| - |t| && OccursAt(s, t, i) {
      var i :| 0 <= i <= |s| - |t| && OccursAt(s, t, i);
      assert i != 0;
      assert OccursAt(s[1..], t, i - 1);
    }
  }

  /** An occurrence inside a slice is an occurrence in the whole string. */
  lemma ContainsInSlice(s: string, i: nat, j: nat, t: string)
    requires i <= j <= |s| && Contains(s[i..j], t)
    ensures Contains(s, t)
  {
    var m := s[i..j];
    var p :| 0 <= p <= |m| - |t| && OccursAt(m, t, p);
    forall k | 0 <= k < |t|
      ensures s[i + p + k] == t[k]
    {
      assert t[k] == m[p..p + |t|][k] == m[p + k];
    }
    assert s[i + p..i + p + |t|] == t;
    assert OccursAt(s, t, i + p);
  }

  /** An occurrence whose ends are not whitespace cannot reach into the
      whitespace around a slice, so it is an occurrence in the slice. */
  lemma ContainsOutsideSpace(s: string, i: nat, j: nat, t: string)
    requires i <= j <= |s|
    requires forall k :: 0 <= k < i ==> IsBlank(StrBlanks, s[k])
    requires forall k :: j <= k < |s| ==> IsBlank(StrBlanks, s[k])
    requires |t| > 0 && TrimmedBy(StrBlanks, t) && Contains(s, t)
    ensures Contains(s[i..j], t)
  {
    var p :| 0 <= p <= |s| - |t| && OccursAt(s, t, p);
    assert t[0] == s[p];
    assert t[|t| - 1] == s[p + |t| - 1];
    assert i <= p;
    assert p + |t| <= j;
    var m := s[i..j];
    forall k | 0 <= k < |t|
      ensures m[p - i + k] == t[k]
    {
      assert t[k] == s[p..p + |t|][k] == s[p + k];
    }
    assert m[p - i..p - i + |t|] == t;
    assert OccursAt(m, t, p - i);
  }

  /** A word with no whitespace at either end occurs in a string exactly when
      it occurs in the stripped string. */
  lemma ContainsStrip(s: string, t: string)
    requires |t| > 0 && TrimmedBy(StrBlanks, t)
    ensures Contains(Strip(s), t) <==> Contains(s, t)
  {
    var i, j := TrimDecompose(StrBlanks, s);
    if Contains(Strip(s), t) {
      ContainsInSlice(s, i, j, t);
    }
    if Contains(s, t) {
      ContainsOutsideSpace(s, i, j, t);
    }
  }

  /** A text occurs in anything it ends. */
  lemma ContainsSuffix(a: string, t: string)
    ensures Contains(a + t, t)
  {
    assert (a + t)[|a|..|a| + |t|] == t;
    assert OccursAt(a + t, t, |a|);
  }

  /** A word cannot occur in a string that lacks one of its characters. */
  lemma NotContainsMissingChar(s: string, t: string, k: nat)
    requires k < |t| && t[k] !in s
    ensures !Contains(s, t)
  {
  }

  // ---------------------------------------------------------------------------
  // int(s) and str(n)
  // ---------------------------------------------------------------------------

  predicate IsDigit(c: char) {
    '0' <= c <= '9'
  }

  /** The digit body `int()` accepts in base 10: ASCII digits, with single
      underscores allowed between two digits. */
  predicate IsDigitRun(d: string) {
    && |d| > 0
    && IsDigit(d[0])
    && forall i :: 0 <= i < |d| ==> IsDigit(d[i]) || (d[i] == '_' && DigitFollows(d, i))
  }

  /** Position `i` of `d` is followed by a digit. */
  predicate DigitFollows(d: string, i: int) {
    0 <= i && i + 1 < |d| && IsDigit(d[i + 1])
  }

  /** The value of a digit run, underscores ignored. */
  function DigitsValue(d: string): nat {
    if |d| == 0 then 0
    else if d[|d| - 1] == '_' then DigitsValue(d[..|d| - 1])
    else 10 * DigitsValue(d[..|d| - 1]) + DigitValue(d[|d| - 1])
  }

  function DigitValue(c: char): nat {
    if IsDigit(c) then (c as int) - ('0' as int) else 0
  }

  function DigitChar(k: nat): (c: char)
    requires k < 10
    ensures IsDigit(c) && DigitValue(c) == k
  {
    ('0' as int + k) as char
  }

  /** Python's `int(s)` in base 10: surrounding whitespace of the kind
      `int()` skips, an optional sign, then a digit run; anything else raises
      `ValueError`. */
  function ParseInt(s: string): (r: Result<int, Exception>)
    ensures r.Err? ==> r.error == ValueError
  {
    ParseTrimmed(Trim(IntBlanks, s))
  }

  /** The sign-and-digits part of `int()`, after whitespace is gone. */
  function ParseTrimmed(t: string): (r: Result<int, Exception>)
    ensures r.Err? ==> r.error == ValueError
  {
    var negative := |t| > 0 && t[0] == '-';
    var body := if |t| > 0 && (t[0] == '+' || t[0] == '-') then t[1..] else t;
    if !IsDigitRun(body) then Err(ValueError)
    else
      var v: int := DigitsValue(body);
      Ok(if negative then -v else v)
  }

  /** `int()` of a string without a single digit raises `ValueError`. */
  lemma ParseIntNeedsDigit(s: string)
    requires forall i :: 0 <= i < |s| ==> !IsDigit(s[i])
    ensures ParseInt(s) == Err(ValueError)
  {
    var i, j := TrimDecompose(IntBlanks, s);
    var t := Trim(IntBlanks, s);
    var body := if |t| > 0 && (t[0] == '+' || t[0] == '-') then t[1..] else t;
    if |body| > 0 {
      var k := |t| - |body|;
      assert body[0] == t[k] == s[i + k];
    }
    assert !IsDigitRun(body);
  }

  /** `str(n)` for a natural number: the canonical decimal form. */
  function ShowNat(n: nat): (r: string)
    ensures |r| > 0
    ensures forall i :: 0 <= i < |r| ==> IsDigit(r[i])
    ensures r[0] == '0' ==> n == 0
    ensures DigitsValue(r) == n
  {
    if n < 10 then [DigitChar(n)]
    else
      var p := ShowNat(n / 10);
      var r := p + [DigitChar(n % 10)];
      assert r[..|r| - 1] == p;
      r
  }

  /** `str(i)` for any integer: a minus sign before the digits of a
      negative number. */
  function ShowInt(i: int): (r: string)
    ensures |r| > 0 && TrimmedBy(StrBlanks, r) && TrimmedBy(IntBlanks, r)
    ensures forall k :: 0 <= k < |r| ==> IsDigit(r[k]) || (k == 0 && r[k] == '-')
    ensures r[0] == '-' <==> i < 0
  {
    if i < 0 then "-" + ShowNat(-i) else ShowNat(i)
  }

  /** The rendering of an integer holds nothing but digits and a sign. */
  lemma ShowIntLacks(i: int, c: char)
    requires !IsDigit(c) && c != '-'
    ensures c !in ShowInt(i)
  {
  }

  /** Round trip: `int(str(i)) == i` for every integer. */
  lemma ParseShowInt(i: int)
    ensures ParseInt(ShowInt(i)) == Ok(i)
  {
    var r := ShowInt(i);
    TrimTrimmed(IntBlanks, r);
    if i < 0 {
      var d := ShowNat(-i);
      assert r == "-" + d;
      ShowNatIsDigitRun(-i);
      ParseNegative(d);
    } else {
      ShowNatIsDigitRun(i);
      ParseDigits(ShowNat(i));
    }
  }

  lemma ShowNatIsDigitRun(n: nat)
    ensures IsDigitRun(ShowNat(n))
  {
  }

  lemma ParseDigits(d: string)
    requires IsDigitRun(d)
    ensures ParseTrimmed(d) == Ok(DigitsValue(d))
  {
  }

  lemma ParseNegative(d: string)
    requires IsDigitRun(d)
    ensures ParseTrimmed("-" + d) == Ok(-(DigitsValue(d) as int))
  {
    assert ("-" + d)[1..] == d;
  }

  /** Trailing whitespace of the kind `int()` skips does not change what it
      returns or raises. */
  lemma ParseIntAppendSpace(s: string, w: string)
    requires AllBlank(IntBlanks, w)
    ensures ParseInt(s + w) == ParseInt(s)
  {
    TrimAppendBlank(IntBlanks, s, w);
  }

  /** The file separator 0x1c, the first of the four information
      separators. */
  const FileSeparator: char := 28 as char

  /** An information separator after the digits is whitespace to `strip()`
      but not to `int()`: `int(str(i) + '\x1c')` raises where
      `int((str(i) + '\x1c').strip())` is `i`. */
  lemma SeparatorDefeatsParse(i: int)
    ensures ParseInt(ShowInt(i) + [FileSeparator]) == Err(ValueError)
    ensures Strip(ShowInt(i) + [FileSeparator]) == ShowInt(i)
    ensures ParseInt(Strip(ShowInt(i) + [FileSeparator])) == Ok(i)
  {
    var d := ShowInt(i);
    ParseIntRejectsSeparator(d);
    StripDropsSeparator(d);
    ParseShowInt(i);
  }

  /** `int()` rejects a text that ends in the separator 0x1c. */
  lemma ParseIntRejectsSeparator(d: string)
    requires |d| > 0 && TrimmedBy(IntBlanks, d)
    ensures ParseInt(d + [FileSeparator]) == Err(ValueError)
  {
    var x := d + [FileSeparator];
    assert x[0] == d[0] && x[|x| - 1] == FileSeparator;
    TrimTrimmed(IntBlanks, x);
    var body := if x[0] == '+' || x[0] == '-' then x[1..] else x;
    assert |body| > 0 && body[|body| - 1] == FileSeparator;
    NotDigitRun(body);
  }

  /** `strip()` removes a trailing separator 0x1c. */
  lemma StripDropsSeparator(d: string)
    requires TrimmedBy(StrBlanks, d)
    ensures Strip(d + [FileSeparator]) == d
  {
    assert [] + d + [FileSeparator] == d + [FileSeparator];
    TrimPadded(StrBlanks, [], d, [FileSeparator]);
  }

  /** A text ending in anything but a digit is no digit run. */
  lemma NotDigitRun(d: string)
    requires |d| > 0 && !IsDigit(d[|d| - 1])
    ensures !IsDigitRun(d)
  {
    assert !DigitFollows(d, |d| - 1);
  }
}
