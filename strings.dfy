/**
 * The handful of Python string operations the checklist relies on:
 * str.strip, str.lower, str.isdigit, str.split, str.join, the ordering
 * of str values and sorted(set(...)) over a list of strings.
 * Characters are restricted to their ASCII behaviour.
 */
module Strings {

  import opened Wrappers

  // ---------------------------------------------------------------
  // Characters
  // ---------------------------------------------------------------

  /** str.isspace on ASCII: tab, newline, vertical tab, form feed,
      carriage return, the four separators 0x1C-0x1F and space. */
  predicate IsSpace(c: char) {
    9 <= c as int <= 13 || 28 <= c as int <= 32
  }

  predicate IsDigit(c: char) {
    '0' <= c <= '9'
  }

  predicate IsUpper(c: char) {
    'A' <= c <= 'Z'
  }

  function Lower(c: char): (d: char)
    ensures IsUpper(c) ==> d as int == c as int + 32
    ensures !IsUpper(c) ==> d == c
  {
    if IsUpper(c) then (c as int + 32) as char else c
  }

  predicate AllSpace(s: string) {
    forall i :: 0 <= i < |s| ==> IsSpace(s[i])
  }

  predicate NoUpper(s: string) {
    forall i :: 0 <= i < |s| ==> !IsUpper(s[i])
  }

  /** str.isdigit: non-empty and every character a digit. */
  predicate AllDigits(s: string) {
    |s| > 0 && forall i :: 0 <= i < |s| ==> IsDigit(s[i])
  }

  // ---------------------------------------------------------------
  // str.lower
  // ---------------------------------------------------------------

  function LowerStr(s: string): (r: string)
    ensures |r| == |s|
    ensures forall i :: 0 <= i < |s| ==> r[i] == Lower(s[i])
  {
    seq(|s|, i requires 0 <= i < |s| => Lower(s[i]))
  }

  lemma LowerConcat(a: string, b: string)
    ensures LowerStr(a + b) == LowerStr(a) + LowerStr(b)
  {
    assert LowerStr(a + b) == LowerStr(a) + LowerStr(b);
  }

  lemma LowerFixed(s: string)
    requires NoUpper(s)
    ensures LowerStr(s) == s
  {
  }

  /** Two names are the same medicine when they agree after str.lower. */
  predicate SameName(a: string, b: string) {
    LowerStr(a) == LowerStr(b)
  }

  // ---------------------------------------------------------------
  // str.strip
  // ---------------------------------------------------------------

  function TrimLeft(s: string): (r: string)
    ensures |r| <= |s| && r == s[|s| - |r|..]
    ensures AllSpace(s[..|s| - |r|])
    ensures |r| > 0 ==> !IsSpace(r[0])
    decreases |s|
  {
    if |s| > 0 && IsSpace(s[0]) then TrimLeft(s[1..]) else s
  }

  function TrimRight(s: string): (r: string)
    ensures |r| <= |s| && r == s[..|r|]
    ensures AllSpace(s[|r|..])
    ensures |r| > 0 ==> !IsSpace(r[|r| - 1])
    decreases |s|
  {
    if |s| > 0 && IsSpace(s[|s| - 1]) then TrimRight(s[..|s| - 1]) else s
  }

  /** str.strip: the text between the leading and the trailing blanks, which
      is empty or starts and ends with a non-blank character. */
  function Trim(s: string): (r: string)
    ensures |r| <= |s|
    ensures |r| > 0 ==> !IsSpace(r[0]) && !IsSpace(r[|r| - 1])
  {
    TrimRight(TrimLeft(s))
  }

  /** A string strips to nothing exactly when it is all whitespace. */
  lemma TrimEmpty(s: string)
    ensures Trim(s) == "" <==> AllSpace(s)
  {
    var l := TrimLeft(s);
    if l != "" {
      assert !IsSpace(s[|s| - |l|]);
    }
  }

  lemma {:induction false} TrimLeftPadded(pre: string, rest: string)
    requires AllSpace(pre)
    requires |rest| > 0 && !IsSpace(rest[0])
    ensures TrimLeft(pre + rest) == rest
    decreases |pre|
  {
    if |pre| > 0 {
      assert (pre + rest)[1..] == pre[1..] + rest;
      TrimLeftPadded(pre[1..], rest);
    }
  }

  lemma {:induction false} TrimRightPadded(rest: string, post: string)
    requires AllSpace(post)
    requires |rest| > 0 && !IsSpace(rest[|rest| - 1])
    ensures TrimRight(rest + post) == rest
    decreases |post|
  {
    if |post| > 0 {
      assert (rest + post)[..|rest + post| - 1] == rest + post[..|post| - 1];
      TrimRightPadded(rest, post[..|post| - 1]);
    } else {
      assert rest + post == rest;
    }
  }

  /** Stripping removes exactly the surrounding blanks of a text that
      starts and ends with a non-blank character. */
  lemma TrimPadded(pre: string, core: string, post: string)
    requires AllSpace(pre) && AllSpace(post)
    requires |core| > 0 && !IsSpace(core[0]) && !IsSpace(core[|core| - 1])
    ensures Trim(pre + core + post) == core
  {
    assert pre + core + post == pre + (core + post);
    TrimLeftPadded(pre, core + post);
    TrimRightPadded(core, post);
  }

  lemma TrimNoPadding(s: string)
    requires |s| > 0 && !IsSpace(s[0]) && !IsSpace(s[|s| - 1])
    ensures Trim(s) == s
  {
    assert "" + s + "" == s;
    TrimPadded("", s, "");
  }

  // ---------------------------------------------------------------
  // The blanks int() skips around its argument
  // ---------------------------------------------------------------

  /** The C-locale isspace that int() applies to ASCII text: tab, newline,
      vertical tab, form feed, carriage return and space, but not the
      separators 0x1C-0x1F that str.isspace also counts. */
  predicate IsCSpace(c: char) {
    9 <= c as int <= 13 || c == ' '
  }

  function CTrimLeft(s: string): (r: string)
    ensures |r| <= |s| && r == s[|s| - |r|..]
    ensures forall i :: 0 <= i < |s| - |r| ==> IsCSpace(s[i])
    ensures |r| > 0 ==> !IsCSpace(r[0])
    decreases |s|
  {
    if |s| > 0 && IsCSpace(s[0]) then CTrimLeft(s[1..]) else s
  }

  function CTrimRight(s: string): (r: string)
    ensures |r| <= |s| && r == s[..|r|]
    ensures forall i :: |r| <= i < |s| ==> IsCSpace(s[i])
    ensures |r| > 0 ==> !IsCSpace(r[|r| - 1])
    decreases |s|
  {
    if |s| > 0 && IsCSpace(s[|s| - 1]) then CTrimRight(s[..|s| - 1]) else s
  }

  /** The text int() reads: its argument without the C-locale blanks at
      either end, so empty or starting and ending with other characters. */
  function CTrim(s: string): (r: string)
    ensures |r| <= |s|
    ensures |r| > 0 ==> !IsCSpace(r[0]) && !IsCSpace(r[|r| - 1])
  {
    CTrimRight(CTrimLeft(s))
  }

  /** A text that starts and ends with non-blanks is left alone. */
  lemma CTrimNoPadding(s: string)
    requires |s| > 0 && !IsCSpace(s[0]) && !IsCSpace(s[|s| - 1])
    ensures CTrim(s) == s
  {
  }

  // ---------------------------------------------------------------
  // str.find(c), str.split(c) and sep.join(parts)
  // ---------------------------------------------------------------

  /** The position of the first c in s, if any. */
  function IndexOf(s: string, c: char): (r: Option<nat>)
    ensures r.Some? ==> r.value < |s| && s[r.value] == c
    ensures r.Some? ==> forall j :: 0 <= j < r.value ==> s[j] != c
    ensures r.None? <==> c !in s
    decreases |s|
  {
    if |s| == 0 then None
    else if s[0] == c then Some(0)
    else match IndexOf(s[1..], c)
      case Some(i) => Some(i + 1)
      case None => None
  }

  lemma IndexOfAt(s: string, c: char, i: nat)
    requires i < |s| && s[i] == c
    requires forall j :: 0 <= j < i ==> s[j] != c
    ensures IndexOf(s, c) == Some(i)
  {
  }

  // ---------------------------------------------------------------
  // ---------------------------------------------------------------

  /** str.split with a one-character separator: the pieces between the
      occurrences of c, at least one piece, none containing c. */
  function Split(s: string, c: char): (parts: seq<string>)
    ensures |parts| >= 1
    ensures forall i :: 0 <= i < |parts| ==> c !in parts[i]
    decreases |s|
  {
    if |s| == 0 then [""]
    else
      var rest := Split(s[1..], c);
      if s[0] == c then [""] + rest else [[s[0]] + rest[0]] + rest[1..]
  }

  /** sep.join(parts); the join starts with the first piece. */
  function Join(parts: seq<string>, sep: string): (r: string)
    ensures |parts| > 0 ==> |r| >= |parts[0]| && r[..|parts[0]|] == parts[0]
    decreases |parts|
  {
    if |parts| == 0 then ""
    else if |parts| == 1 then parts[0]
    else parts[0] + sep + Join(parts[1..], sep)
  }

  /** A character in none of the pieces nor in the separator is not in the join. */
  lemma {:induction false} JoinAvoids(parts: seq<string>, sep: string, c: char)
    requires c !in sep
    requires forall i :: 0 <= i < |parts| ==> c !in parts[i]
    ensures c !in Join(parts, sep)
    decreases |parts|
  {
    if |parts| > 1 {
      JoinAvoids(parts[1..], sep, c);
    }
  }

  /** Joining the pieces of a split with the separator gives back the text. */
  lemma {:induction false} JoinSplit(s: string, c: char)
    ensures Join(Split(s, c), [c]) == s
    decreases |s|
  {
    if |s| > 0 {
      var rest := Split(s[1..], c);
      JoinSplit(s[1..], c);
      if s[0] == c {
        assert Split(s, c) == [""] + rest;
        assert (["" ] + rest)[1..] == rest;
        assert s == [c] + s[1..];
      } else {
        var parts := [[s[0]] + rest[0]] + rest[1..];
        assert Split(s, c) == parts;
        if |rest| == 1 {
          assert s == [s[0]] + s[1..];
        } else {
          assert parts[1..] == rest[1..];
          assert Join(rest, [c]) == rest[0] + [c] + Join(rest[1..], [c]);
          assert s == [s[0]] + s[1..];
        }
      }
    }
  }

  lemma {:induction false} SplitPrefix(a: string, rest: string, c: char)
    requires c !in a
    ensures Split(a + rest, c) == [a + Split(rest, c)[0]] + Split(rest, c)[1..]
    decreases |a|
  {
    if |a| > 0 {
      assert (a + rest)[1..] == a[1..] + rest;
      SplitPrefix(a[1..], rest, c);
      var r := Split(a[1..] + rest, c);
      var t := Split(rest, c);
      assert r == [a[1..] + t[0]] + t[1..];
      assert Split(a + rest, c) == [[a[0]] + r[0]] + r[1..];
      assert r[1..] == t[1..];
      assert [a[0]] + (a[1..] + t[0]) == a + t[0];
    } else {
      var t := Split(rest, c);
      assert a + rest == rest && a + t[0] == t[0];
      assert t == [t[0]] + t[1..];
    }
  }

  /** Splitting a join recovers the pieces when no piece holds the separator. */
  lemma {:induction false} SplitJoin(parts: seq<string>, c: char)
    requires |parts| >= 1
    requires forall i :: 0 <= i < |parts| ==> c !in parts[i]
    ensures Split(Join(parts, [c]), c) == parts
    decreases |parts|
  {
    if |parts| == 1 {
      SplitPrefix(parts[0], "", c);
      assert parts[0] + "" == parts[0];
    } else {
      var tail := Join(parts[1..], [c]);
      SplitJoin(parts[1..], c);
      assert Join(parts, [c]) == parts[0] + ([c] + tail);
      SplitPrefix(parts[0], [c] + tail, c);
      assert ([c] + tail)[1..] == tail;
      assert Split([c] + tail, c) == [""] + parts[1..];
      assert parts[0] + "" == parts[0];
      assert parts == [parts[0]] + parts[1..];
    }
  }

  // ---------------------------------------------------------------
  // The ordering of str values and sorted(set(...))
  // ---------------------------------------------------------------

  /** a < b on Python str: code point by code point, a proper prefix first. */
  predicate Below(a: string, b: string)
    ensures Below(a, b) ==> a != b
    decreases |a|
  {
    if |a| == 0 then |b| > 0
    else |b| > 0 && (a[0] < b[0] || (a[0] == b[0] && Below(a[1..], b[1..])))
  }

  lemma {:induction false} BelowTransitive(a: string, b: string, c: string)
    requires Below(a, b) && Below(b, c)
    ensures Below(a, c)
    decreases |a|
  {
    if |a| > 0 && a[0] == b[0] && b[0] == c[0] {
      BelowTransitive(a[1..], b[1..], c[1..]);
    }
  }

  lemma {:induction false} BelowTotal(a: string, b: string)
    requires a != b
    ensures Below(a, b) || Below(b, a)
    decreases |a|
  {
    if |a| > 0 && |b| > 0 && a[0] == b[0] {
      assert a == [a[0]] + a[1..] && b == [b[0]] + b[1..];
      BelowTotal(a[1..], b[1..]);
    }
  }

  predicate StrictlyAscending(s: seq<string>) {
    forall i, j :: 0 <= i < j < |s| ==> Below(s[i], s[j])
  }

  /** Inserts x into an ascending list without duplicating it. */
  function InsertAscending(x: string, s: seq<string>): (r: seq<string>)
    requires StrictlyAscending(s)
    ensures StrictlyAscending(r)
    ensures forall y :: y in r <==> y == x || y in s
    decreases |s|
  {
    if s == [] then [x]
    else if x == s[0] then s
    else if Below(x, s[0]) then
      assert forall j :: 0 < j < |s| ==> Below(x, s[j]) by {
        forall j | 0 < j < |s| ensures Below(x, s[j]) { BelowTransitive(x, s[0], s[j]); }
      }
      [x] + s
    else
      BelowTotal(x, s[0]);
      var t := InsertAscending(x, s[1..]);
      assert forall y :: y in t ==> Below(s[0], y) by {
        forall y | y in t ensures Below(s[0], y) {
          if y != x { var j :| 0 <= j < |s[1..]| && s[1..][j] == y; assert s[1 + j] == y; }
        }
      }
      assert forall y :: y in s <==> y == s[0] || y in s[1..] by {
        assert s == [s[0]] + s[1..];
      }
      [s[0]] + t
  }

  /** sorted(set(s)): the distinct elements of s in ascending order. */
  function SortedUnique(s: seq<string>): (r: seq<string>)
    ensures StrictlyAscending(r)
    ensures forall y :: y in r <==> y in s
    decreases |s|
  {
    if s == [] then []
    else
      var r := InsertAscending(s[|s| - 1], SortedUnique(s[..|s| - 1]));
      assert forall y :: y in s <==> y == s[|s| - 1] || y in s[..|s| - 1] by {
        assert s == s[..|s| - 1] + [s[|s| - 1]];
      }
      r
  }

  /** There is only one strictly ascending list with a given set of
      elements, so sorted(set(s)) is determined by its two properties. */
  lemma {:induction false} AscendingUnique(r: seq<string>, q: seq<string>)
    requires StrictlyAscending(r) && StrictlyAscending(q)
    requires forall y :: y in r <==> y in q
    ensures r == q
    decreases |r|
  {
    if r != [] { SharedNonEmpty(r, q); }
    if q != [] { SharedNonEmpty(q, r); }
    if r != [] && q != [] {
      if r[0] != q[0] {
        assert q[0] in r && r[0] in q;
        HeadIsLeast(r, q[0]);
        HeadIsLeast(q, r[0]);
        BelowTransitive(r[0], q[0], r[0]);
      }
      forall y ensures y in r[1..] <==> y in q[1..] {
        if y in r[1..] {
          TailIsAbove(r, y);
          assert y in q;
        }
        if y in q[1..] {
          TailIsAbove(q, y);
          assert y in r;
        }
      }
      AscendingUnique(r[1..], q[1..]);
      assert r == [r[0]] + r[1..] && q == [q[0]] + q[1..];
    }
  }

  lemma SharedNonEmpty(r: seq<string>, q: seq<string>)
    requires r != []
    requires forall y :: y in r ==> y in q
    ensures q != []
  {
    assert r[0] in q;
  }

  lemma HeadIsLeast(r: seq<string>, y: string)
    requires StrictlyAscending(r) && |r| > 0
    requires y in r && y != r[0]
    ensures Below(r[0], y)
  {
    var j :| 0 <= j < |r| && r[j] == y;
  }

  lemma TailIsAbove(r: seq<string>, y: string)
    requires StrictlyAscending(r) && |r| > 0
    requires y in r[1..]
    ensures Below(r[0], y) && y in r
  {
    var j :| 0 <= j < |r[1..]| && r[1..][j] == y;
    assert r[1 + j] == y;
  }

  // ---------------------------------------------------------------
  // Decimal digits
  // ---------------------------------------------------------------

  function DigitValue(c: char): nat
    requires IsDigit(c)
  {
    c as int - '0' as int
  }

  /** int(s) for a string of ASCII digits. */
  function Value(s: string): nat
    requires forall i :: 0 <= i < |s| ==> IsDigit(s[i])
    decreases |s|
  {
    if |s| == 0 then 0 else 10 * Value(s[..|s| - 1]) + DigitValue(s[|s| - 1])
  }

  function Digit(n: nat): (c: char)
    requires n < 10
    ensures IsDigit(c) && DigitValue(c) == n
  {
    ('0' as int + n) as char
  }

  /** f"{n:02d}" for n below 100. */
  function TwoDigits(n: nat): (s: string)
    requires n < 100
    ensures |s| == 2 && AllDigits(s) && Value(s) == n
  {
    var s := [Digit(n / 10), Digit(n % 10)];
    ValueOfTwo(s);
    s
  }

  lemma ValueOfTwo(s: string)
    requires |s| == 2 && AllDigits(s)
    ensures Value(s) == 10 * DigitValue(s[0]) + DigitValue(s[1])
  {
    var p := s[..1];
    assert p[..0] == [] && p[0] == s[0];
    assert Value(p) == DigitValue(s[0]);
  }

  lemma TwoDigitsOfValue(s: string)
    requires |s| == 2 && AllDigits(s)
    ensures Value(s) < 100 && TwoDigits(Value(s)) == s
  {
    ValueOfTwo(s);
    var n := Value(s);
    assert n / 10 == DigitValue(s[0]) && n % 10 == DigitValue(s[1]);
  }
}
