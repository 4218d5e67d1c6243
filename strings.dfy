/**
 * The Python string and path primitives the pipeline relies on, written out:
 * substring search (`in`), `str.split`, `"sep".join`, `os.path.join`,
 * `os.path.basename`, `os.path.splitext`, decimal integer formatting with
 * zero padding (`f"{n:06d}"`), and code-point string ordering (`sorted`).
 */
module Strings {
  import opened Wrappers

  predicate StartsWith(s: string, p: string) {
    |p| <= |s| && s[..|p|] == p
  }

  predicate EndsWith(s: string, p: string) {
    |p| <= |s| && s[|s| - |p|..] == p
  }

  /** `t` occurs in `s` starting at index `i`. */
  predicate OccursAt(s: string, t: string, i: int) {
    0 <= i && i + |t| <= |s| && s[i..i + |t|] == t
  }

  lemma OccursShift(s: string, t: string, j: int)
    requires |s| > 0 && j >= 0
    ensures OccursAt(s[1..], t, j) <==> OccursAt(s, t, j + 1)
  {
    if 0 <= j && j + |t| <= |s[1..]| {
      assert s[1..][j..j + |t|] == s[j + 1..j + 1 + |t|];
    }
  }

  /** Leftmost occurrence of `t` in `s` (Python's `str.find`). */
  function Find(s: string, t: string): (r: Option<nat>)
    ensures r.Some? ==> OccursAt(s, t, r.value)
    ensures r.Some? ==> forall j :: 0 <= j < r.value ==> !OccursAt(s, t, j)
    ensures r.None? ==> forall j :: !OccursAt(s, t, j)
    decreases |s|
  {
    if StartsWith(s, t) then Some(0)
    else if |s| <= |t| then None
    else
      var rest := Find(s[1..], t);
      assert !OccursAt(s, t, 0);
      assert forall j :: 1 <= j && OccursAt(s, t, j) ==> OccursAt(s[1..], t, j - 1) by {
        forall j | 1 <= j && OccursAt(s, t, j) ensures OccursAt(s[1..], t, j - 1) {
          OccursShift(s, t, j - 1);
        }
      }
      match rest
      case None => None
      case Some(k) =>
        OccursShift(s, t, k);
        Some(k + 1)
  }

  /** Python's `t in s` on strings. */
  predicate Contains(s: string, t: string) {
    Find(s, t).Some?
  }

  lemma ContainsIff(s: string, t: string)
    ensures Contains(s, t) <==> exists i :: OccursAt(s, t, i)
  {
  }

  /** Python's `s.split(sep)` for a non-empty separator. */
  function Split(s: string, sep: string): (parts: seq<string>)
    requires |sep| > 0
    ensures |parts| >= 1
    decreases |s|
  {
    match Find(s, sep)
    case None => [s]
    case Some(i) => [s[..i]] + Split(s[i + |sep|..], sep)
  }

  /** Python's `sep.join(parts)`. */
  function JoinWith(parts: seq<string>, sep: string): string
    decreases |parts|
  {
    if |parts| == 0 then ""
    else if |parts| == 1 then parts[0]
    else parts[0] + sep + JoinWith(parts[1..], sep)
  }

  /** Splitting and joining again with the same separator gives back the string. */
  lemma {:induction false} SplitJoin(s: string, sep: string)
    requires |sep| > 0
    ensures JoinWith(Split(s, sep), sep) == s
    decreases |s|
  {
    match Find(s, sep)
    case None =>
      assert Split(s, sep) == [s];
    case Some(i) =>
      var rest := s[i + |sep|..];
      var tail := Split(rest, sep);
      var parts := [s[..i]] + tail;
      assert Split(s, sep) == parts;
      SplitJoin(rest, sep);
      assert parts[1..] == tail;
      assert JoinWith(parts, sep) == s[..i] + sep + JoinWith(tail, sep);
      assert s == s[..i] + sep + rest;
  }

  lemma OccursInPrefix(s: string, t: string, n: nat, j: int)
    requires n <= |s|
    requires OccursAt(s[..n], t, j)
    ensures OccursAt(s, t, j)
  {
    assert s[..n][j..j + |t|] == s[j..j + |t|];
  }

  /** No piece produced by `Split` contains the separator. */
  lemma {:induction false} SplitPiecesFree(s: string, sep: string)
    requires |sep| > 0
    ensures forall k :: 0 <= k < |Split(s, sep)| ==> !Contains(Split(s, sep)[k], sep)
    decreases |s|
  {
    match Find(s, sep)
    case None =>
    case Some(i) =>
      var rest := s[i + |sep|..];
      SplitPiecesFree(rest, sep);
      assert Split(s, sep) == [s[..i]] + Split(rest, sep);
      FirstPieceFree(s, sep, i);
  }

  /** The text before the first separator holds no separator. */
  lemma FirstPieceFree(s: string, sep: string, i: nat)
    requires |sep| > 0 && Find(s, sep) == Some(i)
    ensures !Contains(s[..i], sep)
  {
    forall j | OccursAt(s[..i], sep, j) ensures false {
      OccursInPrefix(s, sep, i, j);
    }
  }

  /** The first piece of a split is the text before the first separator. */
  lemma SplitFirst(s: string, sep: string)
    requires |sep| > 0
    ensures StartsWith(s, Split(s, sep)[0])
    ensures Find(s, sep).Some? ==> s[..Find(s, sep).value] == Split(s, sep)[0]
  {
  }

  /** `s` has no occurrence of the character `c`. */
  predicate CharFree(s: string, c: char) {
    forall k :: 0 <= k < |s| ==> s[k] != c
  }

  /** The first occurrence of a character is found after a prefix free of it. */
  lemma FindAfterFree(x: string, c: char, y: string)
    requires CharFree(x, c)
    ensures Find(x + [c] + y, [c]) == Some(|x|)
  {
    var s := x + [c] + y;
    assert OccursAt(s, [c], |x|);
    forall j | 0 <= j < |x| ensures !OccursAt(s, [c], j) {
      assert s[j..j + 1][0] == x[j];
    }
  }

  /** A text free of a character splits on it into itself alone. */
  lemma SplitCharFree(x: string, c: char)
    requires CharFree(x, c)
    ensures Split(x, [c]) == [x]
  {
    forall j | 0 <= j < |x| ensures !OccursAt(x, [c], j) {
      assert x[j..j + 1][0] == x[j];
    }
  }

  /** Splitting at a first separator peels off the text before it. */
  lemma SplitAfterFree(x: string, c: char, y: string)
    requires CharFree(x, c)
    ensures Split(x + [c] + y, [c]) == [x] + Split(y, [c])
  {
    FindAfterFree(x, c, y);
    var s := x + [c] + y;
    assert s[..|x|] == x && s[|x| + 1..] == y;
  }

  /** The last piece of a split on a character is the text after its last occurrence. */
  lemma {:induction false} SplitLastFree(p: string, c: char, t: string)
    requires CharFree(t, c)
    ensures var parts := Split(p + [c] + t, [c]); parts[|parts| - 1] == t
    decreases |p|
  {
    var s := p + [c] + t;
    assert OccursAt(s, [c], |p|);
    var i := Find(s, [c]).value;
    assert i <= |p|;
    assert Split(s, [c]) == [s[..i]] + Split(s[i + 1..], [c]);
    if i == |p| {
      assert s[i + 1..] == t;
      SplitCharFree(t, c);
    } else {
      assert s[i + 1..] == p[i + 1..] + [c] + t;
      SplitLastFree(p[i + 1..], c, t);
    }
  }

  /** POSIX `os.path.join(a, b)`: an absolute second part replaces the first;
    * otherwise the parts are joined with one "/" unless the first is empty or
    * already ends in "/". */
  function PathJoin(a: string, b: string): (r: string)
    ensures StartsWith(b, "/") ==> r == b
    ensures !StartsWith(b, "/") && (a == "" || EndsWith(a, "/")) ==> r == a + b
    ensures !StartsWith(b, "/") && a != "" && !EndsWith(a, "/") ==> r == a + "/" + b
    ensures EndsWith(r, b)
    ensures !StartsWith(b, "/") ==> StartsWith(r, a)
  {
    if StartsWith(b, "/") then b
    else if a == "" || EndsWith(a, "/") then a + b
    else a + "/" + b
  }

  /** The basename of a joined path is the basename of its second part, whenever
    * that part is not empty. */
  lemma PathJoinBasename(a: string, b: string)
    requires b != ""
    ensures Basename(PathJoin(a, b)) == Basename(b)
  {
    if !StartsWith(b, "/") {
      var x := if a == "" || EndsWith(a, "/") then a else a + "/";
      assert PathJoin(a, b) == x + b;
      BasenameAfterSlash(x, b);
    }
  }

  /** Text after nothing or after a "/" does not change the basename. */
  lemma BasenameAfterSlash(x: string, b: string)
    requires x == "" || EndsWith(x, "/")
    ensures Basename(x + b) == Basename(b)
  {
    var n := Basename(b);
    SuffixAfterSlash(x, b, n);
    BasenameUnique(x + b, n);
  }

  /** A suffix that is the whole text or follows a "/" keeps that property after
    * nothing or a "/" is put in front of the text. */
  lemma SuffixAfterSlash(x: string, b: string, n: string)
    requires x == "" || EndsWith(x, "/")
    requires EndsWith(b, n) && (|n| == |b| || b[|b| - |n| - 1] == '/')
    ensures EndsWith(x + b, n)
    ensures |n| == |x + b| || (x + b)[|x + b| - |n| - 1] == '/'
  {
    var p := x + b;
    assert b[|b| - |n|..] == n;
    assert p[|p| - |n|..] == n by {
      assert p[|x|..] == b;
    }
    if |n| < |b| {
      assert p[|p| - |n| - 1] == b[|b| - |n| - 1];
    } else if x != "" {
      assert p[|p| - |n| - 1] == x[|x| - 1];
    }
  }

  /** Index of the last occurrence of `c` in `s` (Python's `str.rfind` for one character). */
  function LastIndexOf(s: string, c: char): (r: Option<nat>)
    ensures r.Some? ==> r.value < |s| && s[r.value] == c
    ensures r.Some? ==> forall j :: r.value < j < |s| ==> s[j] != c
    ensures r.None? ==> forall j :: 0 <= j < |s| ==> s[j] != c
    decreases |s|
  {
    if |s| == 0 then None
    else if s[|s| - 1] == c then Some(|s| - 1)
    else LastIndexOf(s[..|s| - 1], c)
  }

  /** POSIX `os.path.basename`: the text after the last "/". */
  function Basename(p: string): (r: string)
    ensures EndsWith(p, r)
    ensures forall k :: 0 <= k < |r| ==> r[k] != '/'
    ensures |r| == |p| || p[|p| - |r| - 1] == '/'
  {
    match LastIndexOf(p, '/')
    case None => p
    case Some(i) => p[i + 1..]
  }

  /** The basename is the only suffix without "/" that is the whole path or follows
    * a "/". */
  lemma BasenameUnique(p: string, n: string)
    requires EndsWith(p, n) && CharFree(n, '/')
    requires |n| == |p| || p[|p| - |n| - 1] == '/'
    ensures Basename(p) == n
  {
    var r := Basename(p);
    assert p[|p| - |r|..] == r && p[|p| - |n|..] == n;
  }

  /** `os.path.splitext(p)[0]` for a path with no "/": the file name without its
    * last extension; a name whose dots before the last one are all leading keeps it. */
  function StripExtension(p: string): (r: string)
    ensures StartsWith(p, r)
    ensures |r| < |p| ==> p[|r|] == '.' && CharFree(p[|r| + 1..], '.')
    ensures |r| < |p| ==> exists k :: 0 <= k < |r| && p[k] != '.'
    ensures |r| == |p| ==> forall d :: 0 <= d < |p| && p[d] == '.' && CharFree(p[d + 1..], '.') ==>
      forall k :: 0 <= k < d ==> p[k] == '.'
  {
    match LastIndexOf(p, '.')
    case None => p
    case Some(d) =>
      if exists k :: 0 <= k < d && p[k] != '.' then p[..d] else p
  }

  /** A name with a non-"." character followed by "." and a dot-free extension loses
    * exactly that extension. */
  lemma StripExtensionOf(n: string, e: string)
    requires exists k :: 0 <= k < |n| && n[k] != '.'
    requires CharFree(e, '.')
    ensures StripExtension(n + "." + e) == n
  {
    var p := n + "." + e;
    var r := StripExtension(p);
    assert p[|n|] == '.' && p[|n| + 1..] == e;
    assert p[..|n|] == n;
  }

  predicate IsDigit(c: char) {
    '0' <= c <= '9'
  }

  predicate AllDigits(s: string) {
    forall k :: 0 <= k < |s| ==> IsDigit(s[k])
  }

  function DigitChar(d: nat): (c: char)
    requires d < 10
    ensures IsDigit(c) && c as int - '0' as int == d
  {
    ('0' as int + d) as char
  }

  /** Decimal value of a digit string (leading zeros allowed; "" is 0). */
  function DigitsValue(s: string): nat
    requires AllDigits(s)
    decreases |s|
  {
    if s == [] then 0
    else DigitsValue(s[..|s| - 1]) * 10 + (s[|s| - 1] as int - '0' as int)
  }

  /** Python's `str(n)` for a natural number. */
  function NatToString(n: nat): (r: string)
    ensures |r| >= 1 && AllDigits(r)
    ensures |r| > 1 ==> r[0] != '0'
    decreases n
  {
    if n < 10 then [DigitChar(n)]
    else NatToString(n / 10) + [DigitChar(n % 10)]
  }

  /** `NatToString` round-trips through `DigitsValue`. */
  lemma {:induction false} NatToStringValue(n: nat)
    ensures DigitsValue(NatToString(n)) == n
    decreases n
  {
    if n >= 10 {
      NatToStringValue(n / 10);
      var r := NatToString(n);
      assert r[..|r| - 1] == NatToString(n / 10);
    }
  }

  /** `z` characters "0". */
  function Zeros(z: nat): (r: string)
    ensures |r| == z && forall k :: 0 <= k < z ==> r[k] == '0'
  {
    seq(z, _ => '0')
  }

  /** Left-pads `s` with "0" up to `width` characters. */
  function ZeroPad(s: string, width: nat): (r: string)
    ensures |r| == if |s| >= width then |s| else width
    ensures EndsWith(r, s)
    ensures forall k :: 0 <= k < |r| - |s| ==> r[k] == '0'
  {
    if |s| >= width then s else Zeros(width - |s|) + s
  }

  /** Leading zeros do not change the value of a digit string. */
  lemma {:induction false} LeadingZerosValue(z: nat, s: string)
    requires AllDigits(s)
    ensures AllDigits(Zeros(z) + s)
    ensures DigitsValue(Zeros(z) + s) == DigitsValue(s)
    decreases |s|
  {
    var t := Zeros(z) + s;
    if s == [] {
      assert t == Zeros(z);
      AllZerosValue(z);
    } else {
      LeadingZerosValue(z, s[..|s| - 1]);
      assert t[..|t| - 1] == Zeros(z) + s[..|s| - 1];
    }
  }

  lemma {:induction false} AllZerosValue(z: nat)
    ensures AllDigits(Zeros(z))
    ensures DigitsValue(Zeros(z)) == 0
  {
    if z > 0 {
      AllZerosValue(z - 1);
      assert Zeros(z)[..z - 1] == Zeros(z - 1);
    }
  }

  /** Python's `f"{n:0<width>d}"`: zero padding goes after the sign, and the sign counts towards the width. */
  function FormatPadded(n: int, width: nat): (r: string)
  {
    if n < 0 then "-" + ZeroPad(NatToString(-n), if width == 0 then 0 else width - 1)
    else ZeroPad(NatToString(n), width)
  }

  /** A non-negative number formatted with zero padding has at least `width`
    * digits and reads back as the same number. */
  lemma FormatPaddedValue(n: nat, width: nat)
    ensures |FormatPadded(n, width)| >= width
    ensures AllDigits(FormatPadded(n, width))
    ensures DigitsValue(FormatPadded(n, width)) == n
  {
    var s := NatToString(n);
    assert DigitsValue(s) == n by {
      NatToStringValue(n);
    }
    if |s| < width {
      var p := Zeros(width - |s|) + s;
      assert FormatPadded(n, width) == p;
      assert AllDigits(p) && DigitsValue(p) == n by {
        LeadingZerosValue(width - |s|, s);
      }
    } else {
      assert FormatPadded(n, width) == s;
    }
  }

  /** Python's `<` on strings: code-point lexicographic order. */
  predicate LexLess(a: string, b: string)
    decreases |a|
  {
    if |a| == 0 then |b| > 0
    else if |b| == 0 then false
    else if a[0] != b[0] then a[0] < b[0]
    else LexLess(a[1..], b[1..])
  }

  predicate LexLe(a: string, b: string) {
    a == b || LexLess(a, b)
  }

  lemma {:induction false} LexLessIrreflexive(a: string)
    ensures !LexLess(a, a)
    decreases |a|
  {
    if |a| > 0 {
      LexLessIrreflexive(a[1..]);
    }
  }

  lemma {:induction false} LexTotal(a: string, b: string)
    ensures a == b || LexLess(a, b) || LexLess(b, a)
    decreases |a|
  {
    if |a| > 0 && |b| > 0 && a[0] == b[0] {
      LexTotal(a[1..], b[1..]);
      if a[1..] == b[1..] {
        assert a == [a[0]] + a[1..] && b == [b[0]] + b[1..];
      }
    }
  }

  lemma {:induction false} LexLessTransitive(a: string, b: string, c: string)
    requires LexLess(a, b) && LexLess(b, c)
    ensures LexLess(a, c)
    decreases |a|
  {
    if |a| > 0 && a[0] == b[0] && b[0] == c[0] {
      LexLessTransitive(a[1..], b[1..], c[1..]);
    }
  }

  lemma LexLeTransitive(a: string, b: string, c: string)
    requires LexLe(a, b) && LexLe(b, c)
    ensures LexLe(a, c)
  {
    if a != b && b != c {
      LexLessTransitive(a, b, c);
    }
  }

  predicate SortedStrings(s: seq<string>) {
    forall i, j :: 0 <= i < j < |s| ==> LexLe(s[i], s[j])
  }

  function Insert(x: string, s: seq<string>): (r: seq<string>)
    requires SortedStrings(s)
    ensures SortedStrings(r)
    ensures multiset(r) == multiset(s) + multiset{x}
    decreases |s|
  {
    if s == [] then [x]
    else if LexLe(x, s[0]) then
      assert forall j :: 0 <= j < |s| ==> LexLe(x, s[j]) by {
        forall j | 0 <= j < |s| ensures LexLe(x, s[j]) {
          LexLeTransitive(x, s[0], s[j]);
        }
      }
      ConsSorted(x, s);
      [x] + s
    else
      var tail := Insert(x, s[1..]);
      assert s == [s[0]] + s[1..];
      assert forall j :: 0 <= j < |tail| ==> LexLe(s[0], tail[j]) by {
        LexTotal(x, s[0]);
        InsertedBelow(x, s, tail);
      }
      ConsSorted(s[0], tail);
      [s[0]] + tail
  }

  /** A sorted list stays sorted under a head that bounds every element below. */
  lemma ConsSorted(h: string, t: seq<string>)
    requires SortedStrings(t)
    requires forall j :: 0 <= j < |t| ==> LexLe(h, t[j])
    ensures SortedStrings([h] + t)
  {
    forall i, j | 0 <= i < j < |[h] + t| ensures LexLe(([h] + t)[i], ([h] + t)[j]) {
      if i > 0 {
        assert ([h] + t)[i] == t[i - 1];
      }
      assert ([h] + t)[j] == t[j - 1];
    }
  }

  /** Every element of the insertion into the tail is bounded below by the head. */
  lemma InsertedBelow(x: string, s: seq<string>, tail: seq<string>)
    requires SortedStrings(s) && |s| > 0 && LexLe(s[0], x)
    requires multiset(tail) == multiset(s[1..]) + multiset{x}
    ensures forall j :: 0 <= j < |tail| ==> LexLe(s[0], tail[j])
  {
    forall j | 0 <= j < |tail| ensures LexLe(s[0], tail[j]) {
      var y := tail[j];
      assert y in multiset(tail);
      if y != x {
        assert y in multiset(s[1..]);
        var i :| 0 <= i < |s[1..]| && s[1..][i] == y;
        assert s[i + 1] == y;
      }
    }
  }

  /** Python's `sorted` on a list of strings. */
  function Sort(s: seq<string>): (r: seq<string>)
    ensures SortedStrings(r)
    ensures multiset(r) == multiset(s)
    decreases |s|
  {
    if s == [] then []
    else
      assert s == [s[0]] + s[1..];
      Insert(s[0], Sort(s[1..]))
  }
}
