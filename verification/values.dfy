/**
  The dynamic values the scripts read out of decoded JSON, and the few Python
  built-ins applied to them: truthiness, `or`, `dict.get` with a default,
  `str()`, `int()` on a string, `float()` and `str.strip()`.
 */
module PyValues {
  import opened Wrappers

  /** A decoded JSON value, plus `Absent` for a key the object does not have.
      Float-to-text formatting is not computed: a float carries its printed form,
      and so does an array or object. */
  datatype Value =
    | Absent
    | Null
    | Bool(b: bool)
    | Int(i: int)
    | Float(x: real, printed: string)
    | Text(s: string)
    | Container(empty: bool, printed: string)

  /** Python truthiness. An absent key reads as `None`. */
  predicate Truthy(v: Value) {
    match v
    case Absent => false
    case Null => false
    case Bool(b) => b
    case Int(i) => i != 0
    case Float(x, _) => x != 0.0
    case Text(s) => s != ""
    case Container(empty, _) => !empty
  }

  /** Python `a or b`. */
  function Or(a: Value, b: Value): Value {
    if Truthy(a) then a else b
  }

  /** `obj.get(key, default)`, given what `obj[key]` holds. */
  function GetOr(v: Value, default: Value): Value {
    if v.Absent? then default else v
  }

  /** `x is None` for what `obj.get(key)` returns. */
  predicate IsNone(v: Value) {
    v.Absent? || v.Null?
  }

  // ---------------------------------------------------------------------------
  // Whitespace and str.strip()
  // ---------------------------------------------------------------------------

  /** The ASCII characters `str.isspace()` accepts, which is what
      `str.strip()` removes: tab, line feed, vertical tab, form feed and
      carriage return (9-13), the file, group, record and unit separators
      (28-31), and the space (32). */
  predicate IsSpace(c: char) {
    9 <= c as int <= 13 || 28 <= c as int <= 32
  }

  predicate AllSpace(s: string) {
    forall i :: 0 <= i < |s| ==> IsSpace(s[i])
  }

  /** `str.lstrip()`: a suffix of `s`, with only whitespace cut. */
  function TrimStart(s: string): (r: string)
    ensures |r| <= |s| && r == s[|s| - |r|..] && AllSpace(s[..|s| - |r|])
    ensures r == [] || !IsSpace(r[0])
    decreases |s|
  {
    if |s| > 0 && IsSpace(s[0]) then
      var r := TrimStart(s[1..]);
      SpaceThenSuffix(s, |s| - |r|);
      r
    else
      s
  }

  /** Cutting a leading space and then `n - 1` spaces cuts `n` spaces. */
  lemma SpaceThenSuffix(s: string, n: nat)
    requires 0 < n <= |s| && IsSpace(s[0]) && AllSpace(s[1..][..n - 1])
    ensures s[1..][n - 1..] == s[n..] && AllSpace(s[..n])
  {
    forall k | 0 <= k < n
      ensures IsSpace(s[..n][k])
    {
      if k > 0 {
        assert s[..n][k] == s[1..][..n - 1][k - 1];
      }
    }
  }

  /** `str.rstrip()`: a prefix of `s`, with only whitespace cut. */
  function TrimEnd(s: string): (r: string)
    ensures |r| <= |s| && r == s[..|r|] && AllSpace(s[|r|..])
    ensures r == [] || !IsSpace(r[|r| - 1])
    decreases |s|
  {
    if |s| > 0 && IsSpace(s[|s| - 1]) then
      var r := TrimEnd(s[..|s| - 1]);
      PrefixThenSpace(s, |r|);
      r
    else
      s
  }

  /** Cutting `|s| - 1 - m` trailing spaces after the last one cuts all
      of `s[m..]`. */
  lemma PrefixThenSpace(s: string, m: nat)
    requires m < |s| && IsSpace(s[|s| - 1]) && AllSpace(s[..|s| - 1][m..])
    ensures s[..|s| - 1][..m] == s[..m] && AllSpace(s[m..])
  {
    forall k | 0 <= k < |s| - m
      ensures IsSpace(s[m..][k])
    {
      if k < |s| - 1 - m {
        assert s[m..][k] == s[..|s| - 1][m..][k];
      }
    }
  }

  /** `str.strip()`: the slice `s[i..j]` with only whitespace cut from either
      end, neither starting nor ending with whitespace. */
  function Strip(s: string): (r: string)
    ensures exists i, j :: 0 <= i <= j <= |s| && r == s[i..j] && AllSpace(s[..i]) && AllSpace(s[j..])
    ensures r == [] || (!IsSpace(r[0]) && !IsSpace(r[|r| - 1]))
  {
    var e := TrimEnd(s);
    var r := TrimStart(e);
    StripSlice(s, e, r);
    assert 0 <= |e| - |r| <= |e| <= |s| && r == s[|e| - |r|..|e|];
    r
  }

  /** Cutting the end and then the start leaves the slice between the cuts. */
  lemma StripSlice(s: string, e: string, r: string)
    requires e == TrimEnd(s) && r == TrimStart(e)
    ensures r == s[|e| - |r|..|e|] && AllSpace(s[..|e| - |r|]) && AllSpace(s[|e|..])
    ensures r == [] || !IsSpace(r[|r| - 1])
  {
    var i := |e| - |r|;
    assert e[i..] == s[i..|e|];
    assert s[..i] == e[..i];
    if r != [] {
      assert r[|r| - 1] == e[|e| - 1];
    }
  }

  /** A string that neither starts nor ends with whitespace is its own strip. */
  lemma StripUnpadded(s: string)
    requires s == [] || (!IsSpace(s[0]) && !IsSpace(s[|s| - 1]))
    ensures Strip(s) == s
  {
    TrimEndUnpadded(s);
    TrimStartUnpadded(s);
  }

  lemma TrimEndUnpadded(s: string)
    requires s == [] || !IsSpace(s[|s| - 1])
    ensures TrimEnd(s) == s
  {
  }

  lemma TrimStartUnpadded(s: string)
    requires s == [] || !IsSpace(s[0])
    ensures TrimStart(s) == s
  {
  }

  lemma {:induction false} TrimEndSpaces(x: string, q: string)
    requires AllSpace(q) && |x| > 0 && !IsSpace(x[|x| - 1])
    ensures TrimEnd(x + q) == x
    decreases |q|
  {
    if |q| == 0 {
      assert x + q == x;
    } else {
      var n := |x + q| - 1;
      assert (x + q)[n] == q[|q| - 1];
      assert (x + q)[..n] == x + q[..|q| - 1];
      TrimEndSpaces(x, q[..|q| - 1]);
    }
  }

  lemma {:induction false} TrimStartSpaces(p: string, x: string)
    requires AllSpace(p) && |x| > 0 && !IsSpace(x[0])
    ensures TrimStart(p + x) == x
    decreases |p|
  {
    if |p| == 0 {
      assert p + x == x;
    } else {
      assert (p + x)[0] == p[0];
      assert (p + x)[1..] == p[1..] + x;
      TrimStartSpaces(p[1..], x);
    }
  }

  /** Whitespace around a non-empty unpadded string is exactly what
      `strip()` removes. */
  lemma StripPadded(p: string, k: string, q: string)
    requires AllSpace(p) && AllSpace(q)
    requires |k| > 0 && !IsSpace(k[0]) && !IsSpace(k[|k| - 1])
    ensures Strip(p + k + q) == k
  {
    var x := p + k;
    assert x[|x| - 1] == k[|k| - 1];
    TrimEndSpaces(x, q);
    TrimStartSpaces(p, k);
  }

  // ---------------------------------------------------------------------------
  // Whitespace around a number
  // ---------------------------------------------------------------------------

  /** The whitespace `int()` and `float()` cut around a number: CPython's
      `Py_ISSPACE`, tab to carriage return (9-13) and the space (32). The
      separators 28-31, which `str.strip()` also cuts, are not among them;
      pandas' number parser cuts the same set. */
  predicate IsNumSpace(c: char) {
    9 <= c as int <= 13 || c as int == 32
  }

  predicate AllNumSpace(s: string) {
    forall i :: 0 <= i < |s| ==> IsNumSpace(s[i])
  }

  /** The file, group, record and unit separators (28-31). */
  predicate IsSeparator(c: char) {
    28 <= c as int <= 31
  }

  /** A suffix of `s`, with only number whitespace cut. */
  function NumTrimStart(s: string): (r: string)
    ensures |r| <= |s| && r == s[|s| - |r|..] && AllNumSpace(s[..|s| - |r|])
    ensures r == [] || !IsNumSpace(r[0])
    decreases |s|
  {
    if |s| > 0 && IsNumSpace(s[0]) then
      var r := NumTrimStart(s[1..]);
      NumSpaceThenSuffix(s, |s| - |r|);
      r
    else
      s
  }

  lemma NumSpaceThenSuffix(s: string, n: nat)
    requires 0 < n <= |s| && IsNumSpace(s[0]) && AllNumSpace(s[1..][..n - 1])
    ensures s[1..][n - 1..] == s[n..] && AllNumSpace(s[..n])
  {
    forall k | 0 <= k < n
      ensures IsNumSpace(s[..n][k])
    {
      if k > 0 {
        assert s[..n][k] == s[1..][..n - 1][k - 1];
      }
    }
  }

  /** A prefix of `s`, with only number whitespace cut. */
  function NumTrimEnd(s: string): (r: string)
    ensures |r| <= |s| && r == s[..|r|] && AllNumSpace(s[|r|..])
    ensures r == [] || !IsNumSpace(r[|r| - 1])
    decreases |s|
  {
    if |s| > 0 && IsNumSpace(s[|s| - 1]) then
      var r := NumTrimEnd(s[..|s| - 1]);
      NumPrefixThenSpace(s, |r|);
      r
    else
      s
  }

  lemma NumPrefixThenSpace(s: string, m: nat)
    requires m < |s| && IsNumSpace(s[|s| - 1]) && AllNumSpace(s[..|s| - 1][m..])
    ensures s[..|s| - 1][..m] == s[..m] && AllNumSpace(s[m..])
  {
    forall k | 0 <= k < |s| - m
      ensures IsNumSpace(s[m..][k])
    {
      if k < |s| - 1 - m {
        assert s[m..][k] == s[..|s| - 1][m..][k];
      }
    }
  }

  /** What `int()` and `float()` read: the slice `s[i..j]` with only number
      whitespace cut from either end, neither starting nor ending with it. */
  function NumStrip(s: string): (r: string)
    ensures exists i, j :: 0 <= i <= j <= |s| && r == s[i..j] && AllNumSpace(s[..i]) && AllNumSpace(s[j..])
    ensures r == [] || (!IsNumSpace(r[0]) && !IsNumSpace(r[|r| - 1]))
  {
    var e := NumTrimEnd(s);
    var r := NumTrimStart(e);
    NumStripSlice(s, e, r);
    assert 0 <= |e| - |r| <= |e| <= |s| && r == s[|e| - |r|..|e|];
    r
  }

  /** Cutting the end and then the start leaves the slice between the cuts. */
  lemma NumStripSlice(s: string, e: string, r: string)
    requires e == NumTrimEnd(s) && r == NumTrimStart(e)
    ensures r == s[|e| - |r|..|e|] && AllNumSpace(s[..|e| - |r|]) && AllNumSpace(s[|e|..])
    ensures r == [] || !IsNumSpace(r[|r| - 1])
  {
    var i := |e| - |r|;
    assert e[i..] == s[i..|e|];
    assert s[..i] == e[..i];
    if r != [] {
      assert r[|r| - 1] == e[|e| - 1];
    }
  }

  /** A string with no number whitespace at either end is read as is. */
  lemma NumStripUnpadded(s: string)
    requires s == [] || (!IsNumSpace(s[0]) && !IsNumSpace(s[|s| - 1]))
    ensures NumStrip(s) == s
  {
    NumTrimEndUnpadded(s);
    NumTrimStartUnpadded(s);
  }

  lemma NumTrimEndUnpadded(s: string)
    requires s == [] || !IsNumSpace(s[|s| - 1])
    ensures NumTrimEnd(s) == s
  {
  }

  lemma NumTrimStartUnpadded(s: string)
    requires s == [] || !IsNumSpace(s[0])
    ensures NumTrimStart(s) == s
  {
  }

  /** An end of `s` that is not number whitespace is an end of what is read. */
  lemma NumStripKeepsEnds(s: string)
    requires |s| > 0
    ensures !IsNumSpace(s[0]) ==> NumStrip(s) == [] || NumStrip(s)[0] == s[0]
    ensures !IsNumSpace(s[|s| - 1]) ==> NumStrip(s) == [] || NumStrip(s)[|NumStrip(s)| - 1] == s[|s| - 1]
  {
    var r := NumStrip(s);
    var i, j :| 0 <= i <= j <= |s| && r == s[i..j] && AllNumSpace(s[..i]) && AllNumSpace(s[j..]);
    if i > 0 {
      assert s[..i][0] == s[0];
    }
    if j < |s| {
      assert s[j..][|s| - j - 1] == s[|s| - 1];
    }
  }

  // ---------------------------------------------------------------------------
  // Decimal digits
  // ---------------------------------------------------------------------------

  predicate IsDigit(c: char) {
    '0' <= c <= '9'
  }

  predicate AllDigits(s: string) {
    forall i :: 0 <= i < |s| ==> IsDigit(s[i])
  }

  function DigitValue(c: char): nat
    requires IsDigit(c)
  {
    c as int - '0' as int
  }

  function DigitChar(d: nat): (c: char)
    requires d < 10
    ensures IsDigit(c) && DigitValue(c) == d
  {
    ('0' as int + d) as char
  }

  /** The number a string of decimal digits spells, most significant first. */
  function DigitsValue(s: string): nat
    requires AllDigits(s)
    decreases |s|
  {
    if |s| == 0 then 0 else DigitsValue(s[..|s| - 1]) * 10 + DigitValue(s[|s| - 1])
  }

  function Pow10(n: nat): (r: nat)
    ensures r >= 1
  {
    if n == 0 then 1 else 10 * Pow10(n - 1)
  }

  /** Decimal rendering of a natural number, as Python's `str()` gives it. */
  function NatToString(n: nat): (r: string)
    ensures |r| > 0 && AllDigits(r) && DigitsValue(r) == n
    ensures r[0] != '0' || n == 0
  {
    if n < 10 then
      [DigitChar(n)]
    else
      var p := NatToString(n / 10);
      var r := p + [DigitChar(n % 10)];
      assert r[..|r| - 1] == p;
      r
  }

  /** Python `str(i)` for an integer. */
  function IntToString(i: int): string {
    if i < 0 then "-" + NatToString(-i) else NatToString(i)
  }

  // ---------------------------------------------------------------------------
  // int() and float() on text
  // ---------------------------------------------------------------------------

  /** Every character is an ASCII digit or an underscore. */
  predicate DigitsOrUnderscores(s: string) {
    forall i :: 0 <= i < |s| ==> IsDigit(s[i]) || s[i] == '_'
  }

  /** ASCII digits in which single underscores may separate two digits, as
      `int()` and `float()` read them: `1_000`, but not `_1`, `1_` or `1__0`. */
  predicate Grouped(s: string) {
    && |s| > 0 && IsDigit(s[0]) && IsDigit(s[|s| - 1])
    && DigitsOrUnderscores(s)
    && (forall i :: 0 <= i < |s| - 1 && s[i] == '_' ==> IsDigit(s[i + 1]))
  }

  /** The digits of `s` with its underscores dropped. */
  function Ungroup(s: string): (r: string)
    ensures |r| <= |s|
    ensures |s| > 0 && s[0] != '_' ==> |r| > 0 && r[0] == s[0]
    decreases |s|
  {
    if |s| == 0 then ""
    else (if s[0] == '_' then "" else [s[0]]) + Ungroup(s[1..])
  }

  /** Dropping the underscores of digits and underscores leaves only digits. */
  lemma {:induction false} UngroupDigits(s: string)
    requires DigitsOrUnderscores(s)
    ensures AllDigits(Ungroup(s))
    decreases |s|
  {
    if |s| > 0 {
      assert DigitsOrUnderscores(s[1..]) by {
        forall i | 0 <= i < |s| - 1
          ensures IsDigit(s[1..][i]) || s[1..][i] == '_'
        {
          assert s[1..][i] == s[i + 1];
        }
      }
      UngroupDigits(s[1..]);
    }
  }

  /** The number a digit string, grouped or not, spells. */
  function GroupedValue(s: string): nat
    requires DigitsOrUnderscores(s)
  {
    UngroupDigits(s);
    DigitsValue(Ungroup(s))
  }

  /** Python `int(s)` on a string: surrounding number whitespace (`IsNumSpace`),
      an optional sign, then digits, with single underscores allowed between
      two digits; anything else raises `ValueError` (`None`). */
  function ParseInt(s: string): Option<int> {
    IntOfStripped(NumStrip(s))
  }

  /** `int()` after the whitespace is stripped. */
  function IntOfStripped(t: string): Option<int> {
    if |t| > 0 && (t[0] == '-' || t[0] == '+') then
      var body := t[1..];
      if Grouped(body) then
        Some(if t[0] == '-' then -(GroupedValue(body) as int) else GroupedValue(body))
      else None
    else if Grouped(t) then Some(GroupedValue(t))
    else None
  }

  /** Index of the first `c` in `s`. */
  function IndexOf(s: string, c: char): (r: Option<nat>)
    ensures r.None? ==> forall k :: 0 <= k < |s| ==> s[k] != c
    ensures r.Some? ==> r.value < |s| && s[r.value] == c && forall k :: 0 <= k < r.value ==> s[k] != c
  {
    if |s| == 0 then None
    else if s[0] == c then Some(0)
    else match IndexOf(s[1..], c)
      case None => None
      case Some(k) => Some(k + 1)
  }

  /** Digits with at most one decimal point, at least one digit in all; each
      side of the point is empty or grouped digits. */
  function UnsignedDecimal(b: string): Option<real> {
    match IndexOf(b, '.')
    case None =>
      if Grouped(b) then Some(GroupedValue(b) as real) else None
    case Some(k) =>
      var whole := b[..k];
      var frac := b[k + 1..];
      if |whole| + |frac| > 0 && (whole == "" || Grouped(whole)) && (frac == "" || Grouped(frac)) then
        Some(GroupedValue(whole) as real + GroupedValue(frac) as real / Pow10(|Ungroup(frac)|) as real)
      else None
  }

  /** Python `float(s)` on a string, for plain decimal notation between
      number whitespace (`IsNumSpace`). */
  function ParseDecimal(s: string): Option<real> {
    DecimalOfStripped(NumStrip(s))
  }

  /** `float()` after the whitespace is stripped. */
  function DecimalOfStripped(t: string): Option<real> {
    if |t| > 0 && (t[0] == '-' || t[0] == '+') then
      match UnsignedDecimal(t[1..])
      case None => None
      case Some(x) => Some(if t[0] == '-' then -x else x)
    else UnsignedDecimal(t)
  }

  /** Python `float(v)`; `None` where Python raises. */
  function ToFloat(v: Value): Option<real> {
    match v
    case Bool(b) => Some(if b then 1.0 else 0.0)
    case Int(i) => Some(i as real)
    case Float(x, _) => Some(x)
    case Text(s) => ParseDecimal(s)
    case _ => None
  }

  /** Python `str(v)`. */
  function Str(v: Value): string {
    match v
    case Absent => "None"
    case Null => "None"
    case Bool(b) => if b then "True" else "False"
    case Int(i) => IntToString(i)
    case Float(_, printed) => printed
    case Text(s) => s
    case Container(_, printed) => printed
  }

  // ---------------------------------------------------------------------------
  // Properties
  // ---------------------------------------------------------------------------

  /** A non-empty run of plain digits is grouped, and reads as itself. */
  lemma PlainDigits(d: string)
    requires AllDigits(d)
    ensures DigitsOrUnderscores(d) && Ungroup(d) == d
    ensures |d| > 0 ==> Grouped(d)
  {
    PlainUngroup(d);
  }

  /** Plain digits lose nothing when underscores are dropped. */
  lemma {:induction false} PlainUngroup(d: string)
    requires AllDigits(d)
    ensures Ungroup(d) == d
    decreases |d|
  {
    if |d| > 0 {
      var t := d[1..];
      assert AllDigits(t) by {
        forall i | 0 <= i < |t|
          ensures IsDigit(t[i])
        {
          assert t[i] == d[i + 1];
        }
      }
      PlainUngroup(t);
      assert d == [d[0]] + t;
    }
  }

  /** Dropping the underscores of two strings one after the other. */
  lemma {:induction false} UngroupAppend(x: string, y: string)
    ensures Ungroup(x + y) == Ungroup(x) + Ungroup(y)
    decreases |x|
  {
    if |x| == 0 {
      assert x + y == y;
    } else {
      var head: string := if x[0] == '_' then "" else [x[0]];
      assert (x + y)[0] == x[0];
      assert (x + y)[1..] == x[1..] + y;
      calc {
        Ungroup(x + y);
      ==
        head + Ungroup(x[1..] + y);
      == { UngroupAppend(x[1..], y); }
        head + (Ungroup(x[1..]) + Ungroup(y));
      ==
        (head + Ungroup(x[1..])) + Ungroup(y);
      ==
        Ungroup(x) + Ungroup(y);
      }
    }
  }

  /** `int(d) == n` for the digits `d` of a natural number `n`. */
  lemma ParseNatString(n: nat)
    ensures ParseInt(NatToString(n)) == Some(n)
  {
    var d := NatToString(n);
    PlainDigits(d);
    ParseGrouped(d);
  }

  /** `int(str(i)) == i` for every integer. */
  lemma {:induction false} ParseIntRoundTrip(i: int)
    ensures ParseInt(IntToString(i)) == Some(i)
  {
    if i < 0 {
      var d := NatToString(-i);
      var s := "-" + d;
      assert s[|s| - 1] == d[|d| - 1];
      assert IsDigit(s[|s| - 1]);
      NumStripUnpadded(s);
      assert s[1..] == d;
      PlainDigits(d);
    } else {
      ParseNatString(i);
    }
  }

  /** Distinct integers have distinct `str()` forms, so `str(id)` is a faithful key. */
  lemma IntToStringInjective(a: int, b: int)
    requires IntToString(a) == IntToString(b)
    ensures a == b
  {
    ParseIntRoundTrip(a);
    ParseIntRoundTrip(b);
  }

  /** `a_b` is grouped and spells the digits `ab`. */
  lemma JoinedGroups(a: string, b: string)
    requires |a| > 0 && |b| > 0 && AllDigits(a) && AllDigits(b)
    ensures Grouped(a + "_" + b) && Ungroup(a + "_" + b) == a + b
  {
    var g := a + "_" + b;
    forall i | 0 <= i < |g|
      ensures IsDigit(g[i]) || g[i] == '_'
      ensures i < |g| - 1 ==> g[i] == '_' ==> IsDigit(g[i + 1])
    {
      JoinedAt(a, b, i);
      if i < |g| - 1 {
        JoinedAt(a, b, i + 1);
      }
    }
    JoinedAt(a, b, 0);
    JoinedAt(a, b, |g| - 1);
    PlainDigits(a);
    PlainDigits(b);
    JoinedUngroup(a, b);
  }

  /** The characters of `a_b`: those of `a`, the underscore, those of `b`. */
  lemma JoinedAt(a: string, b: string, i: nat)
    requires i < |a| + 1 + |b|
    ensures i < |a| ==> (a + "_" + b)[i] == a[i]
    ensures i == |a| ==> (a + "_" + b)[i] == '_'
    ensures i > |a| ==> (a + "_" + b)[i] == b[i - |a| - 1]
  {
  }

  lemma JoinedUngroup(a: string, b: string)
    requires Ungroup(a) == a && Ungroup(b) == b
    ensures Ungroup(a + "_" + b) == a + b
  {
    var u: string := "_";
    assert Ungroup(u) == [] by {
      assert u[1..] == [];
    }
    UngroupAppend(a + u, b);
    UngroupAppend(a, u);
    assert a + [] == a;
  }

  /** An underscore between two runs of digits changes nothing: `int()`
      reads `a_b` as it reads `ab`. */
  lemma UnderscoreBetweenDigits(a: string, b: string)
    requires |a| > 0 && |b| > 0 && AllDigits(a) && AllDigits(b)
    ensures ParseInt(a + "_" + b) == ParseInt(a + b) == Some(DigitsValue(a + b))
  {
    var g := a + "_" + b;
    var p := a + b;
    assert AllDigits(p) by {
      forall i | 0 <= i < |p|
        ensures IsDigit(p[i])
      {
        if i < |a| {
          assert p[i] == a[i];
        } else {
          assert p[i] == b[i - |a|];
        }
      }
    }
    PlainDigits(p);
    JoinedGroups(a, b);
    ParseGrouped(a + "_" + b);
    ParseGrouped(p);
  }

  /** `int()` reads grouped digits without surrounding whitespace. */
  lemma ParseGrouped(t: string)
    requires Grouped(t)
    ensures ParseInt(t) == Some(GroupedValue(t))
  {
    assert !IsNumSpace(t[0]) && !IsNumSpace(t[|t| - 1]);
    NumStripUnpadded(t);
    IntOfGrouped(t);
  }

  /** Grouped digits with no sign read as the number they spell. */
  lemma IntOfGrouped(t: string)
    requires Grouped(t)
    ensures IntOfStripped(t) == Some(GroupedValue(t))
  {
    assert t[0] != '-' && t[0] != '+';
  }

  /** A grouped run has no decimal point. */
  lemma {:induction false} NoPointInDigits(b: string)
    requires DigitsOrUnderscores(b)
    ensures IndexOf(b, '.') == None
    decreases |b|
  {
    if |b| > 0 {
      assert DigitsOrUnderscores(b[1..]) by {
        forall i | 0 <= i < |b| - 1
          ensures IsDigit(b[1..][i]) || b[1..][i] == '_'
        {
          assert b[1..][i] == b[i + 1];
        }
      }
      NoPointInDigits(b[1..]);
    }
  }

  /** Grouped digits read the same as a float as they do as an int. */
  lemma UnsignedDecimalOfDigits(b: string)
    requires Grouped(b)
    ensures UnsignedDecimal(b) == Some(GroupedValue(b) as real)
  {
    NoPointInDigits(b);
  }

  /** `float(s)` accepts every string `int(s)` accepts, with the same value. */
  lemma ParseDecimalExtendsParseInt(s: string)
    requires ParseInt(s).Some?
    ensures ParseDecimal(s) == Some(ParseInt(s).value as real)
  {
    DecimalExtendsInt(NumStrip(s));
  }

  lemma DecimalExtendsInt(t: string)
    requires IntOfStripped(t).Some?
    ensures DecimalOfStripped(t) == Some(IntOfStripped(t).value as real)
  {
    if |t| > 0 && (t[0] == '-' || t[0] == '+') {
      UnsignedDecimalOfDigits(t[1..]);
    } else {
      UnsignedDecimalOfDigits(t);
    }
  }

  /** A character that can appear in a number `int()` or `float()` reads
      once the whitespace is cut. */
  predicate NumeralChar(c: char) {
    IsDigit(c) || c == '_' || c == '.' || c == '+' || c == '-'
  }

  /** Text with a character no numeral uses is rejected by both readers. */
  lemma StrayCharRejected(t: string, k: nat)
    requires k < |t| && !NumeralChar(t[k])
    ensures IntOfStripped(t) == None && DecimalOfStripped(t) == None
  {
    if |t| > 0 && (t[0] == '-' || t[0] == '+') {
      assert t[1..][k - 1] == t[k];
      UnsignedRejects(t[1..], k - 1);
    } else {
      UnsignedRejects(t, k);
    }
  }

  /** A stray character keeps both digit groups and decimals from reading. */
  lemma UnsignedRejects(b: string, k: nat)
    requires k < |b| && !NumeralChar(b[k])
    ensures !Grouped(b) && UnsignedDecimal(b) == None
  {
    match IndexOf(b, '.')
    case None =>
    case Some(p) =>
      if k < p {
        assert b[..p][k] == b[k];
      } else {
        assert b[p + 1..][k - p - 1] == b[k];
      }
  }

  /** A number padded with a file, group, record or unit separator (28-31)
      on either side is rejected by `int()` and `float()`, though
      `str.strip()` would cut the padding. */
  lemma SeparatorPaddingRejected(s: string)
    requires |s| > 0 && (IsSeparator(s[0]) || IsSeparator(s[|s| - 1]))
    ensures ParseInt(s) == None && ParseDecimal(s) == None
  {
    var t := NumStrip(s);
    if t == [] {
      assert IndexOf(t, '.') == None;
    } else {
      var k := EdgeSeparator(s);
      StrayCharRejected(t, k);
    }
  }

  /** A separator at an end of `s` survives the cut of number whitespace. */
  lemma EdgeSeparator(s: string) returns (k: nat)
    requires |s| > 0 && (IsSeparator(s[0]) || IsSeparator(s[|s| - 1])) && NumStrip(s) != []
    ensures k < |NumStrip(s)| && IsSeparator(NumStrip(s)[k])
  {
    NumStripKeepsEnds(s);
    k := if IsSeparator(s[0]) then 0 else |NumStrip(s)| - 1;
  }
}
