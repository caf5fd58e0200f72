/** Helpers shared by the whole model: optional values, JavaScript numbers,
    `String.prototype.trim`, decimal formatting against `parseInt`, and the
    order-preserving sequence operations the editor relies on (filter,
    first-appearance de-duplication, stable sort, grouping). */
module Common {

  datatype Option<T> = None | Some(value: T)

  /** A JavaScript number as far as the model needs it: a finite value or NaN
      (infinities are not modelled). */
  datatype JsNum = Finite(r: real) | NaN

  /** JavaScript `n || d` on a number: NaN and 0 are falsy and give `d`. */
  function OrDefault(n: JsNum, d: real): real
  {
    if n.Finite? && n.r != 0.0 then n.r else d
  }

  // ---------------------------------------------------------------------------
  // Strings

  /** The characters `String.prototype.trim` removes: ECMAScript WhiteSpace and
      LineTerminator code points. */
  predicate IsJsWhitespace(c: char)
  {
    c == '\t' || c == '\n' || c == '\U{B}' || c == '\U{C}' || c == '\r' || c == ' '
    || c == '\U{A0}' || c == '\U{1680}' || ('\U{2000}' <= c <= '\U{200A}')
    || c == '\U{2028}' || c == '\U{2029}' || c == '\U{202F}' || c == '\U{205F}'
    || c == '\U{3000}' || c == '\U{FEFF}'
  }

  function TrimStart(s: string): (r: string)
    ensures |r| <= |s| && r == s[|s| - |r|..]
    ensures r == [] || !IsJsWhitespace(r[0])
  {
    if s != [] && IsJsWhitespace(s[0]) then TrimStart(s[1..]) else s
  }

  function TrimEnd(s: string): (r: string)
    ensures |r| <= |s| && r == s[..|r|]
    ensures r == [] || !IsJsWhitespace(r[|r| - 1])
  {
    if s != [] && IsJsWhitespace(s[|s| - 1]) then TrimEnd(s[..|s| - 1]) else s
  }

  /** `s.trim()` */
  function Trim(s: string): string
  {
    TrimEnd(TrimStart(s))
  }

  /** Every character is whitespace (the empty string included). */
  predicate Blank(s: string)
  {
    forall i | 0 <= i < |s| :: IsJsWhitespace(s[i])
  }

  lemma {:induction false} TrimStartEmptyIffBlank(s: string)
    ensures TrimStart(s) == [] <==> Blank(s)
  {
    if s != [] {
      BlankCons(s);
      if IsJsWhitespace(s[0]) {
        TrimStartEmptyIffBlank(s[1..]);
      }
    }
  }

  lemma BlankCons(s: string)
    requires s != []
    ensures Blank(s) <==> IsJsWhitespace(s[0]) && Blank(s[1..])
  {
    if IsJsWhitespace(s[0]) && Blank(s[1..]) {
      forall i | 0 <= i < |s| ensures IsJsWhitespace(s[i]) {
        if i > 0 { assert s[i] == s[1..][i - 1]; }
      }
    }
  }

  /** `s.trim()` is empty exactly when `s` consists of whitespace only. */
  lemma TrimEmptyIffBlank(s: string)
    ensures Trim(s) == [] <==> Blank(s)
  {
    TrimStartEmptyIffBlank(s);
    var t := TrimStart(s);
    if t != [] {
      assert !IsJsWhitespace(t[0]);
      assert TrimEnd(t) != [] by {
        if TrimEnd(t) == [] { TrimEndEmptyOnlyIfBlank(t); }
      }
    }
  }

  lemma {:induction false} TrimEndEmptyOnlyIfBlank(s: string)
    requires TrimEnd(s) == []
    ensures Blank(s)
  {
    if s != [] {
      TrimEndEmptyOnlyIfBlank(s[..|s| - 1]);
      assert forall i | 0 <= i < |s| - 1 :: s[i] == s[..|s| - 1][i];
    }
  }

  predicate StartsWith(s: string, prefix: string)
  {
    |prefix| <= |s| && s[..|prefix|] == prefix
  }

  /** `s.includes(sub)` */
  predicate Contains(s: string, sub: string)
    decreases |s|
  {
    StartsWith(s, sub) || (s != [] && Contains(s[1..], sub))
  }

  /** A string without the first character of `sub` does not contain `sub`. */
  lemma {:induction false} NotContainsWithoutFirstChar(s: string, sub: string)
    requires sub != [] && forall i | 0 <= i < |s| :: s[i] != sub[0]
    ensures !Contains(s, sub)
  {
    if s != [] {
      if |sub| <= |s| {
        assert s[..|sub|][0] == s[0];
      }
      NotContainsWithoutFirstChar(s[1..], sub);
    }
  }

  /** `s.replace(pattern, "")` with a string pattern: only the first occurrence
      is removed. */
  function RemoveFirst(s: string, pattern: string): string
    decreases |s|
  {
    if StartsWith(s, pattern) then s[|pattern|..]
    else if s == [] then s
    else [s[0]] + RemoveFirst(s[1..], pattern)
  }

  /** `s.replace(pattern, replacement)` with a string pattern: only the first
      occurrence is replaced. */
  function ReplaceFirst(s: string, pattern: string, replacement: string): string
    decreases |s|
  {
    if StartsWith(s, pattern) then replacement + s[|pattern|..]
    else if s == [] then s
    else [s[0]] + ReplaceFirst(s[1..], pattern, replacement)
  }

  /** A prefix in which no occurrence of the pattern can start is skipped by
      the replacement: none of its characters is the pattern's `j`-th, and
      none of its last `j` characters is the pattern's first. */
  lemma {:induction false} ReplaceFirstSkips(p: string, q: string, pattern: string, replacement: string, j: nat)
    requires j < |pattern|
    requires forall k | 0 <= k < |p| :: p[k] != pattern[j]
    requires forall k | 0 <= k < |p| && |p| - j <= k :: p[k] != pattern[0]
    ensures ReplaceFirst(p + q, pattern, replacement) == p + ReplaceFirst(q, pattern, replacement)
  {
    if p == [] {
      assert p + q == q;
    } else {
      var s := p + q;
      NoMatchAtStart(p, q, pattern, j);
      assert ReplaceFirst(s, pattern, replacement) == [s[0]] + ReplaceFirst(s[1..], pattern, replacement);
      assert s[1..] == p[1..] + q;
      ReplaceFirstSkips(p[1..], q, pattern, replacement, j);
    }
  }

  lemma NoMatchAtStart(p: string, q: string, pattern: string, j: nat)
    requires p != [] && j < |pattern|
    requires forall k | 0 <= k < |p| :: p[k] != pattern[j]
    requires forall k | 0 <= k < |p| && |p| - j <= k :: p[k] != pattern[0]
    ensures !StartsWith(p + q, pattern)
  {
    var s := p + q;
    if |pattern| <= |s| {
      if j < |p| {
        assert s[..|pattern|][j] != pattern[j];
      } else {
        assert s[..|pattern|][0] != pattern[0];
      }
    }
  }

  // ---------------------------------------------------------------------------
  // Decimal numbers

  predicate IsDigit(c: char) { '0' <= c <= '9' }

  function DigitChar(d: nat): (c: char)
    requires d < 10
    ensures IsDigit(c) && c as int - '0' as int == d
  {
    ('0' as int + d) as char
  }

  /** Decimal digits of a natural number, without leading zeros. */
  function NatDigits(n: nat): (s: string)
    ensures s != [] && forall i | 0 <= i < |s| :: IsDigit(s[i])
  {
    if n < 10 then [DigitChar(n)] else NatDigits(n / 10) + [DigitChar(n % 10)]
  }

  lemma ConcatAssoc<T>(a: seq<T>, b: seq<T>, c: seq<T>)
    ensures a + b + c == a + (b + c)
  {
  }

  /** The JavaScript template-literal rendering `${n}` of an integer. */
  function DecimalString(n: int): string
  {
    if n < 0 then "-" + NatDigits(-n) else NatDigits(n)
  }

  /** Value of a run of decimal digits. */
  function DigitsValue(s: string): nat
    requires forall i | 0 <= i < |s| :: IsDigit(s[i])
  {
    if s == [] then 0
    else
      var last := s[|s| - 1];
      assert IsDigit(last);
      DigitsValue(s[..|s| - 1]) * 10 + (last as int - '0' as int)
  }

  /** Length of the longest prefix of `s` made of decimal digits. */
  function DigitRun(s: string): (k: nat)
    ensures k <= |s|
    ensures forall i | 0 <= i < k :: IsDigit(s[i])
    ensures k < |s| ==> !IsDigit(s[k])
  {
    if s != [] && IsDigit(s[0]) then 1 + DigitRun(s[1..]) else 0
  }

  /** JavaScript `parseInt(s)` in base 10: leading whitespace is skipped, an
      optional sign is read, then the longest run of digits; no digits gives
      NaN (here None). */
  function ParseInt(s: string): Option<int>
  {
    var t := TrimStart(s);
    if t != [] && t[0] == '-' then
      match ParseDigits(t[1..])
      case None => None
      case Some(v) => Some(0 - v)
    else if t != [] && t[0] == '+' then
      match ParseDigits(t[1..])
      case None => None
      case Some(v) => Some(v)
    else
      match ParseDigits(t)
      case None => None
      case Some(v) => Some(v)
  }

  /** The value of the longest run of digits at the start of `s`; None when
      there is none. */
  function ParseDigits(s: string): Option<nat>
  {
    var k := DigitRun(s);
    if k == 0 then None else Some(DigitsValue(s[..k]))
  }

  lemma {:induction false} NatDigitsValue(n: nat)
    ensures DigitsValue(NatDigits(n)) == n
  {
    if n >= 10 {
      NatDigitsValue(n / 10);
      var s := NatDigits(n);
      assert s[..|s| - 1] == NatDigits(n / 10);
    }
  }

  /** `parseInt` reads back a formatted integer, however the text goes on
      after it, provided the next character is not a digit. */
  lemma {:induction false} ParseIntDecimalPrefix(n: int, rest: string)
    requires rest == [] || !IsDigit(rest[0])
    ensures ParseInt(DecimalString(n) + rest) == Some(n)
  {
    if n < 0 {
      ParseNegative(n, rest);
    } else {
      ParseNonNegative(n, rest);
    }
  }

  lemma {:induction false} ParseNonNegative(n: int, rest: string)
    requires n >= 0 && (rest == [] || !IsDigit(rest[0]))
    ensures ParseInt(DecimalString(n) + rest) == Some(n)
  {
    var digits := NatDigits(n);
    assert DecimalString(n) == digits;
    NatDigitsValue(n);
    ParseDigitsPrefix(digits, rest);
    assert (digits + rest)[0] == digits[0];
    ParseIntAtDigit(digits + rest, n);
  }

  lemma {:induction false} ParseNegative(n: int, rest: string)
    requires n < 0 && (rest == [] || !IsDigit(rest[0]))
    ensures ParseInt(DecimalString(n) + rest) == Some(n)
  {
    var digits := NatDigits(-n);
    assert DecimalString(n) == "-" + digits;
    NatDigitsValue(-n);
    ParseDigitsPrefix(digits, rest);
    ParseIntAtMinus(digits, rest, -n);
  }

  /** Text that starts with a digit is read as a run of digits. */
  lemma ParseIntAtDigit(s: string, k: nat)
    requires s != [] && IsDigit(s[0]) && ParseDigits(s) == Some(k)
    ensures ParseInt(s) == Some(k as int)
  {
    DigitNotWhitespace(s[0]);
    assert TrimStart(s) == s;
  }

  /** A minus sign followed by a run of digits is read as its negation. */
  lemma ParseIntAtMinus(d: string, rest: string, k: nat)
    requires ParseDigits(d + rest) == Some(k)
    ensures ParseInt("-" + d + rest) == Some(-(k as int))
  {
    var s := "-" + d + rest;
    assert s[1..] == d + rest;
    assert TrimStart(s) == s;
  }

  lemma DigitNotWhitespace(c: char)
    requires IsDigit(c)
    ensures !IsJsWhitespace(c)
  {
  }

  lemma ParseDigitsPrefix(digits: string, rest: string)
    requires digits != [] && forall i | 0 <= i < |digits| :: IsDigit(digits[i])
    requires rest == [] || !IsDigit(rest[0])
    ensures ParseDigits(digits + rest) == Some(DigitsValue(digits))
  {
    DigitRunStops(digits, rest);
    assert (digits + rest)[..|digits|] == digits;
  }

  lemma {:induction false} DigitRunStops(digits: string, rest: string)
    requires forall i | 0 <= i < |digits| :: IsDigit(digits[i])
    requires rest == [] || !IsDigit(rest[0])
    ensures DigitRun(digits + rest) == |digits|
  {
    if digits != [] {
      assert (digits + rest)[1..] == digits[1..] + rest;
      DigitRunStops(digits[1..], rest);
    } else {
      assert digits + rest == rest;
    }
  }

  /** Formatting an integer and reading it back with `parseInt` gives the
      integer: the decimal form is a lossless encoding. */
  lemma ParseIntDecimal(n: int)
    ensures ParseInt(DecimalString(n)) == Some(n)
  {
    ParseIntDecimalPrefix(n, []);
    assert DecimalString(n) + [] == DecimalString(n);
  }

  lemma DecimalStringInjective(a: int, b: int)
    requires DecimalString(a) == DecimalString(b)
    ensures a == b
  {
    ParseIntDecimal(a);
    ParseIntDecimal(b);
  }

  // ---------------------------------------------------------------------------
  // Sequences

  function Filter<T(!new)>(s: seq<T>, p: T -> bool): (r: seq<T>)
    ensures |r| <= |s|
    ensures forall x :: x in r <==> x in s && p(x)
  {
    if s == [] then [] else (if p(s[0]) then [s[0]] else []) + Filter(s[1..], p)
  }

  /** Filtering distributes over concatenation: it keeps the relative order. */
  lemma {:induction false} FilterAppend<T(!new)>(a: seq<T>, b: seq<T>, p: T -> bool)
    ensures Filter(a + b, p) == Filter(a, p) + Filter(b, p)
  {
    if a == [] {
      assert a + b == b;
    } else {
      assert (a + b)[0] == a[0];
      assert (a + b)[1..] == a[1..] + b;
      FilterAppend(a[1..], b, p);
    }
  }

  /** `Filter` keeps the order of a duplicate-free sequence. */
  lemma {:induction false} FilterKeepsOrder<T(!new)>(s: seq<T>, p: T -> bool)
    requires NoDuplicates(s)
    ensures forall i, j | 0 <= i < j < |Filter(s, p)| ::
      FirstIndex(s, Filter(s, p)[i]) < FirstIndex(s, Filter(s, p)[j])
  {
    if s != [] {
      assert NoDuplicates(s[1..]);
      FilterKeepsOrder(s[1..], p);
      FirstIndexTail(s);
      if p(s[0]) {
        assert forall y | y in s[1..] :: y in s;
        FilterConsOrder(s, Filter(s[1..], p));
      } else {
        assert Filter(s, p) == Filter(s[1..], p);
      }
    }
  }

  /** The step of `FilterKeepsOrder` when the head is kept. */
  lemma {:induction false} FilterConsOrder<T(!new)>(s: seq<T>, ft: seq<T>)
    requires s != [] && forall y | y in ft :: y in s[1..] && y in s
    requires forall x | x in s[1..] :: FirstIndex(s, x) == 1 + FirstIndex(s[1..], x)
    requires forall i, j | 0 <= i < j < |ft| :: FirstIndex(s[1..], ft[i]) < FirstIndex(s[1..], ft[j])
    ensures forall i, j | 0 <= i < j < |[s[0]] + ft| ::
      FirstIndex(s, ([s[0]] + ft)[i]) < FirstIndex(s, ([s[0]] + ft)[j])
  {
    var r := [s[0]] + ft;
    forall i, j | 0 <= i < j < |r| ensures FirstIndex(s, r[i]) < FirstIndex(s, r[j]) {
      var y := ft[j - 1];
      assert FirstIndex(s, r[j]) == 1 + FirstIndex(s[1..], y) by {
        assert r[j] == y && y in ft;
      }
      if i == 0 {
        assert FirstIndex(s, r[i]) == 0 by {
          assert r[i] == s[0];
        }
      } else {
        var x := ft[i - 1];
        assert FirstIndex(s, r[i]) == 1 + FirstIndex(s[1..], x) by {
          assert r[i] == x && x in ft;
        }
      }
    }
  }

  lemma {:induction false} FirstIndexTail<T>(s: seq<T>)
    requires s != [] && NoDuplicates(s)
    ensures forall x | x in s[1..] :: FirstIndex(s, x) == 1 + FirstIndex(s[1..], x)
  {
    forall x | x in s[1..] ensures FirstIndex(s, x) == 1 + FirstIndex(s[1..], x) {
      assert x != s[0];
    }
  }

  function MapSeq<T, U>(s: seq<T>, f: T -> U): (r: seq<U>)
    ensures |r| == |s| && forall i | 0 <= i < |s| :: r[i] == f(s[i])
  {
    seq(|s|, i requires 0 <= i < |s| => f(s[i]))
  }

  predicate NoDuplicates<T(==)>(s: seq<T>)
  {
    forall i, j | 0 <= i < j < |s| :: s[i] != s[j]
  }

  lemma {:induction false} NoDuplicatesCount<T>(s: seq<T>, x: T)
    requires NoDuplicates(s)
    ensures multiset(s)[x] <= 1
  {
    if s != [] {
      assert s == [s[0]] + s[1..];
      NoDuplicatesCount(s[1..], x);
      if x == s[0] {
        assert x !in s[1..];
      }
    }
  }

  /** A permutation of a duplicate-free sequence is duplicate-free. */
  lemma MultisetNoDuplicates<T>(a: seq<T>, b: seq<T>)
    requires multiset(a) == multiset(b) && NoDuplicates(b)
    ensures NoDuplicates(a)
  {
    forall i, j | 0 <= i < j < |a| ensures a[i] != a[j] {
      if a[i] == a[j] {
        assert a == a[..j] + a[j..];
        assert a[i] in a[..j];
        assert a[j] in a[j..];
        assert multiset(a)[a[i]] == multiset(a[..j])[a[i]] + multiset(a[j..])[a[i]];
        NoDuplicatesCount(b, a[i]);
      }
    }
  }

  /** The elements of `s` with key `k`, in their order in `s`. */
  function Members<T(!new), K(==)>(s: seq<T>, key: T -> K, k: K): (r: seq<T>)
    ensures |r| <= |s|
  {
    if s == [] then [] else (if key(s[0]) == k then [s[0]] else []) + Members(s[1..], key, k)
  }

  lemma {:induction false} MembersAppend<T(!new), K>(a: seq<T>, b: seq<T>, key: T -> K, k: K)
    ensures Members(a + b, key, k) == Members(a, key, k) + Members(b, key, k)
  {
    if a == [] {
      assert a + b == b;
    } else {
      var ab := a + b;
      assert ab[0] == a[0];
      assert ab[1..] == a[1..] + b;
      MembersAppend(a[1..], b, key, k);
      var h := if key(a[0]) == k then [a[0]] else [];
      assert Members(ab, key, k) == h + Members(ab[1..], key, k);
      assert Members(a, key, k) == h + Members(a[1..], key, k);
    }
  }

  lemma MembersSnoc<T(!new), K>(s: seq<T>, x: T, key: T -> K, k: K)
    ensures Members(s + [x], key, k) == Members(s, key, k) + (if key(x) == k then [x] else [])
  {
    MembersAppend(s, [x], key, k);
    assert [x][1..] == [];
  }

  /** No element has key `k`: the group of `k` is empty. */
  lemma {:induction false} MembersAbsent<T(!new), K>(s: seq<T>, key: T -> K, k: K)
    requires k !in MapSeq(s, key)
    ensures Members(s, key, k) == []
  {
    if s != [] {
      var m := MapSeq(s, key);
      assert m[0] == key(s[0]);
      assert MapSeq(s[1..], key) == m[1..];
      MembersAbsent(s[1..], key, k);
    }
  }

  /** The group of `k` holds exactly the elements of `s` whose key is `k`. */
  lemma {:induction false} MembersIn<T(!new), K>(s: seq<T>, key: T -> K, k: K, x: T)
    ensures x in Members(s, key, k) <==> x in s && key(x) == k
  {
    if s != [] {
      MembersIn(s[1..], key, k, x);
      assert x in s <==> x == s[0] || x in s[1..];
    }
  }

  lemma {:induction false} MembersNoDuplicates<T(!new), K>(s: seq<T>, key: T -> K, k: K)
    requires NoDuplicates(s)
    ensures NoDuplicates(Members(s, key, k))
  {
    if s != [] {
      MembersNoDuplicates(s[1..], key, k);
      MembersIn(s[1..], key, k, s[0]);
      var r := Members(s[1..], key, k);
      assert s[0] !in s[1..];
      if key(s[0]) == k {
        forall j | 0 < j < |r| + 1 ensures ([s[0]] + r)[0] != ([s[0]] + r)[j] {
          assert ([s[0]] + r)[j] == r[j - 1];
        }
      }
    }
  }

  /** The distinct elements of `s` in order of first appearance (what
      `Array.from(new Set(s))` gives). */
  function Distinct<T(==,!new)>(s: seq<T>): (r: seq<T>)
    ensures forall x :: x in r <==> x in s
    ensures NoDuplicates(r)
  {
    if s == [] then []
    else
      var d := Distinct(s[..|s| - 1]);
      if s[|s| - 1] in d then d else d + [s[|s| - 1]]
  }

  /** Index of the first occurrence of `x` in `s`. */
  function FirstIndex<T(==)>(s: seq<T>, x: T): (i: nat)
    requires x in s
    ensures i < |s| && s[i] == x && x !in s[..i]
  {
    if s[0] == x then 0 else 1 + FirstIndex(s[1..], x)
  }

  lemma FirstIndexPrefix<T(!new)>(s: seq<T>, n: nat, x: T)
    requires n <= |s| && x in s[..n]
    ensures FirstIndex(s, x) == FirstIndex(s[..n], x)
  {
    var i := FirstIndex(s[..n], x);
    var j := FirstIndex(s, x);
    assert s[..n][..i] == s[..i];
  }

  /** `Distinct` lists elements in the order of their first appearance. */
  lemma {:induction false} DistinctFirstAppearance<T(!new)>(s: seq<T>)
    ensures forall i, j | 0 <= i < j < |Distinct(s)| ::
      FirstIndex(s, Distinct(s)[i]) < FirstIndex(s, Distinct(s)[j])
  {
    if s != [] {
      var n := |s| - 1;
      var p := s[..n];
      var d := Distinct(p);
      DistinctFirstAppearance(p);
      forall x | x in d ensures FirstIndex(s, x) == FirstIndex(p, x) && FirstIndex(s, x) < n {
        FirstIndexPrefix(s, n, x);
      }
      var r := Distinct(s);
      forall i, j | 0 <= i < j < |r| ensures FirstIndex(s, r[i]) < FirstIndex(s, r[j]) {
        assert r[i] in d;
        if j < |d| {
          assert r[j] in d;
        } else {
          assert r[j] == s[n] && s[n] !in d;
          assert s[n] !in p;
          assert FirstIndex(s, r[j]) == n;
        }
      }
    }
  }

  // Stable sort ----------------------------------------------------------------

  predicate SortedBy<T>(s: seq<T>, key: T -> real)
  {
    forall i, j | 0 <= i < j < |s| :: key(s[i]) <= key(s[j])
  }

  /** Inserts `x` before the first element whose key is not smaller. */
  function Insert<T>(x: T, t: seq<T>, key: T -> real): (r: seq<T>)
    ensures multiset(r) == multiset(t) + multiset{x}
  {
    if t == [] || key(x) <= key(t[0]) then [x] + t
    else
      assert t == [t[0]] + t[1..];
      [t[0]] + Insert(x, t[1..], key)
  }

  /** Every key of `Insert(x, t)` is at least `lo` when those of `x` and `t` are. */
  lemma {:induction false} InsertLowerBound<T>(x: T, t: seq<T>, key: T -> real, lo: real)
    requires lo <= key(x) && forall i | 0 <= i < |t| :: lo <= key(t[i])
    ensures forall i | 0 <= i < |Insert(x, t, key)| :: lo <= key(Insert(x, t, key)[i])
  {
    if !(t == [] || key(x) <= key(t[0])) {
      InsertLowerBound(x, t[1..], key, lo);
    }
  }

  lemma {:induction false} InsertSorted<T>(x: T, t: seq<T>, key: T -> real)
    requires SortedBy(t, key)
    ensures SortedBy(Insert(x, t, key), key)
  {
    if !(t == [] || key(x) <= key(t[0])) {
      InsertSorted(x, t[1..], key);
      InsertLowerBound(x, t[1..], key, key(t[0]));
    }
  }

  /** `Array.prototype.sort` with a comparator `key(a) - key(b)`: a stable
      sort by ascending key. */
  function SortBy<T>(s: seq<T>, key: T -> real): (r: seq<T>)
    ensures multiset(r) == multiset(s) && |r| == |s|
    ensures SortedBy(r, key)
  {
    if s == [] then []
    else
      assert s == [s[0]] + s[1..];
      assert |multiset(Insert(s[0], SortBy(s[1..], key), key))| == |multiset(s)|;
      InsertSorted(s[0], SortBy(s[1..], key), key);
      Insert(s[0], SortBy(s[1..], key), key)
  }

  /** Sorting keeps exactly the elements, and the first one has the least key. */
  lemma SortByMembers<T>(s: seq<T>, key: T -> real)
    ensures forall x :: x in SortBy(s, key) <==> x in s
    ensures s != [] ==> forall x | x in s :: key(SortBy(s, key)[0]) <= key(x)
  {
    var r := SortBy(s, key);
    forall x ensures x in r <==> x in s {
      assert x in r <==> x in multiset(r);
    }
    if s != [] {
      forall x | x in s ensures key(r[0]) <= key(x) {
        var k :| 0 <= k < |r| && r[k] == x;
      }
    }
  }

  /** Sorting a sequence that is already sorted leaves it as it is. */
  lemma {:induction false} SortBySorted<T>(s: seq<T>, key: T -> real)
    requires SortedBy(s, key)
    ensures SortBy(s, key) == s
  {
    if s != [] {
      SortBySorted(s[1..], key);
      assert s == [s[0]] + s[1..];
    }
  }

  lemma {:induction false} InsertMembers<T(!new)>(x: T, t: seq<T>, key: T -> real, k: real)
    ensures Members(Insert(x, t, key), key, k)
         == (if key(x) == k then [x] else []) + Members(t, key, k)
  {
    if t == [] || key(x) <= key(t[0]) {
      MembersCons(x, t, key, k);
    } else {
      var rest := Insert(x, t[1..], key);
      InsertMembers(x, t[1..], key, k);
      MembersCons(t[0], rest, key, k);
      MembersCons(t[0], t[1..], key, k);
      assert [t[0]] + t[1..] == t;
      var h := if key(t[0]) == k then [t[0]] else [];
      var m := if key(x) == k then [x] else [];
      var tail := Members(t[1..], key, k);
      assert h == [] || m == [];
      PrependEither(h, m, tail);
    }
  }

  lemma PrependEither<T>(h: seq<T>, m: seq<T>, tail: seq<T>)
    requires h == [] || m == []
    ensures h + (m + tail) == m + (h + tail)
  {
    if h == [] {
      assert h + (m + tail) == m + tail;
    } else {
      assert m + (h + tail) == h + tail;
    }
  }

  lemma MembersCons<T(!new), K>(h: T, s: seq<T>, key: T -> K, k: K)
    ensures Members([h] + s, key, k) == (if key(h) == k then [h] else []) + Members(s, key, k)
  {
    assert ([h] + s)[1..] == s;
  }

  /** Stability: among elements with equal keys, `SortBy` keeps the input
      order. */
  lemma {:induction false} SortByStable<T(!new)>(s: seq<T>, key: T -> real, k: real)
    ensures Members(SortBy(s, key), key, k) == Members(s, key, k)
  {
    if s != [] {
      SortByStable(s[1..], key, k);
      InsertMembers(s[0], SortBy(s[1..], key), key, k);
    }
  }

  // Grouping -------------------------------------------------------------------

  /** Sum of the sizes of the groups of `s` named by `order`. */
  function GroupSizes<T(!new), K(==)>(order: seq<K>, s: seq<T>, key: T -> K): nat
  {
    if order == [] then 0
    else GroupSizes(order[..|order| - 1], s, key) + |Members(s, key, order[|order| - 1])|
  }

  lemma {:induction false} GroupSizesStep<T(!new), K(!new)>(order: seq<K>, s: seq<T>, x: T, key: T -> K)
    requires NoDuplicates(order)
    ensures GroupSizes(order, s + [x], key)
         == GroupSizes(order, s, key) + (if key(x) in order then 1 else 0)
  {
    if order != [] {
      var init := order[..|order| - 1];
      var last := order[|order| - 1];
      assert NoDuplicates(init);
      GroupSizesStep(init, s, x, key);
      MembersAppend(s, [x], key, last);
      assert [x][1..] == [];
      if key(x) in init {
        assert key(x) != last;
      } else if key(x) == last {
      } else {
        assert key(x) !in order;
      }
    }
  }

  /** The groups named by the distinct keys of `s` partition `s`: their sizes
      add up to the length of `s`. */
  lemma {:induction false} GroupsPartition<T(!new), K(!new)>(s: seq<T>, key: T -> K)
    ensures GroupSizes(Distinct(MapSeq(s, key)), s, key) == |s|
  {
    if s != [] {
      var n := |s| - 1;
      var p, x := s[..n], s[n];
      GroupsPartition(p, key);
      var d := Distinct(MapSeq(p, key));
      assert s == p + [x];
      assert MapSeq(s, key)[..n] == MapSeq(p, key);
      if key(x) in d {
        assert Distinct(MapSeq(s, key)) == d;
        GroupSizesStep(d, p, x, key);
      } else {
        assert Distinct(MapSeq(s, key)) == d + [key(x)];
        GroupSizesFresh(d, p, x, key);
      }
    }
  }

  /** A key seen for the first time adds a group of one. */
  lemma GroupSizesFresh<T(!new), K(!new)>(d: seq<K>, p: seq<T>, x: T, key: T -> K)
    requires NoDuplicates(d) && key(x) !in d && key(x) !in MapSeq(p, key)
    ensures GroupSizes(d + [key(x)], p + [x], key) == GroupSizes(d, p, key) + 1
  {
    GroupSizesStep(d, p, x, key);
    assert (d + [key(x)])[..|d|] == d;
    MembersAbsent(p, key, key(x));
    MembersSnoc(p, x, key, key(x));
  }

  lemma GroupStep<T(!new), K(!new)>(s: seq<T>, i: nat, key: T -> K)
    requires i < |s|
    ensures var d := Distinct(MapSeq(s[..i], key));
      Distinct(MapSeq(s[..i + 1], key)) == if key(s[i]) in d then d else d + [key(s[i])]
    ensures forall k ::
      Members(s[..i + 1], key, k) == Members(s[..i], key, k) + (if key(s[i]) == k then [s[i]] else [])
  {
    assert s[..i + 1] == s[..i] + [s[i]];
    var q := MapSeq(s[..i + 1], key);
    assert q[..i] == MapSeq(s[..i], key);
    forall k ensures Members(s[..i + 1], key, k)
      == Members(s[..i], key, k) + (if key(s[i]) == k then [s[i]] else [])
    {
      MembersSnoc(s[..i], s[i], key, k);
    }
  }

  /** Groups `s` by `key` the way `forEach`/`reduce` code fills a map of
      arrays: keys in order of first appearance, each group in input order. */
  method GroupBy<T(!new), K(==,!new)>(s: seq<T>, key: T -> K) returns (order: seq<K>, groups: map<K, seq<T>>)
    ensures order == Distinct(MapSeq(s, key))
    ensures forall k :: k in groups <==> k in order
    ensures forall k | k in groups :: groups[k] == Members(s, key, k)
  {
    order, groups := [], map[];
    var i := 0;
    while i < |s|
      invariant 0 <= i <= |s|
      invariant order == Distinct(MapSeq(s[..i], key))
      invariant forall k :: k in groups <==> k in order
      invariant forall k | k in groups :: groups[k] == Members(s[..i], key, k)
    {
      order, groups := GroupNext(s, i, key, order, groups);
      i := i + 1;
    }
    assert s[..i] == s;
  }

  /** One step of `GroupBy`: files `s[i]` under its key. */
  method GroupNext<T(!new), K(==,!new)>(s: seq<T>, i: nat, key: T -> K, order0: seq<K>, groups0: map<K, seq<T>>)
    returns (order: seq<K>, groups: map<K, seq<T>>)
    requires i < |s|
    requires order0 == Distinct(MapSeq(s[..i], key))
    requires forall k :: k in groups0 <==> k in order0
    requires forall k | k in groups0 :: groups0[k] == Members(s[..i], key, k)
    ensures order == Distinct(MapSeq(s[..i + 1], key))
    ensures forall k :: k in groups <==> k in order
    ensures forall k | k in groups :: groups[k] == Members(s[..i + 1], key, k)
  {
    order, groups := order0, groups0;
    var k := key(s[i]);
    GroupStep(s, i, key);
    if k in groups {
      groups := groups[k := groups[k] + [s[i]]];
    } else {
      MembersAbsent(s[..i], key, k);
      order := order + [k];
      groups := groups[k := [s[i]]];
    }
    forall k' | k' in groups ensures groups[k'] == Members(s[..i + 1], key, k') {
      if k' != k { assert groups[k'] == groups0[k']; }
    }
  }
}
