/** The PHP string built-ins the library relies on, over `seq<char>`, and
    decimal conversion between integers and digit strings. */
module Text {
  import opened Outcomes

  /** `str_starts_with($s, $prefix)`: the empty prefix starts every string. */
  predicate StartsWith(s: string, prefix: string) {
    |prefix| <= |s| && s[..|prefix|] == prefix
  }

  /** `str_ends_with($s, $suffix)`. */
  predicate EndsWith(s: string, suffix: string) {
    |suffix| <= |s| && s[|s| - |suffix|..] == suffix
  }

  /** `str_contains($haystack, $needle)`: some suffix of the haystack starts with the needle. */
  predicate Contains(haystack: string, needle: string)
    decreases |haystack|
  {
    StartsWith(haystack, needle) || (|haystack| > 0 && Contains(haystack[1..], needle))
  }

  /** `Contains` holds exactly when the needle occurs at some position. */
  lemma {:induction false} ContainsIffOccurs(haystack: string, needle: string)
    ensures Contains(haystack, needle) <==>
            exists i :: 0 <= i <= |haystack| && StartsWith(haystack[i..], needle)
    decreases |haystack|
  {
    assert haystack[0..] == haystack;
    if |haystack| > 0 {
      ContainsIffOccurs(haystack[1..], needle);
      if Contains(haystack[1..], needle) {
        var i :| 0 <= i <= |haystack[1..]| && StartsWith(haystack[1..][i..], needle);
        assert haystack[1..][i..] == haystack[i + 1..];
        assert StartsWith(haystack[i + 1..], needle);
      }
      if exists i :: 0 <= i <= |haystack| && StartsWith(haystack[i..], needle) {
        var i :| 0 <= i <= |haystack| && StartsWith(haystack[i..], needle);
        if i > 0 {
          assert haystack[1..][i - 1..] == haystack[i..];
          assert StartsWith(haystack[1..][i - 1..], needle);
        }
      }
    }
  }

  /** Concatenation regroups. */
  lemma Regroup(h: string, a: string, b: string)
    ensures h + a + b == h + (a + b)
  {
  }

  /** A concatenation starts with its first part and ends with its second. */
  lemma ConcatEnds(a: string, b: string)
    ensures StartsWith(a + b, a) && EndsWith(a + b, b)
  {
    assert (a + b)[..|a|] == a;
    assert (a + b)[|a|..] == b;
  }

  /** A string whose tail from `i` is `a + b` ends with `b`. */
  lemma EndsWithTail(s: string, i: nat, a: string, b: string)
    requires i <= |s| && s[i..] == a + b
    ensures EndsWith(s, b)
  {
    assert s[|s| - |b|..] == s[i..][|a|..];
  }

  /** What follows a prefix `a + b` starts with `b`. */
  lemma StartsWithRest(t: string, a: string, b: string)
    requires StartsWith(t, a + b)
    ensures StartsWith(t[|a|..], b)
  {
    assert t[|a|..][..|b|] == (a + b)[|a|..];
  }

  /** A needle that starts some suffix is contained. */
  lemma ContainsAt(haystack: string, needle: string, i: nat)
    requires i <= |haystack| && StartsWith(haystack[i..], needle)
    ensures Contains(haystack, needle)
  {
    ContainsIffOccurs(haystack, needle);
  }

  /** `str_repeat(c, n)`. */
  function Repeat(c: char, n: nat): (r: string)
    ensures |r| == n && forall i :: 0 <= i < n ==> r[i] == c
  {
    seq(n, _ => c)
  }

  /** `str_pad($s, $width, c, STR_PAD_LEFT)`. */
  function PadLeft(s: string, width: nat, c: char): (r: string)
    ensures |r| == if |s| < width then width else |s|
    ensures EndsWith(r, s)
    ensures forall i :: 0 <= i < |r| - |s| ==> r[i] == c
  {
    if |s| < width then Repeat(c, width - |s|) + s else s
  }

  /** `str_replace(from, to, $s)` for single characters. */
  function ReplaceChar(s: string, from: char, to: char): (r: string)
    ensures |r| == |s|
    ensures forall i :: 0 <= i < |s| ==> r[i] == if s[i] == from then to else s[i]
  {
    seq(|s|, i requires 0 <= i < |s| => if s[i] == from then to else s[i])
  }

  /** `implode($sep, $parts)`. */
  function Join(parts: seq<string>, sep: string): string
  {
    if |parts| == 0 then ""
    else if |parts| == 1 then parts[0]
    else parts[0] + sep + Join(parts[1..], sep)
  }

  /** `explode($sep, $s)` for a one-character separator: the pieces between separators. */
  function Explode(s: string, sep: char): (parts: seq<string>)
    ensures |parts| >= 1
    ensures forall k :: 0 <= k < |parts| ==> sep !in parts[k]
  {
    if |s| == 0 then [""]
    else
      var rest := Explode(s[1..], sep);
      if s[0] == sep then [""] + rest
      else [[s[0]] + rest[0]] + rest[1..]
  }

  /** Joining the pieces of `explode` with the separator gives back the string. */
  lemma {:induction false} JoinExplode(s: string, sep: char)
    ensures Join(Explode(s, sep), [sep]) == s
  {
    if |s| > 0 {
      JoinExplode(s[1..], sep);
      var rest := Explode(s[1..], sep);
      if s[0] == sep {
        assert Explode(s, sep) == [""] + rest;
        assert ([""] + rest)[1..] == rest;
      } else {
        var parts := [[s[0]] + rest[0]] + rest[1..];
        assert Explode(s, sep) == parts;
        if |rest| == 1 {
          assert Join(rest, [sep]) == rest[0];
        } else {
          assert parts[1..] == rest[1..];
          assert Join(rest, [sep]) == rest[0] + [sep] + Join(rest[1..], [sep]);
        }
      }
    }
  }

  /** A piece without the separator explodes to itself. */
  lemma {:induction false} ExplodeNoSep(s: string, sep: char)
    requires sep !in s
    ensures Explode(s, sep) == [s]
  {
    if |s| > 0 {
      ExplodeNoSep(s[1..], sep);
      assert [s[0]] + s[1..] == s;
    }
  }

  /** A piece followed by the separator explodes to that piece, then the rest's pieces. */
  lemma {:induction false} ExplodeAfterPiece(a: string, b: string, sep: char)
    requires sep !in a
    ensures Explode(a + [sep] + b, sep) == [a] + Explode(b, sep)
  {
    var s := a + [sep] + b;
    if |a| == 0 {
      assert s[1..] == b;
    } else {
      assert s[1..] == a[1..] + [sep] + b;
      ExplodeAfterPiece(a[1..], b, sep);
      assert [a[0]] + a[1..] == a;
    }
  }

  /** `explode` undoes `implode` when no piece holds the separator. */
  lemma {:induction false} ExplodeJoin(parts: seq<string>, sep: char)
    requires |parts| >= 1
    requires forall k :: 0 <= k < |parts| ==> sep !in parts[k]
    ensures Explode(Join(parts, [sep]), sep) == parts
  {
    if |parts| == 1 {
      ExplodeNoSep(parts[0], sep);
    } else {
      ExplodeJoin(parts[1..], sep);
      ExplodeAfterPiece(parts[0], Join(parts[1..], [sep]), sep);
      assert [parts[0]] + parts[1..] == parts;
    }
  }

  /** Joining with one more piece at the end adds the separator and that piece. */
  lemma {:induction false} JoinSnoc(parts: seq<string>, b: string, sep: string)
    requires |parts| >= 1
    ensures Join(parts + [b], sep) == Join(parts, sep) + sep + b
  {
    if |parts| > 1 {
      assert (parts + [b])[1..] == parts[1..] + [b];
      JoinSnoc(parts[1..], b, sep);
    }
  }

  /** A separator ending in `pad`, with `pad` in front, joins the pieces each
      prefixed by `pad`. */
  lemma {:induction false} JoinPrefixed(pad: string, parts: seq<string>, sep: string)
    requires |parts| >= 1
    ensures pad + Join(parts, sep + pad) == Join(seq(|parts|, i requires 0 <= i < |parts| => pad + parts[i]), sep)
  {
    var padded := seq(|parts|, i requires 0 <= i < |parts| => pad + parts[i]);
    if |parts| > 1 {
      JoinPrefixed(pad, parts[1..], sep);
      assert padded[1..] == seq(|parts[1..]|, i requires 0 <= i < |parts[1..]| => pad + parts[1..][i]);
    }
  }

  /** The index of the last occurrence of `c`, if any (what a greedy `.+c` settles on). */
  function LastIndexOf(s: string, c: char): (r: Option<nat>)
    ensures r.None? <==> c !in s
    ensures r.Some? ==> r.value < |s| && s[r.value] == c &&
                        forall j :: r.value < j < |s| ==> s[j] != c
  {
    if |s| == 0 then None
    else if s[|s| - 1] == c then Some(|s| - 1)
    else
      var r := LastIndexOf(s[..|s| - 1], c);
      assert s == s[..|s| - 1] + [s[|s| - 1]];
      r
  }

  /** The last `c` of `a + [c] + b` is the one after `a` when `b` holds none. */
  lemma LastIndexOfAfter(a: string, c: char, b: string)
    requires c !in b
    ensures LastIndexOf(a + [c] + b, c) == Some(|a|)
  {
    var s := a + [c] + b;
    assert s[|a|] == c;
    var r := LastIndexOf(s, c);
    assert r.Some?;
    assert s[|a| + 1..] == b;
  }

  /** Length of the longest prefix of `s` whose characters all belong to a class
      (what a greedy `[class]*` consumes). */
  function RunLength(s: string, inClass: char -> bool): (n: nat)
    ensures n <= |s|
    ensures forall i :: 0 <= i < n ==> inClass(s[i])
    ensures n < |s| ==> !inClass(s[n])
  {
    if |s| == 0 || !inClass(s[0]) then 0 else 1 + RunLength(s[1..], inClass)
  }

  /** A run that covers the first `n` characters and stops at the next has length `n`. */
  lemma {:induction false} RunLengthStops(s: string, inClass: char -> bool, n: nat)
    requires n <= |s|
    requires forall i :: 0 <= i < n ==> inClass(s[i])
    requires n < |s| ==> !inClass(s[n])
    ensures RunLength(s, inClass) == n
  {
    if n > 0 {
      RunLengthStops(s[1..], inClass, n - 1);
    }
  }

  /** In `x + sep + rest`, with `x` all in the class and `sep` starting outside
      it, the run is `x` and `sep` and `rest` follow it. */
  lemma RunThen(u: string, x: string, sep: string, rest: string, inClass: char -> bool)
    requires u == x + sep + rest
    requires forall i :: 0 <= i < |x| ==> inClass(x[i])
    requires |sep| >= 1 && !inClass(sep[0])
    ensures RunLength(u, inClass) == |x|
    ensures u[..|x|] == x && StartsWith(u[|x|..], sep) && u[|x| + |sep|..] == rest
  {
    forall i | 0 <= i < |x| ensures inClass(u[i]) {
      assert u[i] == x[i];
    }
    assert u[|x|] == sep[0];
    RunLengthStops(u, inClass, |x|);
    assert u[..|x|] == x;
    assert u[|x|..][..|sep|] == sep;
    assert u[|x| + |sep|..] == rest;
  }

  /** The largest position from `i` down to 1 that passes the test (how a greedy
      group backtracks). */
  function LastWhere(i: nat, ok: nat -> bool): (r: Option<nat>)
    ensures r.Some? ==> 1 <= r.value <= i && ok(r.value)
  {
    if i == 0 then None else if ok(i) then Some(i) else LastWhere(i - 1, ok)
  }

  /** The search settles on `p` when `p` passes and nothing above it does. */
  lemma {:induction false} LastWhereFinds(i: nat, p: nat, ok: nat -> bool)
    requires 1 <= p <= i && ok(p)
    requires forall j :: p < j <= i ==> !ok(j)
    ensures LastWhere(i, ok) == Some(p)
  {
    if i > p {
      LastWhereFinds(i - 1, p, ok);
    }
  }

  /** The smallest position from `j` up to `n` that passes the test (where an
      unanchored pattern first matches). */
  function FirstWhere(j: nat, n: nat, ok: nat -> bool): (r: Option<nat>)
    ensures r.Some? ==> j <= r.value <= n && ok(r.value)
    decreases n - j
  {
    if j > n then None else if ok(j) then Some(j) else if j == n then None else FirstWhere(j + 1, n, ok)
  }

  /** The search settles on `p` when `p` passes and nothing before it does. */
  lemma {:induction false} FirstWhereFinds(j: nat, p: nat, n: nat, ok: nat -> bool)
    requires j <= p <= n && ok(p)
    requires forall k: nat :: j <= k < p ==> !ok(k)
    ensures FirstWhere(j, n, ok) == Some(p)
    decreases p - j
  {
    if j < p {
      FirstWhereFinds(j + 1, p, n, ok);
    }
  }

  /** The search finds nothing when no position passes. */
  lemma {:induction false} FirstWhereNone(j: nat, n: nat, ok: nat -> bool)
    requires forall k: nat :: j <= k <= n ==> !ok(k)
    ensures FirstWhere(j, n, ok).None?
    decreases n - j
  {
    if j < n {
      FirstWhereNone(j + 1, n, ok);
    }
  }

  /** The characters PHP's `trim` strips by default: " \t\n\r\0\x0B". */
  const TRIM_CHARS: string := " \t\n\r\0\U{000B}"

  function TrimLeft(s: string): (r: string)
    ensures |r| <= |s| && EndsWith(s, r)
    ensures |r| > 0 ==> r[0] !in TRIM_CHARS
    ensures forall i :: 0 <= i < |s| - |r| ==> s[i] in TRIM_CHARS
  {
    if |s| > 0 && s[0] in TRIM_CHARS then TrimLeft(s[1..]) else s
  }

  function TrimRight(s: string): (r: string)
    ensures |r| <= |s| && StartsWith(s, r)
    ensures |r| > 0 ==> r[|r| - 1] !in TRIM_CHARS
    ensures forall i :: |r| <= i < |s| ==> s[i] in TRIM_CHARS
  {
    if |s| > 0 && s[|s| - 1] in TRIM_CHARS then TrimRight(s[..|s| - 1]) else s
  }

  /** PHP `trim($s)`. */
  function Trim(s: string): (r: string)
    ensures |r| <= |s|
    ensures |r| > 0 ==> r[0] !in TRIM_CHARS && r[|r| - 1] !in TRIM_CHARS
    ensures var k := |s| - |TrimLeft(s)|;
            k + |r| <= |s| && r == s[k..k + |r|] &&
            (forall i :: 0 <= i < k ==> s[i] in TRIM_CHARS) &&
            (forall i :: k + |r| <= i < |s| ==> s[i] in TRIM_CHARS)
  {
    TrimRight(TrimLeft(s))
  }

  // ---------------------------------------------------------------------------
  // Decimal numbers

  predicate IsDigit(c: char) { '0' <= c <= '9' }

  predicate AllDigits(s: string) { forall i :: 0 <= i < |s| ==> IsDigit(s[i]) }

  function DigitChar(d: nat): (c: char)
    requires d < 10
    ensures IsDigit(c) && c as int - '0' as int == d
  {
    ('0' as int + d) as char
  }

  /** `(string)$n` for a non-negative integer: no leading zeros. */
  function NatToString(n: nat): (s: string)
    ensures |s| >= 1 && AllDigits(s)
    ensures |s| > 1 ==> s[0] != '0'
  {
    if n < 10 then [DigitChar(n)] else NatToString(n / 10) + [DigitChar(n % 10)]
  }

  /** `(string)$i` for any integer. */
  function IntToString(i: int): (s: string)
    ensures |s| >= 1
  {
    if i < 0 then "-" + NatToString(-i) else NatToString(i)
  }

  /** The number a string of decimal digits denotes (unbounded). */
  function DigitsValue(s: string): nat
    requires AllDigits(s)
  {
    if |s| == 0 then 0
    else DigitsValue(s[..|s| - 1]) * 10 + (s[|s| - 1] as int - '0' as int)
  }

  /** PHP_INT_MAX on a 64-bit build. */
  const PHP_INT_MAX: int := 0x7FFF_FFFF_FFFF_FFFF

  /** `(int)$digits`: PHP saturates a decimal string that overflows at PHP_INT_MAX. */
  function ParseInt(s: string): (n: int)
    requires AllDigits(s)
    ensures 0 <= n <= PHP_INT_MAX
    ensures DigitsValue(s) <= PHP_INT_MAX ==> n == DigitsValue(s)
  {
    if DigitsValue(s) <= PHP_INT_MAX then DigitsValue(s) else PHP_INT_MAX
  }

  /** Reading back the decimal form of a number gives the number. */
  lemma {:induction false} NatToStringRoundTrip(n: nat)
    ensures DigitsValue(NatToString(n)) == n
  {
    if n >= 10 {
      NatToStringRoundTrip(n / 10);
      var s := NatToString(n);
      assert s[..|s| - 1] == NatToString(n / 10);
    }
  }

  /** The decimal form of a smaller number is never longer. */
  lemma {:induction false} NatToStringMonotone(a: nat, b: nat)
    requires a <= b
    ensures |NatToString(a)| <= |NatToString(b)|
  {
    if a >= 10 {
      NatToStringMonotone(a / 10, b / 10);
    }
  }
}
