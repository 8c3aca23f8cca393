/**
 * The few PHP language rules the server's decisions depend on: the
 * truthiness of strings, `strtolower`, `explode` and `intval`.
 */
module Php {
  import opened Wrappers

  /** A PHP string is falsy exactly when it is "" or "0". */
  predicate Truthy(s: string) {
    s != "" && s != "0"
  }

  /** `null` is falsy; a present string follows `Truthy`. */
  predicate TruthyOpt(o: Option<string>) {
    o.Some? && Truthy(o.value)
  }

  /** A string converted with `(string)`: `null` becomes "". */
  function StringOf(o: Option<string>): string {
    o.GetOr("")
  }

  function LowerChar(c: char): char {
    if 'A' <= c <= 'Z' then (c as int + 32) as char else c
  }

  /** `strtolower`, on ASCII letters. */
  function ToLower(s: string): (r: string)
    ensures |r| == |s|
    ensures forall i :: 0 <= i < |s| ==> !('A' <= r[i] <= 'Z')
    ensures forall i :: 0 <= i < |s| && !('A' <= s[i] <= 'Z') ==> r[i] == s[i]
  {
    seq(|s|, i requires 0 <= i < |s| => LowerChar(s[i]))
  }

  lemma ToLowerIdempotent(s: string)
    ensures ToLower(ToLower(s)) == ToLower(s)
  {
  }

  /** `explode($sep, $s)`: the pieces of `s` between occurrences of `sep`. */
  function Explode(sep: char, s: string): (parts: seq<string>)
    ensures |parts| == 1 + CountChar(sep, s)
    ensures forall i, j :: 0 <= i < |parts| && 0 <= j < |parts[i]| ==> parts[i][j] != sep
    decreases |s|
  {
    if |s| == 0 then [""]
    else if s[0] == sep then [""] + Explode(sep, s[1..])
    else
      var rest := Explode(sep, s[1..]);
      [[s[0]] + rest[0]] + rest[1..]
  }

  function CountChar(c: char, s: string): nat
    decreases |s|
  {
    if |s| == 0 then 0 else (if s[0] == c then 1 else 0) + CountChar(c, s[1..])
  }

  /** `implode($sep, $parts)`. */
  function Implode(sep: char, parts: seq<string>): string
    requires |parts| >= 1
    decreases |parts|
  {
    if |parts| == 1 then parts[0] else parts[0] + [sep] + Implode(sep, parts[1..])
  }

  /** Exploding loses nothing: joining the pieces gives the string back. */
  lemma {:induction false} ImplodeExplode(sep: char, s: string)
    ensures Implode(sep, Explode(sep, s)) == s
    decreases |s|
  {
    if |s| == 0 {
    } else if s[0] == sep {
      ImplodeExplode(sep, s[1..]);
      assert s == [sep] + s[1..];
    } else {
      var rest := Explode(sep, s[1..]);
      ImplodeExplode(sep, s[1..]);
      if |rest| == 1 {
        assert s == [s[0]] + s[1..];
      } else {
        assert Implode(sep, rest) == rest[0] + [sep] + Implode(sep, rest[1..]);
        assert s == [s[0]] + s[1..];
      }
    }
  }

  /** A piece without the separator explodes to itself. */
  lemma {:induction false} ExplodeNoSep(sep: char, a: string)
    requires forall k :: 0 <= k < |a| ==> a[k] != sep
    ensures Explode(sep, a) == [a]
    decreases |a|
  {
    if |a| > 0 {
      ExplodeNoSep(sep, a[1..]);
      assert a == [a[0]] + a[1..];
    }
  }

  /** The first separator ends the first piece. */
  lemma {:induction false} ExplodeSplit(sep: char, a: string, b: string)
    requires forall k :: 0 <= k < |a| ==> a[k] != sep
    ensures Explode(sep, a + [sep] + b) == [a] + Explode(sep, b)
    decreases |a|
  {
    var s := a + [sep] + b;
    if |a| == 0 {
      assert s == [sep] + b;
      assert s[1..] == b;
    } else {
      assert s[1..] == a[1..] + [sep] + b;
      ExplodeSplit(sep, a[1..], b);
      assert [s[0]] + a[1..] == a;
    }
  }

  /** Joining with a separator no piece contains can be undone by exploding. */
  lemma {:induction false} ExplodeImplode(sep: char, parts: seq<string>)
    requires |parts| >= 1
    requires forall i, k :: 0 <= i < |parts| && 0 <= k < |parts[i]| ==> parts[i][k] != sep
    ensures Explode(sep, Implode(sep, parts)) == parts
    decreases |parts|
  {
    if |parts| == 1 {
      ExplodeNoSep(sep, parts[0]);
    } else {
      ExplodeImplode(sep, parts[1..]);
      ExplodeSplit(sep, parts[0], Implode(sep, parts[1..]));
      assert [parts[0]] + parts[1..] == parts;
    }
  }

  /** Appending a piece appends the separator and the piece. */
  lemma {:induction false} ImplodeSnoc(sep: char, parts: seq<string>, x: string)
    requires |parts| >= 1
    ensures Implode(sep, parts + [x]) == Implode(sep, parts) + [sep] + x
    decreases |parts|
  {
    if |parts| == 1 {
      assert (parts + [x])[1..] == [x];
    } else {
      assert (parts + [x])[1..] == parts[1..] + [x];
      ImplodeSnoc(sep, parts[1..], x);
    }
  }

  lemma {:induction false} CountCharAppend(c: char, s: string, t: string)
    ensures CountChar(c, s + t) == CountChar(c, s) + CountChar(c, t)
    decreases |s|
  {
    if |s| == 0 {
      assert s + t == t;
    } else {
      assert (s + t)[1..] == s[1..] + t;
      CountCharAppend(c, s[1..], t);
    }
  }

  // ---- arrays with string keys ----

  /** The keys of a PHP array of (key, value) entries in insertion order. */
  function Keys(a: seq<(string, string)>): set<string>
    decreases |a|
  {
    if |a| == 0 then {} else {a[0].0} + Keys(a[1..])
  }

  /** No key occurs twice, as in every PHP array. */
  predicate DistinctKeys(a: seq<(string, string)>)
    decreases |a|
  {
    |a| == 0 || (a[0].0 !in Keys(a[1..]) && DistinctKeys(a[1..]))
  }

  /** `$a[$k]`: the value of the (first) entry with key `k`. */
  function ArrayGet(a: seq<(string, string)>, k: string): (r: Option<string>)
    ensures r.Some? <==> k in Keys(a)
    ensures r.Some? ==> (k, r.value) in a
    decreases |a|
  {
    if |a| == 0 then None
    else if a[0].0 == k then Some(a[0].1)
    else
      var r := ArrayGet(a[1..], k);
      assert r.Some? ==> (k, r.value) in a by {
        if r.Some? {
          var i :| 0 <= i < |a[1..]| && a[1..][i] == (k, r.value);
          assert a[i + 1] == (k, r.value);
        }
      }
      r
  }

  /**
   * `$a[$k] = $v`: an existing key keeps its place and takes the new value,
   * a new key is appended at the end.
   */
  function ArraySet(a: seq<(string, string)>, k: string, v: string): (r: seq<(string, string)>)
    ensures Keys(r) == Keys(a) + {k}
    ensures k in Keys(a) ==> |r| == |a| && forall i :: 0 <= i < |a| ==> r[i].0 == a[i].0
    ensures k !in Keys(a) ==> r == a + [(k, v)]
    ensures DistinctKeys(a) ==> DistinctKeys(r)
    decreases |a|
  {
    if |a| == 0 then [(k, v)]
    else if a[0].0 == k then
      assert ([(k, v)] + a[1..])[1..] == a[1..];
      [(k, v)] + a[1..]
    else
      var rest := ArraySet(a[1..], k, v);
      assert ([a[0]] + rest)[1..] == rest;
      assert k !in Keys(a) ==> a + [(k, v)] == [a[0]] + (a[1..] + [(k, v)]);
      [a[0]] + rest
  }

  /** After `$a[$k] = $v`, reading `k` gives `v` and every other key reads as before. */
  lemma {:induction false} ArraySetGet(a: seq<(string, string)>, k: string, v: string, k': string)
    ensures ArrayGet(ArraySet(a, k, v), k') == if k' == k then Some(v) else ArrayGet(a, k')
    decreases |a|
  {
    if |a| > 0 && a[0].0 != k {
      ArraySetGet(a[1..], k, v, k');
      var r := ArraySet(a, k, v);
      assert r[1..] == ArraySet(a[1..], k, v);
    }
  }

  // ---- intval ----

  predicate IsDigit(c: char) {
    '0' <= c <= '9'
  }

  /** The characters `intval` skips before the number: space, \t, \n, \r, \v and \f. */
  predicate IsSpace(c: char) {
    c == ' ' || c == '\t' || c == '\n' || c == '\r' || c == 11 as char || c == 12 as char
  }

  /** The length of the leading run of characters satisfying `p`. */
  function Run(s: string, p: char -> bool): (n: nat)
    ensures n <= |s|
    ensures forall i :: 0 <= i < n ==> p(s[i])
    ensures n < |s| ==> !p(s[n])
    decreases |s|
  {
    if |s| > 0 && p(s[0]) then 1 + Run(s[1..], p) else 0
  }

  /** The number a string of decimal digits denotes. */
  function DigitsValue(d: string): nat
    requires forall i :: 0 <= i < |d| ==> IsDigit(d[i])
    decreases |d|
  {
    if |d| == 0 then 0
    else
      assert IsDigit(d[|d| - 1]);
      DigitsValue(d[..|d| - 1]) * 10 + (d[|d| - 1] as int - '0' as int)
  }

  /**
   * `intval` of a string: leading white space is skipped, then an optional
   * sign and the longest run of decimal digits are read; no digits reads as 0.
   */
  function IntVal(s: string): int {
    var t := s[Run(s, IsSpace)..];
    var u := if |t| > 0 && (t[0] == '-' || t[0] == '+') then t[1..] else t;
    var v := DigitsValue(u[..Run(u, IsDigit)]);
    if |t| > 0 && t[0] == '-' then -(v as int) else v
  }

  /** The decimal digits of a natural number, without leading zeros. */
  function Digits(n: nat): (d: string)
    ensures |d| >= 1 && forall i :: 0 <= i < |d| ==> IsDigit(d[i])
    decreases n
  {
    if n < 10 then [('0' as int + n) as char] else Digits(n / 10) + [('0' as int + n % 10) as char]
  }

  /** The decimal rendering of an integer, as PHP writes it. */
  function Decimal(n: int): string {
    if n < 0 then "-" + Digits(-n) else Digits(n)
  }

  lemma {:induction false} DigitsValueOfDigits(n: nat)
    ensures DigitsValue(Digits(n)) == n
    decreases n
  {
    if n >= 10 {
      DigitsValueOfDigits(n / 10);
      var d := Digits(n);
      assert d[..|d| - 1] == Digits(n / 10);
    }
  }

  /** `intval` reads back every integer PHP writes. */
  lemma IntValOfDecimal(n: int)
    ensures IntVal(Decimal(n)) == n
  {
    var s := Decimal(n);
    assert !IsSpace(s[0]);
    assert Run(s, IsSpace) == 0;
    var d := if n < 0 then Digits(-n) else Digits(n);
    assert Run(d, IsDigit) == |d| by {
      RunAll(d, IsDigit);
    }
    assert d[..|d|] == d;
    DigitsValueOfDigits(if n < 0 then -n else n);
    if n < 0 {
      assert s[1..] == d;
    }
  }

  lemma {:induction false} RunAll(s: string, p: char -> bool)
    requires forall i :: 0 <= i < |s| ==> p(s[i])
    ensures Run(s, p) == |s|
    decreases |s|
  {
    if |s| > 0 {
      RunAll(s[1..], p);
    }
  }
}
