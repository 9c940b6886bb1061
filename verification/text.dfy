/**
 * Literal (non-regex) string replacement, as `replaceAllLiteral` does it:
 * `haystack.split(needle).join(value)`. `Split` follows JavaScript's
 * `String.prototype.split` with a non-empty string separator (leftmost,
 * non-overlapping matches) and `Join` follows `Array.prototype.join`.
 * `ReplaceEach` is an independent left-to-right scanning definition of
 * "replace every occurrence"; the two are proved equal.
 */
module Text {

  /** `n` occurs at the very start of `s`. */
  predicate IsPrefix(n: string, s: string)
  {
    |n| <= |s| && s[..|n|] == n
  }

  /** `n` occurs somewhere in `s`. */
  predicate Contains(s: string, n: string)
  {
    exists i :: 0 <= i <= |s| && IsPrefix(n, s[i..])
  }

  /**
   * `a` and `b` differ at some index below both lengths, so `b` cannot occur at the
   * start of `a` however `a` continues. Written recursively so that the verifier can
   * evaluate it on literal strings.
   */
  predicate Clash(a: string, b: string)
  {
    |a| > 0 && |b| > 0 && (a[0] != b[0] || Clash(a[1..], b[1..]))
  }

  /** No occurrence of `n` can start inside `x`, whatever follows `x`. */
  predicate Guarded(x: string, n: string)
  {
    forall i :: 0 <= i < |x| ==> Clash(x[i..], n)
  }

  /** JavaScript `haystack.split(sep)` for a non-empty separator. */
  function Split(h: string, sep: string): (parts: seq<string>)
    requires |sep| > 0
    ensures |parts| >= 1
    decreases |h|
  {
    if |h| == 0 then [""]
    else if IsPrefix(sep, h) then [""] + Split(h[|sep|..], sep)
    else
      var rest := Split(h[1..], sep);
      [[h[0]] + rest[0]] + rest[1..]
  }

  /** JavaScript `parts.join(v)`. */
  function Join(parts: seq<string>, v: string): string
    decreases |parts|
  {
    if |parts| == 0 then ""
    else if |parts| == 1 then parts[0]
    else parts[0] + v + Join(parts[1..], v)
  }

  /** Reference definition: scan left to right, replacing each occurrence of `n` and skipping past it. */
  function ReplaceEach(h: string, n: string, v: string): string
    requires |n| > 0
    decreases |h|
  {
    if |h| == 0 then ""
    else if IsPrefix(n, h) then v + ReplaceEach(h[|n|..], n, v)
    else [h[0]] + ReplaceEach(h[1..], n, v)
  }

  /** `replaceAllLiteral(haystack, needle, value)` (printUtils.ts:13-16). */
  function ReplaceAllLiteral(haystack: string, needle: string, value: string): (r: string)
    ensures needle == "" ==> r == haystack
    ensures needle != "" ==> r == ReplaceEach(haystack, needle, value)
    ensures !Contains(haystack, needle) ==> r == haystack
  {
    if needle == "" then haystack
    else
      SplitJoinIsReplaceEach(haystack, needle, value);
      AbsentNeedleUnchanged(haystack, needle, value);
      Join(Split(haystack, needle), value)
  }

  lemma JoinCons(c: char, a: string, tail: seq<string>, v: string)
    ensures Join([[c] + a] + tail, v) == [c] + Join([a] + tail, v)
  {
    if |tail| > 0 {
      assert ([[c] + a] + tail)[1..] == tail;
      assert ([a] + tail)[1..] == tail;
    }
  }

  /** Split-then-join replaces exactly what the left-to-right scan replaces. */
  lemma {:induction false} SplitJoinIsReplaceEach(h: string, n: string, v: string)
    requires |n| > 0
    ensures Join(Split(h, n), v) == ReplaceEach(h, n, v)
    decreases |h|
  {
    if |h| == 0 {
    } else if IsPrefix(n, h) {
      var rest := Split(h[|n|..], n);
      SplitJoinIsReplaceEach(h[|n|..], n, v);
      assert Split(h, n) == [""] + rest;
      assert ([""] + rest)[1..] == rest;
      assert Join([""] + rest, v) == "" + v + Join(rest, v);
      assert ReplaceEach(h, n, v) == v + ReplaceEach(h[|n|..], n, v);
    } else {
      var rest := Split(h[1..], n);
      SplitJoinIsReplaceEach(h[1..], n, v);
      assert Split(h, n) == [[h[0]] + rest[0]] + rest[1..];
      JoinCons(h[0], rest[0], rest[1..], v);
      assert [rest[0]] + rest[1..] == rest;
      assert ReplaceEach(h, n, v) == [h[0]] + ReplaceEach(h[1..], n, v);
    }
  }

  /** Joining the pieces with the separator itself gives back the haystack. */
  lemma {:induction false} SplitReassembles(h: string, n: string)
    requires |n| > 0
    ensures Join(Split(h, n), n) == h
    decreases |h|
  {
    if |h| == 0 {
    } else if IsPrefix(n, h) {
      SplitReassembles(h[|n|..], n);
      var rest := Split(h[|n|..], n);
      assert ([""] + rest)[1..] == rest;
      assert h == n + h[|n|..];
    } else {
      SplitReassembles(h[1..], n);
      var rest := Split(h[1..], n);
      JoinCons(h[0], rest[0], rest[1..], n);
      assert [rest[0]] + rest[1..] == rest;
      assert h == [h[0]] + h[1..];
    }
  }

  /** A needle that does not occur leaves the haystack unchanged. */
  lemma {:induction false} AbsentNeedle(h: string, n: string, v: string)
    requires |n| > 0 && !Contains(h, n)
    ensures ReplaceEach(h, n, v) == h
    decreases |h|
  {
    if |h| > 0 {
      assert h[0..] == h;
      assert !IsPrefix(n, h);
      forall i | 0 <= i <= |h[1..]|
        ensures !IsPrefix(n, h[1..][i..])
      {
        assert h[1..][i..] == h[i + 1..];
      }
      AbsentNeedle(h[1..], n, v);
      assert h == [h[0]] + h[1..];
    }
  }

  lemma AbsentNeedleUnchanged(h: string, n: string, v: string)
    requires |n| > 0
    ensures !Contains(h, n) ==> ReplaceEach(h, n, v) == h
  {
    if !Contains(h, n) {
      AbsentNeedle(h, n, v);
    }
  }

  /** Text in front of `y` in which no occurrence of `n` starts passes through unchanged. */
  lemma {:induction false} SkipInert(x: string, y: string, n: string, v: string)
    requires |n| > 0
    requires Inert(x, n, y)
    ensures ReplaceEach(x + y, n, v) == x + ReplaceEach(y, n, v)
    decreases |x|
  {
    if |x| == 0 {
      assert x + y == y;
    } else {
      assert (x + y)[0..] == x + y;
      assert (x + y)[1..] == x[1..] + y;
      forall i | 0 <= i < |x[1..]|
        ensures !IsPrefix(n, (x[1..] + y)[i..])
      {
        assert (x[1..] + y)[i..] == (x + y)[i + 1..];
      }
      SkipInert(x[1..], y, n, v);
    }
  }

  /** An occurrence at the front is replaced and the scan resumes after it. */
  lemma ReplaceAtFront(n: string, y: string, v: string)
    requires |n| > 0
    ensures ReplaceEach(n + y, n, v) == v + ReplaceEach(y, n, v)
  {
    assert (n + y)[..|n|] == n;
    assert (n + y)[|n|..] == y;
  }

  /** A clash inside `a` rules out an occurrence at the start of `a + y`. */
  lemma {:induction false} ClashBlocks(a: string, y: string, n: string)
    requires Clash(a, n)
    ensures !IsPrefix(n, a + y)
    decreases |a|
  {
    if a[0] == n[0] {
      ClashBlocks(a[1..], y, n[1..]);
      assert (a + y)[1..] == a[1..] + y;
    } else {
      assert (a + y)[0] == a[0];
    }
  }

  /** No occurrence of `n` starts inside `x` when `x` is followed by `y`. */
  predicate Inert(x: string, n: string, y: string)
  {
    forall i :: 0 <= i < |x| ==> !IsPrefix(n, (x + y)[i..])
  }

  /** An occurrence of `a` in `x + y` that reaches past `x` continues as an occurrence in `y`. */
  lemma PrefixThrough(a: string, x: string, y: string)
    requires |x| <= |a|
    ensures IsPrefix(a, x + y) ==> IsPrefix(a[|x|..], y)
  {
    if IsPrefix(a, x + y) {
      assert (x + y)[|x|..] == y;
      assert y[..|a| - |x|] == (x + y)[..|a|][|x|..];
    }
  }

  /** A prefix of an occurrence is an occurrence. */
  lemma PrefixShorten(a: string, k: nat, y: string)
    requires k <= |a|
    ensures IsPrefix(a, y) ==> IsPrefix(a[..k], y)
  {
  }

  /** A guarded string lets nothing through, whatever follows it. */
  lemma GuardedIsInert(x: string, y: string, n: string)
    requires Guarded(x, n)
    ensures Inert(x, n, y)
  {
    forall i | 0 <= i < |x|
      ensures !IsPrefix(n, (x + y)[i..])
    {
      ClashBlocks(x[i..], y, n);
      assert (x + y)[i..] == x[i..] + y;
    }
  }

  /** Two strings that agree below `k` and differ at `k` clash. */
  lemma {:induction false} ClashAt(a: string, b: string, k: nat)
    requires k < |a| && k < |b| && a[..k] == b[..k] && a[k] != b[k]
    ensures Clash(a, b)
    decreases k
  {
    if k > 0 {
      assert a[0] == a[..k][0] && b[0] == b[..k][0];
      assert a[1..][..k - 1] == a[..k][1..] && b[1..][..k - 1] == b[..k][1..];
      ClashAt(a[1..], b[1..], k - 1);
    }
  }

  /** A string none of whose characters is the needle's first character is guarded. */
  lemma FirstCharGuard(x: string, n: string)
    requires |n| > 0 && forall i :: 0 <= i < |x| ==> x[i] != n[0]
    ensures Guarded(x, n)
  {
    forall i | 0 <= i < |x|
      ensures Clash(x[i..], n)
    {
      assert x[i..][0] == x[i];
    }
  }

  /** The digit characters, in value order. */
  const Digits: string := "0123456789"

  /** Decimal numeral of a natural number, most significant digit first, no leading zeros. */
  function NatToDecimal(n: nat): (r: string)
    ensures |r| > 0
    ensures forall i :: 0 <= i < |r| ==> r[i] in Digits
    ensures r[0] == '0' <==> n == 0
    decreases n
  {
    if n < 10 then [Digits[n]]
    else
      var r := NatToDecimal(n / 10) + [Digits[n % 10]];
      assert r[0] == NatToDecimal(n / 10)[0];
      r
  }

  /** JavaScript `String(n)` for an integral number. */
  function Decimal(n: int): (r: string)
    ensures |r| > 0
    ensures forall i :: 0 <= i < |r| ==> r[i] == '-' || r[i] in Digits
    ensures r[0] == '-' <==> n < 0
    ensures forall i :: 0 < i < |r| ==> r[i] in Digits
    ensures n >= 0 ==> DecimalValue(r) == n
    ensures n < 0 ==> DecimalValue(r[1..]) == -n
    ensures r[0] == '0' ==> r == "0"
    ensures n < 0 ==> |r| > 1 && r[1] != '0'
  {
    if n < 0 then
      var d := NatToDecimal(-n);
      DecimalRoundTrip(-n);
      assert ("-" + d)[1..] == d;
      "-" + d
    else
      DecimalRoundTrip(n);
      NatToDecimal(n)
  }

  /** Reading a numeral of digits back, as a partner of `NatToDecimal`. */
  function DecimalValue(s: string): nat
    requires forall i :: 0 <= i < |s| ==> s[i] in Digits
    decreases |s|
  {
    if |s| == 0 then 0
    else 10 * DecimalValue(s[..|s| - 1]) + DigitValue(s[|s| - 1])
  }

  function DigitValue(c: char): (d: nat)
    requires c in Digits
    ensures d < 10 && Digits[d] == c
  {
    if c == '0' then 0 else if c == '1' then 1 else if c == '2' then 2
    else if c == '3' then 3 else if c == '4' then 4 else if c == '5' then 5
    else if c == '6' then 6 else if c == '7' then 7 else if c == '8' then 8 else 9
  }

  /** The numeral reads back as the number it was made from. */
  lemma {:induction false} DecimalRoundTrip(n: nat)
    ensures DecimalValue(NatToDecimal(n)) == n
    decreases n
  {
    var r := NatToDecimal(n);
    if n < 10 {
      assert r[..0] == [];
      DigitRoundTrip(n);
    } else {
      DecimalRoundTrip(n / 10);
      assert r[..|r| - 1] == NatToDecimal(n / 10);
      DigitRoundTrip(n % 10);
    }
  }

  /** Each digit reads back as its own value. */
  lemma DigitRoundTrip(d: nat)
    requires d < 10
    ensures DigitValue(Digits[d]) == d
  {
    if d < 5 {
      assert d == 0 || d == 1 || d == 2 || d == 3 || d == 4;
    } else {
      assert d == 5 || d == 6 || d == 7 || d == 8 || d == 9;
    }
  }
}
