/** Python's numeric and string semantics that the capture code relies on,
    stated over Dafny's unbounded integers and exact reals, plus the Option
    and Result wrappers used for the source's error paths. */
module PyNum {

  datatype Option<T> = None | Some(value: T)

  datatype Result<T, E> = Ok(value: T) | Err(error: E)

  /** 10^k */
  function Pow10(k: nat): (p: nat)
    ensures p >= 1
  {
    if k == 0 then 1 else 10 * Pow10(k - 1)
  }

  /** math.floor on a float */
  function Floor(x: real): int { x.Floor }

  /** math.ceil on a float */
  function Ceil(x: real): (c: int)
    ensures x <= c as real < x + 1.0
  {
    -((-x).Floor)
  }

  /** int(x) on a float truncates toward zero */
  function Trunc(x: real): (t: int)
    ensures 0.0 <= x ==> t == x.Floor
    ensures x < 0.0 ==> t == Ceil(x)
  {
    if x >= 0.0 then x.Floor else Ceil(x)
  }

  function Max(a: int, b: int): int { if a >= b then a else b }
  function Min(a: int, b: int): int { if a <= b then a else b }

  /** Round to the nearest integer, ties to the even neighbour (Python's round) */
  function RoundHalfEven(x: real): (n: int)
    ensures x - 0.5 <= n as real <= x + 0.5
  {
    var fl := x.Floor;
    var frac := x - fl as real;
    if frac < 0.5 then fl
    else if frac > 0.5 then fl + 1
    else if fl % 2 == 0 then fl else fl + 1
  }

  /** v * 10^k */
  function Scale(v: real, k: nat): real
  {
    v * Pow10(k) as real
  }

  /** round(v, k): v rounded to k decimal places, ties to even */
  function RoundTo(v: real, k: nat): real
  {
    RoundHalfEven(Scale(v, k)) as real / Pow10(k) as real
  }

  /** v has at most k decimal places */
  predicate OnGrid(v: real, k: nat)
  {
    Scale(v, k).Floor as real == Scale(v, k)
  }

  /** Rounding a value that already has k decimal places leaves it alone. */
  lemma RoundOnGrid(v: real, k: nat)
    requires OnGrid(v, k)
    ensures RoundTo(v, k) == v
  {
    var x := Scale(v, k);
    assert RoundHalfEven(x) == x.Floor;
  }

  /** Rounding never passes a bound that itself has k decimal places. */
  lemma RoundBelowGridValue(v: real, b: real, k: nat)
    requires v <= b && OnGrid(b, k)
    ensures RoundTo(v, k) <= b
  {
    var p := Pow10(k) as real;
    var x, m := Scale(v, k), Scale(b, k).Floor;
    assert x <= Scale(b, k) by {
      assert Scale(b, k) - x == (b - v) * p;
    }
    var n := RoundHalfEven(x);
    if x.Floor == m {
      assert x == m as real;
      assert n == m;
    } else {
      assert n <= x.Floor + 1 <= m;
    }
    assert n as real <= b * p;
  }

  lemma OnGridAdd(a: real, b: real, k: nat)
    requires OnGrid(a, k) && OnGrid(b, k)
    ensures OnGrid(a + b, k)
  {
    assert Scale(a + b, k) == Scale(a, k) + Scale(b, k);
    assert Scale(a + b, k) == (Scale(a, k).Floor + Scale(b, k).Floor) as real;
  }

  /** Adding two values with k decimal places needs no rounding. */
  lemma RoundSumOnGrid(a: real, b: real, k: nat)
    requires OnGrid(a, k) && OnGrid(b, k)
    ensures RoundTo(a + b, k) == a + b && OnGrid(a + b, k)
  {
    OnGridAdd(a, b, k);
    RoundOnGrid(a + b, k);
  }

  lemma OnGridNeg(a: real, k: nat)
    requires OnGrid(a, k)
    ensures OnGrid(-a, k)
  {
    assert Scale(-a, k) == -Scale(a, k);
    assert Scale(-a, k) == (-Scale(a, k).Floor) as real;
  }

  lemma OnGridScale(a: real, n: int, k: nat)
    requires OnGrid(a, k)
    ensures OnGrid((n as real) * a, k)
  {
    var f := Scale(a, k).Floor;
    ScaleMultiple(a, n, k, f);
    assert (n * f) as real == Scale((n as real) * a, k);
  }

  /** n * a scaled by 10^k is n times a scaled by 10^k. */
  lemma ScaleMultiple(a: real, n: int, k: nat, f: int)
    requires Scale(a, k) == f as real
    ensures Scale((n as real) * a, k) == (n * f) as real
  {
    calc {
      Scale((n as real) * a, k);
      ((n as real) * a) * (Pow10(k) as real);
      (n as real) * (a * (Pow10(k) as real));
      (n as real) * (f as real);
      (n * f) as real;
    }
  }


  /** A whole number of steps of a k-decimal step needs no rounding. */
  lemma RoundMultipleOnGrid(a: real, n: int, k: nat)
    requires OnGrid(a, k)
    ensures RoundTo((n as real) * a, k) == (n as real) * a
  {
    OnGridScale(a, n, k);
    RoundOnGrid((n as real) * a, k);
  }

  lemma MulAtLeast(a: int, b: int)
    requires a >= 1 && b >= 0
    ensures a * b >= b
  {
  }

  /** Multiplying by a non-negative integer keeps the order. */
  lemma MulMonotone(a: int, b: int, c: int)
    requires a <= b && c >= 0
    ensures a * c <= b * c
  {
    assert b * c - a * c == (b - a) * c;
  }

  /** A product order with a positive factor gives the order of the others. */
  lemma LtCancel(x: int, y: int, n: nat)
    requires x * n < y * n
    ensures x < y
  {
    if y <= x {
      MulMonotone(y, x, n);
    }
  }

  /** Division by a positive number is monotone, and so is the remainder
      between two numbers with the same quotient. */
  lemma DivMonotone(f: int, g: int, cols: int)
    requires cols >= 1 && 0 <= f <= g
    ensures f / cols <= g / cols
    ensures f / cols == g / cols ==> f % cols <= g % cols
  {
    var qf, qg := f / cols, g / cols;
    assert qf * cols <= f;
    assert g < (qg + 1) * cols;
    LtCancel(qf, qg + 1, cols);
  }

  /** Multiplying by a positive real keeps the order, strict or not. */
  lemma MulLe(a: real, b: real, s: real)
    requires a <= b && s > 0.0
    ensures a * s <= b * s
  {
  }

  lemma MulLt(a: real, b: real, s: real)
    requires a < b && s > 0.0
    ensures a * s < b * s
  {
    assert b * s - a * s == (b - a) * s;
  }

  /** Real division and multiplication by a non-zero step undo each other. */
  lemma QuotientTimes(x: real, s: real, q: real)
    requires s != 0.0 && q == x / s
    ensures q * s == x
  {
  }

  lemma ProductQuotient(a: real, s: real, x: real)
    requires s != 0.0 && x == a * s
    ensures x / s == a
  {
  }

  /** Division and remainder by a positive divisor are determined by any
      quotient/remainder pair. */
  lemma DivModUnique(f: int, cols: int, q: int, m: int)
    requires cols >= 1 && 0 <= m < cols && f == q * cols + m
    ensures f / cols == q && f % cols == m
  {
    var q', m' := f / cols, f % cols;
    var d := q - q';
    assert d * cols == m' - m by {
      assert q * cols - q' * cols == d * cols;
    }
    if d > 0 {
      MulAtLeast(d, cols);
    }
  }

  /** str(n) for a natural number: its decimal digits, most significant first */
  function NatToString(n: nat): (s: string)
    ensures |s| >= 1
    decreases n
  {
    var d := [(('0' as int) + n % 10) as char];
    if n < 10 then d else NatToString(n / 10) + d
  }

  lemma {:induction false} NatToStringDigits(n: nat)
    ensures forall i :: 0 <= i < |NatToString(n)| ==> '0' <= NatToString(n)[i] <= '9'
    decreases n
  {
    if n >= 10 {
      NatToStringDigits(n / 10);
    }
  }

  /** The value a string of decimal digits denotes */
  function DigitsValue(s: string): int
  {
    if s == [] then 0 else 10 * DigitsValue(s[..|s| - 1]) + (s[|s| - 1] as int - '0' as int)
  }

  /** str(n) can be read back: the digits denote n. */
  lemma {:induction false} NatToStringValue(n: nat)
    ensures DigitsValue(NatToString(n)) == n
    decreases n
  {
    var s := NatToString(n);
    if n >= 10 {
      NatToStringValue(n / 10);
      assert s[..|s| - 1] == NatToString(n / 10);
    }
  }

  /** str(i) for any integer */
  function IntToString(i: int): (s: string)
    ensures |s| >= 1
  {
    if i < 0 then "-" + NatToString(-i) else NatToString(i)
  }

  /** str(i) is a minus sign exactly for negative i, followed by digits. */
  lemma IntToStringChars(i: int)
    ensures IntToString(i)[0] == '-' <==> i < 0
    ensures forall k :: 0 <= k < |IntToString(i)| ==>
      IntToString(i)[k] == '-' || '0' <= IntToString(i)[k] <= '9'
  {
    NatToStringDigits(if i < 0 then -i else i);
    if i < 0 {
      var d := NatToString(-i);
      assert forall k :: 1 <= k < |IntToString(i)| ==> IntToString(i)[k] == d[k - 1];
    }
  }

  /** str(i) contains neither '_' nor '.', so it can sit between them in a
      file name. */
  lemma IntToStringNoSeparator(i: int)
    ensures '_' !in IntToString(i) && '.' !in IntToString(i)
  {
    IntToStringChars(i);
  }

  lemma NatToStringInjective(a: nat, b: nat)
    requires NatToString(a) == NatToString(b)
    ensures a == b
  {
    NatToStringValue(a);
    NatToStringValue(b);
  }

  /** str is one-to-one on integers. */
  lemma IntToStringInjective(a: int, b: int)
    requires IntToString(a) == IntToString(b)
    ensures a == b
  {
    IntToStringChars(a);
    IntToStringChars(b);
    if a < 0 {
      var x, y := NatToString(-a), NatToString(-b);
      assert ("-" + x)[1..] == x && ("-" + y)[1..] == y;
      NatToStringInjective(-a, -b);
    } else {
      NatToStringInjective(a, b);
    }
  }

  /** The characters str.strip removes: Python's str.isspace, i.e. '\t' to
      '\r', the separators U+1C to U+1F, the space, U+85, the no-break space
      and the Unicode space and line separators */
  predicate IsSpace(c: char)
  {
    || ('\t' <= c <= '\r')
    || ('\U{1C}' <= c <= ' ')
    || c == '\U{85}' || c == '\U{A0}' || c == '\U{1680}'
    || ('\U{2000}' <= c <= '\U{200A}')
    || c == '\U{2028}' || c == '\U{2029}' || c == '\U{202F}' || c == '\U{205F}' || c == '\U{3000}'
  }

  function StripLeft(s: string): (r: string)
    ensures |r| <= |s| && r == s[|s| - |r|..]
    ensures r != [] ==> !IsSpace(r[0])
  {
    if s != [] && IsSpace(s[0]) then StripLeft(s[1..]) else s
  }

  function StripRight(s: string): (r: string)
    ensures |r| <= |s| && r == s[..|r|]
    ensures r != [] ==> !IsSpace(r[|r| - 1])
  {
    if s != [] && IsSpace(s[|s| - 1]) then StripRight(s[..|s| - 1]) else s
  }

  /** str.strip() */
  function Strip(s: string): string
  {
    StripRight(StripLeft(s))
  }

  /** Stripping keeps a string of the form  spaces + w + spaces  down to w
      when w neither starts nor ends with a space. */
  lemma {:induction false} StripPadded(pre: string, w: string, post: string)
    requires forall i :: 0 <= i < |pre| ==> IsSpace(pre[i])
    requires forall i :: 0 <= i < |post| ==> IsSpace(post[i])
    requires w != [] && !IsSpace(w[0]) && !IsSpace(w[|w| - 1])
    ensures Strip(pre + w + post) == w
  {
    assert pre + w + post == pre + (w + post);
    StripLeftPadded(pre, w + post);
    assert StripLeft(pre + w + post) == w + post;
    StripRightPadded(w, post);
  }

  lemma {:induction false} StripLeftPadded(pre: string, rest: string)
    requires forall i :: 0 <= i < |pre| ==> IsSpace(pre[i])
    requires rest != [] && !IsSpace(rest[0])
    ensures StripLeft(pre + rest) == rest
    decreases |pre|
  {
    if pre == [] {
      assert pre + rest == rest;
    } else {
      var tail := pre[1..];
      assert (pre + rest)[1..] == tail + rest;
      assert IsSpace((pre + rest)[0]);
      assert forall i :: 0 <= i < |tail| ==> IsSpace(tail[i]) by {
        forall i | 0 <= i < |tail| ensures IsSpace(tail[i]) { assert tail[i] == pre[i + 1]; }
      }
      StripLeftPadded(tail, rest);
    }
  }

  lemma {:induction false} StripRightPadded(w: string, post: string)
    requires forall i :: 0 <= i < |post| ==> IsSpace(post[i])
    requires w != [] && !IsSpace(w[|w| - 1])
    ensures StripRight(w + post) == w
    decreases |post|
  {
    if post == [] {
      assert w + post == w;
    } else {
      var s := w + post;
      var front := post[..|post| - 1];
      assert s[..|s| - 1] == w + front;
      assert IsSpace(s[|s| - 1]);
      assert forall i :: 0 <= i < |front| ==> IsSpace(front[i]) by {
        forall i | 0 <= i < |front| ensures IsSpace(front[i]) { assert front[i] == post[i]; }
      }
      StripRightPadded(w, front);
    }
  }

  /** Python's resolution of a slice bound against a sequence of length n:
      negative bounds count from the end, everything is clamped to 0..n. */
  function SliceBound(i: int, n: nat): (b: nat)
    ensures b <= n
    ensures 0 <= i <= n ==> b == i
  {
    if i < 0 then Max(i + n, 0) else Min(i, n)
  }

  /** s[a:b] with Python's semantics */
  function PySlice<T>(s: seq<T>, a: int, b: int): (r: seq<T>)
    ensures 0 <= a <= b <= |s| ==> r == s[a..b]
    ensures 0 <= b <= a ==> r == []
  {
    var lo, hi := SliceBound(a, |s|), SliceBound(b, |s|);
    if lo <= hi then s[lo..hi] else []
  }
}
