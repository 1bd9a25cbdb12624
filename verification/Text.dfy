/** Strings as Python compares, strips and formats them. */
module Text {
  /** `a < b` on Python strings: code point by code point, a proper prefix comes first. */
  predicate Less(a: string, b: string) {
    if |b| == 0 then false
    else if |a| == 0 then true
    else a[0] < b[0] || (a[0] == b[0] && Less(a[1..], b[1..]))
  }

  predicate AtMost(a: string, b: string) {
    !Less(b, a)
  }

  lemma {:induction false} LessTotal(a: string, b: string)
    ensures Less(a, b) || Less(b, a) || a == b
    ensures !(Less(a, b) && Less(b, a))
    ensures a == b ==> !Less(a, b)
  {
    if |a| > 0 && |b| > 0 {
      LessTotal(a[1..], b[1..]);
      if a[0] == b[0] && a[1..] == b[1..] {
        assert a == [a[0]] + a[1..] == [b[0]] + b[1..] == b;
      }
    }
  }

  lemma {:induction false} LessTransitive(a: string, b: string, c: string)
    requires Less(a, b) && Less(b, c)
    ensures Less(a, c)
  {
    if |a| > 0 && a[0] == b[0] && b[0] == c[0] {
      LessTransitive(a[1..], b[1..], c[1..]);
    }
  }

  lemma AtMostTransitive(a: string, b: string, c: string)
    requires AtMost(a, b) && AtMost(b, c)
    ensures AtMost(a, c)
  {
    if Less(c, a) {
      LessTotal(a, b);
      if a != b {
        LessTransitive(c, a, b);
      }
    }
  }

  /** On equally long heads the comparison is decided by the heads, then by the tails. */
  lemma {:induction false} LessConcat(a1: string, a2: string, b1: string, b2: string)
    requires |a1| == |b1|
    ensures Less(a1 + a2, b1 + b2) <==> Less(a1, b1) || (a1 == b1 && Less(a2, b2))
  {
    if |a1| == 0 {
      assert a1 + a2 == a2 && b1 + b2 == b2;
    } else {
      assert (a1 + a2)[1..] == a1[1..] + a2;
      assert (b1 + b2)[1..] == b1[1..] + b2;
      LessConcat(a1[1..], a2, b1[1..], b2);
      assert a1 == [a1[0]] + a1[1..] && b1 == [b1[0]] + b1[1..];
    }
  }

  /** A common separator after equally long heads changes nothing. */
  lemma LessAroundSeparator(x: string, y: string, sep: string, restX: string, restY: string)
    requires |x| == |y|
    ensures Less(x + sep + restX, y + sep + restY) <==> Less(x, y) || (x == y && Less(restX, restY))
    ensures x + sep + restX == y + sep + restY <==> x == y && restX == restY
  {
    LessConcat(x, sep, y, sep);
    LessTotal(sep, sep);
    LessConcat(x + sep, restX, y + sep, restY);
    assert (x + sep)[..|x|] == x && (y + sep)[..|y|] == y;
    assert (x + sep + restX)[..|x| + |sep|] == x + sep && (y + sep + restY)[..|x| + |sep|] == y + sep;
    assert (x + sep + restX)[|x| + |sep|..] == restX && (y + sep + restY)[|x| + |sep|..] == restY;
  }

  /** A proper prefix comes first. */
  lemma {:induction false} PrefixLess(a: string, more: string)
    requires |more| > 0
    ensures Less(a, a + more)
  {
    if |a| > 0 {
      assert (a + more)[1..] == a[1..] + more;
      PrefixLess(a[1..], more);
    }
  }

  /** `str.isspace` for one character. */
  predicate IsSpace(c: char) {
    var n := c as int;
    || 9 <= n <= 13 || 28 <= n <= 32 || n == 0x85 || n == 0xA0 || n == 0x1680
    || 0x2000 <= n <= 0x200A || n == 0x2028 || n == 0x2029 || n == 0x202F || n == 0x205F || n == 0x3000
  }

  function StripLeft(s: string, drop: char -> bool): (r: string)
    ensures |r| <= |s|
    ensures |r| > 0 ==> !drop(r[0])
  {
    if |s| > 0 && drop(s[0]) then StripLeft(s[1..], drop) else s
  }

  function StripRight(s: string, drop: char -> bool): (r: string)
    ensures r <= s
    ensures |r| > 0 ==> !drop(r[|r| - 1])
  {
    if |s| > 0 && drop(s[|s| - 1]) then StripRight(s[..|s| - 1], drop) else s
  }

  /** `str.strip()`. */
  function Strip(s: string): string {
    StripRight(StripLeft(s, IsSpace), IsSpace)
  }

  /** Stripping a stripped string changes nothing. */
  lemma StripTwice(s: string)
    ensures Strip(Strip(s)) == Strip(s)
  {
    var left := StripLeft(s, IsSpace);
    var both := StripRight(left, IsSpace);
    assert |both| > 0 ==> both[0] == left[0];
  }

  lemma StripNothing(s: string)
    requires |s| > 0 ==> !IsSpace(s[0]) && !IsSpace(s[|s| - 1])
    ensures Strip(s) == s
  {
  }

  function Digit(n: nat): char
    requires n < 10
  {
    "0123456789"[n]
  }

  /** The last `width` decimal digits of `n`, zero padded: `f"{n:0{width}d}"` when `n` has at most that many. */
  function Pad(n: nat, width: nat): (s: string)
    ensures |s| == width
    ensures forall c :: c in s ==> '0' <= c <= '9'
  {
    if width == 0 then "" else Pad(n / 10, width - 1) + [Digit(n % 10)]
  }

  function Pow10(k: nat): (p: nat)
    ensures p > 0
  {
    if k == 0 then 1 else 10 * Pow10(k - 1)
  }

  lemma DigitOrder(a: nat, b: nat)
    requires a < 10 && b < 10
    ensures Digit(a) < Digit(b) <==> a < b
    ensures Digit(a) == Digit(b) <==> a == b
  {
  }

  /** Zero-padded numbers compare as strings exactly as they compare as numbers. */
  lemma {:induction false} PadOrder(a: nat, b: nat, width: nat)
    requires a < Pow10(width) && b < Pow10(width)
    ensures Less(Pad(a, width), Pad(b, width)) <==> a < b
    ensures Pad(a, width) == Pad(b, width) <==> a == b
  {
    if width > 0 {
      PadOrder(a / 10, b / 10, width - 1);
      DigitOrder(a % 10, b % 10);
      LessConcat(Pad(a / 10, width - 1), [Digit(a % 10)], Pad(b / 10, width - 1), [Digit(b % 10)]);
      var x, y := Pad(a, width), Pad(b, width);
      assert x[..width - 1] == Pad(a / 10, width - 1) && y[..width - 1] == Pad(b / 10, width - 1);
      assert x[width - 1] == Digit(a % 10) && y[width - 1] == Digit(b % 10);
    }
  }
}
