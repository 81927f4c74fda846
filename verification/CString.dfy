/** kernel/string.c: NUL-terminated strings in byte buffers, and integers as text. */
module CString {
  type Byte = b: int | 0 <= b < 256

  // ---------------------------------------------------------------- strings in buffers

  /** Where the terminator is; the whole length when there is none. */
  function Len(s: seq<Byte>): (n: nat)
    ensures n <= |s| && (n < |s| ==> s[n] == 0) && forall i :: 0 <= i < n ==> s[i] != 0
    ensures 0 in s <==> n < |s|
  {
    if s == [] || s[0] == 0 then 0 else 1 + Len(s[1..])
  }

  function Str(s: seq<Byte>): (t: seq<Byte>)
    ensures |t| == Len(s) && 0 !in t
  {
    s[..Len(s)]
  }

  /** A terminator right after t, and none inside, make t the string. */
  lemma StrIs(s: seq<Byte>, t: seq<Byte>)
    requires |t| < |s| && s[..|t|] == t && s[|t|] == 0 && 0 !in t
    ensures Str(s) == t
  {
    assert forall i :: 0 <= i < |t| ==> s[i] == t[i] && t[i] in t;
  }

  method StrLen(s: seq<Byte>) returns (n: nat)
    requires 0 in s
    ensures n == Len(s)
  {
    n := 0;
    while s[n] != 0
      invariant n <= Len(s)
      decreases Len(s) - n
    {
      n := n + 1;
    }
  }

  // ---------------------------------------------------------------- comparison

  /** What strcmp answers: the difference of the first bytes that differ, a missing byte counting as 0. */
  function Compare(a: seq<Byte>, b: seq<Byte>): int
    decreases |a|
  {
    if a == [] then if b == [] then 0 else -(b[0] as int)
    else if b == [] then a[0]
    else if a[0] == b[0] then Compare(a[1..], b[1..])
    else (a[0] as int) - b[0] as int
  }

  /** a comes before b in the dictionary: it is a proper prefix, or smaller at the first place they differ. */
  ghost predicate Before(a: seq<Byte>, b: seq<Byte>) {
    exists k: nat :: BeforeAt(a, b, k)
  }

  predicate BeforeAt(a: seq<Byte>, b: seq<Byte>, k: nat) {
    k <= |a| && k < |b| && a[..k] == b[..k] && (k == |a| || a[k] < b[k])
  }

  lemma SameHead(a: seq<Byte>, b: seq<Byte>, k: nat)
    requires BeforeAt(a, b, k) && a != []
    ensures if k == 0 then a[0] < b[0] else a[0] == b[0]
  {
    if k > 0 {
      assert a[..k][0] == b[..k][0];
    }
  }

  predicate NoNul(a: seq<Byte>) {
    0 !in a
  }

  lemma {:induction false} CompareDecides(a: seq<Byte>, b: seq<Byte>)
    requires NoNul(a) && NoNul(b)
    ensures Compare(a, b) < 0 <==> Before(a, b)
    ensures Compare(a, b) == 0 <==> a == b
    ensures Compare(b, a) == -Compare(a, b)
    decreases |a|
  {
    if a == [] || b == [] {
      assert a == [] && b != [] ==> BeforeAt(a, b, 0);
      assert a != [] ==> a[0] in a;
      assert b != [] ==> b[0] in b;
    } else if a[0] == b[0] {
      assert NoNul(a[1..]) && NoNul(b[1..]);
      CompareDecides(a[1..], b[1..]);
      if Before(a[1..], b[1..]) {
        var k: nat :| BeforeAt(a[1..], b[1..], k);
        assert a[..k + 1] == [a[0]] + a[1..][..k];
        assert b[..k + 1] == [b[0]] + b[1..][..k];
        assert BeforeAt(a, b, k + 1);
      }
      if Before(a, b) {
        var k: nat :| BeforeAt(a, b, k);
        SameHead(a, b, k);
        assert a[1..][..k - 1] == a[..k][1..] && b[1..][..k - 1] == b[..k][1..];
        assert BeforeAt(a[1..], b[1..], k - 1);
      }
      assert a == [a[0]] + a[1..] && b == [b[0]] + b[1..];
    } else {
      assert a[0] < b[0] ==> BeforeAt(a, b, 0);
      if Before(a, b) {
        var k: nat :| BeforeAt(a, b, k);
        SameHead(a, b, k);
      }
    }
  }

  lemma {:induction false} CompareTransitive(a: seq<Byte>, b: seq<Byte>, c: seq<Byte>)
    requires NoNul(a) && NoNul(b) && NoNul(c)
    requires Compare(a, b) <= 0 && Compare(b, c) <= 0
    ensures Compare(a, c) <= 0 && (Compare(a, c) == 0 ==> Compare(a, b) == 0 && Compare(b, c) == 0)
    decreases |a|
  {
    assert a != [] ==> a[0] in a && NoNul(a[1..]);
    assert b != [] ==> b[0] in b && NoNul(b[1..]);
    assert c != [] ==> c[0] in c && NoNul(c[1..]);
    if a != [] && b != [] && c != [] && a[0] == b[0] == c[0] {
      CompareTransitive(a[1..], b[1..], c[1..]);
    }
  }

  lemma {:induction false} CommonPrefix(a: seq<Byte>, b: seq<Byte>, k: nat)
    requires k <= |a| && k <= |b| && a[..k] == b[..k]
    ensures Compare(a, b) == Compare(a[k..], b[k..])
    decreases k
  {
    if k > 0 {
      assert a[0] == a[..k][0] == b[..k][0] == b[0];
      assert a[1..][..k - 1] == a[..k][1..] && b[1..][..k - 1] == b[..k][1..];
      CommonPrefix(a[1..], b[1..], k - 1);
      assert a[1..][k - 1..] == a[k..] && b[1..][k - 1..] == b[k..];
    }
  }

  /** A string's byte at place k, 0 at its end. */
  function ByteAt(a: seq<Byte>, k: nat): int {
    if k < |a| then a[k] else 0
  }

  /** The answer is the difference of the bytes at the first place where the strings differ or end. */
  lemma CompareIsDifference(a: seq<Byte>, b: seq<Byte>, k: nat)
    requires k <= |a| && k <= |b| && a[..k] == b[..k] && (k == |a| || k == |b| || a[k] != b[k])
    ensures Compare(a, b) == ByteAt(a, k) - ByteAt(b, k)
  {
    CommonPrefix(a, b, k);
  }

  method StrCmp(s: seq<Byte>, t: seq<Byte>) returns (r: int)
    requires 0 in s && 0 in t
    ensures r == Compare(Str(s), Str(t))
  {
    var i := 0;
    while s[i] != 0 && s[i] == t[i]
      invariant i <= Len(s) && i <= Len(t) && s[..i] == t[..i]
      decreases Len(s) - i
    {
      i := i + 1;
    }
    DecidedAt(s, t, |s| + |t|, i);
    r := (s[i] as int) - t[i] as int;
  }

  /** The first n bytes, or all there are. */
  function Take(a: seq<Byte>, n: nat): (t: seq<Byte>)
    ensures t <= a && |t| <= n && (|t| == n || t == a)
  {
    if n < |a| then a[..n] else a
  }

  /** Equal up to place i, the answer is decided by the bytes there, each 0 at or past its string's cut. */
  lemma DecidedAt(s: seq<Byte>, t: seq<Byte>, n: nat, i: nat)
    requires 0 in s && 0 in t && i <= Len(s) && i <= Len(t) && i < n && s[..i] == t[..i]
    requires s[i] == 0 || s[i] != t[i]
    ensures Compare(Take(Str(s), n), Take(Str(t), n)) == (s[i] as int) - t[i] as int
  {
    var a, b := Take(Str(s), n), Take(Str(t), n);
    assert a[..i] == s[..i] && b[..i] == t[..i];
    CommonPrefix(a, b, i);
    HeadOfCut(s, n, i);
    HeadOfCut(t, n, i);
  }

  lemma HeadOfCut(s: seq<Byte>, n: nat, i: nat)
    requires 0 in s && i <= Len(s) && i < n
    ensures var a := Take(Str(s), n); i <= |a| && (i == |a| <==> s[i] == 0) && (i < |a| ==> a[i..][0] == s[i])
  {}

  lemma EqualUpTo(s: seq<Byte>, t: seq<Byte>, n: nat)
    requires 0 in s && 0 in t && n <= Len(s) && n <= Len(t) && s[..n] == t[..n]
    ensures Compare(Take(Str(s), n), Take(Str(t), n)) == 0
  {
    var a, b := Take(Str(s), n), Take(Str(t), n);
    assert a == s[..n] && b == t[..n];
    CommonPrefix(a, b, n);
  }

  /** strncmp is strcmp on the strings cut to n; the counter is never decremented at 0. */
  method StrNCmp(s: seq<Byte>, t: seq<Byte>, n: nat) returns (r: int)
    requires 0 in s && 0 in t
    ensures r == Compare(Take(Str(s), n), Take(Str(t), n))
  {
    if n == 0 {
      return 0;
    }
    var left, i := n, 0;
    while true
      invariant i <= Len(s) && i <= Len(t) && s[..i] == t[..i] && left == n - i && left >= 1
      decreases left
    {
      left := left - 1;
      if s[i] == 0 || t[i] == 0 || s[i] != t[i] {
        DecidedAt(s, t, n, i);
        return (s[i] as int) - t[i] as int;
      }
      if left == 0 {
        EqualUpTo(s, t, n);
        return 0;
      }
      i := i + 1;
    }
  }

  // ---------------------------------------------------------------- copying

  method StrCpy(dest: array<Byte>, src: seq<Byte>)
    requires 0 in src && Len(src) < dest.Length
    modifies dest
    ensures dest[..Len(src) + 1] == Str(src) + [0]
    ensures dest[Len(src) + 1..] == old(dest[Len(src) + 1..])
  {
    var d := 0;
    while src[d] != 0
      invariant d <= Len(src) && dest[..d] == src[..d]
      invariant forall j :: d <= j < dest.Length ==> dest[j] == old(dest[j])
      decreases Len(src) - d
    {
      dest[d] := src[d];
      d := d + 1;
    }
    dest[d] := 0;
  }

  method MemCpy(dest: array<Byte>, src: seq<Byte>, num: nat)
    requires num <= |src| && num <= dest.Length
    modifies dest
    ensures dest[..num] == src[..num] && dest[num..] == old(dest[num..])
  {
    var i := 0;
    while i < num
      invariant 0 <= i <= num && dest[..i] == src[..i]
      invariant forall j :: i <= j < dest.Length ==> dest[j] == old(dest[j])
    {
      dest[i] := src[i];
      i := i + 1;
    }
  }

  // ---------------------------------------------------------------- integers as text

  function Rev(s: seq<Byte>): (r: seq<Byte>)
    ensures |r| == |s|
  {
    if s == [] then [] else Rev(s[1..]) + [s[0]]
  }

  lemma {:induction false} RevAt(s: seq<Byte>, i: nat)
    requires i < |s|
    ensures Rev(s)[i] == s[|s| - 1 - i]
    decreases |s|
  {
    if i < |s| - 1 {
      RevAt(s[1..], i);
    }
  }

  lemma RevSnoc(s: seq<Byte>, b: Byte)
    ensures Rev(s + [b]) == [b] + Rev(s)
  {
    forall i | 0 <= i < |s| + 1
      ensures Rev(s + [b])[i] == ([b] + Rev(s))[i]
    {
      RevAt(s + [b], i);
      if i > 0 {
        RevAt(s, i - 1);
      }
    }
  }

  method Reverse(str: array<Byte>, length: nat)
    requires length <= str.Length
    modifies str
    ensures str[..length] == Rev(old(str[..length]))
    ensures forall j :: length <= j < str.Length ==> str[j] == old(str[j])
  {
    var start, end: int := 0, length - 1;
    while start < end
      invariant 0 <= start <= end + 1 && start + end == length - 1
      invariant forall i :: 0 <= i < start || end < i < length ==> str[i] == old(str[length - 1 - i])
      invariant forall i :: start <= i <= end ==> str[i] == old(str[i])
      invariant forall i :: length <= i < str.Length ==> str[i] == old(str[i])
    {
      str[start], str[end] := str[end], str[start];
      start, end := start + 1, end - 1;
    }
    ghost var was := old(str[..length]);
    forall i: nat | i < length
      ensures str[i] == Rev(was)[i]
    {
      RevAt(was, i);
    }
  }

  function DigitChar(d: nat): Byte
    requires d < 36
  {
    if d > 9 then d - 10 + 97 else d + 48
  }

  function DigitValue(c: Byte): int {
    if 48 <= c <= 57 then c - 48 else if 97 <= c <= 122 then c - 87 else -1
  }

  lemma Smaller(v: nat, base: nat)
    requires v > 0 && base >= 2
    ensures 0 <= v / base < v && v == v / base * base + v % base && 0 <= v % base < base
  {}

  /** The digits of v, most significant first; none for 0. */
  function Digits(v: nat, base: nat): seq<Byte>
    requires 2 <= base <= 36
    decreases v
  {
    if v == 0 then [] else Smaller(v, base); Digits(v / base, base) + [DigitChar(v % base)]
  }

  function Text(v: int, base: nat): seq<Byte>
    requires 2 <= base <= 36
  {
    if v == 0 then [48] else if v < 0 then [45] + Digits(-v, base) else Digits(v, base)
  }

  function ParseDigits(s: seq<Byte>, base: nat): int {
    if s == [] then 0 else ParseDigits(s[..|s| - 1], base) * base + DigitValue(s[|s| - 1])
  }

  function Parse(s: seq<Byte>, base: nat): int {
    if s != [] && s[0] == 45 then -ParseDigits(s[1..], base) else ParseDigits(s, base)
  }

  /** The digits: the ten numerals, then small letters. */
  lemma DigitIs(d: nat)
    requires d < 36
    ensures d < 10 ==> DigitChar(d) == "0123456789"[d] as int
    ensures d >= 10 ==> DigitChar(d) == "abcdefghijklmnopqrstuvwxyz"[d - 10] as int
  {}

  predicate ValidDigits(s: seq<Byte>, base: nat) {
    forall i :: 0 <= i < |s| ==> 0 <= DigitValue(s[i]) < base
  }

  lemma DigitRoundTrip(d: nat)
    requires d < 36
    ensures DigitValue(DigitChar(d)) == d && DigitChar(d) != 0 && DigitChar(d) != 45 && (DigitChar(d) == 48 ==> d == 0)
  {}

  lemma ParseSnoc(s: seq<Byte>, c: Byte, base: nat)
    ensures ParseDigits(s + [c], base) == ParseDigits(s, base) * base + DigitValue(c)
  {
    assert (s + [c])[..|s|] == s;
  }

  lemma {:induction false} DigitsParse(v: nat, base: nat)
    requires 2 <= base <= 36
    ensures ParseDigits(Digits(v, base), base) == v
    decreases v
  {
    if v > 0 {
      Smaller(v, base);
      var q, r := v / base, v % base;
      DigitsParse(q, base);
      ParseSnoc(Digits(q, base), DigitChar(r), base);
      DigitRoundTrip(r);
    }
  }

  lemma {:induction false} DigitsValid(v: nat, base: nat)
    requires 2 <= base <= 36
    ensures var ds := Digits(v, base);
      ValidDigits(ds, base) && 0 !in ds && 45 !in ds && (v > 0 ==> |ds| > 0 && ds[0] != 48)
    decreases v
  {
    if v > 0 {
      Smaller(v, base);
      var q, r := v / base, v % base;
      DigitsValid(q, base);
      DigitRoundTrip(r);
      assert q == 0 ==> r != 0;
    }
  }

  /** The text parses back to the number; its digits are valid ones, and it starts with 0 only for 0 itself. */
  lemma TextParses(v: int, base: nat)
    requires 2 <= base <= 36
    ensures Parse(Text(v, base), base) == v
    ensures var s := Text(v, base);
      |s| > 0 && 0 !in s && (s[0] == 48 ==> v == 0)
      && (if v < 0 then s[0] == 45 && ValidDigits(s[1..], base) else ValidDigits(s, base))
  {
    var m := if v < 0 then -v else v;
    DigitsParse(m, base);
    DigitsValid(m, base);
    if v < 0 {
      assert Text(v, base)[1..] == Digits(m, base);
    } else if v == 0 {
      ParseSnoc([], 48, base);
      assert [] + [48] == Text(v, base);
    } else {
      assert Digits(m, base)[0] in Digits(m, base);
    }
  }

  /** In base 10 a 32-bit integer takes at most 12 bytes, terminator included. */
  lemma DecimalFits(v: int)
    requires -0x8000_0000 <= v < 0x8000_0000
    ensures |Text(v, 10)| + 1 <= 12
  {
    DecimalLength(if v < 0 then -v else v, 10);
  }

  function Pow10(n: nat): nat {
    if n == 0 then 1 else 10 * Pow10(n - 1)
  }

  lemma {:induction false} DecimalLength(v: nat, n: nat)
    requires v < Pow10(n)
    ensures |Digits(v, 10)| <= n
    decreases n
  {
    if v > 0 {
      DecimalLength(v / 10, n - 1);
    }
  }

  /** itoa: `value` is an int other than the least one, and not negative except in base 10. */
  method Itoa(value: int, str: array<Byte>, base: nat)
    requires 2 <= base <= 36 && -0x8000_0000 < value < 0x8000_0000 && (value >= 0 || base == 10)
    requires |Text(value, base)| < str.Length
    modifies str
    ensures str[..|Text(value, base)| + 1] == Text(value, base) + [0]
    ensures Str(str[..]) == Text(value, base)
    ensures forall j :: |Text(value, base)| < j < str.Length ==> str[j] == old(str[j])
  {
    TextParses(value, base);
    ghost var text := Text(value, base);
    if value == 0 {
      str[0] := 48;
      str[1] := 0;
      StrIs(str[..], text);
      return;
    }
    var isNegative := value < 0 && base == 10;
    var i := EmitReversed(if isNegative then -value else value, str, base);
    if isNegative {
      ghost var done := str[..i];
      str[i] := 45;
      assert str[..i + 1] == done + [45];
      RevSnoc(done, 45);
      i := i + 1;
    }
    Terminate(str, i, text);
  }

  method Terminate(str: array<Byte>, i: nat, ghost text: seq<Byte>)
    requires i < str.Length && Rev(str[..i]) == text && 0 !in text
    modifies str
    ensures str[..i + 1] == text + [0] && Str(str[..]) == text && |text| == i
    ensures forall j :: i < j < str.Length ==> str[j] == old(str[j])
  {
    str[i] := 0;
    assert str[..i] == old(str[..i]);
    Reverse(str, i);
    StrIs(str[..], text);
  }

  /** The division loop leaves the digits least significant first. */
  method EmitReversed(value: nat, str: array<Byte>, base: nat) returns (i: nat)
    requires 2 <= base <= 36 && |Digits(value, base)| < str.Length
    modifies str
    ensures i == |Digits(value, base)| && Rev(str[..i]) == Digits(value, base)
    ensures forall j :: i <= j < str.Length ==> str[j] == old(str[j])
  {
    ghost var all := Digits(value, base);
    var v: nat := value;
    i := 0;
    while v != 0
      invariant i + |Digits(v, base)| == |all| && Digits(v, base) + Rev(str[..i]) == all
      invariant forall j :: i <= j < str.Length ==> str[j] == old(str[j])
      decreases v
    {
      Smaller(v, base);
      var q, rem := v / base, v % base;
      var c: Byte := if rem > 9 then rem - 10 + 97 else rem + 48;
      ghost var done := str[..i];
      EmitStep(v, base, q, rem, c, done);
      str[i] := c;
      assert str[..i + 1] == done + [c];
      i := i + 1;
      v := q;
    }
  }

  lemma EmitStep(v: nat, base: nat, q: nat, rem: nat, c: Byte, done: seq<Byte>)
    requires 2 <= base <= 36 && v > 0 && q == v / base && rem == v % base && rem < 36 && c == DigitChar(rem)
    ensures |Digits(v, base)| == |Digits(q, base)| + 1
    ensures Digits(q, base) + Rev(done + [c]) == Digits(v, base) + Rev(done)
  {
    RevSnoc(done, c);
    assert Digits(q, base) + ([c] + Rev(done)) == (Digits(q, base) + [c]) + Rev(done);
  }
}
