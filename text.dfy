/**
 * The string operations the helpers rely on: `sep.join(parts)`, the
 * substring test `sub in s`, ASCII `str.upper()` and the decimal
 * rendering of integers used when values are formatted into SQL text.
 */
module Text {

  /** `sep.join(parts)`. */
  function Join(sep: string, parts: seq<string>): string
  {
    if |parts| == 0 then ""
    else if |parts| == 1 then parts[0]
    else parts[0] + sep + Join(sep, parts[1..])
  }

  /** Where the `i`-th part starts inside `Join(sep, parts)`. */
  function PartStart(sep: string, parts: seq<string>, i: nat): nat
    requires i <= |parts|
  {
    if i == 0 then 0 else PartStart(sep, parts, i - 1) + |parts[i - 1]| + |sep|
  }

  lemma {:induction false} PartStartShift(sep: string, parts: seq<string>, i: nat)
    requires 1 <= i <= |parts|
    ensures PartStart(sep, parts, i) == |parts[0]| + |sep| + PartStart(sep, parts[1..], i - 1)
  {
    if i > 1 {
      PartStartShift(sep, parts, i - 1);
    }
  }

  /** A slice lying wholly in the right operand of a concatenation is a slice of that operand. */
  lemma SliceRight(a: string, b: string, x: nat, y: nat)
    requires |a| <= x <= y <= |a| + |b|
    ensures (a + b)[x..y] == b[x - |a|..y - |a|]
  {
  }

  /** A slice lying wholly in the left operand of a concatenation is a slice of that operand. */
  lemma SliceLeft(a: string, b: string, x: nat, y: nat)
    requires x <= y <= |a|
    ensures (a + b)[x..y] == a[x..y]
  {
  }

  /** Layout of a join: every part appears intact, in order, at `PartStart`. */
  lemma {:induction false} JoinPartAt(sep: string, parts: seq<string>, i: nat)
    requires i < |parts|
    ensures PartStart(sep, parts, i) + |parts[i]| <= |Join(sep, parts)|
    ensures Join(sep, parts)[PartStart(sep, parts, i)..PartStart(sep, parts, i) + |parts[i]|] == parts[i]
  {
    if i == 0 {
      JoinFirstPart(sep, parts);
    } else {
      var head, rest := parts[0] + sep, Join(sep, parts[1..]);
      assert Join(sep, parts) == head + rest;
      JoinPartAt(sep, parts[1..], i - 1);
      assert parts[1..][i - 1] == parts[i];
      PartStartShift(sep, parts, i);
      var s := PartStart(sep, parts[1..], i - 1);
      assert PartStart(sep, parts, i) == |head| + s;
      PieceShifted(head, rest, s, parts[i]);
    }
  }

  /** A piece found in the right operand of a concatenation is found there, shifted by the left one. */
  lemma PieceShifted(head: string, rest: string, s: nat, piece: string)
    requires s + |piece| <= |rest| && rest[s..s + |piece|] == piece
    ensures |head| + s + |piece| <= |head + rest| && (head + rest)[|head| + s..|head| + s + |piece|] == piece
  {
    SliceRight(head, rest, |head| + s, |head| + s + |piece|);
  }

  /** The first part of a join starts it. */
  lemma JoinFirstPart(sep: string, parts: seq<string>)
    requires 0 < |parts|
    ensures |parts[0]| <= |Join(sep, parts)| && Join(sep, parts)[..|parts[0]|] == parts[0]
  {
    if |parts| > 1 {
      var head, rest := parts[0] + sep, Join(sep, parts[1..]);
      assert Join(sep, parts) == head + rest;
      SliceLeft(head, rest, 0, |parts[0]|);
      assert head[..|parts[0]|] == parts[0];
    }
  }

  /** Layout of a join: exactly one separator lies between neighbouring parts. */
  lemma {:induction false} JoinSepAt(sep: string, parts: seq<string>, i: nat)
    requires i + 1 < |parts|
    ensures PartStart(sep, parts, i + 1) <= |Join(sep, parts)|
    ensures Join(sep, parts)[PartStart(sep, parts, i) + |parts[i]|..PartStart(sep, parts, i + 1)] == sep
  {
    var head := parts[0] + sep;
    var rest := Join(sep, parts[1..]);
    assert Join(sep, parts) == head + rest;
    if i == 0 {
      SliceLeft(head, rest, |parts[0]|, |head|);
      assert head[|parts[0]|..|head|] == sep;
    } else {
      JoinSepAt(sep, parts[1..], i - 1);
      assert parts[1..][i - 1] == parts[i];
      PartStartShift(sep, parts, i);
      PartStartShift(sep, parts, i + 1);
      var s := PartStart(sep, parts[1..], i - 1);
      assert PartStart(sep, parts[1..], i) == s + |parts[i]| + |sep|;
      PieceShifted(head, rest, s + |parts[i]|, sep);
    }
  }

  /** Joining two non-empty lists puts one separator between the two joins. */
  lemma {:induction false} JoinAppend(sep: string, a: seq<string>, b: seq<string>)
    requires |a| > 0 && |b| > 0
    ensures Join(sep, a + b) == Join(sep, a) + sep + Join(sep, b)
  {
    if |a| == 1 {
      assert (a + b)[1..] == b;
    } else {
      assert (a + b)[1..] == a[1..] + b;
      JoinAppend(sep, a[1..], b);
    }
  }

  /** `s` starts with `prefix` (Python's `s.startswith(prefix)`). */
  predicate StartsWith(s: string, prefix: string)
  {
    |prefix| <= |s| && s[..|prefix|] == prefix
  }

  /** Python's `sub in s` on strings. */
  predicate Contains(s: string, sub: string)
  {
    StartsWith(s, sub) || (|s| > 0 && Contains(s[1..], sub))
  }

  /** `sub` occurs in `s` starting at position `i`. */
  predicate OccursAt(s: string, sub: string, i: int)
  {
    0 <= i && i + |sub| <= |s| && s[i..i + |sub|] == sub
  }

  /** `sub in s` holds exactly when `sub` occurs at some position of `s`. */
  lemma {:induction false} ContainsIff(s: string, sub: string)
    ensures Contains(s, sub) <==> exists i :: OccursAt(s, sub, i)
  {
    if StartsWith(s, sub) {
      assert OccursAt(s, sub, 0);
    } else if |s| > 0 {
      ContainsIff(s[1..], sub);
      if Contains(s[1..], sub) {
        var i :| OccursAt(s[1..], sub, i);
        assert OccursAt(s, sub, i + 1);
      }
      if exists i :: OccursAt(s, sub, i) {
        var i :| OccursAt(s, sub, i);
        assert i != 0;
        assert OccursAt(s[1..], sub, i - 1);
      }
    }
  }

  /** An occurrence at a known position makes `sub in s` true. */
  lemma ContainsAt(s: string, sub: string, i: nat)
    requires OccursAt(s, sub, i)
    ensures Contains(s, sub)
  {
    ContainsIff(s, sub);
  }

  /** A character of `sub` that `s` lacks makes `sub in s` false. */
  lemma MissingCharNotContained(s: string, sub: string, k: nat)
    requires k < |sub| && sub[k] !in s
    ensures !Contains(s, sub)
  {
    ContainsIff(s, sub);
    forall i | 0 <= i <= |s| - |sub|
      ensures !OccursAt(s, sub, i)
    {
      assert s[i + k] in s;
    }
  }

  predicate IsLowerAscii(c: char)
  {
    'a' <= c <= 'z'
  }

  function UpperChar(c: char): char
  {
    if IsLowerAscii(c) then (c as int - 32) as char else c
  }

  /**
   * `s.upper()` on ASCII text: no lower-case letter is left, every
   * lower-case letter becomes its capital (32 code points lower), and every
   * other character is kept as it was.
   */
  function Upper(s: string): (r: string)
    ensures |r| == |s|
    ensures forall i :: 0 <= i < |r| ==> !IsLowerAscii(r[i])
    ensures forall i :: 0 <= i < |s| && IsLowerAscii(s[i]) ==> r[i] as int == s[i] as int - 32
    ensures forall i :: 0 <= i < |s| && !IsLowerAscii(s[i]) ==> r[i] == s[i]
  {
    seq(|s|, i requires 0 <= i < |s| => UpperChar(s[i]))
  }

  /**
   * Two texts upper-case to the same text exactly when they have the same
   * length and agree letter by letter once each letter is upper-cased.
   */
  lemma UpperEqualIff(x: string, y: string)
    ensures Upper(x) == Upper(y) <==>
            |x| == |y| && forall i :: 0 <= i < |x| ==> UpperChar(x[i]) == UpperChar(y[i])
  {
    assert forall i :: 0 <= i < |x| ==> Upper(x)[i] == UpperChar(x[i]);
    assert forall i :: 0 <= i < |y| ==> Upper(y)[i] == UpperChar(y[i]);
  }

  /** Upper-casing twice changes nothing more than upper-casing once. */
  lemma UpperIdempotent(s: string)
    ensures Upper(Upper(s)) == Upper(s)
  {
  }

  function DigitChar(d: nat): char
    requires d < 10
  {
    "0123456789"[d]
  }

  function DigitValue(c: char): nat
  {
    if '0' <= c <= '9' then c as int - '0' as int else 0
  }

  /** Python's `str(n)` for a natural number: decimal digits, no leading zero. */
  function NatToString(n: nat): (r: string)
    ensures |r| > 0
    ensures forall i :: 0 <= i < |r| ==> '0' <= r[i] <= '9'
    ensures r[0] == '0' ==> r == "0"
    ensures r == "0" <==> n == 0
  {
    if n < 10 then [DigitChar(n)] else NatToString(n / 10) + [DigitChar(n % 10)]
  }

  /** The value a string of decimal digits denotes. */
  function DigitsValue(s: string): nat
  {
    if s == [] then 0 else 10 * DigitsValue(s[..|s| - 1]) + DigitValue(s[|s| - 1])
  }

  /** Rendering a natural number in decimal loses nothing: reading the digits back gives it. */
  lemma {:induction false} NatToStringRoundTrip(n: nat)
    ensures DigitsValue(NatToString(n)) == n
  {
    var r := NatToString(n);
    if n < 10 {
      assert r[..0] == [];
    } else {
      NatToStringRoundTrip(n / 10);
      assert r[..|r| - 1] == NatToString(n / 10);
    }
  }

  /** Python's `str(i)` for an integer. */
  function IntToString(i: int): string
  {
    if i < 0 then "-" + NatToString(-i) else NatToString(i)
  }

  /** `s` left-padded with zeros to at least `width` characters. */
  function ZeroPad(s: string, width: nat): (r: string)
    ensures |r| == if |s| >= width then |s| else width
    ensures r[|r| - |s|..] == s
    ensures forall i :: 0 <= i < |r| - |s| ==> r[i] == '0'
  {
    if |s| >= width then s else seq(width - |s|, _ => '0') + s
  }
}
