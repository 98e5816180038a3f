/**
 * The pieces of Swift's string handling the app relies on: decimal rendering of
 * integers (string interpolation of `Int`), `lowercased()`, `contains(_:)`,
 * `joined(separator:)`, and splitting a string back into lines.
 */
module Text {

  predicate IsDigit(c: char) {
    '0' <= c <= '9'
  }

  predicate IsDigits(s: string) {
    forall i :: 0 <= i < |s| ==> IsDigit(s[i])
  }

  function DigitChar(d: nat): (c: char)
    requires d < 10
    ensures IsDigit(c)
  {
    (48 + d) as char
  }

  function DigitValue(c: char): (d: nat)
    requires IsDigit(c)
    ensures d < 10 && DigitChar(d) == c
  {
    (c as int) - 48
  }

  /** Decimal rendering of a natural number, most significant digit first, no leading zeros. */
  function NatToString(n: nat): (s: string)
    ensures |s| >= 1 && IsDigits(s)
    ensures (|s| == 1) == (n < 10)
    decreases n
  {
    if n < 10 then [DigitChar(n)] else NatToString(n / 10) + [DigitChar(n % 10)]
  }

  /** Swift's `"\(i)"` for an `Int`: a minus sign before the digits of a negative number. */
  function IntToString(i: int): (s: string)
    ensures |s| >= 1
    ensures i < 0 <==> s[0] == '-'
  {
    if i < 0 then "-" + NatToString(-i) else NatToString(i)
  }

  /** The rendering of an integer holds only decimal digits and, in front, a minus sign. */
  lemma IntToStringChars(i: int)
    ensures forall k :: 0 <= k < |IntToString(i)| ==> IsDigit(IntToString(i)[k]) || IntToString(i)[k] == '-'
  {
    if i < 0 {
      var d := NatToString(-i);
      assert forall k :: 1 <= k < |IntToString(i)| ==> IntToString(i)[k] == d[k - 1];
    }
  }

  /** The value a string of decimal digits denotes: the reference reading of `NatToString`. */
  function DecimalValue(s: string): nat
    requires IsDigits(s)
  {
    if s == [] then 0 else DecimalValue(s[..|s| - 1]) * 10 + DigitValue(s[|s| - 1])
  }

  /** Reading the rendered digits back gives the number: rendering loses nothing. */
  lemma {:induction false} DecimalRoundTrip(n: nat)
    ensures DecimalValue(NatToString(n)) == n
    decreases n
  {
    if n >= 10 {
      var s := NatToString(n);
      DecimalRoundTrip(n / 10);
      assert s[..|s| - 1] == NatToString(n / 10);
      assert s[|s| - 1] == DigitChar(n % 10);
    }
  }

  lemma NatToStringInjective(a: nat, b: nat)
    ensures NatToString(a) == NatToString(b) ==> a == b
  {
    if NatToString(a) == NatToString(b) {
      DecimalRoundTrip(a);
      DecimalRoundTrip(b);
    }
  }

  /** Two integers render to the same text only if they are equal. */
  lemma IntToStringInjective(a: int, b: int)
    ensures IntToString(a) == IntToString(b) ==> a == b
  {
    if IntToString(a) == IntToString(b) {
      if a < 0 && b < 0 {
        assert NatToString(-a) == IntToString(a)[1..];
        NatToStringInjective(-a, -b);
      } else if a >= 0 && b >= 0 {
        NatToStringInjective(a, b);
      }
    }
  }

  /**
   * One character of `lowercased()`: ASCII and Latin-1 capitals map to their small
   * letters, every other character is left as it is.
   */
  function LowerChar(c: char): char {
    if 'A' <= c <= 'Z' then (c as int + 32) as char
    else if 'À' <= c <= 'Þ' && c != '×' then (c as int + 32) as char
    else c
  }

  function Lower(s: string): (r: string)
    ensures |r| == |s|
    ensures forall i :: 0 <= i < |s| ==> r[i] == LowerChar(s[i])
  {
    seq(|s|, i requires 0 <= i < |s| => LowerChar(s[i]))
  }

  /** Lowering twice is lowering once: a lowered string has no capital left. */
  lemma LowerIdempotent(s: string)
    ensures Lower(Lower(s)) == Lower(s)
  {
    var l := Lower(s);
    forall i | 0 <= i < |s|
      ensures LowerChar(l[i]) == l[i]
    {
    }
  }

  /**
   * `s.contains(q)`: `q` occurs in `s` as a contiguous piece. Here the empty piece occurs
   * in every string, where Foundation answers false; the search only ever asks about a
   * non-empty text, so the two never disagree on a question the list screen asks.
   */
  function Contains(s: string, q: string): bool
    decreases |s|
  {
    q <= s || (|s| > 0 && Contains(s[1..], q))
  }

  /** `q` occurs in `s` starting at position `k`. */
  predicate OccursAt(s: string, q: string, k: int) {
    0 <= k <= |s| - |q| && s[k..k + |q|] == q
  }

  /** `Contains` agrees with the positional definition of a substring, in both directions. */
  lemma {:induction false} ContainsIff(s: string, q: string)
    ensures Contains(s, q) <==> exists k :: OccursAt(s, q, k)
    decreases |s|
  {
    if q <= s {
      assert s[0..0 + |q|] == q;
      assert OccursAt(s, q, 0);
    } else if |s| == 0 {
    } else {
      ContainsIff(s[1..], q);
      if Contains(s[1..], q) {
        var k :| OccursAt(s[1..], q, k);
        assert s[k + 1..k + 1 + |q|] == s[1..][k..k + |q|];
        assert OccursAt(s, q, k + 1);
      } else {
        assert OccursAt(s, q, 0) ==> q <= s;
        forall k | 0 < k <= |s| - |q|
          ensures OccursAt(s, q, k) ==> OccursAt(s[1..], q, k - 1)
        {
          assert s[k..k + |q|] == s[1..][k - 1..k - 1 + |q|];
        }
      }
    }
  }

  /** A piece placed between two others is contained in the whole. */
  lemma ContainsMiddle(a: string, q: string, b: string)
    ensures Contains(a + q + b, q)
  {
    var s := a + q + b;
    assert s[|a|..|a| + |q|] == q;
    assert OccursAt(s, q, |a|);
    ContainsIff(s, q);
  }

  /** The pieces of a string interpolation, concatenated in order. */
  function Concat(parts: seq<string>): string
    decreases |parts|
  {
    if parts == [] then "" else parts[0] + Concat(parts[1..])
  }

  lemma {:induction false} ConcatAround(parts: seq<string>, i: nat)
    requires i < |parts|
    ensures Concat(parts) == Concat(parts[..i]) + parts[i] + Concat(parts[i + 1..])
    decreases i
  {
    if i == 0 {
      assert parts[..0] == [];
    } else {
      ConcatAround(parts[1..], i - 1);
      assert parts[1..][..i - 1] == parts[1..i];
      assert parts[1..][i - 1 + 1..] == parts[i + 1..];
      assert parts[..i][1..] == parts[1..i];
    }
  }

  /** Every piece of an interpolation occurs in its result. */
  lemma ContainsPart(parts: seq<string>, i: nat)
    requires i < |parts|
    ensures Contains(Concat(parts), parts[i])
  {
    ConcatAround(parts, i);
    ContainsMiddle(Concat(parts[..i]), parts[i], Concat(parts[i + 1..]));
  }

  /** `lines.joined(separator: sep)`. */
  function Join(lines: seq<string>, sep: char): string
    decreases |lines|
  {
    if |lines| == 0 then ""
    else if |lines| == 1 then lines[0]
    else lines[0] + [sep] + Join(lines[1..], sep)
  }

  /** Splitting at every `sep`, keeping empty pieces: the reference inverse of `Join`. */
  function Split(s: string, sep: char): (r: seq<string>)
    ensures |r| >= 1
    decreases |s|
  {
    if |s| == 0 then [""]
    else
      var rest := Split(s[1..], sep);
      if s[0] == sep then [""] + rest
      else [[s[0]] + rest[0]] + rest[1..]
  }

  /** A text opening with a character other than `sep` glues that character to the first piece. */
  lemma SplitNonSeparatorHead(s: string, sep: char)
    requires |s| > 0 && s[0] != sep
    ensures Split(s, sep) == [[s[0]] + Split(s[1..], sep)[0]] + Split(s[1..], sep)[1..]
  {
  }

  lemma {:induction false} SplitNoSeparatorPrefix(l: string, t: string, sep: char)
    requires sep !in l
    ensures Split(l + t, sep) == [l + Split(t, sep)[0]] + Split(t, sep)[1..]
    decreases |l|
  {
    var x := Split(t, sep);
    if |l| > 0 {
      var lt := l + t;
      assert lt[0] == l[0] && lt[1..] == l[1..] + t;
      SplitNoSeparatorPrefix(l[1..], t, sep);
      SplitNonSeparatorHead(lt, sep);
      assert [l[0]] + (l[1..] + x[0]) == l + x[0] by {
        assert [l[0]] + l[1..] == l;
      }
    } else {
      assert l + t == t && l + x[0] == x[0];
      assert [x[0]] + x[1..] == x;
    }
  }

  /** Lines that hold no separator come back unchanged from a join followed by a split. */
  lemma {:induction false} SplitJoin(lines: seq<string>, sep: char)
    requires |lines| >= 1
    requires forall i :: 0 <= i < |lines| ==> sep !in lines[i]
    ensures Split(Join(lines, sep), sep) == lines
    decreases |lines|
  {
    if |lines| == 1 {
      SplitNoSeparatorPrefix(lines[0], "", sep);
      assert lines[0] + "" == lines[0];
    } else {
      var tail := Join(lines[1..], sep);
      SplitJoin(lines[1..], sep);
      SplitNoSeparatorPrefix(lines[0], [sep] + tail, sep);
      assert ([sep] + tail)[1..] == tail;
      assert Split([sep] + tail, sep) == [""] + Split(tail, sep);
      assert lines[0] + [sep] + tail == lines[0] + ([sep] + tail);
      assert lines[0] + "" == lines[0];
    }
  }
}
