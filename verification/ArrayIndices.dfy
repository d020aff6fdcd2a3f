/** Array indices as pointer segments: section 4 of RFC 6901. */
module ArrayIndices {
  import opened Ordering
  import opened Outcomes
  import opened JsonPointer

  predicate IsDigit(c: char) {
    '0' <= c <= '9'
  }

  /** Zero, or digits without a leading zero. */
  predicate Canonical(s: string) {
    s == "0" || (s != [] && s[0] != '0' && forall i :: 0 <= i < |s| ==> IsDigit(s[i]))
  }

  function DigitValue(c: char): nat {
    if IsDigit(c) then c as int - '0' as int else 0
  }

  function IndexValue(s: string): nat {
    if s == [] then 0 else IndexValue(s[..|s| - 1]) * 10 + DigitValue(s[|s| - 1])
  }

  /** The index a segment names in an array of some length; the append position only where it is allowed. */
  function ArrayIndex(segment: string, length: nat, allowAppend: bool): Result<nat, PointerError> {
    if allowAppend && segment == "-" then Ok(length)
    else if !Canonical(segment) then Err(InvalidArrayIndex)
    else if IndexValue(segment) >= length + (if allowAppend then 1 else 0) then Err(MissingTarget)
    else Ok(IndexValue(segment))
  }

  function Digit(n: nat): char
    requires n < 10
  {
    ('0' as int + n) as char
  }

  /** The decimal text of an index. */
  function IndexText(n: nat): string {
    if n < 10 then [Digit(n)] else IndexText(n / 10) + [Digit(n % 10)]
  }

  lemma {:induction false} TextOfIndex(n: nat)
    ensures Canonical(IndexText(n)) && IndexValue(IndexText(n)) == n && (n > 0 ==> IndexText(n)[0] != '0')
    ensures IndexText(n) != "-"
  {
    if n < 10 {
      assert IndexText(n)[..0] == [];
    } else {
      TextOfIndex(n / 10);
      AppendSplit(IndexText(n / 10), Digit(n % 10));
    }
  }

  lemma {:induction false} IndexOfText(s: string)
    requires Canonical(s)
    ensures IndexText(IndexValue(s)) == s
    ensures s[0] != '0' ==> IndexValue(s) > 0
  {
    if |s| == 1 {
      assert s[..0] == [];
      assert s == [s[0]];
    } else {
      var front := s[..|s| - 1];
      IndexOfText(front);
      SplitLast(s);
      var v, d := IndexValue(front), DigitValue(s[|s| - 1]);
      assert (v * 10 + d) / 10 == v && (v * 10 + d) % 10 == d;
      assert Digit(d) == s[|s| - 1];
    }
  }

  /** Two different segments never name the same element of an array. */
  lemma IndexIsInjective(a: string, b: string, length: nat)
    requires ArrayIndex(a, length, false).Ok? && ArrayIndex(a, length, false) == ArrayIndex(b, length, false)
    ensures a == b
  {
    IndexOfText(a);
    IndexOfText(b);
  }

  /** Every element has a segment. */
  lemma IndexIsNamed(i: nat, length: nat)
    ensures ArrayIndex(IndexText(i), length, false) == if i < length then Ok(i) else Err(MissingTarget)
  {
    TextOfIndex(i);
  }
}
