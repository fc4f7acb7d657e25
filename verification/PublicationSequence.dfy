/** Provider-local publication sequences: decimal strings whose order is their numeric order. */
module PublicationSequence {

  predicate Digit(c: char) {
    '0' <= c <= '9'
  }

  /** `packCatalogSequenceSchema`: decimal digits with no leading zero. */
  predicate IsSequence(s: string) {
    s != "" && s[0] != '0' && forall i :: 0 <= i < |s| ==> Digit(s[i])
  }

  /** `compareCanonicalStrings`, on strings whose characters are single bytes. */
  function CompareStrings(l: string, r: string): int {
    if l == "" || r == "" then |l| - |r|
    else if l[0] != r[0] then l[0] as int - r[0] as int
    else CompareStrings(l[1..], r[1..])
  }

  /** `comparePublicationSequences`. */
  function Compare(l: string, r: string): int {
    if |l| != |r| then |l| - |r| else CompareStrings(l, r)
  }

  /** The number a digit string writes. */
  function Number(s: string): nat
    requires forall i :: 0 <= i < |s| ==> Digit(s[i])
  {
    if s == "" then 0
    else
      assert Digit(s[|s| - 1]);
      10 * Number(s[..|s| - 1]) + (s[|s| - 1] as int - '0' as int)
  }

  function Power(n: nat): nat {
    if n == 0 then 1 else 10 * Power(n - 1)
  }

  lemma {:induction false} NumberBounds(s: string)
    requires forall i :: 0 <= i < |s| ==> Digit(s[i])
    ensures Number(s) < Power(|s|)
    ensures IsSequence(s) ==> Power(|s| - 1) <= Number(s)
  {
    if |s| > 0 {
      NumberBounds(s[..|s| - 1]);
      if |s| > 1 && IsSequence(s) {
        assert IsSequence(s[..|s| - 1]);
      }
    }
  }

  lemma {:induction false} PowerGrows(m: nat, n: nat)
    requires m <= n
    ensures Power(m) <= Power(n)
  {
    if m < n {
      PowerGrows(m, n - 1);
    }
  }

  lemma {:induction false} CompareOneMore(l: string, r: string, a: char, b: char)
    requires |l| == |r|
    ensures CompareStrings(l + [a], r + [b])
            == if CompareStrings(l, r) != 0 then CompareStrings(l, r) else a as int - b as int
  {
    if l == "" {
      assert (l + [a])[1..] == "" && (r + [b])[1..] == "";
    } else {
      assert (l + [a])[1..] == l[1..] + [a] && (r + [b])[1..] == r[1..] + [b];
      CompareOneMore(l[1..], r[1..], a, b);
    }
  }

  lemma {:induction false} SameLengthOrder(l: string, r: string)
    requires |l| == |r|
    requires (forall i :: 0 <= i < |l| ==> Digit(l[i])) && forall i :: 0 <= i < |r| ==> Digit(r[i])
    ensures CompareStrings(l, r) < 0 <==> Number(l) < Number(r)
    ensures CompareStrings(l, r) == 0 <==> Number(l) == Number(r)
    ensures CompareStrings(l, r) == 0 <==> l == r
  {
    if l != "" {
      var l', r' := l[..|l| - 1], r[..|r| - 1];
      SameLengthOrder(l', r');
      CompareOneMore(l', r', l[|l| - 1], r[|r| - 1]);
      assert l == l' + [l[|l| - 1]] && r == r' + [r[|r| - 1]];
    }
  }

  /** Shorter first, then lexicographic, is numeric order; and equal sequences are the same string. */
  lemma CompareIsNumeric(l: string, r: string)
    requires IsSequence(l) && IsSequence(r)
    ensures Compare(l, r) < 0 <==> Number(l) < Number(r)
    ensures Compare(l, r) == 0 <==> Number(l) == Number(r)
    ensures Compare(l, r) == 0 <==> l == r
  {
    NumberBounds(l);
    NumberBounds(r);
    if |l| < |r| {
      PowerGrows(|l|, |r| - 1);
    } else if |r| < |l| {
      PowerGrows(|r|, |l| - 1);
    } else {
      SameLengthOrder(l, r);
    }
  }
}
