/** String helpers the handlers rely on: Python's `str(n)` for a
    non-negative integer and `email.split('@')[0]`. */
module Text {

  const Digits: string := "0123456789"

  /** Python's `str(n)` for n >= 0: decimal digits, no leading zero. */
  function NatToString(n: nat): (s: string)
    ensures |s| >= 1
    ensures forall i | 0 <= i < |s| :: s[i] in Digits
    ensures (n < 10) == (|s| == 1)
    ensures |s| > 1 ==> s[0] != '0'
    decreases n
  {
    if n < 10 then [Digits[n]] else NatToString(n / 10) + [Digits[n % 10]]
  }

  /** Distinct numbers print differently, so `base + str(k)` names a
      different candidate for every k. */
  lemma {:induction false} NatToStringInjective(a: nat, b: nat)
    requires NatToString(a) == NatToString(b)
    ensures a == b
    decreases a
  {
    if a >= 10 && b >= 10 {
      var sa, sb := NatToString(a), NatToString(b);
      assert sa[|sa| - 1] == Digits[a % 10] && sb[|sb| - 1] == Digits[b % 10];
      assert a % 10 == b % 10;
      assert NatToString(a / 10) == sa[..|sa| - 1] == sb[..|sb| - 1] == NatToString(b / 10);
      NatToStringInjective(a / 10, b / 10);
    } else {
      assert a < 10 && b < 10;
      assert Digits[a] == NatToString(a)[0] == NatToString(b)[0] == Digits[b];
    }
  }

  /** Different suffixes after a common base give different strings. */
  lemma AppendCancel(base: string, s: string, t: string)
    requires base + s == base + t
    ensures s == t
  {
    assert s == (base + s)[|base|..];
    assert t == (base + t)[|base|..];
  }

  /** `email.split('@')[0]`: the text before the first '@', or the whole
      string when it has none. */
  function BeforeAt(email: string): (r: string)
    ensures '@' !in r
    ensures r <= email
    ensures |r| < |email| ==> email[|r|] == '@'
  {
    if email == [] then []
    else if email[0] == '@' then []
    else [email[0]] + BeforeAt(email[1..])
  }

  /** The prefix before '@' is the unique '@'-free prefix that ends at an '@'
      or at the end of the string. */
  lemma {:induction false} BeforeAtUnique(email: string, p: string)
    requires p <= email && '@' !in p
    requires |p| == |email| || email[|p|] == '@'
    ensures BeforeAt(email) == p
  {
    if email != [] && email[0] != '@' {
      assert p != [];
      assert p[0] == email[0];
      BeforeAtUnique(email[1..], p[1..]);
      assert p == [email[0]] + p[1..];
    }
  }
}
