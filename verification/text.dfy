/** The two string operations the calculation applies to its unit and option labels:
    substring membership (Python's `sub in s`) and the first field of `s.split(' ')`. */
module Text {

  /** `p` is a prefix of `s`. */
  predicate StartsWith(s: string, p: string)
  {
    |p| <= |s| && s[..|p|] == p
  }

  /** Python's `sub in s` for strings: `sub` occurs somewhere in `s`. */
  predicate Contains(s: string, sub: string)
    decreases |s|
  {
    StartsWith(s, sub) || (|s| > 0 && Contains(s[1..], sub))
  }

  /** `sub` occurs in `s` starting at index `i`. */
  predicate OccursAt(s: string, sub: string, i: int)
  {
    0 <= i <= |s| - |sub| && s[i..i + |sub|] == sub
  }

  /** `Contains` agrees with the positional reading of `sub in s`. */
  lemma {:induction false} ContainsAt(s: string, sub: string)
    ensures Contains(s, sub) <==> exists i :: OccursAt(s, sub, i)
    decreases |s|
  {
    if |s| > 0 {
      ContainsAt(s[1..], sub);
      if StartsWith(s, sub) {
        assert OccursAt(s, sub, 0);
      }
      if Contains(s[1..], sub) {
        var i :| OccursAt(s[1..], sub, i);
        assert s[i + 1..i + 1 + |sub|] == s[1..][i..i + |sub|];
        assert OccursAt(s, sub, i + 1);
      }
      if i :| OccursAt(s, sub, i) {
        if i > 0 {
          assert s[1..][i - 1..i - 1 + |sub|] == s[i..i + |sub|];
          assert OccursAt(s[1..], sub, i - 1);
        } else {
          assert s[..|sub|] == s[i..i + |sub|];
        }
      }
    } else if sub == [] {
      assert OccursAt(s, sub, 0);
    }
  }

  /** `s.split(' ')[0]`: the longest prefix of `s` holding no space. */
  function FirstWord(s: string): (w: string)
    ensures StartsWith(s, w)
    ensures forall i | 0 <= i < |w| :: w[i] != ' '
    ensures |w| < |s| ==> s[|w|] == ' '
  {
    if s == [] || s[0] == ' ' then [] else [s[0]] + FirstWord(s[1..])
  }

  /** A pattern holding a character that does not occur in `s` does not occur in `s`. */
  lemma {:induction false} MissingChar(s: string, p: string, k: nat)
    requires k < |p| && p[k] !in s
    ensures !Contains(s, p)
    decreases |s|
  {
    if |s| > 0 {
      assert forall c | c in s[1..] :: c in s;
      MissingChar(s[1..], p, k);
      if |p| <= |s| {
        assert s[k] == s[..|p|][k];
      }
    }
  }

  /** The first word of `s` ends at its first space. */
  lemma {:induction false} FirstWordUpTo(s: string, k: nat)
    requires k < |s| && s[k] == ' ' && forall i | 0 <= i < k :: s[i] != ' '
    ensures FirstWord(s) == s[..k]
  {
    if k > 0 {
      assert s[0] != ' ';
      FirstWordUpTo(s[1..], k - 1);
      assert s[..k] == [s[0]] + s[1..][..k - 1];
    }
  }
}
