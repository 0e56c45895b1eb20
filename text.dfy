/** The two string operations the core relies on: lower-casing and substring search. */
module Text {

  /** Python's `str.lower` on one character, restricted to ASCII letters. */
  function LowerChar(c: char): char
  {
    if 'A' <= c <= 'Z' then (c as int + 32) as char else c
  }

  /** Python's `str.lower`, character by character. */
  function Lower(s: string): (r: string)
    ensures |r| == |s|
    ensures forall i :: 0 <= i < |s| ==> r[i] == LowerChar(s[i])
    ensures forall i :: 0 <= i < |s| ==> !('A' <= r[i] <= 'Z')
  {
    if s == [] then [] else [LowerChar(s[0])] + Lower(s[1..])
  }

  /** Python's `t in s` for strings: `t` occurs in `s` as a contiguous block. */
  predicate Contains(s: string, t: string)
  {
    t <= s || (s != [] && Contains(s[1..], t))
  }

  /** The same relation stated by position: `t` occurs at some offset `i` of `s`. */
  ghost predicate OccursAt(s: string, t: string, i: int)
  {
    0 <= i && i + |t| <= |s| && s[i..i + |t|] == t
  }

  /** The recursive search agrees with the positional definition, in both directions. */
  lemma {:induction false} ContainsIffOccurs(s: string, t: string)
    ensures Contains(s, t) <==> exists i :: OccursAt(s, t, i)
  {
    if s == [] {
      if t == [] {
        assert OccursAt(s, t, 0);
      }
      if exists i :: OccursAt(s, t, i) {
        var i :| OccursAt(s, t, i);
        assert t == [];
      }
    } else {
      ContainsIffOccurs(s[1..], t);
      if t <= s {
        assert s[0..|t|] == t;
        assert OccursAt(s, t, 0);
      }
      forall i | OccursAt(s, t, i)
        ensures t <= s || OccursAt(s[1..], t, i - 1)
      {
        if i > 0 {
          assert s[1..][i - 1..i - 1 + |t|] == s[i..i + |t|];
        }
      }
      forall i | OccursAt(s[1..], t, i)
        ensures OccursAt(s, t, i + 1)
      {
        assert s[1..][i..i + |t|] == s[i + 1..i + 1 + |t|];
      }
    }
  }

  /** Every prefix of a string that occurs in `s` occurs in `s` too. */
  lemma {:induction false} ContainsPrefix(s: string, t: string, u: string)
    requires Contains(s, t) && u <= t
    ensures Contains(s, u)
  {
    if t <= s {
      assert u <= s;
    } else {
      ContainsPrefix(s[1..], t, u);
    }
  }

  /** "winner" in q implies "win" in q, so the scanner's two-part question test is a test for "win". */
  lemma WinnerImpliesWin(q: string)
    ensures (Contains(q, "winner") || Contains(q, "win")) <==> Contains(q, "win")
  {
    if Contains(q, "winner") {
      assert "win" <= "winner";
      ContainsPrefix(q, "winner", "win");
    }
  }

  /** A non-empty string whose first character does not occur in `s` is not contained in `s`. */
  lemma {:induction false} NotContainsMissingChar(s: string, t: string)
    requires t != [] && t[0] !in s
    ensures !Contains(s, t)
  {
    if s != [] {
      assert s[0] in s;
      assert !(t <= s);
      assert forall c :: c in s[1..] ==> c in s;
      NotContainsMissingChar(s[1..], t);
    }
  }
}
