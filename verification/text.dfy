/**
 * String helpers with Python's meaning: the `in` test on two strings and the
 * concatenation of a list of lines.
 */
module Text {

  /** Python's `sub in s` for strings: `sub` occurs in `s` as a contiguous run. */
  predicate IsSubstring(sub: string, s: string): (r: bool)
    ensures sub <= s ==> r
    ensures r ==> |sub| <= |s|
    decreases |s|
  {
    if |sub| > |s| then false
    else sub <= s || IsSubstring(sub, s[1..])
  }

  /** `sub` starts at index `i` of `s`. */
  predicate OccursAt(sub: string, s: string, i: int)
  {
    0 <= i <= |s| - |sub| && s[i..i + |sub|] == sub
  }

  /** The usual index-based reading of `IsSubstring`, in both directions. */
  lemma {:induction false} IsSubstringAt(sub: string, s: string)
    ensures IsSubstring(sub, s) <==> exists i :: OccursAt(sub, s, i)
    decreases |s|
  {
    if |sub| > |s| {
    } else if sub <= s {
      assert OccursAt(sub, s, 0);
    } else {
      IsSubstringAt(sub, s[1..]);
      if IsSubstring(sub, s[1..]) {
        var i :| OccursAt(sub, s[1..], i);
        assert s[i + 1..i + 1 + |sub|] == s[1..][i..i + |sub|];
        assert OccursAt(sub, s, i + 1);
      }
      if j :| OccursAt(sub, s, j) {
        if j > 0 {
          assert s[1..][j - 1..j - 1 + |sub|] == s[j..j + |sub|];
          assert OccursAt(sub, s[1..], j - 1);
        }
      }
    }
  }

  /** Every string contains the empty string and itself. */
  lemma SubstringOfItself(s: string)
    ensures IsSubstring("", s) && IsSubstring(s, s)
  {
  }

  /** Appending text never removes an occurrence. */
  lemma {:induction false} SubstringOfExtension(sub: string, s: string, t: string)
    requires IsSubstring(sub, s)
    ensures IsSubstring(sub, s + t)
  {
    if sub <= s {
      assert sub <= s + t;
    } else {
      assert (s + t)[1..] == s[1..] + t;
      SubstringOfExtension(sub, s[1..], t);
    }
  }

  /** Prepending text never removes an occurrence. */
  lemma {:induction false} SubstringOfPrepended(sub: string, s: string, t: string)
    requires IsSubstring(sub, t)
    ensures IsSubstring(sub, s + t)
  {
    if s == [] {
      assert s + t == t;
    } else {
      assert (s + t)[1..] == s[1..] + t;
      SubstringOfPrepended(sub, s[1..], t);
    }
  }

  /** Python's `''.join(lines)`. */
  function Concat(lines: seq<string>): (r: string)
    decreases |lines|
  {
    if lines == [] then "" else lines[0] + Concat(lines[1..])
  }

  lemma {:induction false} ConcatAppend(a: seq<string>, b: seq<string>)
    ensures Concat(a + b) == Concat(a) + Concat(b)
    decreases |a|
  {
    if a == [] {
      assert a + b == b;
    } else {
      assert (a + b)[1..] == a[1..] + b;
      ConcatAppend(a[1..], b);
    }
  }

  /** Appending one line to the list appends it to the joined text. */
  lemma ConcatSnoc(a: seq<string>, line: string)
    ensures Concat(a + [line]) == Concat(a) + line
  {
    ConcatAppend(a, [line]);
    assert Concat([line]) == line + Concat([]);
  }
}
