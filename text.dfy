/** Character and string helpers shared by the path and naming rules:
    ASCII lower-casing (str.lower), str.rfind and the substring test `t in s`. */
module Text {

  predicate IsUpper(c: char) {
    'A' <= c <= 'Z'
  }

  predicate IsLowerLetter(c: char) {
    'a' <= c <= 'z'
  }

  /** str.lower() on one character, for the ASCII range. */
  function LowerChar(c: char): char {
    if IsUpper(c) then (c as int + 32) as char else c
  }

  /** str.lower() on a string, character by character. */
  function Lower(s: string): (t: string)
    ensures |t| == |s|
    ensures forall i :: 0 <= i < |s| ==> t[i] == LowerChar(s[i])
  {
    seq(|s|, i requires 0 <= i < |s| => LowerChar(s[i]))
  }

  /** A character that is not a letter is the lower-case form of itself and of nothing else. */
  lemma LowerCharFixes(x: char, c: char)
    requires !IsUpper(c) && !IsLowerLetter(c)
    ensures LowerChar(x) == c <==> x == c
  {
  }

  /** Lower-casing twice changes nothing more. */
  lemma LowerIdempotent(s: string)
    ensures Lower(Lower(s)) == Lower(s)
  {
  }

  lemma LowerSlice(s: string, a: nat, b: nat)
    requires a <= b <= |s|
    ensures Lower(s[a..b]) == Lower(s)[a..b]
  {
  }

  lemma LowerAppend(s: string, t: string)
    ensures Lower(s + t) == Lower(s) + Lower(t)
  {
  }

  /** `s.rfind(c)`: the last position of c in s, or -1 when c does not occur. */
  function LastIndex(s: string, c: char): (i: int)
    ensures -1 <= i < |s|
    ensures 0 <= i ==> s[i] == c
    ensures forall j :: i < j < |s| ==> s[j] != c
  {
    LastIndexBelow(s, c, |s|)
  }

  /** The last position of c among the first n characters of s, scanning down from n. */
  function LastIndexBelow(s: string, c: char, n: nat): (i: int)
    requires n <= |s|
    ensures -1 <= i < n
    ensures 0 <= i ==> s[i] == c
    ensures forall j :: i < j < n ==> s[j] != c
  {
    if n == 0 then -1
    else if s[n - 1] == c then n - 1
    else LastIndexBelow(s, c, n - 1)
  }

  /** The three properties of LastIndex single it out. */
  lemma LastIndexIs(s: string, c: char, k: int)
    requires -1 <= k < |s|
    requires 0 <= k ==> s[k] == c
    requires forall j :: k < j < |s| ==> s[j] != c
    ensures LastIndex(s, c) == k
  {
    var i := LastIndex(s, c);
    assert !(i < k) && !(k < i);
  }

  /** Lower-casing moves no character that is not a letter, so rfind of such a character is unchanged. */
  lemma LastIndexLower(s: string, c: char)
    requires !IsUpper(c) && !IsLowerLetter(c)
    ensures LastIndex(Lower(s), c) == LastIndex(s, c)
  {
    var k := LastIndex(s, c);
    forall j | k < j < |s|
      ensures Lower(s)[j] != c
    {
      LowerCharFixes(s[j], c);
    }
    LastIndexIs(Lower(s), c, k);
  }

  /** Python's `t in s` for strings. */
  predicate Contains(s: string, t: string)
    decreases |s|
  {
    t <= s || (s != [] && Contains(s[1..], t))
  }

  /** For a one-character needle, `[c] in s` is membership of c. */
  lemma {:induction false} ContainsChar(s: string, c: char)
    ensures Contains(s, [c]) <==> c in s
    decreases |s|
  {
    if s != [] {
      ContainsChar(s[1..], c);
      assert s == [s[0]] + s[1..];
    }
  }

  /** `".." in s` exactly when two adjacent characters of s are dots. */
  lemma {:induction false} ContainsDotDot(s: string)
    ensures Contains(s, "..") <==> exists i :: 0 <= i < |s| - 1 && s[i] == '.' && s[i + 1] == '.'
    decreases |s|
  {
    if s != [] {
      ContainsDotDot(s[1..]);
      if exists i :: 0 <= i < |s| - 1 && s[i] == '.' && s[i + 1] == '.' {
        var i :| 0 <= i < |s| - 1 && s[i] == '.' && s[i + 1] == '.';
        if i > 0 {
          assert s[1..][i - 1] == '.' && s[1..][i] == '.';
        } else {
          assert ".." <= s;
        }
      }
      if ".." <= s {
        assert s[0] == '.' && s[1] == '.';
      } else if Contains(s, "..") {
        var i :| 0 <= i < |s[1..]| - 1 && s[1..][i] == '.' && s[1..][i + 1] == '.';
        assert s[i + 1] == '.' && s[i + 2] == '.';
      }
    }
  }
}
