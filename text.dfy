/** The string operations the pages use: `trim`, `toLowerCase` and
    `includes`. */
module Text {

  /** The ECMAScript WhiteSpace and LineTerminator code points, which are
      what `String.prototype.trim` removes. */
  predicate IsSpace(c: char) {
    var n := c as int;
    n == 0x09 || n == 0x0A || n == 0x0B || n == 0x0C || n == 0x0D || n == 0x20
    || n == 0xA0 || n == 0x1680 || (0x2000 <= n <= 0x200A) || n == 0x2028
    || n == 0x2029 || n == 0x202F || n == 0x205F || n == 0x3000 || n == 0xFEFF
  }

  /** The position of the first character at or after `from` that is not
      white space, or `|s|` when there is none. */
  function SkipSpace(s: string, from: nat): (n: nat)
    requires from <= |s|
    ensures from <= n <= |s|
    ensures forall i :: from <= i < n ==> IsSpace(s[i])
    ensures n < |s| ==> !IsSpace(s[n])
    decreases |s| - from
  {
    if from < |s| && IsSpace(s[from]) then SkipSpace(s, from + 1) else from
  }

  /** The end of `s[lo..end]` once its trailing white space is dropped. */
  function SkipSpaceBack(s: string, lo: nat, end: nat): (m: nat)
    requires lo <= end <= |s|
    ensures lo <= m <= end
    ensures forall i :: m <= i < end ==> IsSpace(s[i])
    ensures lo < m ==> !IsSpace(s[m - 1])
    decreases end
  {
    if lo < end && IsSpace(s[end - 1]) then SkipSpaceBack(s, lo, end - 1) else end
  }

  /** `s.trim()`: the slice of `s` left after dropping white space from
      both ends; it neither starts nor ends with white space, and is empty
      exactly when `s` is all white space. */
  function Trim(s: string): (r: string)
    ensures exists lo :: OccursAt(s, r, lo) && DroppedOnlySpace(s, lo, |r|)
    ensures r != [] ==> !IsSpace(r[0]) && !IsSpace(r[|r| - 1])
    ensures r == [] <==> forall i :: 0 <= i < |s| ==> IsSpace(s[i])
  {
    var lo := SkipSpace(s, 0);
    var hi := SkipSpaceBack(s, lo, |s|);
    var r := s[lo..hi];
    assert OccursAt(s, r, lo);
    assert r != [] ==> r[0] == s[lo] && r[|r| - 1] == s[hi - 1];
    r
  }

  /** Every character of `s` outside `s[lo..lo + n]` is white space. */
  predicate DroppedOnlySpace(s: string, lo: int, n: int) {
    (forall i :: 0 <= i < lo && i < |s| ==> IsSpace(s[i]))
    && (forall i :: 0 <= lo + n <= i < |s| ==> IsSpace(s[i]))
  }

  /** The upper-case Basic Latin and Latin-1 letters. */
  predicate IsUpper(c: char) {
    'A' <= c <= 'Z' || ('\U{C0}' <= c <= '\U{DE}' && c != '\U{D7}')
  }

  /** `toLowerCase` on the Basic Latin and Latin-1 letters. */
  function LowerChar(c: char): char {
    if IsUpper(c) then (c as int + 32) as char else c
  }

  /** `s.toLowerCase()` */
  function Lower(s: string): (r: string)
    ensures |r| == |s|
    ensures forall i :: 0 <= i < |r| ==> !('A' <= r[i] <= 'Z') && LowerChar(r[i]) == r[i]
    ensures forall i :: 0 <= i < |s| && !IsUpper(s[i]) ==> r[i] == s[i]
  {
    seq(|s|, i requires 0 <= i < |s| => LowerChar(s[i]))
  }

  /** `sub` occurs in `s` starting at index `i`. */
  predicate OccursAt(s: string, sub: string, i: int) {
    0 <= i && i + |sub| <= |s| && s[i..i + |sub|] == sub
  }

  /** `s.includes(sub)`, which holds for the empty `sub`. */
  function Includes(s: string, sub: string): (b: bool)
    ensures sub == [] ==> b
    ensures |sub| > |s| ==> !b
    decreases |s|
  {
    if |sub| > |s| then false
    else if s[..|sub|] == sub then true
    else Includes(s[1..], sub)
  }

  /** An occurrence in the tail is an occurrence one position further on. */
  lemma OccursShift(s: string, sub: string, i: nat)
    requires s != []
    ensures OccursAt(s[1..], sub, i) <==> OccursAt(s, sub, i + 1)
  {
    if i + |sub| <= |s| - 1 {
      assert s[1..][i..i + |sub|] == s[i + 1..i + 1 + |sub|];
    }
  }

  /** `includes` searches every position of `s`. */
  lemma {:induction false} IncludesIffOccurs(s: string, sub: string)
    ensures Includes(s, sub) <==> exists i :: OccursAt(s, sub, i)
    decreases |s|
  {
    if |sub| > |s| {
    } else if s[..|sub|] == sub {
      assert OccursAt(s, sub, 0);
    } else {
      IncludesIffOccurs(s[1..], sub);
      if Includes(s[1..], sub) {
        var i :| OccursAt(s[1..], sub, i);
        OccursShift(s, sub, i);
      } else {
        forall i | 0 <= i
          ensures !OccursAt(s, sub, i)
        {
          if 0 < i {
            OccursShift(s, sub, i - 1);
          }
        }
      }
    }
  }

  /** `s.toLowerCase().includes(term.toLowerCase())` */
  predicate ContainsIgnoringCase(s: string, term: string) {
    Includes(Lower(s), Lower(term))
  }
}
