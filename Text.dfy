/** The string operations the task list relies on: `trim` (submit validation),
    `toLowerCase` and `includes` (search), and the comparison of due dates (sort). */
module Text {

  /** The code points JavaScript's `String.prototype.trim` removes: WhiteSpace
      (tab, vertical tab, form feed, space, no-break space, byte order mark and the
      space separators) and LineTerminator (LF, CR, LS, PS). */
  predicate IsSpace(c: char) {
    var n := c as int;
    n == 0x09 || n == 0x0A || n == 0x0B || n == 0x0C || n == 0x0D || n == 0x20
    || n == 0xA0 || n == 0x1680 || (0x2000 <= n <= 0x200A) || n == 0x2028
    || n == 0x2029 || n == 0x202F || n == 0x205F || n == 0x3000 || n == 0xFEFF
  }

  /** Drops leading white space: the result is a suffix of `s`, everything dropped
      is white space, and the result does not start with white space. */
  function TrimStart(s: string): (r: string)
    ensures |r| <= |s| && r == s[|s| - |r|..]
    ensures forall i :: 0 <= i < |s| - |r| ==> IsSpace(s[i])
    ensures r == [] || !IsSpace(r[0])
  {
    if s != [] && IsSpace(s[0]) then TrimStart(s[1..]) else s
  }

  /** Drops trailing white space: the result is a prefix of `s`, everything dropped
      is white space, and the result does not end with white space. */
  function TrimEnd(s: string): (r: string)
    ensures |r| <= |s| && r == s[..|r|]
    ensures forall i :: |r| <= i < |s| ==> IsSpace(s[i])
    ensures r == [] || !IsSpace(r[|r| - 1])
  {
    if s != [] && IsSpace(s[|s| - 1]) then TrimEnd(s[..|s| - 1]) else s
  }

  /** `s` is `r` with white space before position `k` and after `k + |r|`. */
  predicate PaddedAt(s: string, r: string, k: int) {
    && 0 <= k <= |s| - |r| && r == s[k..k + |r|]
    && (forall i :: 0 <= i < k ==> IsSpace(s[i]))
    && (forall i :: k + |r| <= i < |s| ==> IsSpace(s[i]))
  }

  /** A suffix `t` of `s` after white space only, and a prefix `r` of `t` before white
      space only, is a slice of `s` padded with white space. */
  lemma PaddedSlice(s: string, t: string, r: string)
    requires |t| <= |s| && t == s[|s| - |t|..]
    requires forall i :: 0 <= i < |s| - |t| ==> IsSpace(s[i])
    requires |r| <= |t| && r == t[..|r|]
    requires forall i :: |r| <= i < |t| ==> IsSpace(t[i])
    ensures PaddedAt(s, r, |s| - |t|)
  {
    var k := |s| - |t|;
    forall i | k + |r| <= i < |s|
      ensures IsSpace(s[i])
    {
      assert s[i] == t[i - k];
    }
  }

  /** Trimming the start and then the end leaves the slice of `s` after its leading
      white space, with white space after it too. */
  lemma TrimSlice(s: string)
    ensures PaddedAt(s, TrimEnd(TrimStart(s)), |s| - |TrimStart(s)|)
  {
    PaddedSlice(s, TrimStart(s), TrimEnd(TrimStart(s)));
  }

  /** Trimming both ends leaves nothing exactly when `s` is all white space. */
  lemma TrimEmpty(s: string)
    ensures TrimEnd(TrimStart(s)) == [] <==> forall i :: 0 <= i < |s| ==> IsSpace(s[i])
  {
    var t := TrimStart(s);
    var r := TrimEnd(t);
    if r != [] {
      assert s[|s| - |t|] == t[0] == r[0];
    }
  }

  /** `s.trim()`: the slice of `s` between its leading and its trailing white space.
      It is empty exactly when `s` is all white space. */
  function Trim(s: string): (r: string)
    ensures r == [] || (!IsSpace(r[0]) && !IsSpace(r[|r| - 1]))
    ensures exists k :: PaddedAt(s, r, k)
    ensures r == [] <==> forall i :: 0 <= i < |s| ==> IsSpace(s[i])
  {
    TrimSlice(s);
    TrimEmpty(s);
    TrimEnd(TrimStart(s))
  }

  /** ASCII case folding of one character. */
  function LowerChar(c: char): char {
    if 'A' <= c <= 'Z' then (c as int + 32) as char else c
  }

  /** `s.toLowerCase()` restricted to ASCII letters: same length, no upper-case
      ASCII letter left, and every position folds to what `s` folds to there. */
  function Lower(s: string): (r: string)
    ensures |r| == |s|
    ensures forall i :: 0 <= i < |r| ==> !('A' <= r[i] <= 'Z')
    ensures forall i :: 0 <= i < |r| ==> LowerChar(r[i]) == LowerChar(s[i])
  {
    seq(|s|, i requires 0 <= i < |s| => LowerChar(s[i]))
  }

  /** `needle` stands in `hay` starting at position `i`. */
  predicate OccursAt(hay: string, needle: string, i: int) {
    0 <= i && i + |needle| <= |hay| && hay[i..i + |needle|] == needle
  }

  /** `hay.includes(needle)`: scans the start positions of `hay` from the left. It
      finds `needle` exactly when `needle` occurs at some position, and the empty
      string is found in every string, so an empty search term matches every text. */
  function Includes(hay: string, needle: string): (r: bool)
    ensures r <==> exists i :: OccursAt(hay, needle, i)
    ensures needle == [] ==> r
    decreases |hay|
  {
    if |needle| > |hay| then
      false
    else if hay[..|needle|] == needle then
      assert OccursAt(hay, needle, 0);
      true
    else
      var tail := hay[1..];
      assert forall j :: OccursAt(tail, needle, j) ==> OccursAt(hay, needle, j + 1) by {
        forall j | OccursAt(tail, needle, j)
          ensures OccursAt(hay, needle, j + 1)
        {
          assert hay[j + 1..j + 1 + |needle|] == tail[j..j + |needle|];
        }
      }
      assert forall i :: OccursAt(hay, needle, i) ==> OccursAt(tail, needle, i - 1) by {
        forall i | OccursAt(hay, needle, i)
          ensures OccursAt(tail, needle, i - 1)
        {
          assert i != 0;
          assert tail[i - 1..i - 1 + |needle|] == hay[i..i + |needle|];
        }
      }
      Includes(tail, needle)
  }

  /** `a` and `b` agree on their first `k` characters and `a` is smaller at `k`. */
  predicate FirstDifference(a: string, b: string, k: int) {
    0 <= k < |a| && k < |b| && a[..k] == b[..k] && a[k] < b[k]
  }

  /** Where two non-empty strings first differ: at their first characters, or one
      further on than where their tails first differ. */
  lemma FirstDifferenceStep(a: string, b: string)
    requires a != [] && b != []
    ensures forall k :: FirstDifference(a, b, k) ==>
      (k == 0 && a[0] < b[0]) || (0 < k && a[0] == b[0] && FirstDifference(a[1..], b[1..], k - 1))
    ensures forall k :: FirstDifference(a[1..], b[1..], k) && a[0] == b[0] ==> FirstDifference(a, b, k + 1)
  {
    forall k | 0 < k <= |a| && k <= |b|
      ensures a[..k] == [a[0]] + a[1..][..k - 1] && b[..k] == [b[0]] + b[1..][..k - 1]
    {
    }
  }

  /** The order of two due dates: lexicographic order of the date strings. `a` comes
      first when it is a prefix of `b` or is smaller where they first differ. For
      `YYYY-MM-DD` strings with four-digit years this is chronological order. */
  function DateLe(a: string, b: string): (r: bool)
    ensures r <==> a <= b || exists k :: FirstDifference(a, b, k)
    decreases |a|
  {
    if a == [] then true
    else if b == [] then false
    else
      FirstDifferenceStep(a, b);
      assert a == [a[0]] + a[1..] && b == [b[0]] + b[1..];
      if a[0] < b[0] then
        assert FirstDifference(a, b, 0);
        true
      else if a[0] == b[0] then
        assert (a <= b) == (a[1..] <= b[1..]);
        DateLe(a[1..], b[1..])
      else
        false
  }

  lemma {:induction false} DateLeReflexive(a: string)
    ensures DateLe(a, a)
    decreases |a|
  {
    if a != [] {
      DateLeReflexive(a[1..]);
    }
  }

  /** Any two dates are comparable. */
  lemma {:induction false} DateLeTotal(a: string, b: string)
    ensures DateLe(a, b) || DateLe(b, a)
    decreases |a|
  {
    if a != [] && b != [] && a[0] == b[0] {
      DateLeTotal(a[1..], b[1..]);
    }
  }

  lemma {:induction false} DateLeTransitive(a: string, b: string, c: string)
    requires DateLe(a, b) && DateLe(b, c)
    ensures DateLe(a, c)
    decreases |a|
  {
    if a != [] && a[0] == b[0] && b[0] == c[0] {
      DateLeTransitive(a[1..], b[1..], c[1..]);
    }
  }

  lemma {:induction false} DateLeAntisymmetric(a: string, b: string)
    requires DateLe(a, b) && DateLe(b, a)
    ensures a == b
    decreases |a|
  {
    if a != [] {
      DateLeAntisymmetric(a[1..], b[1..]);
      assert a == [a[0]] + a[1..];
      assert b == [b[0]] + b[1..];
    }
  }

  /** Two dates that agree on their first `k` characters and differ at position `k`
      are ordered by that character. */
  lemma {:induction false} DateLeFirstDifference(a: string, b: string, k: nat)
    requires k < |a| && k < |b| && a[..k] == b[..k] && a[k] < b[k]
    ensures DateLe(a, b) && !DateLe(b, a)
    decreases k
  {
    if k > 0 {
      assert a[1..][..k - 1] == a[..k][1..];
      assert b[1..][..k - 1] == b[..k][1..];
      DateLeFirstDifference(a[1..], b[1..], k - 1);
    }
  }
}
