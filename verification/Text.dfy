/** Python's notions of whitespace and of strip. */
module Text {
  /** The code points for which str.isspace holds. */
  predicate IsSpace(c: char) {
    var n := c as int;
    9 <= n <= 13 || 28 <= n <= 32 || n == 0x85 || n == 0xA0 || n == 0x1680 || 0x2000 <= n <= 0x200A ||
    n == 0x2028 || n == 0x2029 || n == 0x202F || n == 0x205F || n == 0x3000
  }

  predicate Blank(s: string) {
    forall k :: 0 <= k < |s| ==> IsSpace(s[k])
  }

  /** Number of leading whitespace characters. */
  function Leading(s: string): (n: nat)
    ensures n <= |s| && Blank(s[..n])
    ensures n < |s| ==> !IsSpace(s[n])
  {
    if s == [] || !IsSpace(s[0]) then 0
    else
      assert s[1..][..Leading(s[1..])] == s[1..1 + Leading(s[1..])];
      1 + Leading(s[1..])
  }

  /** Length of the string without its trailing whitespace. */
  function Trailing(s: string): (n: nat)
    ensures n <= |s| && Blank(s[n..])
    ensures n > 0 ==> !IsSpace(s[n - 1])
  {
    if s == [] || !IsSpace(s[|s| - 1]) then |s| else Trailing(s[..|s| - 1])
  }

  /** What strip leaves: a slice whose ends are not whitespace. */
  function Strip(s: string): (r: string)
    ensures r == [] <==> Blank(s)
    ensures r != [] ==> !IsSpace(r[0]) && !IsSpace(r[|r| - 1])
  {
    var lo, hi := Leading(s), Trailing(s);
    if lo < hi then s[lo..hi] else []
  }

  /** Every non-whitespace character survives, at a fixed offset. */
  lemma {:induction false} StripKeeps(s: string)
    ensures var lo := Leading(s);
            lo + |Strip(s)| <= |s| && Strip(s) == s[lo..lo + |Strip(s)|] &&
            forall i :: 0 <= i < |s| && !IsSpace(s[i]) ==> lo <= i < lo + |Strip(s)|
  {
    var lo, hi := Leading(s), Trailing(s);
    assert forall i :: 0 <= i < lo ==> s[..lo][i] == s[i];
    assert forall i :: hi <= i < |s| ==> s[hi..][i - hi] == s[i];
    assert forall i :: 0 <= i < |s| && !IsSpace(s[i]) ==> lo <= i < hi;
  }
}
