/**
 * The two Python string tests the link filter relies on, written as
 * character-by-character scans and related to declarative definitions.
 * Comparison is by exact character, so both tests are case-sensitive.
 */
module PyStr {

  /** `s.startswith(prefix)`, scanning one character at a time. */
  function StartsWith(s: string, prefix: string): (r: bool)
    ensures r <==> prefix <= s
  {
    if |prefix| == 0 then true
    else if |s| == 0 then false
    else s[0] == prefix[0] && StartsWith(s[1..], prefix[1..])
  }

  /** `s.startswith(prefixes)` for a tuple of prefixes. */
  function StartsWithAny(s: string, prefixes: seq<string>): (r: bool)
    ensures r <==> exists k :: 0 <= k < |prefixes| && prefixes[k] <= s
  {
    if |prefixes| == 0 then false
    else StartsWith(s, prefixes[0]) || StartsWithAny(s, prefixes[1..])
  }

  /** `sub` occurs in `s` starting at index `i`. */
  predicate OccursAt(s: string, sub: string, i: int) {
    0 <= i && i + |sub| <= |s| && s[i..i + |sub|] == sub
  }

  /** `sub in s`: try every start position from the left. */
  function Contains(s: string, sub: string): (found: bool)
    ensures found <==> exists i :: OccursAt(s, sub, i)
    decreases |s|
  {
    if StartsWith(s, sub) then
      assert OccursAt(s, sub, 0) by {
        assert s[0..|sub|] == s[..|sub|];
      }
      true
    else if |s| == 0 then
      false
    else
      OccursInTail(s, sub);
      Contains(s[1..], sub)
  }

  /** Past a start position that fails, `sub` occurs in `s` exactly when it occurs in the tail. */
  lemma OccursInTail(s: string, sub: string)
    requires |s| > 0 && !(sub <= s)
    ensures (exists i :: OccursAt(s, sub, i)) <==> (exists i :: OccursAt(s[1..], sub, i))
  {
    if i :| OccursAt(s[1..], sub, i) {
      assert s[1..][i..i + |sub|] == s[i + 1..i + 1 + |sub|];
      assert OccursAt(s, sub, i + 1);
    }
    if i :| OccursAt(s, sub, i) {
      assert i != 0 by {
        assert s[..|sub|] == s[0..|sub|];
      }
      assert s[1..][i - 1..i - 1 + |sub|] == s[i..i + |sub|];
      assert OccursAt(s[1..], sub, i - 1);
    }
  }

  /** When the string is exactly as long as the substring, it contains it only by being it. */
  lemma OccursInSameLength(s: string, sub: string)
    requires |s| == |sub|
    ensures (exists i :: OccursAt(s, sub, i)) <==> s == sub
  {
    if s == sub {
      assert s[0..|sub|] == s;
      assert OccursAt(s, sub, 0);
    }
  }
}
