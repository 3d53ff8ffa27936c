/**
 * The JavaScript string operations the handlers use: `includes` and
 * `split('T')[0]`, with `Find`, the first position of a character, as the
 * helper behind the date part and the email check.
 */
module Text {

  /** The first position of `c` in `s`, or -1 when it does not occur. */
  function Find(s: string, c: char): (r: int)
    ensures -1 <= r < |s|
    ensures r == -1 <==> c !in s
    ensures 0 <= r ==> s[r] == c && c !in s[..r]
    decreases |s|
  {
    if |s| == 0 then -1
    else if s[0] == c then 0
    else
      var k := Find(s[1..], c);
      if k < 0 then -1 else k + 1
  }

  /** `sub` is written in `s` starting at position `i`. */
  predicate OccursAt(s: string, sub: string, i: nat)
  {
    i + |sub| <= |s| && s[i..i + |sub|] == sub
  }

  /** The first `c` in `prefix + [c] + rest`, when `prefix` has none, is right after `prefix`. */
  lemma {:induction false} FindAfterPrefix(prefix: string, c: char, rest: string)
    requires c !in prefix
    ensures Find(prefix + [c] + rest, c) == |prefix|
  {
    var s := prefix + [c] + rest;
    assert s[|prefix|] == c;
  }

  /** `s.includes(sub)`: `sub` occurs in `s` as a contiguous block. */
  predicate Includes(s: string, sub: string)
  {
    exists i: nat | i <= |s| - |sub| :: OccursAt(s, sub, i)
  }

  /** Any string that has `sub` written inside it includes `sub`. */
  lemma {:induction false} IncludesInfix(before: string, sub: string, after: string)
    ensures Includes(before + sub + after, sub)
  {
    var s := before + sub + after;
    assert OccursAt(s, sub, |before|);
  }

  /**
   * `iso.split('T')[0]`: everything before the first `T`, or the whole
   * string when it has none.
   */
  function DatePart(iso: string): (d: string)
    ensures 'T' !in d
    ensures d <= iso
    ensures |d| < |iso| ==> iso[|d|] == 'T'
  {
    var k := Find(iso, 'T');
    if k < 0 then iso else iso[..k]
  }

  /** The date part of an ISO-8601 timestamp `<date>T<time>` is `<date>`. */
  lemma {:induction false} DatePartOfTimestamp(date: string, time: string)
    requires 'T' !in date
    ensures DatePart(date + "T" + time) == date
  {
    FindAfterPrefix(date, 'T', time);
  }
}
