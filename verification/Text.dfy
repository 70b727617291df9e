/** What the string libraries of all three languages do, on ASCII. */
module Text {
  import opened Common

  function Lower(c: char): char {
    if 'A' <= c <= 'Z' then (c as int + 32) as char else c
  }

  function LowerAll(s: string): (r: string)
    ensures |r| == |s| && forall i :: 0 <= i < |s| ==> r[i] == Lower(s[i])
  {
    seq(|s|, i requires 0 <= i < |s| => Lower(s[i]))
  }

  lemma LowerCaseStays(s: string)
    requires forall i :: 0 <= i < |s| ==> !('A' <= s[i] <= 'Z')
    ensures LowerAll(s) == s
  {
  }

  /** What is left when everything that `strip` holds of is taken off the front. */
  function TrimStart(strip: char -> bool, s: string): (r: string)
    ensures |r| <= |s| && forall c :: c in r ==> c in s
    ensures r != [] ==> !strip(r[0]) && Last(r) == Last(s)
    ensures s == [] || !strip(s[0]) <==> r == s
  {
    if s != [] && strip(s[0]) then TrimStart(strip, s[1..]) else s
  }

  /** The same at the end. */
  function TrimEnd(strip: char -> bool, s: string): (r: string)
    ensures r <= s && forall c :: c in r ==> c in s
    ensures r != [] ==> !strip(Last(r))
    ensures s == [] || !strip(Last(s)) <==> r == s
  {
    if s != [] && strip(Last(s)) then TrimEnd(strip, Front(s)) else s
  }

  function Trim(strip: char -> bool, s: string): (r: string)
    ensures |r| <= |s| && forall c :: c in r ==> c in s
    ensures r != [] ==> !strip(r[0]) && !strip(Last(r))
    ensures s == [] || (!strip(s[0]) && !strip(Last(s))) ==> r == s
    ensures s != [] && !strip(Last(s)) && r != [] ==> Last(r) == Last(s)
  {
    TrimEnd(strip, TrimStart(strip, s))
  }

  lemma {:induction false} StartDropped(strip: char -> bool, s: string) returns (i: nat)
    ensures i <= |s| && TrimStart(strip, s) == s[i..] && forall k :: 0 <= k < i ==> strip(s[k])
  {
    i := 0;
    if s != [] && strip(s[0]) {
      i := StartDropped(strip, s[1..]);
      i := i + 1;
      assert s[i..] == s[1..][i - 1..];
      assert forall k :: 1 <= k < i ==> s[k] == s[1..][k - 1];
    }
  }

  lemma {:induction false} EndDropped(strip: char -> bool, s: string)
    ensures forall k :: |TrimEnd(strip, s)| <= k < |s| ==> strip(s[k])
  {
    if s != [] && strip(Last(s)) {
      EndDropped(strip, Front(s));
      assert forall k :: 0 <= k < |s| - 1 ==> Front(s)[k] == s[k];
    }
  }

  /** Trimming takes a stretch out of the middle. */
  lemma TrimmedStretch(strip: char -> bool, s: string) returns (i: nat, j: nat)
    ensures i <= j <= |s| && Trim(strip, s) == s[i..j]
    ensures (forall k :: 0 <= k < i ==> strip(s[k])) && (forall k :: j <= k < |s| ==> strip(s[k]))
  {
    i := StartDropped(strip, s);
    EndDropped(strip, s[i..]);
    j := i + |Trim(strip, s)|;
    assert forall k :: i <= k < |s| ==> s[k] == s[i..][k - i];
  }
}
