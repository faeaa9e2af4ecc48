/** Plain text operations several components share: searching, ASCII lower case, trimming. */
module Texts {
  import opened Wrappers

  // ----- Searching ---------------------------------------------------------------

  predicate StandsAt(text: string, i: nat, pattern: string) {
    i + |pattern| <= |text| && text[i..i + |pattern|] == pattern
  }

  /** The first position at or after `i` where `pattern` stands. */
  function Find(text: string, pattern: string, i: nat): (r: Option<nat>)
    ensures r.Some? ==> i <= r.value && r.value + |pattern| <= |text|
    decreases |text| - i
  {
    if StandsAt(text, i, pattern) then Some(i)
    else if i >= |text| then None
    else Find(text, pattern, i + 1)
  }

  lemma {:induction false} FindMeans(text: string, pattern: string, i: nat)
    ensures var r := Find(text, pattern, i);
            if r.Some? then StandsAt(text, r.value, pattern) && forall k :: i <= k < r.value ==> !StandsAt(text, k, pattern)
            else forall k :: i <= k ==> !StandsAt(text, k, pattern)
    decreases |text| - i
  {
    if !StandsAt(text, i, pattern) && i < |text| {
      FindMeans(text, pattern, i + 1);
    }
  }

  lemma FindIs(text: string, pattern: string, p: nat)
    requires StandsAt(text, p, pattern) && forall k :: 0 <= k < p ==> !StandsAt(text, k, pattern)
    ensures Find(text, pattern, 0) == Some(p)
  {
    FindMeans(text, pattern, 0);
  }

  // ----- ASCII lower case ----------------------------------------------------------

  function LowerChar(c: char): char {
    if 'A' <= c <= 'Z' then c - 'A' + 'a' else c
  }

  /** The 26 capital letters become the small ones, and no other character changes. */
  lemma CaseIsFolded(c: char)
    ensures 65 <= c as int <= 90 ==> LowerChar(c) as int == c as int + 32
    ensures !(65 <= c as int <= 90) ==> LowerChar(c) == c
  {}

  /** Length and every position are kept. */
  function LowerAscii(s: string): (r: string)
    ensures |r| == |s| && forall i :: 0 <= i < |s| ==> r[i] == LowerChar(s[i])
  {
    seq(|s|, i requires 0 <= i < |s| => LowerChar(s[i]))
  }

  // ----- Trimming white space, for any notion of white space -------------------------

  function TrimStart(s: string, space: char -> bool): (r: string)
    ensures |r| <= |s| && r == s[|s| - |r|..]
    ensures r != [] ==> !space(r[0])
  {
    if s != [] && space(s[0]) then TrimStart(s[1..], space) else s
  }

  function TrimEnd(s: string, space: char -> bool): (r: string)
    ensures r <= s
    ensures r != [] ==> !space(r[|r| - 1])
  {
    if s != [] && space(s[|s| - 1]) then TrimEnd(s[..|s| - 1], space) else s
  }

  function Trim(s: string, space: char -> bool): string {
    TrimEnd(TrimStart(s, space), space)
  }

  predicate Trimmed(s: string, space: char -> bool) {
    s == [] || (!space(s[0]) && !space(s[|s| - 1]))
  }

  /** What trimming returns has no white space at either end. */
  lemma TrimTrims(s: string, space: char -> bool)
    ensures Trimmed(Trim(s, space), space)
  {}

  lemma {:induction false} TrimEndOfSpace(s: string, tail: string, space: char -> bool)
    requires Trimmed(s, space) && forall c :: c in tail ==> space(c)
    ensures TrimEnd(s + tail, space) == s
  {
    if tail == [] {
      assert s + tail == s;
    } else {
      var all := s + tail;
      assert all[|all| - 1] == tail[|tail| - 1];
      assert all[..|all| - 1] == s + tail[..|tail| - 1];
      TrimEndOfSpace(s, tail[..|tail| - 1], space);
    }
  }

  lemma {:induction false} TrimStartOfSpace(head: string, s: string, space: char -> bool)
    requires s == [] || !space(s[0])
    requires forall c :: c in head ==> space(c)
    ensures TrimStart(head + s, space) == s
  {
    if head == [] {
      assert head + s == s;
    } else {
      assert (head + s)[1..] == head[1..] + s;
      TrimStartOfSpace(head[1..], s, space);
    }
  }

  lemma {:induction false} AllSpaceTrimsToNothing(s: string, space: char -> bool)
    requires forall c :: c in s ==> space(c)
    ensures TrimStart(s, space) == []
  {
    if s != [] {
      AllSpaceTrimsToNothing(s[1..], space);
    }
  }

  /** Trimming takes away exactly the white space around a trimmed text. */
  lemma TrimAround(head: string, s: string, tail: string, space: char -> bool)
    requires Trimmed(s, space)
    requires (forall c :: c in head ==> space(c)) && forall c :: c in tail ==> space(c)
    ensures Trim(head + s + tail, space) == s
  {
    if s == [] {
      assert head + s + tail == head + tail;
      AllSpaceTrimsToNothing(head + tail, space);
    } else {
      assert head + s + tail == head + (s + tail);
      TrimStartOfSpace(head, s + tail, space);
      TrimEndOfSpace(s, tail, space);
    }
  }

  lemma {:induction false} TrimShortens(s: string, space: char -> bool)
    ensures |Trim(s, space)| <= |s|
  {}
}
