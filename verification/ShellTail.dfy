/** The tail of a shell job's output (crates/agent-runtime/src/shell_manager.rs,
    `tail_from_buffer` and `tail_text`).

    Only the last `4 * m` bytes are looked at; the start of that window is moved
    forward to a character boundary, the rest decoded, and its last `m` characters
    shown. The encoding is UTF-8 as in section 3 of RFC 3629. */
module ShellTail {
  import opened Wrappers
  import opened Sequences
  import opened Utf8

  const ELLIPSIS: seq<Scalar> := [0x2E, 0x2E, 0x2E]

  function TailText(text: seq<Scalar>, m: nat): seq<Scalar> {
    if |text| <= m then text else ELLIPSIS + LastK(m, text)
  }

  function WindowStart(total: nat, m: nat): nat {
    Less(total, 4 * m)
  }

  /** The marker appears iff there are more than `m` characters and the last `m + 1` of them fit
      in the byte window: a longer text can be shown without it. */
  ghost predicate Marked(cs: seq<Scalar>, m: nat) {
    |cs| > m && |EncodeAll(cs[|cs| - m - 1..])| <= 4 * m
  }

  /** The number of characters the window cuts off whole. */
  function Skipped(cs: seq<Scalar>, m: nat): (k: nat)
    ensures k <= |cs|
  {
    CharsBefore(cs, WindowStart(|EncodeAll(cs)|, m))
  }

  /** A character is decoded iff it and all after it fit in the window. */
  lemma DecodedIff(cs: seq<Scalar>, m: nat, k: nat)
    requires k <= |cs|
    ensures Skipped(cs, m) <= k <==> |EncodeAll(cs[k..])| <= 4 * m
  {
    var first := Skipped(cs, m);
    SnapFindsBoundary(cs, WindowStart(|EncodeAll(cs)|, m));
    BytesFrom(cs, k);
    if first <= k {
      BoundariesAscend(cs, first, k);
    } else {
      BoundariesAscend(cs, k, first - 1);
    }
  }

  lemma WindowHoldsWholeChars(cs: seq<Scalar>, m: nat)
    ensures var bytes := EncodeAll(cs);
            DecodeLossy(bytes[Snap(bytes, WindowStart(|bytes|, m))..]) == cs[Skipped(cs, m)..]
  {
    SnapFindsBoundary(cs, WindowStart(|EncodeAll(cs)|, m));
    BytesFrom(cs, Skipped(cs, m));
    DecodeInvertsEncode(cs[Skipped(cs, m)..]);
  }

  /** The window always holds the last min(m, n) characters. */
  lemma WindowHoldsLastChars(cs: seq<Scalar>, m: nat)
    ensures |cs| <= m ==> Skipped(cs, m) == 0
    ensures |cs| > m ==> Skipped(cs, m) <= |cs| - m
  {
    EncodedLength(cs);
    if |cs| > m {
      EncodedLength(cs[|cs| - m..]);
      DecodedIff(cs, m, |cs| - m);
    }
  }

  lemma TailIsMarkedLast(text: seq<Scalar>, m: nat)
    ensures TailText(text, m) == (if |text| > m then ELLIPSIS else []) + LastK(m, text)
  {
    assert [] + text == text;
  }

  lemma TailOfSuffix(cs: seq<Scalar>, first: nat, m: nat)
    requires if |cs| <= m then first == 0 else first <= |cs| - m
    ensures TailText(cs[first..], m) == (if first + m < |cs| then ELLIPSIS else []) + LastK(m, cs)
  {
    TailIsMarkedLast(cs[first..], m);
    LastOfSuffix(m, cs, first);
  }

  lemma MoreIsDecodedIff(cs: seq<Scalar>, m: nat)
    ensures Skipped(cs, m) + m < |cs| <==> Marked(cs, m)
  {
    if |cs| > m {
      DecodedIff(cs, m, |cs| - m - 1);
    }
  }

  /** For every valid buffer and every limit, the last min(m, n) characters and nothing else, after
      the marker where that appears. */
  lemma TailIsLastChars(cs: seq<Scalar>, m: nat)
    ensures TailText(cs[Skipped(cs, m)..], m) == (if Marked(cs, m) then ELLIPSIS else []) + LastK(m, cs)
  {
    WindowHoldsLastChars(cs, m);
    MoreIsDecodedIff(cs, m);
    TailOfSuffix(cs, Skipped(cs, m), m);
  }

  method TailFromBuffer(buffer: seq<Byte>, maxTailChars: nat) returns (total: nat, tail: seq<Scalar>)
    ensures total == |buffer|
    ensures tail == TailText(DecodeLossy(buffer[Snap(buffer, WindowStart(|buffer|, maxTailChars))..]), maxTailChars)
    ensures forall cs :: buffer == EncodeAll(cs) ==>
              tail == (if Marked(cs, maxTailChars) then ELLIPSIS else []) + LastK(maxTailChars, cs)
  {
    total := |buffer|;
    var tailStart := if total < 4 * maxTailChars then 0 else total - 4 * maxTailChars;
    while tailStart < total && Continuation(buffer[tailStart])
      invariant tailStart <= total
      invariant Snap(buffer, tailStart) == Snap(buffer, WindowStart(total, maxTailChars))
    {
      tailStart := tailStart + 1;
    }
    var text := DecodeLossy(buffer[tailStart..]);
    tail := TailText(text, maxTailChars);
    forall cs | buffer == EncodeAll(cs)
      ensures tail == (if Marked(cs, maxTailChars) then ELLIPSIS else []) + LastK(maxTailChars, cs)
    {
      WindowHoldsWholeChars(cs, maxTailChars);
      TailIsLastChars(cs, maxTailChars);
    }
  }

  /** The marker is not a reliable sign of a cut: five four-byte characters under a limit of four
      lose one without it. */
  lemma CutWithoutMarker()
    ensures var cs: seq<Scalar> := [0x1F600, 0x1F600, 0x1F600, 0x1F600, 0x1F600];
            !Marked(cs, 4) && LastK(4, cs) != cs
  {}
}
