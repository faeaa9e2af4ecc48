/** The cycle briefing (crates/agent-runtime/src/cycle_manager.rs): printed between
    `<carry_forward>` tags into the seed messages of the next cycle, extracted from a
    model reply by the same tags, in any letter case. */
module CycleBriefing {
  import opened Wrappers
  import opened Texts

  const OPEN_TAG := "<carry_forward>"
  const CLOSE_TAG := "</carry_forward>"

  /** The text up to the close tag, which is looked for in its lower case. */
  function UpTo(tail: string, tailLower: string, close: string, space: char -> bool): string
    requires |tail| == |tailLower|
  {
    match Find(tailLower, close, 0)
    case Some(end) => Trim(tail[..end], space)
    case None => Trim(tail, space)
  }

  /** What follows the first open tag, and its lower case. */
  function AfterTag(raw: string, lower: string, open: string): (r: Option<(string, string)>)
    requires |raw| == |lower|
    ensures r.Some? ==> |r.value.0| == |r.value.1|
  {
    match Find(lower, open, 0)
    case Some(start) =>
      var after := start + |open|;
      Some((raw[after..], lower[after..]))
    case None => None
  }

  function ExtractBetween(raw: string, lower: string, open: string, close: string, space: char -> bool): string
    requires |raw| == |lower|
  {
    match AfterTag(raw, lower, open)
    case Some((tail, tailLower)) => UpTo(tail, tailLower, close, space)
    case None => Trim(raw, space)
  }

  /** The contents of the first tagged block; without a close tag, everything after the open tag;
      without an open tag, everything. */
  function ExtractCarryForward(raw: string, space: char -> bool): string {
    ExtractBetween(raw, LowerAscii(raw), OPEN_TAG, CLOSE_TAG, space)
  }

  /** A text without an open tag, in any letter case, is returned trimmed. */
  lemma WithoutOpenTag(raw: string, space: char -> bool)
    requires forall k: nat :: !StandsAt(LowerAscii(raw), k, OPEN_TAG)
    ensures ExtractCarryForward(raw, space) == Trim(raw, space)
  {
    FindMeans(LowerAscii(raw), OPEN_TAG, 0);
  }

  lemma ToCloseTag(tail: string, tailLower: string, close: string, end: nat, space: char -> bool)
    requires |tail| == |tailLower| && end <= |tail| && close != "" && forall k: nat :: k < end ==> !StandsAt(tailLower, k, close)
    requires StandsAt(tailLower, end, close) || (end == |tail| && forall k: nat :: !StandsAt(tailLower, k, close))
    ensures UpTo(tail, tailLower, close, space) == Trim(tail[..end], space)
  {
    FindMeans(tailLower, close, 0);
    assert tail[..|tail|] == tail;
  }

  /** Otherwise what follows the first open tag counts, up to the first close tag in it or, without one, to
      the end; that is returned trimmed. */
  lemma FromOpenTag(raw: string, start: nat, end: nat, space: char -> bool)
    requires StandsAt(LowerAscii(raw), start, OPEN_TAG) && forall k: nat :: k < start ==> !StandsAt(LowerAscii(raw), k, OPEN_TAG)
    requires start + |OPEN_TAG| + end <= |raw|
    requires var tail := LowerAscii(raw)[start + |OPEN_TAG|..];
             (forall k: nat :: k < end ==> !StandsAt(tail, k, CLOSE_TAG)) &&
             (StandsAt(tail, end, CLOSE_TAG) || (end == |tail| && forall k: nat :: !StandsAt(tail, k, CLOSE_TAG)))
    ensures ExtractCarryForward(raw, space) == Trim(raw[start + |OPEN_TAG|..][..end], space)
  {
    var lower, tail := LowerAscii(raw), raw[start + |OPEN_TAG|..];
    FindIs(lower, OPEN_TAG, start);
    ToCloseTag(tail, lower[start + |OPEN_TAG|..], CLOSE_TAG, end, space);
  }

  function Heading(cycle: string, timestamp: string): string {
    "[CYCLE BRIEFING \U{2014} written by you on cycle " + cycle + " at " + timestamp + "]\n\n"
  }

  /** A text on lines of its own, then the tag. */
  function Enclosed(b: string, tag: string): string {
    "\n" + b + "\n" + tag
  }

  /** The briefing as the seed message of the next cycle shows it. */
  function BriefingText(cycle: string, timestamp: string, briefing: string, space: char -> bool): string {
    Heading(cycle, timestamp) + OPEN_TAG + Enclosed(Trim(briefing, space), CLOSE_TAG)
  }

  /** The printed text in one piece. */
  lemma PrintedIs(cycle: string, timestamp: string, briefing: string, space: char -> bool)
    ensures BriefingText(cycle, timestamp, briefing, space) ==
            "[CYCLE BRIEFING \U{2014} written by you on cycle " + cycle + " at " + timestamp + "]\n\n" + "<carry_forward>" +
              ("\n" + Trim(briefing, space) + "\n" + "</carry_forward>")
  {}

  /** A briefing that is blank is not shown at all. */
  function BriefingMessage(cycle: string, timestamp: string, briefing: string, space: char -> bool): Option<string> {
    if Trim(briefing, space) == [] then None else Some(BriefingText(cycle, timestamp, briefing, space))
  }

  lemma LowerOfParts(a: string, b: string)
    ensures LowerAscii(a + b) == LowerAscii(a) + LowerAscii(b)
  {}

  /** Case folding makes no angle bracket. */
  lemma LowerKeepsAngles(s: string)
    requires '<' !in s
    ensures '<' !in LowerAscii(s)
  {}

  lemma FirstCharMustMatch(text: string, k: nat, pattern: string)
    requires pattern != [] && k < |text|
    ensures text[k] != pattern[0] ==> !StandsAt(text, k, pattern)
  {}

  /** A pattern that starts with a character the prefix lacks first stands right after it. */
  lemma FoundAfter(head: string, pattern: string, rest: string)
    requires pattern != [] && pattern[0] !in head
    ensures Find(head + pattern + rest, pattern, 0) == Some(|head|)
  {
    var text := head + pattern + rest;
    assert text[|head|..|head| + |pattern|] == pattern;
    forall k | 0 <= k < |head| ensures !StandsAt(text, k, pattern) {
      assert text[k] == head[k];
      FirstCharMustMatch(text, k, pattern);
    }
    FindIs(text, pattern, |head|);
  }

  predicate OnOneLine(tag: string) {
    tag != [] && '\n' !in tag
  }

  /** `text` is `b` between two newlines, and then `tag`. */
  ghost predicate Framed(text: string, b: string, tag: string) {
    |text| == |b| + 2 + |tag| && text[0] == '\n' && text[|b| + 1] == '\n' &&
    (forall k :: 0 <= k < |b| ==> text[k + 1] == b[k]) && text[|b| + 2..] == tag
  }

  lemma Shifted(text: string, b: string, tag: string, k: nat)
    requires Framed(text, b, tag) && 0 < k && k - 1 + |tag| <= |b|
    ensures StandsAt(text, k, tag) <==> StandsAt(b, k - 1, tag)
  {}

  /** No match can straddle a newline, so before the tag itself it stands only where it stands in
      the text between the newlines. */
  lemma NoMatchStraddles(text: string, b: string, tag: string, k: nat)
    requires OnOneLine(tag) && Framed(text, b, tag) && k < |b| + 2 && StandsAt(text, k, tag)
    ensures k > 0 && StandsAt(b, k - 1, tag)
  {}

  /** Where a tag is found in a text set between newlines before it. */
  lemma TagFound(text: string, b: string, tag: string)
    requires OnOneLine(tag) && Framed(text, b, tag)
    ensures Find(text, tag, 0) == match Find(b, tag, 0) case Some(e) => Some(e + 1) case None => Some(|b| + 2)
  {
    var p := match Find(b, tag, 0) case Some(e) => e + 1 case None => |b| + 2;
    FindMeans(b, tag, 0);
    forall k: nat | k < p ensures !StandsAt(text, k, tag) {
      if StandsAt(text, k, tag) {
        NoMatchStraddles(text, b, tag, k);
      }
    }
    if p < |b| + 2 {
      Shifted(text, b, tag, p);
    }
    FindIs(text, tag, p);
  }

  lemma TagsAreLower()
    ensures LowerAscii(OPEN_TAG) == OPEN_TAG && LowerAscii(CLOSE_TAG) == CLOSE_TAG
    ensures OPEN_TAG != [] && OPEN_TAG[0] == '<' && OnOneLine(CLOSE_TAG)
  {}

  lemma EnclosedIsFramed(b: string, tag: string)
    ensures Framed(Enclosed(b, tag), b, tag)
  {}

  lemma LowerIsFramed(text: string, b: string, tag: string)
    requires Framed(text, b, tag) && LowerAscii(tag) == tag
    ensures Framed(LowerAscii(text), LowerAscii(b), tag)
  {}

  /** The printed text and its lower case, and where what follows the open tag begins. */
  lemma PrintedParts(heading: string, open: string, tail: string)
    requires '<' !in heading && open != [] && open[0] == '<' && LowerAscii(open) == open
    ensures var raw := heading + open + tail;
            Find(LowerAscii(raw), open, 0) == Some(|heading|) &&
            raw[|heading| + |open|..] == tail && LowerAscii(raw)[|heading| + |open|..] == LowerAscii(tail)
  {
    LowerOfParts(heading + open, tail);
    LowerOfParts(heading, open);
    LowerKeepsAngles(heading);
    FoundAfter(LowerAscii(heading), open, LowerAscii(tail));
  }

  /** Where what extraction keeps of a text set between newlines before a tag ends. */
  function EndInFrame(b: string, tag: string): (e: nat)
    ensures e <= |b| + 2
  {
    match Find(LowerAscii(b), tag, 0) case Some(e) => e + 1 case None => |b| + 2
  }

  /** What extraction makes of a text set between newlines before the close tag. */
  lemma UpToFramed(text: string, b: string, close: string, space: char -> bool)
    requires Framed(text, b, close) && OnOneLine(close) && LowerAscii(close) == close
    ensures UpTo(text, LowerAscii(text), close, space) ==
            Trim(text[..EndInFrame(b, close)], space)
  {
    LowerIsFramed(text, b, close);
    TagFound(LowerAscii(text), LowerAscii(b), close);
  }

  lemma TagIsCut(raw: string, lower: string, open: string, text: string, textLower: string)
    requires |raw| == |lower| && Find(lower, open, 0) == Some(|raw| - |open| - |text|) && |text| == |textLower|
    requires raw[|raw| - |text|..] == text && lower[|raw| - |text|..] == textLower
    ensures AfterTag(raw, lower, open) == Some((text, textLower))
  {
    var after := |raw| - |open| - |text| + |open|;
    assert raw[after..] == text && lower[after..] == textLower;
  }

  lemma ExtractedAfter(raw: string, lower: string, open: string, text: string, textLower: string, close: string, space: char -> bool)
    requires |raw| == |lower| && |text| == |textLower| && AfterTag(raw, lower, open) == Some((text, textLower))
    ensures ExtractBetween(raw, lower, open, close, space) == UpTo(text, textLower, close, space)
  {}

  /** Extraction goes on with what follows the first open tag. */
  lemma ExtractedBetween(heading: string, open: string, text: string, close: string, space: char -> bool)
    requires '<' !in heading && open != [] && open[0] == '<' && LowerAscii(open) == open
    ensures var raw := heading + open + text;
            ExtractBetween(raw, LowerAscii(raw), open, close, space) == UpTo(text, LowerAscii(text), close, space)
  {
    PrintedParts(heading, open, text);
    var raw := heading + open + text;
    TagIsCut(raw, LowerAscii(raw), open, text, LowerAscii(text));
    ExtractedAfter(raw, LowerAscii(raw), open, text, LowerAscii(text), close, space);
  }

  /** What extraction makes of a printed briefing. */
  lemma ExtractedFromPrinted(heading: string, b: string, space: char -> bool)
    requires '<' !in heading
    ensures ExtractCarryForward(heading + OPEN_TAG + Enclosed(b, CLOSE_TAG), space) ==
            Trim(Enclosed(b, CLOSE_TAG)[..EndInFrame(b, CLOSE_TAG)], space)
  {
    TagsAreLower();
    ExtractedBetween(heading, OPEN_TAG, Enclosed(b, CLOSE_TAG), CLOSE_TAG, space);
    EnclosedIsFramed(b, CLOSE_TAG);
    UpToFramed(Enclosed(b, CLOSE_TAG), b, CLOSE_TAG, space);
  }

  lemma EnclosedPrefix(b: string, tag: string, e: nat)
    requires e <= |b|
    ensures Enclosed(b, tag)[..e + 1] == "\n" + b[..e]
  {}

  lemma EnclosedBody(b: string, tag: string)
    ensures Enclosed(b, tag)[..|b| + 2] == "\n" + b + "\n"
  {}

  lemma {:induction false} TrimAfterNewline(s: string, space: char -> bool)
    requires space('\n')
    ensures Trim("\n" + s, space) == Trim(s, space)
  {}

  lemma HeadingHasNoAngle(cycle: string, timestamp: string)
    requires '<' !in cycle && '<' !in timestamp
    ensures '<' !in Heading(cycle, timestamp)
  {
    var a, b, c := "[CYCLE BRIEFING \U{2014} written by you on cycle ", " at ", "]\n\n";
    assert '<' !in a && '<' !in b && '<' !in c;
  }

  lemma TrimmedPrefix(b: string, tag: string, e: nat, space: char -> bool)
    requires space('\n') && e <= |b|
    ensures Trim(Enclosed(b, tag)[..e + 1], space) == Trim(b[..e], space)
  {
    EnclosedPrefix(b, tag, e);
    TrimAfterNewline(b[..e], space);
  }

  lemma TrimmedWhole(b: string, tag: string, space: char -> bool)
    requires space('\n') && Trimmed(b, space)
    ensures Trim(Enclosed(b, tag)[..|b| + 2], space) == b
  {
    EnclosedBody(b, tag);
    TrimAround("\n", b, "\n", space);
  }

  /** What a text is trimmed to between newlines before a tag, where the first tag in it ends it. */
  lemma TrimmedInFrame(b: string, tag: string, space: char -> bool)
    requires space('\n') && Trimmed(b, space)
    ensures Trim(Enclosed(b, tag)[..EndInFrame(b, tag)], space) ==
            match Find(LowerAscii(b), tag, 0) case Some(e) => Trim(b[..e], space) case None => b
  {
    match Find(LowerAscii(b), tag, 0)
    case Some(e) => TrimmedPrefix(b, tag, e, space);
    case None => TrimmedWhole(b, tag, space);
  }

  /** What extraction gives back of a printed briefing: all of it, trimmed, or what stands before
      the first close tag in it. */
  lemma ExtractedFromText(cycle: string, timestamp: string, briefing: string, space: char -> bool)
    requires space('\n') && '<' !in cycle && '<' !in timestamp
    ensures ExtractCarryForward(BriefingText(cycle, timestamp, briefing, space), space) ==
            var b := Trim(briefing, space);
            match Find(LowerAscii(b), CLOSE_TAG, 0) case Some(e) => Trim(b[..e], space) case None => b
  {
    HeadingHasNoAngle(cycle, timestamp);
    TrimTrims(briefing, space);
    ExtractedFromPrinted(Heading(cycle, timestamp), Trim(briefing, space), space);
    TrimmedInFrame(Trim(briefing, space), CLOSE_TAG, space);
  }

  /** For every briefing: none is printed iff it is blank, and extracting from the printed text
      gives back the trimmed briefing iff it contains no close tag in any letter case. Open tags
      inside it do no harm. */
  lemma RoundTripIff(cycle: string, timestamp: string, briefing: string, space: char -> bool)
    requires space('\n') && '<' !in cycle && '<' !in timestamp
    ensures match BriefingMessage(cycle, timestamp, briefing, space)
            case None => Trim(briefing, space) == []
            case Some(text) => ExtractCarryForward(text, space) == Trim(briefing, space) <==>
                               Find(LowerAscii(Trim(briefing, space)), CLOSE_TAG, 0).None?
  {
    var b := Trim(briefing, space);
    ExtractedFromText(cycle, timestamp, briefing, space);
    match Find(LowerAscii(b), CLOSE_TAG, 0)
    case Some(e) => TrimShortens(b[..e], space);
    case None =>
  }
}
