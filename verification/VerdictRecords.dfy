/** The records of the verdict log (crates/agent-runtime/src/evolution_log.rs) as bytes: one JSON object
    per line, blank and malformed lines skipped, and nothing at all read from bytes that are not UTF-8.
    The JSON codec is a parameter. */
module VerdictRecords {
  import opened Wrappers
  import opened Sequences
  import opened Utf8

  type Text = seq<Byte>

  const NEWLINE: Byte := 10
  const RETURN: Byte := 13
  const BRACE: Byte := 123

  datatype VerdictRecord = VerdictRecord(
    ts: string,
    verdict: string,
    failureType: Option<string>,
    claim: string,
    command: Option<string>,
    exitCode: Option<int>,
    model: string
  )

  /** `blank` says whether a line is only white space. */
  datatype Codec = Codec(toJson: VerdictRecord -> Text, fromJson: Text -> Option<VerdictRecord>, blank: Text -> bool)

  // ----- Reading and writing lines ----------------------------------------------------

  function NewlineAt(s: Text): (r: nat)
    ensures r <= |s| && NEWLINE !in s[..r] && (r < |s| ==> s[r] == NEWLINE)
  {
    if s == [] || s[0] == NEWLINE then 0
    else
      var r := NewlineAt(s[1..]);
      assert s[..r + 1] == [s[0]] + s[1..][..r];
      r + 1
  }

  function WithoutReturn(line: Text): Text {
    if line != [] && line[|line| - 1] == RETURN then line[..|line| - 1] else line
  }

  /** The lines of a text; the last one may lack its newline, and a return before a newline is
      not part of the line. */
  function Lines(s: Text): seq<Text> {
    if s == [] then []
    else
      var n := NewlineAt(s);
      if n == |s| then [s] else [WithoutReturn(s[..n])] + Lines(s[n + 1..])
  }

  function RecordOf(codec: Codec, line: Text): seq<VerdictRecord> {
    if line == [] || codec.blank(line) then []
    else match codec.fromJson(line) case Some(r) => [r] case None => []
  }

  function RecordsOf(codec: Codec, lines: seq<Text>): seq<VerdictRecord> {
    if lines == [] then [] else RecordOf(codec, lines[0]) + RecordsOf(codec, lines[1..])
  }

  /** The parsable records of a log; blank and malformed lines are skipped. */
  function Records(codec: Codec, content: Text): seq<VerdictRecord> {
    RecordsOf(codec, Lines(content))
  }

  /** What loading a log gives: bytes that are not UTF-8 give nothing at all. */
  function Load(codec: Codec, content: Text): seq<VerdictRecord> {
    if Valid(content) then Records(codec, content) else []
  }

  function LineOf(codec: Codec, r: VerdictRecord): Text {
    codec.toJson(r) + [NEWLINE]
  }

  function Render(codec: Codec, rs: seq<VerdictRecord>): Text {
    if rs == [] then [] else LineOf(codec, rs[0]) + Render(codec, rs[1..])
  }

  /** A printed record is one line of a text: a JSON object that reads back as the record. */
  predicate Faithful(codec: Codec, r: VerdictRecord) {
    var line := codec.toJson(r);
    line != [] && line[0] == BRACE && line[|line| - 1] != RETURN && NEWLINE !in line &&
    Valid(line) && !codec.blank(line) && codec.fromJson(line) == Some(r)
  }

  ghost predicate AllFaithful(codec: Codec, rs: seq<VerdictRecord>) {
    forall r :: r in rs ==> Faithful(codec, r)
  }

  /** A line with its newline and what follows. */
  function Then(line: Text, rest: Text): Text {
    line + [NEWLINE] + rest
  }

  lemma FirstLine(line: Text, rest: Text)
    requires NEWLINE !in line
    ensures Lines(Then(line, rest)) == [WithoutReturn(line)] + Lines(rest)
  {
    var s := Then(line, rest);
    var n := NewlineAt(s);
    assert s[|line|] == NEWLINE;
    assert n == |line|;
    assert s[..n] == line && s[n + 1..] == rest;
  }

  /** A return before the newline is no part of the line. */
  lemma ReturnIsDropped(line: Text, rest: Text)
    requires NEWLINE !in line
    ensures Lines(Then(line + [RETURN], rest)) == [line] + Lines(rest)
  {
    FirstLine(line + [RETURN], rest);
    assert (line + [RETURN])[..|line|] == line;
  }

  /** Blank lines and lines that are no record are passed over, and those after them are not. */
  lemma OtherLinesAreSkipped(codec: Codec, line: Text, rest: Text)
    requires NEWLINE !in line && (line == [] || line[|line| - 1] != RETURN)
    requires line == [] || codec.blank(line) || codec.fromJson(line) == None
    ensures Records(codec, Then(line, rest)) == Records(codec, rest)
  {
    FirstLine(line, rest);
    assert ([line] + Lines(rest))[1..] == Lines(rest);
    assert [] + Records(codec, rest) == Records(codec, rest);
  }

  /** A rendered log reads back as its records. */
  lemma {:induction false} RenderReadsBack(codec: Codec, rs: seq<VerdictRecord>)
    requires AllFaithful(codec, rs)
    ensures Records(codec, Render(codec, rs)) == rs
  {
    if rs != [] {
      var line, rest := codec.toJson(rs[0]), Render(codec, rs[1..]);
      assert Faithful(codec, rs[0]);
      RenderReadsBack(codec, rs[1..]);
      FirstLine(line, rest);
      assert Render(codec, rs) == Then(line, rest);
      assert Lines(Render(codec, rs))[1..] == Lines(rest);
      assert rs == [rs[0]] + rs[1..];
    }
  }

  lemma {:induction false} RenderOfParts(codec: Codec, a: seq<VerdictRecord>, b: seq<VerdictRecord>)
    ensures Render(codec, a + b) == Render(codec, a) + Render(codec, b)
  {
    if a == [] {
      assert a + b == b;
    } else {
      assert (a + b)[1..] == a[1..] + b;
      RenderOfParts(codec, a[1..], b);
    }
  }

  lemma RenderOne(codec: Codec, r: VerdictRecord)
    ensures Render(codec, [r]) == LineOf(codec, r)
  {}

  lemma RenderOneMore(codec: Codec, rs: seq<VerdictRecord>, k: nat)
    requires k < |rs|
    ensures Render(codec, rs[..k + 1]) == Render(codec, rs[..k]) + LineOf(codec, rs[k])
  {
    assert rs[..k + 1] == rs[..k] + [rs[k]];
    RenderOfParts(codec, rs[..k], [rs[k]]);
    RenderOne(codec, rs[k]);
  }

  // ----- What an append adds to the records read back -------------------------------------------

  /** The next line written starts a line of its own. */
  predicate AtBoundary(s: Text) {
    s == [] || s[|s| - 1] == NEWLINE
  }

  lemma SplitFirstLine(a: Text) returns (line: Text, rest: Text)
    requires a != [] && AtBoundary(a)
    ensures a == Then(line, rest) && NEWLINE !in line && AtBoundary(rest)
  {
    var n := NewlineAt(a);
    assert a[..|a|] == a && a[|a| - 1] in a;
    line, rest := a[..n], a[n + 1..];
  }

  lemma LinesStep(whole: Text, longer: Text, line: Text, rest: seq<Text>, b: seq<Text>)
    requires Lines(whole) == [line] + rest && Lines(longer) == [line] + (rest + b)
    ensures Lines(longer) == Lines(whole) + b
  {
    Associate([line], rest, b);
  }

  lemma ThenOfParts(line: Text, rest: Text, b: Text)
    ensures Then(line, rest) + b == Then(line, rest + b)
  {}

  lemma {:induction false} LinesOfParts(a: Text, b: Text)
    requires AtBoundary(a)
    ensures Lines(a + b) == Lines(a) + Lines(b)
    decreases |a|
  {
    if a == [] {
      assert a + b == b && Lines(a) == [] && [] + Lines(b) == Lines(b);
    } else {
      var line, rest := SplitFirstLine(a);
      LinesOfParts(rest, b);
      ThenOfParts(line, rest, b);
      FirstLine(line, rest);
      FirstLine(line, rest + b);
      LinesStep(a, a + b, WithoutReturn(line), Lines(rest), Lines(b));
    }
  }

  lemma {:induction false} RecordsOfParts(codec: Codec, a: seq<Text>, b: seq<Text>)
    ensures RecordsOf(codec, a + b) == RecordsOf(codec, a) + RecordsOf(codec, b)
  {
    if a == [] {
      assert a + b == b;
    } else {
      assert (a + b)[1..] == a[1..] + b;
      RecordsOfParts(codec, a[1..], b);
    }
  }

  lemma RecordsFromBoundary(codec: Codec, a: Text, b: Text)
    requires AtBoundary(a)
    ensures Records(codec, a + b) == Records(codec, a) + Records(codec, b)
  {
    LinesOfParts(a, b);
    RecordsOfParts(codec, Lines(a), Lines(b));
  }

  /** Where the last, unfinished line begins. */
  function TailStart(s: Text): (n: nat)
    ensures n <= |s| && AtBoundary(s[..n]) && NEWLINE !in s[n..]
  {
    if AtBoundary(s) then |s|
    else
      var n := TailStart(s[..|s| - 1]);
      assert s[..|s| - 1][..n] == s[..n] && s[n..] == s[..|s| - 1][n..] + [s[|s| - 1]];
      n
  }

  function Head(s: Text): (head: Text)
    ensures AtBoundary(head)
  {
    s[..TailStart(s)]
  }

  /** The unfinished line. */
  function Tail(s: Text): (tail: Text)
    ensures NEWLINE !in tail && s == Head(s) + tail
  {
    s[TailStart(s)..]
  }

  lemma NoTailAtBoundary(s: Text)
    requires AtBoundary(s)
    ensures Head(s) == s && Tail(s) == []
  {}

  lemma {:induction false} TailOfParts(head: Text, tail: Text)
    requires AtBoundary(head) && NEWLINE !in tail
    ensures Head(head + tail) == head && Tail(head + tail) == tail
  {
    var s := head + tail;
    if tail == [] {
      assert s == head;
    } else {
      var init := tail[..|tail| - 1];
      assert s[|s| - 1] == tail[|tail| - 1] && tail[|tail| - 1] in tail;
      assert s[..|s| - 1] == head + init;
      TailOfParts(head, init);
      assert TailStart(s) == |head|;
    }
  }

  lemma RecordsOfOne(codec: Codec, line: Text)
    ensures RecordsOf(codec, [line]) == RecordOf(codec, line)
  {
    assert [line][1..] == [] && RecordOf(codec, line) + [] == RecordOf(codec, line);
  }

  lemma RecordsOfLine(codec: Codec, line: Text)
    requires NEWLINE !in line && line != [] && line[|line| - 1] != RETURN
    ensures Records(codec, line + [NEWLINE]) == RecordOf(codec, line)
  {
    FirstLine(line, []);
    assert Then(line, []) == line + [NEWLINE] && Lines(line + [NEWLINE]) == [line];
    RecordsOfOne(codec, line);
  }

  lemma RecordsOfTail(codec: Codec, tail: Text)
    requires NEWLINE !in tail
    ensures Records(codec, tail) == RecordOf(codec, tail)
  {
    if tail != [] {
      assert NewlineAt(tail) == |tail|;
      RecordsOfOne(codec, tail);
    }
  }

  lemma LineAfterTail(codec: Codec, head: Text, tail: Text, r: VerdictRecord, line: Text)
    requires Faithful(codec, r) && NEWLINE !in tail && line == tail + codec.toJson(r)
    ensures head + tail + LineOf(codec, r) == head + (line + [NEWLINE])
    ensures NEWLINE !in line && line != [] && line[|line| - 1] != RETURN
  {
    var json := codec.toJson(r);
    Associate(head, tail, json + [NEWLINE]);
    Associate(tail, json, [NEWLINE]);
    assert line[|line| - 1] == json[|json| - 1];
  }

  lemma AppendMeans(codec: Codec, head: Text, tail: Text, r: VerdictRecord)
    requires Faithful(codec, r) && AtBoundary(head) && NEWLINE !in tail
    ensures Records(codec, head + tail) == Records(codec, head) + RecordOf(codec, tail)
    ensures Records(codec, head + tail + LineOf(codec, r)) == Records(codec, head) + RecordOf(codec, tail + codec.toJson(r))
  {
    RecordsFromBoundary(codec, head, tail);
    RecordsOfTail(codec, tail);
    var line := tail + codec.toJson(r);
    LineAfterTail(codec, head, tail, r, line);
    RecordsFromBoundary(codec, head, line + [NEWLINE]);
    RecordsOfLine(codec, line);
  }

  lemma LineIsValid(codec: Codec, r: VerdictRecord)
    requires Faithful(codec, r)
    ensures var line := LineOf(codec, r); Valid(line) && line != [] && !Continuation(line[0])
  {
    AsciiIsValid(NEWLINE);
    ValidOfParts(codec.toJson(r), [NEWLINE]);
    assert LineOf(codec, r)[0] == BRACE;
  }

  /** A line put after anything is read iff what stands before it can be. */
  lemma LineAfterIsValidIff(codec: Codec, content: Text, r: VerdictRecord)
    requires Faithful(codec, r)
    ensures Valid(content + LineOf(codec, r)) <==> Valid(content)
  {
    LineIsValid(codec, r);
    ValidOfParts(content, LineOf(codec, r));
  }

  lemma RecordReadsBackIff(codec: Codec, content: Text, head: Text, tail: Text, r: VerdictRecord)
    requires Faithful(codec, r) && content == head + tail && AtBoundary(head) && NEWLINE !in tail
    ensures Records(codec, content + LineOf(codec, r)) == Records(codec, content) + [r] <==>
            RecordOf(codec, tail) == [] && RecordOf(codec, tail + codec.toJson(r)) == [r]
  {
    AppendMeans(codec, head, tail, r);
    OneAdded(Records(codec, head), RecordOf(codec, tail), RecordOf(codec, tail + codec.toJson(r)), r);
  }

  lemma NoTailReadsBack(codec: Codec, tail: Text, r: VerdictRecord)
    requires Faithful(codec, r) && tail == []
    ensures RecordOf(codec, tail) == [] && RecordOf(codec, tail + codec.toJson(r)) == [r]
  {
    assert tail + codec.toJson(r) == codec.toJson(r);
  }

  lemma LoadAddsIff(codec: Codec, content: Text, longer: Text, r: VerdictRecord)
    requires Valid(longer) <==> Valid(content)
    ensures Load(codec, longer) == Load(codec, content) + [r] <==>
            Valid(content) && Records(codec, longer) == Records(codec, content) + [r]
  {}

  /** For any contents, an append adds the record to those loaded iff the contents are UTF-8, and the
      unfinished last line is no record and becomes that record when the record's line is put after it:
      so at every line boundary of valid contents, and hardly ever elsewhere. */
  lemma AppendReadsBackIff(codec: Codec, content: Text, r: VerdictRecord)
    requires Faithful(codec, r)
    ensures Load(codec, content + LineOf(codec, r)) == Load(codec, content) + [r] <==>
            Valid(content) && RecordOf(codec, Tail(content)) == [] && RecordOf(codec, Tail(content) + codec.toJson(r)) == [r]
    ensures AtBoundary(content) && Valid(content) ==> Load(codec, content + LineOf(codec, r)) == Load(codec, content) + [r]
  {
    LineAfterIsValidIff(codec, content, r);
    LoadAddsIff(codec, content, content + LineOf(codec, r), r);
    RecordReadsBackIff(codec, content, Head(content), Tail(content), r);
    if AtBoundary(content) {
      NoTailAtBoundary(content);
      NoTailReadsBack(codec, Tail(content), r);
    }
  }

  /** A line torn just before its newline still reads back, until the next append runs on from it:
      then both records are lost. */
  lemma TornNewlineLosesTwo(codec: Codec, a: VerdictRecord, b: VerdictRecord)
    requires Faithful(codec, a) && Faithful(codec, b) && RecordOf(codec, codec.toJson(a) + codec.toJson(b)) == []
    ensures Load(codec, codec.toJson(a)) == [a]
    ensures Load(codec, codec.toJson(a) + LineOf(codec, b)) == []
  {
    var tail := codec.toJson(a);
    AppendMeans(codec, [], tail, b);
    assert [] + tail == tail && [] + tail + LineOf(codec, b) == tail + LineOf(codec, b);
  }

  lemma {:induction false} RenderEndsLines(codec: Codec, rs: seq<VerdictRecord>)
    requires AllFaithful(codec, rs)
    ensures AtBoundary(Render(codec, rs)) && Valid(Render(codec, rs))
  {
    if rs == [] {
      EncodedIsValid([]);
    } else {
      assert rs[0] in rs;
      RenderEndsLines(codec, rs[1..]);
      LineIsValid(codec, rs[0]);
      BothAreValid(LineOf(codec, rs[0]), Render(codec, rs[1..]));
    }
  }
}
