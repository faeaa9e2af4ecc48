/** The verdict log (crates/agent-runtime/src/evolution_log.rs), rotated down to its newest records when
    it grows past a cap.

    Appends are serialised by a lock, so a run is a sequence of appends, to whatever the file holds; a
    crash may tear the line an append writes, inside a character too. */
module VerdictLog {
  import opened Wrappers
  import opened Sequences
  import opened Utf8
  import opened VerdictRecords

  // ----- Which records a rotation keeps -------------------------------------------------

  /** The newest records that fit in `keep` bytes, and always the newest: `rs[start..]` is kept,
      and every longer end piece of two or more records is too long. */
  ghost predicate KeepsFrom(codec: Codec, rs: seq<VerdictRecord>, keep: nat, start: nat)
    requires start <= |rs|
  {
    (rs != [] ==> start < |rs|) &&
    (|rs| - start >= 2 ==> |Render(codec, rs[start..])| <= keep) &&
    forall k :: 0 <= k < start ==> |Render(codec, rs[k..])| > keep
  }

  lemma {:induction false} LongerIsLonger(codec: Codec, rs: seq<VerdictRecord>, j: nat, k: nat)
    requires j <= k <= |rs|
    ensures |Render(codec, rs[k..])| <= |Render(codec, rs[j..])|
  {
    assert rs[j..] == rs[j..k] + rs[k..];
    RenderOfParts(codec, rs[j..k], rs[k..]);
  }

  /** The rule determines what is kept. */
  lemma KeptIsUnique(codec: Codec, rs: seq<VerdictRecord>, keep: nat, i: nat, j: nat)
    requires i <= j <= |rs| && KeepsFrom(codec, rs, keep, i) && KeepsFrom(codec, rs, keep, j)
    ensures i == j
  {}

  method Reversed<T>(s: seq<T>) returns (r: seq<T>)
    ensures |r| == |s| && forall k :: 0 <= k < |s| ==> r[k] == s[|s| - 1 - k]
  {
    r := [];
    var i := |s|;
    while i > 0
      invariant 0 <= i <= |s| == i + |r|
      invariant forall k :: 0 <= k < |r| ==> r[k] == s[|s| - 1 - k]
    {
      i := i - 1;
      r := r + [s[i]];
    }
  }

  /** The loop from the newest record back. */
  method Retain(codec: Codec, records: seq<VerdictRecord>, keep: nat) returns (retained: seq<VerdictRecord>)
    ensures |retained| <= |records| && retained == records[|records| - |retained|..]
    ensures KeepsFrom(codec, records, keep, |records| - |retained|)
  {
    var newestFirst: seq<VerdictRecord> := [];
    var bytes := 0;
    var i := |records|;
    while i > 0
      invariant 0 <= i <= |records| == i + |newestFirst|
      invariant forall k :: 0 <= k < |newestFirst| ==> newestFirst[k] == records[|records| - 1 - k]
      invariant bytes == |Render(codec, records[i..])|
      invariant |newestFirst| >= 2 ==> bytes <= keep
    {
      var record := records[i - 1];
      var len := |LineOf(codec, record)|;
      assert records[i - 1..] == [record] + records[i..];
      if bytes + len > keep && newestFirst != [] {
        break;
      }
      bytes := bytes + len;
      newestFirst := newestFirst + [record];
      i := i - 1;
    }
    forall k | 0 <= k < i ensures |Render(codec, records[k..])| > keep {
      LongerIsLonger(codec, records, k, i - 1);
    }
    retained := Reversed(newestFirst);
  }

  // ----- The log ----------------------------------------------------------------------------

  ghost predicate RotatesTo(codec: Codec, cap: nat, before: Text, after: Text, start: nat)
    requires start <= |Records(codec, before)|
  {
    var rs := Records(codec, before);
    KeepsFrom(codec, rs, cap / 2, start) && after == Render(codec, rs[start..])
  }

  /** `after` is what a rotation with its file operations succeeding makes of `before`: bytes that are
      not UTF-8 are left alone. */
  ghost predicate Rotates(codec: Codec, cap: nat, before: Text, after: Text) {
    if |before| <= cap || !Valid(before) then after == before
    else exists start :: 0 <= start <= |Records(codec, before)| && RotatesTo(codec, cap, before, after, start)
  }

  /** One call: `works` says whether reading and replacing the file succeed in the rotation as far as
      the file system goes, and `written` how many bytes of the line reach the file before a crash. */
  datatype Append = Append(record: VerdictRecord, works: bool, written: nat)

  predicate Whole(codec: Codec, a: Append) {
    a.written >= |LineOf(codec, a.record)|
  }

  function Piece(codec: Codec, a: Append): Text {
    var line := LineOf(codec, a.record);
    if Whole(codec, a) then line else line[..a.written]
  }

  /** The file between the rotation and the write; a failed rotation leaves it. */
  ghost predicate RotatedAs(codec: Codec, cap: nat, before: Text, works: bool, rotated: Text) {
    if works then Rotates(codec, cap, before, rotated) else rotated == before
  }

  ghost predicate Appends(codec: Codec, cap: nat, before: Text, a: Append, after: Text) {
    exists rotated :: RotatedAs(codec, cap, before, a.works, rotated) && after == rotated + Piece(codec, a)
  }

  class VerdictLogFile {
    const maxBytes: nat
    const codec: Codec
    var content: Text

    constructor (codec: Codec, maxBytes: nat, content: Text)
      ensures this.content == content && this.codec == codec && this.maxBytes == maxBytes
    {
      this.codec, this.maxBytes, this.content := codec, maxBytes, content;
    }

    method RotateIfOversized(works: bool)
      modifies this
      ensures RotatedAs(codec, maxBytes, old(content), works, content)
    {
      if |content| <= maxBytes || !works || !Valid(content) {
        return;
      }
      var records := Records(codec, content);
      var retained := Retain(codec, records, maxBytes / 2);
      var out: Text := [];
      for i := 0 to |retained|
        invariant out == Render(codec, retained[..i])
      {
        RenderOneMore(codec, retained, i);
        out := out + LineOf(codec, retained[i]);
      }
      assert retained[..|retained|] == retained;
      assert RotatesTo(codec, maxBytes, old(content), out, |records| - |retained|);
      content := out;
    }

    method AppendRecord(a: Append)
      modifies this
      ensures Appends(codec, maxBytes, old(content), a, content)
    {
      RotateIfOversized(a.works);
      content := content + Piece(codec, a);
    }
  }

  // ----- Rotation and reading back ----------------------------------------------------------------

  lemma CutAt(codec: Codec, cap: nat, content: Text, rs: seq<VerdictRecord>, rotated: Text) returns (start: nat)
    requires |content| > cap && Valid(content) && Rotates(codec, cap, content, rotated) && Records(codec, content) == rs
    ensures start <= |rs| && KeepsFrom(codec, rs, cap / 2, start) && rotated == Render(codec, rs[start..])
  {
    start :| 0 <= start <= |rs| && RotatesTo(codec, cap, content, rotated, start);
  }

  /** A rotation that cuts anything repairs a torn log: it ends at a boundary again, with the kept
      records and no others. */
  lemma RotationHeals(codec: Codec, cap: nat, before: Text, after: Text) returns (start: nat)
    requires |before| > cap && Valid(before) && Rotates(codec, cap, before, after)
    requires AllFaithful(codec, Load(codec, before))
    ensures start <= |Load(codec, before)| && KeepsFrom(codec, Load(codec, before), cap / 2, start)
    ensures var rs := Load(codec, before);
            (rs != [] ==> start < |rs|) && (|rs| - start > 1 ==> |after| <= cap / 2) &&
            forall k :: 0 <= k < start ==> |Render(codec, rs[k..])| > cap / 2
    ensures AtBoundary(after) && Valid(after) && Load(codec, after) == Load(codec, before)[start..]
  {
    var rs := Records(codec, before);
    start := CutAt(codec, cap, before, rs, after);
    RenderEndsLines(codec, rs[start..]);
    RenderReadsBack(codec, rs[start..]);
  }

  // ----- The size bound ---------------------------------------------------------------------------

  function Max(a: nat, b: nat): nat {
    if a < b then b else a
  }

  ghost predicate LinesAtMost(codec: Codec, rs: seq<VerdictRecord>, longest: nat) {
    forall r :: r in rs ==> |LineOf(codec, r)| <= longest
  }

  lemma RotatedIsBounded(codec: Codec, cap: nat, before: Text, rotated: Text, longest: nat)
    requires Rotates(codec, cap, before, rotated) && (|before| <= cap || Valid(before))
    requires LinesAtMost(codec, Load(codec, before), longest)
    ensures |rotated| <= Max(cap, longest)
  {
    if |before| > cap {
      var rs := Load(codec, before);
      var start := CutAt(codec, cap, before, rs, rotated);
      if |rs| - start == 1 {
        assert rs[start..] == [rs[start]];
        RenderOne(codec, rs[start]);
      }
    }
  }

  /** Whatever the log held before, torn or foreign lines included, and whatever part of the line is
      written: after an append whose rotation works the log has at most max(cap, L) + L bytes, where
      L bounds the new line and the lines of the records read back before. Only an oversized log that
      is not UTF-8 is never cut. */
  lemma AppendIsBounded(codec: Codec, cap: nat, before: Text, a: Append, after: Text, longest: nat)
    requires Appends(codec, cap, before, a, after) && a.works
    requires |LineOf(codec, a.record)| <= longest && LinesAtMost(codec, Load(codec, before), longest)
    ensures |before| <= cap || Valid(before) ==> |after| <= Max(cap, longest) + longest
    ensures |before| > cap && !Valid(before) ==> after == before + Piece(codec, a)
  {
    var rotated :| RotatedAs(codec, cap, before, a.works, rotated) && after == rotated + Piece(codec, a);
    if |before| <= cap || Valid(before) {
      RotatedIsBounded(codec, cap, before, rotated, longest);
    }
  }

  // ----- Runs ----------------------------------------------------------------------------------

  /** The contents after each of some appends, from any contents on. */
  ghost predicate IsRun(codec: Codec, cap: nat, appends: seq<Append>, run: seq<Text>) {
    |run| == |appends| + 1 &&
    forall k {:trigger appends[k]} :: 0 <= k < |appends| ==> Appends(codec, cap, run[k], appends[k], run[k + 1])
  }

  /** The records of some appends, after those a log held before. */
  function AllOf(known: seq<VerdictRecord>, appends: seq<Append>): (all: seq<VerdictRecord>)
    ensures |all| == |known| + |appends|
  {
    known + seq(|appends|, i requires 0 <= i < |appends| => appends[i].record)
  }

  lemma AllOfOneMore(known: seq<VerdictRecord>, appends: seq<Append>, k: nat)
    requires k < |appends|
    ensures AllOf(known, appends[..k + 1]) == AllOf(known, appends[..k]) + [appends[k].record]
  {}

  /** The log is what it was before any append, with a line for each added; or exactly the lines of
      an end piece of all its records. */
  ghost predicate HoldsNewest(codec: Codec, initial: Text, all: seq<VerdictRecord>, content: Text, from: nat) {
    var known := Records(codec, initial);
    from <= |all| && known <= all && (|all| > |known| ==> from < |all|) &&
    (content == Render(codec, all[from..]) || (from == 0 && content == initial + Render(codec, all[|known|..])))
  }

  lemma HeldIsValid(codec: Codec, initial: Text, all: seq<VerdictRecord>, content: Text, from: nat)
    requires Valid(initial) && HoldsNewest(codec, initial, all, content, from)
    requires AllFaithful(codec, all)
    ensures Valid(content)
  {
    RenderEndsLines(codec, all[from..]);
    if content != Render(codec, all[from..]) {
      RenderEndsLines(codec, all[|Records(codec, initial)|..]);
      BothAreValid(initial, Render(codec, all[|Records(codec, initial)|..]));
    }
  }

  lemma HeldReadsBack(codec: Codec, initial: Text, all: seq<VerdictRecord>, content: Text, from: nat)
    requires AtBoundary(initial) && HoldsNewest(codec, initial, all, content, from)
    requires AllFaithful(codec, all)
    ensures Records(codec, content) == all[from..]
  {
    RenderReadsBack(codec, all[from..]);
    if content != Render(codec, all[from..]) {
      var known := Records(codec, initial);
      RecordsFromBoundary(codec, initial, Render(codec, all[|known|..]));
      RenderReadsBack(codec, all[|known|..]);
      assert all == known + all[|known|..];
    }
  }

  /** An end piece of an end piece. */
  lemma CutFurther(codec: Codec, initial: Text, all: seq<VerdictRecord>, content: Text, from: nat, keep: nat, start: nat, rotated: Text)
    requires HoldsNewest(codec, initial, all, content, from)
    requires start <= |all| - from && KeepsFrom(codec, all[from..], keep, start) && rotated == Render(codec, all[from..][start..])
    ensures HoldsNewest(codec, initial, all, rotated, from + start)
  {
    assert all[from..][start..] == all[from + start..];
  }

  lemma OversizedKeepsNewest(codec: Codec, cap: nat, initial: Text, all: seq<VerdictRecord>, content: Text, from: nat, rotated: Text)
    returns (start: nat)
    requires |content| > cap && HoldsNewest(codec, initial, all, content, from) && Rotates(codec, cap, content, rotated)
    requires Valid(initial) && AtBoundary(initial) && AllFaithful(codec, all)
    ensures HoldsNewest(codec, initial, all, rotated, from + start)
  {
    HeldIsValid(codec, initial, all, content, from);
    HeldReadsBack(codec, initial, all, content, from);
    start := CutAt(codec, cap, content, all[from..], rotated);
    CutFurther(codec, initial, all, content, from, cap / 2, start, rotated);
  }

  lemma SmallIsKept(codec: Codec, cap: nat, content: Text, rotated: Text)
    requires |content| <= cap && Rotates(codec, cap, content, rotated)
    ensures rotated == content
  {}

  /** A rotation cuts the end piece shorter, to what fits or to the newest record. */
  lemma RotationKeepsNewest(codec: Codec, cap: nat, initial: Text, all: seq<VerdictRecord>, content: Text, from: nat, rotated: Text)
    returns (next: nat)
    requires AtBoundary(initial) && HoldsNewest(codec, initial, all, content, from) && Rotates(codec, cap, content, rotated)
    requires Valid(initial) && AllFaithful(codec, all)
    ensures from <= next && HoldsNewest(codec, initial, all, rotated, next)
  {
    next := from;
    if |content| <= cap {
      SmallIsKept(codec, cap, content, rotated);
    } else {
      var start := OversizedKeepsNewest(codec, cap, initial, all, content, from, rotated);
      next := from + start;
    }
  }

  lemma RenderWithLast(codec: Codec, all: seq<VerdictRecord>, from: nat, r: VerdictRecord)
    requires from <= |all|
    ensures Render(codec, (all + [r])[from..]) == Render(codec, all[from..]) + LineOf(codec, r)
  {
    assert (all + [r])[from..] == all[from..] + [r];
    RenderOfParts(codec, all[from..], [r]);
    RenderOne(codec, r);
  }

  lemma AppendKeepsNewest(codec: Codec, initial: Text, all: seq<VerdictRecord>, content: Text, from: nat, r: VerdictRecord)
    requires HoldsNewest(codec, initial, all, content, from)
    ensures HoldsNewest(codec, initial, all + [r], content + LineOf(codec, r), from)
  {
    var known := |Records(codec, initial)|;
    if content == Render(codec, all[from..]) {
      RenderWithLast(codec, all, from, r);
    } else {
      RenderWithLast(codec, all, known, r);
      Associate(initial, Render(codec, all[known..]), LineOf(codec, r));
    }
  }

  lemma OneMoreAppend(codec: Codec, cap: nat, initial: Text, all: seq<VerdictRecord>, before: Text, from: nat, a: Append, after: Text)
    returns (next: nat)
    requires AtBoundary(initial) && Valid(initial) && HoldsNewest(codec, initial, all, before, from) && AllFaithful(codec, all)
    requires Appends(codec, cap, before, a, after) && Whole(codec, a)
    ensures HoldsNewest(codec, initial, all + [a.record], after, next)
  {
    var rotated :| RotatedAs(codec, cap, before, a.works, rotated) && after == rotated + Piece(codec, a);
    next := from;
    if a.works {
      next := RotationKeepsNewest(codec, cap, initial, all, before, from, rotated);
    }
    AppendKeepsNewest(codec, initial, all, rotated, next, a.record);
  }

  ghost predicate WholeAndFaithful(codec: Codec, appends: seq<Append>) {
    forall a :: a in appends ==> Whole(codec, a) && Faithful(codec, a.record)
  }

  lemma RunAppends(codec: Codec, cap: nat, appends: seq<Append>, run: seq<Text>, k: nat)
    requires IsRun(codec, cap, appends, run) && k < |appends|
    ensures Appends(codec, cap, run[k], appends[k], run[k + 1])
  {}

  lemma NextIsFaithful(codec: Codec, known: seq<VerdictRecord>, appends: seq<Append>, k: nat)
    requires k < |appends| && WholeAndFaithful(codec, appends) && AllFaithful(codec, AllOf(known, appends[..k]))
    ensures Whole(codec, appends[k]) && AllFaithful(codec, AllOf(known, appends[..k + 1]))
  {
    AllOfOneMore(known, appends, k);
  }

  /** What a log that held `initial` has come to after `k` appends. */
  ghost predicate LogAt(codec: Codec, initial: Text, appends: seq<Append>, k: nat, content: Text, from: nat)
    requires k <= |appends|
  {
    var all := AllOf(Records(codec, initial), appends[..k]);
    AllFaithful(codec, all) && HoldsNewest(codec, initial, all, content, from)
  }

  lemma LogAtStart(codec: Codec, initial: Text, appends: seq<Append>)
    requires AllFaithful(codec, Records(codec, initial))
    ensures LogAt(codec, initial, appends, 0, initial, 0)
  {
    assert AllOf(Records(codec, initial), appends[..0]) == Records(codec, initial);
    assert initial + Render(codec, []) == initial;
  }

  lemma LogAtNext(codec: Codec, cap: nat, initial: Text, appends: seq<Append>, k: nat, before: Text, from: nat, after: Text)
    returns (next: nat)
    requires k < |appends| && AtBoundary(initial) && Valid(initial) && WholeAndFaithful(codec, appends)
    requires LogAt(codec, initial, appends, k, before, from) && Appends(codec, cap, before, appends[k], after)
    ensures LogAt(codec, initial, appends, k + 1, after, next)
  {
    var known := Records(codec, initial);
    NextIsFaithful(codec, known, appends, k);
    next := OneMoreAppend(codec, cap, initial, AllOf(known, appends[..k]), before, from, appends[k], after);
    AllOfOneMore(known, appends, k);
  }

  lemma RunKeepsLog(codec: Codec, cap: nat, appends: seq<Append>, run: seq<Text>, k: nat) returns (from: nat)
    requires IsRun(codec, cap, appends, run) && k <= |appends| && AtBoundary(run[0]) && Valid(run[0])
    requires WholeAndFaithful(codec, appends) && AllFaithful(codec, Records(codec, run[0]))
    ensures LogAt(codec, run[0], appends, k, run[k], from)
  {
    from := 0;
    LogAtStart(codec, run[0], appends);
    for i := 0 to k
      invariant LogAt(codec, run[0], appends, i, run[i], from)
    {
      RunAppends(codec, cap, appends, run, i);
      from := LogAtNext(codec, cap, run[0], appends, i, run[i], from, run[i + 1]);
    }
  }

  /** In every run of whole appends to a log that is UTF-8 and at a boundary, whatever it held before
      and rotations that fail included, the records loaded are an end piece of all its records, in
      order, the newest among them: nothing is reordered, altered or lost from the middle. */
  lemma LogHoldsNewest(codec: Codec, cap: nat, appends: seq<Append>, run: seq<Text>, k: nat) returns (from: nat)
    requires IsRun(codec, cap, appends, run) && k <= |appends| && AtBoundary(run[0]) && Valid(run[0])
    requires WholeAndFaithful(codec, appends) && AllFaithful(codec, Load(codec, run[0]))
    ensures var all := AllOf(Load(codec, run[0]), appends[..k]);
            HoldsNewest(codec, run[0], all, run[k], from) && Valid(run[k]) && Load(codec, run[k]) == all[from..]
  {
    from := RunKeepsLog(codec, cap, appends, run, k);
    var all := AllOf(Records(codec, run[0]), appends[..k]);
    HeldIsValid(codec, run[0], all, run[k], from);
    HeldReadsBack(codec, run[0], all, run[k], from);
  }

  lemma EndPieceIsShort(codec: Codec, known: seq<VerdictRecord>, appends: seq<Append>, k: nat, from: nat, longest: nat)
    requires k < |appends| && from <= |AllOf(known, appends[..k])| && LinesAtMost(codec, AllOf(known, appends), longest)
    ensures LinesAtMost(codec, AllOf(known, appends[..k])[from..], longest) && |LineOf(codec, appends[k].record)| <= longest
  {
    var all := AllOf(known, appends);
    assert AllOf(known, appends[..k]) == all[..|known| + k];
    assert all[|known| + k] == appends[k].record;
  }

  /** In every such run the log has at most max(cap, L) + L bytes after each append whose rotation
      works, where L bounds the lines of all its records. */
  lemma LogIsBounded(codec: Codec, cap: nat, appends: seq<Append>, run: seq<Text>, k: nat, longest: nat)
    requires IsRun(codec, cap, appends, run) && 0 < k <= |appends| && appends[k - 1].works
    requires AtBoundary(run[0]) && Valid(run[0])
    requires WholeAndFaithful(codec, appends) && AllFaithful(codec, Load(codec, run[0]))
    requires LinesAtMost(codec, AllOf(Load(codec, run[0]), appends), longest)
    ensures |run[k]| <= Max(cap, longest) + longest
  {
    var from := LogHoldsNewest(codec, cap, appends, run, k - 1);
    EndPieceIsShort(codec, Load(codec, run[0]), appends, k - 1, from, longest);
    RunAppends(codec, cap, appends, run, k - 1);
    AppendIsBounded(codec, cap, run[k - 1], appends[k - 1], run[k], longest);
  }

  /** All that some appends write. */
  function Written(codec: Codec, appends: seq<Append>): Text {
    if appends == [] then [] else Written(codec, appends[..|appends| - 1]) + Piece(codec, appends[|appends| - 1])
  }

  lemma UncutAppend(codec: Codec, cap: nat, before: Text, a: Append, after: Text)
    requires Appends(codec, cap, before, a, after) && |before| <= cap
    ensures after == before + Piece(codec, a)
  {}

  lemma WrittenOneMore(codec: Codec, appends: seq<Append>, k: nat)
    requires k < |appends|
    ensures Written(codec, appends[..k + 1]) == Written(codec, appends[..k]) + Piece(codec, appends[k])
  {
    assert appends[..k + 1][..k] == appends[..k];
  }

  /** Nothing is dropped, from whatever contents on, while the log has not outgrown its cap. */
  lemma {:induction false} NothingDroppedWithinCap(codec: Codec, cap: nat, appends: seq<Append>, run: seq<Text>, k: nat)
    requires IsRun(codec, cap, appends, run) && k <= |appends|
    requires k > 0 ==> |run[0]| + |Written(codec, appends[..k - 1])| <= cap
    ensures run[k] == run[0] + Written(codec, appends[..k])
  {
    if k == 0 {
      assert run[0] + [] == run[0];
    } else {
      WrittenOneMore(codec, appends, k - 1);
      if k > 1 {
        WrittenOneMore(codec, appends, k - 2);
      }
      NothingDroppedWithinCap(codec, cap, appends, run, k - 1);
      RunAppends(codec, cap, appends, run, k - 1);
      UncutAppend(codec, cap, run[k - 1], appends[k - 1], run[k]);
      Associate(run[0], Written(codec, appends[..k - 1]), Piece(codec, appends[k - 1]));
    }
  }

  // ----- Logs that are not UTF-8 --------------------------------------------------------------------

  ghost predicate FaithfulAppends(codec: Codec, appends: seq<Append>) {
    forall a :: a in appends ==> Faithful(codec, a.record)
  }

  lemma PieceStarts(codec: Codec, a: Append)
    requires Faithful(codec, a.record)
    ensures Piece(codec, a) == [] || (Piece(codec, a)[0] == BRACE && !Continuation(BRACE))
    ensures Piece(codec, a) == [] <==> a.written == 0
  {
    assert LineOf(codec, a.record)[0] == BRACE;
  }

  /** An append to a valid log leaves it valid iff it is whole or torn between two characters. */
  lemma TearIsCleanIff(codec: Codec, content: Text, a: Append)
    requires Valid(content) && Faithful(codec, a.record)
    ensures Valid(content + Piece(codec, a)) <==> Whole(codec, a) || !Continuation(LineOf(codec, a.record)[a.written])
  {
    PieceStarts(codec, a);
    ValidOfParts(content, Piece(codec, a));
    LineIsValid(codec, a.record);
    if !Whole(codec, a) {
      CutIsValidIff(LineOf(codec, a.record), a.written);
    }
  }

  lemma UnreadableStays(codec: Codec, cap: nat, before: Text, a: Append, after: Text)
    requires Appends(codec, cap, before, a, after) && !Valid(before) && Faithful(codec, a.record)
    ensures !Valid(after) && after == before + Piece(codec, a)
  {
    PieceStarts(codec, a);
    ValidOfParts(before, Piece(codec, a));
  }

  lemma WrittenOneMoreFrom(codec: Codec, appends: seq<Append>, i: nat, j: nat)
    requires i <= j < |appends|
    ensures Written(codec, appends[i..j + 1]) == Written(codec, appends[i..j]) + Piece(codec, appends[j])
  {
    assert appends[i..j + 1][..j - i] == appends[i..j];
  }

  /** Not UTF-8, and with every piece since the `i`-th append. */
  ghost predicate Grown(codec: Codec, appends: seq<Append>, i: nat, j: nat, from: Text, content: Text)
    requires i <= j <= |appends|
  {
    !Valid(content) && content == from + Written(codec, appends[i..j])
  }

  lemma GrownStart(codec: Codec, appends: seq<Append>, i: nat, content: Text)
    requires i <= |appends| && !Valid(content)
    ensures Grown(codec, appends, i, i, content, content)
  {
    assert appends[i..i] == [] && content + [] == content;
  }

  lemma GrownNext(codec: Codec, cap: nat, appends: seq<Append>, i: nat, j: nat, from: Text, content: Text, next: Text)
    requires i <= j < |appends| && FaithfulAppends(codec, appends) && Grown(codec, appends, i, j, from, content)
    requires Appends(codec, cap, content, appends[j], next)
    ensures Grown(codec, appends, i, j + 1, from, next)
  {
    UnreadableStays(codec, cap, content, appends[j], next);
    WrittenOneMoreFrom(codec, appends, i, j);
    Associate(from, Written(codec, appends[i..j]), Piece(codec, appends[j]));
  }

  /** Once the log is not UTF-8 it never is again: every later load gives nothing, and nothing is ever
      cut, so that it grows by all that is written. */
  lemma UnreadableForever(codec: Codec, cap: nat, appends: seq<Append>, run: seq<Text>, i: nat, j: nat)
    requires IsRun(codec, cap, appends, run) && FaithfulAppends(codec, appends) && i <= j <= |appends| && !Valid(run[i])
    ensures !Valid(run[j]) && Load(codec, run[j]) == [] && run[j] == run[i] + Written(codec, appends[i..j])
  {
    GrownStart(codec, appends, i, run[i]);
    for k := i to j
      invariant Grown(codec, appends, i, k, run[i], run[k])
    {
      RunAppends(codec, cap, appends, run, k);
      GrownNext(codec, cap, appends, i, k, run[i], run[k], run[k + 1]);
    }
  }

  /** A run that gets there: a line with a character outside ASCII, torn inside it, then a whole one. The
      log ends at a line boundary and loads as nothing. */
  lemma UnreadableAfterTear(codec: Codec, cap: nat, wide: VerdictRecord, next: VerdictRecord)
    returns (appends: seq<Append>, run: seq<Text>)
    requires Faithful(codec, wide) && Faithful(codec, next)
    requires exists c :: c in DecodeLossy(codec.toJson(wide)) && c >= 0x80
    ensures IsRun(codec, cap, appends, run) && run[0] == [] && |run| == 3
    ensures appends[0].record == wide && appends[1].record == next && Whole(codec, appends[1])
    ensures AtBoundary(run[2]) && Load(codec, run[2]) == []
  {
    var json := codec.toJson(wide);
    var n := WideCanBeCut(DecodeLossy(json));
    var torn, whole := Append(wide, true, n), Append(next, true, |LineOf(codec, next)|);
    assert LineOf(codec, wide)[n] == json[n];
    EncodedIsValid([]);
    TearIsCleanIff(codec, [], torn);
    var piece := Piece(codec, torn);
    assert [] + piece == piece && RotatedAs(codec, cap, [], true, []) && RotatedAs(codec, cap, piece, true, piece);
    UnreadableStays(codec, cap, piece, whole, piece + Piece(codec, whole));
    appends, run := [torn, whole], [[], piece, piece + Piece(codec, whole)];
  }
}
