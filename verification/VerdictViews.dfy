/** What a reader of the verdict log (crates/agent-runtime/src/evolution_log.rs) sees over any run of
    appends, torn ones included: the bytes refine a list of records with four ways to end. */
module VerdictViews {
  import opened Wrappers
  import opened Sequences
  import opened Utf8
  import opened VerdictRecords
  import opened VerdictLog

  // ----- The view -----------------------------------------------------------------------

  /** How the log ends: at a line boundary; in a whole record without its newline; in an unreadable
      piece of a line; or anyhow, when it is not UTF-8. */
  datatype Ending = Clean | Complete(last: VerdictRecord) | Broken | Lost

  /** What loading gives, and how the log ends. */
  datatype View = View(records: seq<VerdictRecord>, ending: Ending)

  /** After a write. A tear inside a character loses everything; a tear elsewhere costs its own record and
      the next one written, and a tear just before the newline costs both once anything is written. */
  ghost function Took(codec: Codec, v: View, a: Append): View {
    if v.ending.Lost? || a.written == 0 then v
    else if !Valid(Piece(codec, a)) then View([], Lost)
    else
      var ends := if Whole(codec, a) then Clean else Broken;
      match v.ending
      case Clean =>
        if a.written < |codec.toJson(a.record)| then View(v.records, Broken)
        else View(v.records + [a.record], if Whole(codec, a) then Clean else Complete(a.record))
      case Complete(_) => View(if v.records == [] then [] else v.records[..|v.records| - 1], ends)
      case Broken => View(v.records, ends)
  }

  ghost predicate Cuts(codec: Codec, cap: nat, v: View, start: nat) {
    start <= |v.records| && KeepsFrom(codec, v.records, cap / 2, start)
  }

  /** One append. A rotation that cuts drops an unreadable piece and completes a complete one. */
  ghost predicate Steps(codec: Codec, cap: nat, v: View, oversized: bool, a: Append, v': View) {
    if oversized && a.works && !v.ending.Lost? then
      exists start: nat :: Cuts(codec, cap, v, start) && v' == Took(codec, View(v.records[start..], Clean), a)
    else v' == Took(codec, v, a)
  }

  ghost predicate IsCut(codec: Codec, p: Text, r: VerdictRecord, n: nat) {
    Faithful(codec, r) && 0 < n <= |codec.toJson(r)| && p == codec.toJson(r)[..n]
  }

  /** The piece of a torn append. */
  lemma PieceOfJson(codec: Codec, a: Append)
    requires Faithful(codec, a.record) && !Whole(codec, a)
    ensures Piece(codec, a) == codec.toJson(a.record)[..a.written] && NEWLINE !in Piece(codec, a)
    ensures 0 < a.written ==> IsCut(codec, Piece(codec, a), a.record, a.written)
  {
    var json := codec.toJson(a.record);
    assert LineOf(codec, a.record)[..a.written] == json[..a.written];
  }

  /** Whatever follows a tear, a record is added to those loaded iff the log ended at a boundary and all of
      the record was written, its newline excepted. */
  lemma TakenIff(codec: Codec, v: View, a: Append)
    requires Faithful(codec, a.record)
    ensures Took(codec, v, a).records == v.records + [a.record] <==>
            v.ending.Clean? && a.written >= |codec.toJson(a.record)|
  {
    LineIsValid(codec, a.record);
    if !Whole(codec, a) {
      PieceOfJson(codec, a);
      assert codec.toJson(a.record)[..|codec.toJson(a.record)|] == codec.toJson(a.record);
    }
  }

  /** A tear between two characters costs the torn record and the next one that is written, and no more. */
  lemma TearCostsTwo(codec: Codec, v: View, torn: Append, next: Append)
    requires v.ending.Clean? && Faithful(codec, next.record) && Whole(codec, next)
    requires 0 < torn.written < |codec.toJson(torn.record)| && Valid(Piece(codec, torn))
    ensures Took(codec, Took(codec, v, torn), next) == View(v.records, Clean)
  {
    LineIsValid(codec, next.record);
  }

  // ----- Unreadable pieces -----------------------------------------------------------------

  /** The beginning of a printed record, or all of it. */
  ghost predicate IsPiece(codec: Codec, p: Text) {
    exists r, n: nat :: IsCut(codec, p, r, n)
  }

  /** The beginning of a printed record. */
  ghost predicate IsTorn(codec: Codec, p: Text) {
    exists r, n: nat :: IsCut(codec, p, r, n) && n < |codec.toJson(r)|
  }

  ghost predicate AreRunOn(codec: Codec, pieces: seq<Text>) {
    |pieces| > 0 && (forall p :: p in pieces ==> IsPiece(codec, p)) && (|pieces| == 1 ==> IsTorn(codec, pieces[0]))
  }

  /** What torn appends leave of a line: one torn piece, or several pieces run together. */
  ghost predicate IsFragment(codec: Codec, line: Text) {
    exists pieces: seq<Text> :: AreRunOn(codec, pieces) && line == Flatten(pieces)
  }

  /** No fragment is a record, as is the case for printed JSON objects. */
  ghost predicate Tight(codec: Codec) {
    forall line :: IsFragment(codec, line) ==> RecordOf(codec, line) == []
  }

  lemma TornIsFragment(codec: Codec, p: Text)
    requires IsTorn(codec, p)
    ensures IsFragment(codec, p)
  {
    FlattenOne(p);
    assert AreRunOn(codec, [p]);
  }

  lemma FragmentGrows(codec: Codec, line: Text, p: Text)
    requires IsFragment(codec, line) && IsPiece(codec, p)
    ensures IsFragment(codec, line + p)
  {
    var pieces: seq<Text> :| AreRunOn(codec, pieces) && line == Flatten(pieces);
    FlattenOneMore(pieces, p);
    assert AreRunOn(codec, pieces + [p]);
  }

  lemma WholePiece(codec: Codec, r: VerdictRecord)
    requires Faithful(codec, r)
    ensures IsPiece(codec, codec.toJson(r))
  {
    var json := codec.toJson(r);
    assert json[..|json|] == json && IsCut(codec, json, r, |json|);
  }

  lemma TwoRunOn(codec: Codec, p: Text, q: Text)
    requires IsPiece(codec, p) && IsPiece(codec, q)
    ensures AreRunOn(codec, [p] + [q]) && Flatten([p] + [q]) == p + q
  {
    FlattenOne(p);
    FlattenOneMore([p], q);
  }

  lemma CompleteGrows(codec: Codec, r: VerdictRecord, p: Text)
    requires Faithful(codec, r) && IsPiece(codec, p)
    ensures IsFragment(codec, codec.toJson(r) + p)
  {
    WholePiece(codec, r);
    TwoRunOn(codec, codec.toJson(r), p);
  }

  // ----- What the bytes of a view look like ---------------------------------------------------

  ghost predicate EndsAs(codec: Codec, tail: Text, ending: Ending) {
    match ending
    case Clean => tail == []
    case Complete(r) => Faithful(codec, r) && tail == codec.toJson(r)
    case Broken => IsFragment(codec, tail)
    case Lost => false
  }

  /** The contents load as the records of the view and end as it says. */
  ghost predicate Shows(codec: Codec, content: Text, v: View) {
    Load(codec, content) == v.records && AllFaithful(codec, v.records) &&
    if v.ending.Lost? then !Valid(content) else Valid(content) && EndsAs(codec, Tail(content), v.ending)
  }

  /** Any log at a line boundary has a view, and so has any log that is not UTF-8. */
  lemma BoundaryShows(codec: Codec, content: Text)
    requires AllFaithful(codec, Load(codec, content)) && (AtBoundary(content) || !Valid(content))
    ensures Shows(codec, content, View(Load(codec, content), if Valid(content) then Clean else Lost))
  {
    if AtBoundary(content) {
      NoTailAtBoundary(content);
    }
  }

  /** The record an ending holds, if it holds one. */
  ghost function Ended(ending: Ending): seq<VerdictRecord> {
    if ending.Complete? then [ending.last] else []
  }

  lemma EndingReads(codec: Codec, tail: Text, ending: Ending)
    requires Tight(codec) && EndsAs(codec, tail, ending)
    ensures RecordOf(codec, tail) == Ended(ending)
  {}

  /** The tail after a piece: run on, unless there was none. */
  lemma GrownTail(codec: Codec, tail: Text, ending: Ending, p: Text)
    requires EndsAs(codec, tail, ending) && !ending.Clean? && IsPiece(codec, p)
    ensures IsFragment(codec, tail + p)
  {
    match ending
    case Complete(r) => CompleteGrows(codec, r, p);
    case Broken => FragmentGrows(codec, tail, p);
  }

  /** The records before the unfinished line, in terms of the view. */
  lemma RecordsOfHead(codec: Codec, content: Text, v: View)
    requires Tight(codec) && Shows(codec, content, v) && !v.ending.Lost?
    ensures Records(codec, Head(content)) + Ended(v.ending) == v.records
  {
    RecordsFromBoundary(codec, Head(content), Tail(content));
    RecordsOfTail(codec, Tail(content));
    EndingReads(codec, Tail(content), v.ending);
  }

  // ----- Writing ---------------------------------------------------------------------------

  lemma UnreadableShows(codec: Codec, content: Text, v: View, a: Append)
    requires Shows(codec, content, v) && Faithful(codec, a.record)
    requires v.ending.Lost? || !Valid(Piece(codec, a))
    ensures !Valid(content + Piece(codec, a))
  {
    PieceStarts(codec, a);
    ValidOfParts(content, Piece(codec, a));
  }

  lemma WholeShows(codec: Codec, content: Text, v: View, a: Append)
    requires Tight(codec) && Shows(codec, content, v) && !v.ending.Lost? && Faithful(codec, a.record) && Whole(codec, a)
    ensures Shows(codec, content + Piece(codec, a), Took(codec, v, a))
  {
    var r, head, tail := a.record, Head(content), Tail(content);
    var line := tail + codec.toJson(r);
    RecordsOfHead(codec, content, v);
    AppendMeans(codec, head, tail, r);
    LineIsValid(codec, r);
    LineAfterIsValidIff(codec, content, r);
    if v.ending.Clean? {
      NoTailReadsBack(codec, tail, r);
    } else {
      WholePiece(codec, r);
      GrownTail(codec, tail, v.ending, codec.toJson(r));
    }
    NoTailAtBoundary(content + LineOf(codec, r));
  }

  /** The ending after a torn piece. */
  lemma TornEndsAs(codec: Codec, tail: Text, v: View, a: Append)
    requires EndsAs(codec, tail, v.ending) && Faithful(codec, a.record) && !Whole(codec, a) && 0 < a.written && Valid(Piece(codec, a))
    ensures EndsAs(codec, tail + Piece(codec, a), Took(codec, v, a).ending)
  {
    var piece := Piece(codec, a);
    PieceOfJson(codec, a);
    if v.ending.Clean? {
      assert tail + piece == piece;
      if a.written < |codec.toJson(a.record)| {
        TornIsFragment(codec, piece);
      } else {
        assert codec.toJson(a.record)[..a.written] == codec.toJson(a.record);
      }
    } else {
      GrownTail(codec, tail, v.ending, piece);
    }
  }

  lemma TornShows(codec: Codec, content: Text, v: View, a: Append)
    requires Tight(codec) && Shows(codec, content, v) && !v.ending.Lost? && Faithful(codec, a.record)
    requires !Whole(codec, a) && 0 < a.written && Valid(Piece(codec, a))
    ensures Shows(codec, content + Piece(codec, a), Took(codec, v, a))
  {
    var head, tail, piece := Head(content), Tail(content), Piece(codec, a);
    PieceOfJson(codec, a);
    RecordsOfHead(codec, content, v);
    TornEndsAs(codec, tail, v, a);
    EndingReads(codec, tail + piece, Took(codec, v, a).ending);
    Associate(head, tail, piece);
    TailOfParts(head, tail + piece);
    RecordsFromBoundary(codec, head, tail + piece);
    RecordsOfTail(codec, tail + piece);
    BothAreValid(content, piece);
  }

  /** Writing any piece of a line does to the bytes what the view says. */
  lemma WritingShows(codec: Codec, content: Text, v: View, a: Append)
    requires Tight(codec) && Shows(codec, content, v) && Faithful(codec, a.record)
    ensures Shows(codec, content + Piece(codec, a), Took(codec, v, a))
  {
    PieceStarts(codec, a);
    if v.ending.Lost? || !Valid(Piece(codec, a)) {
      UnreadableShows(codec, content, v, a);
    } else if a.written == 0 {
      assert content + Piece(codec, a) == content;
    } else if Whole(codec, a) {
      WholeShows(codec, content, v, a);
    } else {
      TornShows(codec, content, v, a);
    }
  }

  // ----- Runs --------------------------------------------------------------------------------

  /** From one view of the log to the next. */
  ghost predicate Moves(codec: Codec, cap: nat, before: Text, v: View, a: Append, after: Text, v': View) {
    Steps(codec, cap, v, |before| > cap, a, v') && Shows(codec, after, v')
  }

  lemma AppendShows(codec: Codec, cap: nat, before: Text, v: View, a: Append, after: Text) returns (v': View)
    requires Tight(codec) && Shows(codec, before, v) && Faithful(codec, a.record) && Appends(codec, cap, before, a, after)
    ensures Moves(codec, cap, before, v, a, after, v')
  {
    var rotated :| RotatedAs(codec, cap, before, a.works, rotated) && after == rotated + Piece(codec, a);
    var mid := v;
    if |before| > cap && a.works && !v.ending.Lost? {
      var start := RotationHeals(codec, cap, before, rotated);
      mid := View(v.records[start..], Clean);
      assert Cuts(codec, cap, v, start);
      BoundaryShows(codec, rotated);
    }
    v' := Took(codec, mid, a);
    WritingShows(codec, rotated, mid, a);
  }

  /** `views` are what the log shows at first and after each of the first appends, one from the other. */
  ghost predicate Follows(codec: Codec, cap: nat, appends: seq<Append>, run: seq<Text>, views: seq<View>)
    requires |run| == |appends| + 1
  {
    0 < |views| <= |run| &&
    var k := |views| - 1;
    if k == 0 then Shows(codec, run[0], views[0])
    else Follows(codec, cap, appends, run, views[..k]) && Moves(codec, cap, run[k - 1], views[k - 1], appends[k - 1], run[k], views[k])
  }

  lemma LastShows(codec: Codec, cap: nat, appends: seq<Append>, run: seq<Text>, views: seq<View>, k: nat)
    requires |run| == |appends| + 1 && Follows(codec, cap, appends, run, views) && |views| == k + 1
    ensures Shows(codec, run[k], views[k])
  {}

  lemma FollowsBefore(codec: Codec, cap: nat, appends: seq<Append>, run: seq<Text>, views: seq<View>, k: nat)
    requires |run| == |appends| + 1 && Follows(codec, cap, appends, run, views) && |views| == k + 1 && k > 0
    ensures Follows(codec, cap, appends, run, views[..k])
  {}

  lemma FollowsShows(codec: Codec, cap: nat, appends: seq<Append>, run: seq<Text>, views: seq<View>, k: nat)
    requires |run| == |appends| + 1 && Follows(codec, cap, appends, run, views) && k < |views|
    ensures Shows(codec, run[k], views[k])
  {
    var part := views;
    while |part| > k + 1
      invariant k < |part| <= |views| && part[k] == views[k] && Follows(codec, cap, appends, run, part)
      decreases |part|
    {
      var n := |part| - 1;
      FollowsBefore(codec, cap, appends, run, part, n);
      part := part[..n];
    }
    LastShows(codec, cap, appends, run, part, k);
  }

  lemma FollowsOneMore(codec: Codec, cap: nat, appends: seq<Append>, run: seq<Text>, views: seq<View>, k: nat, next: View)
    requires |run| == |appends| + 1 && Follows(codec, cap, appends, run, views) && |views| == k + 1 < |run|
    requires Moves(codec, cap, run[k], views[k], appends[k], run[k + 1], next)
    ensures Follows(codec, cap, appends, run, views + [next])
  {
    assert (views + [next])[..k + 1] == views;
  }

  lemma ViewAfter(codec: Codec, cap: nat, appends: seq<Append>, run: seq<Text>, views: seq<View>, k: nat) returns (next: View)
    requires IsRun(codec, cap, appends, run) && FaithfulAppends(codec, appends) && Tight(codec)
    requires Follows(codec, cap, appends, run, views) && |views| == k + 1 < |run|
    ensures Follows(codec, cap, appends, run, views + [next])
  {
    RunAppends(codec, cap, appends, run, k);
    FollowsShows(codec, cap, appends, run, views, k);
    next := AppendShows(codec, cap, run[k], views[k], appends[k], run[k + 1]);
    FollowsOneMore(codec, cap, appends, run, views, k, next);
  }

  /** In every run of appends, whole or torn anywhere, rotations that fail included, from any contents with
      a view: the log goes through exactly the views the steps say, and loads as their records. */
  lemma LogFollowsView(codec: Codec, cap: nat, appends: seq<Append>, run: seq<Text>, v: View) returns (views: seq<View>)
    requires IsRun(codec, cap, appends, run) && FaithfulAppends(codec, appends)
    requires Tight(codec) && Shows(codec, run[0], v)
    ensures |views| == |run| && views[0] == v && Follows(codec, cap, appends, run, views)
    ensures forall i :: 0 <= i < |run| ==> Load(codec, run[i]) == views[i].records
  {
    views := [v];
    for k := 0 to |appends|
      invariant |views| == k + 1 && views[0] == v && Follows(codec, cap, appends, run, views)
    {
      var next := ViewAfter(codec, cap, appends, run, views, k);
      views := views + [next];
    }
    forall i | 0 <= i < |run| ensures Load(codec, run[i]) == views[i].records {
      FollowsShows(codec, cap, appends, run, views, i);
    }
  }
}
