/** The callback bridge (crates/agent-runtime/src/callback_bridge.rs).

    The executor calls the bridge as it streams a model reply and runs tools; the
    bridge forwards events to the host. A transparent retry replays a stream, so
    the bridge must hide what was already announced; tool ends carry no id, so it
    must pair each end with its start. The specification below is a function from
    one call to the events it causes; the class at the end is the bridge itself. */
module CallbackBridge {
  import opened Wrappers
  import opened Sequences
  import opened Texts

  // ----- Calls and events ------------------------------------------------------

  type Json = string

  datatype Kind = MessageBlock | ThinkingBlock

  datatype StreamDelta =
    | Content(kind: Kind, index: nat, content: string)
    | Started(kind: Kind, index: nat)
    | Complete(kind: Kind, index: nat)
    | ToolAnnounced(id: string, name: string, input: Json)

  datatype Outcome =
    | Succeeded(output: string, success: bool)
    | PermissionDenied(message: string)
    | OtherError(message: string)

  datatype Call =
    | ToolStart(id: string, name: string, input: Json)
    | ToolEnd(name: string, outcome: Outcome)
    | Stream(delta: StreamDelta)
    | LlmStart(summary: string)

  datatype Event =
    | BlockContent(kind: Kind, index: nat, content: string)
    | BlockStarted(kind: Kind, index: nat)
    | BlockComplete(kind: Kind, index: nat)
    | ToolCallStarted(id: string, name: string, input: Json)
    | ToolCallComplete(id: string, name: string, outcome: Outcome)
    | Status(tool: string, intent: string)
    | LlmRequest(summary: string)

  datatype Hook =
    | Before(name: string, input: Json)
    | After(name: string, input: Json, outcome: Outcome)

  const NULL: Json := "null"
  const UNPAIRED: string := "bridge-?"

  datatype Pending = Pending(id: string, name: string, input: Json)

  datatype Bridge = Bridge(
    announced: set<string>,
    startedBlocks: set<(Kind, nat)>,
    completedBlocks: set<(Kind, nat)>,
    pending: seq<Pending>
  )

  const FRESH := Bridge({}, {}, {}, [])

  // ----- One call ----------------------------------------------------------------

  predicate Mentions(s: string, phrase: string) {
    Find(s, phrase, 0).Some?
  }

  /** The mode switch a refused mode-gated call was after; only the gate's own refusal counts. */
  function ModeGateRefusal(tool: string, outcome: Outcome): Option<string> {
    var intent := if tool == "enter_plan_mode" || tool == "write_plan_file" then Some("enter plan mode")
                  else if tool == "exit_plan_mode" then Some("leave plan mode") else None;
    if outcome.PermissionDenied? && Mentions(LowerAscii(outcome.message), "plan mode") then intent else None
  }

  /** A switch is reported iff the tool is mode-gated and the refusal is the gate's own, and as the switch
      that tool makes. */
  lemma RefusalIff(tool: string, outcome: Outcome)
    ensures ModeGateRefusal(tool, outcome).Some? <==>
            tool in {"enter_plan_mode", "write_plan_file", "exit_plan_mode"} && outcome.PermissionDenied? &&
            exists k: nat :: StandsAt(LowerAscii(outcome.message), k, "plan mode")
    ensures ModeGateRefusal(tool, outcome).Some? ==>
            ModeGateRefusal(tool, outcome).value == if tool == "exit_plan_mode" then "leave plan mode" else "enter plan mode"
  {
    if outcome.PermissionDenied? {
      FindMeans(LowerAscii(outcome.message), "plan mode", 0);
    }
  }

  function Popped(pending: seq<Pending>): (seq<Pending>, Pending) {
    if pending == [] then ([], Pending(UNPAIRED, "", NULL)) else (pending[..|pending| - 1], pending[|pending| - 1])
  }

  function Announce(b: Bridge, id: string, name: string, input: Json): (Bridge, seq<Event>) {
    (b.(announced := b.announced + {id}), if id in b.announced then [] else [ToolCallStarted(id, name, input)])
  }

  function OnDelta(b: Bridge, d: StreamDelta): (Bridge, seq<Event>) {
    match d
    case Content(kind, index, content) => (b, [BlockContent(kind, index, content)])
    case Started(kind, index) =>
      (b.(startedBlocks := b.startedBlocks + {(kind, index)}),
       if (kind, index) in b.startedBlocks then [] else [BlockStarted(kind, index)])
    case Complete(kind, index) =>
      (b.(completedBlocks := b.completedBlocks + {(kind, index)}),
       if (kind, index) in b.completedBlocks then [] else [BlockComplete(kind, index)])
    case ToolAnnounced(id, name, input) => Announce(b, id, name, input)
  }

  /** The bridge after one call and the events the call causes. */
  function OnCall(b: Bridge, c: Call): (Bridge, seq<Event>) {
    match c
    case ToolStart(id, name, input) => Announce(b.(pending := b.pending + [Pending(id, name, input)]), id, name, input)
    case ToolEnd(name, outcome) =>
      var (rest, top) := Popped(b.pending);
      var refusal := ModeGateRefusal(name, outcome);
      (b.(pending := rest),
       [ToolCallComplete(top.id, name, outcome)] + if refusal.Some? then [Status(name, refusal.value)] else [])
    case Stream(d) => OnDelta(b, d)
    case LlmStart(summary) =>
      (b.(startedBlocks := {}, completedBlocks := {}, pending := []), [LlmRequest(summary)])
  }

  /** The hook executions the call causes. */
  function HooksOn(b: Bridge, c: Call): seq<Hook> {
    match c
    case ToolStart(_, name, input) => [Before(name, input)]
    case ToolEnd(name, outcome) => [After(name, Popped(b.pending).1.input, outcome)]
    case _ => []
  }

  /** The bridge `b` after a whole list of calls. */
  function StateAfter(calls: seq<Call>, b: Bridge): Bridge {
    if calls == [] then b else OnCall(StateAfter(calls[..|calls| - 1], b), calls[|calls| - 1]).0
  }

  /** All events a list of calls causes from `b` on, in order. */
  function Trace(calls: seq<Call>, b: Bridge): seq<Event> {
    if calls == [] then []
    else Trace(calls[..|calls| - 1], b) + OnCall(StateAfter(calls[..|calls| - 1], b), calls[|calls| - 1]).1
  }

  // ----- Each tool id is announced at most once -------------------------------------

  /** The announcement of `id` a call asks for, at stream time or at execution time. */
  function RequestedBy(c: Call, id: string): seq<Event> {
    match c
    case ToolStart(i, name, input) => if i == id then [ToolCallStarted(i, name, input)] else []
    case Stream(ToolAnnounced(i, name, input)) => if i == id then [ToolCallStarted(i, name, input)] else []
    case _ => []
  }

  function Requested(calls: seq<Call>, id: string): seq<Event> {
    if calls == [] then [] else Requested(calls[..|calls| - 1], id) + RequestedBy(calls[|calls| - 1], id)
  }

  function Announcements(events: seq<Event>, id: string): seq<Event> {
    if events == [] then []
    else Announcements(events[..|events| - 1], id) +
         var e := events[|events| - 1];
         if e.ToolCallStarted? && e.id == id then [e] else []
  }

  function FirstOnly<T>(s: seq<T>): seq<T> {
    if s == [] then [] else [s[0]]
  }

  lemma {:induction false} AnnouncementsOfParts(a: seq<Event>, b: seq<Event>, id: string)
    ensures Announcements(a + b, id) == Announcements(a, id) + Announcements(b, id)
  {
    if b == [] {
      assert a + b == a;
    } else {
      AnnouncementsOfParts(a, b[..|b| - 1], id);
      assert (a + b)[..|a + b| - 1] == a + b[..|b| - 1];
    }
  }

  lemma {:induction false} NoAnnouncements(events: seq<Event>, id: string)
    requires forall e :: e in events ==> !(e.ToolCallStarted? && e.id == id)
    ensures Announcements(events, id) == []
  {
    if events != [] {
      NoAnnouncements(events[..|events| - 1], id);
    }
  }

  lemma AnnouncementsOfCall(b: Bridge, c: Call, id: string)
    ensures Announcements(OnCall(b, c).1, id) == if id in b.announced then [] else RequestedBy(c, id)
    ensures id in OnCall(b, c).0.announced <==> id in b.announced || RequestedBy(c, id) != []
  {
    var events := OnCall(b, c).1;
    if RequestedBy(c, id) != [] && id !in b.announced {
      assert events[..0] == [];
    } else {
      NoAnnouncements(events, id);
    }
  }

  /** Over the bridge's whole life, retries, repeated ids and later steps included, the host sees
      exactly the first announcement of each tool id: one event per id, or none if it was never
      announced or started. */
  lemma {:induction false} AnnouncedOnce(calls: seq<Call>, id: string)
    ensures Announcements(Trace(calls, FRESH), id) == FirstOnly(Requested(calls, id))
    ensures id in StateAfter(calls, FRESH).announced <==> Requested(calls, id) != []
  {
    if calls != [] {
      var init, c := calls[..|calls| - 1], calls[|calls| - 1];
      var b := StateAfter(init, FRESH);
      AnnouncedOnce(init, id);
      AnnouncementsOfCall(b, c, id);
      AnnouncementsOfParts(Trace(init, FRESH), OnCall(b, c).1, id);
      assert Trace(calls, FRESH) == Trace(init, FRESH) + OnCall(b, c).1;
    }
  }

  // ----- A retried stream looks like one stream --------------------------------------

  predicate AboutBlock(e: Event) {
    e.BlockContent? || e.BlockStarted? || e.BlockComplete?
  }

  /** What the host is told about blocks, in order. */
  function Heard(events: seq<Event>): seq<Event> {
    if events == [] then []
    else
      var e := events[|events| - 1];
      Heard(events[..|events| - 1]) + if AboutBlock(e) then [e] else []
  }

  /** The block event a call stands for, before the bridge drops any. */
  function AskedBy(c: Call): Option<Event> {
    match c
    case Stream(Content(kind, index, content)) => Some(BlockContent(kind, index, content))
    case Stream(Started(kind, index)) => Some(BlockStarted(kind, index))
    case Stream(Complete(kind, index)) => Some(BlockComplete(kind, index))
    case _ => None
  }

  function Asked(calls: seq<Call>): seq<Event> {
    if calls == [] then []
    else Asked(calls[..|calls| - 1]) + match AskedBy(calls[|calls| - 1]) case Some(e) => [e] case None => []
  }

  /** The same events less every repeated start and every repeated completion. */
  function WithoutRepeats(events: seq<Event>): seq<Event> {
    if events == [] then []
    else
      var init, e := events[..|events| - 1], events[|events| - 1];
      WithoutRepeats(init) + if !e.BlockContent? && e in init then [] else [e]
  }

  /** The content deltas among some events, in order. */
  function Contents(events: seq<Event>): seq<Event> {
    if events == [] then []
    else
      var e := events[|events| - 1];
      Contents(events[..|events| - 1]) + if e.BlockContent? then [e] else []
  }

  lemma ContentsOfOneMore(events: seq<Event>, e: Event)
    ensures Contents(events + [e]) == Contents(events) + if e.BlockContent? then [e] else []
  {
    assert (events + [e])[..|events|] == events;
  }

  /** Dropping repeats drops no content. */
  lemma {:induction false} ContentsAreKept(events: seq<Event>)
    ensures Contents(WithoutRepeats(events)) == Contents(events)
  {
    if events != [] {
      var init, e := events[..|events| - 1], events[|events| - 1];
      ContentsAreKept(init);
      ContentsOfOneMore(WithoutRepeats(init), e);
      assert WithoutRepeats(init) + [] == WithoutRepeats(init) && Contents(init) + [] == Contents(init);
    }
  }

  lemma {:induction false} HeardOfParts(a: seq<Event>, b: seq<Event>)
    ensures Heard(a + b) == Heard(a) + Heard(b)
  {
    if b == [] {
      assert a + b == a;
    } else {
      HeardOfParts(a, b[..|b| - 1]);
      assert (a + b)[..|a + b| - 1] == a + b[..|b| - 1];
    }
  }

  lemma {:induction false} NothingHeard(events: seq<Event>)
    requires forall e :: e in events ==> !AboutBlock(e)
    ensures Heard(events) == []
  {
    if events != [] {
      NothingHeard(events[..|events| - 1]);
    }
  }

  lemma {:induction false} AskedOfParts(a: seq<Call>, b: seq<Call>)
    ensures Asked(a + b) == Asked(a) + Asked(b)
  {
    if b == [] {
      assert a + b == a;
    } else {
      AskedOfParts(a, b[..|b| - 1]);
      assert (a + b)[..|a + b| - 1] == a + b[..|b| - 1];
    }
  }

  /** The tables hold exactly the starts and completions asked for so far. */
  ghost predicate TablesHold(b: Bridge, events: seq<Event>) {
    (forall p: (Kind, nat) :: p in b.startedBlocks <==> BlockStarted(p.0, p.1) in events) &&
    forall p: (Kind, nat) :: p in b.completedBlocks <==> BlockComplete(p.0, p.1) in events
  }

  lemma WithoutRepeatsExtends(events: seq<Event>, e: Event)
    ensures WithoutRepeats(events + [e]) == WithoutRepeats(events) + if !e.BlockContent? && e in events then [] else [e]
  {}

  /** A call that asks for a block event: the bridge passes it on unless it is a repeat. */
  lemma BlockCall(b: Bridge, c: Call, e: Event, before: seq<Event>)
    requires AskedBy(c) == Some(e) && TablesHold(b, before)
    ensures OnCall(b, c).1 == if !e.BlockContent? && e in before then [] else [e]
    ensures TablesHold(OnCall(b, c).0, before + [e])
  {}

  lemma QuietCall(b: Bridge, c: Call)
    requires AskedBy(c) == None && !c.LlmStart?
    ensures Heard(OnCall(b, c).1) == []
    ensures OnCall(b, c).0.startedBlocks == b.startedBlocks && OnCall(b, c).0.completedBlocks == b.completedBlocks
  {
    NothingHeard(OnCall(b, c).1);
  }

  lemma HeardOne(e: Event)
    ensures Heard([e]) == if AboutBlock(e) then [e] else []
  {}

  lemma SaidOnce(trace: seq<Event>, asked: seq<Event>, said: seq<Event>, e: Event)
    requires Heard(trace) == WithoutRepeats(asked) && AboutBlock(e)
    requires said == if !e.BlockContent? && e in asked then [] else [e]
    ensures Heard(trace + said) == WithoutRepeats(asked + [e])
  {
    HeardOfParts(trace, said);
    HeardOne(e);
    WithoutRepeatsExtends(asked, e);
    if said == [] {
      assert trace + said == trace && WithoutRepeats(asked) + [] == WithoutRepeats(asked);
    }
  }

  lemma SaidNothing(trace: seq<Event>, said: seq<Event>)
    requires Heard(said) == []
    ensures Heard(trace + said) == Heard(trace)
  {
    HeardOfParts(trace, said);
    assert Heard(trace) + [] == Heard(trace);
  }

  lemma OneMoreCall(b: Bridge, c: Call, trace: seq<Event>, asked: seq<Event>)
    requires !c.LlmStart? && TablesHold(b, asked) && Heard(trace) == WithoutRepeats(asked)
    ensures var asked' := if AskedBy(c).Some? then asked + [AskedBy(c).value] else asked;
            Heard(trace + OnCall(b, c).1) == WithoutRepeats(asked') && TablesHold(OnCall(b, c).0, asked')
  {
    if AskedBy(c).Some? {
      BlockCall(b, c, AskedBy(c).value, asked);
      SaidOnce(trace, asked, OnCall(b, c).1, AskedBy(c).value);
    } else {
      QuietCall(b, c);
      SaidNothing(trace, OnCall(b, c).1);
    }
  }

  /** The calls of one LLM step after its start. */
  predicate WithinStep(calls: seq<Call>) {
    forall c :: c in calls ==> !c.LlmStart?
  }

  /** Within one LLM step, whatever was streamed and however often, the host is told exactly what
      was streamed, in that order, less the repeated starts and completions: every content delta
      is forwarded. */
  lemma {:induction false} RetriesAreHidden(calls: seq<Call>, b: Bridge)
    requires WithinStep(calls) && b.startedBlocks == {} && b.completedBlocks == {}
    ensures Heard(Trace(calls, b)) == WithoutRepeats(Asked(calls))
    ensures TablesHold(StateAfter(calls, b), Asked(calls))
  {
    if calls != [] {
      var init, c := calls[..|calls| - 1], calls[|calls| - 1];
      var s := StateAfter(init, b);
      RetriesAreHidden(init, b);
      OneMoreCall(s, c, Trace(init, b), Asked(init));
      assert Asked(calls) == if AskedBy(c).Some? then Asked(init) + [AskedBy(c).value] else Asked(init);
    }
  }

  /** Each step starts with clean tables, whatever happened before it. */
  lemma StepStartsClean(before: seq<Call>, summary: string)
    ensures var b := StateAfter(before + [LlmStart(summary)], FRESH);
            b.startedBlocks == {} && b.completedBlocks == {} && b.pending == []
  {}

  /** Everything said about a block comes after its start: true of a stream and of any prefix of it. */
  ghost predicate StartsFirst(events: seq<Event>) {
    forall j :: 0 <= j < |events| && !events[j].BlockStarted? && AboutBlock(events[j]) ==>
      BlockStarted(events[j].kind, events[j].index) in events[..j]
  }

  lemma StartsFirstOfParts(a: seq<Event>, b: seq<Event>)
    requires StartsFirst(a) && StartsFirst(b)
    ensures StartsFirst(a + b)
  {
    var s := a + b;
    forall j | 0 <= j < |s| && !s[j].BlockStarted? && AboutBlock(s[j])
      ensures BlockStarted(s[j].kind, s[j].index) in s[..j]
    {
      if j < |a| {
        assert s[..j] == a[..j];
      } else {
        assert s[..j] == a + b[..j - |a|];
      }
    }
  }

  lemma {:induction false} AttemptsStartFirst(attempts: seq<seq<Call>>)
    requires forall a :: a in attempts ==> WithinStep(a) && StartsFirst(Asked(a))
    ensures WithinStep(Flatten(attempts)) && StartsFirst(Asked(Flatten(attempts)))
  {
    if attempts != [] {
      var n := |attempts| - 1;
      AttemptsStartFirst(attempts[..n]);
      assert attempts[n] in attempts;
      AskedOfParts(Flatten(attempts[..n]), attempts[n]);
      StartsFirstOfParts(Asked(Flatten(attempts[..n])), Asked(attempts[n]));
    }
  }

  lemma {:induction false} WithoutRepeatsIsOnce(events: seq<Event>)
    ensures forall e :: e in WithoutRepeats(events) <==> e in events
    ensures forall i, j | 0 <= i < j < |WithoutRepeats(events)| && !WithoutRepeats(events)[j].BlockContent? ::
              WithoutRepeats(events)[i] != WithoutRepeats(events)[j]
  {
    if events != [] {
      var n := |events| - 1;
      WithoutRepeatsIsOnce(events[..n]);
      assert events == events[..n] + [events[n]];
    }
  }

  lemma StartsFirstExtends(events: seq<Event>, e: Event)
    requires StartsFirst(events)
    requires AboutBlock(e) && !e.BlockStarted? ==> BlockStarted(e.kind, e.index) in events
    ensures StartsFirst(events + [e])
  {
    var s := events + [e];
    forall j | 0 <= j < |s| && !s[j].BlockStarted? && AboutBlock(s[j])
      ensures BlockStarted(s[j].kind, s[j].index) in s[..j]
    {
      assert s[..j] == events[..j];
      assert events[..|events|] == events;
    }
  }

  lemma {:induction false} WithoutRepeatsStartsFirst(events: seq<Event>)
    requires StartsFirst(events)
    ensures StartsFirst(WithoutRepeats(events))
  {
    if events != [] {
      var init, e := events[..|events| - 1], events[|events| - 1];
      assert StartsFirst(init) by {
        forall j | 0 <= j < |init| ensures init[..j] == events[..j] {}
      }
      WithoutRepeatsStartsFirst(init);
      WithoutRepeatsIsOnce(init);
      StartsFirstExtends(WithoutRepeats(init), e);
      assert WithoutRepeats(init) + [] == WithoutRepeats(init);
    }
  }

  // ----- Content after a completion ------------------------------------------------------------

  predicate IsContentOf(e: Event, kind: Kind, index: nat) {
    e.BlockContent? && e.kind == kind && e.index == index
  }

  /** Content of a block is said after a completion of it. */
  ghost predicate SaidLate(events: seq<Event>, kind: Kind, index: nat) {
    exists i, j :: 0 <= i < j < |events| && events[i] == BlockComplete(kind, index) && IsContentOf(events[j], kind, index)
  }

  lemma SaidLateExtends(events: seq<Event>, e: Event, kind: Kind, index: nat)
    ensures SaidLate(events + [e], kind, index) <==>
            SaidLate(events, kind, index) || (BlockComplete(kind, index) in events && IsContentOf(e, kind, index))
  {
    var more := events + [e];
    if SaidLate(events, kind, index) {
      var i, j :| 0 <= i < j < |events| && events[i] == BlockComplete(kind, index) && IsContentOf(events[j], kind, index);
      assert more[i] == events[i] && more[j] == events[j];
    }
    if BlockComplete(kind, index) in events && IsContentOf(e, kind, index) {
      var i :| 0 <= i < |events| && events[i] == BlockComplete(kind, index);
      assert more[i] == events[i] && more[|events|] == e;
    }
  }

  /** Dropping repeats keeps the first completion and all content, so it hides no late content. */
  lemma {:induction false} LateContentIsHeardIff(events: seq<Event>, kind: Kind, index: nat)
    ensures SaidLate(WithoutRepeats(events), kind, index) <==> SaidLate(events, kind, index)
  {
    if events != [] {
      var init, e := events[..|events| - 1], events[|events| - 1];
      LateContentIsHeardIff(init, kind, index);
      WithoutRepeatsIsOnce(init);
      SaidLateExtends(init, e, kind, index);
      SaidLateExtends(WithoutRepeats(init), e, kind, index);
      assert events == init + [e] && WithoutRepeats(init) + [] == WithoutRepeats(init);
    }
  }

  lemma SaidLateOfParts(a: seq<Event>, b: seq<Event>, kind: Kind, index: nat)
    ensures SaidLate(a + b, kind, index) <==>
            SaidLate(a, kind, index) || SaidLate(b, kind, index) ||
            (BlockComplete(kind, index) in a && exists e :: e in b && IsContentOf(e, kind, index))
  {
    var s := a + b;
    if SaidLate(a, kind, index) {
      var i, j :| 0 <= i < j < |a| && a[i] == BlockComplete(kind, index) && IsContentOf(a[j], kind, index);
      assert s[i] == a[i] && s[j] == a[j];
    }
    if SaidLate(b, kind, index) {
      var i, j :| 0 <= i < j < |b| && b[i] == BlockComplete(kind, index) && IsContentOf(b[j], kind, index);
      assert s[|a| + i] == b[i] && s[|a| + j] == b[j];
    }
    if e :| BlockComplete(kind, index) in a && e in b && IsContentOf(e, kind, index) {
      var i :| 0 <= i < |a| && a[i] == BlockComplete(kind, index);
      var j :| 0 <= j < |b| && b[j] == e;
      assert s[i] == a[i] && s[|a| + j] == b[j];
    }
    if SaidLate(s, kind, index) {
      var i, j :| 0 <= i < j < |s| && s[i] == BlockComplete(kind, index) && IsContentOf(s[j], kind, index);
      if i >= |a| {
        assert b[i - |a|] == s[i] && b[j - |a|] == s[j];
      } else if j >= |a| {
        assert b[j - |a|] in b;
      }
    }
  }

  ghost predicate Completes(attempts: seq<seq<Call>>, i: nat, kind: Kind, index: nat) {
    i < |attempts| && BlockComplete(kind, index) in Asked(attempts[i])
  }

  ghost predicate Tells(attempts: seq<seq<Call>>, i: nat, kind: Kind, index: nat) {
    i < |attempts| && exists e :: e in Asked(attempts[i]) && IsContentOf(e, kind, index)
  }

  lemma PrefixSaysTheSame(attempts: seq<seq<Call>>, n: nat, i: nat, kind: Kind, index: nat)
    requires i < n <= |attempts|
    ensures Completes(attempts, i, kind, index) == Completes(attempts[..n], i, kind, index)
    ensures Tells(attempts, i, kind, index) == Tells(attempts[..n], i, kind, index)
  {}

  lemma {:induction false} SomeCompletes(attempts: seq<seq<Call>>, kind: Kind, index: nat)
    ensures BlockComplete(kind, index) in Asked(Flatten(attempts)) <==> exists i: nat :: Completes(attempts, i, kind, index)
  {
    if attempts != [] {
      var n := |attempts| - 1;
      SomeCompletes(attempts[..n], kind, index);
      AskedOfParts(Flatten(attempts[..n]), attempts[n]);
      if i: nat :| Completes(attempts[..n], i, kind, index) {
        PrefixSaysTheSame(attempts, n, i, kind, index);
      }
      if i: nat :| Completes(attempts, i, kind, index) {
        if i < n {
          PrefixSaysTheSame(attempts, n, i, kind, index);
        }
      }
      assert BlockComplete(kind, index) in Asked(attempts[n]) ==> Completes(attempts, n, kind, index);
    }
  }

  /** One attempt completes the block and a later one says something in it. */
  ghost predicate LateAcross(attempts: seq<seq<Call>>, kind: Kind, index: nat) {
    exists i: nat, j: nat :: i < j && Completes(attempts, i, kind, index) && Tells(attempts, j, kind, index)
  }

  lemma LateAcrossExtends(attempts: seq<seq<Call>>, n: nat, kind: Kind, index: nat)
    requires |attempts| == n + 1
    ensures LateAcross(attempts, kind, index) <==>
            LateAcross(attempts[..n], kind, index) ||
            (Tells(attempts, n, kind, index) && exists i: nat :: Completes(attempts[..n], i, kind, index))
  {
    var init := attempts[..n];
    if LateAcross(init, kind, index) {
      var i: nat, j: nat :| i < j && Completes(init, i, kind, index) && Tells(init, j, kind, index);
      PrefixSaysTheSame(attempts, n, i, kind, index);
      PrefixSaysTheSame(attempts, n, j, kind, index);
    }
    if i: nat :| Tells(attempts, n, kind, index) && Completes(init, i, kind, index) {
      PrefixSaysTheSame(attempts, n, i, kind, index);
    }
    if LateAcross(attempts, kind, index) {
      var i: nat, j: nat :| i < j && Completes(attempts, i, kind, index) && Tells(attempts, j, kind, index);
      PrefixSaysTheSame(attempts, n, i, kind, index);
      if j < n {
        PrefixSaysTheSame(attempts, n, j, kind, index);
      }
    }
  }

  /** Of attempts none of which says anything in a block once it completed it: content is late iff one
      attempt completed the block and a later one says something in it. */
  lemma {:induction false} LateOverAttemptsIff(attempts: seq<seq<Call>>, kind: Kind, index: nat)
    requires forall a :: a in attempts ==> !SaidLate(Asked(a), kind, index)
    ensures SaidLate(Asked(Flatten(attempts)), kind, index) <==> LateAcross(attempts, kind, index)
  {
    if attempts != [] {
      var n := |attempts| - 1;
      assert attempts[n] in attempts;
      LateOverAttemptsIff(attempts[..n], kind, index);
      SomeCompletes(attempts[..n], kind, index);
      AskedOfParts(Flatten(attempts[..n]), attempts[n]);
      SaidLateOfParts(Asked(Flatten(attempts[..n])), Asked(attempts[n]), kind, index);
      LateAcrossExtends(attempts, n, kind, index);
    }
  }

  lemma AskedOneMore(calls: seq<Call>, c: Call)
    ensures Asked(calls + [c]) == Asked(calls) + match AskedBy(c) case Some(e) => [e] case None => []
  {
    assert (calls + [c])[..|calls|] == calls;
  }

  lemma AskedOfFive(a: Call, b: Call, c: Call, d: Call, e: Call)
    requires a.Stream? && b.Stream? && c.Stream? && d.Stream? && e.Stream?
    requires AskedBy(a).Some? && AskedBy(b).Some? && AskedBy(c).Some? && AskedBy(d).Some? && AskedBy(e).Some?
    ensures Asked([a] + [b] + [c] + [d] + [e]) ==
            [AskedBy(a).value] + [AskedBy(b).value] + [AskedBy(c).value] + [AskedBy(d).value] + [AskedBy(e).value]
  {
    AskedOneMore([], a);
    AskedOneMore([a], b);
    AskedOneMore([a] + [b], c);
    AskedOneMore([a] + [b] + [c], d);
    AskedOneMore([a] + [b] + [c] + [d], e);
    assert [] + [a] == [a] && [] + [AskedBy(a).value] == [AskedBy(a).value];
  }

  lemma WithoutRepeatsOfFive(start: Event, end: Event, said: Event)
    requires start.BlockStarted? && end.BlockComplete? && said.BlockContent?
    ensures WithoutRepeats([start] + [end] + [start] + [said] + [end]) == [start, end, said]
  {
    WithoutRepeatsExtends([], start);
    WithoutRepeatsExtends([start], end);
    WithoutRepeatsExtends([start] + [end], start);
    WithoutRepeatsExtends([start] + [end] + [start], said);
    WithoutRepeatsExtends([start] + [end] + [start] + [said], end);
    assert [] + [start] == [start];
  }

  /** Such attempts: the first opens and closes an empty block and dies, and the second says something in
      it. The host hears the content after the completion, and no completion after the content. */
  lemma EmptyBlockIsRetried(b: Bridge, kind: Kind, index: nat, content: string)
    requires b.startedBlocks == {} && b.completedBlocks == {}
    ensures var s, c, d := Stream(Started(kind, index)), Stream(Content(kind, index, content)), Stream(Complete(kind, index));
            Heard(Trace([s] + [d] + [s] + [c] + [d], b)) ==
              [BlockStarted(kind, index), BlockComplete(kind, index), BlockContent(kind, index, content)]
  {
    var s, c, d := Stream(Started(kind, index)), Stream(Content(kind, index, content)), Stream(Complete(kind, index));
    RetriesAreHidden([s] + [d] + [s] + [c] + [d], b);
    AskedOfFive(s, d, s, c, d);
    WithoutRepeatsOfFive(BlockStarted(kind, index), BlockComplete(kind, index), BlockContent(kind, index, content));
  }

  /** Any number of attempts at one reply, each any prefix of a well-formed stream, reach the host as one
      run of events: one start per block, before everything else said about it, at most one
      completion, and every content delta of every attempt, in order. Content follows the completion
      of its block exactly where some attempt's does. */
  lemma RetriedStreamIsWellFormed(before: seq<Call>, summary: string, attempts: seq<seq<Call>>)
    requires forall a :: a in attempts ==> WithinStep(a) && StartsFirst(Asked(a))
    ensures var calls := Flatten(attempts);
            var heard := Heard(Trace(calls, StateAfter(before + [LlmStart(summary)], FRESH)));
            StartsFirst(heard) && heard == WithoutRepeats(Asked(calls)) && Contents(heard) == Contents(Asked(calls)) &&
            (forall i, j :: 0 <= i < j < |heard| && !heard[j].BlockContent? ==> heard[i] != heard[j]) &&
            forall kind, index :: SaidLate(heard, kind, index) <==> SaidLate(Asked(calls), kind, index)
  {
    StepStartsClean(before, summary);
    AttemptsStartFirst(attempts);
    RetriesAreHidden(Flatten(attempts), StateAfter(before + [LlmStart(summary)], FRESH));
    WithoutRepeatsStartsFirst(Asked(Flatten(attempts)));
    WithoutRepeatsIsOnce(Asked(Flatten(attempts)));
    ContentsAreKept(Asked(Flatten(attempts)));
    forall kind, index
      ensures SaidLate(WithoutRepeats(Asked(Flatten(attempts))), kind, index) <==> SaidLate(Asked(Flatten(attempts)), kind, index)
    {
      LateContentIsHeardIff(Asked(Flatten(attempts)), kind, index);
    }
  }

  // ----- Ends carry the id and input of their own start ----------------------------------

  /** Starts minus ends strictly between call `s` and call `end`. */
  function Depth(calls: seq<Call>, s: nat, end: nat): int
    requires s < end <= |calls|
    decreases end - s
  {
    if end == s + 1 then 0
    else Depth(calls, s, end - 1) + (if calls[end - 1].ToolStart? then 1 else if calls[end - 1].ToolEnd? then -1 else 0)
  }

  /** Call `s` is a start still open before call `end`: no step boundary and no end that closes it lies between. */
  ghost predicate Open(calls: seq<Call>, s: nat, end: nat)
    requires end <= |calls|
  {
    s < end && calls[s].ToolStart? &&
    (forall k :: s < k < end ==> !calls[k].LlmStart?) &&
    forall k :: s < k <= end ==> Depth(calls, s, k) >= 0
  }

  /** The bracket match: between start `s` and end `e` everything opened was closed. */
  ghost predicate Matches(calls: seq<Call>, s: nat, e: nat) {
    e < |calls| && calls[e].ToolEnd? && Open(calls, s, e) && Depth(calls, s, e) == 0
  }

  /** One call changes both stacks alike. */
  function Restacked(open: seq<nat>, c: Call, at: nat): seq<nat> {
    match c
    case ToolStart(_, _, _) => open + [at]
    case ToolEnd(_, _) => if open == [] then [] else open[..|open| - 1]
    case Stream(_) => open
    case LlmStart(_) => []
  }

  /** The positions of the starts on the pending stack. */
  function OpenStarts(calls: seq<Call>, end: nat): (open: seq<nat>)
    requires end <= |calls|
    ensures forall k :: 0 <= k < |open| ==> open[k] < end && calls[open[k]].ToolStart?
  {
    if end == 0 then [] else Restacked(OpenStarts(calls, end - 1), calls[end - 1], end - 1)
  }

  function PendingOf(c: Call): Pending
    requires c.ToolStart?
  {
    Pending(c.id, c.name, c.input)
  }

  /** A stack of pending calls stands for a stack of start positions. */
  ghost predicate Represents(pending: seq<Pending>, open: seq<nat>, calls: seq<Call>) {
    |pending| == |open| &&
    forall k :: 0 <= k < |open| ==> open[k] < |calls| && calls[open[k]].ToolStart? && pending[k] == PendingOf(calls[open[k]])
  }

  lemma RestackedRepresents(b: Bridge, open: seq<nat>, calls: seq<Call>, at: nat)
    requires at < |calls| && Represents(b.pending, open, calls)
    ensures Represents(OnCall(b, calls[at]).0.pending, Restacked(open, calls[at], at), calls)
  {}

  lemma {:induction false} PendingIsOpenStarts(calls: seq<Call>, end: nat)
    requires end <= |calls|
    ensures Represents(StateAfter(calls[..end], FRESH).pending, OpenStarts(calls, end), calls)
  {
    if end > 0 {
      var b := StateAfter(calls[..end - 1], FRESH);
      PendingIsOpenStarts(calls, end - 1);
      RestackedRepresents(b, OpenStarts(calls, end - 1), calls, end - 1);
      assert calls[..end][..end - 1] == calls[..end - 1];
      assert StateAfter(calls[..end], FRESH) == OnCall(b, calls[end - 1]).0;
    }
  }

  lemma {:induction false} OpenStartsAreOpen(calls: seq<Call>, end: nat, j: nat)
    requires end <= |calls| && j < |OpenStarts(calls, end)|
    ensures var open := OpenStarts(calls, end);
            Open(calls, open[j], end) && Depth(calls, open[j], end) == |open| - 1 - j
  {
    var before := OpenStarts(calls, end - 1);
    if j < |before| {
      OpenStartsAreOpen(calls, end - 1, j);
    }
  }

  lemma {:induction false} OpenIsOnStack(calls: seq<Call>, s: nat, end: nat)
    requires end <= |calls| && Open(calls, s, end)
    ensures var open, d := OpenStarts(calls, end), Depth(calls, s, end);
            d < |open| && open[|open| - 1 - d] == s
    decreases end
  {
    if s + 1 < end {
      assert Open(calls, s, end - 1) by {
        forall k | s < k <= end - 1 ensures Depth(calls, s, k) >= 0 {}
      }
      OpenIsOnStack(calls, s, end - 1);
      assert Depth(calls, s, end) >= 0;
    }
  }

  /** For every list of calls, well nested or not: an end with a matching start carries that
      start's id and replays its input end the hook; an end without one, because nothing is open
      or a new step dropped what was, says so. */
  lemma EndCarriesItsStart(calls: seq<Call>, e: nat)
    requires e < |calls| && calls[e].ToolEnd?
    ensures var b := StateAfter(calls[..e], FRESH);
            var sent, hooked := OnCall(b, calls[e]).1[0], HooksOn(b, calls[e])[0];
            (forall s: nat :: Matches(calls, s, e) ==>
               sent == ToolCallComplete(calls[s].id, calls[e].name, calls[e].outcome) &&
               hooked == After(calls[e].name, calls[s].input, calls[e].outcome)) &&
            ((forall s: nat :: !Matches(calls, s, e)) ==>
               sent == ToolCallComplete(UNPAIRED, calls[e].name, calls[e].outcome) &&
               hooked == After(calls[e].name, NULL, calls[e].outcome))
  {
    var open := OpenStarts(calls, e);
    PendingIsOpenStarts(calls, e);
    forall s: nat | Matches(calls, s, e) ensures open != [] && open[|open| - 1] == s {
      OpenIsOnStack(calls, s, e);
    }
    if open != [] {
      OpenStartsAreOpen(calls, e, |open| - 1);
      assert Matches(calls, open[|open| - 1], e);
    }
  }

  /** What a call does to the pending stack depends on the stack alone. */
  lemma PendingDependsOnPending(b: Bridge, b': Bridge, c: Call)
    requires b.pending == b'.pending
    ensures OnCall(b, c).0.pending == OnCall(b', c).0.pending
  {}

  lemma {:induction false} PendingFromBoundary(before: seq<Call>, summary: string, step: seq<Call>)
    ensures StateAfter(before + [LlmStart(summary)] + step, FRESH).pending == StateAfter(step, FRESH).pending
  {
    var start := before + [LlmStart(summary)];
    if step == [] {
      StepStartsClean(before, summary);
      assert start + step == start;
    } else {
      var init, c := step[..|step| - 1], step[|step| - 1];
      PendingFromBoundary(before, summary, init);
      PendingDependsOnPending(StateAfter(start + init, FRESH), StateAfter(init, FRESH), c);
      assert (start + step)[..|start + step| - 1] == start + init;
    }
  }

  /** Nothing before the last step boundary can matter to pairing: it may be replaced by anything. */
  lemma AbortedStepsDoNotPair(old1: seq<Call>, old2: seq<Call>, summary: string, step: seq<Call>)
    ensures StateAfter(old1 + [LlmStart(summary)] + step, FRESH).pending == StateAfter(old2 + [LlmStart(summary)] + step, FRESH).pending
  {
    PendingFromBoundary(old1, summary, step);
    PendingFromBoundary(old2, summary, step);
  }

  // ----- What the host is told of ends, refusals and steps --------------------------------------

  predicate IsTold(e: Event) {
    e.ToolCallComplete?
  }

  function EndsBefore(calls: seq<Call>, n: nat): nat
    requires n <= |calls|
  {
    if n == 0 then 0 else EndsBefore(calls, n - 1) + if calls[n - 1].ToolEnd? then 1 else 0
  }

  lemma CompletionsOfCall(b: Bridge, c: Call)
    ensures Filter(OnCall(b, c).1, IsTold) == if c.ToolEnd? then [OnCall(b, c).1[0]] else []
  {
    if c.ToolEnd? {
      var events := OnCall(b, c).1;
      assert events == [events[0]] + events[1..];
      FilterOne(events[0], IsTold);
      FilterNone(events[1..], IsTold);
      FilterOfParts([events[0]], events[1..], IsTold);
    } else {
      FilterNone(OnCall(b, c).1, IsTold);
    }
  }

  lemma TraceOneMore(calls: seq<Call>, n: nat)
    requires n < |calls|
    ensures Trace(calls[..n + 1], FRESH) == Trace(calls[..n], FRESH) + OnCall(StateAfter(calls[..n], FRESH), calls[n]).1
  {
    assert calls[..n + 1][..n] == calls[..n];
  }

  /** The completion each call causes, if it does. */
  function Completions(calls: seq<Call>): (parts: seq<seq<Event>>)
    ensures |parts| == |calls| && forall i :: 0 <= i < |calls| ==> |parts[i]| <= 1
  {
    seq(|calls|, i requires 0 <= i < |calls| =>
        if calls[i].ToolEnd? then [OnCall(StateAfter(calls[..i], FRESH), calls[i]).1[0]] else [])
  }

  lemma {:induction false} EndsAreFull<T>(calls: seq<Call>, parts: seq<seq<T>>, n: nat)
    requires n <= |calls| == |parts| && forall i :: 0 <= i < |calls| ==> (parts[i] == [] <==> !calls[i].ToolEnd?)
    ensures FullBefore(parts, n) == EndsBefore(calls, n)
  {
    if n > 0 {
      EndsAreFull(calls, parts, n - 1);
    }
  }

  lemma ToldOneMore(calls: seq<Call>, n: nat)
    requires n < |calls|
    ensures Filter(Trace(calls[..n + 1], FRESH), IsTold) == Filter(Trace(calls[..n], FRESH), IsTold) + Completions(calls)[n]
  {
    var b := StateAfter(calls[..n], FRESH);
    TraceOneMore(calls, n);
    CompletionsOfCall(b, calls[n]);
    FilterOfParts(Trace(calls[..n], FRESH), OnCall(b, calls[n]).1, IsTold);
  }

  lemma CompletionsAreTold(calls: seq<Call>)
    ensures Filter(Trace(calls, FRESH), IsTold) == Flatten(Completions(calls))
  {
    var sums := seq(|calls| + 1, i requires 0 <= i <= |calls| => Filter(Trace(calls[..i], FRESH), IsTold));
    forall i | 0 <= i < |calls| ensures sums[i + 1] == sums[i] + Completions(calls)[i] {
      ToldOneMore(calls, i);
    }
    FlattenOfSums(sums, Completions(calls), |calls|);
    assert calls[..|calls|] == calls && Completions(calls)[..|calls|] == Completions(calls);
  }

  /** For every list of calls the host is told of as many completions as there are ends, and of each in
      its place with its tool and outcome, under the id of its matching start or, without one, as unpaired. */
  lemma EachEndIsTold(calls: seq<Call>, e: nat)
    requires e < |calls| && calls[e].ToolEnd?
    ensures var told, n := Filter(Trace(calls, FRESH), IsTold), EndsBefore(calls, e);
            |told| == EndsBefore(calls, |calls|) && n < |told| &&
            (forall s: nat :: Matches(calls, s, e) ==> told[n] == ToolCallComplete(calls[s].id, calls[e].name, calls[e].outcome)) &&
            ((forall s: nat :: !Matches(calls, s, e)) ==> told[n] == ToolCallComplete("bridge-?", calls[e].name, calls[e].outcome))
  {
    var parts := Completions(calls);
    CompletionsAreTold(calls);
    EndsAreFull(calls, parts, |calls|);
    EndsAreFull(calls, parts, e);
    FlattenCount(parts, |calls|);
    FlattenAt(parts, |calls|, e);
    assert parts[..|calls|] == parts;
    EndCarriesItsStart(calls, e);
  }

  predicate IsNews(e: Event) {
    e.Status? || e.LlmRequest?
  }

  /** What the calls ask the host to be told besides blocks and tools: each refused mode switch, by the
      tool and the mode, and each step. */
  function News(calls: seq<Call>): seq<Event> {
    if calls == [] then []
    else
      News(calls[..|calls| - 1]) +
      match calls[|calls| - 1]
      case ToolEnd(name, PermissionDenied(message)) =>
        if !Mentions(LowerAscii(message), "plan mode") then []
        else if name == "enter_plan_mode" || name == "write_plan_file" then [Status(name, "enter plan mode")]
        else if name == "exit_plan_mode" then [Status(name, "leave plan mode")]
        else []
      case LlmStart(summary) => [LlmRequest(summary)]
      case _ => []
  }

  lemma NewsOfOne(c: Call)
    ensures News([c]) ==
            match c
            case ToolEnd(name, PermissionDenied(message)) =>
              if !Mentions(LowerAscii(message), "plan mode") then []
              else if name == "enter_plan_mode" || name == "write_plan_file" then [Status(name, "enter plan mode")]
              else if name == "exit_plan_mode" then [Status(name, "leave plan mode")]
              else []
            case LlmStart(summary) => [LlmRequest(summary)]
            case _ => []
  {
    assert [c][..0] == [];
  }

  lemma NewsOfEnd(complete: Event, status: seq<Event>)
    requires complete.ToolCallComplete? && |status| <= 1 && forall e :: e in status ==> e.Status?
    ensures Filter([complete] + status, IsNews) == status
  {
    FilterOne(complete, IsNews);
    FilterOfParts([complete], status, IsNews);
    if status != [] {
      FilterOne(status[0], IsNews);
      assert status == [status[0]];
    }
  }

  lemma NewsOfCall(b: Bridge, c: Call)
    ensures Filter(OnCall(b, c).1, IsNews) == News([c])
  {
    NewsOfOne(c);
    match c
    case ToolEnd(name, outcome) =>
      var refusal := ModeGateRefusal(name, outcome);
      NewsOfEnd(OnCall(b, c).1[0], if refusal.Some? then [Status(name, refusal.value)] else []);
    case LlmStart(summary) => FilterOne(LlmRequest(summary), IsNews);
    case _ => FilterNone(OnCall(b, c).1, IsNews);
  }

  lemma NewsOneMore(calls: seq<Call>, c: Call)
    ensures News(calls + [c]) == News(calls) + News([c])
  {
    assert (calls + [c])[..|calls|] == calls && [c][..0] == [];
  }

  /** The host is told exactly of the refused mode switches and of the steps, in order. */
  lemma {:induction false} NewsIsTold(calls: seq<Call>)
    ensures Filter(Trace(calls, FRESH), IsNews) == News(calls)
  {
    if calls != [] {
      var init, c := calls[..|calls| - 1], calls[|calls| - 1];
      var b := StateAfter(init, FRESH);
      NewsIsTold(init);
      NewsOfCall(b, c);
      NewsOneMore(init, c);
      FilterOfParts(Trace(init, FRESH), OnCall(b, c).1, IsNews);
      assert calls == init + [c];
    }
  }

  // ----- What the hooks get ------------------------------------------------------------------------

  /** The hook executions a list of calls causes from `b` on, in order. */
  function HookTrace(calls: seq<Call>, b: Bridge): seq<Hook> {
    if calls == [] then []
    else HookTrace(calls[..|calls| - 1], b) + HooksOn(StateAfter(calls[..|calls| - 1], b), calls[|calls| - 1])
  }

  predicate IsTool(c: Call) {
    c.ToolStart? || c.ToolEnd?
  }

  function ToolsBefore(calls: seq<Call>, n: nat): nat
    requires n <= |calls|
  {
    if n == 0 then 0 else ToolsBefore(calls, n - 1) + if IsTool(calls[n - 1]) then 1 else 0
  }

  lemma HookTraceOneMore(calls: seq<Call>, n: nat)
    requires n < |calls|
    ensures HookTrace(calls[..n + 1], FRESH) == HookTrace(calls[..n], FRESH) + HooksOn(StateAfter(calls[..n], FRESH), calls[n])
  {
    assert calls[..n + 1][..n] == calls[..n];
  }

  /** The hook each call runs, if it does. */
  function Hooks(calls: seq<Call>): (parts: seq<seq<Hook>>)
    ensures |parts| == |calls| && forall i :: 0 <= i < |calls| ==> |parts[i]| <= 1
  {
    seq(|calls|, i requires 0 <= i < |calls| => HooksOn(StateAfter(calls[..i], FRESH), calls[i]))
  }

  lemma {:induction false} ToolsAreFull<T>(calls: seq<Call>, parts: seq<seq<T>>, n: nat)
    requires n <= |calls| == |parts| && forall i :: 0 <= i < |calls| ==> (parts[i] == [] <==> !IsTool(calls[i]))
    ensures FullBefore(parts, n) == ToolsBefore(calls, n)
  {
    if n > 0 {
      ToolsAreFull(calls, parts, n - 1);
    }
  }

  lemma HooksAreRun(calls: seq<Call>)
    ensures HookTrace(calls, FRESH) == Flatten(Hooks(calls))
  {
    var sums := seq(|calls| + 1, i requires 0 <= i <= |calls| => HookTrace(calls[..i], FRESH));
    forall i | 0 <= i < |calls| ensures sums[i + 1] == sums[i] + Hooks(calls)[i] {
      HookTraceOneMore(calls, i);
    }
    FlattenOfSums(sums, Hooks(calls), |calls|);
    assert calls[..|calls|] == calls && Hooks(calls)[..|calls|] == Hooks(calls);
  }

  /** For every list of calls one hook runs for each start and each end of a tool, in the order of the
      calls: at a start with its name and input, at an end with its outcome and the input of its matching
      start, or null without one. So each start's hook runs before that of its end. */
  lemma EachToolRunsItsHook(calls: seq<Call>, p: nat)
    requires p < |calls| && IsTool(calls[p])
    ensures var hooks, n, c := HookTrace(calls, FRESH), ToolsBefore(calls, p), calls[p];
            |hooks| == ToolsBefore(calls, |calls|) && n < |hooks| &&
            (c.ToolStart? ==> hooks[n] == Before(c.name, c.input)) &&
            (forall s: nat :: Matches(calls, s, p) ==>
               hooks[n] == After(c.name, calls[s].input, c.outcome) && ToolsBefore(calls, s) < n) &&
            (c.ToolEnd? && (forall s: nat :: !Matches(calls, s, p)) ==> hooks[n] == After(c.name, "null", c.outcome))
  {
    var parts := Hooks(calls);
    HooksAreRun(calls);
    ToolsAreFull(calls, parts, |calls|);
    ToolsAreFull(calls, parts, p);
    FlattenCount(parts, |calls|);
    FlattenAt(parts, |calls|, p);
    assert parts[..|calls|] == parts;
    if calls[p].ToolEnd? {
      EndCarriesItsStart(calls, p);
    }
    forall s: nat | Matches(calls, s, p) ensures ToolsBefore(calls, s) < ToolsBefore(calls, p) {
      ToolsAreFull(calls, parts, s);
      FullAscends(parts, s, p);
    }
  }

  predicate IsBefore(h: Hook) {
    h.Before?
  }

  /** The hook each start asks for. */
  function BeforesOf(calls: seq<Call>): seq<Hook> {
    if calls == [] then []
    else
      BeforesOf(calls[..|calls| - 1]) +
      match calls[|calls| - 1] case ToolStart(_, name, input) => [Before(name, input)] case _ => []
  }

  /** The hooks before tools are those of the starts, one for one and in order. */
  lemma {:induction false} BeforesAreStarts(calls: seq<Call>)
    ensures Filter(HookTrace(calls, FRESH), IsBefore) == BeforesOf(calls)
  {
    if calls != [] {
      var init, c := calls[..|calls| - 1], calls[|calls| - 1];
      var b := StateAfter(init, FRESH);
      BeforesAreStarts(init);
      FilterOfParts(HookTrace(init, FRESH), HooksOn(b, c), IsBefore);
      if IsTool(c) {
        FilterOne(HooksOn(b, c)[0], IsBefore);
        assert HooksOn(b, c) == [HooksOn(b, c)[0]];
      }
    }
  }

  // ----- The bridge ---------------------------------------------------------------------

  class BridgeState {
    const connected: bool        // an event channel is bound
    const hasBeforeHooks: bool
    const hasAfterHooks: bool
    var announced: set<string>
    var startedBlocks: set<(Kind, nat)>
    var completedBlocks: set<(Kind, nat)>
    var pending: seq<Pending>
    var sent: seq<Event>         // what went into the channel
    var executed: seq<Hook>      // the hooks that ran

    constructor (connected: bool, hasBeforeHooks: bool, hasAfterHooks: bool)
      ensures View() == FRESH && sent == [] && executed == []
      ensures this.connected == connected && this.hasBeforeHooks == hasBeforeHooks && this.hasAfterHooks == hasAfterHooks
    {
      this.connected, this.hasBeforeHooks, this.hasAfterHooks := connected, hasBeforeHooks, hasAfterHooks;
      announced, startedBlocks, completedBlocks, pending := {}, {}, {}, [];
      sent, executed := [], [];
    }

    ghost function View(): Bridge
      reads this
    {
      Bridge(announced, startedBlocks, completedBlocks, pending)
    }

    /** The object went from `b` to the specified state, sent the specified events if a channel is
        bound, and ran the specified hooks if there are any. */
    ghost predicate Followed(b: Bridge, c: Call, sentBefore: seq<Event>, executedBefore: seq<Hook>)
      reads this
    {
      View() == OnCall(b, c).0 &&
      sent == sentBefore + (if connected then OnCall(b, c).1 else []) &&
      executed == executedBefore +
        (if (c.ToolStart? && hasBeforeHooks) || (c.ToolEnd? && hasAfterHooks) then HooksOn(b, c) else [])
    }

    method Send(event: Event)
      modifies this`sent
      ensures sent == old(sent) + if connected then [event] else []
    {
      if connected {
        sent := sent + [event];
      }
    }

    method OnToolStart(id: string, name: string, input: Json)
      modifies this
      ensures Followed(old(View()), ToolStart(id, name, input), old(sent), old(executed))
    {
      pending := pending + [Pending(id, name, input)];
      var alreadyAnnounced := id in announced;
      announced := announced + {id};
      if !alreadyAnnounced {
        Send(ToolCallStarted(id, name, input));
      }
      if hasBeforeHooks {
        executed := executed + [Before(name, input)];
      }
    }

    method OnToolEnd(name: string, outcome: Outcome)
      modifies this
      ensures Followed(old(View()), ToolEnd(name, outcome), old(sent), old(executed))
    {
      var id, input := UNPAIRED, NULL;
      if pending != [] {
        var top := pending[|pending| - 1];
        id, input := top.id, top.input;
        pending := pending[..|pending| - 1];
      }
      Send(ToolCallComplete(id, name, outcome));
      var refusal := ModeGateRefusal(name, outcome);
      if refusal.Some? {
        Send(Status(name, refusal.value));
      }
      if hasAfterHooks {
        executed := executed + [After(name, input, outcome)];
      }
    }

    method OnStreamDelta(delta: StreamDelta)
      modifies this
      ensures Followed(old(View()), Stream(delta), old(sent), old(executed))
    {
      match delta {
        case Content(kind, index, content) =>
          Send(BlockContent(kind, index, content));
        case Started(kind, index) =>
          var first := (kind, index) !in startedBlocks;
          startedBlocks := startedBlocks + {(kind, index)};
          if first {
            Send(BlockStarted(kind, index));
          }
        case Complete(kind, index) =>
          var first := (kind, index) !in completedBlocks;
          completedBlocks := completedBlocks + {(kind, index)};
          if first {
            Send(BlockComplete(kind, index));
          }
        case ToolAnnounced(id, name, input) =>
          var first := id !in announced;
          announced := announced + {id};
          if first {
            Send(ToolCallStarted(id, name, input));
          }
      }
    }

    method OnLlmStart(summary: string)
      modifies this
      ensures Followed(old(View()), LlmStart(summary), old(sent), old(executed))
    {
      Send(LlmRequest(summary));
      startedBlocks, completedBlocks, pending := {}, {}, [];
    }
  }

  /** The hooks that run when some are installed. */
  function Installed(hasBefore: bool, hasAfter: bool): Hook -> bool {
    (h: Hook) => if h.Before? then hasBefore else hasAfter
  }

  lemma HooksOfCall(b: Bridge, c: Call, hasBefore: bool, hasAfter: bool)
    ensures Filter(HooksOn(b, c), Installed(hasBefore, hasAfter)) ==
            if (c.ToolStart? && hasBefore) || (c.ToolEnd? && hasAfter) then HooksOn(b, c) else []
  {
    if IsTool(c) {
      FilterOne(HooksOn(b, c)[0], Installed(hasBefore, hasAfter));
      assert HooksOn(b, c) == [HooksOn(b, c)[0]];
    }
  }

  /** A bridge driven by any list of calls sends exactly the specified trace, if it is connected, and runs
      exactly the specified hooks, of those installed. */
  method Drive(calls: seq<Call>, connected: bool, hasBefore: bool, hasAfter: bool) returns (bridge: BridgeState)
    ensures bridge.View() == StateAfter(calls, FRESH)
    ensures bridge.sent == if connected then Trace(calls, FRESH) else []
    ensures bridge.executed == Filter(HookTrace(calls, FRESH), Installed(hasBefore, hasAfter))
  {
    bridge := new BridgeState(connected, hasBefore, hasAfter);
    ghost var runs := Installed(hasBefore, hasAfter);
    for i := 0 to |calls|
      invariant fresh(bridge) && bridge.View() == StateAfter(calls[..i], FRESH)
      invariant bridge.connected == connected && bridge.hasBeforeHooks == hasBefore && bridge.hasAfterHooks == hasAfter
      invariant bridge.sent == if connected then Trace(calls[..i], FRESH) else []
      invariant bridge.executed == Filter(HookTrace(calls[..i], FRESH), runs)
    {
      ghost var b := StateAfter(calls[..i], FRESH);
      TraceOneMore(calls, i);
      HookTraceOneMore(calls, i);
      HooksOfCall(b, calls[i], hasBefore, hasAfter);
      FilterOfParts(HookTrace(calls[..i], FRESH), HooksOn(b, calls[i]), runs);
      assert calls[..i + 1][..i] == calls[..i];
      match calls[i] {
        case ToolStart(id, name, input) => bridge.OnToolStart(id, name, input);
        case ToolEnd(name, outcome) => bridge.OnToolEnd(name, outcome);
        case Stream(delta) => bridge.OnStreamDelta(delta);
        case LlmStart(summary) => bridge.OnLlmStart(summary);
      }
    }
    assert calls[..|calls|] == calls;
  }
}
