/** Agent-driven context purge (crates/agent-runtime/src/purge.rs).

    A purge names messages to remove and blocks to rewrite. Removing one half of
    a tool-call/result pair strips the other half at block level, by a bounded
    fixpoint over two id-to-position indexes. The first part of this module says
    which blocks and messages survive without mentioning indexes, passes or
    rounds; the methods at the end are the algorithm, proved against it. */
module Purge {
  import opened Wrappers
  import opened Sequences

  // ----- The transcript ------------------------------------------------------

  datatype Block =
    | Text(text: string)
    | Image(source: string)
    | Thinking(thinking: string)
    | ToolUse(id: string, name: string, input: string)
    | ToolResult(toolUseId: string, content: string, isError: Option<bool>)
    | ServerToolUse(serverId: string, serverName: string, serverInput: string)
    | ToolSearchToolResult(searchUseId: string, found: string)
    | CodeExecutionToolResult(codeUseId: string, output: string)

  datatype Message = Message(role: string, content: seq<Block>)

  /** `rewrite` stands for replacing every match of the operation's pattern. */
  datatype PurgeOp =
    | Remove(msgId: nat)
    | Replace(msgId: nat, blockIdx: nat, rewrite: string -> string)

  datatype PurgeResult = PurgeResult(messages: seq<Message>, removedCount: nat, replacedCount: nat)

  type History = seq<Message>

  datatype Pos = Pos(msg: nat, block: nat)

  /** The two halves of a pair. */
  datatype Side = Call | Result

  function Other(side: Side): Side {
    if side == Call then Result else Call
  }

  /** The pairing id a block carries on one side; server-side tool blocks are never paired. */
  function KeyOf(b: Block, side: Side): Option<string> {
    match side
    case Call => if b.ToolUse? then Some(b.id) else None
    case Result => if b.ToolResult? then Some(b.toolUseId) else None
  }

  predicate InRange(h: History, p: Pos) {
    p.msg < |h| && p.block < |h[p.msg].content|
  }

  predicate At(h: History, p: Pos, side: Side, id: string) {
    InRange(h, p) && KeyOf(h[p.msg].content[p.block], side) == Some(id)
  }

  predicate AtOrBefore(p: Pos, q: Pos) {
    p.msg < q.msg || (p.msg == q.msg && p.block <= q.block)
  }

  // ----- Which blocks survive ------------------------------------------------

  /** `p` is the last place where `id` occurs on `side`: the one an index built by
      inserting in transcript order ends up holding. */
  ghost predicate IsLast(h: History, p: Pos, side: Side, id: string) {
    At(h, p, side, id) && forall q :: At(h, q, side, id) ==> AtOrBefore(q, p)
  }

  /** `p` lies outside the named messages, and its counterpart lies inside one. */
  ghost predicate StrippedAs(h: History, named: set<nat>, p: Pos, side: Side, id: string) {
    p.msg !in named && IsLast(h, p, side, id) &&
    exists q :: IsLast(h, q, Other(side), id) && q.msg in named
  }

  ghost predicate Stripped(h: History, named: set<nat>, p: Pos) {
    exists side, id :: StrippedAs(h, named, p, side, id)
  }

  ghost predicate Survives(h: History, named: set<nat>, p: Pos) {
    p.msg !in named && !Stripped(h, named, p)
  }

  /** The blocks of message `i`, from index `b` on, that are not stripped. */
  ghost function KeptBlocks(h: History, named: set<nat>, i: nat, b: nat): seq<Block>
    requires i < |h|
    decreases |h[i].content| - b
  {
    if b >= |h[i].content| then []
    else (if Stripped(h, named, Pos(i, b)) then [] else [h[i].content[b]]) + KeptBlocks(h, named, i, b + 1)
  }

  ghost function Trimmed(h: History, named: set<nat>, i: nat): Message
    requires i < |h|
  {
    Message(h[i].role, KeptBlocks(h, named, i, 0))
  }

  ghost predicate Vanishes(h: History, named: set<nat>, i: nat)
    requires i < |h|
  {
    i in named || KeptBlocks(h, named, i, 0) == []
  }

  /** What a purge leaves of messages `i` and later. */
  ghost function Purged(h: History, named: set<nat>, i: nat): History
    decreases |h| - i
  {
    if i >= |h| then []
    else (if Vanishes(h, named, i) then [] else [Trimmed(h, named, i)]) + Purged(h, named, i + 1)
  }

  ghost predicate Holds(h: History, side: Side, id: string) {
    exists p :: At(h, p, side, id)
  }

  // ----- Named messages and rewritten blocks ---------------------------------

  /** Ids are 1-based; the subtraction saturates, so id 0 also addresses the first message. */
  function IndexOf(msgId: nat): nat {
    if msgId == 0 then 0 else msgId - 1
  }

  /** Ids count from one, and zero addresses the first message too. */
  predicate Removes(op: PurgeOp, i: nat) {
    op.Remove? && (op.msgId == i + 1 || (op.msgId == 0 && i == 0))
  }

  function Named(ops: seq<PurgeOp>, n: nat): (s: set<nat>)
    ensures forall i: nat :: i in s <==> i < n && exists k :: 0 <= k < |ops| && Removes(ops[k], i)
  {
    if ops == [] then {}
    else
      var op := ops[|ops| - 1];
      var init := Named(ops[..|ops| - 1], n);
      assert forall k :: 0 <= k < |ops| - 1 ==> ops[..|ops| - 1][k] == ops[k];
      if op.Remove? && IndexOf(op.msgId) < n then init + {IndexOf(op.msgId)} else init
  }

  function BlockText(b: Block): string {
    match b
    case Text(text) => text
    case ToolResult(_, content, _) => content
    case _ => ""
  }

  function WithText(b: Block, text: string): Block {
    match b
    case Text(_) => Text(text)
    case ToolResult(id, _, isError) => ToolResult(id, text, isError)
    case _ => b
  }

  function Addressed(h: History, op: PurgeOp): bool {
    op.Replace? && InRange(h, Pos(IndexOf(op.msgId), op.blockIdx))
  }

  function RewriteOne(h: History, op: PurgeOp): History {
    if !Addressed(h, op) then h
    else
      var i := IndexOf(op.msgId);
      var b := h[i].content[op.blockIdx];
      h[i := h[i].(content := h[i].content[op.blockIdx := WithText(b, op.rewrite(BlockText(b)))])]
  }

  function Rewritten(h: History, ops: seq<PurgeOp>): History {
    if ops == [] then h else RewriteOne(Rewritten(h, ops[..|ops| - 1]), ops[|ops| - 1])
  }

  /** Message ids count from one, and zero addresses the first message too; blocks count from zero. */
  predicate Replaces(h: History, op: PurgeOp) {
    op.Replace? && ((op.msgId == 0 && |h| > 0 && op.blockIdx < |h[0].content|) ||
                    (0 < op.msgId <= |h| && op.blockIdx < |h[op.msgId - 1].content|))
  }

  function ReplaceCount(h: History, ops: seq<PurgeOp>): nat {
    if ops == [] then 0
    else ReplaceCount(h, ops[..|ops| - 1]) + if Addressed(h, ops[|ops| - 1]) then 1 else 0
  }

  /** A replacement is all of the new text, the last one wins, putting back what was there changes
      nothing, and blocks without replaceable text are left alone. */
  lemma ReplacementIsText(b: Block, text: string, again: string)
    ensures b.Text? || b.ToolResult? ==> BlockText(WithText(b, text)) == text
    ensures !b.Text? && !b.ToolResult? ==> WithText(b, text) == b
    ensures WithText(WithText(b, text), again) == WithText(b, again)
    ensures WithText(b, BlockText(b)) == b
  {}

  /** What the operations addressed to `p`, and no others, make of the block there. */
  function RewrittenBlock(ops: seq<PurgeOp>, p: Pos, b: Block): Block {
    if ops == [] then b
    else
      var op, r := ops[|ops| - 1], RewrittenBlock(ops[..|ops| - 1], p, b);
      if op.Replace? && Pos(IndexOf(op.msgId), op.blockIdx) == p then WithText(r, op.rewrite(BlockText(r))) else r
  }

  /** Each block is rewritten by its own operations in their order, whatever the others do. */
  lemma {:induction false} RewritesAreLocal(h: History, ops: seq<PurgeOp>, p: Pos)
    requires InRange(h, p)
    ensures InRange(Rewritten(h, ops), p)
    ensures Rewritten(h, ops)[p.msg].content[p.block] == RewrittenBlock(ops, p, h[p.msg].content[p.block])
  {
    if ops != [] {
      RewritesAreLocal(h, ops[..|ops| - 1], p);
    }
  }

  /** The number of replacements that address a block there is. */
  lemma {:induction false} ReplaceCountIs(h: History, ops: seq<PurgeOp>)
    ensures ReplaceCount(h, ops) == |set k | 0 <= k < |ops| && Replaces(h, ops[k])|
  {
    if ops != [] {
      var n := |ops| - 1;
      var init := ops[..n];
      ReplaceCountIs(h, init);
      var before := set k | 0 <= k < |init| && Replaces(h, init[k]);
      assert forall k :: 0 <= k < n ==> init[k] == ops[k];
      assert (set k | 0 <= k < |ops| && Replaces(h, ops[k])) == if Replaces(h, ops[n]) then before + {n} else before;
    }
  }

  /** Same messages, roles, block counts and pairing ids. */
  ghost predicate SameShape(h: History, g: History) {
    |h| == |g| &&
    (forall i :: 0 <= i < |h| ==> h[i].role == g[i].role && |h[i].content| == |g[i].content|) &&
    forall p, side, id :: At(h, p, side, id) == At(g, p, side, id)
  }

  lemma RewriteOneKeepsShape(h: History, op: PurgeOp)
    ensures SameShape(h, RewriteOne(h, op))
  {}

  /** A rewrite changes text only: it moves no block and touches no pairing id. */
  lemma {:induction false} RewritingKeepsShape(h: History, ops: seq<PurgeOp>)
    ensures SameShape(h, Rewritten(h, ops))
  {
    if ops != [] {
      RewritingKeepsShape(h, ops[..|ops| - 1]);
      RewriteOneKeepsShape(Rewritten(h, ops[..|ops| - 1]), ops[|ops| - 1]);
    }
  }

  lemma SameShapeSameLast(h: History, g: History, p: Pos, side: Side, id: string)
    requires SameShape(h, g)
    ensures IsLast(h, p, side, id) == IsLast(g, p, side, id)
  {}

  lemma SameShapeSameStripped(h: History, g: History, named: set<nat>, p: Pos)
    requires SameShape(h, g)
    ensures Stripped(h, named, p) == Stripped(g, named, p)
  {
    forall q, side, id
      ensures IsLast(h, q, side, id) == IsLast(g, q, side, id)
    {
      SameShapeSameLast(h, g, q, side, id);
    }
    forall side, id
      ensures StrippedAs(h, named, p, side, id) == StrippedAs(g, named, p, side, id)
    {
      assert IsLast(h, p, side, id) == IsLast(g, p, side, id);
      assert forall q :: IsLast(h, q, Other(side), id) == IsLast(g, q, Other(side), id);
    }
  }

  // ----- The output holds exactly the surviving blocks -------------------------

  lemma {:induction false} KeptBlockHasSource(h: History, named: set<nat>, i: nat, b: nat, k: nat) returns (c: nat)
    requires i < |h| && k < |KeptBlocks(h, named, i, b)|
    ensures b <= c < |h[i].content| && h[i].content[c] == KeptBlocks(h, named, i, b)[k]
    ensures !Stripped(h, named, Pos(i, c))
    decreases |h[i].content| - b
  {
    if Stripped(h, named, Pos(i, b)) {
      c := KeptBlockHasSource(h, named, i, b + 1, k);
    } else if k == 0 {
      c := b;
    } else {
      c := KeptBlockHasSource(h, named, i, b + 1, k - 1);
    }
  }

  lemma {:induction false} UnstrippedBlockIsKept(h: History, named: set<nat>, i: nat, b: nat, c: nat) returns (k: nat)
    requires i < |h| && b <= c < |h[i].content| && !Stripped(h, named, Pos(i, c))
    ensures k < |KeptBlocks(h, named, i, b)| && KeptBlocks(h, named, i, b)[k] == h[i].content[c]
    decreases |h[i].content| - b
  {
    if b == c {
      k := 0;
    } else {
      k := UnstrippedBlockIsKept(h, named, i, b + 1, c);
      k := if Stripped(h, named, Pos(i, b)) then k else k + 1;
    }
  }

  /** A message vanishes iff it was named or none of its blocks survives. */
  lemma VanishesIff(h: History, named: set<nat>, i: nat)
    requires i < |h|
    ensures Vanishes(h, named, i) <==>
            i in named || forall b | 0 <= b < |h[i].content| :: !Survives(h, named, Pos(i, b))
  {
    if i !in named {
      if KeptBlocks(h, named, i, 0) == [] {
        forall b | 0 <= b < |h[i].content|
          ensures !Survives(h, named, Pos(i, b))
        {
          if !Stripped(h, named, Pos(i, b)) {
            var k := UnstrippedBlockIsKept(h, named, i, 0, b);
          }
        }
      } else {
        var c := KeptBlockHasSource(h, named, i, 0, 0);
        assert Survives(h, named, Pos(i, c));
      }
    }
  }

  lemma {:induction false} KeptMessageHasSource(h: History, named: set<nat>, i: nat, k: nat) returns (j: nat)
    requires k < |Purged(h, named, i)|
    ensures i <= j < |h| && !Vanishes(h, named, j) && Purged(h, named, i)[k] == Trimmed(h, named, j)
    decreases |h| - i
  {
    if Vanishes(h, named, i) {
      j := KeptMessageHasSource(h, named, i + 1, k);
    } else if k == 0 {
      j := i;
    } else {
      j := KeptMessageHasSource(h, named, i + 1, k - 1);
    }
  }

  lemma {:induction false} UnvanishedMessageIsKept(h: History, named: set<nat>, i: nat, j: nat) returns (k: nat)
    requires i <= j < |h| && !Vanishes(h, named, j)
    ensures k < |Purged(h, named, i)| && Purged(h, named, i)[k] == Trimmed(h, named, j)
    decreases |h| - i
  {
    var rest := Purged(h, named, i + 1);
    if i == j {
      assert Purged(h, named, i) == [Trimmed(h, named, i)] + rest;
      k := 0;
    } else {
      k := UnvanishedMessageIsKept(h, named, i + 1, j);
      if !Vanishes(h, named, i) {
        assert Purged(h, named, i) == [Trimmed(h, named, i)] + rest;
        k := k + 1;
      }
    }
  }

  /** A pairing id occurs in the output iff one of its occurrences survives. */
  lemma OutputHoldsSurvivors(h: History, named: set<nat>, side: Side, id: string)
    ensures Holds(Purged(h, named, 0), side, id) <==>
            exists p :: At(h, p, side, id) && Survives(h, named, p)
  {
    var out := Purged(h, named, 0);
    if Holds(out, side, id) {
      var q :| At(out, q, side, id);
      var i := KeptMessageHasSource(h, named, 0, q.msg);
      var b := KeptBlockHasSource(h, named, i, 0, q.block);
      assert At(h, Pos(i, b), side, id) && Survives(h, named, Pos(i, b));
    }
    if p :| At(h, p, side, id) && Survives(h, named, p) {
      var k := UnstrippedBlockIsKept(h, named, p.msg, 0, p.block);
      var m := UnvanishedMessageIsKept(h, named, 0, p.msg);
      assert At(out, Pos(m, k), side, id);
    }
  }

  /** In terms of blocks: the id of a tool call, or the id a tool result answers. */
  lemma HoldsIff(h: History, id: string)
    ensures Holds(h, Call, id) <==>
            exists i, b :: 0 <= i < |h| && 0 <= b < |h[i].content| && h[i].content[b].ToolUse? && h[i].content[b].id == id
    ensures Holds(h, Result, id) <==>
            exists i, b :: 0 <= i < |h| && 0 <= b < |h[i].content| && h[i].content[b].ToolResult? && h[i].content[b].toolUseId == id
  {
    if p :| At(h, p, Call, id) {
      assert h[p.msg].content[p.block].ToolUse?;
    }
    if p :| At(h, p, Result, id) {
      assert h[p.msg].content[p.block].ToolResult?;
    }
    if i, b :| 0 <= i < |h| && 0 <= b < |h[i].content| && h[i].content[b].ToolUse? && h[i].content[b].id == id {
      assert At(h, Pos(i, b), Call, id);
    }
    if i, b :| 0 <= i < |h| && 0 <= b < |h[i].content| && h[i].content[b].ToolResult? && h[i].content[b].toolUseId == id {
      assert At(h, Pos(i, b), Result, id);
    }
  }

  // ----- The output is the input less what does not survive -----------------------------------

  ghost function SurvivingBlocks(h: History, named: set<nat>, i: nat): (s: set<nat>)
    requires i < |h|
    ensures forall b: nat :: b in s <==> b < |h[i].content| && Survives(h, named, Pos(i, b))
  {
    set b | 0 <= b < |h[i].content| && Survives(h, named, Pos(i, b))
  }

  /** `content` is the surviving blocks of message `i`, in order. */
  ghost predicate BlocksAt(h: History, named: set<nat>, i: nat, content: seq<Block>, at: seq<nat>)
    requires i < |h|
  {
    Picks(h[i].content, 0, SurvivingBlocks(h, named, i), content, at)
  }

  /** Something of message `i` survives. */
  ghost predicate Stays(h: History, named: set<nat>, i: nat) {
    i < |h| && exists b :: 0 <= b < |h[i].content| && Survives(h, named, Pos(i, b))
  }

  ghost predicate MessageAt(h: History, named: set<nat>, i: nat, m: Message) {
    i < |h| && m.role == h[i].role && exists at :: BlocksAt(h, named, i, m.content, at)
  }

  /** `out` is the messages that stay, from the indices `kept`, in order: each with its role and its
      surviving blocks. */
  ghost predicate MessagesAt(h: History, named: set<nat>, out: History, kept: seq<nat>) {
    |kept| == |out| && Ascending(kept) && (forall i :: 0 <= i < |h| ==> (i in kept <==> Stays(h, named, i))) &&
    forall k :: 0 <= k < |kept| ==> MessageAt(h, named, kept[k], out[k])
  }

  lemma {:induction false} KeptBlocksAt(h: History, named: set<nat>, i: nat, b: nat) returns (at: seq<nat>)
    requires i < |h| && i !in named
    ensures Picks(h[i].content, b, SurvivingBlocks(h, named, i), KeptBlocks(h, named, i, b), at)
    decreases |h[i].content| - b
  {
    var source, keep := h[i].content, SurvivingBlocks(h, named, i);
    if b >= |source| {
      at := [];
      PicksNothing(source, b, keep);
    } else {
      at := KeptBlocksAt(h, named, i, b + 1);
      var rest := KeptBlocks(h, named, i, b + 1);
      if Stripped(h, named, Pos(i, b)) {
        PicksPast(source, b, keep, rest, at);
        assert [] + rest == rest;
      } else {
        PicksOneMore(source, b, keep, rest, at);
        at := [b] + at;
      }
    }
  }

  lemma TrimmedBlocksAt(h: History, named: set<nat>, i: nat) returns (at: seq<nat>)
    requires i < |h| && i !in named
    ensures BlocksAt(h, named, i, Trimmed(h, named, i).content, at)
  {
    at := KeptBlocksAt(h, named, i, 0);
  }

  lemma StaysIff(h: History, named: set<nat>, i: nat)
    requires i < |h|
    ensures Stays(h, named, i) <==> !Vanishes(h, named, i)
  {
    VanishesIff(h, named, i);
  }

  ghost function AllTrimmed(h: History, named: set<nat>): (all: History)
    ensures |all| == |h| && forall i :: 0 <= i < |h| ==> all[i] == Trimmed(h, named, i)
  {
    seq(|h|, i requires 0 <= i < |h| => Trimmed(h, named, i))
  }

  ghost function Staying(h: History, named: set<nat>): (s: set<nat>)
    ensures forall i: nat :: i in s <==> i < |h| && !Vanishes(h, named, i)
  {
    set i: nat | i < |h| && !Vanishes(h, named, i)
  }

  lemma {:induction false} PurgedAt(h: History, named: set<nat>, i: nat) returns (kept: seq<nat>)
    ensures Picks(AllTrimmed(h, named), i, Staying(h, named), Purged(h, named, i), kept)
    decreases |h| - i
  {
    var source, keep := AllTrimmed(h, named), Staying(h, named);
    if i >= |h| {
      kept := [];
      PicksNothing(source, i, keep);
    } else {
      kept := PurgedAt(h, named, i + 1);
      var rest := Purged(h, named, i + 1);
      if Vanishes(h, named, i) {
        PicksPast(source, i, keep, rest, kept);
        assert [] + rest == rest;
      } else {
        PicksOneMore(source, i, keep, rest, kept);
        kept := [i] + kept;
      }
    }
  }

  /** What a purge leaves is the history less what does not survive: order, roles and block contents are
      all kept. */
  lemma PurgeIsSelection(h: History, named: set<nat>) returns (kept: seq<nat>)
    ensures MessagesAt(h, named, Purged(h, named, 0), kept)
  {
    kept := PurgedAt(h, named, 0);
    forall i | 0 <= i < |h| ensures i in kept <==> Stays(h, named, i) {
      StaysIff(h, named, i);
    }
    forall k | 0 <= k < |kept| ensures MessageAt(h, named, kept[k], Purged(h, named, 0)[k]) {
      assert kept[k] in kept;
      var at := TrimmedBlocksAt(h, named, kept[k]);
    }
  }

  // ----- Pairs are never split -------------------------------------------------

  ghost predicate Unique(h: History, side: Side) {
    forall p, q, id :: At(h, p, side, id) && At(h, q, side, id) ==> p == q
  }

  ghost predicate Paired(h: History, p: Pos, q: Pos) {
    exists side, id :: At(h, p, side, id) && At(h, q, Other(side), id)
  }

  lemma OneSidePerBlock(h: History, p: Pos, s: Side, x: string, t: Side, y: string)
    requires At(h, p, s, x) && At(h, p, t, y)
    ensures s == t && x == y
  {}

  /** With unique ids a block vanishes iff its message was named or its counterpart sits in a
      named message: no more, no less. */
  lemma RemovesTheLeast(h: History, named: set<nat>, p: Pos)
    requires Unique(h, Call) && Unique(h, Result)
    requires InRange(h, p)
    ensures !Survives(h, named, p) <==> p.msg in named || exists q :: Paired(h, p, q) && q.msg in named
  {
    forall s, x, r | At(h, r, s, x)
      ensures IsLast(h, r, s, x)
    {
      assert Unique(h, s);
    }
    if Stripped(h, named, p) {
      var s, x :| StrippedAs(h, named, p, s, x);
      var q :| IsLast(h, q, Other(s), x) && q.msg in named;
      assert Paired(h, p, q);
    }
    if q :| p.msg !in named && Paired(h, p, q) && q.msg in named {
      var s, x :| At(h, p, s, x) && At(h, q, Other(s), x);
      assert StrippedAs(h, named, p, s, x);
    }
  }

  /** With unique ids, both halves of a pair survive or neither does. */
  lemma NeverSplitsAPair(h: History, named: set<nat>, c: Pos, r: Pos, id: string)
    requires Unique(h, Call) && Unique(h, Result)
    requires At(h, c, Call, id) && At(h, r, Result, id)
    ensures Survives(h, named, c) <==> Survives(h, named, r)
  {
    RemovesTheLeast(h, named, c);
    RemovesTheLeast(h, named, r);
    assert Paired(h, c, r) by { assert At(h, c, Call, id) && At(h, r, Other(Call), id); }
    assert Paired(h, r, c) by { assert At(h, r, Result, id) && At(h, c, Other(Result), id); }
    forall q | Paired(h, c, q) ensures q == r {
      var s, x :| At(h, c, s, x) && At(h, q, Other(s), x);
      OneSidePerBlock(h, c, s, x, Call, id);
    }
    forall q | Paired(h, r, q) ensures q == c {
      var s, x :| At(h, r, s, x) && At(h, q, Other(s), x);
      OneSidePerBlock(h, r, s, x, Result, id);
    }
  }

  /** The whole run, in terms of the ids an API request would be checked for: with unique ids
      a pair present before the purge is present after it on both sides or on neither. */
  lemma PurgeKeepsPairsWhole(h: History, ops: seq<PurgeOp>, id: string)
    requires Unique(h, Call) && Unique(h, Result)
    requires Holds(h, Call, id) && Holds(h, Result, id)
    ensures var out := Purged(Rewritten(h, ops), Named(ops, |h|), 0);
            Holds(out, Call, id) <==> Holds(out, Result, id)
  {
    var g, named := Rewritten(h, ops), Named(ops, |h|);
    RewritingKeepsShape(h, ops);
    assert Unique(g, Call) && Unique(g, Result) by {
      assert forall p, side, x :: At(g, p, side, x) == At(h, p, side, x);
    }
    var c :| At(h, c, Call, id);
    var r :| At(h, r, Result, id);
    assert At(g, c, Call, id) && At(g, r, Result, id);
    NeverSplitsAPair(g, named, c, r, id);
    OutputHoldsSurvivors(g, named, Call, id);
    OutputHoldsSurvivors(g, named, Result, id);
  }

  // ----- Exactly when an id can be split ---------------------------------------

  /** Messages holding an occurrence of `id` on `side` that a later one shadows. */
  ghost function Shadowed(h: History, side: Side, id: string, last: Pos): set<nat> {
    set i, b | 0 <= i < |h| && 0 <= b < |h[i].content| && At(h, Pos(i, b), side, id) && Pos(i, b) != last :: i
  }

  ghost predicate Splits(h: History, named: set<nat>, id: string) {
    Holds(Purged(h, named, 0), Call, id) != Holds(Purged(h, named, 0), Result, id)
  }

  lemma LastIsUnique(h: History, p: Pos, q: Pos, side: Side, id: string)
    requires IsLast(h, p, side, id) && IsLast(h, q, side, id)
    ensures p == q
  {}

  /** Which occurrences of an id survive, for arbitrary histories. */
  lemma SurvivesWhen(h: History, named: set<nat>, id: string, side: Side, last: Pos, counter: Pos, p: Pos)
    requires IsLast(h, last, side, id) && IsLast(h, counter, Other(side), id)
    requires At(h, p, side, id)
    ensures Survives(h, named, p) <==> p.msg !in named && (p == last ==> counter.msg !in named)
  {
    if Stripped(h, named, p) {
      var s, x :| StrippedAs(h, named, p, s, x);
      OneSidePerBlock(h, p, s, x, side, id);
      var q :| IsLast(h, q, Other(s), x) && q.msg in named;
      LastIsUnique(h, q, counter, Other(side), id);
      LastIsUnique(h, p, last, side, id);
    }
    if p == last && p.msg !in named && counter.msg in named {
      assert StrippedAs(h, named, p, side, id);
    }
  }

  /** One side of an id is left with nothing iff all its shadowed occurrences were named and
      one half of its last pair was. */
  lemma NothingLeftIff(h: History, named: set<nat>, id: string, side: Side, last: Pos, counter: Pos)
    requires IsLast(h, last, side, id) && IsLast(h, counter, Other(side), id)
    ensures !Holds(Purged(h, named, 0), side, id) <==>
            Shadowed(h, side, id, last) <= named && (last.msg in named || counter.msg in named)
  {
    OutputHoldsSurvivors(h, named, side, id);
    forall p | At(h, p, side, id)
      ensures Survives(h, named, p) <==> p.msg !in named && (p == last ==> counter.msg !in named)
    {
      SurvivesWhen(h, named, id, side, last, counter, p);
    }
    if !Holds(Purged(h, named, 0), side, id) {
      assert !Survives(h, named, last);
      forall i | i in Shadowed(h, side, id, last) ensures i in named {
        var b :| 0 <= b < |h[i].content| && At(h, Pos(i, b), side, id) && Pos(i, b) != last;
        assert !Survives(h, named, Pos(i, b));
      }
    }
    if Shadowed(h, side, id, last) <= named && (last.msg in named || counter.msg in named) {
      forall p | At(h, p, side, id) ensures !Survives(h, named, p) {
        if p != last {
          assert Pos(p.msg, p.block) == p;
          assert p.msg in Shadowed(h, side, id, last);
        }
      }
    }
  }

  /** A purge naming `named` leaves one side of `id` and not the other. */
  lemma SplitsIff(h: History, named: set<nat>, id: string, call: Pos, result: Pos)
    requires IsLast(h, call, Call, id) && IsLast(h, result, Result, id)
    ensures Splits(h, named, id) <==>
            (Shadowed(h, Call, id, call) <= named) != (Shadowed(h, Result, id, result) <= named)
            && (call.msg in named || result.msg in named)
  {
    NothingLeftIff(h, named, id, Call, call, result);
    NothingLeftIff(h, named, id, Result, result, call);
  }

  /** Leaving aside a message that holds both its last call and its last result, the shadowed
      calls and the shadowed results of `id` lie in the same messages. */
  ghost predicate Matched(h: History, id: string, call: Pos, result: Pos) {
    var shared := if call.msg == result.msg then {call.msg} else {};
    Shadowed(h, Call, id, call) + shared == Shadowed(h, Result, id, result) + shared
  }

  lemma MatchedNeverSplits(h: History, named: set<nat>, id: string, call: Pos, result: Pos)
    requires IsLast(h, call, Call, id) && IsLast(h, result, Result, id)
    requires Matched(h, id, call, result)
    ensures !Splits(h, named, id)
  {
    SplitsIff(h, named, id, call, result);
    var calls, results := Shadowed(h, Call, id, call), Shadowed(h, Result, id, result);
    var shared := if call.msg == result.msg then {call.msg} else {};
    if shared <= named {
      forall i | i in calls && i !in shared ensures i in results { assert i in results + shared; }
      forall i | i in results && i !in shared ensures i in calls { assert i in calls + shared; }
      assert calls <= named <==> results <= named;
    }
  }

  /** An unmatched id has a message whose naming, with all of the other side, splits it. */
  lemma UnmatchedSplits(h: History, id: string, call: Pos, result: Pos) returns (named: set<nat>)
    requires IsLast(h, call, Call, id) && IsLast(h, result, Result, id)
    requires !Matched(h, id, call, result)
    ensures Splits(h, named, id) && forall i :: i in named ==> i < |h|
  {
    var calls, results := Shadowed(h, Call, id, call), Shadowed(h, Result, id, result);
    var shared := if call.msg == result.msg then {call.msg} else {};
    var more, less := calls, results;
    var i :| i in calls + results + shared && (i in calls + shared) != (i in results + shared);
    if i in results {
      more, less := results, calls;
    }
    assert i in more && i !in less && i !in shared;
    named := less + {if i == call.msg then result.msg else call.msg};
    SplitsIff(h, named, id, call, result);
    assert less <= named && !(more <= named);
  }

  /** One removal per index of a set. */
  function RemoveAll(named: set<nat>, n: nat): (ops: seq<PurgeOp>)
    ensures forall k :: 0 <= k < |ops| ==> ops[k].Remove?
    ensures forall k, i: nat :: 0 <= k < |ops| && Removes(ops[k], i) ==> i in named
    ensures forall i: nat :: i < n && i in named ==> exists k :: 0 <= k < |ops| && Removes(ops[k], i)
  {
    if n == 0 then []
    else
      var init := RemoveAll(named, n - 1);
      if n - 1 in named then
        var ops := init + [Remove(n)];
        assert Removes(ops[|init|], n - 1);
        assert forall k :: 0 <= k < |init| ==> ops[k] == init[k];
        ops
      else init
  }

  lemma {:induction false} RemovalsRewriteNothing(h: History, ops: seq<PurgeOp>)
    requires forall k :: 0 <= k < |ops| ==> ops[k].Remove?
    ensures Rewritten(h, ops) == h
  {
    if ops != [] {
      RemovalsRewriteNothing(h, ops[..|ops| - 1]);
    }
  }

  ghost predicate PurgeSplits(h: History, ops: seq<PurgeOp>, id: string) {
    Splits(Rewritten(h, ops), Named(ops, |h|), id)
  }

  lemma MatchedStaysWhole(h: History, ops: seq<PurgeOp>, id: string, call: Pos, result: Pos)
    requires IsLast(h, call, Call, id) && IsLast(h, result, Result, id) && Matched(h, id, call, result)
    ensures !PurgeSplits(h, ops, id)
  {
    var g := Rewritten(h, ops);
    RewritingKeepsShape(h, ops);
    SameShapeSameLast(h, g, call, Call, id);
    SameShapeSameLast(h, g, result, Result, id);
    assert forall p, side :: At(h, p, side, id) == At(g, p, side, id);
    assert Shadowed(g, Call, id, call) == Shadowed(h, Call, id, call);
    assert Shadowed(g, Result, id, result) == Shadowed(h, Result, id, result);
    MatchedNeverSplits(g, Named(ops, |h|), id, call, result);
  }

  /** For any history, repeated ids included: no operation list whatever can split `id` iff the
      id is matched. Unique ids are the special case with nothing shadowed. */
  lemma NeverSplitsIff(h: History, id: string, call: Pos, result: Pos)
    requires IsLast(h, call, Call, id) && IsLast(h, result, Result, id)
    ensures (forall ops :: !PurgeSplits(h, ops, id)) <==> Matched(h, id, call, result)
  {
    if Matched(h, id, call, result) {
      forall ops ensures !PurgeSplits(h, ops, id) {
        MatchedStaysWhole(h, ops, id, call, result);
      }
    } else {
      var named := UnmatchedSplits(h, id, call, result);
      var ops := RemoveAll(named, |h|);
      RemovalsRewriteNothing(h, ops);
      assert Named(ops, |h|) == named;
      assert PurgeSplits(h, ops, id);
    }
  }

  /** Uniqueness is not idle: with a repeated call id the last call is stripped with the result, and the
      purge leaves the first one an orphan. */
  lemma RepeatedIdLeavesAnOrphan()
    ensures var call := Message("assistant", [ToolUse("a", "read_file", "")]);
            var result := Message("user", [ToolResult("a", "", None)]);
            var h, named := [call, call, result], Named([Remove(3)], 3);
            Splits(h, named, "a") && Survives(h, named, Pos(0, 0)) && !Survives(h, named, Pos(1, 0))
  {
    var call := Message("assistant", [ToolUse("a", "read_file", "")]);
    var result := Message("user", [ToolResult("a", "", None)]);
    var h := [call, call, result];
    assert At(h, Pos(0, 0), Call, "a");
    assert IsLast(h, Pos(1, 0), Call, "a") && IsLast(h, Pos(2, 0), Result, "a");
    var ops := [Remove(3)];
    assert ops[0].Remove? && IndexOf(ops[0].msgId) == 2;
    assert Named(ops, 3) == {2};
    assert 0 in Shadowed(h, Call, "a", Pos(1, 0)) by { assert h[0].content[0] == call.content[0]; }
    assert Shadowed(h, Result, "a", Pos(2, 0)) == {};
    NothingLeftIff(h, {2}, "a", Call, Pos(1, 0), Pos(2, 0));
    NothingLeftIff(h, {2}, "a", Result, Pos(2, 0), Pos(1, 0));
    SurvivesWhen(h, {2}, "a", Call, Pos(1, 0), Pos(2, 0), Pos(0, 0));
    SurvivesWhen(h, {2}, "a", Call, Pos(1, 0), Pos(2, 0), Pos(1, 0));
  }

  // ----- The algorithm ---------------------------------------------------------

  type Index = map<string, Pos>
  type Removals = map<nat, set<nat>>

  predicate In(removals: Removals, p: Pos) {
    p.msg in removals && p.block in removals[p.msg]
  }

  /** An entry is only ever created to hold a block. */
  predicate NoIdleEntry(removals: Removals) {
    forall i :: i in removals ==> removals[i] != {}
  }

  predicate Gone(named: set<nat>, removals: Removals, p: Pos) {
    p.msg in named || In(removals, p)
  }

  ghost predicate Before(p: Pos, i: nat, b: nat) {
    p.msg < i || (p.msg == i && p.block < b)
  }

  /** `index` holds the last position, among those before (i, b), of every id on `side`. */
  ghost predicate Indexes(h: History, side: Side, i: nat, b: nat, index: Index) {
    (forall id :: id in index ==> At(h, index[id], side, id) && Before(index[id], i, b)) &&
    forall id, p :: At(h, p, side, id) && Before(p, i, b) ==> id in index && AtOrBefore(p, index[id])
  }

  method BuildIndexes(h: History) returns (calls: Index, results: Index)
    ensures Indexes(h, Call, |h|, 0, calls)
    ensures Indexes(h, Result, |h|, 0, results)
  {
    calls, results := map[], map[];
    for i := 0 to |h|
      invariant Indexes(h, Call, i, 0, calls)
      invariant Indexes(h, Result, i, 0, results)
    {
      for b := 0 to |h[i].content|
        invariant Indexes(h, Call, i, b, calls)
        invariant Indexes(h, Result, i, b, results)
      {
        match h[i].content[b] {
          case ToolUse(id, _, _) => calls := calls[id := Pos(i, b)];
          case ToolResult(id, _, _) => results := results[id := Pos(i, b)];
          case _ =>
        }
      }
    }
  }

  lemma IndexHoldsLast(h: History, side: Side, index: Index, id: string, p: Pos)
    requires Indexes(h, side, |h|, 0, index)
    ensures IsLast(h, p, side, id) <==> id in index && index[id] == p
  {}

  /** One pass pushes `p`: it is the counterpart of a gone block and its message is kept. */
  ghost predicate Pushed(from: Index, into: Index, named: set<nat>, removals: Removals, p: Pos) {
    p.msg !in named && exists id :: id in from && id in into && into[id] == p && Gone(named, removals, from[id])
  }

  /** One pass of the fixpoint, in whatever order the map is iterated. */
  method StripCounterparts(from: Index, into: Index, named: set<nat>, before: Removals)
    returns (after: Removals, changed: bool)
    requires forall id, id' :: id in from && id' in into ==> from[id] != into[id']
    requires NoIdleEntry(before)
    ensures NoIdleEntry(after)
    ensures forall p :: In(after, p) <==> In(before, p) || Pushed(from, into, named, before, p)
    ensures changed <==> exists p :: In(after, p) && !In(before, p)
  {
    after, changed := before, false;
    var todo := from.Keys;
    while todo != {}
      invariant todo <= from.Keys && NoIdleEntry(after)
      invariant forall p :: In(before, p) ==> In(after, p)
      invariant forall p :: In(after, p) && !In(before, p) ==> p in into.Values && Pushed(from, into, named, before, p)
      invariant forall id :: id in from && id !in todo && id in into && into[id].msg !in named ==>
                               Gone(named, before, from[id]) ==> In(after, into[id])
      invariant changed <==> exists p :: In(after, p) && !In(before, p)
      decreases |todo|
    {
      var id :| id in todo;
      todo := todo - {id};
      assert In(after, from[id]) ==> In(before, from[id]);
      if Gone(named, after, from[id]) && id in into && into[id].msg !in named {
        var p := into[id];
        var stripped := if p.msg in after then after[p.msg] else {};
        if p.block !in stripped {
          changed := true;
          assert !In(before, p) by { assert !In(after, p); }
        }
        ghost var previous := after;
        after := after[p.msg := stripped + {p.block}];
        assert forall q :: In(after, q) <==> In(previous, q) || q == p;
        assert Pushed(from, into, named, before, p);
      }
    }
  }

  lemma StrippedIsPushed(h: History, named: set<nat>, calls: Index, results: Index, p: Pos)
    requires Indexes(h, Call, |h|, 0, calls) && Indexes(h, Result, |h|, 0, results)
    ensures Stripped(h, named, p) <==>
            Pushed(calls, results, named, map[], p) || Pushed(results, calls, named, map[], p)
  {
    forall id, q
      ensures IsLast(h, q, Call, id) <==> id in calls && calls[id] == q
      ensures IsLast(h, q, Result, id) <==> id in results && results[id] == q
    {
      IndexHoldsLast(h, Call, calls, id, q);
      IndexHoldsLast(h, Result, results, id, q);
    }
    if Stripped(h, named, p) {
      var s, x :| StrippedAs(h, named, p, s, x);
      var q :| IsLast(h, q, Other(s), x) && q.msg in named;
    }
    if Pushed(calls, results, named, map[], p) {
      var id :| id in calls && id in results && results[id] == p && Gone(named, map[], calls[id]);
      assert StrippedAs(h, named, p, Result, id);
    }
    if Pushed(results, calls, named, map[], p) {
      var id :| id in results && id in calls && calls[id] == p && Gone(named, map[], results[id]);
      assert StrippedAs(h, named, p, Call, id);
    }
  }

  ghost predicate StripsExactly(h: History, named: set<nat>, removals: Removals) {
    forall p :: In(removals, p) <==> Stripped(h, named, p)
  }

  /** The counterpart of a stripped block is named, so stripping never travels further. */
  lemma StrippedCounterpartIsNamed(h: History, named: set<nat>, side: Side, id: string, p: Pos, q: Pos,
                                   calls: Index, results: Index)
    requires Indexes(h, Call, |h|, 0, calls) && Indexes(h, Result, |h|, 0, results)
    requires id in calls && id in results
    requires p == (if side == Call then calls[id] else results[id])
    requires q == (if side == Call then results[id] else calls[id])
    requires Stripped(h, named, p)
    ensures q.msg in named
  {
    IndexHoldsLast(h, Call, calls, id, calls[id]);
    IndexHoldsLast(h, Result, results, id, results[id]);
    SurvivesWhen(h, named, id, side, p, q, p);
  }

  /** The first round reaches the closure and the second adds nothing. */
  lemma RoundClosure(h: History, named: set<nat>, calls: Index, results: Index,
                     start: Removals, mid: Removals, end: Removals, round: nat)
    requires round == 0 ==> start == map[]
    requires round != 0 ==> StripsExactly(h, named, start)
    requires forall p :: Stripped(h, named, p) <==>
                         Pushed(calls, results, named, map[], p) || Pushed(results, calls, named, map[], p)
    requires forall id, id' :: id in calls && id' in results ==> calls[id] != results[id']
    requires Indexes(h, Call, |h|, 0, calls) && Indexes(h, Result, |h|, 0, results)
    requires forall p :: In(mid, p) <==> In(start, p) || Pushed(calls, results, named, start, p)
    requires forall p :: In(end, p) <==> In(mid, p) || Pushed(results, calls, named, mid, p)
    ensures StripsExactly(h, named, end)
    ensures round != 0 ==> forall p :: In(end, p) == In(start, p)
  {
    forall p | In(start, p) ensures Stripped(h, named, p) {}
    forall p | Pushed(calls, results, named, start, p) ensures Pushed(calls, results, named, map[], p) {
      var id :| id in calls && id in results && results[id] == p && Gone(named, start, calls[id]);
      if calls[id].msg !in named {
        StrippedCounterpartIsNamed(h, named, Call, id, calls[id], results[id], calls, results);
      }
    }
    forall p | Pushed(calls, results, named, map[], p) ensures In(mid, p) {
      var id :| id in calls && id in results && results[id] == p && Gone(named, map[], calls[id]);
      assert Gone(named, start, calls[id]);
    }
    forall p | In(mid, p) ensures Stripped(h, named, p) {}
    forall p | Pushed(results, calls, named, mid, p) ensures Pushed(results, calls, named, map[], p) {
      var id :| id in results && id in calls && calls[id] == p && Gone(named, mid, results[id]);
      if results[id].msg !in named {
        StrippedCounterpartIsNamed(h, named, Result, id, results[id], calls[id], calls, results);
      }
    }
    forall p | Pushed(results, calls, named, map[], p) ensures In(end, p) {
      var id :| id in results && id in calls && calls[id] == p && Gone(named, map[], results[id]);
      assert Gone(named, mid, results[id]);
    }
  }

  /** The cascade strips exactly the specified blocks, and always because a round changed
      nothing: `rounds` never reaches the cap. */
  method CascadeToolPairRemovals(h: History, named: set<nat>) returns (removals: Removals, rounds: nat)
    ensures StripsExactly(h, named, removals) && NoIdleEntry(removals)
    ensures rounds <= 2
  {
    removals, rounds := map[], 0;
    if named == {} {
      assert StripsExactly(h, named, removals);
      return;
    }
    var calls, results := BuildIndexes(h);
    forall p ensures Stripped(h, named, p) <==>
                     Pushed(calls, results, named, map[], p) || Pushed(results, calls, named, map[], p)
    {
      StrippedIsPushed(h, named, calls, results, p);
    }
    forall id, id' | id in calls && id' in results ensures calls[id] != results[id'] {
      if calls[id] == results[id'] {
        OneSidePerBlock(h, calls[id], Call, id, Result, id');
      }
    }
    var maxRounds := if |h| < 10 then 10 else |h|;
    while rounds < maxRounds
      invariant rounds <= 1 && NoIdleEntry(removals)
      invariant rounds == 0 ==> removals == map[]
      invariant rounds == 1 ==> StripsExactly(h, named, removals)
      decreases maxRounds - rounds
    {
      ghost var start := removals;
      var afterCalls, changed1 := StripCounterparts(calls, results, named, removals);
      var afterResults, changed2 := StripCounterparts(results, calls, named, afterCalls);
      RoundClosure(h, named, calls, results, start, afterCalls, afterResults, rounds);
      removals := afterResults;
      rounds := rounds + 1;
      if !(changed1 || changed2) {
        assert forall p :: In(removals, p) == In(start, p);
        break;
      }
    }
  }

  /** `kept` is `content` without the dropped positions. */
  function Without(content: seq<Block>, drop: set<nat>, b: nat): seq<Block>
    decreases |content| - b
  {
    if b >= |content| then []
    else (if b in drop then [] else [content[b]]) + Without(content, drop, b + 1)
  }

  method RetainBlocks(content: seq<Block>, drop: set<nat>) returns (kept: seq<Block>)
    ensures kept == Without(content, drop, 0)
  {
    kept := [];
    var pos := 0;
    while pos < |content|
      invariant pos <= |content|
      invariant kept + Without(content, drop, pos) == Without(content, drop, 0)
    {
      if pos !in drop {
        kept := kept + [content[pos]];
      }
      pos := pos + 1;
    }
  }

  lemma {:induction false} WithoutStrippedIsKept(h: History, named: set<nat>, removals: Removals, i: nat, b: nat)
    requires i < |h| && StripsExactly(h, named, removals)
    ensures Without(h[i].content, if i in removals then removals[i] else {}, b) == KeptBlocks(h, named, i, b)
    decreases |h[i].content| - b
  {
    if b < |h[i].content| {
      WithoutStrippedIsKept(h, named, removals, i, b + 1);
      assert In(removals, Pos(i, b)) <==> Stripped(h, named, Pos(i, b));
    }
  }

  lemma {:induction false} WithoutNothing(content: seq<Block>, b: nat)
    requires b <= |content|
    ensures Without(content, {}, b) == content[b..]
    decreases |content| - b
  {
    if b < |content| {
      WithoutNothing(content, b + 1);
    }
  }

  lemma NamedIsWhole(h: History, named: set<nat>, removals: Removals, i: nat)
    requires i < |h| && i in named && StripsExactly(h, named, removals) && NoIdleEntry(removals)
    ensures Trimmed(h, named, i).content == h[i].content
  {
    if i in removals {
      var b :| b in removals[i];
      assert In(removals, Pos(i, b));
      assert false;
    }
    WithoutStrippedIsKept(h, named, removals, i, 0);
    WithoutNothing(h[i].content, 0);
    assert h[i].content[0..] == h[i].content;
  }

  lemma TrimmedIsSelection(h: History, named: set<nat>, removals: Removals, msgs: History)
    requires StripsExactly(h, named, removals) && NoIdleEntry(removals)
    requires |msgs| == |h| && forall i :: 0 <= i < |h| ==> msgs[i] == Trimmed(h, named, i)
    ensures forall i :: 0 <= i < |h| && i in named ==> msgs[i].content == h[i].content
    ensures forall i :: 0 <= i < |h| && i !in named ==> exists at :: BlocksAt(h, named, i, msgs[i].content, at)
  {
    forall i | 0 <= i < |h| && i in named ensures msgs[i].content == h[i].content {
      NamedIsWhole(h, named, removals, i);
    }
    forall i | 0 <= i < |h| && i !in named ensures exists at :: BlocksAt(h, named, i, msgs[i].content, at) {
      var at := TrimmedBlocksAt(h, named, i);
    }
  }

  method StripBlocks(h: History, named: set<nat>, removals: Removals) returns (msgs: History)
    requires StripsExactly(h, named, removals) && NoIdleEntry(removals)
    ensures |msgs| == |h| && forall i :: 0 <= i < |h| ==> msgs[i] == Trimmed(h, named, i)
    ensures forall i :: 0 <= i < |h| ==> msgs[i].role == h[i].role && (i in named ==> msgs[i].content == h[i].content)
    ensures forall i :: 0 <= i < |h| && i !in named ==> exists at :: BlocksAt(h, named, i, msgs[i].content, at)
  {
    msgs := h;
    forall i | i in removals ensures i < |h| {
      var b :| b in removals[i];
      assert In(removals, Pos(i, b));
    }
    var todo := removals.Keys;
    while todo != {}
      invariant todo <= removals.Keys && |msgs| == |h|
      invariant forall i :: i in todo ==> msgs[i] == h[i]
      invariant forall i :: 0 <= i < |h| && i !in todo && i in removals ==> msgs[i] == Trimmed(h, named, i)
      invariant forall i :: 0 <= i < |h| && i !in removals ==> msgs[i] == h[i]
      decreases |todo|
    {
      var i :| i in todo;
      var kept := RetainBlocks(msgs[i].content, removals[i]);
      WithoutStrippedIsKept(h, named, removals, i, 0);
      msgs := msgs[i := Message(msgs[i].role, kept)];
      todo := todo - {i};
    }
    forall i | 0 <= i < |h| && i !in removals ensures msgs[i] == Trimmed(h, named, i) {
      WithoutStrippedIsKept(h, named, removals, i, 0);
      WithoutNothing(h[i].content, 0);
      assert h[i].content[0..] == h[i].content;
    }
    TrimmedIsSelection(h, named, removals, msgs);
  }

  /** The messages from index `i` on whose index is not in `drop`. */
  function WithoutIndices(msgs: History, drop: set<nat>, i: nat): History
    decreases |msgs| - i
  {
    if i >= |msgs| then []
    else (if i in drop then [] else [msgs[i]]) + WithoutIndices(msgs, drop, i + 1)
  }

  lemma DeleteAt<T>(front: seq<T>, x: T, gap: seq<T>, rest: seq<T>, s: seq<T>)
    requires s == front + [x] + gap + rest
    ensures s[..|front|] + s[|front| + 1..] == front + (gap + rest)
  {}

  lemma {:induction false} WithoutIndicesSkips(msgs: History, drop: set<nat>, i: nat, j: nat)
    requires i <= j <= |msgs| && forall k :: i <= k < j ==> k !in drop
    ensures WithoutIndices(msgs, drop, i) == msgs[i..j] + WithoutIndices(msgs, drop, j)
    decreases j - i
  {
    if i < j {
      WithoutIndicesSkips(msgs, drop, i + 1, j);
      var rest := WithoutIndices(msgs, drop, j);
      Associate([msgs[i]], msgs[i + 1..j], rest);
      assert [msgs[i]] + msgs[i + 1..j] == msgs[i..j];
    } else {
      assert msgs[i..j] == [];
    }
  }

  lemma NamedIsSkipped(input: History, drop: set<nat>, idx: nat)
    requires idx < |input| && idx in drop
    ensures WithoutIndices(input, drop, idx) == WithoutIndices(input, drop, idx + 1)
  {}

  /** One deletion: the entry after `front` goes and nothing that is kept moves. */
  lemma DeletingKeepsFilter(input: History, drop: set<nat>, idx: nat, bound: nat, msgs: History)
    requires idx < bound <= |input| && idx in drop && forall k :: idx < k < bound ==> k !in drop
    requires msgs == input[..bound] + WithoutIndices(input, drop, bound)
    ensures |msgs| >= bound && msgs[..idx] + msgs[idx + 1..] == input[..idx] + WithoutIndices(input, drop, idx)
  {
    var rest := WithoutIndices(input, drop, bound);
    WithoutIndicesSkips(input, drop, idx + 1, bound);
    assert input[..bound] == input[..idx] + [input[idx]] + input[idx + 1..bound];
    DeleteAt(input[..idx], input[idx], input[idx + 1..bound], rest, msgs);
    NamedIsSkipped(input, drop, idx);
  }

  /** The indices of a set in descending order. */
  method Descending(s: set<nat>, n: nat) returns (r: seq<nat>)
    requires forall i :: i in s ==> i < n
    ensures forall k :: 0 <= k < |r| ==> r[k] in s
    ensures forall i :: i in s ==> i in r
    ensures forall j, k :: 0 <= j < k < |r| ==> r[j] > r[k]
  {
    r := [];
    var i := n;
    while i > 0
      invariant 0 <= i <= n
      invariant forall k :: 0 <= k < |r| ==> r[k] in s && r[k] >= i
      invariant forall j :: j in s && j >= i ==> j in r
      invariant forall j, k :: 0 <= j < k < |r| ==> r[j] > r[k]
    {
      i := i - 1;
      if i in s {
        r := r + [i];
      }
    }
  }

  /** Between two consecutive deleted indices, and below the last one, nothing is dropped. */
  lemma GapIsKept(drop: set<nat>, order: seq<nat>, k: nat, low: nat, high: nat)
    requires k <= |order| && forall i :: i in drop ==> i in order
    requires forall j, m :: 0 <= j < m < |order| ==> order[j] > order[m]
    requires k > 0 ==> high <= order[k - 1]
    requires k < |order| ==> low > order[k]
    ensures forall i :: low <= i < high ==> i !in drop
  {}

  /** Deleting by index from the highest down is an order-preserving filter. */
  method DeleteDescending(input: History, drop: set<nat>, order: seq<nat>) returns (msgs: History)
    requires forall k :: 0 <= k < |order| ==> order[k] in drop && order[k] < |input|
    requires forall i :: i in drop ==> i in order
    requires forall j, k :: 0 <= j < k < |order| ==> order[j] > order[k]
    ensures msgs == WithoutIndices(input, drop, 0)
    ensures |msgs| + |order| == |input|
  {
    msgs := input;
    ghost var bound := |input|;
    for k := 0 to |order|
      invariant bound == if k == 0 then |input| else order[k - 1]
      invariant |msgs| == |input| - k && bound <= |msgs|
      invariant msgs == input[..bound] + WithoutIndices(input, drop, bound)
    {
      var idx := order[k];
      GapIsKept(drop, order, k, idx + 1, bound);
      DeletingKeepsFilter(input, drop, idx, bound, msgs);
      msgs := msgs[..idx] + msgs[idx + 1..];
      bound := idx;
    }
    GapIsKept(drop, order, |order|, 0, bound);
    WithoutIndicesSkips(input, drop, 0, bound);
    assert input[0..bound] == input[..bound];
  }

  lemma {:induction false} FilteredIsPurged(h: History, named: set<nat>, msgs: History, drop: set<nat>, i: nat)
    requires |msgs| == |h| && i <= |h|
    requires forall j :: 0 <= j < |h| ==> msgs[j] == Trimmed(h, named, j)
    requires forall j :: 0 <= j < |h| ==> (j in drop <==> Vanishes(h, named, j))
    ensures WithoutIndices(msgs, drop, i) == Purged(h, named, i)
    decreases |h| - i
  {
    if i < |h| {
      FilteredIsPurged(h, named, msgs, drop, i + 1);
    }
  }

  /** First pass: which messages go, and which blocks get new text. */
  method ApplyOperations(messages: History, ops: seq<PurgeOp>) returns (msgs: History, toRemove: set<nat>, replaced: nat)
    ensures msgs == Rewritten(messages, ops) && SameShape(messages, msgs)
    ensures toRemove == Named(ops, |messages|)
    ensures replaced == |set k | 0 <= k < |ops| && Replaces(messages, ops[k])|
  {
    msgs, toRemove, replaced := messages, {}, 0;

    for k := 0 to |ops|
      invariant msgs == Rewritten(messages, ops[..k])
      invariant toRemove == Named(ops[..k], |messages|)
      invariant replaced == ReplaceCount(messages, ops[..k])
      invariant SameShape(messages, msgs)
    {
      assert ops[..k + 1][..k] == ops[..k];
      match ops[k] {
        case Remove(msgId) =>
          if IndexOf(msgId) < |msgs| {
            toRemove := toRemove + {IndexOf(msgId)};
          }
        case Replace(msgId, blockIdx, rewrite) =>
          var idx := IndexOf(msgId);
          if idx < |msgs| && blockIdx < |msgs[idx].content| {
            var block := msgs[idx].content[blockIdx];
            var newText := rewrite(BlockText(block));
            RewriteOneKeepsShape(msgs, ops[k]);
            msgs := msgs[idx := msgs[idx].(content := msgs[idx].content[blockIdx := WithText(block, newText)])];
            replaced := replaced + 1;
          }
      }
    }
    assert ops[..|ops|] == ops;
    ReplaceCountIs(messages, ops);
  }

  method ExecutePurgeOperations(messages: History, ops: seq<PurgeOp>) returns (r: PurgeResult)
    ensures r.messages == Purged(Rewritten(messages, ops), Named(ops, |messages|), 0)
    ensures |r.messages| + r.removedCount == |messages|
    ensures r.replacedCount == |set k | 0 <= k < |ops| && Replaces(messages, ops[k])|
    ensures exists kept :: MessagesAt(Rewritten(messages, ops), Named(ops, |messages|), r.messages, kept)
  {
    var msgs, toRemove, replaced := ApplyOperations(messages, ops);
    ghost var named := toRemove;
    ghost var h := msgs;

    // The counterparts of what goes.
    var removals, rounds := CascadeToolPairRemovals(msgs, toRemove);

    // Blocks first, then the messages that were named or have none left.
    msgs := StripBlocks(msgs, toRemove, removals);
    for i := 0 to |msgs|
      invariant forall j :: j in toRemove <==> j in named || (0 <= j < i && msgs[j].content == [])
    {
      if msgs[i].content == [] {
        toRemove := toRemove + {i};
      }
    }
    var order := Descending(toRemove, |msgs|);
    FilteredIsPurged(h, named, msgs, toRemove, 0);
    msgs := DeleteDescending(msgs, toRemove, order);
    ghost var kept := PurgeIsSelection(h, named);
    r := PurgeResult(msgs, |order|, replaced);
  }
}
