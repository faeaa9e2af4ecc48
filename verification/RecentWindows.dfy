/** Recently read files and recently attached media (crates/agent-runtime/src/session.rs).

    Both are bounded queues: recording an entry drops an older one with the same
    path, appends, and trims the front. The specification is "the last k distinct
    paths, in the order of their latest recording", defined on the whole history
    of recordings without mentioning the queue. */
module RecentWindows {
  import opened Wrappers
  import opened Sequences
  import opened Texts

  // ----- The last k distinct entries ---------------------------------------------

  ghost predicate Recurs<E>(p: string, h: seq<E>, path: E -> string) {
    exists e :: e in h && path(e) == p
  }

  /** The entries of `h` that no later entry of the same path replaces, in order. */
  ghost function Latest<E>(h: seq<E>, path: E -> string): seq<E> {
    if h == [] then []
    else (if Recurs(path(h[0]), h[1..], path) then [] else [h[0]]) + Latest(h[1..], path)
  }

  ghost function Window<E>(k: nat, h: seq<E>, path: E -> string): seq<E> {
    LastK(k, Latest(h, path))
  }

  /** No two entries share a path. */
  ghost predicate Distinct<E>(s: seq<E>, path: E -> string) {
    s == [] || (!Recurs(path(s[0]), s[1..], path) && Distinct(s[1..], path))
  }

  lemma RecursOfParts<E>(p: string, a: seq<E>, b: seq<E>, path: E -> string)
    ensures Recurs(p, a + b, path) <==> Recurs(p, a, path) || Recurs(p, b, path)
  {}

  lemma RecursInTail<E>(p: string, s: seq<E>, path: E -> string)
    requires s != []
    ensures Recurs(p, s, path) <==> path(s[0]) == p || Recurs(p, s[1..], path)
  {}

  lemma DistinctCons<E>(e: E, rest: seq<E>, path: E -> string)
    requires Distinct(rest, path) && !Recurs(path(e), rest, path)
    ensures Distinct([e] + rest, path)
  {}

  lemma {:induction false} DistinctParts<E>(a: seq<E>, b: seq<E>, path: E -> string)
    ensures Distinct(a + b, path) <==>
            Distinct(a, path) && Distinct(b, path) && forall e :: e in a ==> !Recurs(path(e), b, path)
  {
    if a == [] {
      assert a + b == b;
    } else {
      assert (a + b)[1..] == a[1..] + b;
      DistinctParts(a[1..], b, path);
      RecursOfParts(path(a[0]), a[1..], b, path);
      assert forall e :: e in a <==> e == a[0] || e in a[1..] by { assert a == [a[0]] + a[1..]; }
    }
  }

  lemma {:induction false} LatestIsDistinct<E>(h: seq<E>, path: E -> string)
    ensures Distinct(Latest(h, path), path)
    ensures forall p :: Recurs(p, Latest(h, path), path) <==> Recurs(p, h, path)
  {
    if h != [] {
      var rest := Latest(h[1..], path);
      LatestIsDistinct(h[1..], path);
      forall p ensures Recurs(p, Latest(h, path), path) <==> Recurs(p, h, path) {
        RecursInTail(p, h, path);
        if !Recurs(path(h[0]), h[1..], path) {
          RecursInTail(p, [h[0]] + rest, path);
          assert ([h[0]] + rest)[1..] == rest;
        }
      }
      if !Recurs(path(h[0]), h[1..], path) {
        DistinctCons(h[0], rest, path);
      } else {
        assert Latest(h, path) == [] + rest == rest;
      }
    }
  }

  /** Exactly the paths ever recorded, each with the entry recorded last. */
  lemma {:induction false} LatestHolds<E>(h: seq<E>, path: E -> string, e: E)
    ensures e in Latest(h, path) <==>
            exists i :: 0 <= i < |h| && h[i] == e && !Recurs(path(e), h[i + 1..], path)
  {
    if h != [] {
      LatestHolds(h[1..], path, e);
      if e in Latest(h[1..], path) {
        var i :| 0 <= i < |h[1..]| && h[1..][i] == e && !Recurs(path(e), h[1..][i + 1..], path);
        assert h[1..][i + 1..] == h[i + 2..] && h[i + 1] == e;
      }
      if i :| 0 <= i < |h| && h[i] == e && !Recurs(path(e), h[i + 1..], path) {
        if i > 0 {
          assert h[1..][i - 1] == e && h[1..][i..] == h[i + 1..];
        }
      }
    }
  }

  // ----- Recording ------------------------------------------------------------------

  /** The positions of the entries that no later entry of the same path replaces. */
  ghost function LastOnes<E>(h: seq<E>, path: E -> string): (s: set<nat>)
    ensures forall i: nat :: i in s <==> i < |h| && forall j :: i < j < |h| ==> path(h[j]) != path(h[i])
  {
    set i: nat | i < |h| && forall j :: i < j < |h| ==> path(h[j]) != path(h[i])
  }

  lemma {:induction false} LatestFrom<E>(h: seq<E>, i: nat, path: E -> string) returns (at: seq<nat>)
    requires i <= |h|
    ensures Picks(h, i, LastOnes(h, path), Latest(h[i..], path), at)
    decreases |h| - i
  {
    if i == |h| {
      at := [];
      PicksNothing(h, i, LastOnes(h, path));
    } else {
      var rest := Latest(h[i + 1..], path);
      at := LatestFrom(h, i + 1, path);
      assert h[i..][0] == h[i] && h[i..][1..] == h[i + 1..];
      assert Recurs(path(h[i]), h[i + 1..], path) <==> i !in LastOnes(h, path);
      if i in LastOnes(h, path) {
        PicksOneMore(h, i, LastOnes(h, path), rest, at);
        at := [i] + at;
      } else {
        PicksPast(h, i, LastOnes(h, path), rest, at);
        assert [] + rest == rest;
      }
    }
  }

  /** The specification holds the last recording of each path, in the order of these recordings. */
  lemma LatestIsSelection<E>(h: seq<E>, path: E -> string) returns (at: seq<nat>)
    ensures Picks(h, 0, LastOnes(h, path), Latest(h, path), at)
  {
    at := LatestFrom(h, 0, path);
    assert h[0..] == h;
  }

  ghost function WithoutPath<E>(q: seq<E>, p: string, path: E -> string): seq<E> {
    if q == [] then []
    else (if path(q[0]) == p then [] else [q[0]]) + WithoutPath(q[1..], p, path)
  }

  /** Drop the entry with the same path, then append. */
  ghost function Touch<E>(q: seq<E>, e: E, path: E -> string): seq<E> {
    WithoutPath(q, path(e), path) + [e]
  }

  ghost function TouchAll<E>(q: seq<E>, es: seq<E>, path: E -> string): seq<E> {
    if es == [] then q else Touch(TouchAll(q, es[..|es| - 1], path), es[|es| - 1], path)
  }

  lemma {:induction false} WithoutPathOfParts<E>(a: seq<E>, b: seq<E>, p: string, path: E -> string)
    ensures WithoutPath(a + b, p, path) == WithoutPath(a, p, path) + WithoutPath(b, p, path)
  {
    if a == [] {
      assert a + b == b;
    } else {
      assert (a + b)[1..] == a[1..] + b;
      WithoutPathOfParts(a[1..], b, p, path);
    }
  }

  lemma {:induction false} WithoutAbsentPath<E>(q: seq<E>, p: string, path: E -> string)
    requires !Recurs(p, q, path)
    ensures WithoutPath(q, p, path) == q
  {
    if q != [] {
      RecursInTail(p, q, path);
      WithoutAbsentPath(q[1..], p, path);
    }
  }

  lemma {:induction false} WithoutPathIsDistinct<E>(q: seq<E>, p: string, path: E -> string)
    requires Distinct(q, path)
    ensures var r := WithoutPath(q, p, path);
            Distinct(r, path) && |r| == |q| - (if Recurs(p, q, path) then 1 else 0) &&
            forall x :: Recurs(x, r, path) <==> x != p && Recurs(x, q, path)
  {
    if q != [] {
      var head, rest := q[0], WithoutPath(q[1..], p, path);
      WithoutPathIsDistinct(q[1..], p, path);
      assert ([head] + rest)[1..] == rest;
      forall x ensures Recurs(x, WithoutPath(q, p, path), path) <==> x != p && Recurs(x, q, path) {
        RecursInTail(x, q, path);
        RecursInTail(x, [head] + rest, path);
      }
      RecursInTail(p, q, path);
      if path(head) == p {
        assert WithoutPath(q, p, path) == [] + rest == rest;
      } else {
        DistinctCons(head, rest, path);
      }
    }
  }

  lemma TouchIsDistinct<E>(q: seq<E>, e: E, path: E -> string)
    requires Distinct(q, path)
    ensures Distinct(Touch(q, e, path), path)
    ensures |Touch(q, e, path)| == |q| + if Recurs(path(e), q, path) then 0 else 1
  {
    var r := WithoutPath(q, path(e), path);
    WithoutPathIsDistinct(q, path(e), path);
    assert Distinct([e], path) by { assert [e][1..] == []; }
    forall x | x in r ensures !Recurs(path(x), [e], path) {
      assert Recurs(path(x), r, path);
    }
    DistinctParts(r, [e], path);
  }

  /** Recording one more entry, on the specification's side. */
  lemma {:induction false} LatestExtends<E>(h: seq<E>, e: E, path: E -> string)
    ensures Latest(h + [e], path) == Touch(Latest(h, path), e, path)
  {
    if h == [] {
      assert h + [e] == [e] && [e][1..] == [];
    } else {
      var rest := h[1..];
      assert (h + [e])[1..] == rest + [e];
      LatestExtends(rest, e, path);
      RecursOfParts(path(h[0]), rest, [e], path);
      assert Recurs(path(h[0]), [e], path) <==> path(e) == path(h[0]) by { assert e in [e]; }
      if !Recurs(path(h[0]), rest, path) {
        var one := [h[0]];
        WithoutPathOfParts(one, Latest(rest, path), path(e), path);
        assert one[1..] == [] && WithoutPath(one, path(e), path) == if path(h[0]) == path(e) then [] else one;
        assert Latest(h, path) == one + Latest(rest, path);
        if path(h[0]) == path(e) {
          assert [] + WithoutPath(Latest(rest, path), path(e), path) == WithoutPath(Latest(rest, path), path(e), path);
        }
      } else {
        assert Latest(h, path) == [] + Latest(rest, path) == Latest(rest, path);
        assert Latest(h + [e], path) == [] + Latest(rest + [e], path);
      }
    }
  }

  /** `q` is an end piece of `full` with at least the last `k` entries. */
  ghost predicate Covers<E>(k: nat, full: seq<E>, q: seq<E>) {
    |q| <= |full| && full[|full| - |q|..] == q && (|q| >= k || |q| == |full|)
  }

  lemma LastKCovers<E>(k: nat, full: seq<E>)
    ensures Covers(k, full, LastK(k, full))
  {}

  lemma SameLastK<E>(k: nat, full: seq<E>, q: seq<E>)
    requires Covers(k, full, q)
    ensures LastK(k, full) == LastK(k, q)
  {}

  lemma TouchCovers<E>(k: nat, full: seq<E>, q: seq<E>, e: E, path: E -> string)
    requires Covers(k, full, q) && Distinct(full, path)
    ensures Covers(k, Touch(full, e, path), Touch(q, e, path)) && Distinct(Touch(full, e, path), path)
  {
    var front := full[..|full| - |q|];
    assert full == front + q;
    DistinctParts(front, q, path);
    TouchIsDistinct(full, e, path);
    TouchIsDistinct(q, e, path);
    RecursOfParts(path(e), front, q, path);
    WithoutPathOfParts(front, q, path(e), path);
    var more := WithoutPath(front, path(e), path);
    assert Touch(full, e, path) == more + Touch(q, e, path);
    if |q| < k {
      assert front == [] && full == q;
    } else if Recurs(path(e), q, path) {
      assert !Recurs(path(e), front, path) by {
        assert forall x :: x in front ==> path(x) != path(e);
      }
    }
  }

  lemma {:induction false} TouchAllCovers<E>(k: nat, full: seq<E>, q: seq<E>, es: seq<E>, path: E -> string)
    requires Covers(k, full, q) && Distinct(full, path)
    ensures Covers(k, TouchAll(full, es, path), TouchAll(q, es, path)) && Distinct(TouchAll(full, es, path), path)
  {
    if es != [] {
      TouchAllCovers(k, full, q, es[..|es| - 1], path);
      TouchCovers(k, TouchAll(full, es[..|es| - 1], path), TouchAll(q, es[..|es| - 1], path), es[|es| - 1], path);
    }
  }

  lemma {:induction false} LatestOfMore<E>(h: seq<E>, es: seq<E>, path: E -> string)
    ensures Latest(h + es, path) == TouchAll(Latest(h, path), es, path)
  {
    if es == [] {
      assert h + es == h;
    } else {
      LatestOfMore(h, es[..|es| - 1], path);
      LatestExtends(h + es[..|es| - 1], es[|es| - 1], path);
      assert h + es == (h + es[..|es| - 1]) + [es[|es| - 1]];
    }
  }

  /** Trimming after any number of recordings loses nothing the window needs: a batch recorded on
      the trimmed queue gives the window of the whole history. */
  lemma WindowOfMore<E>(k: nat, h: seq<E>, es: seq<E>, path: E -> string)
    ensures LastK(k, TouchAll(Window(k, h, path), es, path)) == Window(k, h + es, path)
  {
    var full := Latest(h, path);
    LatestIsDistinct(h, path);
    LastKCovers(k, full);
    TouchAllCovers(k, full, LastK(k, full), es, path);
    LatestOfMore(h, es, path);
    SameLastK(k, TouchAll(full, es, path), TouchAll(LastK(k, full), es, path));
  }

  lemma WindowIsDistinct<E>(k: nat, h: seq<E>, path: E -> string)
    ensures Distinct(Window(k, h, path), path)
  {
    var s := Latest(h, path);
    LatestIsDistinct(h, path);
    if |s| > k {
      assert s == s[..|s| - k] + s[|s| - k..];
      DistinctParts(s[..|s| - k], s[|s| - k..], path);
    }
  }

  lemma WindowOfOne<E>(k: nat, h: seq<E>, path: E -> string)
    requires k > 0 && |h| == 1
    ensures Window(k, h, path) == h
  {
    assert h[1..] == [] && Latest(h, path) == [h[0]] + Latest([], path);
  }

  /** Recording batch after batch, trimming once per batch. */
  ghost function AfterBatches<E>(k: nat, batches: seq<seq<E>>, path: E -> string): seq<E> {
    if batches == [] then []
    else LastK(k, TouchAll(AfterBatches(k, batches[..|batches| - 1], path), batches[|batches| - 1], path))
  }

  /** How recordings are split into batches does not matter. */
  lemma {:induction false} BatchesDoNotMatter<E>(k: nat, batches: seq<seq<E>>, path: E -> string)
    ensures AfterBatches(k, batches, path) == Window(k, Flatten(batches), path)
  {
    if batches != [] {
      var n := |batches| - 1;
      BatchesDoNotMatter(k, batches[..n], path);
      WindowOfMore(k, Flatten(batches[..n]), batches[n], path);
    }
  }

  // ----- Queue operations -------------------------------------------------------------

  lemma RemovedOne<E>(q: seq<E>, i: nat, p: string, path: E -> string)
    requires i < |q| && path(q[i]) == p && Distinct(q, path) && !Recurs(p, q[..i], path)
    ensures q[..i] + q[i + 1..] == WithoutPath(q, p, path)
  {
    var a, b := q[..i], q[i..];
    assert q == a + b && b[1..] == q[i + 1..];
    DistinctParts(a, b, path);
    WithoutPathOfParts(a, b, p, path);
    WithoutAbsentPath(a, p, path);
    WithoutAbsentPath(b[1..], p, path);
    assert WithoutPath(b, p, path) == b[1..];
  }

  /** Remove the first entry with that path, if there is one. */
  method RemoveExisting<E>(q: seq<E>, p: string, path: E -> string) returns (r: seq<E>)
    requires Distinct(q, path)
    ensures r == WithoutPath(q, p, path)
  {
    var i := 0;
    while i < |q| && path(q[i]) != p
      invariant i <= |q| && !Recurs(p, q[..i], path)
    {
      RecursOfParts(p, q[..i], [q[i]], path);
      assert q[..i + 1] == q[..i] + [q[i]];
      i := i + 1;
    }
    r := if i < |q| then q[..i] + q[i + 1..] else q;
    if i < |q| {
      RemovedOne(q, i, p, path);
    } else {
      assert q[..i] == q;
      WithoutAbsentPath(q, p, path);
    }
  }

  method TrimFront<E>(q: seq<E>, k: nat) returns (r: seq<E>)
    ensures r == LastK(k, q)
  {
    r := q;
    while |r| > k
      invariant |r| <= |q| && r == q[|q| - |r|..] && (|r| >= k || r == q)
    {
      r := r[1..];
    }
  }

  /** The recording loop of one batch. */
  method TouchEach<E>(start: seq<E>, es: seq<E>, path: E -> string) returns (q: seq<E>)
    requires Distinct(start, path)
    ensures q == TouchAll(start, es, path)
  {
    q := start;
    for i := 0 to |es|
      invariant q == TouchAll(start, es[..i], path) && Distinct(q, path)
    {
      var kept := RemoveExisting(q, path(es[i]), path);
      TouchIsDistinct(q, es[i], path);
      assert es[..i + 1][..i] == es[..i];
      q := kept + [es[i]];
    }
    assert es[..|es|] == es;
  }

  // ----- Media attachments -----------------------------------------------------------------

  datatype RecentMedia = RecentMedia(path: string)

  function MediaPath(e: RecentMedia): string {
    e.path
  }

  function Media(paths: seq<string>): (m: seq<RecentMedia>)
    ensures |m| == |paths| && forall i :: 0 <= i < |paths| ==> m[i].path == paths[i]
  {
    seq(|paths|, i requires 0 <= i < |paths| => RecentMedia(paths[i]))
  }

  class RecentMediaQueue {
    const limit: nat
    var media: seq<RecentMedia>
    ghost var history: seq<RecentMedia>   // everything recorded

    ghost predicate Valid()
      reads this
    {
      media == Window(limit, history, MediaPath)
    }

    constructor (limit: nat)
      ensures Valid() && history == [] && this.limit == limit
    {
      this.limit, media, history := limit, [], [];
    }

    method RecordMediaAttachments(paths: seq<string>)
      requires Valid()
      modifies this
      ensures Valid() && history == old(history) + Media(paths)
    {
      if paths == [] {
        return;
      }
      var all := Media(paths);
      WindowIsDistinct(limit, history, MediaPath);
      var q := TouchEach(media, all, MediaPath);
      WindowOfMore(limit, history, all, MediaPath);
      media := TrimFront(q, limit);
      history := history + all;
    }
  }

  // ----- Read files --------------------------------------------------------------------------

  /** The arguments of a `read_file` call; `path` is absent when it is missing or not a string. */
  datatype Input = Input(path: Option<string>, rest: string)

  datatype RecentReadFile = RecentReadFile(path: string, input: Input, preview: string)

  function ReadPath(e: RecentReadFile): string {
    e.path
  }

  /** `sanitize` strips hidden characters; `space` is the white space `trim` removes. */
  datatype Policy = Policy(limit: nat, snippet: nat, sanitize: string -> string, space: char -> bool)

  function SummarizeChars(text: string, limit: nat): (r: string) {
    if |text| <= limit then text
    else text[..if limit < 3 then 0 else limit - 3] + "..."
  }

  /** A text within the limit is its own preview. Of a longer one as much is kept as leaves room for the
      ellipsis, so that the preview respects its limit unless that has no room even for the ellipsis. */
  lemma SummaryFitsIff(text: string, limit: nat)
    ensures |SummarizeChars(text, limit)| <= limit <==> |text| <= limit || limit >= 3
    ensures var r := SummarizeChars(text, limit);
            if |text| <= limit then r == text
            else |r| == (if limit < 3 then 3 else limit) && r[..|r| - 3] <= text && r[|r| - 3..] == "..."
  {}

  /** What one recording adds to the history: nothing for a call without a path. */
  function Recording(policy: Policy, input: Input, output: string): seq<RecentReadFile> {
    match input.path
    case None => []
    case Some(path) => [RecentReadFile(path, input, SummarizeChars(policy.sanitize(output), policy.snippet))]
  }

  class RecentReadFiles {
    const policy: Policy
    var files: seq<RecentReadFile>
    ghost var history: seq<RecentReadFile>   // everything recorded

    ghost predicate Valid()
      reads this
    {
      files == Window(policy.limit, history, ReadPath)
    }

    constructor (policy: Policy)
      ensures Valid() && history == [] && this.policy == policy
    {
      this.policy, files, history := policy, [], [];
    }

    method RecordReadFileResult(input: Input, output: string)
      requires Valid()
      modifies this
      ensures Valid() && history == old(history) + Recording(policy, input, output)
      ensures history == old(history) +
                if input.path.None? then []
                else [RecentReadFile(input.path.value, input, SummarizeChars(policy.sanitize(output), policy.snippet))]
    {
      if input.path.None? {
        return;
      }
      var path := input.path.value;
      var sanitized := policy.sanitize(output);
      var entry := RecentReadFile(path, input, SummarizeChars(sanitized, policy.snippet));
      WindowIsDistinct(policy.limit, history, ReadPath);
      var kept := RemoveExisting(files, path, ReadPath);
      assert [entry][..0] == [];
      assert TouchAll(files, [entry], ReadPath) == kept + [entry];
      WindowOfMore(policy.limit, history, [entry], ReadPath);
      files := TrimFront(kept + [entry], policy.limit);
      history := history + [entry];
    }
  }

  // ----- Rebuilding the read files from a transcript ----------------------------------------------

  datatype Block =
    | ToolUse(id: string, name: string, input: Input)
    | ToolResult(toolUseId: string, content: string, blockTexts: seq<Option<string>>, isError: Option<bool>)
    | OtherBlock

  datatype Message = Message(role: string, content: seq<Block>)

  /** One block with the role of its message. */
  datatype Item = Item(role: string, block: Block)

  function ItemsOf(m: Message): (items: seq<Item>)
    ensures |items| == |m.content|
  {
    seq(|m.content|, i requires 0 <= i < |m.content| => Item(m.role, m.content[i]))
  }

  function Items(messages: seq<Message>): seq<Item> {
    if messages == [] then [] else Items(messages[..|messages| - 1]) + ItemsOf(messages[|messages| - 1])
  }

  predicate IsRead(item: Item) {
    item.role == "assistant" && item.block.ToolUse? && item.block.name == "read_file"
  }

  /** A result with an explicit success flag; an absent flag does not count. */
  predicate IsSuccess(item: Item) {
    item.role == "user" && item.block.ToolResult? && item.block.isError == Some(false)
  }

  type Calls = map<string, Input>

  /** Each read call's arguments by id; a repeated id keeps the last. */
  function CallsIn(items: seq<Item>): Calls {
    if items == [] then map[]
    else
      var before, item := CallsIn(items[..|items| - 1]), items[|items| - 1];
      if IsRead(item) then before[item.block.id := item.block.input] else before
  }

  predicate NoText(texts: seq<Option<string>>) {
    forall t :: t in texts ==> t.None?
  }

  /** The texts there are, with newlines between them. */
  function JoinTexts(texts: seq<Option<string>>): string {
    if texts == [] then ""
    else
      var init, t := texts[..|texts| - 1], texts[|texts| - 1];
      if t.None? then JoinTexts(init)
      else if NoText(init) then t.value
      else JoinTexts(init) + "\n" + t.value
  }

  lemma {:induction false} NoTextIsEmpty(texts: seq<Option<string>>)
    ensures NoText(texts) ==> JoinTexts(texts) == ""
  {
    if texts != [] {
      NoTextIsEmpty(texts[..|texts| - 1]);
    }
  }

  /** Read from the front: absent texts are passed over, and a newline stands between two texts. */
  lemma {:induction false} JoinFromFront(t: Option<string>, rest: seq<Option<string>>)
    ensures JoinTexts([t] + rest) ==
            if t.None? then JoinTexts(rest) else if NoText(rest) then t.value else t.value + "\n" + JoinTexts(rest)
  {
    var all := [t] + rest;
    if rest == [] {
      assert all[..0] == [];
    } else {
      var init, last := rest[..|rest| - 1], rest[|rest| - 1];
      assert all[..|all| - 1] == [t] + init && rest == init + [last];
      JoinFromFront(t, init);
      NoTextIsEmpty(init);
    }
  }

  /** The payload of a result: its trimmed content, or its text blocks if that is empty. */
  function PayloadOf(policy: Policy, b: Block): string
    requires b.ToolResult?
  {
    if Trim(b.content, policy.space) == [] then JoinTexts(b.blockTexts) else Trim(b.content, policy.space)
  }

  /** What a result adds to the history on rebuilding, given the calls of the transcript: the text is
      sanitised on its way to the recorder. */
  function ReadOf(policy: Policy, calls: Calls, item: Item): seq<RecentReadFile> {
    if IsSuccess(item) && item.block.toolUseId in calls then
      Recording(policy, calls[item.block.toolUseId], policy.sanitize(PayloadOf(policy, item.block)))
    else []
  }

  /** The rebuild: results in order, looked up among all the calls of the transcript. */
  function RebuiltReads(policy: Policy, calls: Calls, items: seq<Item>): seq<RecentReadFile> {
    if items == [] then []
    else RebuiltReads(policy, calls, items[..|items| - 1]) + ReadOf(policy, calls, items[|items| - 1])
  }

  /** For each result, the arguments of the read call it came from, known when it was live; none if it
      came from another tool's call. */
  type Origins = nat -> Option<Input>

  /** What a result adds live: it is recorded with the arguments of its own call. */
  function LiveRead(policy: Policy, item: Item, own: Option<Input>): seq<RecentReadFile> {
    if IsSuccess(item) && own.Some? then Recording(policy, own.value, PayloadOf(policy, item.block)) else []
  }

  /** The live path: one pass over the results as they come. */
  function LiveReads(policy: Policy, items: seq<Item>, own: Origins): seq<RecentReadFile> {
    if items == [] then []
    else
      var n := |items| - 1;
      LiveReads(policy, items[..n], own) + LiveRead(policy, items[n], own(n))
  }

  ghost predicate Idempotent(f: string -> string) {
    forall s :: f(f(s)) == f(s)
  }

  /** Arguments without a path record nothing. */
  function WithPath(input: Option<Input>): Option<Input> {
    if input.Some? && input.value.path.Some? then input else None
  }

  /** The arguments a result with that id is rebuilt with. */
  function Usable(calls: Calls, id: string): Option<Input> {
    WithPath(if id in calls then Some(calls[id]) else None)
  }

  /** The call found under the id of result `i` in the whole transcript has the arguments of its own. */
  ghost predicate Agrees(items: seq<Item>, own: Origins, i: nat)
    requires i < |items|
  {
    IsSuccess(items[i]) ==> Usable(CallsIn(items), items[i].block.toolUseId) == WithPath(own(i))
  }

  lemma RecordingIs(policy: Policy, input: Input, output: string)
    ensures |Recording(policy, input, output)| == if input.path.Some? then 1 else 0
  {}

  lemma ReadIsUsable(policy: Policy, calls: Calls, item: Item, own: Option<Input>)
    ensures |ReadOf(policy, calls, item)| == if IsSuccess(item) && Usable(calls, item.block.toolUseId).Some? then 1 else 0
    ensures |LiveRead(policy, item, own)| == if IsSuccess(item) && WithPath(own).Some? then 1 else 0
  {
    if IsSuccess(item) {
      var text := PayloadOf(policy, item.block);
      if item.block.toolUseId in calls {
        RecordingIs(policy, calls[item.block.toolUseId], policy.sanitize(text));
      }
      if own.Some? {
        RecordingIs(policy, own.value, text);
      }
    }
  }

  lemma SameReadIff(policy: Policy, items: seq<Item>, own: Origins, i: nat)
    requires Idempotent(policy.sanitize) && i < |items|
    ensures ReadOf(policy, CallsIn(items), items[i]) == LiveRead(policy, items[i], own(i)) <==> Agrees(items, own, i)
  {
    if IsSuccess(items[i]) {
      var text := PayloadOf(policy, items[i].block);
      assert policy.sanitize(policy.sanitize(text)) == policy.sanitize(text);
      ReadIsUsable(policy, CallsIn(items), items[i], own(i));
    }
  }

  /** One more item on each side. */
  lemma OneMoreRead(policy: Policy, calls: Calls, items: seq<Item>, own: Origins, n: nat)
    requires n < |items|
    ensures RebuiltReads(policy, calls, items[..n + 1]) == RebuiltReads(policy, calls, items[..n]) + ReadOf(policy, calls, items[n])
    ensures LiveReads(policy, items[..n + 1], own) == LiveReads(policy, items[..n], own) + LiveRead(policy, items[n], own(n))
  {
    assert items[..n + 1][..n] == items[..n];
  }

  ghost predicate SameReads(policy: Policy, items: seq<Item>, own: Origins, n: nat)
    requires n <= |items|
  {
    RebuiltReads(policy, CallsIn(items), items[..n]) == LiveReads(policy, items[..n], own)
  }

  lemma SameReadsExtend(policy: Policy, items: seq<Item>, own: Origins, n: nat)
    requires Idempotent(policy.sanitize) && n < |items|
    ensures SameReads(policy, items, own, n) ==> (SameReads(policy, items, own, n + 1) <==> Agrees(items, own, n))
  {
    if SameReads(policy, items, own, n) {
      OneMoreRead(policy, CallsIn(items), items, own, n);
      SameReadIff(policy, items, own, n);
      SameAddition(LiveReads(policy, items[..n], own), ReadOf(policy, CallsIn(items), items[n]), LiveRead(policy, items[n], own(n)));
    }
  }

  ghost predicate AllAgree(items: seq<Item>, own: Origins, n: nat)
    requires n <= |items|
  {
    forall i :: 0 <= i < n ==> Agrees(items, own, i)
  }

  ghost predicate SameThroughout(policy: Policy, items: seq<Item>, own: Origins, n: nat)
    requires n <= |items|
  {
    forall m :: 0 <= m <= n ==> SameReads(policy, items, own, m)
  }

  lemma AllAgreeExtends(items: seq<Item>, own: Origins, n: nat)
    requires n < |items|
    ensures AllAgree(items, own, n + 1) <==> AllAgree(items, own, n) && Agrees(items, own, n)
  {}

  lemma SameThroughoutExtends(policy: Policy, items: seq<Item>, own: Origins, n: nat)
    requires n < |items|
    ensures SameThroughout(policy, items, own, n + 1) <==>
            SameThroughout(policy, items, own, n) && SameReads(policy, items, own, n + 1)
    ensures SameThroughout(policy, items, own, n) ==> SameReads(policy, items, own, n)
  {}

  /** The two-pass rebuild records what live recording did, item for item, iff each result finds under
      its id, in the whole transcript, the arguments of the call it came from. */
  lemma {:induction false} RebuildFollowsLiveIff(policy: Policy, items: seq<Item>, own: Origins, n: nat)
    requires Idempotent(policy.sanitize) && n <= |items|
    ensures SameThroughout(policy, items, own, n) <==> AllAgree(items, own, n)
  {
    if n > 0 {
      RebuildFollowsLiveIff(policy, items, own, n - 1);
      AllAgreeExtends(items, own, n - 1);
      SameThroughoutExtends(policy, items, own, n - 1);
      SameReadsExtend(policy, items, own, n - 1);
    }
  }

  ghost predicate CameFrom(items: seq<Item>, i: nat, c: nat, input: Input)
    requires i < |items|
  {
    c < i && IsSuccess(items[i]) && IsRead(items[c]) && items[c].block.id == items[i].block.toolUseId && items[c].block.input == input
  }

  /** What each result came from is a read call before it, under its id. */
  ghost predicate OriginsComeFirst(items: seq<Item>, own: Origins) {
    forall i | 0 <= i < |items| && IsSuccess(items[i]) && own(i).Some? :: exists c: nat :: CameFrom(items, i, c, own(i).value)
  }

  /** No read call without a path takes over the id of one with a path. */
  ghost predicate PathsStay(items: seq<Item>) {
    forall i, j | 0 <= i < j < |items| && IsRead(items[i]) && IsRead(items[j]) && items[i].block.id == items[j].block.id ::
      items[i].block.input.path.Some? ==> items[j].block.input.path.Some?
  }

  lemma CallsOfOneMore(items: seq<Item>, n: nat)
    requires n < |items|
    ensures CallsIn(items[..n + 1]) ==
            var calls := CallsIn(items[..n]);
            if IsRead(items[n]) then calls[items[n].block.id := items[n].block.input] else calls
  {
    assert items[..n + 1][..n] == items[..n];
  }

  /** So an id called with a path stays usable. */
  lemma {:induction false} PathIsKept(items: seq<Item>, c: nat, n: nat)
    requires PathsStay(items) && c < n <= |items| && IsRead(items[c]) && items[c].block.input.path.Some?
    ensures Usable(CallsIn(items[..n]), items[c].block.id).Some?
    decreases n
  {
    CallsOfOneMore(items, n - 1);
    if c < n - 1 {
      PathIsKept(items, c, n - 1);
    }
  }

  lemma LiveReadsLess(policy: Policy, items: seq<Item>, own: Origins, i: nat)
    requires OriginsComeFirst(items, own) && PathsStay(items) && i < |items|
    ensures |LiveRead(policy, items[i], own(i))| <= |ReadOf(policy, CallsIn(items), items[i])|
  {
    ReadIsUsable(policy, CallsIn(items), items[i], own(i));
    if IsSuccess(items[i]) && WithPath(own(i)).Some? {
      var c: nat :| CameFrom(items, i, c, own(i).value);
      PathIsKept(items, c, |items|);
      assert items[..|items|] == items;
    }
  }

  /** What the two sides have after `n` items: no fewer rebuilt than live. */
  ghost predicate LiveIsShorter(policy: Policy, items: seq<Item>, own: Origins, n: nat)
    requires n <= |items|
  {
    |LiveReads(policy, items[..n], own)| <= |RebuiltReads(policy, CallsIn(items), items[..n])|
  }

  lemma NoReadsYet(policy: Policy, items: seq<Item>, own: Origins)
    ensures SameReads(policy, items, own, 0) && LiveIsShorter(policy, items, own, 0) && AllAgree(items, own, 0)
  {}

  lemma NextReadIff(policy: Policy, items: seq<Item>, own: Origins, n: nat)
    requires Idempotent(policy.sanitize) && OriginsComeFirst(items, own) && PathsStay(items)
    requires n < |items| && LiveIsShorter(policy, items, own, n)
    ensures SameReads(policy, items, own, n + 1) <==> SameReads(policy, items, own, n) && Agrees(items, own, n)
    ensures LiveIsShorter(policy, items, own, n + 1)
  {
    OneMoreRead(policy, CallsIn(items), items, own, n);
    LiveReadsLess(policy, items, own, n);
    SameReadsExtend(policy, items, own, n);
    LongerByParts(LiveReads(policy, items[..n], own), LiveRead(policy, items[n], own(n)),
                  RebuiltReads(policy, CallsIn(items), items[..n]), ReadOf(policy, CallsIn(items), items[n]));
  }

  /** So where each result came from a call before it and no path is lost, the two agree on the whole
      under that condition and no other: no difference at one result is made good at another. */
  lemma RebuildIsReplayIff(policy: Policy, items: seq<Item>, own: Origins, n: nat)
    requires Idempotent(policy.sanitize) && OriginsComeFirst(items, own) && PathsStay(items) && n <= |items|
    ensures SameReads(policy, items, own, n) <==> AllAgree(items, own, n)
  {
    NoReadsYet(policy, items, own);
    for i := 0 to n
      invariant LiveIsShorter(policy, items, own, i)
      invariant SameReads(policy, items, own, i) <==> AllAgree(items, own, i)
    {
      NextReadIff(policy, items, own, i);
      AllAgreeExtends(items, own, i);
    }
  }

  /** The whole transcript. */
  lemma RebuildIsReplay(policy: Policy, items: seq<Item>, own: Origins)
    requires Idempotent(policy.sanitize) && AllAgree(items, own, |items|)
    ensures RebuiltReads(policy, CallsIn(items), items) == LiveReads(policy, items, own)
  {
    RebuildFollowsLiveIff(policy, items, own, |items|);
    assert SameReads(policy, items, own, |items|) && items[..|items|] == items;
  }

  ghost predicate UniqueReadIds(items: seq<Item>) {
    forall i, j :: 0 <= i < j < |items| && IsRead(items[i]) && IsRead(items[j]) ==> items[i].block.id != items[j].block.id
  }

  /** A result under the id of a read call came from a read call. */
  ghost predicate ReadsAreOrigins(items: seq<Item>, own: Origins) {
    forall i, c | 0 <= i < |items| && 0 <= c < |items| && IsSuccess(items[i]) && IsRead(items[c]) ::
      items[c].block.id == items[i].block.toolUseId ==> own(i).Some?
  }

  /** A known id has the arguments of some call before. */
  lemma {:induction false} CallHasSource(items: seq<Item>, n: nat, id: string) returns (c: nat)
    requires n <= |items| && id in CallsIn(items[..n])
    ensures c < n && IsRead(items[c]) && items[c].block.id == id && items[c].block.input == CallsIn(items[..n])[id]
  {
    CallsOfOneMore(items, n - 1);
    if IsRead(items[n - 1]) && items[n - 1].block.id == id {
      c := n - 1;
    } else {
      c := CallHasSource(items, n - 1, id);
    }
  }

  lemma {:induction false} CallIsKnown(items: seq<Item>, c: nat, n: nat)
    requires c < n <= |items| && IsRead(items[c])
    ensures items[c].block.id in CallsIn(items[..n])
    decreases n
  {
    CallsOfOneMore(items, n - 1);
    if c < n - 1 {
      CallIsKnown(items, c, n - 1);
    }
  }

  /** In the usual transcript, with unique read ids and each result of a read after its call, all agree. */
  lemma UsualTranscript(items: seq<Item>, own: Origins)
    requires UniqueReadIds(items) && OriginsComeFirst(items, own) && ReadsAreOrigins(items, own)
    ensures AllAgree(items, own, |items|)
  {
    assert items[..|items|] == items;
    forall i | 0 <= i < |items| && IsSuccess(items[i]) ensures Agrees(items, own, i) {
      var id := items[i].block.toolUseId;
      if own(i).Some? {
        var c: nat :| CameFrom(items, i, c, own(i).value);
        CallIsKnown(items, c, |items|);
      }
      if id in CallsIn(items) {
        var d := CallHasSource(items, |items|, id);
      }
    }
  }

  // ----- Transcripts on which the two part ------------------------------------------------------

  lemma NoReadHere(policy: Policy, calls: Calls, items: seq<Item>, own: Origins, n: nat)
    requires n < |items| && !IsSuccess(items[n])
    ensures RebuiltReads(policy, calls, items[..n + 1]) == RebuiltReads(policy, calls, items[..n])
    ensures LiveReads(policy, items[..n + 1], own) == LiveReads(policy, items[..n], own)
  {
    OneMoreRead(policy, calls, items, own, n);
  }

  lemma NoItemsNoReads(policy: Policy, calls: Calls, items: seq<Item>, own: Origins, x: seq<RecentReadFile>)
    ensures RebuiltReads(policy, calls, items[..0]) + x == x && LiveReads(policy, items[..0], own) + x == x
  {}

  /** A result met before the call with its id, and not come from it, is rebuilt as a read. */
  lemma EarlyResultDiffers(policy: Policy, result: Item, call: Item, own: Origins)
    requires IsSuccess(result) && IsRead(call) && result.block.toolUseId == call.block.id && call.block.input.path.Some?
    requires own(0) == None
    ensures LiveReads(policy, [result, call], own) == []
    ensures |RebuiltReads(policy, CallsIn([result, call]), [result, call])| == 1
  {
    var items, calls := [result, call], CallsIn([result, call]);
    CallsOfOneMore(items, 0);
    CallsOfOneMore(items, 1);
    OneMoreRead(policy, calls, items, own, 0);
    NoReadHere(policy, calls, items, own, 1);
    assert items[..0] == [] && items[..2] == items;
  }

  /** Three items of which only the second is a result. */
  lemma LoneResult(policy: Policy, calls: Calls, items: seq<Item>, own: Origins)
    requires |items| == 3 && !IsSuccess(items[0]) && !IsSuccess(items[2])
    ensures RebuiltReads(policy, calls, items) == ReadOf(policy, calls, items[1])
    ensures LiveReads(policy, items, own) == LiveRead(policy, items[1], own(1))
  {
    NoReadHere(policy, calls, items, own, 0);
    OneMoreRead(policy, calls, items, own, 1);
    NoReadHere(policy, calls, items, own, 2);
    NoItemsNoReads(policy, calls, items, own, ReadOf(policy, calls, items[1]));
    NoItemsNoReads(policy, calls, items, own, LiveRead(policy, items[1], own(1)));
    assert items[..3] == items;
  }

  /** A result after its call, whose id a later call for another path reuses: live recording keeps
      the path that was read, the rebuild the other, and so do the queues. */
  lemma ReusedIdDiffers(policy: Policy, call: Item, result: Item, again: Item, own: Origins)
    requires IsRead(call) && IsSuccess(result) && IsRead(again)
    requires call.block.id == result.block.toolUseId == again.block.id && own(1) == Some(call.block.input)
    requires call.block.input.path.Some? && again.block.input.path.Some? && call.block.input.path != again.block.input.path
    requires policy.limit > 0
    ensures var items := [call, result, again];
            var live, rebuilt := LiveReads(policy, items, own), RebuiltReads(policy, CallsIn(items), items);
            |live| == 1 && live[0].path == call.block.input.path.value && Window(policy.limit, live, ReadPath) == live &&
            |rebuilt| == 1 && rebuilt[0].path == again.block.input.path.value && Window(policy.limit, rebuilt, ReadPath) == rebuilt
  {
    var items := [call, result, again];
    CallsOfOneMore(items, 2);
    assert items[..3] == items;
    LoneResult(policy, CallsIn(items), items, own);
    WindowOfOne(policy.limit, LiveRead(policy, result, own(1)), ReadPath);
    WindowOfOne(policy.limit, ReadOf(policy, CallsIn(items), result), ReadPath);
  }

  lemma ThirdRead(policy: Policy, calls: Calls, items: seq<Item>, own: Origins)
    requires |items| == 4 && !IsSuccess(items[0]) && !IsSuccess(items[1])
    ensures RebuiltReads(policy, calls, items[..3]) == ReadOf(policy, calls, items[2])
    ensures LiveReads(policy, items[..3], own) == LiveRead(policy, items[2], own(2))
  {
    NoReadHere(policy, calls, items, own, 0);
    NoReadHere(policy, calls, items, own, 1);
    OneMoreRead(policy, calls, items, own, 2);
    NoItemsNoReads(policy, calls, items, own, ReadOf(policy, calls, items[2]));
    NoItemsNoReads(policy, calls, items, own, LiveRead(policy, items[2], own(2)));
  }

  lemma LastTwoReads(policy: Policy, calls: Calls, items: seq<Item>, own: Origins)
    requires |items| == 4 && !IsSuccess(items[0]) && !IsSuccess(items[1])
    ensures RebuiltReads(policy, calls, items) == ReadOf(policy, calls, items[2]) + ReadOf(policy, calls, items[3])
    ensures LiveReads(policy, items, own) == LiveRead(policy, items[2], own(2)) + LiveRead(policy, items[3], own(3))
  {
    ThirdRead(policy, calls, items, own);
    OneMoreRead(policy, calls, items, own, 3);
    assert items[..4] == items;
  }

  lemma CallsOfTwoOpen(first: Item, second: Item, result: Item, other: Item)
    requires IsRead(second) && IsSuccess(result) && IsSuccess(other)
    ensures var calls := CallsIn([first, second, result, other]);
            second.block.id in calls && calls[second.block.id] == second.block.input
  {
    var items := [first, second, result, other];
    CallsOfOneMore(items, 1);
    CallsOfOneMore(items, 2);
    CallsOfOneMore(items, 3);
    assert items[..4] == items;
  }

  /** Two calls open at once under one id: live recording keeps both paths, the rebuild has the second
      path twice. */
  lemma OpenCallsShareAnId(policy: Policy, first: Item, second: Item, result: Item, other: Item, own: Origins)
    requires IsRead(first) && IsRead(second) && IsSuccess(result) && IsSuccess(other)
    requires first.block.id == second.block.id == result.block.toolUseId == other.block.toolUseId
    requires own(2) == Some(first.block.input) && own(3) == Some(second.block.input)
    requires first.block.input.path.Some? && second.block.input.path.Some?
    ensures var items := [first, second, result, other];
            var live, rebuilt := LiveReads(policy, items, own), RebuiltReads(policy, CallsIn(items), items);
            |live| == |rebuilt| == 2 &&
            live[0].path == first.block.input.path.value && live[1].path == second.block.input.path.value &&
            rebuilt[0].path == rebuilt[1].path == second.block.input.path.value
  {
    var items := [first, second, result, other];
    CallsOfTwoOpen(first, second, result, other);
    LastTwoReads(policy, CallsIn(items), items, own);
  }

  /** A read, its result, a call without a path that takes over its id, and another tool's result with the
      same text, under the id of a second call for the same path that is still to come. */
  predicate Transfer(call: Item, result: Item, pathless: Item, early: Item, later: Item, own: Origins) {
    IsRead(call) && IsSuccess(result) && IsRead(pathless) && IsSuccess(early) && IsRead(later) &&
    call.block.id == result.block.toolUseId == pathless.block.id && own(1) == Some(call.block.input) &&
    later.block.id == early.block.toolUseId && later.block.id != call.block.id && own(3) == None &&
    call.block.input.path.Some? && pathless.block.input.path.None? && later.block.input == call.block.input &&
    result.block.content == early.block.content && result.block.blockTexts == early.block.blockTexts
  }

  /** The calls of that transcript. */
  lemma CallsOfTransfer(call: Item, result: Item, pathless: Item, early: Item, later: Item, own: Origins)
    requires Transfer(call, result, pathless, early, later, own)
    ensures CallsIn([call, result, pathless, early, later]) ==
            map[call.block.id := pathless.block.input, later.block.id := later.block.input]
  {
    var items := [call, result, pathless, early, later];
    CallsOfOneMore(items, 0);
    CallsOfOneMore(items, 1);
    CallsOfOneMore(items, 2);
    CallsOfOneMore(items, 3);
    CallsOfOneMore(items, 4);
    assert items[..0] == [] && items[..5] == items;
  }

  /** An item that is no result, then any item. */
  lemma ReadAfterQuiet(policy: Policy, calls: Calls, items: seq<Item>, own: Origins, n: nat)
    requires n + 1 < |items| && !IsSuccess(items[n])
    ensures RebuiltReads(policy, calls, items[..n + 2]) == RebuiltReads(policy, calls, items[..n]) + ReadOf(policy, calls, items[n + 1])
    ensures LiveReads(policy, items[..n + 2], own) == LiveReads(policy, items[..n], own) + LiveRead(policy, items[n + 1], own(n + 1))
  {
    NoReadHere(policy, calls, items, own, n);
    OneMoreRead(policy, calls, items, own, n + 1);
  }

  /** Five items of which only the second and the fourth are results. */
  lemma TwoResults(policy: Policy, calls: Calls, items: seq<Item>, own: Origins)
    requires |items| == 5 && !IsSuccess(items[0]) && !IsSuccess(items[2]) && !IsSuccess(items[4])
    ensures RebuiltReads(policy, calls, items) == ReadOf(policy, calls, items[1]) + ReadOf(policy, calls, items[3])
    ensures LiveReads(policy, items, own) == LiveRead(policy, items[1], own(1)) + LiveRead(policy, items[3], own(3))
  {
    ReadAfterQuiet(policy, calls, items, own, 0);
    NoItemsNoReads(policy, calls, items, own, ReadOf(policy, calls, items[1]));
    NoItemsNoReads(policy, calls, items, own, LiveRead(policy, items[1], own(1)));
    ReadAfterQuiet(policy, calls, items, own, 2);
    NoReadHere(policy, calls, items, own, 4);
    assert items[..5] == items;
  }

  lemma TransferDisagrees(call: Item, result: Item, pathless: Item, early: Item, later: Item, own: Origins)
    requires Transfer(call, result, pathless, early, later, own)
    ensures var items := [call, result, pathless, early, later];
            !Agrees(items, own, 1) && !Agrees(items, own, 3) && OriginsComeFirst(items, own) && !PathsStay(items)
  {
    var items := [call, result, pathless, early, later];
    CallsOfTransfer(call, result, pathless, early, later, own);
    assert items[0] == call && items[1] == result && items[2] == pathless && items[3] == early;
    assert CameFrom(items, 1, 0, call.block.input);
    assert Usable(CallsIn(items), call.block.id) == None && Usable(CallsIn(items), later.block.id).Some?;
  }

  /** Where a call without a path does take over an id, two differences can cancel: the read lost at one
      result turns up again at another, and the two agree on the whole though no result agrees. */
  lemma LostReadTurnsUp(policy: Policy, call: Item, result: Item, pathless: Item, early: Item, later: Item, own: Origins)
    requires Idempotent(policy.sanitize) && Transfer(call, result, pathless, early, later, own)
    ensures var items := [call, result, pathless, early, later];
            SameReads(policy, items, own, |items|) && !Agrees(items, own, 1) && !Agrees(items, own, 3) &&
            OriginsComeFirst(items, own) && !PathsStay(items)
  {
    var items := [call, result, pathless, early, later];
    TransferDisagrees(call, result, pathless, early, later, own);
    CallsOfTransfer(call, result, pathless, early, later, own);
    TwoResults(policy, CallsIn(items), items, own);
    var text := PayloadOf(policy, early.block);
    assert policy.sanitize(policy.sanitize(text)) == policy.sanitize(text);
    assert items[..5] == items;
  }

  // ----- What is rebuilt, from the fields of the transcript ----------------------------------------

  predicate CallAt(items: seq<Item>, c: nat, id: string) {
    c < |items| && items[c].role == "assistant" && items[c].block.ToolUse? && items[c].block.name == "read_file" && items[c].block.id == id
  }

  /** Item `c` is the last read call with that id. */
  ghost predicate LastCallAt(items: seq<Item>, c: nat, id: string) {
    CallAt(items, c, id) && forall d :: c < d < |items| ==> !CallAt(items, d, id)
  }

  /** Item `i` is a result, of a user message, that says it is no error. */
  predicate ResultAt(items: seq<Item>, i: nat) {
    i < |items| && items[i].role == "user" && items[i].block.ToolResult? && items[i].block.isError == Some(false)
  }

  /** Item `i` is such a result, and the last read call with its id has a path. */
  ghost predicate Contributes(items: seq<Item>, i: nat) {
    ResultAt(items, i) && exists c: nat :: LastCallAt(items, c, items[i].block.toolUseId) && items[c].block.input.path.Some?
  }

  /** What it contributes: the path and arguments of that call, and a preview of the trimmed content or, if
      that is blank, of the joined text blocks. */
  ghost predicate RecordedAs(policy: Policy, items: seq<Item>, i: nat, f: RecentReadFile) {
    ResultAt(items, i) &&
    var block := items[i].block;
    var trimmed := Trim(block.content, policy.space);
    var text := if trimmed == "" then JoinTexts(block.blockTexts) else trimmed;
    f.preview == SummarizeChars(policy.sanitize(policy.sanitize(text)), policy.snippet) &&
    exists c: nat :: LastCallAt(items, c, block.toolUseId) && f.input == items[c].block.input && Some(f.path) == items[c].block.input.path
  }

  /** `recorded` is what the results contribute, one each, in the order of the transcript. */
  ghost predicate ReadsAt(policy: Policy, items: seq<Item>, recorded: seq<RecentReadFile>, at: seq<nat>) {
    |at| == |recorded| && Ascending(at) && (forall i: nat :: i in at <==> Contributes(items, i)) &&
    forall k :: 0 <= k < |at| ==> RecordedAs(policy, items, at[k], recorded[k])
  }

  lemma {:induction false} KnownIsLastCall(items: seq<Item>, n: nat, id: string) returns (c: nat)
    requires n <= |items| && id in CallsIn(items[..n])
    ensures c < n && CallAt(items, c, id) && items[c].block.input == CallsIn(items[..n])[id]
    ensures forall d :: c < d < n ==> !CallAt(items, d, id)
  {
    CallsOfOneMore(items, n - 1);
    if CallAt(items, n - 1, id) {
      c := n - 1;
    } else {
      c := KnownIsLastCall(items, n - 1, id);
    }
  }

  lemma ReadIs(policy: Policy, items: seq<Item>, i: nat)
    requires i < |items|
    ensures |ReadOf(policy, CallsIn(items), items[i])| == if Contributes(items, i) then 1 else 0
    ensures Contributes(items, i) ==> RecordedAs(policy, items, i, ReadOf(policy, CallsIn(items), items[i])[0])
  {
    assert items[..|items|] == items;
    if ResultAt(items, i) {
      var id := items[i].block.toolUseId;
      if id in CallsIn(items) {
        var c := KnownIsLastCall(items, |items|, id);
        assert LastCallAt(items, c, id);
        assert forall d: nat :: LastCallAt(items, d, id) ==> d == c;
      } else if c: nat :| LastCallAt(items, c, id) {
        CallIsKnown(items, c, |items|);
        assert false;
      }
    }
  }

  function Parts(policy: Policy, calls: Calls, items: seq<Item>): (parts: seq<seq<RecentReadFile>>)
    ensures |parts| == |items| && forall i :: 0 <= i < |items| ==> parts[i] == ReadOf(policy, calls, items[i])
  {
    seq(|items|, i requires 0 <= i < |items| => ReadOf(policy, calls, items[i]))
  }

  lemma RebuiltOneMore(policy: Policy, calls: Calls, items: seq<Item>, item: Item)
    ensures RebuiltReads(policy, calls, items + [item]) == RebuiltReads(policy, calls, items) + ReadOf(policy, calls, item)
  {
    assert (items + [item])[..|items|] == items;
  }

  lemma RebuiltIsParts(policy: Policy, calls: Calls, items: seq<Item>)
    ensures RebuiltReads(policy, calls, items) == Flatten(Parts(policy, calls, items))
  {
    var parts := Parts(policy, calls, items);
    var sums := seq(|items| + 1, i requires 0 <= i <= |items| => RebuiltReads(policy, calls, items[..i]));
    forall i | 0 <= i < |items| ensures sums[i + 1] == sums[i] + parts[i] {
      assert items[..i + 1] == items[..i] + [items[i]];
      RebuiltOneMore(policy, calls, items[..i], items[i]);
    }
    FlattenOfSums(sums, parts, |items|);
    assert items[..|items|] == items && parts[..|items|] == parts;
  }

  /** For every transcript: the successful results whose call has a path are rebuilt, one recording each, in
      order, and nothing else is: no error, no unflagged result, none without a call. */
  lemma RebuiltReadsAre(policy: Policy, items: seq<Item>) returns (at: seq<nat>)
    ensures ReadsAt(policy, items, RebuiltReads(policy, CallsIn(items), items), at)
  {
    var calls := CallsIn(items);
    var parts := Parts(policy, calls, items);
    forall i | 0 <= i < |items|
      ensures |parts[i]| <= 1 && (parts[i] != [] <==> Contributes(items, i))
      ensures parts[i] != [] ==> RecordedAs(policy, items, i, parts[i][0])
    {
      ReadIs(policy, items, i);
    }
    RebuiltIsParts(policy, calls, items);
    at := FlattenSelects(parts, |items|);
    assert parts[..|items|] == parts;
  }

  lemma WindowHoldsRecorded<E>(k: nat, h: seq<E>, path: E -> string, e: E)
    requires e in Window(k, h, path)
    ensures e in h
  {
    assert e in Latest(h, path);
    LatestHolds(h, path, e);
  }

  /** Each entry of the rebuilt queue comes from such a result. */
  lemma EntriesAreRecorded(policy: Policy, items: seq<Item>, f: RecentReadFile) returns (i: nat)
    requires f in Window(policy.limit, RebuiltReads(policy, CallsIn(items), items), ReadPath)
    ensures RecordedAs(policy, items, i, f)
  {
    var recorded := RebuiltReads(policy, CallsIn(items), items);
    var at := RebuiltReadsAre(policy, items);
    WindowHoldsRecorded(policy.limit, recorded, ReadPath, f);
    var k :| 0 <= k < |recorded| && recorded[k] == f;
    i := at[k];
  }

  /** How many blocks stand before message `m`. */
  function BlocksBefore(messages: seq<Message>, m: nat): nat
    requires m <= |messages|
  {
    if m == 0 then 0 else BlocksBefore(messages, m - 1) + |messages[m - 1].content|
  }

  // ----- The two passes ---------------------------------------------------------------------------

  lemma ItemsStep(messages: seq<Message>, i: nat)
    requires i < |messages|
    ensures Items(messages[..i + 1]) == Items(messages[..i]) + ItemsOf(messages[i])
  {
    assert messages[..i + 1][..i] == messages[..i];
  }

  lemma CallsStep(before: seq<Item>, own: seq<Item>, b: nat)
    requires b < |own|
    ensures CallsIn(before + own[..b + 1]) ==
            var calls := CallsIn(before + own[..b]);
            if IsRead(own[b]) then calls[own[b].block.id := own[b].block.input] else calls
  {
    assert (before + own[..b + 1])[..|before| + b] == before + own[..b];
  }

  lemma {:induction false} ItemCount(messages: seq<Message>, n: nat)
    requires n <= |messages|
    ensures |Items(messages[..n])| == BlocksBefore(messages, n)
  {
    if n > 0 {
      ItemCount(messages, n - 1);
      ItemsStep(messages, n - 1);
    }
  }

  lemma {:induction false} ItemAtWithin(messages: seq<Message>, n: nat, m: nat, b: nat)
    requires m < n <= |messages| && b < |messages[m].content|
    ensures BlocksBefore(messages, m) + b < |Items(messages[..n])|
    ensures Items(messages[..n])[BlocksBefore(messages, m) + b] == Item(messages[m].role, messages[m].content[b])
    decreases n
  {
    ItemsStep(messages, n - 1);
    ItemCount(messages, n - 1);
    if m < n - 1 {
      ItemAtWithin(messages, n - 1, m, b);
    }
  }

  /** The items are the blocks of the transcript, message after message, each with the role of its message. */
  lemma ItemAt(messages: seq<Message>, m: nat, b: nat)
    requires m < |messages| && b < |messages[m].content|
    ensures |Items(messages)| == BlocksBefore(messages, |messages|)
    ensures BlocksBefore(messages, m) + b < |Items(messages)|
    ensures Items(messages)[BlocksBefore(messages, m) + b] == Item(messages[m].role, messages[m].content[b])
  {
    ItemCount(messages, |messages|);
    ItemAtWithin(messages, |messages|, m, b);
    assert messages[..|messages|] == messages;
  }

  /** The read calls of one assistant message. */
  method CollectFrom(m: Message, known: Calls, ghost before: seq<Item>) returns (calls: Calls)
    requires known == CallsIn(before) && m.role == "assistant"
    ensures calls == CallsIn(before + ItemsOf(m))
  {
    calls := known;
    ghost var own := ItemsOf(m);
    assert before + own[..0] == before;
    for b := 0 to |m.content|
      invariant calls == CallsIn(before + own[..b])
    {
      var block := m.content[b];
      CallsStep(before, own, b);
      if block.ToolUse? && block.name == "read_file" {
        calls := calls[block.id := block.input];
      }
    }
    assert own[..|m.content|] == own;
  }

  lemma {:induction false} NoReads(before: seq<Item>, own: seq<Item>)
    requires forall k :: 0 <= k < |own| ==> !IsRead(own[k])
    ensures CallsIn(before + own) == CallsIn(before)
  {
    if own == [] {
      assert before + own == before;
    } else {
      NoReads(before, own[..|own| - 1]);
      assert (before + own)[..|before + own| - 1] == before + own[..|own| - 1];
    }
  }

  /** The first pass: every read call's arguments by id. */
  method CollectCalls(messages: seq<Message>) returns (calls: Calls)
    ensures calls == CallsIn(Items(messages))
  {
    calls := map[];
    for i := 0 to |messages|
      invariant calls == CallsIn(Items(messages[..i]))
    {
      ghost var before := Items(messages[..i]);
      ItemsStep(messages, i);
      if messages[i].role != "assistant" {
        NoReads(before, ItemsOf(messages[i]));
        continue;
      }
      calls := CollectFrom(messages[i], calls, before);
    }
    assert messages[..|messages|] == messages;
  }

  lemma {:induction false} NoSuccesses(policy: Policy, calls: Calls, before: seq<Item>, own: seq<Item>)
    requires forall k :: 0 <= k < |own| ==> !IsSuccess(own[k])
    ensures RebuiltReads(policy, calls, before + own) == RebuiltReads(policy, calls, before)
  {
    if own == [] {
      assert before + own == before;
    } else {
      NoSuccesses(policy, calls, before, own[..|own| - 1]);
      assert (before + own)[..|before + own| - 1] == before + own[..|own| - 1];
    }
  }

  lemma ReadsStep(policy: Policy, calls: Calls, before: seq<Item>, own: seq<Item>, b: nat)
    requires b < |own|
    ensures RebuiltReads(policy, calls, before + own[..b + 1]) ==
            RebuiltReads(policy, calls, before + own[..b]) + ReadOf(policy, calls, own[b])
  {
    RebuiltOneMore(policy, calls, before + own[..b], own[b]);
    assert before + own[..b + 1] == before + own[..b] + [own[b]];
  }

  /** The results of one user message. */
  method ReplayFrom(m: Message, calls: Calls, recent: RecentReadFiles, ghost before: seq<Item>)
    requires recent.Valid() && m.role == "user"
    requires recent.history == RebuiltReads(recent.policy, calls, before)
    modifies recent
    ensures recent.Valid() && recent.history == RebuiltReads(recent.policy, calls, before + ItemsOf(m))
  {
    var policy := recent.policy;
    ghost var own := ItemsOf(m);
    assert before + own[..0] == before;
    for b := 0 to |m.content|
      invariant recent.Valid()
      invariant recent.history == RebuiltReads(policy, calls, before + own[..b])
    {
      var block := m.content[b];
      ghost var item := Item(m.role, block);
      ReadsStep(policy, calls, before, own, b);
      if block.ToolResult? && block.isError == Some(false) && block.toolUseId in calls {
        var trimmed := Trim(block.content, policy.space);
        var text := if trimmed == [] then JoinTexts(block.blockTexts) else trimmed;
        assert ReadOf(policy, calls, item) == Recording(policy, calls[block.toolUseId], policy.sanitize(text));
        recent.RecordReadFileResult(calls[block.toolUseId], policy.sanitize(text));
      } else {
        assert ReadOf(policy, calls, item) == [];
      }
    }
    assert own[..|m.content|] == own;
  }

  /** The rebuilt queue is the window of the rebuilt reads: errors, unflagged results and results
      without a call contribute nothing. Where every result agrees it is the window of what was recorded live. */
  method RebuildRecentReadFiles(policy: Policy, messages: seq<Message>) returns (files: seq<RecentReadFile>)
    ensures var items := Items(messages);
            files == Window(policy.limit, RebuiltReads(policy, CallsIn(items), items), ReadPath)
    ensures exists recorded, at ::
              ReadsAt(policy, Items(messages), recorded, at) && files == Window(policy.limit, recorded, ReadPath)
    ensures forall f :: f in files ==> exists i: nat :: RecordedAs(policy, Items(messages), i, f)
    ensures Idempotent(policy.sanitize) ==> forall own :: AllAgree(Items(messages), own, |Items(messages)|) ==>
              files == Window(policy.limit, LiveReads(policy, Items(messages), own), ReadPath)
  {
    var calls := CollectCalls(messages);
    var recent := new RecentReadFiles(policy);
    for i := 0 to |messages|
      invariant fresh(recent) && recent.Valid() && recent.policy == policy
      invariant recent.history == RebuiltReads(policy, calls, Items(messages[..i]))
    {
      ghost var before := Items(messages[..i]);
      ItemsStep(messages, i);
      if messages[i].role != "user" {
        NoSuccesses(policy, calls, before, ItemsOf(messages[i]));
        continue;
      }
      ReplayFrom(messages[i], calls, recent, before);
    }
    assert messages[..|messages|] == messages;
    files := recent.files;
    ghost var at := RebuiltReadsAre(policy, Items(messages));
    forall f | f in files ensures exists i: nat :: RecordedAs(policy, Items(messages), i, f) {
      var i := EntriesAreRecorded(policy, Items(messages), f);
    }
    if Idempotent(policy.sanitize) {
      forall own | AllAgree(Items(messages), own, |Items(messages)|)
        ensures files == Window(policy.limit, LiveReads(policy, Items(messages), own), ReadPath)
      {
        RebuildIsReplay(policy, Items(messages), own);
      }
    }
  }
}
