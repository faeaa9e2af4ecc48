/** The single-turn-loop guard (scripts/verify-single-turn-loop.py).

    The guard blanks comments and literals of a Rust source, keeping offsets
    stable, and then asks of a position whether the innermost enclosing function
    or loop is a loop. The two header patterns and the letter-or-digit test are
    parameters. */
module LoopGuard {
  import opened Wrappers
  import opened Texts

  type Text = seq<char>

  // ----- Literals and comments ---------------------------------------------------

  /** The end of a token that runs to just after the first `closer` from `i` on, or to the end. */
  function After(text: Text, closer: Text, i: nat): (e: nat)
    requires i <= |text|
    ensures i <= e <= |text|
    ensures (e >= i + |closer| && StandsAt(text, e - |closer|, closer) &&
             forall k :: i <= k < e - |closer| ==> !StandsAt(text, k, closer)) ||
            (e == |text| && forall k :: i <= k ==> !StandsAt(text, k, closer))
  {
    FindMeans(text, closer, i);
    match Find(text, closer, i)
    case Some(j) => j + |closer|
    case None => |text|
  }

  function Repeat(c: char, n: nat): (s: Text)
    ensures |s| == n && forall k :: 0 <= k < n ==> s[k] == c
  {
    if n == 0 then "" else [c] + Repeat(c, n - 1)
  }

  /** How many `#` stand from `i` on. */
  function Hashes(text: Text, i: nat): (n: nat)
    ensures i <= |text| ==> i + n <= |text|
    decreases |text| - i
  {
    if i < |text| && text[i] == '#' then 1 + Hashes(text, i + 1) else 0
  }

  /** A raw string opens at `i`: `r`, any number of `#`, a quote, and no letter or digit before. */
  predicate RawOpens(text: Text, alnum: char -> bool, i: nat) {
    i < |text| && text[i] == 'r' &&
    (var q := i + 1 + Hashes(text, i + 1); q < |text| && text[q] == '"') &&
    (i == 0 || !alnum(text[i - 1]))
  }

  /** The position of the quote that closes a string, scanning from `j` over escape pairs. It may
      pass the end by one, when the text ends in a backslash. */
  function ClosingQuote(text: Text, j: nat): (r: nat)
    ensures j <= r && (j <= |text| ==> r <= |text| + 1)
    ensures r < |text| ==> text[r] == '"'
    decreases |text| - j
  {
    if j < |text| && text[j] != '"' then ClosingQuote(text, if text[j] == '\\' then j + 2 else j + 1) else j
  }

  /** The length of the character literal at `i`: an escape pair on one line, or one character. */
  function CharLiteral(text: Text, i: nat): nat {
    if !(i < |text| && text[i] == '\'') then 0
    else if i + 3 < |text| && text[i + 1] == '\\' && text[i + 2] != '\n' && text[i + 3] == '\'' then 4
    else if i + 2 < |text| && text[i + 1] != '\\' && text[i + 1] != '\'' && text[i + 2] == '\'' then 3
    else 0
  }

  function Min(a: nat, b: nat): nat {
    if a < b then a else b
  }

  /** The end of the comment or literal that starts at `i`, or `i` itself if none does. */
  function TokenEnd(text: Text, alnum: char -> bool, i: nat): (e: nat)
    requires i < |text|
    ensures i <= e <= |text|
    ensures e != i ==> e >= i + 2 || e == |text|
  {
    if StandsAt(text, i, "//") then
      var j := Find(text, "\n", i);
      FindMeans(text, "\n", i);
      assert !StandsAt(text, i, "\n") && !StandsAt(text, i + 1, "\n") by {
        assert text[i..i + 2][0] == '/' && text[i..i + 2][1] == '/';
      }
      if j.Some? then j.value else |text|
    else if StandsAt(text, i, "/*") then After(text, "*/", i + 2)
    else if RawOpens(text, alnum, i) then
      var n := Hashes(text, i + 1);
      After(text, "\"" + Repeat('#', n), i + n + 2)
    else if text[i] == '"' then Min(ClosingQuote(text, i + 1) + 1, |text|)
    else i + CharLiteral(text, i)
  }

  // ----- What counts as a token ---------------------------------------------------

  /** A line comment runs up to the newline that ends its line, or to the end of the text. */
  lemma LineCommentIs(text: Text, alnum: char -> bool, i: nat)
    requires i + 1 < |text| && text[i] == '/' && text[i + 1] == '/'
    ensures var e := TokenEnd(text, alnum, i);
            i + 2 <= e <= |text| && '\n' !in text[i..e] && (e == |text| || text[e] == '\n')
  {
    assert text[i..i + 2] == "//";
    FindMeans(text, "\n", i);
    var e := TokenEnd(text, alnum, i);
    forall k | i <= k < e ensures text[k] != '\n' {
      assert text[k..k + 1] == "\n" <==> text[k] == '\n';
      assert !StandsAt(text, k, "\n");
    }
    if e < |text| {
      assert StandsAt(text, e, "\n") && text[e..e + 1][0] == text[e];
    }
  }

  /** A block comment runs to just after the first star and slash that follow its opener, or to the end. */
  lemma BlockCommentIs(text: Text, alnum: char -> bool, i: nat)
    requires i + 1 < |text| && text[i] == '/' && text[i + 1] == '*'
    ensures var e := TokenEnd(text, alnum, i);
            i + 2 <= e <= |text| &&
            ((e >= i + 4 && StandsAt(text, e - 2, "*/") && forall k :: i + 2 <= k < e - 2 ==> !StandsAt(text, k, "*/")) ||
             (e == |text| && forall k :: i + 2 <= k ==> !StandsAt(text, k, "*/")))
  {
    assert text[i..i + 2] == "/*" && text[i..i + 2] != "//";
    assert TokenEnd(text, alnum, i) == After(text, "*/", i + 2);
  }

  lemma {:induction false} HashesAre(text: Text, i: nat, n: nat)
    requires i + n < |text| && (forall k :: i <= k < i + n ==> text[k] == '#') && text[i + n] != '#'
    ensures Hashes(text, i) == n
    decreases n
  {
    if n > 0 {
      HashesAre(text, i + 1, n - 1);
    }
  }

  /** A raw string opens at `i` with `n` hashes: `r` after no letter or digit, the hashes and a quote. */
  predicate RawStandsAt(text: Text, alnum: char -> bool, i: nat, n: nat) {
    i + n + 1 < |text| && text[i] == 'r' && (i == 0 || !alnum(text[i - 1])) &&
    (forall k :: i + 1 <= k <= i + n ==> text[k] == '#') && text[i + n + 1] == '"'
  }

  lemma RawEndsAfter(text: Text, alnum: char -> bool, i: nat, n: nat, closer: Text)
    requires RawStandsAt(text, alnum, i, n) && closer == "\"" + Repeat('#', n)
    ensures TokenEnd(text, alnum, i) == After(text, closer, i + n + 2)
  {
    HashesAre(text, i + 1, n);
    assert text[i..i + 2][0] == 'r';
  }

  /** It runs to just after the first quote followed by as many hashes, or to the end. */
  lemma RawStringIs(text: Text, alnum: char -> bool, i: nat, n: nat, closer: Text)
    requires RawStandsAt(text, alnum, i, n) && closer == "\"" + Repeat('#', n)
    ensures var e, from := TokenEnd(text, alnum, i), i + n + 2;
            from <= e <= |text| &&
            ((e >= from + |closer| && StandsAt(text, e - |closer|, closer) &&
              forall k :: from <= k < e - |closer| ==> !StandsAt(text, k, closer)) ||
             (e == |text| && forall k :: from <= k ==> !StandsAt(text, k, closer)))
  {
    RawEndsAfter(text, alnum, i, n, closer);
  }

  /** A string runs to just after the quote that closes it, or to the end. */
  lemma StringIs(text: Text, alnum: char -> bool, i: nat)
    requires i < |text| && text[i] == '"'
    ensures var r := ClosingQuote(text, i + 1);
            TokenEnd(text, alnum, i) == if r < |text| then r + 1 else |text|
  {
    assert i + 2 <= |text| ==> text[i..i + 2][0] == '"';
  }

  /** A character literal is one character or an escaped one between single quotes, the character being
      no quote or backslash, the escaped one no newline. Any other single quote starts nothing. */
  lemma CharLiteralIs(text: Text, alnum: char -> bool, i: nat)
    requires i < |text| && text[i] == '\''
    ensures TokenEnd(text, alnum, i) ==
            if i + 2 < |text| && text[i + 1] != '\\' && text[i + 1] != '\'' && text[i + 2] == '\'' then i + 3
            else if i + 3 < |text| && text[i + 1] == '\\' && text[i + 2] != '\n' && text[i + 3] == '\'' then i + 4
            else i
  {
    assert i + 2 <= |text| ==> text[i..i + 2][0] == '\'';
  }

  /** Nothing else starts a token. */
  lemma NothingElseIs(text: Text, alnum: char -> bool, i: nat)
    requires i < |text| && text[i] != '"' && text[i] != '\'' && text[i] != 'r'
    requires text[i] == '/' ==> i + 1 == |text| || (text[i + 1] != '/' && text[i + 1] != '*')
    ensures TokenEnd(text, alnum, i) == i
  {
    assert i + 2 <= |text| ==> text[i..i + 2] == [text[i], text[i + 1]];
  }

  /** Nor does an `r` that no raw string follows. */
  lemma PlainRIs(text: Text, alnum: char -> bool, i: nat)
    requires i < |text| && text[i] == 'r'
    requires (i > 0 && alnum(text[i - 1])) || var q := i + 1 + Hashes(text, i + 1); q >= |text| || text[q] != '"'
    ensures TokenEnd(text, alnum, i) == i
  {
    assert i + 2 <= |text| ==> text[i..i + 2] == [text[i], text[i + 1]];
  }

  // ----- Blanking ---------------------------------------------------------------

  ghost predicate Lexes(text: Text, alnum: char -> bool, ends: seq<nat>) {
    |ends| == |text| &&
    forall i {:trigger TokenEnd(text, alnum, i)} :: 0 <= i < |text| ==> ends[i] == TokenEnd(text, alnum, i)
  }

  /** Every token has at least two characters, unless the text ends first. */
  ghost predicate Advances(ends: seq<nat>) {
    forall i :: 0 <= i < |ends| ==> i <= ends[i] <= |ends| && (ends[i] == i || ends[i] >= i + 2 || ends[i] == |ends|)
  }

  /** For each position, where the token that starts there ends. */
  function Ends(text: Text, alnum: char -> bool): (ends: seq<nat>)
    ensures Lexes(text, alnum, ends) && Advances(ends)
  {
    seq(|text|, i requires 0 <= i < |text| => TokenEnd(text, alnum, i))
  }

  /** Which characters from `i` on lie in no comment or literal. */
  function Visible(ends: seq<nat>, i: nat): (mask: seq<bool>)
    requires i <= |ends| && forall k :: 0 <= k < |ends| ==> k <= ends[k] <= |ends|
    ensures |mask| == |ends| - i
    decreases |ends| - i
  {
    if i == |ends| then []
    else if ends[i] == i then [true] + Visible(ends, i + 1)
    else seq(ends[i] - i, k => false) + Visible(ends, ends[i])
  }

  function Blank(c: char): char {
    if c == '\n' then c else ' '
  }

  function Masked(text: Text, mask: seq<bool>): (out: Text)
    requires |text| == |mask|
    ensures |out| == |text|
    ensures forall p :: 0 <= p < |text| ==> out[p] == if mask[p] then text[p] else Blank(text[p])
  {
    seq(|text|, p requires 0 <= p < |text| => if mask[p] then text[p] else Blank(text[p]))
  }

  /** The text with every character of a comment or literal but its newlines made a space. */
  function Stripped(text: Text, alnum: char -> bool): Text {
    Masked(text, Visible(Ends(text, alnum), 0))
  }

  /** Blanking keeps the length and every newline position and changes characters only to spaces. */
  lemma StrippedKeepsOffsets(text: Text, alnum: char -> bool)
    ensures var out := Stripped(text, alnum);
            |out| == |text| && forall p :: 0 <= p < |text| ==>
              (out[p] == '\n' <==> text[p] == '\n') && (out[p] == text[p] || out[p] == ' ')
  {}

  /** What one token contributes to the mask. */
  lemma MaskOfToken(ends: seq<nat>, i: nat, mask: seq<bool>)
    requires i < |ends| == |mask| && Advances(ends) && Visible(ends, i) == mask[i..]
    ensures if ends[i] == i then mask[i] && Visible(ends, i + 1) == mask[i + 1..]
            else (forall p :: i <= p < ends[i] ==> !mask[p]) && Visible(ends, ends[i]) == mask[ends[i]..]
  {}

  /** Nothing starts at a shown character; and a hidden character is alone only at the very end. */
  ghost predicate Separated(ends: seq<nat>, mask: seq<bool>, i: nat)
    requires |ends| == |mask|
  {
    forall p :: i <= p < |ends| ==>
      (mask[p] ==> ends[p] == p) && (!mask[p] ==> p + 1 == |ends| || !mask[p + 1] || (p > i && !mask[p - 1]))
  }

  lemma {:induction false} VisibleSeparates(ends: seq<nat>, i: nat, mask: seq<bool>)
    requires i <= |ends| == |mask| && Advances(ends) && Visible(ends, i) == mask[i..]
    ensures Separated(ends, mask, i)
    decreases |ends| - i
  {
    if i < |ends| {
      MaskOfToken(ends, i, mask);
      VisibleSeparates(ends, if ends[i] == i then i + 1 else ends[i], mask);
    }
  }

  /** `out` is `text` with some positions hidden, the shown ones starting no token. */
  ghost predicate Blanking(text: Text, ends: seq<nat>, mask: seq<bool>, out: Text) {
    |text| == |ends| == |mask| == |out| && Separated(ends, mask, 0) &&
    forall p :: 0 <= p < |text| ==> if mask[p] then out[p] == text[p] else out[p] == ' ' || out[p] == '\n'
  }

  lemma QuoteAlwaysOpens(text: Text, alnum: char -> bool, p: nat)
    requires p < |text| && text[p] == '"'
    ensures TokenEnd(text, alnum, p) != p
  {}

  lemma NoQuoteIsShown(text: Text, alnum: char -> bool, ends: seq<nat>, mask: seq<bool>, out: Text, p: nat)
    requires Lexes(text, alnum, ends) && Blanking(text, ends, mask, out) && p < |text|
    ensures out[p] != '"'
  {
    if mask[p] && text[p] == '"' {
      QuoteAlwaysOpens(text, alnum, p);
    }
  }

  lemma CommentOpens(text: Text, alnum: char -> bool, p: nat)
    requires p + 1 < |text| && text[p] == '/' && (text[p + 1] == '/' || text[p + 1] == '*')
    ensures TokenEnd(text, alnum, p) != p
  {}

  /** Blanking never brings two characters together into a comment opener. */
  lemma NoCommentIsShown(text: Text, alnum: char -> bool, ends: seq<nat>, mask: seq<bool>, out: Text, p: nat)
    requires Lexes(text, alnum, ends) && Blanking(text, ends, mask, out) && p < |text|
    ensures !StandsAt(out, p, "//") && !StandsAt(out, p, "/*")
  {
    if p + 1 < |text| {
      assert out[p..p + 2] == [out[p], out[p + 1]];
      if mask[p] && mask[p + 1] && text[p] == '/' && (text[p + 1] == '/' || text[p + 1] == '*') {
        CommentOpens(text, alnum, p);
      }
    }
  }

  lemma CharLiteralOpens(text: Text, alnum: char -> bool, p: nat)
    requires p < |text| && CharLiteral(text, p) != 0
    ensures TokenEnd(text, alnum, p) != p
  {}

  /** Nor into a character literal: nothing between two shown quotes can have been blanked. */
  lemma NoCharLiteralIsShown(text: Text, alnum: char -> bool, ends: seq<nat>, mask: seq<bool>, out: Text, p: nat)
    requires Lexes(text, alnum, ends) && Blanking(text, ends, mask, out) && p < |text|
    ensures CharLiteral(out, p) == 0
  {
    var n := CharLiteral(out, p);
    if n != 0 {
      assert mask[p] && mask[p + n - 1] && mask[p + n - 3];
      assert mask[p + n - 2];
      assert CharLiteral(text, p) == n;
      CharLiteralOpens(text, alnum, p);
    }
  }

  lemma StrippedIsBlanking(text: Text, alnum: char -> bool)
    ensures var ends := Ends(text, alnum);
            Blanking(text, ends, Visible(ends, 0), Stripped(text, alnum))
  {
    var ends := Ends(text, alnum);
    var mask := Visible(ends, 0);
    assert mask[0..] == mask;
    VisibleSeparates(ends, 0, mask);
  }

  lemma NothingShown(text: Text, alnum: char -> bool, ends: seq<nat>, mask: seq<bool>, out: Text, p: nat)
    requires Lexes(text, alnum, ends) && Blanking(text, ends, mask, out) && p < |text|
    ensures TokenEnd(out, alnum, p) == p
  {
    NoCommentIsShown(text, alnum, ends, mask, out, p);
    NoCharLiteralIsShown(text, alnum, ends, mask, out, p);
    NoQuoteIsShown(text, alnum, ends, mask, out, p);
    if RawOpens(out, alnum, p) {
      NoQuoteIsShown(text, alnum, ends, mask, out, p + 1 + Hashes(out, p + 1));
    }
  }

  /** The blanked text holds no comment and no literal, wherever one looks. */
  lemma NothingLeft(text: Text, alnum: char -> bool, p: nat)
    requires p < |text|
    ensures TokenEnd(Stripped(text, alnum), alnum, p) == p
  {
    var ends, out := Ends(text, alnum), Stripped(text, alnum);
    StrippedIsBlanking(text, alnum);
    NothingShown(text, alnum, ends, Visible(ends, 0), out, p);
  }

  lemma {:induction false} AllVisible(ends: seq<nat>, i: nat)
    requires i <= |ends| && forall p :: 0 <= p < |ends| ==> p <= ends[p] <= |ends|
    requires forall p :: i <= p < |ends| ==> ends[p] == p
    ensures forall k :: 0 <= k < |ends| - i ==> Visible(ends, i)[k]
    decreases |ends| - i
  {
    if i < |ends| {
      AllVisible(ends, i + 1);
    }
  }

  /** So blanking twice is blanking once. */
  lemma StrippedIsStable(text: Text, alnum: char -> bool)
    ensures Stripped(Stripped(text, alnum), alnum) == Stripped(text, alnum)
  {
    var out := Stripped(text, alnum);
    var ends := Ends(out, alnum);
    forall p | 0 <= p < |out| ensures ends[p] == p {
      NothingLeft(text, alnum, p);
      assert ends[p] == TokenEnd(out, alnum, p);
    }
    AllVisible(ends, 0);
    assert Masked(out, Visible(ends, 0)) == out;
  }

  /** Consecutive backslashes just before `k`, back to `start`. */
  function Backslashes(text: Text, start: nat, k: nat): nat
    requires start <= k <= |text|
  {
    if k > start && text[k - 1] == '\\' then 1 + Backslashes(text, start, k - 1) else 0
  }

  ghost predicate Escaped(text: Text, start: nat, k: nat)
    requires start <= k <= |text|
  {
    Backslashes(text, start, k) % 2 == 1
  }

  /** The closing quote is the first one that an even number of backslashes precedes; if there is
      none the literal runs to the end of the text. */
  lemma {:induction false} ClosesAtFirstUnescapedQuote(text: Text, start: nat, j: nat)
    requires start <= j <= |text| && !Escaped(text, start, j)
    ensures var r := ClosingQuote(text, j);
            (forall k :: j <= k < r && k < |text| && text[k] == '"' ==> Escaped(text, start, k)) &&
            (r < |text| ==> !Escaped(text, start, r))
    decreases |text| - j
  {
    if j < |text| && text[j] != '"' {
      assert Backslashes(text, start, j + 1) == if text[j] == '\\' then 1 + Backslashes(text, start, j) else 0;
      if text[j] == '\\' {
        if j + 2 <= |text| {
          assert Backslashes(text, start, j + 2) == if text[j + 1] == '\\' then 1 + Backslashes(text, start, j + 1) else 0;
          ClosesAtFirstUnescapedQuote(text, start, j + 2);
        }
      } else {
        ClosesAtFirstUnescapedQuote(text, start, j + 1);
      }
    }
  }

  /** Overwrite `out[start..end]`, as far as it exists, with spaces, sparing newlines. */
  method BlankRange(out: array<char>, start: nat, end: nat)
    modifies out
    ensures forall k :: 0 <= k < out.Length ==>
              out[k] == if start <= k < end then Blank(old(out[k])) else old(out[k])
  {
    var k := start;
    while k < Min(end, out.Length)
      invariant start <= k
      invariant forall m :: 0 <= m < out.Length ==>
                  out[m] == if start <= m < k && m < end then Blank(old(out[m])) else old(out[m])
    {
      if out[k] != '\n' {
        out[k] := ' ';
      }
      k := k + 1;
    }
  }

  /** The scan that finds the closing quote of a string. */
  method SkipString(text: Text, i: nat) returns (j: nat)
    requires i < |text|
    ensures j == ClosingQuote(text, i + 1)
  {
    j := i + 1;
    while j < |text| && text[j] != '"'
      invariant ClosingQuote(text, j) == ClosingQuote(text, i + 1)
      decreases |text| - j
    {
      j := j + if text[j] == '\\' then 2 else 1;
    }
  }

  /** The token that starts at `i`, if any. The end of a string may be reported one past the text. */
  method NextToken(text: Text, alnum: char -> bool, i: nat, ghost ends: seq<nat>) returns (token: bool, j: nat)
    requires Lexes(text, alnum, ends) && i < |text|
    ensures token <==> ends[i] != i
    ensures token ==> Min(j, |text|) == ends[i]
  {
    assert ends[i] == TokenEnd(text, alnum, i);
    token, j := true, i;
    if StandsAt(text, i, "//") {
      assert text[i] == text[i..i + 2][0] && text[i + 1] == text[i..i + 2][1];
      CommentOpens(text, alnum, i);
      var found := Find(text, "\n", i);
      j := if found.Some? then found.value else |text|;
    } else if StandsAt(text, i, "/*") {
      j := After(text, "*/", i + 2);
    } else if RawOpens(text, alnum, i) {
      var hashes := Hashes(text, i + 1);
      j := After(text, "\"" + Repeat('#', hashes), i + hashes + 2);
    } else if text[i] == '"' {
      j := SkipString(text, i);
      j := j + 1;
    } else if CharLiteral(text, i) != 0 {
      j := i + CharLiteral(text, i);
    } else {
      token := false;
    }
  }

  method BlankTokens(text: Text, alnum: char -> bool, ghost ends: seq<nat>) returns (result: Text)
    requires Lexes(text, alnum, ends) && Advances(ends)
    ensures result == Masked(text, Visible(ends, 0))
  {
    var out := new char[|text|](p requires 0 <= p < |text| => text[p]);
    var i, n := 0, |text|;
    ghost var mask := Visible(ends, 0);
    assert mask[0..] == mask;
    while i < n
      invariant i <= n ==> Visible(ends, i) == mask[i..]
      invariant forall p :: 0 <= p < n ==> out[p] == if p < i && !mask[p] then Blank(text[p]) else text[p]
      decreases n - i
    {
      MaskOfToken(ends, i, mask);
      var token, j := NextToken(text, alnum, i, ends);
      if token {
        BlankRange(out, i, j);
        i := j;
      } else {
        i := i + 1;
      }
    }
    result := out[..];
  }

  method StripCommentsAndStrings(text: Text, alnum: char -> bool) returns (result: Text)
    ensures result == Stripped(text, alnum)
  {
    ghost var ends := Ends(text, alnum);
    result := BlankTokens(text, alnum, ends);
  }

  // ----- The enclosing loop --------------------------------------------------------

  /** One past the last of the characters `;`, `{`, `}` before `k`: where the header of the brace
      at `k` begins. */
  function HeaderStart(code: Text, k: nat): (s: nat)
    requires k <= |code|
    ensures s <= k
    ensures forall m :: s <= m < k ==> code[m] !in ";{}"
    ensures s > 0 ==> code[s - 1] in ";{}"
  {
    if k == 0 then 0 else if code[k - 1] in ";{}" then k else HeaderStart(code, k - 1)
  }

  function Header(code: Text, k: nat): Text
    requires k <= |code|
  {
    code[HeaderStart(code, k)..k]
  }

  /** A stack less its `n` top entries. */
  function Without(stack: seq<nat>, n: nat): seq<nat> {
    if n >= |stack| then [] else stack[..|stack| - n]
  }

  /** The header of a brace is all that stands between it and the last semicolon or brace before it. */
  lemma HeaderIs(code: Text, k: nat, s: nat)
    requires s <= k <= |code| && (s == 0 || code[s - 1] in ";{}") && forall m :: s <= m < k ==> code[m] !in ";{}"
    ensures Header(code, k) == code[s..k]
  {
    assert HeaderStart(code, k) == s;
  }

  /** The positions of the braces open at `pos`, outermost first: a forward scan with a stack. A
      closing brace with nothing to close is ignored. */
  function OpenBraces(code: Text, pos: nat): (open: seq<nat>)
    requires pos <= |code|
    ensures forall j :: 0 <= j < |open| ==> open[j] < pos && code[open[j]] == '{'
    ensures forall i, j :: 0 <= i < j < |open| ==> open[i] < open[j]
  {
    if pos == 0 then []
    else
      var before := OpenBraces(code, pos - 1);
      if code[pos - 1] == '{' then before + [pos - 1]
      else if code[pos - 1] == '}' then Without(before, 1)
      else before
  }

  /** From the innermost brace outwards, is the first function or loop header a loop? */
  function Decide(code: Text, open: seq<nat>, isFn: Text -> bool, isLoop: Text -> bool): bool
    requires forall j :: 0 <= j < |open| ==> open[j] < |code|
  {
    if open == [] then false
    else
      var header := Header(code, open[|open| - 1]);
      if isFn(header) then false
      else isLoop(header) || Decide(code, open[..|open| - 1], isFn, isLoop)
  }

  ghost predicate LoopAt(code: Text, open: seq<nat>, isFn: Text -> bool, isLoop: Text -> bool, j: nat)
    requires j < |open| && forall k :: 0 <= k < |open| ==> open[k] < |code|
  {
    !isFn(Header(code, open[j])) && isLoop(Header(code, open[j])) &&
    forall k :: j < k < |open| ==> !isFn(Header(code, open[k])) && !isLoop(Header(code, open[k]))
  }

  lemma DecideTop(code: Text, rest: seq<nat>, top: nat, isFn: Text -> bool, isLoop: Text -> bool)
    requires top < |code| && forall j :: 0 <= j < |rest| ==> rest[j] < |code|
    ensures Decide(code, rest + [top], isFn, isLoop) <==>
            !isFn(Header(code, top)) && (isLoop(Header(code, top)) || Decide(code, rest, isFn, isLoop))
  {}

  /** One character back changes the stack and the depth alike. */
  lemma BackOne(code: Text, k: nat, depth: nat)
    requires k < |code|
    ensures var before := OpenBraces(code, k);
            Without(OpenBraces(code, k + 1), depth) ==
              if code[k] == '}' then Without(before, depth + 1)
              else if code[k] != '{' then Without(before, depth)
              else if depth > 0 then Without(before, depth - 1)
              else Without(before, 0) + [k]
  {}

  /** The backward scan: `depth` closing braces have been seen and not yet matched. */
  function BackScan(code: Text, k: nat, depth: nat, isFn: Text -> bool, isLoop: Text -> bool): bool
    requires k <= |code|
  {
    if k == 0 then false
    else if code[k - 1] == '}' then BackScan(code, k - 1, depth + 1, isFn, isLoop)
    else if code[k - 1] == '{' && depth > 0 then BackScan(code, k - 1, depth - 1, isFn, isLoop)
    else if code[k - 1] == '{' && isFn(Header(code, k - 1)) then false
    else if code[k - 1] == '{' && isLoop(Header(code, k - 1)) then true
    else BackScan(code, k - 1, depth, isFn, isLoop)
  }

  lemma LoopBelowTop(code: Text, rest: seq<nat>, top: nat, isFn: Text -> bool, isLoop: Text -> bool, j: nat)
    requires top < |code| && (forall k :: 0 <= k < |rest| ==> rest[k] < |code|) && j <= |rest|
    ensures LoopAt(code, rest + [top], isFn, isLoop, j) <==>
            !isFn(Header(code, top)) &&
            if j == |rest| then isLoop(Header(code, top)) else !isLoop(Header(code, top)) && LoopAt(code, rest, isFn, isLoop, j)
  {
    var open := rest + [top];
    assert forall k :: 0 <= k < |rest| ==> open[k] == rest[k];
    assert open[|rest|] == top;
  }

  /** That is: some enclosing header is a loop and no function, and nothing further in is either. */
  lemma {:induction false} DecideIff(code: Text, open: seq<nat>, isFn: Text -> bool, isLoop: Text -> bool)
    requires forall j :: 0 <= j < |open| ==> open[j] < |code|
    ensures Decide(code, open, isFn, isLoop) <==> exists j :: 0 <= j < |open| && LoopAt(code, open, isFn, isLoop, j)
  {
    if open != [] {
      var top, rest := open[|open| - 1], open[..|open| - 1];
      assert open == rest + [top];
      DecideIff(code, rest, isFn, isLoop);
      DecideTop(code, rest, top, isFn, isLoop);
      forall j | 0 <= j < |open|
        ensures LoopAt(code, open, isFn, isLoop, j) <==>
                !isFn(Header(code, top)) &&
                if j == |rest| then isLoop(Header(code, top)) else !isLoop(Header(code, top)) && LoopAt(code, rest, isFn, isLoop, j)
      {
        LoopBelowTop(code, rest, top, isFn, isLoop, j);
      }
      if isLoop(Header(code, top)) && !isFn(Header(code, top)) {
        assert LoopAt(code, open, isFn, isLoop, |rest|);
      }
    }
  }

  lemma BackScanAtOpener(code: Text, k: nat, isFn: Text -> bool, isLoop: Text -> bool)
    requires k < |code| && code[k] == '{'
    ensures BackScan(code, k + 1, 0, isFn, isLoop) <==>
            !isFn(Header(code, k)) && (isLoop(Header(code, k)) || BackScan(code, k, 0, isFn, isLoop))
  {}

  /** Where the depth is after one more character back. */
  function Outward(c: char, depth: nat): nat {
    if c == '}' then depth + 1 else if c == '{' && depth > 0 then depth - 1 else depth
  }

  lemma BackScanElsewhere(code: Text, k: nat, depth: nat, isFn: Text -> bool, isLoop: Text -> bool)
    requires k < |code| && (code[k] == '{' ==> depth > 0)
    ensures BackScan(code, k + 1, depth, isFn, isLoop) ==
            BackScan(code, k, Outward(code[k], depth), isFn, isLoop)
  {}

  lemma StackAtOpener(code: Text, k: nat, isFn: Text -> bool, isLoop: Text -> bool)
    requires k < |code| && code[k] == '{'
    ensures Decide(code, Without(OpenBraces(code, k + 1), 0), isFn, isLoop) <==>
            !isFn(Header(code, k)) &&
            (isLoop(Header(code, k)) || Decide(code, Without(OpenBraces(code, k), 0), isFn, isLoop))
  {
    BackOne(code, k, 0);
    DecideTop(code, Without(OpenBraces(code, k), 0), k, isFn, isLoop);
  }

  lemma StackElsewhere(code: Text, k: nat, depth: nat)
    requires k < |code| && (code[k] == '{' ==> depth > 0)
    ensures Without(OpenBraces(code, k + 1), depth) == Without(OpenBraces(code, k), Outward(code[k], depth))
  {
    BackOne(code, k, depth);
  }

  /** For every text and position, balanced or not, counting depth backwards gives the answer of
      the forward stack. */
  lemma {:induction false} BackScanIsStack(code: Text, k: nat, depth: nat, isFn: Text -> bool, isLoop: Text -> bool)
    requires k <= |code|
    ensures BackScan(code, k, depth, isFn, isLoop) == Decide(code, Without(OpenBraces(code, k), depth), isFn, isLoop)
  {
    if k == 0 {
      assert Without(OpenBraces(code, 0), depth) == [];
    } else if code[k - 1] == '{' && depth == 0 {
      BackScanIsStack(code, k - 1, 0, isFn, isLoop);
      BackScanAtOpener(code, k - 1, isFn, isLoop);
      StackAtOpener(code, k - 1, isFn, isLoop);
    } else {
      BackScanIsStack(code, k - 1, Outward(code[k - 1], depth), isFn, isLoop);
      BackScanElsewhere(code, k - 1, depth, isFn, isLoop);
      StackElsewhere(code, k - 1, depth);
    }
  }

  method EnclosingLoop(code: Text, pos: nat, isFn: Text -> bool, isLoop: Text -> bool) returns (inLoop: bool)
    requires pos <= |code|
    ensures inLoop == Decide(code, OpenBraces(code, pos), isFn, isLoop)
  {
    BackScanIsStack(code, pos, 0, isFn, isLoop);
    assert Without(OpenBraces(code, pos), 0) == OpenBraces(code, pos);
    var depth: nat, k := 0, pos;
    while k > 0
      invariant 0 <= k <= pos
      invariant BackScan(code, k, depth, isFn, isLoop) == BackScan(code, pos, 0, isFn, isLoop)
    {
      k := k - 1;
      if code[k] == '}' {
        depth := depth + 1;
      } else if code[k] == '{' {
        if depth > 0 {
          depth := depth - 1;
          continue;
        }
        var header := Header(code, k);
        if isFn(header) {
          return false;
        }
        if isLoop(header) {
          return true;
        }
      }
    }
    return false;
  }

  /** Opening minus closing braces in `code[from..upTo]`. */
  function Balance(code: Text, from: nat, upTo: nat): int
    requires from <= upTo <= |code|
    decreases upTo - from
  {
    if from == upTo then 0
    else Balance(code, from, upTo - 1) +
         if code[upTo - 1] == '{' then 1 else if code[upTo - 1] == '}' then -1 else 0
  }

  /** The brace at `x` encloses `pos`: from it on, openings always outnumber closings. */
  ghost predicate Encloses(code: Text, x: nat, pos: nat)
    requires pos <= |code|
  {
    x < pos && code[x] == '{' && forall k :: x < k <= pos ==> Balance(code, x, k) > 0
  }

  lemma {:induction false} OpenEncloses(code: Text, pos: nat, j: nat)
    requires pos <= |code| && j < |OpenBraces(code, pos)|
    ensures var open := OpenBraces(code, pos);
            Encloses(code, open[j], pos) && Balance(code, open[j], pos) == |open| - j
  {
    if j < |OpenBraces(code, pos - 1)| {
      OpenEncloses(code, pos - 1, j);
    } else {
      assert Balance(code, pos - 1, pos - 1) == 0;
    }
  }

  lemma {:induction false} EnclosingIsOpen(code: Text, x: nat, pos: nat)
    requires pos <= |code| && Encloses(code, x, pos)
    ensures var open, d := OpenBraces(code, pos), Balance(code, x, pos);
            0 < d <= |open| && open[|open| - d] == x
    decreases pos
  {
    assert Balance(code, x, pos) > 0;
    if x + 1 < pos {
      assert Encloses(code, x, pos - 1);
      EnclosingIsOpen(code, x, pos - 1);
    } else {
      assert Balance(code, x, x) == 0;
    }
  }

  /** The forward stack holds exactly the enclosing braces. */
  lemma OpenMeansEncloses(code: Text, x: nat, pos: nat)
    requires pos <= |code|
    ensures x in OpenBraces(code, pos) <==> Encloses(code, x, pos)
  {
    if x in OpenBraces(code, pos) {
      var j :| 0 <= j < |OpenBraces(code, pos)| && OpenBraces(code, pos)[j] == x;
      OpenEncloses(code, pos, j);
    }
    if Encloses(code, x, pos) {
      EnclosingIsOpen(code, x, pos);
    }
  }
}
