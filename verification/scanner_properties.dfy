/** Properties of the command scanner of `src/parser.rs` that relate several
    steps: how scans compose, what a well-formed block yields, which words
    are ignored, where and with which line number a scan fails. */
module ScannerProperties {
  import opened Strings
  import opened Errors
  import opened Tokenizer
  import opened Parser

  /** The accumulator after appending each word with a leading space, as the
      loop does while a block is open. */
  function Accumulated(ws: seq<string>): string
  {
    if |ws| == 0 then "" else " " + ws[0] + Accumulated(ws[1..])
  }

  /** The accumulated text is the words joined by single spaces, behind one
      leading space. */
  lemma {:induction false} AccumulatedIsJoin(ws: seq<string>)
    requires |ws| > 0
    ensures Accumulated(ws) == " " + JoinWith(ws, ' ')
    decreases |ws|
  {
    if |ws| > 1 {
      AccumulatedIsJoin(ws[1..]);
    }
  }

  /** The words that may sit between an opener and its `$end`: no foreign
      command, and `$end` only as the very first word, where the accumulator
      is still empty and the word is taken as text. */
  predicate BlockBody(cfg: Config, body: seq<string>) {
    forall i :: 0 <= i < |body| ==>
      && !IsDifferentCommand(Clean(body[i]), cfg.command)
      && (IsEnd(Clean(body[i])) ==> i == 0)
  }

  /** No word names the target command once its newlines are stripped. */
  predicate NoOpener(cfg: Config, words: seq<string>) {
    forall i :: 0 <= i < |words| ==> Clean(words[i]) != cfg.command
  }

  lemma AppendAssoc<T>(a: seq<T>, b: seq<T>, c: seq<T>)
    ensures a + b + c == a + (b + c)
  {
  }

  /** Scanning two stretches of words one after the other is scanning their
      concatenation: the scan is a left fold of `Step`. */
  lemma {:induction false} ScanAppend(cfg: Config, st: ScanState, a: seq<string>, b: seq<string>)
    ensures Scan(cfg, st, a + b) == if Scan(cfg, st, a).Err? then Scan(cfg, st, a)
                                    else Scan(cfg, Scan(cfg, st, a).value, b)
    decreases |a|
  {
    if |a| == 0 {
      assert a + b == b;
    } else {
      assert (a + b)[0] == a[0];
      assert (a + b)[1..] == a[1..] + b;
      ScanFirst(cfg, st, a + b);
      ScanFirst(cfg, st, a);
      var step := Step(cfg, st, a[0]);
      if step.Ok? {
        ScanAppend(cfg, step.value, a[1..], b);
      }
    }
  }

  /** The form of `ScanAppend` used when the first stretch is known to succeed. */
  lemma ScanThen(cfg: Config, st: ScanState, a: seq<string>, b: seq<string>, mid: ScanState)
    requires Scan(cfg, st, a) == Ok(mid)
    ensures Scan(cfg, st, a + b) == Scan(cfg, mid, b)
  {
    ScanAppend(cfg, st, a, b);
  }

  /** While idle, every word other than the target command (a stray `$end`
      or a foreign command included) is passed over; only the line counter
      moves. */
  lemma {:induction false} ScanSkipsWhileIdle(cfg: Config, st: ScanState, words: seq<string>)
    requires !st.inBlock && st.acc == ""
    requires NoOpener(cfg, words)
    ensures var r := Scan(cfg, st, words);
            && r.Ok? && !r.value.inBlock && r.value.acc == "" && r.value.blocks == st.blocks
            && r.value.line == st.line + NewlineCount(words)
    decreases |words|
  {
    if |words| > 0 {
      ScanFirst(cfg, st, words);
      var step := Step(cfg, st, words[0]);
      assert && step.Ok? && !step.value.inBlock && step.value.acc == "" && step.value.blocks == st.blocks
             && step.value.line == st.line + (if EndsLine(words[0]) then 1 else 0);
      ScanSkipsWhileIdle(cfg, step.value, words[1..]);
    }
  }

  /** Inside a block, words that are neither foreign commands nor a closing
      `$end` are appended, newline-stripped, each behind one space; the
      target command repeated inside its own block is such a word. */
  lemma {:induction false} ScanAccumulatesInBlock(cfg: Config, st: ScanState, body: seq<string>)
    requires st.inBlock
    requires forall i :: 0 <= i < |body| ==> !IsDifferentCommand(Clean(body[i]), cfg.command)
    requires forall i :: 0 <= i < |body| ==> IsEnd(Clean(body[i])) ==> i == 0 && st.acc == ""
    ensures var r := Scan(cfg, st, body);
            && r.Ok? && r.value.inBlock && r.value.acc == st.acc + Accumulated(Cleaned(body))
            && r.value.blocks == st.blocks && r.value.line == st.line + NewlineCount(body)
    decreases |body|
  {
    if |body| > 0 {
      ScanFirst(cfg, st, body);
      var w := Clean(body[0]);
      var step := Step(cfg, st, body[0]);
      assert && step.Ok? && step.value.inBlock && step.value.acc == st.acc + " " + w
             && step.value.blocks == st.blocks
             && step.value.line == st.line + (if EndsLine(body[0]) then 1 else 0);
      ScanAccumulatesInBlock(cfg, step.value, body[1..]);
      AccumulatedFirst(st.acc, body);
    } else {
      assert Accumulated(Cleaned(body)) == "";
    }
  }

  /** Appending the first word and then the rest is appending them all. */
  lemma AccumulatedFirst(acc: string, body: seq<string>)
    requires |body| > 0
    ensures acc + " " + Clean(body[0]) + Accumulated(Cleaned(body[1..])) == acc + Accumulated(Cleaned(body))
  {
    assert Cleaned(body)[1..] == Cleaned(body[1..]);
  }

  /** An opener, a non-empty body and a closing `$end` add exactly one block
      whose content is the body's newline-stripped words joined by single
      spaces and trimmed; the scan is idle again afterwards. */
  lemma ScanReadsBlock(cfg: Config, st: ScanState, opener: string, body: seq<string>, closer: string)
    requires !st.inBlock && st.acc == ""
    requires Clean(opener) == cfg.command
    requires !(cfg.enforceOne && |st.blocks| > 0)
    requires |body| > 0 && BlockBody(cfg, body)
    requires IsEnd(Clean(closer))
    ensures var r := Scan(cfg, st, [opener] + body + [closer]);
            && r.Ok? && !r.value.inBlock && r.value.acc == ""
            && r.value.blocks == st.blocks + [Trim(JoinWith(Cleaned(body), ' '))]
            && r.value.line == st.line + NewlineCount([opener] + body + [closer])
  {
    OpenerThenBody(cfg, st, opener, body);
    var inside := Scan(cfg, st, [opener] + body).value;
    CloserEndsBlock(cfg, inside, closer, body);
    ScanThen(cfg, st, [opener] + body, [closer], inside);
    BlockLines(opener, body, closer);
  }

  /** The newline-bearing words of an opener, a body and a closer. */
  lemma BlockLines(opener: string, body: seq<string>, closer: string)
    ensures NewlineCount([opener] + body + [closer])
            == (if EndsLine(opener) then 1 else 0) + NewlineCount(body) + (if EndsLine(closer) then 1 else 0)
  {
    NewlineCountAppend([opener], body);
    NewlineCountAppend([opener] + body, [closer]);
  }

  /** The opener opens a block, which then holds the body's accumulated text. */
  lemma OpenerThenBody(cfg: Config, st: ScanState, opener: string, body: seq<string>)
    requires !st.inBlock && st.acc == ""
    requires Clean(opener) == cfg.command
    requires !(cfg.enforceOne && |st.blocks| > 0)
    requires BlockBody(cfg, body)
    ensures var r := Scan(cfg, st, [opener] + body);
            && r.Ok? && r.value.inBlock && r.value.acc == Accumulated(Cleaned(body))
            && r.value.blocks == st.blocks
            && r.value.line == st.line + (if EndsLine(opener) then 1 else 0) + NewlineCount(body)
  {
    OpenerOpensBlock(cfg, st, opener);
    var openSt := Scan(cfg, st, [opener]).value;
    ScanAccumulatesInBlock(cfg, openSt, body);
    assert openSt.acc + Accumulated(Cleaned(body)) == Accumulated(Cleaned(body));
    ScanThen(cfg, st, [opener], body, openSt);
  }

  /** While idle, the target command opens a block unless enforcement
      forbids a second one. */
  lemma OpenerOpensBlock(cfg: Config, st: ScanState, opener: string)
    requires !st.inBlock && st.acc == ""
    requires Clean(opener) == cfg.command
    requires !(cfg.enforceOne && |st.blocks| > 0)
    ensures var r := Scan(cfg, st, [opener]);
            && r.Ok? && r.value.inBlock && r.value.acc == "" && r.value.blocks == st.blocks
            && r.value.line == st.line + (if EndsLine(opener) then 1 else 0)
  {
    ScanFirst(cfg, st, [opener]);
  }

  /** The closing `$end` of a block that has accumulated the body's words. */
  lemma CloserEndsBlock(cfg: Config, st: ScanState, closer: string, body: seq<string>)
    requires |body| > 0 && st.acc == Accumulated(Cleaned(body))
    requires IsEnd(Clean(closer))
    ensures var r := Scan(cfg, st, [closer]);
            && r.Ok? && !r.value.inBlock && r.value.acc == ""
            && r.value.blocks == st.blocks + [Trim(JoinWith(Cleaned(body), ' '))]
            && r.value.line == st.line + (if EndsLine(closer) then 1 else 0)
  {
    AccumulatedIsJoin(Cleaned(body));
    TrimLeadingWhitespace(' ', JoinWith(Cleaned(body), ' '));
    ScanFirst(cfg, st, [closer]);
    EndClosesBlock(cfg, st, closer);
  }

  /** Inside a block, a word starting with `$` that is neither the target
      command nor `$end` fails the scan at once, at the current line. */
  lemma ForeignCommandInBlockFails(cfg: Config, st: ScanState, word: string, rest: seq<string>)
    requires st.inBlock && IsDifferentCommand(Clean(word), cfg.command)
    ensures Scan(cfg, st, [word] + rest) == Err(LoadError(st.line, MissingEnd(cfg.command)))
  {
    ScanFirst(cfg, st, [word] + rest);
  }

  /** Under enforcement, the target command seen while idle after a block
      has closed fails the scan at once, before any of the new block is read. */
  lemma SecondOpenerFails(cfg: Config, st: ScanState, word: string, rest: seq<string>)
    requires cfg.enforceOne && !st.inBlock && st.acc == "" && |st.blocks| > 0
    requires Clean(word) == cfg.command
    ensures Scan(cfg, st, [word] + rest) == Err(LoadError(st.line, Multiple(cfg.command)))
  {
    ScanFirst(cfg, st, [word] + rest);
  }

  /** Without enforcement a second opener is accepted like the first. */
  lemma RepeatedOpenerAllowed(cfg: Config, st: ScanState, word: string)
    requires !cfg.enforceOne && !st.inBlock && st.acc == ""
    requires Clean(word) == cfg.command
    ensures Step(cfg, st, word) == Ok(st.(inBlock := true, line := st.line + (if EndsLine(word) then 1 else 0)))
  {
  }

  /** A `$end` right after the opener does not close the block: the
      accumulator is still empty, so the word becomes its text. */
  lemma FirstEndIsText(cfg: Config, st: ScanState, word: string)
    requires st.inBlock && st.acc == "" && IsEnd(Clean(word))
    ensures Step(cfg, st, word)
            == Ok(st.(acc := " $end", line := st.line + (if EndsLine(word) then 1 else 0)))
  {
    assert st.acc + " " + Clean(word) == " $end";
  }

  /** A scan that fails does so at the first word whose step fails, and the
      error carries one more than the start line for each newline-bearing
      word before that one. */
  lemma {:induction false} ScanFailsAtFirstFailingWord(cfg: Config, st: ScanState, words: seq<string>)
    requires Scan(cfg, st, words).Err?
    ensures exists k :: && 0 <= k < |words|
                        && Scan(cfg, st, words[..k]).Ok?
                        && Step(cfg, Scan(cfg, st, words[..k]).value, words[k]) == Scan(cfg, st, words)
                        && Scan(cfg, st, words).error.line == st.line + NewlineCount(words[..k])
    decreases |words|
  {
    ScanFirst(cfg, st, words);
    var step := Step(cfg, st, words[0]);
    if step.Err? {
      assert words[..0] == [];
      assert Scan(cfg, st, words[..0]) == Ok(st);
    } else {
      var rest := words[1..];
      ScanFailsAtFirstFailingWord(cfg, step.value, rest);
      var k :| && 0 <= k < |rest|
               && Scan(cfg, step.value, rest[..k]).Ok?
               && Step(cfg, Scan(cfg, step.value, rest[..k]).value, rest[k]) == Scan(cfg, step.value, rest)
               && Scan(cfg, step.value, rest).error.line == step.value.line + NewlineCount(rest[..k]);
      PrefixAfterStep(cfg, st, words, k);
      var j := k + 1;
      assert Scan(cfg, st, words[..j]) == Scan(cfg, step.value, rest[..k]);
      assert Step(cfg, Scan(cfg, st, words[..j]).value, words[j]) == Scan(cfg, st, words);
      assert Scan(cfg, st, words).error.line == st.line + NewlineCount(words[..j]);
    }
  }

  /** The scan of the first `k + 1` words is the first step followed by the
      scan of the next `k`. */
  lemma PrefixAfterStep(cfg: Config, st: ScanState, words: seq<string>, k: nat)
    requires k < |words| - 1 && Step(cfg, st, words[0]).Ok?
    ensures Scan(cfg, st, words[..k + 1]) == Scan(cfg, Step(cfg, st, words[0]).value, words[1..][..k])
    ensures NewlineCount(words[..k + 1])
            == (if EndsLine(words[0]) then 1 else 0) + NewlineCount(words[1..][..k])
  {
    var prefix := words[..k + 1];
    assert prefix[0] == words[0] && prefix[1..] == words[1..][..k];
    ScanFirst(cfg, st, prefix);
  }

  /** `parse_command` fails with a line number equal to one plus the number
      of newline-bearing words before the offending word, or before the end
      of input when a block is left open. */
  lemma ParseCommandErrorLine(cfg: Config, lines: string)
    requires ParseCommand(cfg, lines).Err?
    ensures exists k :: && 0 <= k <= |Tokens(lines)|
                        && ParseCommand(cfg, lines).error.line == 1 + NewlineCount(Tokens(lines)[..k])
  {
    var words := Tokens(lines);
    if Scan(cfg, Start, words).Err? {
      ScanFailsAtFirstFailingWord(cfg, Start, words);
    } else {
      ScanSummary(cfg, Start, words);
      assert words[..|words|] == words;
    }
  }

  /** Input that ends inside a block fails with the line count reached at
      the end of input. */
  lemma UnclosedBlockFails(cfg: Config, lines: string)
    requires Scan(cfg, Start, Tokens(lines)).Ok? && Scan(cfg, Start, Tokens(lines)).value.inBlock
    ensures ParseCommand(cfg, lines)
            == Err(LoadError(1 + NewlineCount(Tokens(lines)), MissingEnd(cfg.command)))
  {
    ScanSummary(cfg, Start, Tokens(lines));
  }

  /** When no word opens a block, the result is the one empty string that
      stands in for an absent command. */
  lemma AbsentCommandGivesEmptyText(cfg: Config, lines: string)
    requires NoOpener(cfg, Tokens(lines))
    ensures ParseCommand(cfg, lines) == Ok([""])
  {
    ScanSkipsWhileIdle(cfg, Start, Tokens(lines));
  }

  /** A stretch that leaves the scan idle, followed by words that never name
      the command, leaves it idle with the same blocks. */
  lemma ScanThenIdle(cfg: Config, st: ScanState, a: seq<string>, after: seq<string>)
    requires Scan(cfg, st, a).Ok? && !Scan(cfg, st, a).value.inBlock && Scan(cfg, st, a).value.acc == ""
    requires NoOpener(cfg, after)
    ensures var r := Scan(cfg, st, a + after);
            && r.Ok? && !r.value.inBlock && r.value.acc == "" && r.value.blocks == Scan(cfg, st, a).value.blocks
            && r.value.line == Scan(cfg, st, a).value.line + NewlineCount(after)
  {
    var mid := Scan(cfg, st, a).value;
    ScanSkipsWhileIdle(cfg, mid, after);
    ScanThen(cfg, st, a, after, mid);
  }

  /** Words that are one well-formed block amid words that never name the
      command scan to an idle state holding that block's content alone. */
  lemma OneBlockScan(cfg: Config, before: seq<string>, opener: string,
                     body: seq<string>, closer: string, after: seq<string>)
    requires NoOpener(cfg, before) && NoOpener(cfg, after)
    requires Clean(opener) == cfg.command
    requires |body| > 0 && BlockBody(cfg, body)
    requires IsEnd(Clean(closer))
    ensures var words := before + [opener] + body + [closer] + after;
            var r := Scan(cfg, Start, words);
            && r.Ok? && !r.value.inBlock && r.value.acc == ""
            && r.value.blocks == [Trim(JoinWith(Cleaned(body), ' '))]
            && r.value.line == 1 + NewlineCount(words)
  {
    var block := [opener] + body + [closer];
    AppendAssoc(before + [opener], body, [closer]);
    AppendAssoc(before, [opener], body + [closer]);
    AppendAssoc(before, block, after);
    assert before + [opener] + body + [closer] == before + block;
    ScanSkipsWhileIdle(cfg, Start, before);
    var idle := Scan(cfg, Start, before).value;
    ScanReadsBlock(cfg, idle, opener, body, closer);
    ScanThenIdle(cfg, idle, block, after);
    ScanThen(cfg, Start, before, block + after, idle);
    NewlineCountAppend(block, after);
    NewlineCountAppend(before, block + after);
  }

  /** Input whose words are one well-formed block amid words that never name
      the command yields that block's content alone. */
  lemma OneBlockInput(cfg: Config, lines: string, before: seq<string>, opener: string,
                      body: seq<string>, closer: string, after: seq<string>)
    requires Tokens(lines) == before + [opener] + body + [closer] + after
    requires NoOpener(cfg, before) && NoOpener(cfg, after)
    requires Clean(opener) == cfg.command
    requires |body| > 0 && BlockBody(cfg, body)
    requires IsEnd(Clean(closer))
    ensures var r := ParseCommand(cfg, lines);
            r.Ok? && r.value == [Trim(JoinWith(Cleaned(body), ' '))]
  {
    OneBlockScan(cfg, before, opener, body, closer, after);
    ParseCommandOfIdleScan(cfg, lines);
  }

  /** Without enforcement, two well-formed blocks amid words that never name
      the command scan to an idle state holding both contents, in order. */
  lemma TwoBlockScan(cfg: Config, before: seq<string>,
                     opener1: string, body1: seq<string>, closer1: string, middle: seq<string>,
                     opener2: string, body2: seq<string>, closer2: string, after: seq<string>)
    requires !cfg.enforceOne
    requires NoOpener(cfg, before) && NoOpener(cfg, middle) && NoOpener(cfg, after)
    requires Clean(opener1) == cfg.command && Clean(opener2) == cfg.command
    requires |body1| > 0 && BlockBody(cfg, body1) && |body2| > 0 && BlockBody(cfg, body2)
    requires IsEnd(Clean(closer1)) && IsEnd(Clean(closer2))
    ensures var r := Scan(cfg, Start, before + [opener1] + body1 + [closer1] + middle
                                      + [opener2] + body2 + [closer2] + after);
            && r.Ok? && !r.value.inBlock
            && r.value.blocks == [Trim(JoinWith(Cleaned(body1), ' ')), Trim(JoinWith(Cleaned(body2), ' '))]
  {
    var first := before + [opener1] + body1 + [closer1] + middle;
    var second := [opener2] + body2 + [closer2];
    AppendAssoc(first + [opener2], body2, [closer2]);
    AppendAssoc(first, [opener2], body2 + [closer2]);
    AppendAssoc(first, second, after);
    assert first + [opener2] + body2 + [closer2] == first + second;
    OneBlockScan(cfg, before, opener1, body1, closer1, middle);
    var mid := Scan(cfg, Start, first).value;
    assert Scan(cfg, mid, second + after).Ok? && !Scan(cfg, mid, second + after).value.inBlock
           && Scan(cfg, mid, second + after).value.blocks == mid.blocks + [Trim(JoinWith(Cleaned(body2), ' '))] by {
      ScanReadsBlock(cfg, mid, opener2, body2, closer2);
      ScanThenIdle(cfg, mid, second, after);
    }
    ScanThen(cfg, Start, first, second + after, mid);
  }

  /** Without enforcement, two well-formed blocks amid words that never name
      the command yield both contents, in input order. */
  lemma TwoBlockInput(cfg: Config, lines: string, before: seq<string>,
                      opener1: string, body1: seq<string>, closer1: string, middle: seq<string>,
                      opener2: string, body2: seq<string>, closer2: string, after: seq<string>)
    requires !cfg.enforceOne
    requires Tokens(lines) == before + [opener1] + body1 + [closer1] + middle
                              + [opener2] + body2 + [closer2] + after
    requires NoOpener(cfg, before) && NoOpener(cfg, middle) && NoOpener(cfg, after)
    requires Clean(opener1) == cfg.command && Clean(opener2) == cfg.command
    requires |body1| > 0 && BlockBody(cfg, body1) && |body2| > 0 && BlockBody(cfg, body2)
    requires IsEnd(Clean(closer1)) && IsEnd(Clean(closer2))
    ensures var r := ParseCommand(cfg, lines);
            r.Ok? && r.value == [Trim(JoinWith(Cleaned(body1), ' ')), Trim(JoinWith(Cleaned(body2), ' '))]
  {
    TwoBlockScan(cfg, before, opener1, body1, closer1, middle, opener2, body2, closer2, after);
    ParseCommandOfIdleScan(cfg, lines);
  }

  /** One block of the input as the scanner meets it: the opener, the body,
      the closing `$end`, and the idle words up to the next opener. */
  datatype BlockSpan = BlockSpan(opener: string, body: seq<string>, closer: string, after: seq<string>)

  /** The span opens with the command, holds a non-empty body, closes with
      `$end`, and never names the command again before the next span. */
  predicate WellFormedSpan(cfg: Config, b: BlockSpan) {
    && Clean(b.opener) == cfg.command
    && |b.body| > 0 && BlockBody(cfg, b.body)
    && IsEnd(Clean(b.closer))
    && NoOpener(cfg, b.after)
  }

  /** The words of the spans, one after the other. */
  function SpanWords(bs: seq<BlockSpan>): seq<string>
    decreases |bs|
  {
    if |bs| == 0 then []
    else [bs[0].opener] + bs[0].body + [bs[0].closer] + bs[0].after + SpanWords(bs[1..])
  }

  /** What closing the span's block appends: its cleaned body, joined by
      single spaces and trimmed. */
  function SpanContent(b: BlockSpan): string {
    Trim(JoinWith(Cleaned(b.body), ' '))
  }

  /** One well-formed span read from an idle state, where enforcement does
      not forbid its block, leaves the scan idle with its content appended. */
  lemma SpanScan(cfg: Config, st: ScanState, b: BlockSpan)
    requires !st.inBlock && st.acc == "" && !(cfg.enforceOne && |st.blocks| > 0)
    requires WellFormedSpan(cfg, b)
    ensures var r := Scan(cfg, st, [b.opener] + b.body + [b.closer] + b.after);
            && r.Ok? && !r.value.inBlock && r.value.acc == ""
            && r.value.blocks == st.blocks + [SpanContent(b)]
  {
    var block := [b.opener] + b.body + [b.closer];
    ScanReadsBlock(cfg, st, b.opener, b.body, b.closer);
    ScanThenIdle(cfg, st, block, b.after);
  }

  /** Without enforcement, any number of well-formed spans read from an idle
      state leave it idle, with each span's content appended in order. */
  lemma {:induction false} SpansScan(cfg: Config, st: ScanState, bs: seq<BlockSpan>)
    requires !cfg.enforceOne && !st.inBlock && st.acc == ""
    requires forall i :: 0 <= i < |bs| ==> WellFormedSpan(cfg, bs[i])
    ensures var r := Scan(cfg, st, SpanWords(bs));
            && r.Ok? && !r.value.inBlock && r.value.acc == ""
            && r.value.blocks == st.blocks + seq(|bs|, i requires 0 <= i < |bs| => SpanContent(bs[i]))
    decreases |bs|
  {
    if |bs| == 0 {
      assert seq(|bs|, i requires 0 <= i < |bs| => SpanContent(bs[i])) == [];
    } else {
      var b := bs[0];
      var first := [b.opener] + b.body + [b.closer] + b.after;
      SpanScan(cfg, st, b);
      var mid := Scan(cfg, st, first).value;
      SpansScan(cfg, mid, bs[1..]);
      ScanThen(cfg, st, first, SpanWords(bs[1..]), mid);
      SpanContentsFirst(bs);
      AppendAssoc(st.blocks, [SpanContent(b)], seq(|bs[1..]|, i requires 0 <= i < |bs[1..]| => SpanContent(bs[1..][i])));
    }
  }

  /** The contents of the spans are the first one's followed by the rest's. */
  lemma SpanContentsFirst(bs: seq<BlockSpan>)
    requires |bs| > 0
    ensures seq(|bs|, i requires 0 <= i < |bs| => SpanContent(bs[i]))
            == [SpanContent(bs[0])] + seq(|bs[1..]|, i requires 0 <= i < |bs[1..]| => SpanContent(bs[1..][i]))
  {
  }

  /** Idle words followed by well-formed spans scan, from the start, to an
      idle state holding each span's content in order. */
  lemma SpansAfterIdleScan(cfg: Config, before: seq<string>, bs: seq<BlockSpan>)
    requires !cfg.enforceOne
    requires NoOpener(cfg, before)
    requires forall i :: 0 <= i < |bs| ==> WellFormedSpan(cfg, bs[i])
    ensures var r := Scan(cfg, Start, before + SpanWords(bs));
            && r.Ok? && !r.value.inBlock
            && r.value.blocks == seq(|bs|, i requires 0 <= i < |bs| => SpanContent(bs[i]))
  {
    ScanSkipsWhileIdle(cfg, Start, before);
    var idle := Scan(cfg, Start, before).value;
    SpansScan(cfg, idle, bs);
    ScanThen(cfg, Start, before, SpanWords(bs), idle);
  }

  /** Without enforcement, input made of idle words followed by any number
      of well-formed spans yields each span's content, in input order; with
      no span at all it yields the one empty string. */
  lemma SpansInput(cfg: Config, lines: string, before: seq<string>, bs: seq<BlockSpan>)
    requires !cfg.enforceOne
    requires Tokens(lines) == before + SpanWords(bs)
    requires NoOpener(cfg, before)
    requires forall i :: 0 <= i < |bs| ==> WellFormedSpan(cfg, bs[i])
    ensures ParseCommand(cfg, lines)
            == Ok(if |bs| == 0 then [""] else seq(|bs|, i requires 0 <= i < |bs| => SpanContent(bs[i])))
  {
    SpansAfterIdleScan(cfg, before, bs);
    if |bs| == 0 {
      assert Scan(cfg, Start, Tokens(lines)).value.blocks == [];
    } else {
      ParseCommandOfIdleScan(cfg, lines);
    }
  }

  /** A block interrupted by a foreign command fails the scan at once, with
      the line count reached when that command is met. */
  lemma InterruptedBlockScan(cfg: Config, before: seq<string>, opener: string,
                             body: seq<string>, word: string, rest: seq<string>)
    requires NoOpener(cfg, before)
    requires Clean(opener) == cfg.command
    requires BlockBody(cfg, body)
    requires IsDifferentCommand(Clean(word), cfg.command)
    ensures Scan(cfg, Start, before + [opener] + body + [word] + rest)
            == Err(LoadError(1 + NewlineCount(before + [opener] + body), MissingEnd(cfg.command)))
  {
    var open := before + [opener] + body;
    assert before + [opener] + body + [word] + rest == open + ([word] + rest);
    OpenBlockScan(cfg, before, opener, body);
    var inside := Scan(cfg, Start, open).value;
    ForeignCommandInBlockFails(cfg, inside, word, rest);
    ScanThen(cfg, Start, open, [word] + rest, inside);
  }

  /** `parse_command` on input whose block is interrupted by a foreign command. */
  lemma InterruptedBlockInput(cfg: Config, lines: string, before: seq<string>, opener: string,
                              body: seq<string>, word: string, rest: seq<string>)
    requires Tokens(lines) == before + [opener] + body + [word] + rest
    requires NoOpener(cfg, before)
    requires Clean(opener) == cfg.command
    requires BlockBody(cfg, body)
    requires IsDifferentCommand(Clean(word), cfg.command)
    ensures ParseCommand(cfg, lines)
            == Err(LoadError(1 + NewlineCount(before + [opener] + body), MissingEnd(cfg.command)))
  {
    InterruptedBlockScan(cfg, before, opener, body, word, rest);
    ParseCommandOfFailedScan(cfg, lines);
  }

  /** Input that ends while the block it opened is still being read fails
      with the line count reached at the end of input. */
  lemma UnclosedInput(cfg: Config, lines: string, before: seq<string>, opener: string,
                      body: seq<string>)
    requires Tokens(lines) == before + [opener] + body
    requires NoOpener(cfg, before)
    requires Clean(opener) == cfg.command
    requires BlockBody(cfg, body)
    ensures ParseCommand(cfg, lines) == Err(LoadError(1 + NewlineCount(Tokens(lines)), MissingEnd(cfg.command)))
  {
    OpenBlockScan(cfg, before, opener, body);
    UnclosedBlockFails(cfg, lines);
  }

  /** Idle words, then an opener and block words, leave the block open. */
  lemma OpenBlockScan(cfg: Config, before: seq<string>, opener: string, body: seq<string>)
    requires NoOpener(cfg, before)
    requires Clean(opener) == cfg.command
    requires BlockBody(cfg, body)
    ensures var words := before + [opener] + body;
            var r := Scan(cfg, Start, words);
            && r.Ok? && r.value.inBlock && r.value.line == 1 + NewlineCount(words)
  {
    ScanSkipsWhileIdle(cfg, Start, before);
    var idle := Scan(cfg, Start, before).value;
    OpenerThenBody(cfg, idle, opener, body);
    assert before + [opener] + body == before + ([opener] + body);
    ScanThen(cfg, Start, before, [opener] + body, idle);
    NewlineCountAppend([opener], body);
    NewlineCountAppend(before, [opener] + body);
  }

  /** Under enforcement, a second opener after a closed block fails the
      scan at once, with the line count reached when it is met. */
  lemma SecondBlockScan(cfg: Config, before: seq<string>, opener: string,
                        body: seq<string>, closer: string, middle: seq<string>,
                        opener2: string, rest: seq<string>)
    requires cfg.enforceOne
    requires NoOpener(cfg, before) && NoOpener(cfg, middle)
    requires Clean(opener) == cfg.command && Clean(opener2) == cfg.command
    requires |body| > 0 && BlockBody(cfg, body)
    requires IsEnd(Clean(closer))
    ensures Scan(cfg, Start, before + [opener] + body + [closer] + middle + [opener2] + rest)
            == Err(LoadError(1 + NewlineCount(before + [opener] + body + [closer] + middle), Multiple(cfg.command)))
  {
    var first := before + [opener] + body + [closer] + middle;
    assert before + [opener] + body + [closer] + middle + [opener2] + rest == first + ([opener2] + rest);
    OneBlockScan(cfg, before, opener, body, closer, middle);
    var closed := Scan(cfg, Start, first).value;
    SecondOpenerFails(cfg, closed, opener2, rest);
    ScanThen(cfg, Start, first, [opener2] + rest, closed);
  }

  /** `parse_command` under enforcement on input with a second opener. */
  lemma SecondBlockInput(cfg: Config, lines: string, before: seq<string>, opener: string,
                         body: seq<string>, closer: string, middle: seq<string>,
                         opener2: string, rest: seq<string>)
    requires cfg.enforceOne
    requires Tokens(lines) == before + [opener] + body + [closer] + middle + [opener2] + rest
    requires NoOpener(cfg, before) && NoOpener(cfg, middle)
    requires Clean(opener) == cfg.command && Clean(opener2) == cfg.command
    requires |body| > 0 && BlockBody(cfg, body)
    requires IsEnd(Clean(closer))
    ensures ParseCommand(cfg, lines)
            == Err(LoadError(1 + NewlineCount(before + [opener] + body + [closer] + middle), Multiple(cfg.command)))
  {
    SecondBlockScan(cfg, before, opener, body, closer, middle, opener2, rest);
    ParseCommandOfFailedScan(cfg, lines);
  }

  /** A failing scan is what `parse_command` returns. */
  lemma ParseCommandOfFailedScan(cfg: Config, lines: string)
    requires Scan(cfg, Start, Tokens(lines)).Err?
    ensures ParseCommand(cfg, lines) == Err(Scan(cfg, Start, Tokens(lines)).error)
  {
  }

  /** A scan that ends idle with some closed blocks makes `parse_command`
      return exactly those blocks. */
  lemma ParseCommandOfIdleScan(cfg: Config, lines: string)
    requires var r := Scan(cfg, Start, Tokens(lines)); r.Ok? && !r.value.inBlock && |r.value.blocks| > 0
    ensures var r := ParseCommand(cfg, lines);
            r.Ok? && r.value == Scan(cfg, Start, Tokens(lines)).value.blocks
  {
  }
}
