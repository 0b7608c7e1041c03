/** `src/parser.rs`: the `$command ... $end` block scanner (`CommandParser`),
    the four field extractors built on it, and `parse`, which assembles the
    header record. Every `unwrap()` of the source is modelled as passing the
    error on, so the first extractor that fails decides the result. */
module Parser {
  import opened Strings
  import opened Errors
  import opened Tokenizer
  import opened Types
  import Vcd

  /** The scanner's configuration, which the builder setters fill in: the
      command to look for and whether a second block of it is an error. */
  datatype Config = Config(command: string, enforceOne: bool)

  /** The loop variables of `parse_command`: inside a block or not, the text
      accumulated for the open block, the contents of the closed blocks, and
      the line counter. */
  datatype ScanState = ScanState(inBlock: bool, acc: string, blocks: seq<string>, line: nat)

  const Start: ScanState := ScanState(false, "", [], 1)

  /** A word that starts with `$` and is neither the target command nor `$end`. */
  predicate IsDifferentCommand(w: string, command: string) {
    |w| > 0 && w[0] == '$' && w != command && w != "$end"
  }

  predicate IsEnd(w: string) {
    w == "$end"
  }

  predicate IsCommand(w: string, command: string) {
    w == command
  }

  /** What a block's content looks like once it is closed. */
  predicate IsBlockContent(b: string) {
    '\n' !in b && IsTrimmed(b)
  }

  /** What holds of every state the scan reaches from `Start`: the
      accumulator is empty while idle, no newline ever reaches it, every
      closed block is trimmed, and under enforcement at most one block
      closes, after which the scan never re-enters a block. */
  predicate Reachable(cfg: Config, st: ScanState) {
    && (!st.inBlock ==> st.acc == "")
    && '\n' !in st.acc
    && (forall i :: 0 <= i < |st.blocks| ==> IsBlockContent(st.blocks[i]))
    && (cfg.enforceOne ==> |st.blocks| <= 1 && (|st.blocks| == 1 ==> !st.inBlock))
  }

  /** One iteration of the loop over words. A foreign command inside a block
      fails; `$end` closes the block when text has accumulated; inside a
      block every other word (the target command and a first `$end`
      included) is appended; the target command outside a block opens one,
      or fails if it would be a second block under enforcement; anything
      else outside a block is ignored. The line counter moves afterwards. */
  function Step(cfg: Config, st: ScanState, word: string): Result<ScanState>
  {
    var w := Clean(word);
    if IsDifferentCommand(w, cfg.command) && st.inBlock then
      Err(LoadError(st.line, MissingEnd(cfg.command)))
    else
      var next :-
        if IsEnd(w) && |st.acc| != 0 then
          Ok(ScanState(false, "", st.blocks + [Trim(st.acc)], st.line))
        else if st.inBlock then
          Ok(st.(acc := st.acc + " " + w))
        else if IsCommand(w, cfg.command) then
          if |st.blocks| != 0 && cfg.enforceOne then
            Err(LoadError(st.line, Multiple(cfg.command)))
          else
            Ok(st.(inBlock := true))
        else
          Ok(st);
      Ok(next.(line := if EndsLine(word) then st.line + 1 else st.line))
  }

  /** What one step does at most: the line counter moves by one exactly
      when the word holds a newline, at most one block closes (with the
      trimmed accumulator, on `$end`), an error carries the current line and
      is a foreign command inside a block or, under enforcement, a second
      opener; and reachable states lead to reachable states. */
  lemma StepSummary(cfg: Config, st: ScanState, word: string)
    ensures var r := Step(cfg, st, word);
            && (r.Ok? ==> r.value.line == st.line + (if EndsLine(word) then 1 else 0))
            && (r.Ok? ==> || r.value.blocks == st.blocks
                          || (st.acc != "" && IsEnd(Clean(word)) && r.value.blocks == st.blocks + [Trim(st.acc)]))
            && (r.Err? ==> r.error.line == st.line)
            && (r.Err? ==> || (st.inBlock && r.error.info == MissingEnd(cfg.command))
                           || (!st.inBlock && cfg.enforceOne && |st.blocks| > 0
                               && r.error.info == Multiple(cfg.command)))
            && (r.Ok? && Reachable(cfg, st) ==> Reachable(cfg, r.value))
  {
    if '\n' !in st.acc {
      TrimKeepsOut(st.acc, '\n');
    }
  }

  /** Inside a block, a word starting with `$` that is neither the target
      command nor `$end` fails the pass at the current line. */
  lemma ForeignCommandFails(cfg: Config, st: ScanState, word: string)
    requires st.inBlock && IsDifferentCommand(Clean(word), cfg.command)
    ensures Step(cfg, st, word) == Err(LoadError(st.line, MissingEnd(cfg.command)))
  {
  }

  /** Once text has accumulated, `$end` closes the block: its trimmed text
      is appended to the closed blocks and the scan is idle again. */
  lemma EndClosesBlock(cfg: Config, st: ScanState, word: string)
    requires st.acc != "" && IsEnd(Clean(word))
    ensures Step(cfg, st, word)
            == Ok(ScanState(false, "", st.blocks + [Trim(st.acc)], if EndsLine(word) then st.line + 1 else st.line))
  {
  }

  /** Inside a block, any word that neither fails nor closes the block is
      appended, newline-stripped, behind one space. */
  lemma BlockAppendsWord(cfg: Config, st: ScanState, word: string)
    requires st.inBlock && !IsDifferentCommand(Clean(word), cfg.command)
    requires !(IsEnd(Clean(word)) && st.acc != "")
    ensures Step(cfg, st, word)
            == Ok(st.(acc := st.acc + " " + Clean(word), line := if EndsLine(word) then st.line + 1 else st.line))
  {
  }

  /** While idle, the target command opens a block, unless enforcement is
      on and a block has already closed. */
  lemma CommandOpensBlock(cfg: Config, st: ScanState, word: string)
    requires !st.inBlock && !(IsEnd(Clean(word)) && st.acc != "") && IsCommand(Clean(word), cfg.command)
    ensures Step(cfg, st, word)
            == if |st.blocks| != 0 && cfg.enforceOne then Err(LoadError(st.line, Multiple(cfg.command)))
               else Ok(st.(inBlock := true, line := if EndsLine(word) then st.line + 1 else st.line))
  {
  }

  /** While idle, any other word only moves the line counter. */
  lemma IdleIgnoresWord(cfg: Config, st: ScanState, word: string)
    requires !st.inBlock && !(IsEnd(Clean(word)) && st.acc != "") && !IsCommand(Clean(word), cfg.command)
    ensures Step(cfg, st, word) == Ok(st.(line := if EndsLine(word) then st.line + 1 else st.line))
  {
  }

  /** The loop over all words: the first failing step ends the scan. */
  function Scan(cfg: Config, st: ScanState, words: seq<string>): Result<ScanState>
    decreases |words|
  {
    if |words| == 0 then Ok(st)
    else
      var next :- Step(cfg, st, words[0]);
      Scan(cfg, next, words[1..])
  }

  /** What a whole scan does at most: the line counter ends one past the
      start for every newline-bearing word, closed blocks are only ever
      appended, an error carries a line reached during the scan and is one
      of the two messages, and reachable states lead to reachable states. */
  lemma {:induction false} ScanSummary(cfg: Config, st: ScanState, words: seq<string>)
    ensures var r := Scan(cfg, st, words);
            && (r.Ok? ==> r.value.line == st.line + NewlineCount(words))
            && (r.Ok? ==> st.blocks <= r.value.blocks)
            && (r.Err? ==> st.line <= r.error.line <= st.line + NewlineCount(words))
            && (r.Err? ==> || r.error.info == MissingEnd(cfg.command)
                           || (cfg.enforceOne && r.error.info == Multiple(cfg.command)))
            && (r.Ok? && Reachable(cfg, st) ==> Reachable(cfg, r.value))
    decreases |words|
  {
    if |words| > 0 {
      StepSummary(cfg, st, words[0]);
      var step := Step(cfg, st, words[0]);
      if step.Ok? {
        ScanSummary(cfg, step.value, words[1..]);
      }
    }
  }

  /** A non-empty scan is its first step followed by the scan of the rest. */
  lemma ScanFirst(cfg: Config, st: ScanState, words: seq<string>)
    requires |words| > 0
    ensures Scan(cfg, st, words) == if Step(cfg, st, words[0]).Err? then Err(Step(cfg, st, words[0]).error)
                                    else Scan(cfg, Step(cfg, st, words[0]).value, words[1..])
  {
  }

  /** After the last word: a block still open is an error at the final line
      count; otherwise the closed blocks, or `[""]` if none closed. */
  function Finish(cfg: Config, st: ScanState): (r: Result<seq<string>>)
    ensures r.Ok? <==> !st.inBlock
    ensures r.Ok? ==> |r.value| >= 1
    ensures r.Err? ==> r.error == LoadError(st.line, MissingEnd(cfg.command))
  {
    var blocks := if |st.blocks| == 0 then [""] else st.blocks;
    if st.inBlock then Err(LoadError(st.line, MissingEnd(cfg.command)))
    else Ok(blocks)
  }

  /** `CommandParser::parse_command`: the contents of the blocks of
      `cfg.command` in `lines`, in order. A success is never empty, holds
      exactly one element under enforcement, and every element is trimmed
      and newline-free. A failure is one of the two messages (the second only
      under enforcement) at a line between 1 and one past the number of
      newline-bearing words. */
  function ParseCommand(cfg: Config, lines: string): Result<seq<string>>
  {
    var st :- Scan(cfg, Start, Tokens(lines));
    Finish(cfg, st)
  }

  /** What `parse_command` returns: at least one text, exactly one under
      enforcement, each newline-free and trimmed; or one of the two errors,
      at a line between the first and one past the last newline-bearing word. */
  lemma ParseCommandSummary(cfg: Config, lines: string)
    ensures var r := ParseCommand(cfg, lines);
            && (r.Ok? ==> |r.value| >= 1)
            && (r.Ok? && cfg.enforceOne ==> |r.value| == 1)
            && (r.Ok? ==> forall i :: 0 <= i < |r.value| ==> IsBlockContent(r.value[i]))
            && (r.Err? ==> || r.error.info == MissingEnd(cfg.command)
                           || (cfg.enforceOne && r.error.info == Multiple(cfg.command)))
            && (r.Err? ==> 1 <= r.error.line <= 1 + NewlineCount(Tokens(lines)))
  {
    ScanSummary(cfg, Start, Tokens(lines));
  }

  /** A loop pass that succeeds moves the resumption point one word on. */
  lemma ResumeAfterStep(cfg: Config, words: seq<string>, i: nat, st: ScanState, next: ScanState)
    requires i < |words| && Scan(cfg, Start, words) == Scan(cfg, st, words[i..])
    requires Step(cfg, st, words[i]) == Ok(next)
    ensures Scan(cfg, Start, words) == Scan(cfg, next, words[i + 1..])
  {
    ScanFirst(cfg, st, words[i..]);
    assert words[i..][0] == words[i] && words[i..][1..] == words[i + 1..];
  }

  /** A loop pass that fails makes `parse_command` fail with its error. */
  lemma StopAtStep(cfg: Config, lines: string, i: nat, st: ScanState, e: LoadError)
    requires i < |Tokens(lines)| && Scan(cfg, Start, Tokens(lines)) == Scan(cfg, st, Tokens(lines)[i..])
    requires Step(cfg, st, Tokens(lines)[i]) == Err(e)
    ensures ParseCommand(cfg, lines) == Err(e)
  {
    var words := Tokens(lines);
    ScanFirst(cfg, st, words[i..]);
    assert words[i..][0] == words[i];
  }

  /** `parse_command` as the source writes it: a loop over the words with
      mutable locals and early returns. It computes exactly `ParseCommand`. */
  method ParseCommandLoop(cfg: Config, lines: string) returns (r: Result<seq<string>>)
    ensures r == ParseCommand(cfg, lines)
  {
    var parsing := false;
    var current := "";
    var commands: seq<string> := [];
    var lineNum: nat := 1;
    var words := Tokens(lines);
    var i := 0;
    while i < |words|
      invariant 0 <= i <= |words|
      invariant Scan(cfg, Start, words) == Scan(cfg, ScanState(parsing, current, commands, lineNum), words[i..])
    {
      ghost var before := ScanState(parsing, current, commands, lineNum);
      var word := words[i];
      var w := Clean(word);
      if IsDifferentCommand(w, cfg.command) && parsing {
        ForeignCommandFails(cfg, before, word);
        StopAtStep(cfg, lines, i, before, LoadError(lineNum, MissingEnd(cfg.command)));
        return Err(LoadError(lineNum, MissingEnd(cfg.command)));
      }
      if IsEnd(w) && |current| != 0 {
        EndClosesBlock(cfg, before, word);
        parsing := false;
        commands := commands + [Trim(current)];
        current := "";
      } else if parsing {
        BlockAppendsWord(cfg, before, word);
        current := current + " " + w;
      } else if IsCommand(w, cfg.command) {
        CommandOpensBlock(cfg, before, word);
        if |commands| != 0 && cfg.enforceOne {
          StopAtStep(cfg, lines, i, before, LoadError(lineNum, Multiple(cfg.command)));
          return Err(LoadError(lineNum, Multiple(cfg.command)));
        }
        parsing := true;
      } else {
        IdleIgnoresWord(cfg, before, word);
      }
      if EndsLine(word) {
        lineNum := lineNum + 1;
      }
      ResumeAfterStep(cfg, words, i, before, ScanState(parsing, current, commands, lineNum));
      i := i + 1;
    }
    if |commands| == 0 {
      commands := [""];
    }
    if parsing {
      r := Err(LoadError(lineNum, MissingEnd(cfg.command)));
    } else {
      r := Ok(commands);
    }
  }

  const DateConfig := Config("$date", true)
  const VersionConfig := Config("$version", true)
  const TimescaleConfig := Config("$timescale", true)
  const CommentConfig := Config("$comment", false)

  /** The common shape of the date, version and timescale extractors: scan
      with enforcement on and take element 0, which is then the only one. */
  function OnlyBlock(cfg: Config, lines: string): (r: Result<string>)
    requires cfg.enforceOne
    ensures r.Ok? ==> ParseCommand(cfg, lines) == Ok([r.value])
    ensures r.Err? ==> ParseCommand(cfg, lines) == Err(r.error)
  {
    ParseCommandSummary(cfg, lines);
    var blocks :- ParseCommand(cfg, lines);
    assert blocks == [blocks[0]];
    Ok(blocks[0])
  }

  /** `get_date_from_lines`. */
  function GetDate(lines: string): (r: Result<string>)
    ensures r.Ok? ==> ParseCommand(DateConfig, lines) == Ok([r.value])
    ensures r.Err? ==> ParseCommand(DateConfig, lines) == Err(r.error)
  {
    OnlyBlock(DateConfig, lines)
  }

  /** `get_version_from_lines`. */
  function GetVersion(lines: string): (r: Result<string>)
    ensures r.Ok? ==> ParseCommand(VersionConfig, lines) == Ok([r.value])
    ensures r.Err? ==> ParseCommand(VersionConfig, lines) == Err(r.error)
  {
    OnlyBlock(VersionConfig, lines)
  }

  /** `get_timescale_from_lines`: the only `$timescale` block, decoded. */
  function GetTimescale(lines: string, decode: string -> TimeScale): (r: Result<TimeScale>)
    ensures r.Ok? ==> && ParseCommand(TimescaleConfig, lines).Ok?
                      && |ParseCommand(TimescaleConfig, lines).value| == 1
                      && r.value == decode(ParseCommand(TimescaleConfig, lines).value[0])
    ensures r.Err? ==> ParseCommand(TimescaleConfig, lines) == Err(r.error)
  {
    var text :- OnlyBlock(TimescaleConfig, lines);
    Ok(decode(text))
  }

  /** `get_comments_from_lines`: every `$comment` block; never fails for
      multiplicity, only for a comment left open. */
  function GetComments(lines: string): (r: Result<seq<string>>)
    ensures r.Ok? ==> |r.value| >= 1
    ensures r.Err? ==> r.error.info == MissingEnd("$comment")
  {
    ParseCommandSummary(CommentConfig, lines);
    ParseCommand(CommentConfig, lines)
  }

  /** `parse`: the four extractors in the order date, version, timescale,
      comments. The record exists only when all four succeed, and otherwise
      the error is the one of the first extractor that fails. */
  function Parse(s: string, decode: string -> TimeScale): (r: Result<Vcd.Record>)
    ensures r.Ok? <==> && ParseCommand(DateConfig, s).Ok? && ParseCommand(VersionConfig, s).Ok?
                       && ParseCommand(TimescaleConfig, s).Ok? && ParseCommand(CommentConfig, s).Ok?
    ensures r.Ok? ==> && ParseCommand(DateConfig, s) == Ok([r.value.date])
                      && ParseCommand(VersionConfig, s) == Ok([r.value.version])
                      && ParseCommand(TimescaleConfig, s).value == [ParseCommand(TimescaleConfig, s).value[0]]
                      && r.value.timescale == decode(ParseCommand(TimescaleConfig, s).value[0])
                      && ParseCommand(CommentConfig, s) == Ok(r.value.comments)
    ensures ParseCommand(DateConfig, s).Err? ==> r == Err(ParseCommand(DateConfig, s).error)
    ensures ParseCommand(DateConfig, s).Ok? && ParseCommand(VersionConfig, s).Err?
            ==> r == Err(ParseCommand(VersionConfig, s).error)
    ensures ParseCommand(DateConfig, s).Ok? && ParseCommand(VersionConfig, s).Ok?
            && ParseCommand(TimescaleConfig, s).Err?
            ==> r == Err(ParseCommand(TimescaleConfig, s).error)
    ensures ParseCommand(DateConfig, s).Ok? && ParseCommand(VersionConfig, s).Ok?
            && ParseCommand(TimescaleConfig, s).Ok? && ParseCommand(CommentConfig, s).Err?
            ==> r == Err(ParseCommand(CommentConfig, s).error)
  {
    var date :- GetDate(s);
    var version :- GetVersion(s);
    var timescale :- GetTimescale(s, decode);
    var comments :- GetComments(s);
    Ok(Vcd.Record(date, version, timescale, comments))
  }
}
