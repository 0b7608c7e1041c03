/** Facts about concrete words and the loader that the unit-test lemmas
    build on. */
module TestSupport {
  import opened Strings
  import opened Errors
  import opened Tokenizer
  import opened Parser
  import opened ScannerProperties
  import opened Types
  import VcdLoader

  /** Words laid out with the given runs of spaces between them. */
  function Spaced(ws: seq<string>, gaps: seq<nat>): string
    requires |ws| == |gaps| + 1
  {
    if |gaps| == 0 then ws[0] else ws[0] + Spaces(gaps[0]) + Spaced(ws[1..], gaps[1..])
  }

  /** Words free of spaces, laid out with runs of spaces, tokenize back to
      those words. */
  lemma {:induction false} TokensSpaced(ws: seq<string>, gaps: seq<nat>)
    requires |ws| == |gaps| + 1
    requires forall i :: 0 <= i < |ws| ==> ws[i] != "" && ' ' !in ws[i]
    requires forall i :: 0 <= i < |gaps| ==> gaps[i] >= 1
    ensures Tokens(Spaced(ws, gaps)) == ws
    decreases |gaps|
  {
    TokensOfWord(ws[0]);
    if |gaps| > 0 {
      TokensSpaced(ws[1..], gaps[1..]);
      TokensAcrossGap(ws[0], gaps[0], Spaced(ws[1..], gaps[1..]));
    }
  }

  /** A word without a newline is its own cleaned form. */
  lemma CleanPlain(w: string)
    requires '\n' !in w
    ensures Clean(w) == w
  {
    WithoutAbsent(w, '\n');
  }

  /** A word ending in one or two newlines cleans to what comes before them. */
  lemma CleanLine(w: string)
    requires '\n' !in w
    ensures Clean(w + "\n") == w && Clean(w + "\n\n") == w
  {
    WithoutAppend(w, "\n", '\n');
    WithoutAppend(w, "\n\n", '\n');
    WithoutAbsent(w, '\n');
  }

  /** Words that are `cs` with at most two newlines appended clean to `cs`. */
  lemma CleanedOf(ws: seq<string>, cs: seq<string>)
    requires |ws| == |cs|
    requires forall i :: 0 <= i < |cs| ==> '\n' !in cs[i]
    requires forall i :: 0 <= i < |ws| ==> ws[i] == cs[i] || ws[i] == cs[i] + "\n" || ws[i] == cs[i] + "\n\n"
    ensures Cleaned(ws) == cs
  {
    forall i | 0 <= i < |ws| ensures Clean(ws[i]) == cs[i] {
      CleanPlain(cs[i]);
      CleanLine(cs[i]);
    }
  }

  /** Words without `$` are never a command or `$end`, so they may sit
      anywhere inside a block. */
  lemma TextWords(cfg: Config, ws: seq<string>)
    requires '$' in cfg.command
    requires forall i :: 0 <= i < |ws| ==> '$' !in ws[i]
    ensures BlockBody(cfg, ws)
  {
    forall i | 0 <= i < |ws| ensures '$' !in Clean(ws[i]) { }
  }

  /** A character of the command that no word holds keeps every word from
      naming the command. */
  lemma NoOpenerByChar(cfg: Config, ws: seq<string>, c: char)
    requires c in cfg.command && c != '\n'
    requires forall i :: 0 <= i < |ws| ==> c !in ws[i]
    ensures NoOpener(cfg, ws)
  {
  }

  /** Words none of which cleans to the command never name it. */
  lemma NoOpenerOfCleaned(cfg: Config, ws: seq<string>, cs: seq<string>)
    requires Cleaned(ws) == cs && cfg.command !in cs
    ensures NoOpener(cfg, ws)
  {
    assert forall i :: 0 <= i < |ws| ==> Clean(ws[i]) == cs[i];
  }

  /** The content of a block whose words clean to `cs`, when those joined
      by single spaces are already trimmed. */
  lemma ContentOf(body: seq<string>, cs: seq<string>, text: string)
    requires Cleaned(body) == cs && JoinWith(cs, ' ') == text && IsTrimmed(text)
    ensures Trim(JoinWith(Cleaned(body), ' ')) == text
  {
    TrimOfTrimmed(text);
  }

  /** All four extractors succeed, so the loader returns the record they build. */
  lemma Loads(s: string, decode: string -> TimeScale, date: string, version: string,
              timescale: string, comments: seq<string>)
    requires ParseCommand(DateConfig, s) == Ok([date])
    requires ParseCommand(VersionConfig, s) == Ok([version])
    requires ParseCommand(TimescaleConfig, s) == Ok([timescale])
    requires ParseCommand(CommentConfig, s) == Ok(comments)
    ensures var r := VcdLoader.LoadFromStr(s, decode);
            && r.Ok? && r.value.date == date && r.value.version == version
            && r.value.timescale == decode(timescale) && r.value.comments == comments
  {
  }

  /** The date extractor fails, so the loader fails with its error. */
  lemma FailsOnDate(s: string, decode: string -> TimeScale, e: LoadError)
    requires ParseCommand(DateConfig, s) == Err(e)
    ensures VcdLoader.LoadFromStr(s, decode) == Err(e)
  {
  }

  /** The date extractor succeeds and the version extractor fails. */
  lemma FailsOnVersion(s: string, decode: string -> TimeScale, e: LoadError)
    requires ParseCommand(DateConfig, s).Ok?
    requires ParseCommand(VersionConfig, s) == Err(e)
    ensures VcdLoader.LoadFromStr(s, decode) == Err(e)
  {
  }

  /** The first three extractors succeed and the comment extractor fails. */
  lemma FailsOnComment(s: string, decode: string -> TimeScale, e: LoadError)
    requires ParseCommand(DateConfig, s).Ok? && ParseCommand(VersionConfig, s).Ok?
    requires ParseCommand(TimescaleConfig, s).Ok?
    requires ParseCommand(CommentConfig, s) == Err(e)
    ensures VcdLoader.LoadFromStr(s, decode) == Err(e)
  {
  }
}
