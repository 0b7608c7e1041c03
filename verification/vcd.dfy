/** The header record and its loader. */
module Vcd {
  import opened Types

  /** `VCD`: the header fields the parser extracts. */
  datatype Record = Record(date: string, version: string, timescale: TimeScale, comments: seq<string>)

  /** `VCD::new`: no date, no version, no comments. `TimeScale::new` is not
      part of this model, so its value is a parameter. */
  function New(defaultTimescale: TimeScale): (v: Record)
    ensures v.date == "" && v.version == "" && v.comments == []
    ensures v.timescale == defaultTimescale
  {
    Record("", "", defaultTimescale, [])
  }
}

module VcdLoader {
  import opened Strings
  import opened Errors
  import opened Types
  import Vcd
  import Parser

  /** `VCDLoader::load_from_str`: hands the text to the parser and returns
      its result unchanged; the timescale decoder is a parameter. */
  function LoadFromStr(s: string, decode: string -> TimeScale): (r: Result<Vcd.Record>)
    ensures r == Parser.Parse(s, decode)
    ensures r.Ok? ==> Parser.IsBlockContent(r.value.date) && Parser.IsBlockContent(r.value.version)
    ensures r.Ok? ==> |r.value.comments| >= 1
    ensures r.Ok? ==> forall i :: 0 <= i < |r.value.comments| ==> Parser.IsBlockContent(r.value.comments[i])
  {
    Parser.ParseCommandSummary(Parser.DateConfig, s);
    Parser.ParseCommandSummary(Parser.VersionConfig, s);
    Parser.ParseCommandSummary(Parser.CommentConfig, s);
    var vcd :- Parser.Parse(s, decode);
    Ok(vcd)
  }
}
