/**
 The aggregation mode flag: `get_aggregation_mode` (src/lib.rs:169-175) and
 `set_aggregation_mode` (src/lib.rs:177-185). The flag is informational: no
 other operation reads it.
 */
module Modes {
  import opened Types

  /** Rust's `char::to_ascii_uppercase`: only `a`..`z` change. */
  function UpperChar(c: char): (u: char)
    ensures 'a' <= c <= 'z' ==> u as int == c as int - 32
    ensures !('a' <= c <= 'z') ==> u == c
  {
    if 'a' <= c <= 'z' then (c as int - 32) as char else c
  }

  /** `str::to_ascii_uppercase` */
  function ToAsciiUpper(s: string): (r: string)
    ensures |r| == |s|
    ensures forall i :: 0 <= i < |s| ==> r[i] == UpperChar(s[i])
  {
    seq(|s|, i requires 0 <= i < |s| => UpperChar(s[i]))
  }

  /**
   `set_aggregation_mode`: exactly the case variants of "SMPC" select SMPC;
   every other string, "" included, selects Plain. Nothing else changes.
   */
  function SetAggregationMode(s: State, mode: string): (r: State)
    ensures r == s.(aggregationMode := r.aggregationMode)
    ensures r.aggregationMode == Smpc <==> SpellsSmpc(mode)
    ensures r.aggregationMode == Plain <==> !SpellsSmpc(mode)
  {
    UpperSpellsSmpc(mode);
    s.(aggregationMode := if ToAsciiUpper(mode) == "SMPC" then Smpc else Plain)
  }

  /** `get_aggregation_mode` */
  function GetAggregationMode(s: State): (r: string)
    ensures r == "PLAIN" || r == "SMPC"
    ensures r == "SMPC" <==> s.aggregationMode == Smpc
  {
    match s.aggregationMode
    case Plain => "PLAIN"
    case Smpc => "SMPC"
  }

  /** A case-variant spelling of "SMPC", letter by letter. */
  predicate SpellsSmpc(mode: string) {
    && |mode| == 4
    && (mode[0] == 'S' || mode[0] == 's')
    && (mode[1] == 'M' || mode[1] == 'm')
    && (mode[2] == 'P' || mode[2] == 'p')
    && (mode[3] == 'C' || mode[3] == 'c')
  }

  /** Upper-casing gives "SMPC" exactly for the letter-by-letter case variants of "SMPC". */
  lemma UpperSpellsSmpc(mode: string)
    ensures ToAsciiUpper(mode) == "SMPC" <==> SpellsSmpc(mode)
  {
    var up := ToAsciiUpper(mode);
    if SpellsSmpc(mode) {
      assert up == "SMPC";
    }
    if up == "SMPC" {
      assert up[0] == 'S' && up[1] == 'M' && up[2] == 'P' && up[3] == 'C';
    }
  }

  /** Writing back the mode just read changes nothing. */
  lemma GetSetIdempotent(s: State)
    ensures SetAggregationMode(s, GetAggregationMode(s)) == s
  {
    if s.aggregationMode == Smpc {
      assert ToAsciiUpper("SMPC") == "SMPC";
    } else {
      assert ToAsciiUpper("PLAIN") == "PLAIN";
    }
  }
}
