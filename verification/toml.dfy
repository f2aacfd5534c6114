/**
  The reader that `record_checksums` must keep loadable: `load_manifest` of `backend/eval/corpus.py`
  over the fragment of TOML the manifest is written in.  One key a line, `key = value`; a `why`
  string opened by a triple quote and closed by one on a line of its own; comments and blank lines
  between; a key given twice in one table is an error ("Keys", TOML v1.0.0).  A backslash, or a
  triple quote anywhere else, is outside the fragment and refused.
 */
module Toml {
  import opened Options
  import opened Seqs
  import opened Manifest

  const HEADER: Line := "[[document]]"

  // ----- Numbers -----

  function DigitValue(c: char): nat {
    if '0' <= c <= '9' then (c - '0') as nat else 0
  }

  function ParseDecimal(s: string): nat {
    if s == [] then 0 else 10 * ParseDecimal(s[..|s| - 1]) + DigitValue(s[|s| - 1])
  }

  lemma DigitRoundTrip(d: nat)
    requires d < 10
    ensures DigitValue(Digit(d)) == d
  {}

  lemma {:induction false} DecimalRoundTrip(n: nat)
    ensures ParseDecimal(Decimal(n)) == n
  {
    DigitRoundTrip(n % 10);
    if n < 10 {
      assert Decimal(n)[..0] == [];
    } else {
      DecimalRoundTrip(n / 10);
      assert Decimal(n)[..|Decimal(n)| - 1] == Decimal(n / 10);
    }
  }

  function Quoted(s: string): string { "\"" + s + "\"" }

  function Unquote(s: string): string {
    if |s| >= 2 then s[1..|s| - 1] else s
  }

  // ----- Reading -----

  datatype Table = Table(keys: map<string, string>, why: seq<Line>)

  const EMPTY: Table := Table(map[], [])

  datatype Reader = Broken | Reading(done: seq<Table>, cur: Table, inText: bool)

  function SplitKey(line: Line): Option<(string, string)> {
    if |line| < 3 then None
    else if line[..3] == " = " then Some(([], line[3..]))
    else var rest := SplitKey(line[1..]);
         if rest.None? then None else Some(([line[0]] + rest.value.0, rest.value.1))
  }

  /** A basic string on one line, with nothing in it that TOML would unescape. */
  predicate IsString(value: string) {
    |value| >= 2 && value[0] == '"' && value[|value| - 1] == '"' && Clean(value[1..|value| - 1])
  }

  predicate Clean(s: string) { '"' !in s && '\\' !in s }

  predicate PlainValue(value: string) {
    value != [] && '\\' !in value && (value[0] == '"' ==> IsString(value))
  }

  predicate HasTriple(line: Line) {
    |line| >= 3 && (line[..3] == DELIMITER || HasTriple(line[1..]))
  }

  predicate TextLine(line: Line) { !HasTriple(line) && '\\' !in line }

  function AddKey(st: Reader, key: string, value: string): Reader
    requires st.Reading?
  {
    if key in st.cur.keys then Broken
    else if value == DELIMITER then
      if key == "why" then Reading(st.done, Table(st.cur.keys[key := value], st.cur.why), true) else Broken
    else if !PlainValue(value) then Broken
    else
      var why := if key == "why" then [Unquote(value)] else st.cur.why;
      Reading(st.done, Table(st.cur.keys[key := value], why), false)
  }

  function ReadLine(st: Reader, line: Line): Reader {
    if st.Broken? then Broken
    else if st.inText then
      if line == DELIMITER then st.(inText := false)
      else if TextLine(line) then st.(cur := st.cur.(why := st.cur.why + [line]))
      else Broken
    else if line == [] || line[0] == '#' then st
    else if line == HEADER then Reading(st.done + [st.cur], EMPTY, false)
    else
      var split := SplitKey(line);
      if split.None? then Broken else AddKey(st, split.value.0, split.value.1)
  }

  function Read(): (Reader, Line) -> Reader {
    (st: Reader, line: Line) => ReadLine(st, line)
  }

  /** A document as loaded; what `url`, `category` and `difficulty` hold stays in its TOML form. */
  datatype Document = Document(id: string, url: string, category: string, difficulty: string, why: seq<Line>,
                               sha256: Option<string>, pages: Option<nat>, bytes: Option<nat>)

  datatype Loaded = Ok(documents: seq<Document>) | NoDocuments | Refused | MissingKey

  const REQUIRED: set<string> := {"id", "url", "category", "difficulty", "why"}

  function ToDocument(t: Table): Document
    requires REQUIRED <= t.keys.Keys
  {
    Document(Unquote(t.keys["id"]), t.keys["url"], t.keys["category"], t.keys["difficulty"], t.why,
      if "sha256" in t.keys then Some(Unquote(t.keys["sha256"])) else None,
      if "pages" in t.keys then Some(ParseDecimal(t.keys["pages"])) else None,
      if "bytes" in t.keys then Some(ParseDecimal(t.keys["bytes"])) else None)
  }

  function ToDocuments(ts: seq<Table>): Loaded {
    if ts == [] then Ok([])
    else if !(REQUIRED <= ts[0].keys.Keys) then MissingKey
    else var rest := ToDocuments(ts[1..]); if rest.Ok? then Ok([ToDocument(ts[0])] + rest.documents) else rest
  }

  const FRESH: Reader := Reading([], EMPTY, false)

  function Finish(end: Reader): Loaded {
    if end.Broken? || end.inText then Refused
    else if end.done == [] then NoDocuments
    else ToDocuments(end.done[1..] + [end.cur])
  }

  /** `load_manifest`: every `[[document]]` table in order; none at all is an error. */
  function Load(lines: seq<Line>): Loaded {
    Finish(RunEnd(Read(), lines, FRESH))
  }
}
