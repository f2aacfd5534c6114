/**
  The manifest rewriter `record_checksums` of `backend/eval/__main__.py`: a line-by-line state
  machine that writes checksums into a TOML file without re-serialising it.  A manifest is the
  sequence of its lines.
 */
module Manifest {
  import opened Options
  import opened Seqs
  import opened Strings

  type Line = string

  /** What one fetch found out about a document. */
  datatype Facts = Facts(digest: string, pages: nat, bytes: nat)

  type Updates = map<string, Facts>

  const DELIMITER: Line := "\"\"\""
  const ID_PREFIX: string := "id = "

  // ----- Reading a line -----

  predicate StartsWith(line: Line, prefix: string) {
    |prefix| <= |line| && line[..|prefix|] == prefix
  }

  /** A line begins with a prefix when something, or nothing, follows it. */
  lemma StartsWithMeans(line: Line, prefix: string)
    ensures StartsWith(line, prefix) <==> exists rest :: line == prefix + rest
  {
    if StartsWith(line, prefix) { assert line == prefix + line[|prefix|..]; }
  }

  predicate IsId(line: Line) {
    StartsWith(line, ID_PREFIX)
  }

  predicate IsRecorded(line: Line) {
    StartsWith(line, "sha256 = ") || StartsWith(line, "pages = ") || StartsWith(line, "bytes = ")
  }

  /** `line.split("=", 1)[1].strip().strip('"')`; the first `=` of an id line ends its prefix. */
  function IdOf(line: Line): string
    requires IsId(line)
  {
    Strip(Strip(line[4..], IsSpace), IsQuote)
  }

  // ----- Decimal numbers -----

  function Digit(d: nat): char
    requires d < 10
  {
    "0123456789"[d]
  }

  function Decimal(n: nat): string {
    if n < 10 then [Digit(n)] else Decimal(n / 10) + [Digit(n % 10)]
  }

  // ----- The rewriter -----

  function ShaLine(f: Facts): Line { "sha256 = \"" + f.digest + "\"" }
  function PagesLine(f: Facts): Line { "pages = " + Decimal(f.pages) }
  function BytesLine(f: Facts): Line { "bytes = " + Decimal(f.bytes) }
  function FactLines(f: Facts): seq<Line> { [ShaLine(f), PagesLine(f), BytesLine(f)] }

  lemma FactLinesAreFacts(f: Facts)
    ensures StartsWith(ShaLine(f), "sha256 = ")
    ensures StartsWith(PagesLine(f), "pages = ") && StartsWith(BytesLine(f), "bytes = ")
    ensures forall l :: l in FactLines(f) ==> IsRecorded(l) && !IsId(l) && l != DELIMITER
  {
    assert ShaLine(f)[0] == 's' && PagesLine(f)[0] == 'p' && BytesLine(f)[0] == 'b';
    assert ShaLine(f)[..9] == "sha256 = ";
    assert PagesLine(f)[..8] == "pages = ";
    assert BytesLine(f)[..8] == "bytes = ";
  }

  /** Where the machine stands: the id last seen, and whether its facts have gone out. */
  datatype State = State(id: Option<string>, written: bool)

  const START: State := State(None, false)

  predicate Updating(u: Updates, id: Option<string>) {
    id.Some? && id.value in u
  }

  function Enter(st: State, line: Line): State {
    if IsId(line) then State(Some(IdOf(line)), false) else st
  }

  function Step(u: Updates, st: State, line: Line): State {
    var now := Enter(st, line);
    State(now.id, now.written || (line == DELIMITER && Updating(u, now.id)))
  }

  /** What one line is replaced by. */
  function Emit(u: Updates, st: State, line: Line): seq<Line> {
    var now := Enter(st, line);
    if Updating(u, now.id) && IsRecorded(line) then []
    else if line == DELIMITER && Updating(u, now.id) && !now.written then [line] + FactLines(u[now.id.value])
    else [line]
  }

  function Emitter(u: Updates): (State, Line) -> seq<Line> { (st: State, line: Line) => Emit(u, st, line) }
  function Stepper(u: Updates): (State, Line) -> State { (st: State, line: Line) => Step(u, st, line) }

  function Record(u: Updates, lines: seq<Line>, st: State): seq<Line> {
    Run(Emitter(u), Stepper(u), lines, st)
  }

  function Final(u: Updates, lines: seq<Line>, st: State): State {
    RunEnd(Stepper(u), lines, st)
  }

  function RecordAll(u: Updates, lines: seq<Line>): seq<Line> {
    Record(u, lines, START)
  }

  /** One turn of the loop. */
  method RecordLine(u: Updates, line: Line, st: State) returns (out: seq<Line>, next: State)
    ensures out == Emit(u, st, line) && next == Step(u, st, line)
  {
    var current, written := st.id, st.written;
    if StartsWith(line, ID_PREFIX) {
      current := Some(IdOf(line));
      written := false;
    }
    if Updating(u, current) && IsRecorded(line) {
      NotTwo(line);
      return [], State(current, written);
    }
    if line == DELIMITER && Updating(u, current) && !written {
      return [line] + FactLines(u[current.value]), State(current, true);
    }
    return [line], State(current, written);
  }

  lemma NextLine(u: Updates, lines: seq<Line>, i: nat, st: State)
    requires i < |lines|
    ensures Record(u, lines[i..], st) == Emit(u, st, lines[i]) + Record(u, lines[i + 1..], Step(u, st, lines[i]))
  {
    assert lines[i..] == [lines[i]] + lines[i + 1..];
    RunCons(Emitter(u), Stepper(u), lines[i], lines[i + 1..], st);
  }

  /** The loop of `record_checksums`. */
  method RecordChecksums(u: Updates, lines: seq<Line>) returns (output: seq<Line>)
    ensures output == RecordAll(u, lines)
  {
    output := [];
    var st := START;
    assert lines[0..] == lines;
    for i := 0 to |lines|
      invariant output + Record(u, lines[i..], st) == RecordAll(u, lines)
    {
      NextLine(u, lines, i, st);
      var out, next := RecordLine(u, lines[i], st);
      output, st := output + out, next;
    }
  }

  /** A recorded line is neither an id line nor a delimiter. */
  lemma NotTwo(line: Line)
    requires IsRecorded(line)
    ensures !IsId(line) && line != DELIMITER
  {
    assert line[0] == 's' || line[0] == 'p' || line[0] == 'b';
  }

  // ----- Last write wins -----

  /** A fact leaves the machine where it was, and goes when its document is updated. */
  lemma OneFact(v: Updates, line: Line, rest: seq<Line>, st: State)
    requires IsRecorded(line)
    ensures Record(v, [line] + rest, st) == (if Updating(v, st.id) then [] else [line]) + Record(v, rest, st)
    ensures Final(v, [line] + rest, st) == Final(v, rest, st)
  {
    NotTwo(line);
    RunCons(Emitter(v), Stepper(v), line, rest, st);
  }

  lemma PassOverFacts(v: Updates, f: Facts, st: State)
    ensures Record(v, FactLines(f), st) == if Updating(v, st.id) then [] else FactLines(f)
    ensures Final(v, FactLines(f), st) == st
  {
    FactLinesAreFacts(f);
    var a, b, c := ShaLine(f), PagesLine(f), BytesLine(f);
    assert FactLines(f) == [a] + ([b] + ([c] + []));
    OneFact(v, a, [b] + ([c] + []), st);
    OneFact(v, b, [c] + [], st);
    OneFact(v, c, [], st);
  }

  /** The three machines agree: same id, and the flag the same wherever it can matter. */
  ghost predicate Agree(u: Updates, v: Updates, first: State, second: State, both: State) {
    && first.id == second.id == both.id
    && (Updating(u, both.id) ==> first.written == both.written)
    && (Updating(v, both.id) ==> second.written == both.written)
  }

  lemma LineTwice(u: Updates, v: Updates, line: Line, first: State, second: State, both: State)
    requires Agree(u, v, first, second, both)
    ensures Record(v, Emit(u, first, line), second) == Emit(u + v, both, line)
    ensures Agree(u, v, Step(u, first, line), Final(v, Emit(u, first, line), second), Step(u + v, both, line))
  {
    var now := Enter(first, line);
    RunCons(Emitter(v), Stepper(v), line, [], second);
    if Updating(u, now.id) && IsRecorded(line) {
      NotTwo(line);
    } else if line == DELIMITER && Updating(u, now.id) && !now.written {
      RunConcat(Emitter(v), Stepper(v), [line], FactLines(u[now.id.value]), second);
      PassOverFacts(v, u[now.id.value], Step(v, second, line));
    }
  }

  lemma {:induction false} RecordTwice(u: Updates, v: Updates, lines: seq<Line>, first: State, second: State,
      both: State)
    requires Agree(u, v, first, second, both)
    ensures Record(v, Record(u, lines, first), second) == Record(u + v, lines, both)
  {
    if lines != [] {
      var line, rest := lines[0], lines[1..];
      LineTwice(u, v, line, first, second, both);
      RunConcat(Emitter(v), Stepper(v), Emit(u, first, line), Record(u, rest, Step(u, first, line)), second);
      RecordTwice(u, v, rest, Step(u, first, line), Final(v, Emit(u, first, line), second), Step(u + v, both, line));
    }
  }

  /** Two passes are one pass with the later facts winning, on any sequence of lines. */
  lemma LastWriteWins(u: Updates, v: Updates, lines: seq<Line>)
    ensures RecordAll(v, RecordAll(u, lines)) == RecordAll(u + v, lines)
  {
    RecordTwice(u, v, lines, START, START, START);
  }

  /** Recording twice is recording once, and disjoint updates commute and combine. */
  lemma IdempotentAndCommuting(u: Updates, v: Updates, lines: seq<Line>)
    ensures RecordAll(u, RecordAll(u, lines)) == RecordAll(u, lines)
    ensures u.Keys !! v.Keys ==>
              RecordAll(v, RecordAll(u, lines)) == RecordAll(u, RecordAll(v, lines)) == RecordAll(u + v, lines)
  {
    LastWriteWins(u, u, lines);
    assert u + u == u;
    LastWriteWins(u, v, lines);
    LastWriteWins(v, u, lines);
    if u.Keys !! v.Keys { assert u + v == v + u; }
  }

  // ----- What a pass leaves alone -----

  datatype Tagged = Tagged(id: Option<string>, line: Line)

  function NextId(id: Option<string>, line: Line): Option<string> {
    if IsId(line) then Some(IdOf(line)) else id
  }

  function Tagger(): (Option<string>, Line) -> seq<Tagged> {
    (id: Option<string>, line: Line) => [Tagged(NextId(id, line), line)]
  }

  function Follow(): (Option<string>, Line) -> Option<string> {
    (id: Option<string>, line: Line) => NextId(id, line)
  }

  /** Every line with the id in force on it. */
  function Tag(lines: seq<Line>, id: Option<string>): seq<Tagged> {
    Run(Tagger(), Follow(), lines, id)
  }

  /** A line no pass with these updates may touch: of a document not updated, or not a fact. */
  function Foreign(u: Updates): Tagged -> bool {
    (t: Tagged) => !(Updating(u, t.id) && IsRecorded(t.line))
  }

  lemma {:induction false} TagPlain(lines: seq<Line>, id: Option<string>)
    requires forall l :: l in lines ==> !IsId(l)
    ensures RunEnd(Follow(), lines, id) == id
    ensures forall t :: t in Tag(lines, id) ==> t.id == id && t.line in lines
  {
    if lines != [] { TagPlain(lines[1..], id); }
  }

  lemma LineKeepsForeign(u: Updates, line: Line, st: State)
    ensures Filter(Tag(Emit(u, st, line), st.id), Foreign(u)) == Filter([Tagged(NextId(st.id, line), line)], Foreign(u))
    ensures RunEnd(Follow(), Emit(u, st, line), st.id) == NextId(st.id, line)
  {
    var id := NextId(st.id, line);
    RunCons(Tagger(), Follow(), line, [], st.id);
    if Updating(u, id) && IsRecorded(line) {
      NotTwo(line);
    } else if Emit(u, st, line) != [line] {
      var facts := FactLines(u[id.value]);
      RunConcat(Tagger(), Follow(), [line], facts, st.id);
      FactLinesAreFacts(u[id.value]);
      TagPlain(facts, id);
      FilterNone(Tag(facts, id), Foreign(u));
      FilterConcat([Tagged(id, line)], Tag(facts, id), Foreign(u));
    }
  }

  /** Only facts of updated documents change.  Every other line, whatever its section, comes out
      as it went in, in order and under the same id. */
  lemma {:induction false} OnlyFactsChange(u: Updates, lines: seq<Line>, st: State)
    ensures Filter(Tag(Record(u, lines, st), st.id), Foreign(u)) == Filter(Tag(lines, st.id), Foreign(u))
  {
    if lines != [] {
      var line, rest, next := lines[0], lines[1..], Step(u, st, lines[0]);
      OnlyFactsChange(u, rest, next);
      LineKeepsForeign(u, line, st);
      var out := Record(u, rest, next);
      RunConcat(Tagger(), Follow(), Emit(u, st, line), out, st.id);
      FilterConcat(Tag(Emit(u, st, line), st.id), Tag(out, next.id), Foreign(u));
      FilterConcat([Tagged(next.id, line)], Tag(rest, next.id), Foreign(u));
    }
  }

  // ----- One section -----

  function AfterFirst(lines: seq<Line>, facts: seq<Line>): seq<Line> {
    if lines == [] then []
    else if lines[0] == DELIMITER then [lines[0]] + (facts + lines[1..])
    else [lines[0]] + AfterFirst(lines[1..], facts)
  }

  function NotRecorded(): Line -> bool {
    (l: Line) => !IsRecorded(l)
  }

  /** What a pass should do to the lines after an id line: drop the old facts, put the new ones
      after the first closing delimiter. */
  function Rewritten(f: Facts, body: seq<Line>): seq<Line> {
    AfterFirst(Filter(body, NotRecorded()), FactLines(f))
  }

  ghost predicate NoId(lines: seq<Line>) {
    forall i :: 0 <= i < |lines| ==> !IsId(lines[i])
  }

  lemma {:induction false} BodyRewritten(u: Updates, body: seq<Line>, id: string, written: bool)
    requires id in u && NoId(body)
    ensures Record(u, body, State(Some(id), written))
         == if written then Filter(body, NotRecorded()) else Rewritten(u[id], body)
  {
    if body != [] {
      var line, kept := body[0], Filter(body[1..], NotRecorded());
      assert ([line] + kept)[1..] == kept;
      BodyRewritten(u, body[1..], id, written || line == DELIMITER);
      if IsRecorded(line) { NotTwo(line); }
    }
  }

  lemma {:induction false} BodyUntouched(u: Updates, body: seq<Line>, st: State)
    requires !Updating(u, st.id) && NoId(body)
    ensures Record(u, body, st) == body
  {
    if body != [] { BodyUntouched(u, body[1..], st); }
  }

  datatype Section = Section(idLine: Line, body: seq<Line>)

  function SectionLines(sections: seq<Section>): seq<Line> {
    if sections == [] then [] else [sections[0].idLine] + (sections[0].body + SectionLines(sections[1..]))
  }

  ghost predicate Sectioned(sections: seq<Section>) {
    forall i :: 0 <= i < |sections| ==> IsId(sections[i].idLine) && NoId(sections[i].body)
  }

  function Apply(u: Updates, s: Section): Section
    requires IsId(s.idLine)
  {
    if IdOf(s.idLine) in u then s.(body := Rewritten(u[IdOf(s.idLine)], s.body)) else s
  }

  function ApplyAll(u: Updates, sections: seq<Section>): seq<Section>
    requires Sectioned(sections)
  {
    if sections == [] then [] else [Apply(u, sections[0])] + ApplyAll(u, sections[1..])
  }

  lemma {:induction false} SectionsRewritten(u: Updates, sections: seq<Section>, st: State)
    requires Sectioned(sections)
    ensures Record(u, SectionLines(sections), st) == SectionLines(ApplyAll(u, sections))
  {
    if sections != [] {
      var s, rest := sections[0], SectionLines(sections[1..]);
      var id := IdOf(s.idLine);
      if IsRecorded(s.idLine) { NotTwo(s.idLine); }
      assert s.idLine[0] == 'i';
      RunCons(Emitter(u), Stepper(u), s.idLine, s.body + rest, st);
      var inside := State(Some(id), false);
      RunConcat(Emitter(u), Stepper(u), s.body, rest, inside);
      if id in u { BodyRewritten(u, s.body, id, false); } else { BodyUntouched(u, s.body, inside); }
      SectionsRewritten(u, sections[1..], Final(u, s.body, inside));
    }
  }

  /** The state machine is, section by section, the simple rewriting: the lines before the first id
      and the sections of documents not updated come out untouched. */
  lemma RecordIsSectionwise(u: Updates, preamble: seq<Line>, sections: seq<Section>)
    requires NoId(preamble) && Sectioned(sections)
    ensures RecordAll(u, preamble + SectionLines(sections)) == preamble + SectionLines(ApplyAll(u, sections))
  {
    RunConcat(Emitter(u), Stepper(u), preamble, SectionLines(sections), START);
    BodyUntouched(u, preamble, START);
    SectionsRewritten(u, sections, Final(u, preamble, START));
  }

  predicate IsFactPrefix(prefix: string) {
    prefix == "sha256 = " || prefix == "pages = " || prefix == "bytes = "
  }

  function CountPrefix(lines: seq<Line>, prefix: string): nat {
    if lines == [] then 0 else (if StartsWith(lines[0], prefix) then 1 else 0) + CountPrefix(lines[1..], prefix)
  }

  lemma {:induction false} CountPrefixConcat(a: seq<Line>, b: seq<Line>, prefix: string)
    ensures CountPrefix(a + b, prefix) == CountPrefix(a, prefix) + CountPrefix(b, prefix)
  {
    if a == [] {
      assert a + b == b;
    } else {
      CountPrefixConcat(a[1..], b, prefix);
      assert (a + b)[1..] == a[1..] + b;
    }
  }

  lemma {:induction false} NoPrefixKept(body: seq<Line>, prefix: string)
    requires IsFactPrefix(prefix)
    ensures CountPrefix(Filter(body, NotRecorded()), prefix) == 0
  {
    if body != [] {
      NoPrefixKept(body[1..], prefix);
      var kept := Filter(body[1..], NotRecorded());
      assert ([body[0]] + kept)[1..] == kept;
    }
  }

  lemma SameFirst(line: Line, prefix: string)
    requires prefix != [] && StartsWith(line, prefix)
    ensures line != [] && line[0] == prefix[0]
  {
    assert line[..|prefix|][0] == line[0];
  }

  lemma CountOne(line: Line, prefix: string)
    requires prefix != [] && line != []
    ensures line[0] != prefix[0] ==> CountPrefix([line], prefix) == 0
    ensures StartsWith(line, prefix) ==> CountPrefix([line], prefix) == 1
  {
    assert [line][1..] == [];
    if StartsWith(line, prefix) { SameFirst(line, prefix); }
  }

  lemma FactCounts(f: Facts, prefix: string)
    requires IsFactPrefix(prefix)
    ensures CountPrefix(FactLines(f), prefix) == 1
  {
    FactLinesAreFacts(f);
    var a, b, c := ShaLine(f), PagesLine(f), BytesLine(f);
    assert FactLines(f) == [a] + ([b] + [c]);
    CountPrefixConcat([a], [b] + [c], prefix);
    CountPrefixConcat([b], [c], prefix);
    assert a[0] == 's' && b[0] == 'p' && c[0] == 'b';
    CountOne(a, prefix);
    CountOne(b, prefix);
    CountOne(c, prefix);
  }

  lemma {:induction false} AfterFirstCounts(lines: seq<Line>, facts: seq<Line>, prefix: string)
    requires !StartsWith(DELIMITER, prefix)
    ensures CountPrefix(AfterFirst(lines, facts), prefix)
         == CountPrefix(lines, prefix) + (if DELIMITER in lines then CountPrefix(facts, prefix) else 0)
  {
    if lines != [] {
      var line, rest := lines[0], lines[1..];
      assert lines == [line] + rest;
      if line == DELIMITER {
        CountPrefixConcat(facts, rest, prefix);
        assert ([line] + (facts + rest))[1..] == facts + rest;
      } else {
        AfterFirstCounts(rest, facts, prefix);
        assert ([line] + AfterFirst(rest, facts))[1..] == AfterFirst(rest, facts);
      }
    }
  }

  /** An updated section ends up with each fact exactly once if it has a closing delimiter on a
      line of its own, and with none of them, old ones included, if it has not. */
  lemma EachFactOnce(f: Facts, body: seq<Line>, prefix: string)
    requires prefix == "sha256 = " || prefix == "pages = " || prefix == "bytes = "
    ensures CountPrefix(Rewritten(f, body), prefix) == if DELIMITER in body then 1 else 0
  {
    NoPrefixKept(body, prefix);
    if StartsWith(DELIMITER, prefix) { SameFirst(DELIMITER, prefix); }
    AfterFirstCounts(Filter(body, NotRecorded()), FactLines(f), prefix);
    FactCounts(f, prefix);
    FilterKeeps(body, NotRecorded(), DELIMITER);
    if IsRecorded(DELIMITER) { NotTwo(DELIMITER); }
  }

  lemma {:induction false} AfterFirstIs(before: seq<Line>, after: seq<Line>, facts: seq<Line>)
    requires DELIMITER !in before
    ensures AfterFirst(before + ([DELIMITER] + after), facts) == before + ([DELIMITER] + (facts + after))
  {
    var lines := before + ([DELIMITER] + after);
    if before == [] {
      assert lines[1..] == after;
    } else {
      AfterFirstIs(before[1..], after, facts);
      assert lines[1..] == before[1..] + ([DELIMITER] + after);
      assert before == [before[0]] + before[1..];
    }
  }

  /** The new facts stand right behind the first closing delimiter, the digest quoted, then the pages,
      then the bytes; before and behind them are the section's other lines. */
  lemma FactsFollowWhy(u: Updates, id: string, before: seq<Line>, after: seq<Line>)
    requires id in u && NoId(before) && NoId(after) && DELIMITER !in before
    ensures Record(u, before + (["\"\"\""] + after), State(Some(id), false))
         == Filter(before, NotRecorded())
            + (["\"\"\""]
               + (["sha256 = \"" + u[id].digest + "\"",
                   "pages = " + Decimal(u[id].pages),
                   "bytes = " + Decimal(u[id].bytes)]
                  + Filter(after, NotRecorded())))
  {
    var kept, rest := Filter(before, NotRecorded()), Filter(after, NotRecorded());
    BodyRewritten(u, before + ([DELIMITER] + after), id, false);
    FilterConcat(before, [DELIMITER] + after, NotRecorded());
    FilterCons(DELIMITER, after, NotRecorded());
    if IsRecorded(DELIMITER) { NotTwo(DELIMITER); }
    FilterKeeps(before, NotRecorded(), DELIMITER);
    AfterFirstIs(kept, rest, FactLines(u[id]));
  }

  const INLINE_WHY: Line := "why = \"short\""
  const OLD_PAGES: Line := "pages = 3"

  lemma InlineLines()
    ensures !IsId(INLINE_WHY) && !IsRecorded(INLINE_WHY) && INLINE_WHY != DELIMITER && IsRecorded(OLD_PAGES)
  {
    assert INLINE_WHY[0] == 'w' && DELIMITER[0] == '"';
    assert OLD_PAGES[..8] == "pages = ";
  }

  /** A section whose `why` is on one line: recording it drops the page count it had and writes none. */
  lemma InlineWhyLosesFacts(id: string, f: Facts)
    ensures Record(map[id := f], [INLINE_WHY] + [OLD_PAGES], State(Some(id), false)) == [INLINE_WHY]
  {
    var u, st := map[id := f], State(Some(id), false);
    InlineLines();
    RunCons(Emitter(u), Stepper(u), INLINE_WHY, [OLD_PAGES], st);
    RunCons(Emitter(u), Stepper(u), OLD_PAGES, [], st);
    NotTwo(OLD_PAGES);
  }
}
