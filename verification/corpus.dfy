/**
  A well-formed manifest, what `record_checksums` of `backend/eval/__main__.py` makes of it, and what
  `load_manifest` of `backend/eval/corpus.py` then reads.
 */
module Corpus {
  import opened Options
  import opened Seqs
  import opened Strings
  import opened Manifest
  import opened Toml

  // ----- A well-formed manifest -----

  /** The reason a document is in the set: prose between delimiters on lines of their own, or one
      string on the line of its key. */
  datatype Why = Block(text: seq<Line>) | Inline(value: string)

  datatype Entry = Entry(id: string, fields: seq<(string, string)>, why: Why, facts: Option<Facts>, tail: seq<Line>)

  function FieldLine(field: (string, string)): Line { field.0 + " = " + field.1 }

  function FieldLines(fields: seq<(string, string)>): seq<Line> {
    seq(|fields|, i requires 0 <= i < |fields| => FieldLine(fields[i]))
  }

  function OldFacts(e: Entry): seq<Line> {
    if e.facts.None? then [] else FactLines(e.facts.value)
  }

  const OPEN_WHY: Line := "why = \"\"\""

  function IdLine(id: string): Line { "id = " + Quoted(id) }

  function InlineWhy(value: string): Line { "why = " + Quoted(value) }

  function Prose(e: Entry): seq<Line> {
    FieldLines(e.fields) + if e.why.Block? then [OPEN_WHY] + e.why.text else [InlineWhy(e.why.value)]
  }

  function EntryBody(e: Entry): seq<Line> {
    Prose(e) + ((if e.why.Block? then [DELIMITER] else []) + (OldFacts(e) + e.tail))
  }

  function EntryLines(e: Entry): seq<Line> {
    [HEADER] + ([IdLine(e.id)] + EntryBody(e))
  }

  function Render(entries: seq<Entry>): seq<Line> {
    if entries == [] then [] else EntryLines(entries[0]) + Render(entries[1..])
  }

  predicate NoSpace(key: string) { ' ' !in key }

  predicate Idle(line: Line) { line == [] || line[0] == '#' }

  predicate PlainText(line: Line) { line != DELIMITER && !IsId(line) && !IsRecorded(line) }

  const RESERVED: set<string> := {"id", "why", "sha256", "pages", "bytes"}

  predicate PlainKey(key: string) {
    key != [] && NoSpace(key) && key[0] != '#' && key[0] != '['
  }

  /** A key on one line: any but `why`. */
  predicate OneLine(field: (string, string)) {
    PlainKey(field.0) && field.0 != "why" && PlainValue(field.1) && field.1 != DELIMITER
  }

  predicate ValidField(field: (string, string)) {
    OneLine(field) && field.0 !in RESERVED
  }

  ghost predicate DistinctKeys(fields: seq<(string, string)>) {
    forall i, j :: 0 <= i < j < |fields| ==> fields[i].0 != fields[j].0
  }

  ghost predicate ValidFields(fields: seq<(string, string)>) {
    DistinctKeys(fields) && forall i :: 0 <= i < |fields| ==> ValidField(fields[i])
  }

  ghost predicate HasKey(fields: seq<(string, string)>, key: string) {
    exists i :: 0 <= i < |fields| && fields[i].0 == key
  }

  ghost predicate ValidWhy(why: Why) {
    match why
    case Block(text) => forall i :: 0 <= i < |text| ==> TextLine(text[i])
    case Inline(value) => Clean(value)
  }

  /** What the rewriter reads entry by entry: nothing but the id line looks like an id, and no fact or
      delimiter stands where none belongs.  The prose may look like anything but a delimiter. */
  ghost predicate Recordable(e: Entry) {
    && '"' !in e.id
    && (forall i :: 0 <= i < |e.fields| ==> PlainText(FieldLine(e.fields[i])))
    && (e.why.Block? ==> DELIMITER !in e.why.text)
    && (forall i :: 0 <= i < |e.tail| ==> PlainText(e.tail[i]))
  }

  /** What a well-formed entry is: clean strings, distinct keys of its own, and prose without a triple
      quote or a backslash.  The prose may look like anything else. */
  ghost predicate ValidEntry(e: Entry) {
    && Clean(e.id)
    && (e.facts.Some? ==> Clean(e.facts.value.digest))
    && ValidFields(e.fields)
    && ValidWhy(e.why)
    && (forall i :: 0 <= i < |e.tail| ==> Idle(e.tail[i]))
  }

  ghost predicate ValidManifest(preamble: seq<Line>, entries: seq<Entry>) {
    && (forall i :: 0 <= i < |preamble| ==> Idle(preamble[i]))
    && (forall i :: 0 <= i < |entries| ==> ValidEntry(entries[i]))
  }

  // ----- Recording a well-formed manifest -----

  lemma {:induction false} SplitAt(key: string, tail: string)
    requires NoSpace(key) && |tail| >= 3 && tail[..3] == " = "
    ensures SplitKey(key + tail) == Some((key, tail[3..]))
  {
    var line := key + tail;
    if key == [] {
      assert line == tail;
    } else {
      SplitAt(key[1..], tail);
      assert line[1..] == key[1..] + tail;
      assert line[..3][0] == key[0];
      assert [key[0]] + key[1..] == key;
    }
  }

  lemma SplitKeyOf(key: string, value: string)
    requires NoSpace(key)
    ensures SplitKey(key + " = " + value) == Some((key, value))
  {
    var tail := " = " + value;
    assert key + " = " + value == key + tail;
    assert tail[..3] == " = " && tail[3..] == value;
    SplitAt(key, tail);
  }

  /** A `key = value` line opens with the `=` of a given key only if that is its key. */
  lemma KeyDecides(key: string, value: string, other: string)
    requires NoSpace(key) && NoSpace(other) && StartsWith(key + " = " + value, other + " = ")
    ensures key == other
  {
    var line := key + " = " + value;
    SplitKeyOf(key, value);
    SplitKeyOf(other, line[|other| + 3..]);
    assert line == other + " = " + line[|other| + 3..];
  }

  lemma FieldIsPlain(field: (string, string))
    requires ValidField(field)
    ensures PlainText(FieldLine(field)) && !Idle(FieldLine(field)) && FieldLine(field) != HEADER
  {
    var line := FieldLine(field);
    assert line[0] == field.0[0] && ' ' in line;
    if IsId(line) { KeyDecides(field.0, field.1, "id"); }
    if StartsWith(line, "sha256 = ") { KeyDecides(field.0, field.1, "sha256"); }
    if StartsWith(line, "pages = ") { KeyDecides(field.0, field.1, "pages"); }
    if StartsWith(line, "bytes = ") { KeyDecides(field.0, field.1, "bytes"); }
  }

  lemma IdleIsPlain(line: Line)
    requires Idle(line)
    ensures PlainText(line)
  {
    if line != [] { assert line[0] == '#'; }
  }

  lemma TripleIsTriple()
    ensures HasTriple(DELIMITER)
  {
    assert DELIMITER[..3] == DELIMITER;
  }

  lemma ValidIsRecordable(e: Entry)
    requires ValidEntry(e)
    ensures Recordable(e)
  {
    TripleIsTriple();
    forall i | 0 <= i < |e.fields| ensures PlainText(FieldLine(e.fields[i])) { FieldIsPlain(e.fields[i]); }
    forall i | 0 <= i < |e.tail| ensures PlainText(e.tail[i]) { IdleIsPlain(e.tail[i]); }
  }

  /** What is left of some prose: its lines but for facts that stand under an updated id. */
  function Kept(u: Updates, text: seq<Line>, id: Option<string>): seq<Line> {
    LinesOf(Filter(Tag(text, id), Foreign(u)))
  }

  function LinesOf(tagged: seq<Tagged>): seq<Line> {
    if tagged == [] then [] else [tagged[0].line] + LinesOf(tagged[1..])
  }

  /** The id in force at the end of some prose. */
  function LastId(text: seq<Line>, id: Option<string>): Option<string> {
    RunEnd(Follow(), text, id)
  }

  function FactsFor(u: Updates, id: Option<string>, before: Option<Facts>): Option<Facts> {
    if Updating(u, id) then Some(u[id.value]) else before
  }

  /** What recording makes of an entry, whatever its prose looks like: without a delimiter the facts go
      and none come. */
  function Update(u: Updates, e: Entry): Entry {
    match e.why
    case Block(text) =>
      e.(why := Block(Kept(u, text, Some(e.id))), facts := FactsFor(u, LastId(text, Some(e.id)), e.facts))
    case Inline(_) => e.(facts := if e.id in u then None else e.facts)
  }

  function UpdateAll(u: Updates, entries: seq<Entry>): seq<Entry> {
    seq(|entries|, i requires 0 <= i < |entries| => Update(u, entries[i]))
  }

  lemma StripKeeps(s: string, p: char -> bool)
    requires s == [] || (!p(s[0]) && !p(s[|s| - 1]))
    ensures Strip(s, p) == s
  {}

  lemma IdRoundTrip(id: string)
    requires '"' !in id
    ensures IsId(IdLine(id)) && IdOf(IdLine(id)) == id
  {
    var line := IdLine(id);
    assert line[..5] == "id = ";
    assert line[4..] == " " + Quoted(id);
    assert (" " + Quoted(id))[1..] == Quoted(id);
    StripKeeps(Quoted(id), IsSpace);
    assert Strip(line[4..], IsSpace) == Quoted(id);
    StripQuotes(id);
  }

  lemma StripQuotes(id: string)
    requires '"' !in id
    ensures Strip(Quoted(id), IsQuote) == id
  {
    var rest := id + "\"";
    assert Quoted(id)[1..] == rest;
    assert rest[..|rest| - 1] == id;
    if id == [] {
      assert StripLeft(rest, IsQuote) == [];
    } else {
      assert rest[0] == id[0];
      assert StripRight(id, IsQuote) == id;
    }
  }

  lemma PlainPasses(u: Updates, line: Line, rest: seq<Line>, st: State)
    requires PlainText(line)
    ensures Record(u, [line] + rest, st) == [line] + Record(u, rest, st)
  {
    RunCons(Emitter(u), Stepper(u), line, rest, st);
  }

  lemma IdPasses(u: Updates, line: Line, rest: seq<Line>, st: State)
    requires IsId(line)
    ensures Record(u, [line] + rest, st) == [line] + Record(u, rest, State(Some(IdOf(line)), false))
  {
    if IsRecorded(line) { NotTwo(line); }
    assert line[0] == 'i';
    RunCons(Emitter(u), Stepper(u), line, rest, st);
  }

  lemma {:induction false} PlainRecorded(u: Updates, lines: seq<Line>, st: State)
    requires forall i :: 0 <= i < |lines| ==> PlainText(lines[i])
    ensures Record(u, lines, st) == lines && Final(u, lines, st) == st
  {
    if lines != [] { PlainRecorded(u, lines[1..], st); }
  }

  lemma TagCons(line: Line, rest: seq<Line>, id: Option<string>)
    ensures Tag([line] + rest, id) == [Tagged(NextId(id, line), line)] + Tag(rest, NextId(id, line))
    ensures LastId([line] + rest, id) == LastId(rest, NextId(id, line))
  {
    RunCons(Tagger(), Follow(), line, rest, id);
    EndCons(Follow(), line, rest, id);
  }

  lemma KeptCons(u: Updates, line: Line, rest: seq<Line>, id: Option<string>)
    ensures var now := NextId(id, line);
            Kept(u, [line] + rest, id)
              == (if Updating(u, now) && IsRecorded(line) then [] else [line]) + Kept(u, rest, now)
  {
    var now := NextId(id, line);
    TagCons(line, rest, id);
    FilterCons(Tagged(now, line), Tag(rest, now), Foreign(u));
    var kept := Filter(Tag(rest, now), Foreign(u));
    assert ([Tagged(now, line)] + kept)[1..] == kept;
  }

  /** Prose through the machine: it loses the facts that stand under an updated id and leaves the
      last id it names in force. */
  lemma {:induction false} TextRecorded(u: Updates, text: seq<Line>, id: Option<string>)
    requires DELIMITER !in text
    ensures Record(u, text, State(id, false)) == Kept(u, text, id)
    ensures Final(u, text, State(id, false)) == State(LastId(text, id), false)
  {
    if text != [] {
      var line, rest := text[0], text[1..];
      TextRecorded(u, rest, NextId(id, line));
      assert text == [line] + rest;
      KeptCons(u, line, rest, id);
      TagCons(line, rest, id);
    }
  }

  lemma DelimiterPasses(u: Updates, rest: seq<Line>, id: Option<string>)
    ensures Record(u, [DELIMITER] + rest, State(id, false))
         == [DELIMITER] + ((if Updating(u, id) then FactLines(u[id.value]) else [])
                           + Record(u, rest, State(id, Updating(u, id))))
  {
    assert DELIMITER[0] == '"';
    RunCons(Emitter(u), Stepper(u), DELIMITER, rest, State(id, false));
  }

  lemma TailRecorded(u: Updates, e: Entry, st: State)
    requires Recordable(e)
    ensures Record(u, OldFacts(e) + e.tail, st) == (if Updating(u, st.id) then [] else OldFacts(e)) + e.tail
  {
    RunConcat(Emitter(u), Stepper(u), OldFacts(e), e.tail, st);
    if e.facts.Some? { PassOverFacts(u, e.facts.value, st); }
    PlainRecorded(u, e.tail, st);
  }

  /** From the closing delimiter on: the facts are those of the id in force. */
  lemma ClosingRecorded(u: Updates, e: Entry, id: Option<string>)
    requires Recordable(e)
    ensures Record(u, [DELIMITER] + (OldFacts(e) + e.tail), State(id, false))
         == [DELIMITER] + (OldFacts(e.(facts := FactsFor(u, id, e.facts))) + e.tail)
  {
    DelimiterPasses(u, OldFacts(e) + e.tail, id);
    TailRecorded(u, e, State(id, Updating(u, id)));
  }

  lemma FieldsRecorded(u: Updates, e: Entry, rest: seq<Line>, st: State)
    requires Recordable(e)
    ensures Record(u, FieldLines(e.fields) + rest, st) == FieldLines(e.fields) + Record(u, rest, st)
    ensures Final(u, FieldLines(e.fields) + rest, st) == Final(u, rest, st)
  {
    RunConcat(Emitter(u), Stepper(u), FieldLines(e.fields), rest, st);
    PlainRecorded(u, FieldLines(e.fields), st);
  }

  lemma ProseRecorded(u: Updates, e: Entry)
    requires Recordable(e) && e.why.Block?
    ensures Record(u, Prose(e), State(Some(e.id), false)) == Prose(Update(u, e))
    ensures Final(u, Prose(e), State(Some(e.id), false)) == State(LastId(e.why.text, Some(e.id)), false)
  {
    var st := State(Some(e.id), false);
    FieldsRecorded(u, e, [OPEN_WHY] + e.why.text, st);
    assert PlainText(OPEN_WHY) by { assert OPEN_WHY[0] == 'w'; }
    RunCons(Emitter(u), Stepper(u), OPEN_WHY, e.why.text, st);
    TextRecorded(u, e.why.text, Some(e.id));
  }

  lemma InlineRecorded(u: Updates, e: Entry)
    requires Recordable(e) && e.why.Inline?
    ensures Record(u, Prose(e), State(Some(e.id), false)) == Prose(e)
    ensures Final(u, Prose(e), State(Some(e.id), false)) == State(Some(e.id), false)
  {
    var line := InlineWhy(e.why.value);
    FieldsRecorded(u, e, [line], State(Some(e.id), false));
    assert PlainText(line) by { assert line[0] == 'w'; }
    RunCons(Emitter(u), Stepper(u), line, [], State(Some(e.id), false));
  }

  lemma BodyRecorded(u: Updates, e: Entry)
    requires Recordable(e)
    ensures Record(u, EntryBody(e), State(Some(e.id), false)) == EntryBody(Update(u, e))
  {
    var inside := State(Some(e.id), false);
    var rest := OldFacts(e) + e.tail;
    if e.why.Block? {
      RunConcat(Emitter(u), Stepper(u), Prose(e), [DELIMITER] + rest, inside);
      ProseRecorded(u, e);
      ClosingRecorded(u, e, LastId(e.why.text, Some(e.id)));
    } else {
      assert [] + rest == rest && [] + (OldFacts(Update(u, e)) + e.tail) == OldFacts(Update(u, e)) + e.tail;
      RunConcat(Emitter(u), Stepper(u), Prose(e), rest, inside);
      InlineRecorded(u, e);
      TailRecorded(u, e, inside);
    }
  }

  lemma EntryRecorded(u: Updates, e: Entry, st: State)
    requires Recordable(e)
    ensures Record(u, EntryLines(e), st) == EntryLines(Update(u, e))
  {
    assert PlainText(HEADER) by { assert HEADER[0] == '['; }
    PlainPasses(u, HEADER, [IdLine(e.id)] + EntryBody(e), st);
    IdRoundTrip(e.id);
    IdPasses(u, IdLine(e.id), EntryBody(e), st);
    BodyRecorded(u, e);
  }

  lemma RenderUpdated(u: Updates, entries: seq<Entry>)
    requires entries != []
    ensures Render(UpdateAll(u, entries)) == EntryLines(Update(u, entries[0])) + Render(UpdateAll(u, entries[1..]))
  {
    assert UpdateAll(u, entries)[1..] == UpdateAll(u, entries[1..]);
  }

  lemma {:induction false} EntriesRecorded(u: Updates, entries: seq<Entry>, st: State)
    requires forall i :: 0 <= i < |entries| ==> Recordable(entries[i])
    ensures Record(u, Render(entries), st) == Render(UpdateAll(u, entries))
  {
    if entries != [] {
      var e, rest := entries[0], entries[1..];
      OutputConcat(Emitter(u), Stepper(u), EntryLines(e), Render(rest), st);
      EntryRecorded(u, e, st);
      EntriesRecorded(u, rest, Final(u, EntryLines(e), st));
      RenderUpdated(u, entries);
    }
  }

  /** Recording a manifest rewrites it entry by entry. */
  lemma {:induction false} RecordRendered(u: Updates, preamble: seq<Line>, entries: seq<Entry>)
    requires forall i :: 0 <= i < |preamble| ==> !IsId(preamble[i])
    requires forall i :: 0 <= i < |entries| ==> Recordable(entries[i])
    ensures RecordAll(u, preamble + Render(entries)) == preamble + Render(UpdateAll(u, entries))
  {
    RunConcat(Emitter(u), Stepper(u), preamble, Render(entries), START);
    BodyUntouched(u, preamble, START);
    EntriesRecorded(u, entries, Final(u, preamble, START));
  }

  // ----- Loading it back -----

  function FieldMap(fields: seq<(string, string)>): map<string, string> {
    if fields == [] then map[] else map[fields[0].0 := fields[0].1] + FieldMap(fields[1..])
  }

  lemma {:induction false} FieldMapHas(fields: seq<(string, string)>, key: string)
    ensures key in FieldMap(fields) <==> HasKey(fields, key)
  {
    if fields != [] {
      var rest := fields[1..];
      FieldMapHas(rest, key);
      if HasKey(rest, key) { var i :| 0 <= i < |rest| && rest[i].0 == key; assert fields[i + 1].0 == key; }
      if HasKey(fields, key) && fields[0].0 != key {
        var i :| 0 <= i < |fields| && fields[i].0 == key;
        assert rest[i - 1].0 == key;
      }
    }
  }

  function FactMap(facts: Option<Facts>): map<string, string> {
    if facts.None? then map[]
    else
      var f := facts.value;
      map["sha256" := Quoted(f.digest), "pages" := Decimal(f.pages), "bytes" := Decimal(f.bytes)]
  }

  function EntryKeys(e: Entry): map<string, string> {
    ProseKeys(e) + FactMap(e.facts)
  }

  function ProseKeys(e: Entry): map<string, string> {
    map["id" := Quoted(e.id)] + FieldMap(e.fields)
      + map["why" := if e.why.Block? then DELIMITER else Quoted(e.why.value)]
  }

  /** The reason as loaded. */
  function Reason(why: Why): seq<Line> {
    if why.Block? then why.text else [why.value]
  }

  function EntryTable(e: Entry): Table { Table(EntryKeys(e), Reason(e.why)) }

  predicate Complete(e: Entry) {
    "url" in FieldMap(e.fields) && "category" in FieldMap(e.fields) && "difficulty" in FieldMap(e.fields)
  }

  /** The document an entry stands for. */
  function EntryDocument(e: Entry): Document
    requires Complete(e)
  {
    var fields := FieldMap(e.fields);
    Document(e.id, fields["url"], fields["category"], fields["difficulty"], Reason(e.why),
      if e.facts.None? then None else Some(e.facts.value.digest),
      if e.facts.None? then None else Some(e.facts.value.pages),
      if e.facts.None? then None else Some(e.facts.value.bytes))
  }

  function EntryDocuments(entries: seq<Entry>): (documents: seq<Document>)
    requires forall i :: 0 <= i < |entries| ==> Complete(entries[i])
    ensures |documents| == |entries|
  {
    if entries == [] then [] else [EntryDocument(entries[0])] + EntryDocuments(entries[1..])
  }

  lemma {:induction false} DocumentAt(entries: seq<Entry>, i: nat)
    requires i < |entries| && forall i :: 0 <= i < |entries| ==> Complete(entries[i])
    ensures EntryDocuments(entries)[i] == EntryDocument(entries[i])
  {
    if i > 0 { DocumentAt(entries[1..], i - 1); }
  }

  /** Outside a text, in the current table. */
  predicate Ready(st: Reader) { st.Reading? && !st.inText }

  function WithKeys(st: Reader, keys: map<string, string>): (r: Reader)
    requires st.Reading?
    ensures r.Reading?
  {
    st.(cur := st.cur.(keys := st.cur.keys + keys))
  }

  lemma {:induction false} ReadIdle(lines: seq<Line>, st: Reader)
    requires Ready(st) && forall i :: 0 <= i < |lines| ==> Idle(lines[i])
    ensures RunEnd(Read(), lines, st) == st
  {
    if lines != [] { ReadIdle(lines[1..], st); }
  }

  lemma {:induction false} ReadText(text: seq<Line>, st: Reader)
    requires st.Reading? && st.inText && forall i :: 0 <= i < |text| ==> TextLine(text[i])
    ensures RunEnd(Read(), text, st) == st.(cur := st.cur.(why := st.cur.why + text))
  {
    if text == [] {
      assert st.cur.why + text == st.cur.why;
    } else {
      TripleIsTriple();
      ReadText(text[1..], ReadLine(st, text[0]));
      assert st.cur.why + [text[0]] + text[1..] == st.cur.why + text;
    }
  }

  lemma KeysTwice(st: Reader, a: map<string, string>, b: map<string, string>)
    requires st.Reading?
    ensures WithKeys(WithKeys(st, a), b) == WithKeys(st, a + b)
  {
    assert st.cur.keys + a + b == st.cur.keys + (a + b);
  }

  /** A `key = value` line, read in a table without the key. */
  lemma ReadKey(key: string, value: string, st: Reader)
    requires Ready(st) && key !in st.cur.keys && PlainKey(key) && key != "why"
    requires PlainValue(value) && value != DELIMITER
    ensures ReadLine(st, key + " = " + value) == WithKeys(st, map[key := value])
  {
    LineIsKey(key, value, st);
    assert st.cur.keys[key := value] == st.cur.keys + map[key := value];
  }

  lemma LineIsKey(key: string, value: string, st: Reader)
    requires Ready(st) && PlainKey(key)
    ensures ReadLine(st, key + " = " + value) == AddKey(st, key, value)
  {
    SplitKeyOf(key, value);
    var line := key + " = " + value;
    assert line[0] == key[0];
    assert HEADER[0] == '[';
  }

  lemma {:induction false} ReadFields(fields: seq<(string, string)>, st: Reader)
    requires Ready(st) && DistinctKeys(fields) && forall i :: 0 <= i < |fields| ==> OneLine(fields[i])
    requires forall i :: 0 <= i < |fields| ==> fields[i].0 !in st.cur.keys
    ensures RunEnd(Read(), FieldLines(fields), st) == WithKeys(st, FieldMap(fields))
  {
    if fields == [] {
      assert st.cur.keys + map[] == st.cur.keys;
    } else {
      var first, rest := fields[0], fields[1..];
      ReadKey(first.0, first.1, st);
      var next := WithKeys(st, map[first.0 := first.1]);
      assert FieldLines(fields)[1..] == FieldLines(rest);
      forall i | 0 <= i < |rest| ensures rest[i].0 !in next.cur.keys { assert rest[i] == fields[i + 1]; }
      ReadFields(rest, next);
      KeysTwice(st, map[first.0 := first.1], FieldMap(rest));
    }
  }

  lemma QuotedIsPlain(s: string)
    requires Clean(s)
    ensures PlainValue(Quoted(s)) && Quoted(s) != DELIMITER
  {
    var value := Quoted(s);
    assert value[1..|value| - 1] == s;
    if |value| == 3 { assert value[1] == s[0]; }
  }

  lemma {:induction false} DecimalIsDigits(n: nat)
    ensures Decimal(n) != [] && forall i :: 0 <= i < |Decimal(n)| ==> '0' <= Decimal(n)[i] <= '9'
  {
    if n >= 10 { DecimalIsDigits(n / 10); }
  }

  lemma DecimalIsPlain(n: nat)
    ensures PlainValue(Decimal(n)) && Decimal(n) != DELIMITER
  {
    DecimalIsDigits(n);
    assert '0' <= Decimal(n)[0] <= '9';
  }

  lemma FactLineKeys(f: Facts)
    ensures ShaLine(f) == "sha256" + " = " + Quoted(f.digest)
    ensures PagesLine(f) == "pages" + " = " + Decimal(f.pages)
    ensures BytesLine(f) == "bytes" + " = " + Decimal(f.bytes)
  {
    assert "sha256 = \"" == "sha256" + " = " + "\"";
  }

  /** Facts are fields. */
  function FactFields(f: Facts): seq<(string, string)> {
    [("sha256", Quoted(f.digest)), ("pages", Decimal(f.pages)), ("bytes", Decimal(f.bytes))]
  }

  lemma FactFieldsAreFacts(f: Facts)
    ensures FieldLines(FactFields(f)) == FactLines(f)
  {
    FactLineKeys(f);
  }

  lemma FactFieldsMap(f: Facts)
    ensures FieldMap(FactFields(f)) == FactMap(Some(f))
  {
    var a, b, c := FactFields(f)[0], FactFields(f)[1], FactFields(f)[2];
    assert FactFields(f)[1..] == [b, c] && [b, c][1..] == [c] && [c][1..] == [];
    assert FieldMap([c]) == map[c.0 := c.1];
    assert FieldMap([b, c]) == map[b.0 := b.1, c.0 := c.1];
  }

  lemma FactFieldsAreValid(f: Facts)
    requires Clean(f.digest)
    ensures DistinctKeys(FactFields(f)) && forall i :: 0 <= i < |FactFields(f)| ==> OneLine(FactFields(f)[i])
  {
    QuotedIsPlain(f.digest);
    DecimalIsPlain(f.pages);
    DecimalIsPlain(f.bytes);
  }

  lemma ReadFacts(f: Facts, st: Reader)
    requires Ready(st) && Clean(f.digest)
    requires "sha256" !in st.cur.keys && "pages" !in st.cur.keys && "bytes" !in st.cur.keys
    ensures RunEnd(Read(), FactLines(f), st) == WithKeys(st, FactMap(Some(f)))
  {
    FactFieldsAreFacts(f);
    FactFieldsMap(f);
    FactFieldsAreValid(f);
    ReadFields(FactFields(f), st);
  }

  lemma ReservedIsFree(e: Entry, key: string)
    requires ValidEntry(e) && key in RESERVED
    ensures key !in FieldMap(e.fields)
  {
    FieldMapHas(e.fields, key);
  }

  lemma ReadWhy(st: Reader)
    requires Ready(st) && "why" !in st.cur.keys
    ensures ReadLine(st, OPEN_WHY) == Reading(st.done, Table(st.cur.keys + map["why" := DELIMITER], st.cur.why), true)
  {
    assert OPEN_WHY == "why" + " = " + DELIMITER;
    LineIsKey("why", DELIMITER, st);
    assert st.cur.keys["why" := DELIMITER] == st.cur.keys + map["why" := DELIMITER];
  }

  lemma ProseSteps(step: (Reader, Line) -> Reader, fields: seq<Line>, line: Line, text: seq<Line>,
                                      st: Reader, a: Reader, b: Reader, c: Reader)
    requires RunEnd(step, fields, st) == a && step(a, line) == b && RunEnd(step, text, b) == c
    ensures RunEnd(step, fields + ([line] + text), st) == c
  {
    EndNext(step, line, text, a, b, c);
    EndThen(step, fields, [line] + text, st, a, c);
  }

  /** The fields and the text: from the id to the closing delimiter. */
  lemma ReadProse(e: Entry, st: Reader)
    requires ValidEntry(e) && e.why.Block? && Ready(st) && st.cur == Table(map["id" := Quoted(e.id)], [])
    ensures RunEnd(Read(), Prose(e), st) == Reading(st.done, Table(ProseKeys(e), e.why.text), true)
  {
    ReadFields(e.fields, st);
    var a := WithKeys(st, FieldMap(e.fields));
    ReservedIsFree(e, "why");
    ReadWhy(a);
    var b := Reading(st.done, Table(ProseKeys(e), []), true);
    ReadWhole(e.why.text, b);
    var c := Reading(st.done, Table(ProseKeys(e), e.why.text), true);
    ProseSteps(Read(), FieldLines(e.fields), OPEN_WHY, e.why.text, st, a, b, c);
  }

  lemma {:induction false} ReadWhole(text: seq<Line>, st: Reader)
    requires st.Reading? && st.inText && st.cur.why == [] && forall i :: 0 <= i < |text| ==> TextLine(text[i])
    ensures RunEnd(Read(), text, st) == st.(cur := Table(st.cur.keys, text))
  {
    ReadText(text, st);
    assert [] + text == text;
  }

  lemma ReadInlineWhy(value: string, st: Reader)
    requires Ready(st) && "why" !in st.cur.keys && Clean(value)
    ensures ReadLine(st, InlineWhy(value))
         == Reading(st.done, Table(st.cur.keys + map["why" := Quoted(value)], [value]), false)
  {
    QuotedIsPlain(value);
    UnquoteQuoted(value);
    assert InlineWhy(value) == "why" + " = " + Quoted(value);
    LineIsKey("why", Quoted(value), st);
    assert st.cur.keys["why" := Quoted(value)] == st.cur.keys + map["why" := Quoted(value)];
  }

  /** The fields and a reason on one line. */
  lemma ReadInline(e: Entry, st: Reader)
    requires ValidEntry(e) && e.why.Inline? && Ready(st) && st.cur == Table(map["id" := Quoted(e.id)], [])
    ensures RunEnd(Read(), Prose(e), st) == Reading(st.done, Table(ProseKeys(e), [e.why.value]), false)
  {
    ReadFields(e.fields, st);
    var a := WithKeys(st, FieldMap(e.fields));
    ReservedIsFree(e, "why");
    ReadInlineWhy(e.why.value, a);
    var b := Reading(a.done, Table(ProseKeys(e), [e.why.value]), false);
    EndCons(Read(), InlineWhy(e.why.value), [], a);
    EndThen(Read(), FieldLines(e.fields), [InlineWhy(e.why.value)], st, a, b);
  }

  /** From the facts to the next header. */
  lemma ReadTail(e: Entry, st: Reader)
    requires ValidEntry(e) && Ready(st) && st.cur.keys == ProseKeys(e)
    ensures RunEnd(Read(), OldFacts(e) + e.tail, st) == Reading(st.done, Table(EntryKeys(e), st.cur.why), false)
  {
    EndConcat(Read(), OldFacts(e), e.tail, st);
    ReservedIsFree(e, "sha256");
    ReservedIsFree(e, "pages");
    ReservedIsFree(e, "bytes");
    if e.facts.Some? {
      ReadFacts(e.facts.value, st);
    } else {
      assert st.cur.keys + map[] == st.cur.keys;
    }
    ReadIdle(e.tail, WithKeys(st, FactMap(e.facts)));
  }

  lemma ReadBody(e: Entry, st: Reader)
    requires ValidEntry(e) && Ready(st) && st.cur == Table(map["id" := Quoted(e.id)], [])
    ensures RunEnd(Read(), EntryBody(e), st) == Reading(st.done, EntryTable(e), false)
  {
    var rest := OldFacts(e) + e.tail;
    var outside := Reading(st.done, Table(ProseKeys(e), Reason(e.why)), false);
    if e.why.Block? {
      EndConcat(Read(), Prose(e), [DELIMITER] + rest, st);
      ReadProse(e, st);
      EndCons(Read(), DELIMITER, rest, outside.(inText := true));
    } else {
      assert [] + rest == rest;
      EndConcat(Read(), Prose(e), rest, st);
      ReadInline(e, st);
    }
    ReadTail(e, outside);
  }

  lemma {:induction false} ReadEntry(e: Entry, st: Reader)
    requires ValidEntry(e) && Ready(st)
    ensures RunEnd(Read(), EntryLines(e), st) == Reading(st.done + [st.cur], EntryTable(e), false)
  {
    var table := Reading(st.done + [st.cur], EMPTY, false);
    EndCons(Read(), HEADER, [IdLine(e.id)] + EntryBody(e), st);
    QuotedIsPlain(e.id);
    assert IdLine(e.id) == "id" + " = " + Quoted(e.id);
    ReadKey("id", Quoted(e.id), table);
    var named := WithKeys(table, map["id" := Quoted(e.id)]);
    assert map[] + map["id" := Quoted(e.id)] == map["id" := Quoted(e.id)];
    EndCons(Read(), IdLine(e.id), EntryBody(e), table);
    ReadBody(e, named);
  }

  /** The reader after the first `n` tables. */
  function After(tables: seq<Table>, n: nat): (st: Reader)
    requires n <= |tables|
    ensures Ready(st)
  {
    if n == 0 then FRESH else Reading([EMPTY] + tables[..n - 1], tables[n - 1], false)
  }

  lemma ReadBlocks(step: (Reader, Line) -> Reader, blocks: seq<seq<Line>>, tables: seq<Table>)
    requires |blocks| == |tables|
    requires forall i :: 0 <= i < |blocks| ==> RunEnd(step, blocks[i], After(tables, i)) == After(tables, i + 1)
    ensures RunEnd(step, Flatten(blocks), FRESH) == After(tables, |tables|)
  {
    EndFlatten(step, blocks, seq(|tables| + 1, i requires 0 <= i <= |tables| => After(tables, i)));
  }

  function Blocks(entries: seq<Entry>): (blocks: seq<seq<Line>>)
    ensures |blocks| == |entries|
  {
    if entries == [] then [] else [EntryLines(entries[0])] + Blocks(entries[1..])
  }

  function Tables(entries: seq<Entry>): (tables: seq<Table>)
    ensures |tables| == |entries|
  {
    if entries == [] then [] else [EntryTable(entries[0])] + Tables(entries[1..])
  }

  lemma {:induction false} RenderIsBlocks(entries: seq<Entry>)
    ensures Render(entries) == Flatten(Blocks(entries))
  {
    if entries != [] {
      RenderIsBlocks(entries[1..]);
      assert ([EntryLines(entries[0])] + Blocks(entries[1..]))[1..] == Blocks(entries[1..]);
    }
  }

  lemma {:induction false} BlockAt(entries: seq<Entry>, i: nat)
    requires i < |entries|
    ensures Blocks(entries)[i] == EntryLines(entries[i])
  {
    if i > 0 {
      BlockAt(entries[1..], i - 1);
      assert Blocks(entries)[i] == Blocks(entries[1..])[i - 1];
    }
  }

  lemma {:induction false} TableAt(entries: seq<Entry>, i: nat)
    requires i < |entries|
    ensures Tables(entries)[i] == EntryTable(entries[i])
  {
    if i > 0 { TableAt(entries[1..], i - 1); }
  }

  lemma NextTable(tables: seq<Table>, i: nat)
    requires i < |tables|
    ensures After(tables, i + 1) == Reading(After(tables, i).done + [After(tables, i).cur], tables[i], false)
  {
    if i > 0 { assert [EMPTY] + tables[..i - 1] + [tables[i - 1]] == [EMPTY] + tables[..i]; }
  }

  /** The keys a document takes from its entry's own fields. */
  lemma OwnKey(e: Entry, key: string)
    requires key in FieldMap(e.fields) && key !in RESERVED
    ensures key in EntryKeys(e) && EntryKeys(e)[key] == FieldMap(e.fields)[key]
  {}

  lemma FactKeys(e: Entry)
    requires ValidEntry(e)
    ensures var keys, f := EntryKeys(e), e.facts;
            && ("sha256" in keys <==> f.Some?) && ("pages" in keys <==> f.Some?) && ("bytes" in keys <==> f.Some?)
            && (f.Some? ==> keys["sha256"] == Quoted(f.value.digest) && keys["pages"] == Decimal(f.value.pages)
                            && keys["bytes"] == Decimal(f.value.bytes))
  {
    ReservedIsFree(e, "sha256");
    ReservedIsFree(e, "pages");
    ReservedIsFree(e, "bytes");
  }

  lemma IdAndWhy(e: Entry)
    requires ValidEntry(e)
    ensures "id" in EntryKeys(e) && EntryKeys(e)["id"] == Quoted(e.id) && "why" in EntryKeys(e)
  {
    ReservedIsFree(e, "id");
  }

  lemma UnquoteQuoted(s: string)
    ensures Unquote(Quoted(s)) == s
  {}

  lemma TableIsDocument(e: Entry)
    requires ValidEntry(e) && Complete(e)
    ensures REQUIRED <= EntryTable(e).keys.Keys && ToDocument(EntryTable(e)) == EntryDocument(e)
  {
    OwnKey(e, "url");
    OwnKey(e, "category");
    OwnKey(e, "difficulty");
    IdAndWhy(e);
    FactKeys(e);
    UnquoteQuoted(e.id);
    if e.facts.Some? {
      UnquoteQuoted(e.facts.value.digest);
      DecimalRoundTrip(e.facts.value.pages);
      DecimalRoundTrip(e.facts.value.bytes);
    }
  }

  lemma {:induction false} TablesAreDocuments(entries: seq<Entry>)
    requires forall i :: 0 <= i < |entries| ==> ValidEntry(entries[i]) && Complete(entries[i])
    ensures ToDocuments(Tables(entries)) == Ok(EntryDocuments(entries))
  {
    if entries != [] {
      var table, rest := EntryTable(entries[0]), Tables(entries[1..]);
      TableIsDocument(entries[0]);
      TablesAreDocuments(entries[1..]);
      ToDocumentsCons(table, rest);
    }
  }

  lemma ToDocumentsCons(table: Table, rest: seq<Table>)
    requires REQUIRED <= table.keys.Keys && ToDocuments(rest).Ok?
    ensures ToDocuments([table] + rest) == Ok([ToDocument(table)] + ToDocuments(rest).documents)
  {
    assert ([table] + rest)[1..] == rest;
  }

  lemma LastTable(tables: seq<Table>)
    requires tables != []
    ensures var end := After(tables, |tables|); end.done != [] && end.done[1..] + [end.cur] == tables
  {
    var n := |tables| - 1;
    var end := After(tables, |tables|);
    assert end.done == [EMPTY] + tables[..n];
    assert end.done[1..] == tables[..n];
    assert tables == tables[..n] + [tables[n]];
  }

  lemma {:induction false} FinishTables(tables: seq<Table>)
    requires tables != []
    ensures Finish(After(tables, |tables|)) == ToDocuments(tables)
  {
    LastTable(tables);
  }

  /** Where the reader stands after a well-formed manifest. */
  lemma RenderedReads(preamble: seq<Line>, entries: seq<Entry>)
    requires ValidManifest(preamble, entries)
    ensures RunEnd(Read(), preamble + Render(entries), FRESH) == After(Tables(entries), |entries|)
  {
    ReadIdle(preamble, FRESH);
    RenderIsBlocks(entries);
    var blocks, tables := Blocks(entries), Tables(entries);
    forall i | 0 <= i < |entries| ensures RunEnd(Read(), blocks[i], After(tables, i)) == After(tables, i + 1) {
      BlockAt(entries, i);
      TableAt(entries, i);
      NextTable(tables, i);
      ReadEntry(entries[i], After(tables, i));
    }
    ReadBlocks(Read(), blocks, tables);
    EndThen(Read(), preamble, Render(entries), FRESH, FRESH, After(tables, |entries|));
  }

  lemma CompleteIsRequired(e: Entry)
    requires ValidEntry(e)
    ensures REQUIRED <= EntryTable(e).keys.Keys <==> Complete(e)
  {
    IdAndWhy(e);
    if Complete(e) { TableIsDocument(e); }
  }

  lemma {:induction false} IncompleteIsMissing(entries: seq<Entry>, i: nat)
    requires i < |entries| && !Complete(entries[i]) && forall j :: 0 <= j < |entries| ==> ValidEntry(entries[j])
    ensures ToDocuments(Tables(entries)) == MissingKey
  {
    CompleteIsRequired(entries[0]);
    if i > 0 { IncompleteIsMissing(entries[1..], i - 1); }
  }

  /** Loading a well-formed manifest gives its entries, in order; a manifest without one is an error, and
      so is an entry without a required key. */
  lemma {:induction false} LoadRendered(preamble: seq<Line>, entries: seq<Entry>)
    requires ValidManifest(preamble, entries)
    ensures entries == [] ==> Load(preamble + Render(entries)) == NoDocuments
    ensures entries != [] && (forall i :: 0 <= i < |entries| ==> Complete(entries[i])) ==>
              Load(preamble + Render(entries)) == Ok(EntryDocuments(entries))
    ensures (exists i :: 0 <= i < |entries| && !Complete(entries[i])) ==> Load(preamble + Render(entries)) == MissingKey
  {
    RenderedReads(preamble, entries);
    if entries != [] {
      FinishTables(Tables(entries));
      if forall i :: 0 <= i < |entries| ==> Complete(entries[i]) {
        TablesAreDocuments(entries);
      } else {
        var i :| 0 <= i < |entries| && !Complete(entries[i]);
        IncompleteIsMissing(entries, i);
      }
    }
  }

  lemma {:induction false} BrokenStays(lines: seq<Line>)
    ensures RunEnd(Read(), lines, Broken) == Broken
  {
    if lines != [] { BrokenStays(lines[1..]); }
  }

  lemma FactAgainBreaks(f: Facts, rest: seq<Line>, st: Reader)
    requires Ready(st) && "sha256" in st.cur.keys
    ensures RunEnd(Read(), FactLines(f) + rest, st) == Broken
  {
    FactLineKeys(f);
    LineIsKey("sha256", Quoted(f.digest), st);
    var more := [PagesLine(f), BytesLine(f)] + rest;
    assert FactLines(f) + rest == [ShaLine(f)] + more;
    BrokenStays(more);
    EndCons(Read(), ShaLine(f), more, st);
  }

  lemma LastHasFacts(entries: seq<Entry>)
    requires entries != [] && ValidEntry(entries[|entries| - 1]) && entries[|entries| - 1].facts.Some?
    ensures Ready(After(Tables(entries), |entries|)) && "sha256" in After(Tables(entries), |entries|).cur.keys
  {
    TableAt(entries, |entries| - 1);
    FactKeys(entries[|entries| - 1]);
  }

  /** Why old facts must go: facts twice in one entry make the whole manifest unreadable, whatever they
      are and whatever follows. */
  lemma {:induction false} FactsTwiceAreRefused(preamble: seq<Line>, entries: seq<Entry>, f: Facts, rest: seq<Line>)
    requires ValidManifest(preamble, entries) && entries != [] && entries[|entries| - 1].facts.Some?
    ensures Load(preamble + Render(entries) + (FactLines(f) + rest)) == Refused
  {
    var st := After(Tables(entries), |entries|);
    RenderedReads(preamble, entries);
    LastHasFacts(entries);
    FactAgainBreaks(f, rest, st);
    EndThen(Read(), preamble + Render(entries), FactLines(f) + rest, FRESH, st, Broken);
  }

  // ----- Loading after recording -----

  ghost predicate CleanUpdates(u: Updates) {
    forall id :: id in u ==> Clean(u[id].digest)
  }

  ghost predicate LoadableManifest(preamble: seq<Line>, entries: seq<Entry>) {
    ValidManifest(preamble, entries) && entries != [] && forall i :: 0 <= i < |entries| ==> Complete(entries[i])
  }

  lemma {:induction false} LinesOfTag(text: seq<Line>, id: Option<string>)
    ensures |Tag(text, id)| == |text| && LinesOf(Tag(text, id)) == text
  {
    if text != [] {
      var line, rest := text[0], text[1..];
      assert text == [line] + rest;
      TagCons(line, rest, id);
      LinesOfTag(rest, NextId(id, line));
      var tagged := Tag(rest, NextId(id, line));
      assert ([Tagged(NextId(id, line), line)] + tagged)[1..] == tagged;
    }
  }

  lemma {:induction false} LinesOfHas(tagged: seq<Tagged>)
    ensures |LinesOf(tagged)| == |tagged| && forall i :: 0 <= i < |tagged| ==> LinesOf(tagged)[i] == tagged[i].line
  {
    if tagged != [] { LinesOfHas(tagged[1..]); }
  }

  /** What is kept are lines of the prose. */
  lemma KeptFromText(u: Updates, text: seq<Line>, id: Option<string>, i: nat)
    requires i < |Kept(u, text, id)|
    ensures Kept(u, text, id)[i] in text
  {
    var tagged := Tag(text, id);
    var kept := Filter(tagged, Foreign(u));
    LinesOfHas(kept);
    assert kept[i] in kept;
    FilterKeeps(tagged, Foreign(u), kept[i]);
    var j :| 0 <= j < |tagged| && tagged[j] == kept[i];
    LinesOfTag(text, id);
    LinesOfHas(tagged);
    assert text[j] == tagged[j].line;
  }

  lemma UpdateIsValid(u: Updates, e: Entry)
    requires ValidEntry(e) && CleanUpdates(u)
    ensures ValidEntry(Update(u, e))
  {
    if e.why.Block? {
      var text, kept := e.why.text, Kept(u, e.why.text, Some(e.id));
      forall i | 0 <= i < |kept| ensures TextLine(kept[i]) {
        KeptFromText(u, text, Some(e.id), i);
        var j :| 0 <= j < |text| && text[j] == kept[i];
      }
    }
  }

  lemma UpdatedIsLoadable(u: Updates, preamble: seq<Line>, entries: seq<Entry>)
    requires LoadableManifest(preamble, entries) && CleanUpdates(u)
    ensures LoadableManifest(preamble, UpdateAll(u, entries))
  {
    var after := UpdateAll(u, entries);
    forall i | 0 <= i < |entries| ensures ValidEntry(after[i]) && Complete(after[i]) {
      UpdateIsValid(u, entries[i]);
      assert after[i].fields == entries[i].fields;
    }
  }

  lemma ValidManifestIsRecorded(u: Updates, preamble: seq<Line>, entries: seq<Entry>)
    requires ValidManifest(preamble, entries)
    ensures RecordAll(u, preamble + Render(entries)) == preamble + Render(UpdateAll(u, entries))
  {
    forall i | 0 <= i < |preamble| ensures !IsId(preamble[i]) { IdleIsPlain(preamble[i]); }
    forall i | 0 <= i < |entries| ensures Recordable(entries[i]) { ValidIsRecordable(entries[i]); }
    RecordRendered(u, preamble, entries);
  }

  /** After recording, a manifest still loads, whatever its prose looks like: every document comes
      back with the prose and the facts that recording its entry left it. */
  lemma {:induction false} LoadAfterRecord(u: Updates, preamble: seq<Line>, entries: seq<Entry>)
    requires LoadableManifest(preamble, entries) && CleanUpdates(u)
    ensures var loaded := Load(RecordAll(u, preamble + Render(entries)));
            && loaded.Ok? && |loaded.documents| == |entries|
            && forall i :: 0 <= i < |entries| ==>
                 Complete(Update(u, entries[i])) && loaded.documents[i] == EntryDocument(Update(u, entries[i]))
  {
    var after := UpdateAll(u, entries);
    ValidManifestIsRecorded(u, preamble, entries);
    UpdatedIsLoadable(u, preamble, entries);
    LoadRendered(preamble, after);
    forall i | 0 <= i < |entries| ensures EntryDocuments(after)[i] == EntryDocument(after[i]) { DocumentAt(after, i); }
  }

  // ----- When that is what was meant -----

  /** What recording is for: the prose untouched, and the facts replaced if the document's own id is
      among the updates. */
  function Meant(u: Updates, e: Entry): Entry {
    e.(facts := FactsFor(u, Some(e.id), e.facts))
  }

  /** Something to be seen in the entry and the updates.  In prose: no line that looks like a fact
      stands under an updated id, and the id in force at the end brings the same facts as the entry's
      own.  On one line: the id is not among the updates. */
  ghost predicate Undisturbed(u: Updates, e: Entry) {
    match e.why
    case Block(text) =>
      && (forall t :: t in Tag(text, Some(e.id)) ==> !(Updating(u, t.id) && IsRecorded(t.line)))
      && FactsFor(u, LastId(text, Some(e.id)), e.facts) == FactsFor(u, Some(e.id), e.facts)
    case Inline(_) => e.id !in u
  }

  /** Prose is kept whole exactly when none of it is a fact under an updated id. */
  lemma KeptWhole(u: Updates, text: seq<Line>, id: Option<string>)
    ensures Kept(u, text, id) == text <==> forall t :: t in Tag(text, id) ==> !(Updating(u, t.id) && IsRecorded(t.line))
  {
    var tagged := Tag(text, id);
    LinesOfTag(text, id);
    LinesOfHas(Filter(tagged, Foreign(u)));
    FilterLength(tagged, Foreign(u));
    if forall t :: t in tagged ==> Foreign(u)(t) { FilterAll(tagged, Foreign(u)); }
  }

  lemma SameDocument(a: Entry, b: Entry)
    requires Complete(a) && Complete(b) && a.id == b.id && a.fields == b.fields
    ensures EntryDocument(a) == EntryDocument(b) <==> Reason(a.why) == Reason(b.why) && a.facts == b.facts
  {}

  /** Every document comes back from the recorded manifest as it was meant to, its prose untouched and
      its own facts in place, exactly when its entry is undisturbed. */
  lemma {:induction false} LoadAfterRecordIff(u: Updates, preamble: seq<Line>, entries: seq<Entry>, i: nat)
    requires LoadableManifest(preamble, entries) && CleanUpdates(u) && i < |entries|
    ensures var loaded := Load(RecordAll(u, preamble + Render(entries)));
            && loaded.Ok? && |loaded.documents| == |entries|
            && (loaded.documents[i] == EntryDocument(Meant(u, entries[i])) <==> Undisturbed(u, entries[i]))
  {
    LoadAfterRecord(u, preamble, entries);
    SameDocument(Update(u, entries[i]), Meant(u, entries[i]));
    if entries[i].why.Block? { KeptWhole(u, entries[i].why.text, Some(entries[i].id)); }
  }

  /** Prose without a line that looks like an id or a fact is never disturbed. */
  lemma PlainProseIsUndisturbed(u: Updates, e: Entry)
    requires e.why.Block? && forall i :: 0 <= i < |e.why.text| ==> !IsId(e.why.text[i]) && !IsRecorded(e.why.text[i])
    ensures Undisturbed(u, e)
  {
    TagPlain(e.why.text, Some(e.id));
  }

  /** A manifest of one entry loads after recording, but its document is not the one meant. */
  ghost predicate ComesBackWrong(u: Updates, e: Entry) {
    var loaded := Load(RecordAll(u, Render([e])));
    && Complete(e) && loaded.Ok? && |loaded.documents| == 1
    && loaded.documents[0] != EntryDocument(Meant(u, e))
  }

  lemma DisturbedComesBackWrong(u: Updates, e: Entry)
    requires ValidEntry(e) && Complete(e) && CleanUpdates(u) && !Undisturbed(u, e)
    ensures ComesBackWrong(u, e)
  {
    LoadAfterRecordIff(u, [], [e], 0);
    assert [] + Render([e]) == Render([e]);
  }

  /** An entry with every required key and this reason. */
  function Sample(why: Why): Entry { Entry("a", SAMPLE_FIELDS, why, None, []) }

  const SAMPLE_FIELDS: seq<(string, string)> := [("url", Quoted("u")), ("category", Quoted("c")), ("difficulty", "[]")]

  lemma FieldIsValid(key: string, value: string)
    requires PlainKey(key) && key[0] != 'w' && key[0] != 'i' && key[0] != 's' && key[0] != 'p' && key[0] != 'b'
    requires PlainValue(value) && value != DELIMITER
    ensures ValidField((key, value))
  {
    assert forall r :: r in RESERVED ==> r[0] in "iwspb";
  }

  lemma SampleKeys()
    ensures ValidFields(SAMPLE_FIELDS)
    ensures HasKey(SAMPLE_FIELDS, "url") && HasKey(SAMPLE_FIELDS, "category") && HasKey(SAMPLE_FIELDS, "difficulty")
  {
    QuotedIsPlain("u");
    QuotedIsPlain("c");
    var url, category, difficulty := SAMPLE_FIELDS[0], SAMPLE_FIELDS[1], SAMPLE_FIELDS[2];
    FieldIsValid("url", Quoted("u"));
    FieldIsValid("category", Quoted("c"));
    FieldIsValid("difficulty", "[]");
    assert url.0[0] == 'u' && category.0[0] == 'c' && difficulty.0[0] == 'd';
  }

  lemma SampleIsComplete(why: Why)
    requires ValidWhy(why)
    ensures ValidEntry(Sample(why)) && Complete(Sample(why))
  {
    SampleKeys();
    FieldMapHas(SAMPLE_FIELDS, "url");
    FieldMapHas(SAMPLE_FIELDS, "category");
    FieldMapHas(SAMPLE_FIELDS, "difficulty");
  }

  lemma IdLineFollows(id: string, before: Option<string>)
    requires Clean(id)
    ensures LastId([IdLine(id)], before) == Some(id)
  {
    IdRoundTrip(id);
    EndCons(Follow(), IdLine(id), [], before);
  }

  ghost predicate QuotesAt(line: Line, i: nat) {
    i + 2 < |line| && line[i] == '"' && line[i + 1] == '"' && line[i + 2] == '"'
  }

  lemma {:induction false} TripleIsThree(line: Line) returns (i: nat)
    requires HasTriple(line)
    ensures QuotesAt(line, i)
  {
    if line[..3] == DELIMITER {
      assert line[..3][0] == '"' && line[..3][1] == '"' && line[..3][2] == '"';
      i := 0;
    } else {
      var j := TripleIsThree(line[1..]);
      i := j + 1;
    }
  }

  lemma IdLineIsText(id: string)
    requires Clean(id)
    ensures TextLine(IdLine(id))
  {
    var line := IdLine(id);
    var last := |line| - 1;
    assert line[0] == 'i' && line[1] == 'd' && line[2] == ' ' && line[3] == '=' && line[4] == ' ';
    assert forall i :: 6 <= i < last ==> line[i] == id[i - 6];
    if HasTriple(line) {
      var i := TripleIsThree(line);
      assert false;
    }
  }

  /** A line of prose that begins like a fact is dropped when the document is updated ... */
  lemma ProseIsDropped(f: Facts, line: Line)
    requires Clean(f.digest) && IsRecorded(line) && TextLine(line)
    ensures ValidEntry(Sample(Block([line]))) && ComesBackWrong(map["a" := f], Sample(Block([line])))
    ensures Update(map["a" := f], Sample(Block([line]))).why == Block([])
  {
    var u, e := map["a" := f], Sample(Block([line]));
    NotTwo(line);
    assert [line] + [] == [line];
    KeptCons(u, line, [], Some("a"));
    TagCons(line, [], Some("a"));
    assert Tagged(Some("a"), line) in Tag([line], Some("a"));
    SampleIsComplete(e.why);
    DisturbedComesBackWrong(u, e);
  }

  /** ... one that names another document takes its facts away ... */
  lemma FactsAreLost(f: Facts, id: string)
    requires Clean(f.digest) && Clean(id) && id != "a"
    ensures ValidEntry(Sample(Block([IdLine(id)]))) && ComesBackWrong(map["a" := f], Sample(Block([IdLine(id)])))
    ensures Update(map["a" := f], Sample(Block([IdLine(id)]))).facts == None
  {
    IdLineIsText(id);
    IdLineFollows(id, Some("a"));
    SampleIsComplete(Block([IdLine(id)]));
    DisturbedComesBackWrong(map["a" := f], Sample(Block([IdLine(id)])));
  }

  /** ... and a reason on one line leaves them out, whatever it says. */
  lemma InlineIsNotRecorded(f: Facts, value: string)
    requires Clean(f.digest) && Clean(value)
    ensures ValidEntry(Sample(Inline(value))) && ComesBackWrong(map["a" := f], Sample(Inline(value)))
    ensures Update(map["a" := f], Sample(Inline(value))).facts == None
  {
    SampleIsComplete(Inline(value));
    DisturbedComesBackWrong(map["a" := f], Sample(Inline(value)));
  }
}
